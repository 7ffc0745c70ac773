/**
 * The Python values that occur in Cytoscape element records, the node
 * identifiers of a graph, Python's str() on those identifiers, and the
 * exceptions the element builder can raise.
 */
module PyValues {

  /** A value stored in an element record: a Python int, float, str, bool, list or dict. */
  datatype Value =
    | IntV(i: int)
    | RealV(r: real)
    | StrV(s: string)
    | BoolV(b: bool)
    | ListV(items: seq<Value>)
    | MapV(fields: map<string, Value>)

  /** A node identifier of the graph: a Python int or str. */
  datatype NodeId = IntId(n: int) | StrId(s: string)

  /** The exception a call raises. */
  datatype Error =
    | NotBipartite                                  // ValueError: the graph is not a BipartiteGraph
    | MissingCoordinate(id: string)                 // KeyError: the layout has no position for the node
    | NoneHasNoItems                                // AttributeError: None.items()
    | MissingNodeOverride(id: string)               // KeyError: no override entry for the node
    | MissingEdgeOverride(source: string, target: string)  // KeyError: no override entry for the edge
    | DataNotDict                                   // AttributeError: the "data" field is not a dict
    | MissingColumn(column: string)                 // KeyError: the data frame has no such column

  /** How an identifier is stored in a record before it is turned into a string. */
  function IdValue(id: NodeId): Value {
    match id
    case IntId(n) => IntV(n)
    case StrId(s) => StrV(s)
  }

  function DigitChar(d: nat): (c: char)
    requires d < 10
    ensures '0' <= c <= '9'
    ensures c == '0' <==> d == 0
  {
    ('0' as int + d) as char
  }

  function DigitValue(c: char): (d: nat)
    ensures '0' <= c <= '9' ==> d < 10 && DigitChar(d) == c
  {
    if '0' <= c <= '9' then c as int - '0' as int else 0
  }

  /** The decimal digits of n, most significant first, without leading zeros. */
  function NatToString(n: nat): (s: string)
    ensures |s| >= 1
    ensures forall k :: 0 <= k < |s| ==> '0' <= s[k] <= '9'
    ensures s[0] == '0' <==> n == 0
  {
    if n < 10 then [DigitChar(n)] else NatToString(n / 10) + [DigitChar(n % 10)]
  }

  /** Python's str() of an int. */
  function IntToString(n: int): (s: string)
    ensures |s| >= 1
    ensures s[0] == '-' <==> n < 0
  {
    if n < 0 then "-" + NatToString(-n) else NatToString(n)
  }

  /** Reads a decimal numeral back; the partner of NatToString. */
  function ParseNat(s: string): nat {
    if s == [] then 0 else ParseNat(s[..|s| - 1]) * 10 + DigitValue(s[|s| - 1])
  }

  /** Reads an optionally signed decimal numeral back; the partner of IntToString. */
  function ParseInt(s: string): int {
    if |s| > 0 && s[0] == '-' then -(ParseNat(s[1..]) as int) else ParseNat(s)
  }

  lemma {:induction false} ParseNatToString(n: nat)
    ensures ParseNat(NatToString(n)) == n
  {
    var s := NatToString(n);
    if n >= 10 {
      assert s[..|s| - 1] == NatToString(n / 10);
      ParseNatToString(n / 10);
    }
  }

  lemma IntToStringRoundTrip(n: int)
    ensures ParseInt(IntToString(n)) == n
  {
    if n < 0 {
      ParseNatToString(-n);
      assert IntToString(n)[1..] == NatToString(-n);
    } else {
      ParseNatToString(n);
    }
  }

  /** Distinct ints have distinct strings. */
  lemma IntToStringInjective(a: int, b: int)
    ensures IntToString(a) == IntToString(b) <==> a == b
  {
    IntToStringRoundTrip(a);
    IntToStringRoundTrip(b);
  }

  /** Python's str() of a node identifier. */
  function Str(id: NodeId): string {
    match id
    case IntId(n) => IntToString(n)
    case StrId(s) => s
  }

  /** Python's str() of a value stored as an identifier. */
  function StrOf(v: Value): (s: string)
    requires v.IntV? || v.StrV?
  {
    if v.IntV? then IntToString(v.i) else v.s
  }

  /** Identifiers of one kind keep apart under str(); the int 1 and the str "1" do not. */
  lemma StrSeparatesSameKind(a: NodeId, b: NodeId)
    requires a.IntId? == b.IntId?
    ensures Str(a) == Str(b) <==> a == b
  {
    if a.IntId? {
      IntToStringInjective(a.n, b.n);
    }
  }

  lemma StrMergesIntAndText()
    ensures IntId(1) != StrId("1") && Str(IntId(1)) == Str(StrId("1"))
  {
    assert NatToString(1) == [DigitChar(1)];
  }
}
