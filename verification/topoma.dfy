/**
 * The `topoma!` procedural macro: parses its input as a `SqlMonolith` and
 * expands to one string constant per unit, table first, then drop, then the
 * queries in source order; a parse error becomes a compile error.
 */
module Topoma {
  import opened TopomaParse

  /** The macro's expansion: the constant items, or the compile error raised instead. */
  datatype Output = Consts(items: seq<ConstItem>) | CompileError(message: string)

  /** The units of a monolith in the order they are expanded. */
  function UnitsOf(m: SqlMonolith): (units: seq<SqlUnit>)
    ensures |units| == 2 + |m.queries|
    ensures units[0] == m.table && units[1] == m.drop
    ensures forall i :: 0 <= i < |m.queries| ==> units[i + 2] == m.queries[i]
  {
    [m.table, m.drop] + m.queries
  }

  /** What `topoma!` expands to: `ConstOf` of each unit of the monolith. */
  function Expansion(m: SqlMonolith): (items: seq<ConstItem>)
    ensures |items| == 2 + |m.queries|
    ensures items[0] == ConstOf(m.table) && items[1] == ConstOf(m.drop)
    ensures forall i :: 0 <= i < |m.queries| ==> items[i + 2] == ConstOf(m.queries[i])
  {
    seq(|UnitsOf(m)|, i requires 0 <= i < |UnitsOf(m)| => ConstOf(UnitsOf(m)[i]))
  }

  /** Expanding the monolith that the units of a parse make gives back those units, each as one constant. */
  lemma ExpansionOfParse(units: seq<SqlUnit>)
    requires |units| >= 2
    ensures var items := Expansion(SqlMonolith(units[0], units[1], units[2..]));
            && |items| == |units|
            && forall i :: 0 <= i < |units| ==> items[i].name == units[i].name && items[i].value == Rendered(units[i].sql)
  {
    assert UnitsOf(SqlMonolith(units[0], units[1], units[2..])) == units;
  }

  /** `topoma`: parse the input, then expand every unit with `to_tokens`. */
  method Expand(ts: seq<Token>, env: MacroEnv) returns (out: Output)
    ensures ParseTerminated(ts, env).Err? ==> out == CompileError(ParseTerminated(ts, env).error.message)
    ensures ParseTerminated(ts, env).Ok? && |ParseTerminated(ts, env).value| < 2 ==>
              out == CompileError("unexpected end of input, " + MonolithMessage)
    ensures ParseTerminated(ts, env).Ok? && |ParseTerminated(ts, env).value| >= 2 ==>
              var units := ParseTerminated(ts, env).value;
              out == Consts(Expansion(SqlMonolith(units[0], units[1], units[2..])))
  {
    var parsed := ParseMonolith(ts, env);
    if parsed.Err? {
      return CompileError(parsed.error.message);
    }
    var items := ToTokensAll(UnitsOf(parsed.value));
    ExpansionOfItems(parsed.value, items);
    out := Consts(items);
  }

  /** The `map(|s| s.to_tokens())` over the units, collected in order. */
  method ToTokensAll(units: seq<SqlUnit>) returns (items: seq<ConstItem>)
    ensures |items| == |units|
    ensures forall k :: 0 <= k < |units| ==> items[k] == ConstOf(units[k])
  {
    items := [];
    var i := 0;
    while i < |units|
      invariant 0 <= i <= |units|
      invariant |items| == i
      invariant forall k :: 0 <= k < i ==> items[k] == ConstOf(units[k])
    {
      var item := ToTokens(units[i]);
      items := items + [item];
      i := i + 1;
    }
  }

  /** Items that are the constants of the monolith's units, one by one, are its expansion. */
  lemma ExpansionOfItems(m: SqlMonolith, items: seq<ConstItem>)
    requires |items| == |UnitsOf(m)|
    requires forall k :: 0 <= k < |items| ==> items[k] == ConstOf(UnitsOf(m)[k])
    ensures items == Expansion(m)
  {
  }
}
