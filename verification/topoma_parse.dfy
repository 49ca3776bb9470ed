/**
 * The parser of the `topoma!` macro: a comma-separated list of units
 * `NAME >> "sql"` (SQL given inline) or `NAME << "path"` (SQL read from a
 * `.sql` file), of which the first is the table's creation, the second its
 * drop, and the rest queries; and the rendering of one unit as a string
 * constant.
 *
 * The token stream is a sequence of `Token`s; the SQL parser, the crate's
 * manifest directory and the file system are the abstract `MacroEnv`.
 */
module TopomaParse {
  import opened Wrappers

  /** One token tree of the macro input, as far as the parser looks at it. */
  datatype Token =
    | Ident(name: string)
    | Keyword(word: string)
    | Punct(ch: char)
    | LitStr(value: string)
    | Other(text: string)

  /** A parsed SQL statement; `text` is what its `Display` prints. */
  datatype Statement = Statement(text: string)

  datatype SqlUnit = SqlUnit(name: string, sql: seq<Statement>)

  datatype SqlMonolith = SqlMonolith(table: SqlUnit, drop: SqlUnit, queries: seq<SqlUnit>)

  /** A `syn::Error`, reduced to its message. */
  datatype ParseError = ParseError(message: string)

  /**
   * What the expansion sees of its surroundings: the SQL parser (its error is
   * the parser error's text), `CARGO_MANIFEST_DIR`, and the readable files by path.
   */
  datatype MacroEnv = MacroEnv(parseSql: string -> Result<seq<Statement>, string>,
                               manifestDir: string,
                               files: map<string, string>)

  const MonolithMessage := "Expect table create and table drop statements"
  const UnexpectedTokenMessage := "Unexpected token: valid tokens are '>>' for embeded sql or '<<' to pull from file."
  const SqlExtension := ".sql"

  const EndOfInputPrefix := "unexpected end of input, "

  /**
   * An error raised at the cursor `rest` (`syn`'s `ParseBuffer::error` and a
   * failed step): at the end of the input the message says so first.
   */
  function ErrorAt(rest: seq<Token>, message: string): (e: ParseError)
    ensures rest == [] ==> e.message == EndOfInputPrefix + message
    ensures rest != [] ==> e.message == message
  {
    if rest == [] then ParseError(EndOfInputPrefix + message) else ParseError(message)
  }

  predicate EndsWith(s: string, suffix: string)
  {
    |suffix| <= |s| && s[|s| - |suffix|..] == suffix
  }

  /** The file name `parse_from_path` looks for: `.sql` is appended unless already there. */
  function SqlFileName(path: string): (r: string)
    ensures EndsWith(r, SqlExtension)
    ensures EndsWith(path, SqlExtension) ==> r == path
    ensures !EndsWith(path, SqlExtension) ==> r == path + SqlExtension
  {
    if EndsWith(path, SqlExtension) then path
    else
      var r := path + SqlExtension;
      assert r[|r| - |SqlExtension|..] == SqlExtension;
      r
  }

  /** Normalising twice is normalising once: the suffix is never doubled. */
  lemma SqlFileNameIdempotent(path: string)
    ensures SqlFileName(SqlFileName(path)) == SqlFileName(path)
  {
  }

  /**
   * `PathBuf::push` on a Unix path: an absolute path replaces the buffer;
   * otherwise one `/` joins the two unless the buffer is empty or ends in one.
   */
  function PushPath(base: string, path: string): (r: string)
    ensures |path| > 0 && path[0] == '/' ==> r == path
    ensures EndsWith(r, path)
    ensures !(|path| > 0 && path[0] == '/') ==> |base| <= |r| && r[..|base|] == base
  {
    if |path| > 0 && path[0] == '/' then path
    else if |base| > 0 && base[|base| - 1] != '/' then
      var r := base + "/" + path;
      assert r[|r| - |path|..] == path;
      assert r[..|base|] == base;
      r
    else
      var r := base + path;
      assert r[|r| - |path|..] == path;
      assert r[..|base|] == base;
      r
  }

  /** The error of `parse_from_path`; `message` is the wrapped error's text. */
  datatype ParsePathError = ParserError(message: string) | IoError(message: string) | VarError(message: string) | EmptyString

  /** The `Display` of a `ParsePathError`: transparent for the wrapped errors. */
  function PathErrorMessage(e: ParsePathError): (m: string)
    ensures !e.EmptyString? ==> m == e.message
    ensures e.EmptyString? ==> m == "Empty path not allowed"
  {
    match e
    case ParserError(m) => m
    case IoError(m) => m
    case VarError(m) => m
    case EmptyString => "Empty path not allowed"
  }

  /** The file `parse_from_path` reads for a non-empty `path`. */
  function SqlFilePath(env: MacroEnv, path: string): string
  {
    PushPath(env.manifestDir, SqlFileName(path))
  }

  /** Reads and parses the SQL of the `.sql` file `path` names, below the manifest directory. */
  function ParseFromPath(path: string, env: MacroEnv): (r: Result<seq<Statement>, ParsePathError>)
    ensures r == Err(EmptyString) <==> path == ""
    ensures path != "" && SqlFilePath(env, path) !in env.files ==>
              r == Err(IoError("Unable to find specified file '" + SqlFilePath(env, path) + "'"))
    ensures r.Ok? ==> && SqlFilePath(env, path) in env.files
                      && EndsWith(SqlFilePath(env, path), SqlExtension)
                      && env.parseSql(env.files[SqlFilePath(env, path)]) == Ok(r.value)
    ensures path != "" && SqlFilePath(env, path) in env.files ==>
              r == (match env.parseSql(env.files[SqlFilePath(env, path)])
                    case Ok(sql) => Ok(sql)
                    case Err(m) => Err(ParserError(m)))
  {
    if path == "" then Err(EmptyString)
    else
      var file := SqlFilePath(env, path);
      if file !in env.files then
        Err(IoError("Unable to find specified file '" + file + "'"))
      else
        match env.parseSql(env.files[file])
        case Ok(statements) => Ok(statements)
        case Err(m) => Err(ParserError(m))
  }

  /** `syn`'s parse of an identifier at the head of `ts`. */
  function ParseIdent(ts: seq<Token>): (r: Result<string, ParseError>)
    ensures r.Ok? <==> |ts| > 0 && ts[0].Ident?
    ensures r.Ok? ==> r.value == ts[0].name
  {
    if ts == [] then Err(ErrorAt(ts, "expected identifier"))
    else match ts[0]
      case Ident(name) => Ok(name)
      case Keyword(word) => Err(ErrorAt(ts, "expected identifier, found keyword `" + word + "`"))
      case _ => Err(ErrorAt(ts, "expected identifier"))
  }

  /**
   * The tail of one unit after its name: the second arrow character, the
   * string literal, and the SQL obtained from the literal's value by `source`.
   * `ts` starts just after the first arrow character. A missing punctuation
   * character is reported without the end-of-input prefix, as `syn`'s
   * punctuation parser does; a missing literal is a cursor error.
   */
  function ParseArrowTail(ts: seq<Token>, arrow: char, source: string -> Result<seq<Statement>, string>)
    : (r: Result<(seq<Statement>, seq<Token>), ParseError>)
    ensures r.Ok? ==> |ts| >= 2 && ts[0] == Punct(arrow) && ts[1].LitStr?
                      && source(ts[1].value) == Ok(r.value.0) && r.value.1 == ts[2..]
    ensures ts == [] || ts[0] != Punct(arrow) ==> r == Err(ParseError("expected `" + [arrow] + "`"))
    ensures ts != [] && ts[0] == Punct(arrow) && (|ts| < 2 || !ts[1].LitStr?) ==>
              r == Err(ErrorAt(ts[1..], "expected string literal"))
    ensures |ts| >= 2 && ts[0] == Punct(arrow) && ts[1].LitStr? && source(ts[1].value).Err? ==>
              r == Err(ParseError(source(ts[1].value).error))
    ensures |ts| >= 2 && ts[0] == Punct(arrow) && ts[1].LitStr? && source(ts[1].value).Ok? ==>
              r == Ok((source(ts[1].value).value, ts[2..]))
  {
    if ts == [] || ts[0] != Punct(arrow) then Err(ParseError("expected `" + [arrow] + "`"))
    else if |ts| < 2 || !ts[1].LitStr? then Err(ErrorAt(ts[1..], "expected string literal"))
    else match source(ts[1].value)
      case Ok(sql) => Ok((sql, ts[2..]))
      case Err(m) => Err(ParseError(m))
  }

  /** The SQL of a `<<` unit: `parse_from_path`, its error turned into its text. */
  function PathSource(env: MacroEnv): string -> Result<seq<Statement>, string>
  {
    path =>
      match ParseFromPath(path, env)
      case Ok(sql) => Ok(sql)
      case Err(e) => Err(PathErrorMessage(e))
  }

  /** `SqlUnit::parse`: returns the unit and the tokens after it. */
  function ParseUnit(ts: seq<Token>, env: MacroEnv): (r: Result<(SqlUnit, seq<Token>), ParseError>)
    ensures r.Ok? ==> && |ts| >= 4 && ts[0] == Ident(r.value.0.name) && ts[3].LitStr?
                      && r.value.1 == ts[4..]
    ensures r.Ok? && ts[1] == Punct('>') ==>
              ts[2] == Punct('>') && env.parseSql(ts[3].value) == Ok(r.value.0.sql)
    ensures r.Ok? && ts[1] == Punct('<') ==>
              ts[2] == Punct('<') && ParseFromPath(ts[3].value, env) == Ok(r.value.0.sql)
    ensures r.Ok? ==> ts[1] == Punct('>') || ts[1] == Punct('<')
    ensures |ts| > 0 && ts[0].Ident? && (|ts| == 1 || (ts[1] != Punct('>') && ts[1] != Punct('<'))) ==>
              r == Err(ErrorAt(ts[1..], UnexpectedTokenMessage))
  {
    match ParseIdent(ts)
    case Err(e) => Err(e)
    case Ok(name) =>
      var rest := ts[1..];
      if |rest| > 0 && rest[0] == Punct('>') then
        match ParseArrowTail(rest[1..], '>', env.parseSql)
        case Err(e) => Err(e)
        case Ok((sql, after)) => Ok((SqlUnit(name, sql), after))
      else if |rest| > 0 && rest[0] == Punct('<') then
        match ParseArrowTail(rest[1..], '<', PathSource(env))
        case Err(e) => Err(e)
        case Ok((sql, after)) =>
          assert PathSource(env)(ts[3].value) == Ok(sql);
          Ok((SqlUnit(name, sql), after))
      else
        Err(ErrorAt(rest, UnexpectedTokenMessage))
  }

  /** A lone `>` at the end of the input is a punctuation error, without the end-of-input prefix. */
  lemma HalfArrowAtEnd(name: string, env: MacroEnv)
    ensures ParseUnit([Ident(name), Punct('>')], env) == Err(ParseError("expected `>`"))
  {
    var ts := [Ident(name), Punct('>')];
    assert ParseIdent(ts) == Ok(name);
    assert ts[1..][1..] == [];
    assert "expected `" + ['>'] + "`" == "expected `>`";
    assert ParseArrowTail([], '>', env.parseSql) == Err(ParseError("expected `>`"));
  }

  /** A `<<` unit with an empty path fails with the text of `EmptyString`. */
  lemma EmptyPathRefused(name: string, env: MacroEnv)
    ensures ParseUnit([Ident(name), Punct('<'), Punct('<'), LitStr("")], env) == Err(ParseError("Empty path not allowed"))
  {
    var ts := [Ident(name), Punct('<'), Punct('<'), LitStr("")];
    assert ParseIdent(ts) == Ok(name);
    assert ts[1..][1..] == [Punct('<'), LitStr("")];
    EmptyPathTail(env);
  }

  lemma EmptyPathTail(env: MacroEnv)
    ensures ParseArrowTail([Punct('<'), LitStr("")], '<', PathSource(env)) == Err(ParseError("Empty path not allowed"))
  {
    EmptyPathSource(env);
  }

  lemma EmptyPathSource(env: MacroEnv)
    ensures PathSource(env)("") == Err("Empty path not allowed")
  {
    var r := ParseFromPath("", env);
    assert r == Err(EmptyString);
    assert PathErrorMessage(EmptyString) == "Empty path not allowed";
    assert PathSource(env)("") == Err(PathErrorMessage(r.error));
  }

  /** A `<<` unit whose file exists and parses yields that SQL and leaves the tokens after it. */
  lemma PathUnitParses(name: string, p: string, rest: seq<Token>, env: MacroEnv)
    requires ParseFromPath(p, env).Ok?
    ensures ParseUnit([Ident(name), Punct('<'), Punct('<'), LitStr(p)] + rest, env)
            == Ok((SqlUnit(name, ParseFromPath(p, env).value), rest))
  {
    PathUnitTail(p, rest, env);
    ParseUnitOfPath(name, p, rest, env);
  }

  /** After a name and `<`, `ParseUnit` is the `<` tail with the name attached. */
  lemma ParseUnitOfPath(name: string, p: string, rest: seq<Token>, env: MacroEnv)
    ensures ParseUnit([Ident(name), Punct('<'), Punct('<'), LitStr(p)] + rest, env)
            == match ParseArrowTail([Punct('<'), LitStr(p)] + rest, '<', PathSource(env))
               case Err(e) => Err(e)
               case Ok((sql, after)) => Ok((SqlUnit(name, sql), after))
  {
    var ts := [Ident(name), Punct('<'), Punct('<'), LitStr(p)] + rest;
    assert ParseIdent(ts) == Ok(name);
    assert ts[1..][1..] == [Punct('<'), LitStr(p)] + rest;
  }

  lemma PathUnitTail(p: string, rest: seq<Token>, env: MacroEnv)
    requires ParseFromPath(p, env).Ok?
    ensures ParseArrowTail([Punct('<'), LitStr(p)] + rest, '<', PathSource(env))
            == Ok((ParseFromPath(p, env).value, rest))
  {
    PathSourceOk(p, env);
    assert ([Punct('<'), LitStr(p)] + rest)[2..] == rest;
  }

  lemma PathSourceOk(p: string, env: MacroEnv)
    requires ParseFromPath(p, env).Ok?
    ensures PathSource(env)(p) == Ok(ParseFromPath(p, env).value)
  {
  }

  /**
   * `parse_terminated(SqlUnit::parse, Token![,])`: units separated by commas,
   * a trailing comma allowed, up to the end of the input.
   */
  function ParseTerminated(ts: seq<Token>, env: MacroEnv): (r: Result<seq<SqlUnit>, ParseError>)
    ensures ts == [] ==> r == Ok([])
    ensures ts != [] && ParseUnit(ts, env).Err? ==> r == Err(ParseUnit(ts, env).error)
    ensures r.Ok? && ts != [] ==> r.value != [] && ParseUnit(ts, env).Ok? && r.value[0] == ParseUnit(ts, env).value.0
    ensures r.Ok? ==> 5 * |r.value| <= |ts| + 1
    decreases |ts|
  {
    if ts == [] then Ok([])
    else
      match ParseUnit(ts, env)
      case Err(e) => Err(e)
      case Ok((unit, rest)) =>
        if rest == [] then Ok([unit])
        else if rest[0] != Punct(',') then Err(ErrorAt(rest, "expected `,`"))
        else
          match ParseTerminated(rest[1..], env)
          case Err(e) => Err(e)
          case Ok(units) => Ok([unit] + units)
  }

  /** A unit written inline, `name >> "source"`. */
  datatype InlineUnit = InlineUnit(name: string, source: string)

  function InlineTokens(u: InlineUnit): seq<Token>
  {
    [Ident(u.name), Punct('>'), Punct('>'), LitStr(u.source)]
  }

  /** The macro input listing `us` separated by commas. */
  function MacroInput(us: seq<InlineUnit>): seq<Token>
  {
    if |us| == 0 then []
    else if |us| == 1 then InlineTokens(us[0])
    else InlineTokens(us[0]) + [Punct(',')] + MacroInput(us[1..])
  }

  predicate SourcesParse(us: seq<InlineUnit>, env: MacroEnv)
  {
    forall i :: 0 <= i < |us| ==> env.parseSql(us[i].source).Ok?
  }

  /** The units `us` stand for once their SQL is parsed. */
  function ParsedUnits(us: seq<InlineUnit>, env: MacroEnv): seq<SqlUnit>
    requires SourcesParse(us, env)
  {
    if us == [] then []
    else [SqlUnit(us[0].name, env.parseSql(us[0].source).value)] + ParsedUnits(us[1..], env)
  }

  lemma InlineUnitParses(u: InlineUnit, rest: seq<Token>, env: MacroEnv)
    requires env.parseSql(u.source).Ok?
    ensures ParseUnit(InlineTokens(u) + rest, env) == Ok((SqlUnit(u.name, env.parseSql(u.source).value), rest))
  {
    var ts := InlineTokens(u) + rest;
    assert ts[1..][1..] == [Punct('>'), LitStr(u.source)] + rest;
    assert ts[1..][1..][2..] == rest;
  }

  /** One inline unit followed by a comma: the unit, then whatever the rest parses to. */
  lemma InlineUnitThenComma(u: InlineUnit, rest: seq<Token>, env: MacroEnv)
    requires env.parseSql(u.source).Ok?
    ensures ParseTerminated(InlineTokens(u) + [Punct(',')] + rest, env)
            == Prepend([SqlUnit(u.name, env.parseSql(u.source).value)], ParseTerminated(rest, env))
  {
    var tail := [Punct(',')] + rest;
    InlineUnitParses(u, tail, env);
    assert InlineTokens(u) + tail == InlineTokens(u) + [Punct(',')] + rest;
    assert tail[1..] == rest;
  }

  lemma SourcesParseTail(us: seq<InlineUnit>, env: MacroEnv)
    requires SourcesParse(us, env) && us != []
    ensures SourcesParse(us[1..], env) && env.parseSql(us[0].source).Ok?
  {
    forall i | 0 <= i < |us[1..]| ensures env.parseSql(us[1..][i].source).Ok? {
      assert us[1..][i] == us[i + 1];
    }
  }

  /** Inline units listed with commas parse back to themselves, in order. */
  lemma {:induction false} ParseInlineUnits(us: seq<InlineUnit>, env: MacroEnv)
    requires SourcesParse(us, env)
    ensures ParseTerminated(MacroInput(us), env) == Ok(ParsedUnits(us, env))
    decreases |us|
  {
    if |us| == 1 {
      InlineUnitParses(us[0], [], env);
      assert InlineTokens(us[0]) + [] == MacroInput(us);
      assert ParsedUnits(us[1..], env) == [];
      var unit := SqlUnit(us[0].name, env.parseSql(us[0].source).value);
      assert ParsedUnits(us, env) == [unit] + [] == [unit];
    } else if |us| > 1 {
      SourcesParseTail(us, env);
      InlineUnitThenComma(us[0], MacroInput(us[1..]), env);
      assert InlineTokens(us[0]) + [Punct(',')] + MacroInput(us[1..]) == MacroInput(us);
      ParseInlineUnits(us[1..], env);
    }
  }

  /** A trailing comma changes nothing. */
  lemma {:induction false} TrailingCommaAllowed(us: seq<InlineUnit>, env: MacroEnv)
    requires SourcesParse(us, env) && us != []
    ensures ParseTerminated(MacroInput(us) + [Punct(',')], env) == Ok(ParsedUnits(us, env))
    decreases |us|
  {
    SourcesParseTail(us, env);
    if |us| == 1 {
      InlineUnitThenComma(us[0], [], env);
      assert InlineTokens(us[0]) + [Punct(',')] + [] == MacroInput(us) + [Punct(',')];
      assert ParsedUnits(us[1..], env) == [];
    } else {
      var rest := MacroInput(us[1..]) + [Punct(',')];
      InlineUnitThenComma(us[0], rest, env);
      assert InlineTokens(us[0]) + [Punct(',')] + rest == MacroInput(us) + [Punct(',')];
      TrailingCommaAllowed(us[1..], env);
    }
  }

  /** Units already collected in front of what the rest of the input parses to. */
  function Prepend(units: seq<SqlUnit>, r: Result<seq<SqlUnit>, ParseError>): Result<seq<SqlUnit>, ParseError>
  {
    match r
    case Ok(more) => Ok(units + more)
    case Err(e) => Err(e)
  }

  lemma PrependNothing(r: Result<seq<SqlUnit>, ParseError>)
    ensures Prepend([], r) == r
  {
    if r.Ok? {
      assert [] + r.value == r.value;
    }
  }

  lemma PrependPrepend(a: seq<SqlUnit>, b: seq<SqlUnit>, r: Result<seq<SqlUnit>, ParseError>)
    ensures Prepend(a, Prepend(b, r)) == Prepend(a + b, r)
  {
    if r.Ok? {
      assert a + (b + r.value) == (a + b) + r.value;
    }
  }

  /**
   * `SqlMonolith::parse`: the first unit is the table, the second the drop,
   * all others the queries in source order; fewer than two units is an error.
   */
  method ParseMonolith(ts: seq<Token>, env: MacroEnv) returns (r: Result<SqlMonolith, ParseError>)
    ensures ParseTerminated(ts, env).Err? ==> r == Err(ParseTerminated(ts, env).error)
    ensures ParseTerminated(ts, env).Ok? && |ParseTerminated(ts, env).value| < 2 ==>
              r == Err(ParseError("unexpected end of input, " + MonolithMessage))
    ensures ParseTerminated(ts, env).Ok? && |ParseTerminated(ts, env).value| >= 2 ==>
              var units := ParseTerminated(ts, env).value;
              r == Ok(SqlMonolith(units[0], units[1], units[2..]))
  {
    var units: seq<SqlUnit> := [];
    var rest := ts;
    PrependNothing(ParseTerminated(ts, env));
    while rest != []
      invariant ParseTerminated(ts, env) == Prepend(units, ParseTerminated(rest, env))
      decreases |rest|
    {
      var step := ParseUnit(rest, env);
      assert step.Err? ==> ParseTerminated(rest, env) == Err(step.error);
      if step.Err? {
        return Err(step.error);
      }
      var (unit, after) := step.value;
      var next: seq<Token>;
      if after == [] {
        next := after;
        assert [unit] + [] == [unit];
      } else if after[0] != Punct(',') {
        return Err(ErrorAt(after, "expected `,`"));
      } else {
        next := after[1..];
      }
      assert ParseTerminated(rest, env) == Prepend([unit], ParseTerminated(next, env));
      PrependPrepend(units, [unit], ParseTerminated(next, env));
      units := units + [unit];
      rest := next;
    }
    assert units + [] == units;
    if |units| < 1 {
      return Err(ErrorAt([], MonolithMessage));
    }
    var table := units[0];
    if |units| < 2 {
      return Err(ErrorAt([], MonolithMessage));
    }
    var drop := units[1];
    var queries := units[2..];
    r := Ok(SqlMonolith(table, drop, queries));
  }

  /** The text `to_tokens` builds: each statement's rendering followed by one space. */
  function Rendered(statements: seq<Statement>): (s: string)
    ensures s == "" <==> statements == []
    ensures statements != [] ==> s[|s| - 1] == ' '
  {
    if statements == [] then ""
    else Rendered(statements[..|statements| - 1]) + statements[|statements| - 1].text + " "
  }

  lemma {:induction false} RenderedConcat(a: seq<Statement>, b: seq<Statement>)
    ensures Rendered(a + b) == Rendered(a) + Rendered(b)
    decreases |b|
  {
    if b != [] {
      var last := |b| - 1;
      assert (a + b)[..|a + b| - 1] == a + b[..last];
      RenderedConcat(a, b[..last]);
    } else {
      assert a + b == a;
    }
  }

  /** A statement's text stands, followed by exactly one space, between the renderings of those before and after it. */
  lemma RenderedAround(before: seq<Statement>, statement: Statement, after: seq<Statement>)
    ensures Rendered(before + [statement] + after) == Rendered(before) + statement.text + " " + Rendered(after)
  {
    RenderedConcat(before + [statement], after);
    RenderedConcat(before, [statement]);
    RenderedSingle(statement);
  }

  lemma RenderedSingle(statement: Statement)
    ensures Rendered([statement]) == statement.text + " "
  {
    assert [statement][..0] == [];
  }

  /** The length of the rendering: every statement's text plus one space each. */
  function TextLength(statements: seq<Statement>): nat
  {
    if statements == [] then 0 else TextLength(statements[..|statements| - 1]) + |statements[|statements| - 1].text|
  }

  lemma {:induction false} RenderedLength(statements: seq<Statement>)
    ensures |Rendered(statements)| == TextLength(statements) + |statements|
    decreases |statements|
  {
    if statements != [] {
      RenderedLength(statements[..|statements| - 1]);
    }
  }

  /** `pub const NAME: &str = "...";`, the item one unit expands to. */
  datatype ConstItem = ConstItem(name: string, value: string)

  /** What `to_tokens` produces for a unit. */
  function ConstOf(unit: SqlUnit): (item: ConstItem)
    ensures item.name == unit.name
    ensures |item.value| == TextLength(unit.sql) + |unit.sql|
  {
    RenderedLength(unit.sql);
    ConstItem(unit.name, Rendered(unit.sql))
  }

  /** `SqlUnit::to_tokens`: a constant named after the unit holding its statements' text. */
  method ToTokens(unit: SqlUnit) returns (item: ConstItem)
    ensures item.name == unit.name
    ensures item.value == Rendered(unit.sql)
  {
    var sql := "";
    var i := 0;
    while i < |unit.sql|
      invariant 0 <= i <= |unit.sql|
      invariant sql == Rendered(unit.sql[..i])
    {
      assert unit.sql[..i + 1][..i] == unit.sql[..i];
      sql := sql + unit.sql[i].text;
      sql := sql + " ";
      i := i + 1;
    }
    assert unit.sql[..i] == unit.sql;
    item := ConstItem(unit.name, sql);
  }
}
