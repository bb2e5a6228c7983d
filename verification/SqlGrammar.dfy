/** A reference grammar of the Firebird statements the extension emits: a
    recursive-descent parser over tokens that also consumes the bound
    parameters, each `?` taking the next one. It knows nothing of the emitter. */
module SqlGrammar {
  import opened Wrappers
  import opened Values
  import opened NumberText
  import opened SqlTokens

  // --- syntax trees ------------------------------------------------------------

  /** A column reference: bare, or CAST(... AS VARCHAR(64)). */
  datatype Ref = Bare(name: string) | AsText(name: string)

  datatype Operand =
    | Column(ref: Ref)
    | Param(v: Value)
    | Exact(unscaled: int, scale: nat)
    | Nil
    | Chars(charset: string, s: string)

  datatype Sql =
    | Cmp(l: Operand, op: CmpOp, r: Operand)
    | In(l: Operand, negated: bool, items: seq<Operand>)
    | NullTest(l: Operand, negated: bool)
    | Like(l: Operand, pattern: string, escape: char)
    | Truth(l: Operand)
    | Not(p: Sql)
    | And(ps: seq<Sql>)
    | Or(ps: seq<Sql>)

  datatype Item = Star | NullBigint | ColumnItem(ref: Ref)

  /** `ORDER BY key ROWS first [TO last]`. */
  datatype OrderKey = DbKey | Ascending(name: string)
  datatype Page = Page(key: OrderKey, first: nat, last: Option<nat>)

  datatype Statement = Statement(items: seq<Item>, table: string, where: Option<Sql>, page: Option<Page>)

  function MkAnd(ps: seq<Sql>): Sql {
    if |ps| == 1 then ps[0] else And(ps)
  }

  function MkOr(ps: seq<Sql>): Sql {
    if |ps| == 1 then ps[0] else Or(ps)
  }

  // --- parser ------------------------------------------------------------------

  datatype Parsed<T> = Fail | Got(v: T, ts: seq<Token>, ps: seq<Value>)

  const LP := Sym('(')
  const RP := Sym(')')
  const COMMA := Sym(',')
  const MARK := Sym('?')
  const MINUS := Sym('-')

  predicate Starts(ts: seq<Token>, prefix: seq<Token>) {
    |prefix| <= |ts| && ts[..|prefix|] == prefix
  }

  /** CAST ( "name" AS VARCHAR ( 64 ) ) */
  function CastTokens(name: string): seq<Token> {
    [Word("CAST"), LP, Quoted(name), Word("AS"), Word("VARCHAR"), LP, Number("64"), RP, RP]
  }

  function ParseOperand(ts: seq<Token>, ps: seq<Value>): (r: Parsed<Operand>)
    ensures r.Got? ==> |r.ts| < |ts|
  {
    if ts == [] then Fail
    else match ts[0]
      case Quoted(n) => Got(Column(Bare(n)), ts[1..], ps)
      case Number(n) => var x := Read(n); Got(Exact(x.unscaled, x.scale), ts[1..], ps)
      case Str(s) => Got(Chars("", s), ts[1..], ps)
      case Sym(c) =>
        if c == '?' && ps != [] then Got(Param(ps[0]), ts[1..], ps[1..])
        else if c == '-' && |ts| > 1 && ts[1].Number? then
          var x := Read(ts[1].n); Got(Exact(-(x.unscaled as int), x.scale), ts[2..], ps)
        else Fail
      case Word(w) =>
        if w == "NULL" then Got(Nil, ts[1..], ps)
        else if w == "CAST" then
          if |ts| >= 9 && ts[2].Quoted? && ts[..9] == CastTokens(ts[2].name)
          then Got(Column(AsText(ts[2].name)), ts[9..], ps) else Fail
        else if w != "" && w[0] == '_' && |ts| > 1 && ts[1].Str?
        then Got(Chars(w, ts[1].s), ts[2..], ps) else Fail
      case _ => Fail
  }

  /** operand {, operand} ) */
  function ParseList(acc: seq<Operand>, ts: seq<Token>, ps: seq<Value>): (r: Parsed<seq<Operand>>)
    ensures r.Got? ==> |r.ts| < |ts|
    decreases |ts|
  {
    match ParseOperand(ts, ps)
    case Fail => Fail
    case Got(o, ts', ps') =>
      if ts' != [] && ts'[0] == COMMA then ParseList(acc + [o], ts'[1..], ps')
      else if ts' != [] && ts'[0] == RP then Got(acc + [o], ts'[1..], ps')
      else Fail
  }

  /** What may follow the first operand of a predicate. */
  function ParseRest(l: Operand, ts: seq<Token>, ps: seq<Value>): (r: Parsed<Sql>)
    ensures r.Got? ==> |r.ts| <= |ts|
  {
    if ts != [] && ts[0].Rel? then
      match ParseOperand(ts[1..], ps)
      case Fail => Fail
      case Got(o, ts', ps') => Got(Cmp(l, ts[0].op, o), ts', ps')
    else if Starts(ts, [Word("IS"), Word("NULL")]) then Got(NullTest(l, false), ts[2..], ps)
    else if Starts(ts, [Word("IS"), Word("NOT"), Word("NULL")]) then Got(NullTest(l, true), ts[3..], ps)
    else if Starts(ts, [Word("IN"), LP]) then
      match ParseList([], ts[2..], ps)
      case Fail => Fail
      case Got(os, ts', ps') => Got(In(l, false, os), ts', ps')
    else if Starts(ts, [Word("NOT"), Word("IN"), LP]) then
      match ParseList([], ts[3..], ps)
      case Fail => Fail
      case Got(os, ts', ps') => Got(In(l, true, os), ts', ps')
    else if ts != [] && ts[0] == Word("LIKE") then
      if |ts| >= 4 && ts[1].Str? && ts[2] == Word("ESCAPE") && ts[3].Str? && |ts[3].s| == 1
      then Got(Like(l, ts[1].s, ts[3].s[0]), ts[4..], ps) else Fail
    else Got(Truth(l), ts, ps)
  }

  function ParseFactor(ts: seq<Token>, ps: seq<Value>): (r: Parsed<Sql>)
    ensures r.Got? ==> |r.ts| < |ts|
    decreases |ts|, 0
  {
    if ts == [] then Fail
    else if ts[0] == Word("NOT") then
      match ParseFactor(ts[1..], ps)
      case Fail => Fail
      case Got(p, ts', ps') => Got(Not(p), ts', ps')
    else if ts[0] == LP then
      match ParseOr(ts[1..], ps)
      case Fail => Fail
      case Got(p, ts', ps') => if ts' != [] && ts'[0] == RP then Got(p, ts'[1..], ps') else Fail
    else
      match ParseOperand(ts, ps)
      case Fail => Fail
      case Got(l, ts', ps') => ParseRest(l, ts', ps')
  }

  function ParseAnd(ts: seq<Token>, ps: seq<Value>): (r: Parsed<Sql>)
    ensures r.Got? ==> |r.ts| < |ts|
    decreases |ts|, 2
  {
    match ParseFactor(ts, ps)
    case Fail => Fail
    case Got(p, ts', ps') => ParseAndTail([p], ts', ps')
  }

  function ParseAndTail(acc: seq<Sql>, ts: seq<Token>, ps: seq<Value>): (r: Parsed<Sql>)
    ensures r.Got? ==> |r.ts| <= |ts|
    decreases |ts|, 1
  {
    if ts != [] && ts[0] == Word("AND") then
      match ParseFactor(ts[1..], ps)
      case Fail => Fail
      case Got(p, ts', ps') => ParseAndTail(acc + [p], ts', ps')
    else Got(MkAnd(acc), ts, ps)
  }

  function ParseOr(ts: seq<Token>, ps: seq<Value>): (r: Parsed<Sql>)
    ensures r.Got? ==> |r.ts| < |ts|
    decreases |ts|, 4
  {
    match ParseAnd(ts, ps)
    case Fail => Fail
    case Got(p, ts', ps') => ParseOrTail([p], ts', ps')
  }

  function ParseOrTail(acc: seq<Sql>, ts: seq<Token>, ps: seq<Value>): (r: Parsed<Sql>)
    ensures r.Got? ==> |r.ts| <= |ts|
    decreases |ts|, 3
  {
    if ts != [] && ts[0] == Word("OR") then
      match ParseAnd(ts[1..], ps)
      case Fail => Fail
      case Got(p, ts', ps') => ParseOrTail(acc + [p], ts', ps')
    else Got(MkOr(acc), ts, ps)
  }

  /** CAST ( NULL AS BIGINT ) */
  const NULL_BIGINT := [Word("CAST"), LP, Word("NULL"), Word("AS"), Word("BIGINT"), RP]

  function ParseItem(ts: seq<Token>): (r: Parsed<Item>)
    ensures r.Got? ==> |r.ts| < |ts| && r.ps == []
  {
    if Starts(ts, NULL_BIGINT) then Got(NullBigint, ts[6..], [])
    else match ParseOperand(ts, [])
      case Got(Column(ref), ts', _) => Got(ColumnItem(ref), ts', [])
      case _ => Fail
  }

  function ParseItems(acc: seq<Item>, ts: seq<Token>): (r: Parsed<seq<Item>>)
    ensures r.Got? ==> |r.ts| < |ts| && r.ps == []
    decreases |ts|
  {
    match ParseItem(ts)
    case Fail => Fail
    case Got(i, ts', _) =>
      if ts' != [] && ts'[0] == COMMA then ParseItems(acc + [i], ts'[1..])
      else Got(acc + [i], ts', [])
  }

  function ParseKey(ts: seq<Token>): Parsed<OrderKey> {
    if ts != [] && ts[0] == Word("RDB$DB_KEY") then Got(DbKey, ts[1..], [])
    else if |ts| > 1 && ts[0].Quoted? && ts[1] == Word("ASC") then Got(Ascending(ts[0].name), ts[2..], [])
    else Fail
  }

  /** The paging clause, which ends the statement. */
  function ParsePage(ts: seq<Token>): Option<Option<Page>> {
    if ts == [] then Some(None)
    else if !Starts(ts, [Word("ORDER"), Word("BY")]) then None
    else match ParseKey(ts[2..])
      case Fail => None
      case Got(key, ts', _) =>
        if |ts'| == 2 && ts'[0] == Word("ROWS") && ts'[1].Number?
        then Some(Some(Page(key, Read(ts'[1].n).unscaled, None)))
        else if |ts'| == 4 && ts'[0] == Word("ROWS") && ts'[1].Number? && ts'[2] == Word("TO") && ts'[3].Number?
        then Some(Some(Page(key, Read(ts'[1].n).unscaled, Some(Read(ts'[3].n).unscaled))))
        else None
  }

  /** Everything after the table name; all parameters must be consumed. */
  function ParseTail(items: seq<Item>, table: string, ts: seq<Token>, ps: seq<Value>): Option<Statement> {
    if ts != [] && ts[0] == Word("WHERE") then
      match ParseOr(ts[1..], ps)
      case Fail => None
      case Got(p, ts', ps') =>
        match ParsePage(ts')
        case None => None
        case Some(page) => if ps' == [] then Some(Statement(items, table, Some(p), page)) else None
    else
      match ParsePage(ts)
      case None => None
      case Some(page) => if ps == [] then Some(Statement(items, table, None, page)) else None
  }

  /** Preparing a statement and binding its parameters; None when the server rejects either. */
  function ParseStatement(ts: seq<Token>, ps: seq<Value>): Option<Statement> {
    if ts == [] || ts[0] != Word("SELECT") then None
    else
      var items :=
        if |ts| > 1 && ts[1] == Sym('*') then Got([Star], ts[2..], [])
        else ParseItems([], ts[1..]);
      match items
      case Fail => None
      case Got(list, ts', _) =>
        if |ts'| > 1 && ts'[0] == Word("FROM") && ts'[1].Quoted?
        then ParseTail(list, ts'[1].name, ts'[2..], ps) else None
  }

  function Prepare(sql: string, ps: seq<Value>): Option<Statement> {
    ParseStatement(Lex(sql), ps)
  }

  // --- how the parser reads the emitter's building blocks -------------------------

  function RefTokens(ref: Ref): seq<Token> {
    match ref
    case Bare(n) => [Quoted(n)]
    case AsText(n) => CastTokens(n)
  }

  lemma {:induction false} ParseRef(ref: Ref, rest: seq<Token>, ps: seq<Value>)
    ensures ParseOperand(RefTokens(ref) + rest, ps) == Got(Column(ref), rest, ps)
  {
    var ts := RefTokens(ref) + rest;
    assert ts[|RefTokens(ref)|..] == rest;
    assert ts[..|RefTokens(ref)|] == RefTokens(ref);
  }

  /** The token can not continue a conjunction or a disjunction. */
  predicate Stops(ts: seq<Token>) {
    ts == [] || (ts[0] != Word("AND") && ts[0] != Word("OR"))
  }

  lemma LoneFactor(ts: seq<Token>, ps: seq<Value>, p: Sql, ts': seq<Token>, ps': seq<Value>)
    requires ParseFactor(ts, ps) == Got(p, ts', ps')
    requires Stops(ts')
    ensures ParseAnd(ts, ps) == Got(p, ts', ps')
    ensures ParseOr(ts, ps) == Got(p, ts', ps')
  {
  }

  /** A parenthesised condition is one factor. */
  lemma Group(ts: seq<Token>, ps: seq<Value>, p: Sql, rest: seq<Token>, ps': seq<Value>)
    requires ParseOr(ts + ([RP] + rest), ps) == Got(p, [RP] + rest, ps')
    ensures ParseFactor([LP] + ts + [RP] + rest, ps) == Got(p, rest, ps')
  {
    assert ([LP] + ts + [RP] + rest)[1..] == ts + ([RP] + rest);
  }

  /** One more conjunct. */
  lemma {:induction false} AndTailStep(acc: seq<Sql>, ts: seq<Token>, ps: seq<Value>, p: Sql, ts': seq<Token>, ps': seq<Value>)
    requires ParseFactor(ts, ps) == Got(p, ts', ps')
    ensures ParseAndTail(acc, [Word("AND")] + ts, ps) == ParseAndTail(acc + [p], ts', ps')
  {
    assert ([Word("AND")] + ts)[1..] == ts;
  }

  /** One more disjunct. */
  lemma {:induction false} OrTailStep(acc: seq<Sql>, ts: seq<Token>, ps: seq<Value>, p: Sql, ts': seq<Token>, ps': seq<Value>)
    requires ParseAnd(ts, ps) == Got(p, ts', ps')
    ensures ParseOrTail(acc, [Word("OR")] + ts, ps) == ParseOrTail(acc + [p], ts', ps')
  {
    assert ([Word("OR")] + ts)[1..] == ts;
  }

  lemma TailStops(acc: seq<Sql>, ts: seq<Token>, ps: seq<Value>)
    requires Stops(ts)
    ensures ParseAndTail(acc, ts, ps) == Got(MkAnd(acc), ts, ps)
    ensures ParseOrTail(acc, ts, ps) == Got(MkOr(acc), ts, ps)
  {
  }

  lemma {:induction false} NotFactor(ts: seq<Token>, ps: seq<Value>, p: Sql, ts': seq<Token>, ps': seq<Value>)
    requires ParseFactor(ts, ps) == Got(p, ts', ps')
    ensures ParseFactor([Word("NOT")] + ts, ps) == Got(Not(p), ts', ps')
  {
    assert ([Word("NOT")] + ts)[1..] == ts;
  }

  /** A column alone is a boolean test. */
  lemma {:induction false} TruthFactor(n: string, rest: seq<Token>, ps: seq<Value>)
    requires rest == [] || rest[0] == RP
    ensures ParseFactor([Quoted(n)] + rest, ps) == Got(Truth(Column(Bare(n))), rest, ps)
  {
    assert ([Quoted(n)] + rest)[1..] == rest;
    TruthRest(Column(Bare(n)), rest, ps);
  }

  lemma {:induction false} TruthRest(l: Operand, rest: seq<Token>, ps: seq<Value>)
    requires rest == [] || rest[0] == RP
    ensures ParseRest(l, rest, ps) == Got(Truth(l), rest, ps)
  {
  }
}
