/** FirebirdQueryBuilder: projection, filter, partition and paging pushdown. */
module QueryBuilder {
  import opened Wrappers
  import opened Values
  import opened NumberText
  import opened SqlTokens
  import opened SqlGrammar
  import opened Columns
  import opened Emission
  import opened TableFilters
  import opened Conditions

  datatype ColId = RowId | Col(n: nat)

  /** A table filter on the projected column with index `projected`. */
  datatype Entry = Entry(projected: nat, f: Filter)

  /** `limit` and optional `offset`, with the column that makes paging deterministic. */
  datatype Paging = Paging(key: OrderKey, limit: nat, offset: Option<nat>)

  /** Everything one remote query is built from; `extra` is the partition range and
      the lifted predicates. */
  datatype Query = Query(t: Table, ids: seq<ColId>, entries: seq<Entry>, extra: seq<Cond>, paging: Option<Paging>)

  datatype Result = Result(
    sql: string,
    residualIndices: seq<nat>,
    residualReasons: seq<string>,
    params: seq<Value>,
    pushedSql: seq<string>)

  predicate ValidIds(t: Table, ids: seq<ColId>) {
    forall i :: 0 <= i < |ids| && ids[i].Col? ==> ids[i].n < |t.names|
  }

  predicate ValidQuery(q: Query) {
    ValidIds(q.t, q.ids) && ValidConds(q.extra)
  }

  // --- which filters are pushed -------------------------------------------------------

  const MAPPING := "UNSUPPORTED_PROJECTION_MAPPING"
  const BAD_COLUMN := "ROWID_OR_INVALID_COLUMN"
  const NONE_CHARSET := "NONE_CHARSET"
  const UNSUPPORTED_OP := "UNSUPPORTED_OP"

  datatype Verdict = Pushed(ref: Ref) | Residual(reason: string)

  function Classify(t: Table, ids: seq<ColId>, e: Entry): Verdict {
    if e.projected >= |ids| then Residual(MAPPING)
    else match ids[e.projected]
      case RowId => Residual(BAD_COLUMN)
      case Col(c) =>
        if c >= |t.names| then Residual(BAD_COLUMN)
        else if Gated(t, c) then Residual(NONE_CHARSET)
        else if Translatable(e.f) then Pushed(RefOf(t, c))
        else Residual(UNSUPPORTED_OP)
  }

  /** The condition of a filter, if it is pushed. */
  function EntryConds(t: Table, ids: seq<ColId>, e: Entry): seq<Cond> {
    match Classify(t, ids, e)
    case Pushed(ref) => [FromFilter(ref, e.f)]
    case Residual(_) => []
  }

  /** The report of a filter, if it is residual. */
  function EntryResiduals(t: Table, ids: seq<ColId>, e: Entry, index: nat): seq<(nat, string)> {
    match Classify(t, ids, e)
    case Pushed(_) => []
    case Residual(reason) => [(index, reason)]
  }

  /** Conditions of the pushed filters, in filter order. */
  function FilterConds(t: Table, ids: seq<ColId>, es: seq<Entry>): seq<Cond> {
    if es == [] then [] else EntryConds(t, ids, es[0]) + FilterConds(t, ids, es[1..])
  }

  /** Residual filters as (index, reason), `first` being the index of `es[0]`. */
  function Residuals(t: Table, ids: seq<ColId>, es: seq<Entry>, first: nat): seq<(nat, string)> {
    if es == [] then [] else EntryResiduals(t, ids, es[0], first) + Residuals(t, ids, es[1..], first + 1)
  }

  function Firsts<A, B>(xs: seq<(A, B)>): seq<A> {
    if xs == [] then [] else [xs[0].0] + Firsts(xs[1..])
  }

  function Seconds<A, B>(xs: seq<(A, B)>): seq<B> {
    if xs == [] then [] else [xs[0].1] + Seconds(xs[1..])
  }

  function PushedTexts(cs: seq<Cond>): seq<string> {
    if cs == [] then []
    else (if cs[0].FromFilter? then [Show(FilterLx(cs[0].ref, cs[0].f))] else []) + PushedTexts(cs[1..])
  }

  lemma {:induction false} FilterCondsValid(t: Table, ids: seq<ColId>, es: seq<Entry>)
    ensures ValidConds(FilterConds(t, ids, es))
  {
    if es == [] {
    } else {
      FilterCondsValid(t, ids, es[1..]);
      var rest := FilterConds(t, ids, es[1..]);
      if EntryConds(t, ids, es[0]) == [] {
        assert FilterConds(t, ids, es) == rest;
      } else {
        assert FilterConds(t, ids, es)[1..] == rest;
      }
    }
  }

  /** Every filter is pushed or residual, never both, with its reason at its index:
      (i, r) is reported exactly when filter i is residual for reason r. */
  lemma {:induction false} ResidualsExact(t: Table, ids: seq<ColId>, es: seq<Entry>, first: nat, i: nat, reason: string)
    ensures (i, reason) in Residuals(t, ids, es, first) <==>
            first <= i < first + |es| && Classify(t, ids, es[i - first]) == Residual(reason)
    ensures |FilterConds(t, ids, es)| + |Residuals(t, ids, es, first)| == |es|
  {
    if es == [] {
    } else {
      ResidualsExact(t, ids, es[1..], first + 1, i, reason);
      if first < i < first + |es| { assert es[1..][i - (first + 1)] == es[i - first]; }
    }
  }

  ghost predicate AscendFrom(at: seq<nat>, first: nat) {
    && (forall j :: 0 <= j < |at| ==> first <= at[j])
    && (forall j, k :: 0 <= j < k < |at| ==> at[j] < at[k])
  }

  lemma {:induction false} AscendPrepend(at: seq<nat>, first: nat)
    requires AscendFrom(at, first + 1)
    ensures AscendFrom([first] + at, first) && AscendFrom(at, first)
  {
    forall j | 0 <= j < |at| ensures first + 1 <= at[j] { }
  }

  lemma {:induction false} ResidualsAscend(t: Table, ids: seq<ColId>, es: seq<Entry>, first: nat)
    ensures AscendFrom(Firsts(Residuals(t, ids, es, first)), first)
  {
    if es == [] {
    } else {
      var rest := Residuals(t, ids, es[1..], first + 1);
      ResidualsAscend(t, ids, es[1..], first + 1);
      AscendPrepend(Firsts(rest), first);
      if EntryResiduals(t, ids, es[0], first) == [] {
        assert Residuals(t, ids, es, first) == rest;
      } else {
        assert Residuals(t, ids, es, first)[1..] == rest;
      }
    }
  }

  // --- the statement, as lexemes --------------------------------------------------------

  const NULL_ITEM: seq<Lexeme> := [W("CAST"), S('('), W("NULL"), Space, W("AS"), Space, W("BIGINT"), S(')')]
  const SELECT_LX: seq<Lexeme> := [W("SELECT"), Space]
  const FROM_LX: seq<Lexeme> := [Space, W("FROM"), Space]
  const WHERE_LX: seq<Lexeme> := [Space, W("WHERE"), Space]
  const ORDER_LX: seq<Lexeme> := [Space, W("ORDER"), Space, W("BY"), Space]
  const ROWS_LX: seq<Lexeme> := [Space, W("ROWS"), Space]
  const TO_LX: seq<Lexeme> := [Space, W("TO"), Space]

  function ItemLx(t: Table, id: ColId): (xs: seq<Lexeme>)
    ensures xs != []
  {
    if id.Col? && id.n < |t.names| then RefLx(RefOf(t, id.n)) else NULL_ITEM
  }

  function ItemOf(t: Table, id: ColId): Item {
    if id.Col? && id.n < |t.names| then ColumnItem(RefOf(t, id.n)) else NullBigint
  }

  function ItemsLx(t: Table, ids: seq<ColId>): seq<Lexeme> {
    if ids == [] then []
    else if |ids| == 1 then ItemLx(t, ids[0])
    else ItemLx(t, ids[0]) + COMMA_LX + ItemsLx(t, ids[1..])
  }

  function Items(t: Table, ids: seq<ColId>): seq<Item> {
    if ids == [] then [] else [ItemOf(t, ids[0])] + Items(t, ids[1..])
  }

  function ProjectionLx(t: Table, ids: seq<ColId>): seq<Lexeme> {
    if ids == [] then [S('*')] else ItemsLx(t, ids)
  }

  function HeadLx(t: Table, ids: seq<ColId>): seq<Lexeme> {
    SELECT_LX + ProjectionLx(t, ids) + FROM_LX + [Tok(Quoted(t.name))]
  }

  function KeyLx(key: OrderKey): seq<Lexeme> {
    match key
    case DbKey => [W("RDB$DB_KEY")]
    case Ascending(n) => [Tok(Quoted(n)), Space, W("ASC")]
  }

  function NumberLx(n: nat): seq<Lexeme> { [Tok(Number(Digits(n)))] }

  function RowsLx(p: Paging): seq<Lexeme> {
    match p.offset
    case None => NumberLx(p.limit)
    case Some(o) => NumberLx(o + 1) + TO_LX + NumberLx(o + p.limit)
  }

  function PageLx(paging: Option<Paging>): seq<Lexeme> {
    match paging
    case None => []
    case Some(p) => ORDER_LX + KeyLx(p.key) + ROWS_LX + RowsLx(p)
  }

  function PageOf(paging: Option<Paging>): Option<Page> {
    match paging
    case None => None
    case Some(p) =>
      (match p.offset
       case None => Some(Page(p.key, p.limit, None))
       case Some(o) => Some(Page(p.key, o + 1, Some(o + p.limit))))
  }

  // --- the statement, as the builder writes it ------------------------------------------------

  predicate OccursAt(hay: string, needle: string, i: nat) {
    i + |needle| <= |hay| && hay[i..i + |needle|] == needle
  }

  /** Whether `needle` occurs in `hay`. */
  predicate Contains(hay: string, needle: string) {
    exists i | 0 <= i <= |hay| :: OccursAt(hay, needle, i)
  }

  function PushedConds(q: Query): seq<Cond> { FilterConds(q.t, q.ids, q.entries) }

  function WhereText(cs: seq<Cond>): string {
    if cs == [] then "" else " WHERE " + Show(AndLx(cs))
  }

  function BaseText(q: Query): string {
    Show(HeadLx(q.t, q.ids)) + WhereText(PushedConds(q))
  }

  /** The extra predicate with its glue, which the builder picks by searching the text
      so far for " WHERE ". */
  function ExtraText(base: string, extra: seq<Cond>): string {
    if extra == [] then ""
    else (if Contains(base, " WHERE ") then " AND " else " WHERE ") + "(" + Show(AndLx(extra)) + ")"
  }

  function SqlText(q: Query): string {
    BaseText(q) + ExtraText(BaseText(q), q.extra) + Show(PageLx(q.paging))
  }

  /** The statement the query is meant to be. */
  function AllConds(q: Query): seq<Cond> {
    PushedConds(q) + if q.extra == [] then [] else [Nested(q.extra)]
  }

  function Intended(q: Query): Statement {
    Statement(
      if q.ids == [] then [Star] else Items(q.t, q.ids),
      q.t.name,
      if AllConds(q) == [] then None else Some(MkAnd(CondSqls(AllConds(q)))),
      PageOf(q.paging))
  }

  /** Parameters in the order the scanner passes them: those of the table filters,
      then those of the extra predicates. */
  function AllBindsOf(q: Query): seq<Value> {
    CondsBinds(PushedConds(q)) + CondsBinds(q.extra)
  }

  /** The search for " WHERE " finds the clause itself or nothing. */
  predicate GlueSafe(q: Query) {
    PushedConds(q) != [] || q.extra == [] || !Contains(Show(HeadLx(q.t, q.ids)), " WHERE ")
  }

  // --- the builder ------------------------------------------------------------------------------

  lemma NullItemForm()
    ensures Spaced(NULL_ITEM) && Tokens(NULL_ITEM) == NULL_BIGINT
  {
    NullItemTokens();
    NullItemSpaced();
  }

  const NULL_START: seq<Lexeme> := [W("CAST"), S('('), W("NULL")]
  const NULL_END: seq<Lexeme> := [Space, W("AS"), Space, W("BIGINT"), S(')')]

  lemma {:induction false} NullStartSpaced()
    ensures Spaced(NULL_START)
  {
  }

  lemma {:induction false} NullEndSpaced()
    ensures Spaced(NULL_END)
  {
  }

  lemma NullItemSpaced()
    ensures Spaced(NULL_ITEM)
  {
    NullStartSpaced();
    NullEndSpaced();
    Join(NULL_START, NULL_END);
    assert NULL_ITEM == NULL_START + NULL_END;
  }

  lemma NullItemTokens()
    ensures Tokens(NULL_ITEM) == NULL_BIGINT
  {
    var a, b := NULL_START, NULL_END;
    assert NULL_ITEM == a + b;
    TokensCat(a, b);
    assert Tokens(b) == [Word("AS"), Word("BIGINT"), RP] by {
      assert b[3..] == [W("BIGINT"), S(')')] && b[1..] == [W("AS"), Space] + b[3..];
    }
  }

  lemma {:induction false} NullItemText()
    ensures Show(NULL_ITEM) == "CAST(NULL AS BIGINT)"
  {
  }

  lemma ItemForm(t: Table, id: ColId)
    ensures Spaced(ItemLx(t, id))
  {
    NullItemForm();
    if id.Col? && id.n < |t.names| { RefForm(RefOf(t, id.n)); }
  }

  method ItemSql(t: Table, id: ColId) returns (text: string)
    requires id.Col? ==> id.n < |t.names|
    ensures text == Show(ItemLx(t, id))
  {
    match id
    case RowId =>
      NullItemText();
      text := "CAST(NULL AS BIGINT)";
    case Col(c) =>
      RefForm(RefOf(t, c));
      var name := QuoteIdent(t.names[c]);
      if c < |t.descs| && IsDecfloatType(t.descs[c].sqltype) {
        text := "CAST(" + name + " AS VARCHAR(64))";
      } else {
        text := name;
      }
  }

  function ItemsText(t: Table, ids: seq<ColId>, i: nat): string
    requires i <= |ids|
  {
    if i == |ids| then "" else CommaText(i) + Show(ItemsLx(t, ids[i..]))
  }

  lemma ItemStep(t: Table, ids: seq<ColId>, i: nat)
    requires i < |ids|
    ensures ItemsText(t, ids, i) == CommaText(i) + Show(ItemLx(t, ids[i])) + ItemsText(t, ids, i + 1)
  {
    var rest := ids[i..];
    assert rest[0] == ids[i] && rest[1..] == ids[i + 1..];
    if |rest| > 1 {
      Show3(ItemLx(t, rest[0]), COMMA_LX, ItemsLx(t, rest[1..]));
      CommaForm();
      Regroup(CommaText(i), Show(ItemLx(t, ids[i])), ", ", Show(ItemsLx(t, rest[1..])));
      Regroup(CommaText(i) + Show(ItemLx(t, ids[i])), ", ", Show(ItemsLx(t, rest[1..])), "");
    }
  }

  /** One SELECT expression per projected column, in order. */
  method Projection(t: Table, ids: seq<ColId>, start: string) returns (sql: string)
    requires ValidIds(t, ids)
    ensures sql == start + Show(ProjectionLx(t, ids))
  {
    if ids == [] {
      assert Show([S('*')]) == "*" + "";
      return start + "*";
    }
    sql := start;
    ghost var whole := start + ItemsText(t, ids, 0);
    assert ids[0..] == ids && ItemsText(t, ids, 0) == Show(ItemsLx(t, ids));
    for i := 0 to |ids|
      invariant sql + ItemsText(t, ids, i) == whole
    {
      ItemStep(t, ids, i);
      Regroup(sql, CommaText(i), Show(ItemLx(t, ids[i])), ItemsText(t, ids, i + 1));
      ghost var before := sql;
      if i > 0 { sql := sql + ", "; }
      assert sql == before + CommaText(i);
      var item := ItemSql(t, ids[i]);
      sql := sql + item;
      assert sql == before + CommaText(i) + Show(ItemLx(t, ids[i]));
    }
    assert sql + "" == sql;
  }

  lemma SelectForm()
    ensures Spaced(SELECT_LX) && Show(SELECT_LX) == "SELECT " && Tokens(SELECT_LX) == [Word("SELECT")]
  {
  }

  lemma FromForm()
    ensures Spaced(FROM_LX) && Show(FROM_LX) == " FROM " && Tokens(FROM_LX) == [Word("FROM")]
  {
  }

  lemma WhereForm()
    ensures Spaced(WHERE_LX) && Show(WHERE_LX) == " WHERE " && Tokens(WHERE_LX) == [Word("WHERE")]
  {
  }

  method Head(t: Table, ids: seq<ColId>) returns (sql: string)
    requires ValidIds(t, ids)
    ensures sql == Show(HeadLx(t, ids))
  {
    SelectForm();
    FromForm();
    Single(Quoted(t.name));
    Show3(SELECT_LX, ProjectionLx(t, ids), FROM_LX);
    ShowCat(SELECT_LX + ProjectionLx(t, ids) + FROM_LX, [Tok(Quoted(t.name))]);
    sql := Projection(t, ids, "SELECT ");
    var table := QuoteIdent(t.name);
    sql := sql + " FROM ";
    sql := sql + table;
  }

  /** Conditions in text, each between parentheses. */
  function CondTexts(cs: seq<Cond>): (texts: seq<string>)
    ensures |texts| == |cs|
  {
    if cs == [] then [] else [Show(CondLx(cs[0]))] + CondTexts(cs[1..])
  }

  /** The filter loop: classifies every filter and translates what can be pushed. */
  method TranslateFilters(t: Table, ids: seq<ColId>, es: seq<Entry>, params: ParamList)
    returns (conds: seq<string>, indices: seq<nat>, reasons: seq<string>, pushed: seq<string>)
    modifies params
    ensures conds == CondTexts(FilterConds(t, ids, es))
    ensures pushed == PushedTexts(FilterConds(t, ids, es))
    ensures indices == Firsts(Residuals(t, ids, es, 0)) && reasons == Seconds(Residuals(t, ids, es, 0))
    ensures params.items == old(params.items) + CondsBinds(FilterConds(t, ids, es))
  {
    conds, indices, reasons, pushed := [], [], [], [];
    ghost var all, left := FilterConds(t, ids, es), Residuals(t, ids, es, 0);
    ghost var binds := params.items + CondsBinds(all);
    assert es[0..] == es;
    for i := 0 to |es|
      invariant conds + CondTexts(FilterConds(t, ids, es[i..])) == CondTexts(all)
      invariant pushed + PushedTexts(FilterConds(t, ids, es[i..])) == PushedTexts(all)
      invariant indices + Firsts(Residuals(t, ids, es[i..], i)) == Firsts(left)
      invariant reasons + Seconds(Residuals(t, ids, es[i..], i)) == Seconds(left)
      invariant params.items + CondsBinds(FilterConds(t, ids, es[i..])) == binds
    {
      FilterStep(t, ids, es, i, conds, pushed, indices, reasons, params.items);
      conds, indices, reasons, pushed := AddFilter(t, ids, es[i], i, params, conds, indices, reasons, pushed);
    }
    assert es[|es|..] == [];
  }

  /** One round of the filter loop: resolves the filter's column, applies the gates,
      tries to translate it, and records the outcome. */
  method AddFilter(t: Table, ids: seq<ColId>, e: Entry, i: nat, params: ParamList,
                   conds0: seq<string>, indices0: seq<nat>, reasons0: seq<string>, pushed0: seq<string>)
    returns (conds: seq<string>, indices: seq<nat>, reasons: seq<string>, pushed: seq<string>)
    modifies params
    ensures conds == conds0 + CondTexts(EntryConds(t, ids, e))
    ensures pushed == pushed0 + PushedTexts(EntryConds(t, ids, e))
    ensures indices == indices0 + Firsts(EntryResiduals(t, ids, e, i))
    ensures reasons == reasons0 + Seconds(EntryResiduals(t, ids, e, i))
    ensures params.items == old(params.items) + CondsBinds(EntryConds(t, ids, e))
  {
    conds, indices, reasons, pushed := conds0, indices0, reasons0, pushed0;
    var text, reason := TranslateEntry(t, ids, e, params);
    match text
    case Some(frag) =>
      conds := conds + ["(" + frag + ")"];
      pushed := pushed + [frag];
      GroupShow(FilterLx(Classify(t, ids, e).ref, e.f));
    case None =>
      indices := indices + [i];
      reasons := reasons + [reason];
  }

  lemma GroupShow(xs: seq<Lexeme>)
    ensures Show(GroupLx(xs)) == "(" + Show(xs) + ")"
  {
    Single(LP);
    Single(RP);
    Show3([S('(')], xs, [S(')')]);
  }

  /** The left side of a filter's condition. */
  method FilterColumn(t: Table, c: nat) returns (column: string)
    requires c < |t.names|
    ensures column == RefText(RefOf(t, c))
  {
    var name := QuoteIdent(t.names[c]);
    column := name;
    if c < |t.descs| && IsDecfloatType(t.descs[c].sqltype) {
      column := "CAST(" + name + " AS VARCHAR(64))";
    }
  }

  /** A pushed filter compares the very expression that is projected for its column. */
  lemma FilterComparesProjection(t: Table, ids: seq<ColId>, e: Entry)
    requires Classify(t, ids, e).Pushed?
    ensures e.projected < |ids| && ItemOf(t, ids[e.projected]) == ColumnItem(Classify(t, ids, e).ref)
    ensures |Items(t, ids)| == |ids| && Items(t, ids)[e.projected] == ColumnItem(Classify(t, ids, e).ref)
  {
    ItemsAt(t, ids, e.projected);
  }

  /** What is projected, column by column: NULL for the row id, a DECFLOAT as text, every
      other column by its name. */
  lemma ProjectionExactly(t: Table, ids: seq<ColId>, k: nat)
    requires k < |ids|
    ensures |Items(t, ids)| == |ids|
    ensures ids[k].RowId? ==> Items(t, ids)[k] == NullBigint
    ensures ids[k].Col? && ids[k].n < |t.names| ==>
              var c := ids[k].n;
              Items(t, ids)[k] == ColumnItem(
                if c < |t.descs| && t.descs[c].sqltype in {SQL_DEC16, SQL_DEC34} then AsText(t.names[c]) else Bare(t.names[c]))
  {
    ItemsAt(t, ids, k);
  }

  lemma {:induction false} ItemsAt(t: Table, ids: seq<ColId>, i: nat)
    requires i < |ids|
    ensures |Items(t, ids)| == |ids| && Items(t, ids)[i] == ItemOf(t, ids[i])
  {
    if |ids| == 1 {
      assert ids[1..] == [];
    } else {
      ItemsAt(t, ids[1..], if i == 0 then 0 else i - 1);
    }
  }

  /** The filter applies to a column of the table. */
  predicate OnColumn(t: Table, ids: seq<ColId>, e: Entry) {
    e.projected < |ids| && ids[e.projected].Col? && ids[e.projected].n < |t.names|
  }

  /** Which filters stay with DuckDB, and for which reason. */
  lemma ReasonsExactly(t: Table, ids: seq<ColId>, e: Entry)
    ensures var why, supported := Classify(t, ids, e), AllSupported(SubFilters(e.f));
            && (why == Residual("UNSUPPORTED_PROJECTION_MAPPING") <==> e.projected >= |ids|)
            && (why == Residual("ROWID_OR_INVALID_COLUMN") <==> e.projected < |ids| && !OnColumn(t, ids, e))
            && (why == Residual("NONE_CHARSET") <==> OnColumn(t, ids, e) && Gated(t, ids[e.projected].n))
            && (why == Residual("UNSUPPORTED_OP") <==> OnColumn(t, ids, e) && !Gated(t, ids[e.projected].n) && !supported)
            && (why.Pushed? <==> OnColumn(t, ids, e) && !Gated(t, ids[e.projected].n) && supported)
            && (why.Pushed? ==> why.ref == RefOf(t, ids[e.projected].n))
  {
    TranslatableExactly(e.f);
    ReasonsDiffer();
  }

  lemma ReasonsDiffer()
    ensures MAPPING != BAD_COLUMN && MAPPING != NONE_CHARSET && MAPPING != UNSUPPORTED_OP
    ensures BAD_COLUMN != NONE_CHARSET && BAD_COLUMN != UNSUPPORTED_OP && NONE_CHARSET != UNSUPPORTED_OP
  {
    assert MAPPING[0] == 'U' && BAD_COLUMN[0] == 'R' && NONE_CHARSET[0] == 'N' && |MAPPING| != |UNSUPPORTED_OP|;
  }

  /** Resolves the column of a filter, applies the gates and translates it. */
  method TranslateEntry(t: Table, ids: seq<ColId>, e: Entry, params: ParamList) returns (text: Option<string>, reason: string)
    modifies params
    ensures match Classify(t, ids, e)
            case Pushed(ref) =>
              text == Some(Show(FilterLx(ref, e.f))) && params.items == old(params.items) + Binds(e.f)
            case Residual(why) => text == None && reason == why && params.items == old(params.items)
  {
    if e.projected >= |ids| { return None, MAPPING; }
    var id := ids[e.projected];
    if id == RowId || id.n >= |t.names| { return None, BAD_COLUMN; }
    if Gated(t, id.n) { return None, NONE_CHARSET; }
    var column := FilterColumn(t, id.n);
    var saved := |params.items|;
    var ok, frag := TranslateFilter(column, e.f, params, RefOf(t, id.n));
    if ok { return Some(frag), ""; }
    params.Resize(saved);
    return None, UNSUPPORTED_OP;
  }

  lemma {:induction false} OneCond(cs: seq<Cond>, rest: seq<Cond>)
    requires |cs| <= 1
    ensures CondTexts(cs + rest) == CondTexts(cs) + CondTexts(rest)
    ensures PushedTexts(cs + rest) == PushedTexts(cs) + PushedTexts(rest)
    ensures CondsBinds(cs + rest) == CondsBinds(cs) + CondsBinds(rest)
  {
    TextsCat(cs, rest);
    PushedCat(cs, rest);
    BindsCat(cs, rest);
  }

  lemma {:induction false} TextsCat(a: seq<Cond>, b: seq<Cond>)
    ensures CondTexts(a + b) == CondTexts(a) + CondTexts(b)
  {
    if a == [] {
      assert a + b == b;
    } else {
      assert (a + b)[1..] == a[1..] + b;
      TextsCat(a[1..], b);
    }
  }

  lemma {:induction false} PushedCat(a: seq<Cond>, b: seq<Cond>)
    ensures PushedTexts(a + b) == PushedTexts(a) + PushedTexts(b)
  {
    if a == [] {
      assert a + b == b;
    } else {
      assert (a + b)[1..] == a[1..] + b;
      PushedCat(a[1..], b);
    }
  }

  lemma {:induction false} BindsCat(a: seq<Cond>, b: seq<Cond>)
    ensures CondsBinds(a + b) == CondsBinds(a) + CondsBinds(b)
  {
    if a == [] {
      assert a + b == b;
    } else {
      assert (a + b)[1..] == a[1..] + b;
      BindsCat(a[1..], b);
    }
  }

  lemma {:induction false} OneResidual(rs: seq<(nat, string)>, rest: seq<(nat, string)>)
    requires |rs| <= 1
    ensures Firsts(rs + rest) == Firsts(rs) + Firsts(rest)
    ensures Seconds(rs + rest) == Seconds(rs) + Seconds(rest)
  {
    if rs == [] {
      assert rs + rest == rest;
    } else {
      assert (rs + rest)[1..] == rest && rs[1..] == [];
    }
  }

  /** What one round adds to each of the five results, whatever they hold so far. */
  lemma {:induction false} FilterStep(t: Table, ids: seq<ColId>, es: seq<Entry>, i: nat,
                   conds: seq<string>, pushed: seq<string>, indices: seq<nat>, reasons: seq<string>, params: seq<Value>)
    requires i < |es|
    ensures var here, next := EntryConds(t, ids, es[i]), FilterConds(t, ids, es[i + 1..]);
            && conds + CondTexts(FilterConds(t, ids, es[i..])) == conds + CondTexts(here) + CondTexts(next)
            && pushed + PushedTexts(FilterConds(t, ids, es[i..])) == pushed + PushedTexts(here) + PushedTexts(next)
            && params + CondsBinds(FilterConds(t, ids, es[i..])) == params + CondsBinds(here) + CondsBinds(next)
    ensures var here, next := EntryResiduals(t, ids, es[i], i), Residuals(t, ids, es[i + 1..], i + 1);
            && indices + Firsts(Residuals(t, ids, es[i..], i)) == indices + Firsts(here) + Firsts(next)
            && reasons + Seconds(Residuals(t, ids, es[i..], i)) == reasons + Seconds(here) + Seconds(next)
  {
    CondStep(t, ids, es, i);
    ResidualStep(t, ids, es, i);
    var here, next := EntryConds(t, ids, es[i]), FilterConds(t, ids, es[i + 1..]);
    Regroup(conds, CondTexts(here), CondTexts(next), []);
    Regroup(pushed, PushedTexts(here), PushedTexts(next), []);
    Regroup(params, CondsBinds(here), CondsBinds(next), []);
    var left, rest := EntryResiduals(t, ids, es[i], i), Residuals(t, ids, es[i + 1..], i + 1);
    Regroup(indices, Firsts(left), Firsts(rest), []);
    Regroup(reasons, Seconds(left), Seconds(rest), []);
  }

  lemma CondStep(t: Table, ids: seq<ColId>, es: seq<Entry>, i: nat)
    requires i < |es|
    ensures var all, here, next := FilterConds(t, ids, es[i..]), EntryConds(t, ids, es[i]), FilterConds(t, ids, es[i + 1..]);
            && CondTexts(all) == CondTexts(here) + CondTexts(next)
            && PushedTexts(all) == PushedTexts(here) + PushedTexts(next)
            && CondsBinds(all) == CondsBinds(here) + CondsBinds(next)
  {
    assert es[i..][0] == es[i] && es[i..][1..] == es[i + 1..];
    OneCond(EntryConds(t, ids, es[i]), FilterConds(t, ids, es[i + 1..]));
  }

  lemma ResidualStep(t: Table, ids: seq<ColId>, es: seq<Entry>, i: nat)
    requires i < |es|
    ensures var all, here, next := Residuals(t, ids, es[i..], i), EntryResiduals(t, ids, es[i], i), Residuals(t, ids, es[i + 1..], i + 1);
            && Firsts(all) == Firsts(here) + Firsts(next)
            && Seconds(all) == Seconds(here) + Seconds(next)
  {
    assert es[i..][0] == es[i] && es[i..][1..] == es[i + 1..];
    OneResidual(EntryResiduals(t, ids, es[i], i), Residuals(t, ids, es[i + 1..], i + 1));
  }

  // --- assembling the statement --------------------------------------------------------------------

  lemma {:induction false} CondTextsAt(cs: seq<Cond>, i: nat)
    requires i < |cs|
    ensures CondTexts(cs)[i] == Show(CondLx(cs[i]))
  {
    if i == 0 {
    } else {
      CondTextsAt(cs[1..], i - 1);
    }
  }

  function AndGlue(i: nat): string {
    if i == 0 then "" else " AND "
  }

  /** Text of the conditions from `i` on, with the glue that precedes them. */
  function AndRest(cs: seq<Cond>, i: nat): string
    requires i <= |cs|
  {
    if i == |cs| then "" else AndGlue(i) + Show(AndLx(cs[i..]))
  }

  lemma {:induction false} AndRestStep(cs: seq<Cond>, i: nat)
    requires i < |cs|
    ensures AndRest(cs, i) == AndGlue(i) + CondTexts(cs)[i] + AndRest(cs, i + 1)
  {
    CondTextsAt(cs, i);
    var rest := cs[i..];
    if |rest| > 1 {
      assert rest[1..] == cs[i + 1..];
      AndText(rest);
      Regroup(AndGlue(i), Show(CondLx(cs[i])), " AND ", Show(AndLx(rest[1..])));
      Regroup(AndGlue(i) + Show(CondLx(cs[i])), " AND ", Show(AndLx(rest[1..])), "");
    }
  }

  /** The loop that joins the conditions. */
  method JoinConds(start: string, conds: seq<string>, ghost cs: seq<Cond>) returns (sql: string)
    requires conds == CondTexts(cs) && cs != []
    ensures sql == start + Show(AndLx(cs))
  {
    sql := start;
    ghost var whole := start + AndRest(cs, 0);
    assert cs[0..] == cs && AndRest(cs, 0) == Show(AndLx(cs));
    for i := 0 to |conds|
      invariant sql + AndRest(cs, i) == whole
    {
      AndRestStep(cs, i);
      Regroup(sql, AndGlue(i), conds[i], AndRest(cs, i + 1));
      ghost var before := sql;
      if i > 0 { sql := sql + " AND "; }
      assert sql == before + AndGlue(i);
      sql := sql + conds[i];
      assert sql == before + AndGlue(i) + conds[i];
    }
    assert sql + "" == sql;
  }

  /** The WHERE clause of the table filters. */
  method AppendWhere(start: string, conds: seq<string>, ghost cs: seq<Cond>) returns (sql: string)
    requires conds == CondTexts(cs)
    ensures sql == start + WhereText(cs)
  {
    if conds == [] { return start + ""; }
    sql := JoinConds(start + " WHERE ", conds, cs);
    Regroup(start, " WHERE ", Show(AndLx(cs)), "");
  }

  lemma {:induction false} OrderForm()
    ensures Spaced(ORDER_LX) && Show(ORDER_LX) == " ORDER BY " && Tokens(ORDER_LX) == [Word("ORDER"), Word("BY")]
  {
  }

  lemma RowsForm()
    ensures Spaced(ROWS_LX) && Show(ROWS_LX) == " ROWS " && Tokens(ROWS_LX) == [Word("ROWS")]
  {
  }

  lemma ToForm()
    ensures Spaced(TO_LX) && Show(TO_LX) == " TO " && Tokens(TO_LX) == [Word("TO")]
  {
  }

  lemma NumberForm(n: nat)
    ensures Spaced(NumberLx(n)) && Show(NumberLx(n)) == Digits(n) && Tokens(NumberLx(n)) == [Number(Digits(n))]
    ensures Read(Digits(n)).unscaled == n
  {
    DigitsForm(n);
    Single(Number(Digits(n)));
  }

  function KeyText(key: OrderKey): string {
    match key
    case DbKey => "RDB$DB_KEY"
    case Ascending(n) => QuotedName(n) + " ASC"
  }

  function KeyTokens(key: OrderKey): seq<Token> {
    match key
    case DbKey => [Word("RDB$DB_KEY")]
    case Ascending(n) => [Quoted(n), Word("ASC")]
  }

  lemma AscForm()
    ensures Spaced([Space, W("ASC")]) && Show([Space, W("ASC")]) == " ASC" && Tokens([Space, W("ASC")]) == [Word("ASC")]
  {
  }

  lemma KeyForm(key: OrderKey)
    ensures Spaced(KeyLx(key)) && Show(KeyLx(key)) == KeyText(key) && Tokens(KeyLx(key)) == KeyTokens(key)
  {
    match key
    case DbKey => Single(Word("RDB$DB_KEY"));
    case Ascending(n) =>
      Single(Quoted(n));
      AscForm();
      Join([Tok(Quoted(n))], [Space, W("ASC")]);
      assert KeyLx(key) == [Tok(Quoted(n))] + [Space, W("ASC")];
  }

  function RowsText(p: Paging): string {
    match p.offset
    case None => Digits(p.limit)
    case Some(o) => Digits(o + 1) + " TO " + Digits(o + p.limit)
  }

  lemma {:induction false} RowsTextForm(p: Paging)
    ensures Show(RowsLx(p)) == RowsText(p)
  {
    match p.offset
    case None => NumberForm(p.limit);
    case Some(o) =>
      SpanText(o + 1, o + p.limit);
  }

  lemma SpanText(m: nat, n: nat)
    ensures Show(NumberLx(m) + TO_LX + NumberLx(n)) == Digits(m) + " TO " + Digits(n)
  {
    NumberForm(m);
    NumberForm(n);
    ToForm();
    Show3(NumberLx(m), TO_LX, NumberLx(n));
  }

  /** The paging clause; the offset is 0-based, ROWS counts from 1. */
  method AppendPage(start: string, paging: Option<Paging>) returns (sql: string)
    ensures sql == start + Show(PageLx(paging))
  {
    match paging
    case None => sql := start + "";
    case Some(p) =>
      OrderForm(); RowsForm(); KeyForm(p.key); RowsTextForm(p);
      Show3(ORDER_LX, KeyLx(p.key), ROWS_LX);
      ShowCat(ORDER_LX + KeyLx(p.key) + ROWS_LX, RowsLx(p));
      Regroup(start, " ORDER BY " + KeyText(p.key), " ROWS ", RowsText(p));
      sql := start + (" ORDER BY " + KeyText(p.key)) + " ROWS " + RowsText(p);
  }

  /** Glues the extra predicate to the text built so far. */
  method AppendExtra(base: string, extraText: string, ghost extra: seq<Cond>) returns (sql: string)
    requires extraText == Show(AndLx(extra))
    requires extra != [] ==> extraText != ""
    ensures sql == base + ExtraText(base, extra)
  {
    if extraText == "" { return base + ""; }
    var glue := if Contains(base, " WHERE ") then " AND " else " WHERE ";
    sql := base + (glue + "(" + extraText + ")");
  }

  lemma {:induction false} AndNotEmpty(cs: seq<Cond>)
    requires ValidConds(cs) && cs != []
    ensures Show(AndLx(cs)) != ""
  {
    AndForm(cs);
    ShowHead(AndLx(cs));
  }

  method Build(t: Table, ids: seq<ColId>, entries: seq<Entry>, extraText: string, paging: Option<Paging>, ghost extra: seq<Cond>)
    returns (r: Result)
    requires ValidIds(t, ids) && ValidConds(extra) && extraText == Show(AndLx(extra))
    ensures var q := Query(t, ids, entries, extra, paging);
            && r.sql == SqlText(q)
            && r.params == CondsBinds(PushedConds(q))
            && r.pushedSql == PushedTexts(PushedConds(q))
            && r.residualIndices == Firsts(Residuals(t, ids, entries, 0))
            && r.residualReasons == Seconds(Residuals(t, ids, entries, 0))
  {
    var sql := Head(t, ids);
    var params := new ParamList();
    var conds, indices, reasons, pushed := TranslateFilters(t, ids, entries, params);
    assert params.items == CondsBinds(FilterConds(t, ids, entries));
    sql := AppendWhere(sql, conds, FilterConds(t, ids, entries));
    if extra != [] { AndNotEmpty(extra); }
    sql := AppendExtra(sql, extraText, extra);
    sql := AppendPage(sql, paging);
    r := Result(sql, indices, reasons, params.items, pushed);
  }
}
