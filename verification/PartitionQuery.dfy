/** OpenNextPartitionCursor: the remote query of one partition. */
module PartitionQuery {
  import opened Wrappers
  import opened Values
  import opened SqlTokens
  import opened SqlGrammar
  import opened Columns
  import opened Conditions
  import opened QueryBuilder
  import opened PreparedQuery
  import opened ComplexFilters
  import opened Partitions
  import opened Scan

  /** What binding fixed for a scan. `offset` comes with a limit or not at all. */
  datatype Bind = Bind(
    t: Table, pk: Option<PrimaryKey>, isView: bool, simpleView: bool, limit: Option<nat>, offset: Option<nat>)

  /** A ROWS clause is pushed where the server has a deterministic order: the key, or
      RDB$DB_KEY of a base table or a simple view. */
  function PagingOf(b: Bind): Option<Paging> {
    match b.limit
    case None => None
    case Some(n) =>
      if b.pk.Some? then Some(Paging(Ascending(b.pk.value.column), n, b.offset))
      else if !b.isView || b.simpleView then Some(Paging(DbKey, n, b.offset))
      else None
  }

  /** The slice the fetch loop has to enforce itself, as (offset, limit). */
  function SliceOf(b: Bind): Option<(nat, nat)> {
    if b.limit.Some? && PagingOf(b).None?
    then Some((if b.offset.Some? then b.offset.value else 0, b.limit.value)) else None
  }

  function FromExtras(xs: seq<Extra>): seq<Cond> {
    seq(|xs|, i requires 0 <= i < |xs| => FromExtra(xs[i]))
  }

  /** The query of a partition whose range conditions are `part`. */
  function QueryOf(b: Bind, ids: seq<ColId>, entries: seq<Entry>, part: seq<Cond>, xs: seq<Extra>): Query {
    Query(b.t, ids, entries, part + FromExtras(xs), PagingOf(b))
  }

  predicate AllValid(xs: seq<Extra>) {
    forall i :: 0 <= i < |xs| ==> ValidExtra(xs[i])
  }

  /** Range conditions: key bounds, which bind nothing. */
  ghost predicate RangeConds(part: seq<Cond>) {
    part == [] || (exists pk: PrimaryKey, r: Range :: part == KeyConds(pk, r))
  }

  lemma RangeCondsForm(part: seq<Cond>)
    requires RangeConds(part)
    ensures ValidConds(part) && CondsBinds(part) == []
  {
    if part != [] {
      var pk: PrimaryKey, r: Range :| part == KeyConds(pk, r);
      var last := KeyBound(pk.column, Le, r.hi);
      assert part[1..] == [last] && [last][1..] == [];
      assert ValidConds([last]) && CondsBinds([last]) == CondBinds(last) + CondsBinds([last][1..]);
    }
  }

  lemma {:induction false} ExtrasStep(part: seq<Cond>, xs: seq<Extra>, i: nat)
    requires i < |xs|
    ensures part + FromExtras(xs[..i + 1]) == part + FromExtras(xs[..i]) + [FromExtra(xs[i])]
  {
    assert FromExtras(xs[..i + 1]) == FromExtras(xs[..i]) + [FromExtra(xs[i])];
  }

  lemma {:induction false} PredicatesAt(xs: seq<Extra>, i: nat)
    requires i < |xs|
    ensures |PredicatesOf(xs)| == |xs| && PredicatesOf(xs)[i] == PredicateOf(xs[i])
  {
    if i == 0 {
    } else {
      PredicatesAt(xs[1..], i - 1);
    }
    PredicatesLength(xs);
  }

  lemma {:induction false} PredicatesLength(xs: seq<Extra>)
    ensures |PredicatesOf(xs)| == |xs|
  {
    if xs == [] {
    } else {
      PredicatesLength(xs[1..]);
    }
  }

  /** What one more predicate adds to the combined text and to the parameters. */
  lemma ExtraAdded(cs: seq<Cond>, x: Extra)
    requires ValidConds(cs) && ValidExtra(x)
    ensures ValidConds(cs + [FromExtra(x)])
    ensures Show(AndLx(cs + [FromExtra(x)])) == Show(AndLx(cs)) + (if Show(AndLx(cs)) == "" then "" else " AND ") + "(" + PredicateOf(x).sql + ")"
    ensures CondsBinds(cs + [FromExtra(x)]) == CondsBinds(cs) + PredicateOf(x).params
  {
    var c := FromExtra(x);
    ValidSnoc(cs, c);
    BindsSnoc(cs, c);
    AddedText(cs, x);
  }

  lemma ExtraCondText(x: Extra)
    ensures Show(CondLx(FromExtra(x))) == "(" + PredicateOf(x).sql + ")"
  {
    GroupShow(ExtraLx(x));
  }

  lemma {:induction false} AndOne(c: Cond)
    ensures Show(AndLx([c])) == Show(CondLx(c))
  {
  }

  lemma {:induction false} AddedText(cs: seq<Cond>, x: Extra)
    requires ValidConds(cs)
    ensures Show(AndLx(cs + [FromExtra(x)])) == Show(AndLx(cs)) + (if Show(AndLx(cs)) == "" then "" else " AND ") + "(" + PredicateOf(x).sql + ")"
  {
    var c := FromExtra(x);
    ExtraCondText(x);
    if cs == [] {
      assert cs + [c] == [c];
      AndOne(c);
    } else {
      AndSnoc(cs, c);
      AndNotEmpty(cs);
    }
    Parenthesised(Show(AndLx(cs)) + if Show(AndLx(cs)) == "" then "" else " AND ", PredicateOf(x).sql);
  }

  lemma Parenthesised(before: string, text: string)
    ensures before + ("(" + text + ")") == before + "(" + text + ")"
  {
  }

  /** The range of the partition and the lifted predicates, in one text; their
      parameters in the same order. */
  method Combine(whereClause: string, extras: seq<ExtraPredicate>, ghost part: seq<Cond>, ghost xs: seq<Extra>)
    returns (combined: string, params: seq<Value>)
    requires RangeConds(part) && whereClause == Show(AndLx(part)) && AllValid(xs) && extras == PredicatesOf(xs)
    ensures ValidConds(part + FromExtras(xs))
    ensures combined == Show(AndLx(part + FromExtras(xs))) && params == CondsBinds(part + FromExtras(xs))
  {
    combined, params := whereClause, [];
    RangeCondsForm(part);
    PredicatesLength(xs);
    assert xs[..0] == [] && part + FromExtras([]) == part;
    for i := 0 to |extras|
      invariant ValidConds(part + FromExtras(xs[..i]))
      invariant combined == Show(AndLx(part + FromExtras(xs[..i]))) && params == CondsBinds(part + FromExtras(xs[..i]))
    {
      PredicatesAt(xs, i);
      ExtraAdded(part + FromExtras(xs[..i]), xs[i]);
      ExtrasStep(part, xs, i);
      ghost var before := combined;
      if combined != "" { combined := combined + " AND "; }
      assert combined == before + if before == "" then "" else " AND ";
      combined := combined + "(" + extras[i].sql + ")";
      params := params + extras[i].params;
    }
    assert xs[..|xs|] == xs;
  }

  /** Builds the statement and its parameters: those of the table filters, then those of
      the lifted predicates. */
  method OpenQuery(b: Bind, spec: PartitionSpec, ids: seq<ColId>, entries: seq<Entry>, extras: seq<ExtraPredicate>,
                   ghost part: seq<Cond>, ghost xs: seq<Extra>)
    returns (sql: string, params: seq<Value>, slice: Option<(nat, nat)>, reasons: seq<string>)
    requires ValidIds(b.t, ids) && AllValid(xs) && extras == PredicatesOf(xs)
    requires RangeConds(part) && spec.whereClause == Show(AndLx(part))
    ensures var q := QueryOf(b, ids, entries, part, xs);
            ValidQuery(q) && sql == SqlText(q) && params == AllBindsOf(q)
    ensures slice == SliceOf(b)
    ensures reasons == Seconds(Residuals(b.t, ids, entries, 0))
  {
    var combined, extraParams := Combine(spec.whereClause, extras, part, xs);
    var paging;
    paging, slice := DecidePaging(b);
    var r := Build(b.t, ids, entries, combined, paging, part + FromExtras(xs));
    sql, params, reasons := r.sql, r.params + extraParams, r.residualReasons;
  }

  /** The pagination decision: the key, a base table, a simple view, else the local slice. */
  method DecidePaging(b: Bind) returns (paging: Option<Paging>, slice: Option<(nat, nat)>)
    ensures paging == PagingOf(b) && slice == SliceOf(b)
    ensures paging.None? || slice.None?
  {
    paging, slice := None, None;
    if b.limit.Some? {
      if b.pk.Some? {
        paging := Some(Paging(Ascending(b.pk.value.column), b.limit.value, b.offset));
      } else if !b.isView {
        paging := Some(Paging(DbKey, b.limit.value, b.offset));
      } else if b.simpleView {
        paging := Some(Paging(DbKey, b.limit.value, b.offset));
      } else {
        slice := Some((if b.offset.Some? then b.offset.value else 0, b.limit.value));
      }
    }
  }

  // --- paging ------------------------------------------------------------------------------

  /** What the server returns of the rows it would return without paging, given in the
      order of the ORDER BY clause. */
  function PageRows<R>(page: Option<Page>, rows: seq<R>): seq<R> {
    match page
    case None => rows
    case Some(p) =>
      (match p.last
       case None => RowsClause(rows, 1, p.first)
       case Some(last) => RowsClause(rows, p.first, last))
  }

  /** Pushed or enforced on the client, a requested page is the same slice
      rows[offset .. min(offset + limit, len)) of the ordered rows. */
  lemma PagingDenotesSlice<R>(b: Bind, rows: seq<R>)
    requires b.offset.Some? ==> b.limit.Some?
    ensures var page := PageRows(PageOf(PagingOf(b)), rows);
            (match SliceOf(b) case None => page case Some((offset, limit)) => Slice(page, offset, limit)) ==
            (match b.limit case None => rows
                           case Some(limit) => Slice(rows, if b.offset.Some? then b.offset.value else 0, limit))
  {
    if b.limit.Some? { SliceIsRows(rows, if b.offset.Some? then b.offset.value else 0, b.limit.value); }
  }
}
