/** Scans with a row limit: which page of which rows they give. */
module PagedScan {
  import opened Wrappers
  import opened Values
  import opened NumberText
  import opened SqlGrammar
  import opened SqlSemantics
  import opened Columns
  import opened TableFilters
  import opened QueryBuilder
  import opened FilterPushdown
  import opened NoneCharset
  import opened ComplexFilters
  import opened Partitions
  import opened PartitionQuery
  import opened EndToEnd
  import S = Scan

  // --- what a paged scan gives ---------------------------------------------------------------

  /** `rows` is `answer` in the order of the ORDER BY clause: by ascending key, or by
      RDB$DB_KEY, which is the order of the table. */
  ghost predicate InPageOrder(page: Option<Page>, answer: seq<Row>, rows: seq<Row>) {
    match page
    case None => true
    case Some(p) =>
      match p.key
      case DbKey => rows == answer
      case Ascending(k) => forall a, b :: 0 <= a < b < |rows| ==> Compare(Le, Stored(rows[a], k), Stored(rows[b], k)) == True
  }

  function Parsed(j: Job): Option<Statement> { Prepare(SqlText(QueryAt(j, 0)), AllBindsOf(QueryAt(j, 0))) }

  /** `ordered` is the server's answer to the scan's only statement, before it is paged. */
  ghost predicate OrderedAnswer(j: Job, table: seq<Row>, ordered: seq<Row>) {
    var answer := ServerRows(j.b.t, SqlText(QueryAt(j, 0)), AllBindsOf(QueryAt(j, 0)), table);
    multiset(ordered) == multiset(answer) && Parsed(j).Some? && InPageOrder(Parsed(j).value.page, answer, ordered)
  }

  /** The rows that reach the client. */
  function Returned(j: Job, ordered: seq<Row>): seq<Row>
    requires Parsed(j).Some?
  {
    PageRows(Parsed(j).value.page, ordered)
  }

  /** The rows the scan emits: all that reach it or, where no ROWS clause was pushed, those
      the local slice lets through. */
  function PageEmitted(j: Job, ordered: seq<Row>): seq<Row>
    requires Parsed(j).Some?
  {
    Emitted(SliceOf(j.b), Returned(j, ordered))
  }

  function Emitted(slice: Option<(nat, nat)>, returned: seq<Row>): seq<Row> {
    match slice
    case None => returned
    case Some((offset, limit)) => S.RowsClause(returned, offset + 1, offset + limit)
  }

  function Offset(j: Job): nat { if j.b.offset.Some? then j.b.offset.value else 0 }

  /** A paged scan of one partition. */
  ghost predicate Paged(j: Job, table: seq<Row>, ordered: seq<Row>) {
    j.b.limit.Some? && j.n == 1 && Understood(j, table) && OrderedAnswer(j, table, ordered)
  }

  /** The fetch loop over the rows of one statement. */
  method OneStatement(rows: seq<Row>, slice: Option<(nat, nat)>, width: nat, target: nat, blob: Row -> nat)
    returns (chunks: seq<seq<Row>>)
    requires target > 0
    ensures Concat(chunks) == Emitted(slice, rows)
  {
    OneResult(rows);
    chunks := S.SingleWorker([rows], false, null, S.Plan(slice, width, target), blob);
  }

  /** The fetch loop on a paged scan gives exactly these rows, whatever the chunk size. */
  method RunPaged(j: Job, ghost table: seq<Row>, ordered: seq<Row>, width: nat, target: nat, blob: Row -> nat)
    returns (chunks: seq<seq<Row>>)
    requires Paged(j, table, ordered) && target > 0
    ensures Concat(chunks) == PageEmitted(j, ordered) == S.Slice(ordered, Offset(j), j.b.limit.value)
  {
    PageIsSlice(j, table, ordered);
    chunks := OneStatement(Returned(j, ordered), SliceOf(j.b), width, target, blob);
  }

  lemma OneResult<R>(rows: seq<R>)
    ensures Concat([rows]) == rows
  {
    ConcatSnoc([], rows);
    assert [] + [rows] == [rows] && Concat<R>([]) + rows == rows;
  }

  lemma PageIsSlice(j: Job, table: seq<Row>, ordered: seq<Row>)
    requires Paged(j, table, ordered)
    ensures Parsed(j) == Some(Intended(QueryAt(j, 0)))
    ensures PageEmitted(j, ordered) == S.Slice(ordered, Offset(j), j.b.limit.value)
  {
    ServerSelects(j, table, 0);
    SlicedPage(j.b, ordered);
    IntendedPage(QueryAt(j, 0));
  }

  lemma IntendedPage(q: Query)
    ensures Intended(q).page == PageOf(q.paging)
  {
  }

  lemma SlicedPage(b: Bind, rows: seq<Row>)
    requires b.limit.Some?
    ensures Emitted(SliceOf(b), PageRows(PageOf(PagingOf(b)), rows)) ==
            S.Slice(rows, if b.offset.Some? then b.offset.value else 0, b.limit.value)
  {
    var page := PageRows(PageOf(PagingOf(b)), rows);
    PagingDenotesSlice(b, rows);
    if SliceOf(b).Some? { S.SliceIsRows(page, SliceOf(b).value.0, SliceOf(b).value.1); }
  }

  // --- of which rows ------------------------------------------------------------------------------

  lemma OrderedTimes(j: Job, table: seq<Row>, ordered: seq<Row>, row: Row)
    requires Paged(j, table, ordered)
    ensures multiset(ordered)[row] == if PushedHold(j, row) && InPart(j, 0, row) then multiset(table)[row] else 0
    ensures row in table ==> (InPart(j, 0, row) <==> InRange(j.b.pk, row))
  {
    ServerSelects(j, table, 0);
    SelectedBy(j, 0, row);
    FilteredTimes(Intended(QueryAt(j, 0)).where, table, row);
    if row in table {
      OnePart(j, table, row);
      assert PartsFrom(j, 1, row) == 0;
    }
  }

  lemma SliceWithin<R>(xs: seq<R>, offset: nat, limit: nat, x: R)
    ensures multiset(S.Slice(xs, offset, limit))[x] <= multiset(xs)[x]
  {
    var rest := S.Drop(xs, offset);
    assert xs == xs[..S.Min(offset, |xs|)] + rest;
    assert rest == S.Take(rest, limit) + rest[S.Min(limit, |rest|)..];
  }

  /** The statement is the intended one; the rows it orders are exactly the rows of the table
      that satisfy the pushed conditions and lie in the key range; what is emitted is the
      requested page of them, so every row emitted satisfies the pushed conditions and none
      comes more often than in the table. */
  lemma PagedScanIsSlice(j: Job, table: seq<Row>, ordered: seq<Row>, row: Row)
    requires Paged(j, table, ordered)
    ensures Parsed(j) == Some(Intended(QueryAt(j, 0)))
    ensures multiset(ordered)[row] == if PushedHold(j, row) && Reachable(j, table, row) then multiset(table)[row] else 0
    ensures var emitted := PageEmitted(j, ordered);
            && emitted == S.Slice(ordered, Offset(j), j.b.limit.value)
            && multiset(emitted)[row] <= multiset(table)[row]
            && (row in emitted ==> row in table && PushedHold(j, row) && InPart(j, 0, row))
  {
    PageIsSlice(j, table, ordered);
    OrderedTimes(j, table, ordered, row);
    SliceWithin(ordered, Offset(j), j.b.limit.value, row);
    if row in PageEmitted(j, ordered) { assert multiset(PageEmitted(j, ordered))[row] > 0; }
  }

  // --- filters applied above the page ------------------------------------------------------------------

  function Keep<R>(xs: seq<R>, ok: R -> bool): seq<R> {
    if xs == [] then [] else (if ok(xs[0]) then [xs[0]] else []) + Keep(xs[1..], ok)
  }

  function Kept(j: Job, other: Oracle, unknowns: Unknowns): Row -> bool {
    row => Reapplied(j, row, other, unknowns)
  }

  /** What is left of rows once DuckDB has applied the filters that were not pushed. */
  function Final(j: Job, rows: seq<Row>, other: Oracle, unknowns: Unknowns): seq<Row> {
    Keep(rows, Kept(j, other, unknowns))
  }

  /** What DuckDB keeps of the page is the page of what it would keep of all rows. */
  predicate PageRight(j: Job, ordered: seq<Row>, other: Oracle, unknowns: Unknowns)
    requires j.b.limit.Some? && Parsed(j).Some?
  {
    Final(j, PageEmitted(j, ordered), other, unknowns) ==
    S.Slice(Final(j, ordered, other, unknowns), Offset(j), j.b.limit.value)
  }

  lemma {:induction false} KeepCat<R>(xs: seq<R>, ys: seq<R>, ok: R -> bool)
    ensures Keep(xs + ys, ok) == Keep(xs, ok) + Keep(ys, ok)
  {
    if xs == [] {
      assert xs + ys == ys;
    } else {
      assert (xs + ys)[1..] == xs[1..] + ys;
      KeepCat(xs[1..], ys, ok);
      var first := if ok(xs[0]) then [xs[0]] else [];
      assert first + (Keep(xs[1..], ok) + Keep(ys, ok)) == first + Keep(xs[1..], ok) + Keep(ys, ok);
    }
  }

  lemma {:induction false} KeepTimes<R>(xs: seq<R>, ok: R -> bool, x: R)
    ensures multiset(Keep(xs, ok))[x] == if ok(x) then multiset(xs)[x] else 0
  {
    if xs == [] {
    } else {
      KeepTimes(xs[1..], ok, x);
      assert xs == [xs[0]] + xs[1..];
    }
  }

  lemma {:induction false} KeepAll<R>(xs: seq<R>, ok: R -> bool)
    requires forall i :: 0 <= i < |xs| ==> ok(xs[i])
    ensures Keep(xs, ok) == xs
  {
    if xs == [] {
    } else {
      assert forall i :: 0 <= i < |xs| - 1 ==> xs[1..][i] == xs[i + 1];
      KeepAll(xs[1..], ok);
      assert xs == [xs[0]] + xs[1..];
    }
  }

  /** Every table filter is pushed and every expression is lifted. */
  predicate NothingReapplied(j: Job) {
    && (forall i :: 0 <= i < |j.entries| ==> Classify(j.b.t, j.ids, j.entries[i]).Pushed?)
    && Left(Ctx(j), j.exprs) == []
  }

  /** The rows kept of the whole ordered answer are the wanted rows in the probed range, in
      the order of the ORDER BY clause. */
  lemma FinalIsWanted(j: Job, table: seq<Row>, ordered: seq<Row>, other: Oracle, unknowns: Unknowns, row: Row)
    requires Paged(j, table, ordered)
    ensures multiset(Final(j, ordered, other, unknowns))[row] ==
            if Wanted(j, row, other, unknowns) && Reachable(j, table, row) then multiset(table)[row] else 0
  {
    KeepTimes(ordered, Kept(j, other, unknowns), row);
    OrderedTimes(j, table, ordered, row);
    if row in table { FiltersSplit(j, row, other, unknowns); }
  }

  lemma NothingDropped(j: Job, rows: seq<Row>, other: Oracle, unknowns: Unknowns)
    requires NothingReapplied(j)
    ensures Final(j, rows, other, unknowns) == rows
  {
    forall r: Row ensures Reapplied(j, r, other, unknowns) { }
    KeepAll(rows, Kept(j, other, unknowns));
  }

  ghost predicate NoRepeats<R(!new)>(xs: seq<R>) {
    forall i, k :: 0 <= i < k < |xs| ==> xs[i] != xs[k]
  }

  function Before<R>(xs: seq<R>, offset: nat): seq<R> { xs[..S.Min(offset, |xs|)] }

  function After<R>(xs: seq<R>, offset: nat, limit: nat): seq<R> { S.Drop(S.Drop(xs, offset), limit) }

  lemma Split<R>(xs: seq<R>, offset: nat, limit: nat)
    ensures xs == Before(xs, offset) + (S.Slice(xs, offset, limit) + After(xs, offset, limit))
    ensures |S.Slice(xs, offset, limit)| <= limit
    ensures |Before(xs, offset)| < offset ==> S.Slice(xs, offset, limit) == [] && After(xs, offset, limit) == []
  {
    var rest := S.Drop(xs, offset);
    assert rest == S.Take(rest, limit) + S.Drop(rest, limit);
  }

  lemma SliceOfThree<R(!new)>(a: seq<R>, b: seq<R>, c: seq<R>, offset: nat, limit: nat)
    requires |a| <= offset && |b| <= limit
    ensures ThreeFit(|a|, |b|, |c|, offset, limit) ==> S.Slice(a + (b + c), offset, limit) == b
    ensures NoRepeats(a + (b + c)) && S.Slice(a + (b + c), offset, limit) == b ==> ThreeFit(|a|, |b|, |c|, offset, limit)
  {
    var all, d := a + (b + c), offset - |a|;
    var rest := S.Drop(all, offset);
    assert rest == S.Drop(b + c, d);
    if d == 0 {
      assert rest == b + c;
      if |b| == limit || c == [] { assert S.Take(rest, limit) == b; }
    } else if b != [] {
      assert all[|a|] == b[0];
      var page := S.Take(rest, limit);
      if page != [] { assert page[0] == all[offset]; }
    }
  }

  /** `a` kept rows before the page, `b` on it and `c` after it: the kept rows of the page
      are the page of the kept rows. */
  predicate ThreeFit(a: nat, b: nat, c: nat, offset: nat, limit: nat) {
    (a == offset && (b == limit || c == 0)) || (b == 0 && (limit == 0 || a + c <= offset))
  }

  /** Whether one answer's page is right, from counts of kept rows: it is when either all
      skipped rows are kept and the page is full of kept rows or none follows, or no row of
      the page is kept and not more than `offset` are in all. For an answer without repeated
      rows this is the only way. */
  lemma PageExactIff(j: Job, table: seq<Row>, ordered: seq<Row>, other: Oracle, unknowns: Unknowns)
    requires Paged(j, table, ordered)
    ensures var o, l := Offset(j), j.b.limit.value;
            var a, b, c := |Final(j, Before(ordered, o), other, unknowns)|, |Final(j, PageEmitted(j, ordered), other, unknowns)|,
                           |Final(j, After(ordered, o, l), other, unknowns)|;
            && (ThreeFit(a, b, c, o, l) ==> PageRight(j, ordered, other, unknowns))
            && (NoRepeats(ordered) && PageRight(j, ordered, other, unknowns) ==> ThreeFit(a, b, c, o, l))
  {
    PageIsSlice(j, table, ordered);
    KeepSlice(ordered, Kept(j, other, unknowns), Offset(j), j.b.limit.value);
  }

  lemma {:induction false} KeepSlice<R(!new)>(xs: seq<R>, ok: R -> bool, offset: nat, limit: nat)
    ensures var a, b, c := Keep(Before(xs, offset), ok), Keep(S.Slice(xs, offset, limit), ok), Keep(After(xs, offset, limit), ok);
            && (ThreeFit(|a|, |b|, |c|, offset, limit) ==> b == S.Slice(Keep(xs, ok), offset, limit))
            && (NoRepeats(xs) && b == S.Slice(Keep(xs, ok), offset, limit) ==> ThreeFit(|a|, |b|, |c|, offset, limit))
  {
    var before, page, after := Before(xs, offset), S.Slice(xs, offset, limit), After(xs, offset, limit);
    Split(xs, offset, limit);
    KeepCat(before, page + after, ok);
    KeepCat(page, after, ok);
    KeepLength(before, ok);
    KeepLength(page, ok);
    if NoRepeats(xs) { KeepNoRepeats(xs, ok); }
    SliceOfThree(Keep(before, ok), Keep(page, ok), Keep(after, ok), offset, limit);
  }

  lemma {:induction false} KeepLength<R>(xs: seq<R>, ok: R -> bool)
    ensures |Keep(xs, ok)| <= |xs|
  {
    if xs == [] {
    } else {
      KeepLength(xs[1..], ok);
    }
  }

  lemma {:induction false} KeepNoRepeats<R(!new)>(xs: seq<R>, ok: R -> bool)
    requires NoRepeats(xs)
    ensures NoRepeats(Keep(xs, ok)) && forall x :: x in Keep(xs, ok) ==> x in xs
  {
    if xs == [] {
    } else {
      var rest := Keep(xs[1..], ok);
      KeepNoRepeats(xs[1..], ok);
      forall i | 0 <= i < |xs| - 1 ensures xs[1..][i] != xs[0] { assert xs[1..][i] == xs[i + 1]; }
      assert xs[0] !in rest;
    }
  }

  // --- jobs whose every page is right ---------------------------------------------------------------------

  /** Rows the statement selects, of which DuckDB drops the first and keeps the second, and
      which the ORDER BY, if there is one, may return in this order. */
  ghost predicate Spoils(j: Job, bad: Row, good: Row, other: Oracle, unknowns: Unknowns) {
    && Selectable(j, bad) && Selectable(j, good)
    && !Reapplied(j, bad, other, unknowns) && Reapplied(j, good, other, unknowns)
    && NotAfter(j.b.pk, bad, good)
  }

  /** The key, if there is one, lets row `a` come before row `b`. */
  predicate NotAfter(pk: Option<PrimaryKey>, a: Row, b: Row) {
    && KeyTyped(pk, a) && KeyTyped(pk, b)
    && (pk.Some? ==> KeyOf(pk.value, a).value.unscaled <= KeyOf(pk.value, b).value.unscaled)
  }

  ghost predicate Selectable(j: Job, row: Row) {
    RowOk(j.b.t, row) && KeyTyped(j.b.pk, row) && PushedHold(j, row) && InPart(j, 0, row)
  }

  /** No pair of rows spoils a page. */
  ghost predicate NeverSpoiled(j: Job, other: Oracle, unknowns: Unknowns) {
    forall bad, good :: !Spoils(j, bad, good, other, unknowns)
  }

  lemma {:induction false} KeepNone<R>(xs: seq<R>, ok: R -> bool)
    requires forall i :: 0 <= i < |xs| ==> !ok(xs[i])
    ensures Keep(xs, ok) == []
  {
    if xs == [] {
    } else {
      assert forall i :: 0 <= i < |xs| - 1 ==> xs[1..][i] == xs[i + 1];
      KeepNone(xs[1..], ok);
    }
  }

  /** Kept rows come first. */
  ghost predicate KeptFirst<R>(xs: seq<R>, ok: R -> bool) {
    forall i, k :: 0 <= i < k < |xs| && ok(xs[k]) ==> ok(xs[i])
  }

  /** Where they end. */
  lemma {:induction false} KeptPrefix<R>(xs: seq<R>, ok: R -> bool) returns (n: nat)
    requires KeptFirst(xs, ok)
    ensures n <= |xs|
    ensures forall i :: 0 <= i < |xs| ==> (ok(xs[i]) <==> i < n)
  {
    n := 0;
    while n < |xs| && ok(xs[n])
      invariant n <= |xs|
      invariant forall i :: 0 <= i < n ==> ok(xs[i])
    {
      n := n + 1;
    }
  }

  lemma {:induction false} KeepTo<R>(xs: seq<R>, ok: R -> bool, n: nat)
    requires n <= |xs| && forall i :: 0 <= i < |xs| ==> (ok(xs[i]) <==> i < n)
    ensures Keep(xs, ok) == xs[..n]
  {
    assert xs == xs[..n] + xs[n..];
    KeepCat(xs[..n], xs[n..], ok);
    KeepAll(xs[..n], ok);
    KeepNone(xs[n..], ok);
  }

  /** Then slicing and keeping commute. */
  lemma {:induction false} PrefixSlice<R>(xs: seq<R>, ok: R -> bool, offset: nat, limit: nat)
    requires KeptFirst(xs, ok)
    ensures Keep(S.Slice(xs, offset, limit), ok) == S.Slice(Keep(xs, ok), offset, limit)
  {
    var n := KeptPrefix(xs, ok);
    KeepTo(xs, ok, n);
    var from, page := S.Min(offset, |xs|), S.Slice(xs, offset, limit);
    var m := if n <= from then 0 else S.Min(n - from, |page|);
    forall i | 0 <= i < |page| ensures page[i] == xs[from + i] { }
    KeepTo(page, ok, m);
    assert page[..m] == S.Slice(xs[..n], offset, limit);
  }

  lemma OrderedSelectable(j: Job, table: seq<Row>, ordered: seq<Row>, row: Row)
    requires Paged(j, table, ordered) && row in ordered
    ensures Selectable(j, row)
  {
    OrderedTimes(j, table, ordered, row);
    assert multiset(ordered)[row] > 0;
  }

  /** In an answer in the statement's order no spoiling row precedes a kept one. */
  lemma OrderKeepsFirst(j: Job, table: seq<Row>, ordered: seq<Row>, other: Oracle, unknowns: Unknowns)
    requires Paged(j, table, ordered) && NeverSpoiled(j, other, unknowns)
    ensures KeptFirst(ordered, Kept(j, other, unknowns))
  {
    var answer := AskedOrder(j, table, ordered);
    forall i, k | 0 <= i < k < |ordered| && Reapplied(j, ordered[k], other, unknowns)
      ensures Reapplied(j, ordered[i], other, unknowns)
    {
      OrderedSelectable(j, table, ordered, ordered[i]);
      OrderedSelectable(j, table, ordered, ordered[k]);
      PageOrderIsKeyOrder(j.b, answer, ordered, i, k);
      assert !Spoils(j, ordered[i], ordered[k], other, unknowns);
    }
  }

  /** The answer comes in the order the scan asked for. */
  lemma AskedOrder(j: Job, table: seq<Row>, ordered: seq<Row>) returns (answer: seq<Row>)
    requires Paged(j, table, ordered)
    ensures InPageOrder(PageOf(PagingOf(j.b)), answer, ordered)
  {
    answer := ServerRows(j.b.t, SqlText(QueryAt(j, 0)), AllBindsOf(QueryAt(j, 0)), table);
    ServerSelects(j, table, 0);
    IntendedPage(QueryAt(j, 0));
  }

  lemma PageOrderIsKeyOrder(b: Bind, answer: seq<Row>, ordered: seq<Row>, i: nat, k: nat)
    requires b.limit.Some? && InPageOrder(PageOf(PagingOf(b)), answer, ordered) && i < k < |ordered|
    requires KeyTyped(b.pk, ordered[i]) && KeyTyped(b.pk, ordered[k])
    ensures NotAfter(b.pk, ordered[i], ordered[k])
  {
    assert Pow10(0) == 1;
    if b.pk.Some? {
      assert Compare(Le, Stored(ordered[i], b.pk.value.column), Stored(ordered[k], b.pk.value.column)) == True;
    }
  }

  function Repeat<R>(x: R, n: nat): seq<R> { seq(n, _ => x) }

  lemma {:induction false} AllSelected(where: Option<Sql>, table: seq<Row>)
    requires forall r :: r in table ==> Selects(where, r)
    ensures Filtered(where, table) == table
  {
    if table == [] {
    } else {
      AllSelected(where, table[1..]);
      assert table == [table[0]] + table[1..];
    }
  }

  ghost predicate KeyOrdered(pk: Option<PrimaryKey>, rows: seq<Row>) {
    forall i, k :: 0 <= i < k < |rows| ==> NotAfter(pk, rows[i], rows[k])
  }

  lemma KeyOrderIsPageOrder(b: Bind, rows: seq<Row>)
    requires b.limit.Some? && KeyOrdered(b.pk, rows)
    ensures InPageOrder(PageOf(PagingOf(b)), rows, rows)
  {
    assert Pow10(0) == 1;
    if b.pk.Some? {
      forall i, k | 0 <= i < k < |rows|
        ensures Compare(Le, Stored(rows[i], b.pk.value.column), Stored(rows[k], b.pk.value.column)) == True
      {
        assert NotAfter(b.pk, rows[i], rows[k]);
      }
    }
  }

  lemma SelectableUnderstood(j: Job, table: seq<Row>)
    requires Understood(j, []) && forall r :: r in table ==> Selectable(j, r)
    ensures Understood(j, table)
  {
  }

  lemma AnswersItself(j: Job, table: seq<Row>)
    requires j.n == 1 && Understood(j, table) && forall r :: r in table ==> Selectable(j, r)
    ensures Parsed(j) == Some(Intended(QueryAt(j, 0)))
    ensures ServerRows(j.b.t, SqlText(QueryAt(j, 0)), AllBindsOf(QueryAt(j, 0)), table) == table
  {
    ServerSelects(j, table, 0);
    forall r | r in table ensures Selects(Intended(QueryAt(j, 0)).where, r) { SelectedBy(j, 0, r); }
    AllSelected(Intended(QueryAt(j, 0)).where, table);
  }

  /** A table of selectable rows in key order is its own ordered answer. */
  lemma OwnAnswer(j: Job, table: seq<Row>)
    requires j.b.limit.Some? && j.n == 1 && Understood(j, [])
    requires (forall r :: r in table ==> Selectable(j, r)) && KeyOrdered(j.b.pk, table)
    ensures Paged(j, table, table)
  {
    SelectableUnderstood(j, table);
    AnswersItself(j, table);
    IntendedPage(QueryAt(j, 0));
    KeyOrderIsPageOrder(j.b, table);
  }

  /** The table that a spoiling pair makes: the rows to skip and the page are dropped, and
      there are wanted rows enough to fill a page behind them. */
  function SpoiledTable(j: Job, bad: Row, good: Row): seq<Row>
    requires j.b.limit.Some?
  {
    Repeat(bad, Offset(j) + j.b.limit.value) + Repeat(good, Offset(j) + 1)
  }

  lemma SpoiledPage(j: Job, bad: Row, good: Row, other: Oracle, unknowns: Unknowns)
    requires j.b.limit.Some? && j.n == 1 && Understood(j, []) && Spoils(j, bad, good, other, unknowns)
    ensures var table := SpoiledTable(j, bad, good);
            Paged(j, table, table) && PageEmitted(j, table) == S.Slice(table, Offset(j), j.b.limit.value)
  {
    var table := SpoiledTable(j, bad, good);
    SpoiledOrder(j, bad, good, other, unknowns);
    OwnAnswer(j, table);
    PageIsSlice(j, table, table);
  }

  /** The page of the spoiled table is empty, that of its kept rows is not. */
  lemma SpoiledFinal(j: Job, bad: Row, good: Row, other: Oracle, unknowns: Unknowns)
    requires j.b.limit.Some? && j.b.limit.value > 0 && !Kept(j, other, unknowns)(bad) && Kept(j, other, unknowns)(good)
    ensures var o, l, table := Offset(j), j.b.limit.value, SpoiledTable(j, bad, good);
            && Final(j, S.Slice(table, o, l), other, unknowns) == []
            && S.Slice(Final(j, table, other, unknowns), o, l) == [good]
  {
    SpoiledSlices(bad, good, Kept(j, other, unknowns), Offset(j), j.b.limit.value);
  }

  lemma SpoiledOrder(j: Job, bad: Row, good: Row, other: Oracle, unknowns: Unknowns)
    requires j.b.limit.Some? && Spoils(j, bad, good, other, unknowns)
    ensures var table := SpoiledTable(j, bad, good);
            KeyOrdered(j.b.pk, table) && forall r :: r in table ==> Selectable(j, r)
  {
    var table := SpoiledTable(j, bad, good);
    assert NotAfter(j.b.pk, bad, bad) && NotAfter(j.b.pk, good, good);
    forall i, k | 0 <= i < k < |table| ensures NotAfter(j.b.pk, table[i], table[k]) {
      assert table[i] == bad || (table[i] == good && table[k] == good);
      assert table[k] == bad || table[k] == good;
    }
    forall r | r in table ensures Selectable(j, r) { assert r == bad || r == good; }
  }

  lemma SpoiledSlices<R>(bad: R, good: R, ok: R -> bool, offset: nat, limit: nat)
    requires !ok(bad) && ok(good) && limit > 0
    ensures var table := Repeat(bad, offset + limit) + Repeat(good, offset + 1);
            && Keep(S.Slice(table, offset, limit), ok) == []
            && S.Slice(Keep(table, ok), offset, limit) == [good]
  {
    var bads, goods := Repeat(bad, offset + limit), Repeat(good, offset + 1);
    assert S.Slice(bads + goods, offset, limit) == Repeat(bad, limit);
    KeepNone(Repeat(bad, limit), ok);
    KeepCat(bads, goods, ok);
    KeepNone(bads, ok);
    KeepAll(goods, ok);
    assert S.Slice(goods, offset, limit) == [good];
  }

  lemma RightUnlessSpoiled(j: Job, table: seq<Row>, ordered: seq<Row>, other: Oracle, unknowns: Unknowns)
    requires Paged(j, table, ordered) && (j.b.limit.value == 0 || NeverSpoiled(j, other, unknowns))
    ensures PageRight(j, ordered, other, unknowns)
  {
    PageIsSlice(j, table, ordered);
    if NeverSpoiled(j, other, unknowns) {
      OrderKeepsFirst(j, table, ordered, other, unknowns);
      PrefixSlice(ordered, Kept(j, other, unknowns), Offset(j), j.b.limit.value);
    }
  }

  lemma WrongWhenSpoiled(j: Job, bad: Row, good: Row, other: Oracle, unknowns: Unknowns)
    requires j.b.limit.Some? && j.b.limit.value > 0 && j.n == 1 && Understood(j, []) && Spoils(j, bad, good, other, unknowns)
    ensures var table := SpoiledTable(j, bad, good);
            Paged(j, table, table) && !PageRight(j, table, other, unknowns)
  {
    SpoiledPage(j, bad, good, other, unknowns);
    SpoiledFinal(j, bad, good, other, unknowns);
  }

  /** Exactly which jobs page rightly: for every table and every ordered answer to the
      statement the page is right, if and only if the limit is 0 or there are no two rows
      the statement selects of which the filters applied above the scan drop one and keep
      the other while the key, where one orders the page, lets the dropped one come first. */
  lemma EveryPageRight(j: Job, other: Oracle, unknowns: Unknowns)
    requires j.b.limit.Some? && j.n == 1 && Understood(j, [])
    ensures (forall table, ordered :: Paged(j, table, ordered) ==> PageRight(j, ordered, other, unknowns)) <==>
            j.b.limit.value == 0 || NeverSpoiled(j, other, unknowns)
  {
    if j.b.limit.value == 0 || NeverSpoiled(j, other, unknowns) {
      forall table, ordered | Paged(j, table, ordered) ensures PageRight(j, ordered, other, unknowns) {
        RightUnlessSpoiled(j, table, ordered, other, unknowns);
      }
    } else {
      var bad, good :| Spoils(j, bad, good, other, unknowns);
      WrongWhenSpoiled(j, bad, good, other, unknowns);
    }
  }

  /** In particular when nothing is applied above the scan. */
  lemma NothingSpoils(j: Job, other: Oracle, unknowns: Unknowns)
    requires NothingReapplied(j)
    ensures NeverSpoiled(j, other, unknowns)
  {
    forall bad, good ensures !Spoils(j, bad, good, other, unknowns) {
      assert Reapplied(j, bad, other, unknowns);
    }
  }

  /** When nothing is left to DuckDB the paged scan gives the page of the wanted rows. */
  lemma PagedScanIsExact(j: Job, table: seq<Row>, ordered: seq<Row>, other: Oracle, unknowns: Unknowns, row: Row)
    requires Paged(j, table, ordered) && NothingReapplied(j)
    ensures multiset(ordered)[row] == if Wanted(j, row, other, unknowns) && Reachable(j, table, row) then multiset(table)[row] else 0
    ensures Final(j, PageEmitted(j, ordered), other, unknowns) == S.Slice(ordered, Offset(j), j.b.limit.value)
  {
    FinalIsWanted(j, table, ordered, other, unknowns, row);
    NothingSpoils(j, other, unknowns);
    RightUnlessSpoiled(j, table, ordered, other, unknowns);
    NothingDropped(j, ordered, other, unknowns);
  }

  // --- a page that is wrong -------------------------------------------------------------------------------

  function RowWith(n: int): Row { map["c" := Some(Num(n, 0))] }

  /** SELECT c FROM T with `c IS DISTINCT FROM 1`, which is not pushed, and a limit of 1. */
  function DistinctJob(): Job {
    Job(Bind(Table("T", ["c"], [], STRICT, false), None, false, false, Some(1), None),
        [Col(0)], [Entry(0, Filter.Constant(Distinct, Val(INTEGER, Num(1, 0))))], [], false, 1, Exactly)
  }

  lemma DistinctOnRow(n: int, other: Oracle, unknowns: Unknowns)
    ensures Reapplied(DistinctJob(), RowWith(n), other, unknowns) <==> n != 1
  {
    var j, row := DistinctJob(), RowWith(n);
    assert Pow10(0) == 1;
    assert View(j.b.t, 0, row) == Some(Num(n, 0));
    assert EntryValue(j.b.t, j.ids, j.entries[0], row) == Some(Num(n, 0));
    assert Classify(j.b.t, j.ids, j.entries[0]).Residual?;
    assert Passes(j.b.t, j.ids, j.entries[0], row, other) <==> n != 1;
  }

  lemma NothingPushed()
    ensures var j := DistinctJob(); FilterConds(j.b.t, j.ids, j.entries) == [] && QueryAt(j, 0).extra == []
    ensures Lifted(Ctx(DistinctJob()), DistinctJob().exprs) == []
  {
    var j := DistinctJob();
    assert EntryConds(j.b.t, j.ids, j.entries[0]) == [] && j.entries[1..] == [];
  }

  lemma DistinctUnderstood(table: seq<Row>)
    requires forall r :: r in table ==> exists n :: r == RowWith(n)
    ensures Understood(DistinctJob(), table)
  {
    var j := DistinctJob();
    NothingPushed();
    forall r | r in table ensures RowOk(j.b.t, r) && KeyTyped(j.b.pk, r) {
      var n :| r == RowWith(n);
    }
  }

  lemma DistinctPaged(table: seq<Row>)
    requires forall r :: r in table ==> exists n :: r == RowWith(n)
    ensures Paged(DistinctJob(), table, table)
  {
    var j := DistinctJob();
    NothingPushed();
    DistinctUnderstood(table);
    ServerSelects(j, table, 0);
    assert AllConds(QueryAt(j, 0)) == [];
    WholeTable(table);
  }

  lemma {:induction false} WholeTable(table: seq<Row>)
    ensures Filtered(None, table) == table
  {
    if table == [] {
    } else {
      WholeTable(table[1..]);
      assert table == [table[0]] + table[1..];
    }
  }

  /** With one filter that is not pushed the page can be wrong: of the rows 1 and 2 the
      server returns row 1, the filter then drops it, and the page of the wanted rows, which
      is row 2, is never seen. */
  lemma ResidualFilterSpoilsPage(other: Oracle, unknowns: Unknowns)
    ensures var j, table := DistinctJob(), [RowWith(1), RowWith(2)];
            && Paged(j, table, table)
            && Final(j, PageEmitted(j, table), other, unknowns) == []
            && S.Slice(Final(j, table, other, unknowns), Offset(j), j.b.limit.value) == [RowWith(2)]
  {
    var j, one, two := DistinctJob(), RowWith(1), RowWith(2);
    var table := [one, two];
    DistinctPaged(table);
    PageIsSlice(j, table, table);
    DistinctOnRow(1, other, unknowns);
    DistinctOnRow(2, other, unknowns);
    FirstOfTwo(one, two);
    FirstOfOne(two);
    FinalOfTwo(j, one, two, other, unknowns);
  }

  lemma FirstOfTwo(x: Row, y: Row)
    ensures S.Slice([x, y], 0, 1) == [x]
  {
    assert S.Drop([x, y], 0) == [x, y];
    assert [x, y][..1] == [x];
  }

  lemma FirstOfOne(x: Row)
    ensures S.Slice([x], 0, 1) == [x]
  {
    assert S.Drop([x], 0) == [x];
    assert [x][..1] == [x];
  }

  lemma FinalOfTwo(j: Job, x: Row, y: Row, other: Oracle, unknowns: Unknowns)
    requires !Reapplied(j, x, other, unknowns) && Reapplied(j, y, other, unknowns)
    ensures Final(j, [x], other, unknowns) == [] && Final(j, [x, y], other, unknowns) == [y]
  {
    KeepOne(x, Kept(j, other, unknowns));
    KeepOne(y, Kept(j, other, unknowns));
    KeepCat([x], [y], Kept(j, other, unknowns));
    assert [x, y] == [x] + [y] && [] + [y] == [y];
  }

  lemma KeepOne<R>(x: R, ok: R -> bool)
    ensures Keep([x], ok) == if ok(x) then [x] else []
  {
    assert [x][1..] == [];
  }
}
