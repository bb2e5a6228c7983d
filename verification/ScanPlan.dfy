/** Planning a scan: what binding accepts, and the statements of all partitions. */
module ScanPlan {
  import opened Wrappers
  import opened Values
  import opened SqlTokens
  import opened SqlGrammar
  import opened SqlSemantics
  import opened TableFilters
  import opened Columns
  import opened Binder
  import opened Acceptance
  import opened Conditions
  import opened QueryBuilder
  import opened ComplexFilters
  import opened ComplexMeaning
  import opened Partitions
  import opened PartitionQuery
  import opened EndToEnd
  import W = Workers
  import V = ViewAnalysis

  // --- binding -----------------------------------------------------------------------------

  /** The named parameters partitions, row_limit and row_offset. */
  datatype Options = Options(partitions: int, limit: Option<int>, offset: Option<int>)

  predicate IsInt64(x: int) { -0x8000_0000_0000_0000 <= x < 0x8000_0000_0000_0000 }

  const MAX_IDX: int := 0xFFFF_FFFF_FFFF_FFFF

  predicate Typed(o: Options) {
    IsInt64(o.partitions) && (o.limit.Some? ==> IsInt64(o.limit.value)) && (o.offset.Some? ==> IsInt64(o.offset.value))
  }

  /** What the server says of the relation: the columns of its primary key (none when there
      is no key or it could not be read), the least and greatest value of a single one, None
      for NULL, whether it may be a view, and RDB$VIEW_SOURCE. */
  datatype Relation = Relation(keyColumns: seq<string>, least: Option<int>, greatest: Option<int>, mayBeView: bool, source: Option<string>)

  datatype BindError = BadArgument | OffsetWithoutLimit | PagingWithPartitions | PageOverflow

  datatype BindResult = Bound(b: Bind, partitions: nat) | Failed(error: BindError)

  /** The types of a key the scan can be split on. */
  predicate IsKeyType(t: TypeId) { t == Plain(SMALLINT) || t == Plain(INTEGER) || t == Plain(BIGINT) }

  /** The column holds integers of at most 64 bits that are not scaled. */
  predicate IntegerColumn(t: Table, c: nat) {
    c < |t.descs| && t.descs[c].scale == 0 && t.descs[c].sqltype in {SQL_SHORT, SQL_LONG, SQL_INT64}
  }

  lemma KeyTypes(t: Table, c: nat)
    requires c < |t.descs|
    ensures IsKeyType(TypeOfColumn(t.descs[c], t.mode, t.widen)) <==> IntegerColumn(t, c)
  {
  }

  /** The key is one integer column of the table, with at least two values. */
  predicate Splittable(t: Table, r: Relation) {
    && |r.keyColumns| == 1 && r.keyColumns[0] in t.names && IntegerColumn(t, ColumnNamed(t.names, r.keyColumns[0]))
    && r.least.Some? && r.greatest.Some? && r.least.value < r.greatest.value
  }

  lemma NamedFirst(names: seq<string>, name: string, at: nat)
    requires at <= |names| && (at < |names| ==> names[at] == name)
    requires forall i :: 0 <= i < at ==> names[i] != name
    ensures ColumnNamed(names, name) == at && (name in names <==> at < |names|)
  {
    if at > 0 {
      NamedFirst(names[1..], name, at - 1);
      assert names == [names[0]] + names[1..];
    }
  }

  /** The key range to split or page on, if the relation has one. */
  method ProbePrimaryKey(t: Table, r: Relation) returns (pk: Option<PrimaryKey>)
    ensures pk.Some? <==> Splittable(t, r)
    ensures pk.Some? ==>
              pk.value.column == r.keyColumns[0] && pk.value.minValue == r.least.value && pk.value.maxValue == r.greatest.value
  {
    if |r.keyColumns| != 1 { return None; }
    var name := r.keyColumns[0];
    var at := 0;
    while at < |t.names| && t.names[at] != name
      invariant at <= |t.names| && forall i :: 0 <= i < at ==> t.names[i] != name
    {
      at := at + 1;
    }
    NamedFirst(t.names, name, at);
    if at == |t.names| || at >= |t.descs| { return None; }
    KeyTypes(t, at);
    if !IsKeyType(TypeOfColumn(t.descs[at], t.mode, t.widen)) { return None; }
    if r.least.None? || r.greatest.None? { return None; }
    if r.greatest.value <= r.least.value { return None; }
    pk := Some(PrimaryKey(name, r.least.value, r.greatest.value));
  }

  function Natural(x: Option<int>): Option<nat>
    requires x.Some? ==> x.value >= 0
  {
    if x.Some? then Some(x.value) else None
  }

  predicate Bad(o: Options) {
    o.partitions < 0 || (o.limit.Some? && o.limit.value <= 0) || (o.offset.Some? && o.offset.value < 0)
  }

  /** The source was read and has, in its code, neither the word JOIN nor the words GROUP
      BY, nor an aggregate. */
  predicate PlainSelect(source: Option<string>) {
    && source.Some? && source.value != ""
    && "JOIN" !in V.CodeWords(source.value)
    && !V.Adjacent(V.CodeWords(source.value), "GROUP", "BY")
    && !V.CallsAggregate(V.Hay(source.value))
  }

  /** What a scan is bound to: it pages in one partition, or runs unpaged in the partitions
      asked for, over the key range the server reported; a view without key may be ordered by RDB$DB_KEY only if it is a plain
      SELECT. */
  ghost predicate BoundBy(b: Bind, partitions: nat, t: Table, o: Options, r: Relation) {
    && !Bad(o) && (o.offset.Some? ==> o.limit.Some?)
    && b.t == t && b.isView == r.mayBeView && b.limit == Natural(o.limit) && b.offset == Natural(o.offset)
    && partitions == (if o.limit.Some? then 1 else o.partitions)
    && (b.pk.Some? <==> (o.limit.Some? || o.partitions != 1) && Splittable(t, r))
    && (b.pk.Some? ==>
          b.pk.value.column == r.keyColumns[0] && b.pk.value.minValue == r.least.value && b.pk.value.maxValue == r.greatest.value)
    && (b.simpleView <==> r.mayBeView && o.limit.Some? && !Splittable(t, r) && PlainSelect(r.source))
  }

  /** The overflow guard never fires on arguments of 64 bits; every other refusal has
      exactly one cause. */
  method BindScan(t: Table, o: Options, r: Relation) returns (result: BindResult)
    requires Typed(o)
    ensures result == Failed(BadArgument) <==> Bad(o)
    ensures result == Failed(OffsetWithoutLimit) <==> !Bad(o) && o.offset.Some? && o.limit.None?
    ensures result == Failed(PagingWithPartitions) <==> !Bad(o) && o.limit.Some? && o.partitions > 1
    ensures result != Failed(PageOverflow)
    ensures result.Bound? ==> BoundBy(result.b, result.partitions, t, o, r)
  {
    if o.partitions < 0 { return Failed(BadArgument); }
    if o.limit.Some? && o.limit.value <= 0 { return Failed(BadArgument); }
    if o.offset.Some? && o.offset.value < 0 { return Failed(BadArgument); }
    if o.offset.Some? && o.limit.None? { return Failed(OffsetWithoutLimit); }
    var paging := o.limit.Some? || o.offset.Some?;
    if paging && o.partitions > 1 { return Failed(PagingWithPartitions); }
    var partitions := if paging then 1 else o.partitions;
    if o.limit.Some? && o.offset.Some? {
      if o.offset.value > MAX_IDX - o.limit.value { return Failed(PageOverflow); }
    }
    var pk := None;
    if partitions != 1 || paging { pk := ProbePrimaryKey(t, r); }
    var simple := false;
    if r.mayBeView && pk.None? && paging {
      var va := V.AnalyzeViewSource(r.source);
      simple := V.SimpleForPagination(va);
      if r.source.Some? && r.source.value != "" { V.FlagsMeaning(r.source.value); }
    }
    result := Bound(Bind(t, pk, r.mayBeView, simple, Natural(o.limit), Natural(o.offset)), partitions);
  }

  /** A paged scan has one partition, whatever the hardware. */
  lemma PagedInOnePart(b: Bind, partitions: nat, t: Table, o: Options, r: Relation, hardware: int)
    requires BoundBy(b, partitions, t, o, r)
    ensures b.limit.Some? ==> PartCount(b.pk, partitions, hardware) == 1
    ensures b.pk.Some? ==> b.pk.value.minValue < b.pk.value.maxValue
    ensures 1 <= PartCount(b.pk, partitions, hardware)
    ensures b.pk.Some? ==> PartCount(b.pk, partitions, hardware) <= b.pk.value.maxValue - b.pk.value.minValue + 1
  {
  }

  /** The page is cut on the client exactly when the relation may be a view, has no key to
      order by and is not a plain SELECT; otherwise the server cuts it, by key if there is
      one. */
  lemma WhereThePageIsCut(b: Bind, partitions: nat, t: Table, o: Options, r: Relation)
    requires BoundBy(b, partitions, t, o, r) && o.limit.Some?
    ensures SliceOf(b).Some? <==> r.mayBeView && !Splittable(t, r) && !PlainSelect(r.source)
    ensures PagingOf(b).None? <==> SliceOf(b).Some?
    ensures PagingOf(b).Some? ==>
              PagingOf(b).value.key == (if Splittable(t, r) then Ascending(r.keyColumns[0]) else DbKey)
  {
  }

  // --- every partition's statement ------------------------------------------------------------

  /** The scan as planned: the partition count is that of the key range. */
  function Planned(b: Bind, partitions: nat, hardware: int, ids: seq<ColId>, entries: seq<Entry>, exprs: seq<Expr>,
                   pushNone: bool, round: Rounding): Job
  {
    Job(b, ids, entries, exprs, pushNone, PartCount(b.pk, partitions, hardware), round)
  }

  /** What the workers send, by partition. */
  function Statements(j: Job): (sqls: seq<string>)
    ensures |sqls| == j.n
  {
    seq(j.n, i requires 0 <= i < j.n => SqlText(QueryAt(j, i)))
  }

  function Bindings(j: Job): (params: seq<seq<Value>>)
    ensures |params| == j.n
  {
    seq(j.n, i requires 0 <= i < j.n => AllBindsOf(QueryAt(j, i)))
  }

  /** The text of partition i's key range. */
  ghost predicate Ranges(j: Job, i: nat, spec: PartitionSpec) {
    spec.whereClause == Show(AndLx(PartConds(j.b.pk, j.n, j.round, i)))
  }

  /** Opens partition i. */
  method OpenPartition(ghost j: Job, i: nat, b: Bind, spec: PartitionSpec, ids: seq<ColId>, entries: seq<Entry>, extras: seq<ExtraPredicate>)
    returns (sql: string, params: seq<Value>)
    requires ValidIds(b.t, ids) && b == j.b && ids == j.ids && entries == j.entries && i < j.n
    requires extras == PredicatesOf(Lifted(Ctx(j), j.exprs))
    requires Ranges(j, i, spec)
    ensures sql == Statements(j)[i] && params == Bindings(j)[i]
  {
    ghost var part, xs := PartConds(b.pk, j.n, j.round, i), Lifted(Ctx(j), j.exprs);
    LiftedValid(Ctx(j), j.exprs);
    if b.pk.Some? { assert part == KeyConds(b.pk.value, Part(b.pk.value, j.n, j.round, i)); }
    var slice, reasons;
    sql, params, slice, reasons := OpenQuery(b, spec, ids, entries, extras, part, xs);
  }

  ghost predicate AllRanges(j: Job, specs: seq<PartitionSpec>) {
    |specs| == j.n && forall i :: 0 <= i < j.n ==> Ranges(j, i, specs[i])
  }

  lemma OneMoreOf<T>(xs: seq<T>, i: nat, x: T)
    requires i < |xs| && x == xs[i]
    ensures xs[..i] + [x] == xs[..i + 1]
  {
  }

  method OpenAll(ghost j: Job, b: Bind, specs: seq<PartitionSpec>, ids: seq<ColId>, entries: seq<Entry>, extras: seq<ExtraPredicate>)
    returns (sqls: seq<string>, params: seq<seq<Value>>)
    requires ValidIds(b.t, ids) && b == j.b && ids == j.ids && entries == j.entries
    requires extras == PredicatesOf(Lifted(Ctx(j), j.exprs)) && AllRanges(j, specs)
    ensures sqls == Statements(j) && params == Bindings(j)
  {
    sqls, params := [], [];
    ghost var texts, values := Statements(j), Bindings(j);
    for i := 0 to |specs|
      invariant sqls == texts[..i] && params == values[..i]
    {
      var sql, binds := OpenPartition(j, i, b, specs[i], ids, entries, extras);
      OneMoreOf(texts, i, sql);
      OneMoreOf(values, i, binds);
      sqls, params := sqls + [sql], params + [binds];
    }
  }

  /** The hook, the split of the key range and the opening of every partition: the
      statements and parameters are those of the job, and the planner keeps exactly the
      expressions that are not lifted. */
  method PlanScan(b: Bind, partitions: nat, hardware: int, ids: seq<ColId>, entries: seq<Entry>, filters: FilterList,
                  pushNone: bool, round: Rounding)
    returns (sqls: seq<string>, params: seq<seq<Value>>)
    requires ValidIds(b.t, ids)
    modifies filters
    ensures var j := Planned(b, partitions, hardware, ids, entries, old(filters.items), pushNone, round);
            && sqls == Statements(j) && params == Bindings(j)
            && filters.items == Left(Ctx(j), j.exprs)
  {
    ghost var j := Planned(b, partitions, hardware, ids, entries, filters.items, pushNone, round);
    var bind := new BindData();
    PushdownComplexFilter(Context(b.t, ids, pushNone), filters, bind);
    var extras := bind.extras;
    assert [] + PredicatesOf(Lifted(Ctx(j), j.exprs)) == extras;
    var specs, maxThreads := InitGlobal(b.pk, partitions, hardware, round);
    assert AllRanges(j, specs);
    sqls, params := OpenAll(j, b, specs, ids, entries, extras);
  }

  // --- the whole scan, with the code's own split -----------------------------------------------

  /** With exact arithmetic, as with any rounding that truncates, the partitions cover the
      key range. */
  lemma TruncatingSplit(j: Job, partitions: nat, hardware: int, t: Table, o: Options, r: Relation)
    requires BoundBy(j.b, partitions, t, o, r) && j.n == PartCount(j.b.pk, partitions, hardware)
    requires j.b.pk.Some? ==> Truncates(j.round, j.b.pk.value.maxValue - j.b.pk.value.minValue + 1, j.n)
    ensures Partitioned(j)
  {
    PagedInOnePart(j.b, partitions, t, o, r, hardware);
    if j.b.pk.Some? { TruncatesMonotone(j.round, j.b.pk.value.maxValue - j.b.pk.value.minValue + 1, j.n); }
  }

  lemma ExactSplit(j: Job, partitions: nat, hardware: int, t: Table, o: Options, r: Relation)
    requires BoundBy(j.b, partitions, t, o, r) && j.n == PartCount(j.b.pk, partitions, hardware) && j.round == Exactly
    ensures Partitioned(j)
  {
    PagedInOnePart(j.b, partitions, t, o, r, hardware);
    if j.b.pk.Some? { ExactTruncates(j.b.pk.value.maxValue - j.b.pk.value.minValue + 1, j.n); }
    TruncatingSplit(j, partitions, hardware, t, o, r);
  }

  /** Long double with fewer partitions than 1 / `unit`. */
  ghost predicate FloatingSplit(j: Job, rd: real -> real, unit: real) {
    j.b.pk.Some? ==>
      && j.round == LongDouble(rd) && j.n as real * unit <= 1.0
      && Floating(rd, unit, j.b.pk.value.maxValue - j.b.pk.value.minValue + 1)
  }

  lemma LongDoubleSplit(j: Job, partitions: nat, hardware: int, t: Table, o: Options, r: Relation, rd: real -> real, unit: real)
    requires BoundBy(j.b, partitions, t, o, r) && j.n == PartCount(j.b.pk, partitions, hardware) && FloatingSplit(j, rd, unit)
    ensures Partitioned(j)
  {
    PagedInOnePart(j.b, partitions, t, o, r, hardware);
    if j.b.pk.Some? { LongDoubleMonotone(rd, unit, j.b.pk.value.maxValue - j.b.pk.value.minValue + 1, j.n); }
  }

  /** The row's key lies between the least and the greatest key the server reported. */
  predicate InReported(r: Relation, row: Row) {
    && r.keyColumns != [] && r.least.Some? && r.greatest.Some?
    && match Stored(row, r.keyColumns[0])
       case Some(Num(n, 0)) => r.least.value <= n <= r.greatest.value
       case _ => false
  }

  lemma RangeIsReported(b: Bind, partitions: nat, t: Table, o: Options, r: Relation, row: Row)
    requires BoundBy(b, partitions, t, o, r) && KeyTyped(b.pk, row)
    ensures InRange(b.pk, row) <==> b.pk.None? || InReported(r, row)
  {
  }

  /** The row has integers in its integer columns, and a key. */
  predicate Integral(t: Table, pk: Option<PrimaryKey>, row: Row) {
    && (forall c :: 0 <= c < |t.names| && IntegerColumn(t, c) ==> IntegerOrNull(Stored(row, t.names[c])))
    && (pk.Some? ==> KeyOf(pk.value, row).Some?)
  }

  predicate IntegerOrNull(x: Option<Datum>) { x.Some? ==> x.value.Num? && x.value.scale == 0 }

  /** A key that is bound is an integer in every row. */
  lemma BoundKeyTyped(b: Bind, partitions: nat, t: Table, o: Options, r: Relation, row: Row)
    requires BoundBy(b, partitions, t, o, r) && Integral(t, b.pk, row)
    ensures KeyTyped(b.pk, row)
  {
    if b.pk.Some? {
      var c := ColumnNamed(t.names, r.keyColumns[0]);
      assert IntegerOrNull(Stored(row, t.names[c]));
    }
  }

  /** A scan as the code binds and plans it, its boundaries computed in long double, and run
      to the end by workers under some schedule. */
  ghost predicate BoundRun(j: Job, b: Bind, partitions: nat, hardware: int, t: Table, o: Options, r: Relation,
                           rd: real -> real, unit: real, table: seq<Row>, results: seq<seq<Row>>, workers: nat,
                           schedule: seq<nat>, c: W.Config)
  {
    && BoundBy(b, partitions, t, o, r) && o.limit.None?
    && j == Planned(b, partitions, hardware, j.ids, j.entries, j.exprs, j.pushNone, LongDouble(rd))
    && FloatingSplit(j, rd, unit) && Answers(j, table, results)
    && Legible(j) && (forall row :: row in table ==> RowOk(t, row) && Integral(t, b.pk, row))
    && workers > 0 && W.Schedule(schedule, workers)
    && W.AllDone(W.Run(W.Initial(results, workers), schedule, c))
  }

  /** How often a row comes back, after DuckDB has applied what is left to it. */
  function ComesBack(j: Job, results: seq<seq<Row>>, workers: nat, schedule: seq<nat>, c: W.Config, row: Row,
                     other: Oracle, unknowns: Unknowns): nat
    requires W.Schedule(schedule, workers)
  {
    if Reapplied(j, row, other, unknowns) then W.Emitted(W.Run(W.Initial(results, workers), schedule, c).workers)[row] else 0
  }

  /** Whatever binding accepts without a limit, planned by the code, its statements those
      PlanScan builds and answered by the server, run by any number of workers under any
      schedule: when all are done, the wanted rows whose key is between the least and the
      greatest the server reported have come back, each exactly as often as it is in the
      table; and where no key was bound, all wanted rows. */
  lemma BoundScanIsExact(j: Job, b: Bind, partitions: nat, hardware: int, t: Table, o: Options, r: Relation,
                         rd: real -> real, unit: real, table: seq<Row>, results: seq<seq<Row>>, workers: nat,
                         schedule: seq<nat>, c: W.Config, row: Row, other: Oracle, unknowns: Unknowns)
    requires BoundRun(j, b, partitions, hardware, t, o, r, rd, unit, table, results, workers, schedule, c)
    ensures ComesBack(j, results, workers, schedule, c, row, other, unknowns) ==
            if Wanted(j, row, other, unknowns) && (b.pk.None? || InReported(r, row)) then multiset(table)[row] else 0
  {
    LongDoubleSplit(j, partitions, hardware, t, o, r, rd, unit);
    forall row | row in table ensures RowOk(j.b.t, row) && KeyTyped(j.b.pk, row) { BoundKeyTyped(b, partitions, t, o, r, row); }
    EveryFinishedScanIsExact(j, table, results, workers, schedule, c, row, other, unknowns);
    if row in table { RangeIsReported(b, partitions, t, o, r, row); }
  }

  /** The server is asked once, before the scan and, on an attached catalog, once for all
      scans. Every wanted row comes back as often as it is in the table if and only if no key
      was bound or the key of every wanted row is still in the reported range. */
  lemma BoundScanExactIff(j: Job, b: Bind, partitions: nat, hardware: int, t: Table, o: Options, r: Relation,
                          rd: real -> real, unit: real, table: seq<Row>, results: seq<seq<Row>>, workers: nat,
                          schedule: seq<nat>, c: W.Config, other: Oracle, unknowns: Unknowns)
    requires BoundRun(j, b, partitions, hardware, t, o, r, rd, unit, table, results, workers, schedule, c)
    ensures (forall row: Row :: ComesBack(j, results, workers, schedule, c, row, other, unknowns) ==
                                if Wanted(j, row, other, unknowns) then multiset(table)[row] else 0) <==>
            b.pk.None? || forall row :: row in table && Wanted(j, row, other, unknowns) ==> InReported(r, row)
  {
    forall row: Row
      ensures ComesBack(j, results, workers, schedule, c, row, other, unknowns) ==
              if Wanted(j, row, other, unknowns) && (b.pk.None? || InReported(r, row)) then multiset(table)[row] else 0
    {
      BoundScanIsExact(j, b, partitions, hardware, t, o, r, rd, unit, table, results, workers, schedule, c, row, other, unknowns);
    }
  }
}
