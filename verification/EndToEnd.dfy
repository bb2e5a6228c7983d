/** The whole scan: the rows all workers emit are the rows of the table that satisfy every
    filter, each exactly once. */
module EndToEnd {
  import opened Wrappers
  import opened Values
  import opened NumberText
  import opened SqlGrammar
  import opened SqlSemantics
  import opened Columns
  import opened TableFilters
  import opened Conditions
  import opened Acceptance
  import opened QueryBuilder
  import opened PreparedQuery
  import opened FilterPushdown
  import opened ComplexFilters
  import opened ComplexMeaning
  import opened Partitions
  import opened PartitionQuery
  import W = Workers

  /** A scan over `n` partitions: the table filters and the expressions the planner
      handed over, and the options of the scan. */
  datatype Job = Job(
    b: Bind, ids: seq<ColId>, entries: seq<Entry>, exprs: seq<Expr>, pushNone: bool, n: nat, round: Rounding)

  function Ctx(j: Job): Context { Context(j.b.t, j.ids, j.pushNone) }

  function QueryAt(j: Job, i: nat): Query {
    QueryOf(j.b, j.ids, j.entries, PartConds(j.b.pk, j.n, j.round, i), Lifted(Ctx(j), j.exprs))
  }

  /** DuckDB compares columns with constants of their types. */
  ghost predicate ParamsTyped(j: Job) {
    AllTyped(j.b.t, FilterConds(j.b.t, j.ids, j.entries)) && AllTyped(j.b.t, FromExtras(Lifted(Ctx(j), j.exprs)))
  }

  /** Every column takes the constants that are bound for it. */
  ghost predicate ParamsTaken(j: Job) {
    AllTaken(j.b.t, FilterConds(j.b.t, j.ids, j.entries)) && AllTaken(j.b.t, FromExtras(Lifted(Ctx(j), j.exprs)))
  }

  /** What the server returns for a statement: the rows its WHERE clause selects. A
      statement it cannot parse or refuses returns none. */
  function ServerRows(t: Table, sql: string, params: seq<Value>, table: seq<Row>): seq<Row> {
    match Prepare(sql, params)
    case Some(s) => if Refused(t, s) then [] else Filtered(s.where, table)
    case None => []
  }

  /** `results[i]` is the server's answer to partition i's query, in any order. */
  ghost predicate Answers(j: Job, table: seq<Row>, results: seq<seq<Row>>) {
    && |results| == j.n
    && (forall i :: 0 <= i < j.n ==>
          multiset(results[i]) == multiset(ServerRows(j.b.t, SqlText(QueryAt(j, i)), AllBindsOf(QueryAt(j, i)), table)))
  }

  function KeyOf(pk: PrimaryKey, row: Row): Option<Datum> { Stored(row, pk.column) }

  /** The key of the row is an integer. */
  predicate KeyTyped(pk: Option<PrimaryKey>, row: Row) {
    pk.Some? ==> KeyOf(pk.value, row).Some? && KeyOf(pk.value, row).value.Num? && KeyOf(pk.value, row).value.scale == 0
  }

  /** The key lies in the range probed before the scan. */
  predicate InRange(pk: Option<PrimaryKey>, row: Row)
    requires KeyTyped(pk, row)
  {
    pk.Some? ==> pk.value.minValue <= KeyOf(pk.value, row).value.unscaled <= pk.value.maxValue
  }

  /** Partitions from a monotone rounding over the key range, or one partition. */
  ghost predicate Partitioned(j: Job) {
    match j.b.pk
    case None => j.n == 1
    case Some(k) => Monotone(j.round, k.maxValue - k.minValue + 1, j.n)
  }

  /** Well-typed constants, filters that both engines read alike, constants that their
      columns take, and no " WHERE " hidden in a name. */
  ghost predicate Legible(j: Job) {
    && ValidIds(j.b.t, j.ids)
    && FaithfulEntries(j.entries) && AllLiftFaithful(Lifted(Ctx(j), j.exprs))
    && ParamsTyped(j) && ParamsTaken(j)
    && (forall i :: 0 <= i < j.n ==> GlueSafe(QueryAt(j, i)))
  }

  /** And well-typed rows. */
  ghost predicate Readable(j: Job, table: seq<Row>) {
    Legible(j) && forall r :: r in table ==> RowOk(j.b.t, r) && KeyTyped(j.b.pk, r)
  }

  /** What every scan relies on. */
  ghost predicate Understood(j: Job, table: seq<Row>) { Partitioned(j) && Readable(j, table) }

  /** A scan without paging. */
  ghost predicate Sound(j: Job, table: seq<Row>) { j.b.limit == None && Understood(j, table) }

  /** DuckDB's view of the projected columns of a row. */
  function EnvOf(c: Context, row: Row): Env {
    (i: nat) => match Resolve(c, i)
      case None => None
      case Some(n) => View(c.t, n, row)
  }

  /** Every filter of the query, as DuckDB would evaluate it on the fetched row. */
  predicate Wanted(j: Job, row: Row, other: Oracle, unknowns: Unknowns) {
    PassesAll(j.b.t, j.ids, j.entries, row, other) && KeepsAll(j.exprs, EnvOf(Ctx(j), row), unknowns)
  }

  /** The filters DuckDB applies above the scan: the residual ones and those left. */
  predicate Reapplied(j: Job, row: Row, other: Oracle, unknowns: Unknowns) {
    PassesResidual(j.b.t, j.ids, j.entries, row, other) &&
    KeepsAll(Left(Ctx(j), j.exprs), EnvOf(Ctx(j), row), unknowns)
  }

  /** The conditions that reach every partition's query. */
  predicate PushedHold(j: Job, row: Row) {
    CondsHold(FilterConds(j.b.t, j.ids, j.entries), row) && ExtrasHold(Lifted(Ctx(j), j.exprs), row)
  }

  // --- one partition's query on one row --------------------------------------------------------

  lemma {:induction false} BoundHolds(k: string, n: int, row: Row, key: int)
    requires Stored(row, k) == Some(Num(key, 0))
    ensures Eval(CondSql(KeyBound(k, Ge, n)), row) == True <==> key >= n
    ensures Eval(CondSql(KeyBound(k, Le, n)), row) == True <==> key <= n
  {
    assert Pow10(0) == 1;
  }

  lemma RangeHolds(pk: PrimaryKey, r: Range, row: Row, key: int)
    requires KeyOf(pk, row) == Some(Num(key, 0))
    ensures CondsHold(KeyConds(pk, r), row) <==> Hits(r, key)
  {
    BoundHolds(pk.column, r.lo, row, key);
    BoundHolds(pk.column, r.hi, row, key);
    var cs := KeyConds(pk, r);
    assert cs[0] == KeyBound(pk.column, Ge, r.lo) && cs[1] == KeyBound(pk.column, Le, r.hi);
  }

  lemma HoldCat(cs: seq<Cond>, ds: seq<Cond>, row: Row)
    ensures CondsHold(cs + ds, row) <==> CondsHold(cs, row) && CondsHold(ds, row)
  {
    var all := cs + ds;
    if CondsHold(all, row) {
      forall i | 0 <= i < |cs| ensures Eval(CondSql(cs[i]), row) == True { assert all[i] == cs[i]; }
      forall i | 0 <= i < |ds| ensures Eval(CondSql(ds[i]), row) == True { assert all[|cs| + i] == ds[i]; }
    }
  }

  lemma ExtraCondsHold(xs: seq<Extra>, row: Row)
    ensures CondsHold(FromExtras(xs), row) <==> ExtrasHold(xs, row)
  {
    var cs := FromExtras(xs);
    forall i | 0 <= i < |xs| ensures CondSql(cs[i]) == ExtraSql(xs[i]) { }
    if CondsHold(cs, row) {
      forall i | 0 <= i < |xs| ensures Eval(ExtraSql(xs[i]), row) == True { assert CondSql(cs[i]) == ExtraSql(xs[i]); }
    }
  }

  /** Partition i's query selects a row exactly when the pushed conditions hold and the
      row's key is in the partition's range. */
  predicate InPart(j: Job, i: nat, row: Row) {
    CondsHold(PartConds(j.b.pk, j.n, j.round, i), row)
  }

  lemma SelectedBy(j: Job, i: nat, row: Row)
    ensures Selects(Intended(QueryAt(j, i)).where, row) <==> PushedHold(j, row) && InPart(j, i, row)
  {
    var q, xs := QueryAt(j, i), Lifted(Ctx(j), j.exprs);
    WhereMeaning(q, row);
    HoldCat(PartConds(j.b.pk, j.n, j.round, i), FromExtras(xs), row);
    ExtraCondsHold(xs, row);
  }

  lemma QueryValid(j: Job, i: nat)
    requires ValidIds(j.b.t, j.ids)
    ensures ValidQuery(QueryAt(j, i))
  {
    var part, xs := PartConds(j.b.pk, j.n, j.round, i), Lifted(Ctx(j), j.exprs);
    LiftedValid(Ctx(j), j.exprs);
    if j.b.pk.Some? { assert part == KeyConds(j.b.pk.value, Part(j.b.pk.value, j.n, j.round, i)); }
    RangeCondsForm(part);
    ExtrasValid(part, xs, |xs|);
    assert xs[..|xs|] == xs;
  }

  lemma {:induction false} ExtrasValid(part: seq<Cond>, xs: seq<Extra>, i: nat)
    requires ValidConds(part) && AllValid(xs) && i <= |xs|
    ensures ValidConds(part + FromExtras(xs[..i]))
  {
    if i == 0 {
      assert part + FromExtras(xs[..0]) == part;
    } else {
      ExtrasValid(part, xs, i - 1);
      ExtrasStep(part, xs, i - 1);
      ValidSnoc(part + FromExtras(xs[..i - 1]), FromExtra(xs[i - 1]));
    }
  }

  // --- which statements are refused ---------------------------------------------------------------------

  /** The conditions of a partition's range have no parameters. */
  lemma ExtraAccepted(j: Job, i: nat)
    requires AllLiftFaithful(Lifted(Ctx(j), j.exprs))
    ensures AllAccepted(QueryAt(j, i).extra) && Flat(QueryAt(j, i).extra)
    ensures AllTyped(j.b.t, QueryAt(j, i).extra) <==> AllTyped(j.b.t, FromExtras(Lifted(Ctx(j), j.exprs)))
    ensures AllTaken(j.b.t, QueryAt(j, i).extra) <==> AllTaken(j.b.t, FromExtras(Lifted(Ctx(j), j.exprs)))
  {
    var part, xs := PartConds(j.b.pk, j.n, j.round, i), Lifted(Ctx(j), j.exprs);
    var cs := part + FromExtras(xs);
    LiftedAccepted(Ctx(j), j.exprs);
    LiftedValid(Ctx(j), j.exprs);
    forall k | 0 <= k < |cs|
      ensures !Rejected(CondSql(cs[k])) && ValidCond(cs[k]) && !cs[k].Nested?
    {
      if k >= |part| { assert cs[k] == FromExtra(xs[k - |part|]); }
    }
    forall k | 0 <= k < |part| ensures CondTyped(j.b.t, part[k]) && CondTaken(j.b.t, part[k]) {
      assert part[k].KeyBound? && CondBinds(part[k]) == [];
    }
    TypedCat(j.b.t, part, FromExtras(xs));
  }

  lemma TypedCat(t: Table, cs: seq<Cond>, ds: seq<Cond>)
    requires AllTyped(t, cs) && AllTaken(t, cs)
    ensures AllTyped(t, cs + ds) <==> AllTyped(t, ds)
    ensures AllTaken(t, cs + ds) <==> AllTaken(t, ds)
  {
    var all := cs + ds;
    if AllTyped(t, all) {
      forall i | 0 <= i < |ds| ensures CondTyped(t, ds[i]) { assert all[|cs| + i] == ds[i]; }
    }
    if AllTaken(t, all) {
      forall i | 0 <= i < |ds| ensures CondTaken(t, ds[i]) { assert all[|cs| + i] == ds[i]; }
    }
  }

  /** When the lifted LIKE patterns have no backslash and every constant has the type of its
      column, the server accepts the statement of a partition exactly when every column
      takes the constants bound for it. */
  lemma WhereAccepted(j: Job, i: nat)
    requires AllLiftFaithful(Lifted(Ctx(j), j.exprs)) && ParamsTyped(j)
    ensures !Refused(j.b.t, Intended(QueryAt(j, i))) <==> ParamsTaken(j)
  {
    ExtraAccepted(j, i);
    AcceptedExactly(QueryAt(j, i));
  }

  lemma {:induction false} ServerSelects(j: Job, table: seq<Row>, i: nat)
    requires Understood(j, table) && i < j.n
    ensures Prepare(SqlText(QueryAt(j, i)), AllBindsOf(QueryAt(j, i))) == Some(Intended(QueryAt(j, i)))
    ensures ServerRows(j.b.t, SqlText(QueryAt(j, i)), AllBindsOf(QueryAt(j, i)), table) == Filtered(Intended(QueryAt(j, i)).where, table)
  {
    QueryValid(j, i);
    PreparedExactly(QueryAt(j, i));
    WhereAccepted(j, i);
  }

  // --- multiplicities -----------------------------------------------------------------------------

  lemma {:induction false} FilteredTimes(where: Option<Sql>, table: seq<Row>, row: Row)
    ensures multiset(Filtered(where, table))[row] == if Selects(where, row) then multiset(table)[row] else 0
  {
    if table == [] {
    } else {
      var rest := table[1..];
      FilteredTimes(where, rest, row);
      assert table == [table[0]] + rest;
      assert multiset(table) == multiset{table[0]} + multiset(rest);
      if Selects(where, table[0]) {
        assert Filtered(where, table) == [table[0]] + Filtered(where, rest);
        assert multiset(Filtered(where, table)) == multiset{table[0]} + multiset(Filtered(where, rest));
      } else {
        assert Filtered(where, table) == Filtered(where, rest);
      }
    }
  }

  /** The partitions from `i` on that contain the row. */
  function PartsFrom(j: Job, i: nat, row: Row): nat
    requires i <= j.n
    decreases j.n - i
  {
    if i == j.n then 0 else (if InPart(j, i, row) then 1 else 0) + PartsFrom(j, i + 1, row)
  }

  lemma {:induction false} PartsAreHits(j: Job, pk: PrimaryKey, i: nat, row: Row, key: int)
    requires i <= j.n && j.b.pk == Some(pk) && KeyOf(pk, row) == Some(Num(key, 0))
    ensures PartsFrom(j, i, row) == HitsFrom(pk, j.n, j.round, i, key)
    decreases j.n - i
  {
    if i == j.n {
    } else {
      RangeHolds(pk, Part(pk, j.n, j.round, i), row, key);
      PartsAreHits(j, pk, i + 1, row, key);
    }
  }

  lemma {:induction false} OnePart(j: Job, table: seq<Row>, row: Row)
    requires Understood(j, table) && row in table
    ensures PartsFrom(j, 0, row) == if InRange(j.b.pk, row) then 1 else 0
  {
    match j.b.pk
    case None =>
      assert InPart(j, 0, row);
      assert PartsFrom(j, 1, row) == 0;
    case Some(pk) =>
      var key := KeyOf(pk, row).value.unscaled;
      PartsAreHits(j, pk, 0, row, key);
      Cover(pk, j.n, j.round, key);
  }

  lemma {:induction false} PartTimes(j: Job, table: seq<Row>, results: seq<seq<Row>>, i: nat, row: Row)
    requires Sound(j, table) && Answers(j, table, results) && i < j.n
    ensures multiset(results[i])[row] == if PushedHold(j, row) && InPart(j, i, row) then multiset(table)[row] else 0
  {
    ServerSelects(j, table, i);
    SelectedBy(j, i, row);
    FilteredTimes(Intended(QueryAt(j, i)).where, table, row);
  }

  function Times(k: nat, m: nat): nat {
    if k == 0 then 0 else m + Times(k - 1, m)
  }

  lemma TimesMore(one: nat, k: nat, m: nat)
    requires one <= 1
    ensures Times(one + k, m) == one * m + Times(k, m)
  {
  }

  /** How often a partition that contains the row returns it. */
  function Weight(j: Job, table: seq<Row>, row: Row): nat {
    if PushedHold(j, row) then multiset(table)[row] else 0
  }

  ghost predicate Fits(j: Job, results: seq<seq<Row>>, row: Row, m: nat) {
    |results| == j.n && forall i :: 0 <= i < j.n ==> multiset(results[i])[row] == if InPart(j, i, row) then m else 0
  }

  lemma {:induction false} RowsTimes(j: Job, results: seq<seq<Row>>, i: nat, row: Row, m: nat)
    requires Fits(j, results, row, m) && i <= j.n
    ensures W.Rows(results[i..])[row] == Times(PartsFrom(j, i, row), m)
    decreases j.n - i
  {
    if i == j.n {
      assert results[i..] == [];
    } else {
      RowsTimes(j, results, i + 1, row, m);
      W.RowsFrom(results, i);
      TimesMore(if InPart(j, i, row) then 1 else 0, PartsFrom(j, i + 1, row), m);
    }
  }

  lemma PartsFit(j: Job, table: seq<Row>, results: seq<seq<Row>>, row: Row)
    requires Sound(j, table) && Answers(j, table, results)
    ensures Fits(j, results, row, Weight(j, table, row))
  {
    forall i | 0 <= i < j.n ensures multiset(results[i])[row] == if InPart(j, i, row) then Weight(j, table, row) else 0 {
      PartTimes(j, table, results, i, row);
    }
  }

  /** The table has the row, and its key lies in the probed range. */
  predicate Reachable(j: Job, table: seq<Row>, row: Row) {
    row in table && KeyTyped(j.b.pk, row) && InRange(j.b.pk, row)
  }

  /** Every row of the table the pushed conditions accept and whose key lies in the probed
      range comes back from exactly one partition, as often as it is in the table; no
      other row comes back. */
  lemma ResultsExact(j: Job, table: seq<Row>, results: seq<seq<Row>>, row: Row)
    requires Sound(j, table) && Answers(j, table, results)
    ensures W.Rows(results)[row] == if PushedHold(j, row) && Reachable(j, table, row) then multiset(table)[row] else 0
  {
    var m := Weight(j, table, row);
    PartsFit(j, table, results, row);
    assert results[0..] == results;
    RowsTimes(j, results, 0, row, m);
    if row in table {
      OnePart(j, table, row);
      assert Times(0, m) == 0 && Times(1, m) == m + Times(0, m);
    } else {
      TimesZero(PartsFrom(j, 0, row));
    }
  }

  lemma {:induction false} TimesZero(k: nat)
    ensures Times(k, 0) == 0
  {
    if k == 0 {
    } else {
      TimesZero(k - 1);
    }
  }

  // --- the main result ------------------------------------------------------------------------------

  /** On every row of the table: all filters hold iff the pushed conditions and the
      filters applied above the scan hold. */
  lemma {:induction false} FiltersSplit(j: Job, row: Row, other: Oracle, unknowns: Unknowns)
    requires RowOk(j.b.t, row) && FaithfulEntries(j.entries) && AllLiftFaithful(Lifted(Ctx(j), j.exprs))
    ensures Wanted(j, row, other, unknowns) <==> PushedHold(j, row) && Reapplied(j, row, other, unknowns)
  {
    PushdownPreservesMeaning(j.b.t, j.ids, j.entries, row, other);
    HookPreservesMeaning(Ctx(j), j.exprs, row, EnvOf(Ctx(j), row), unknowns);
  }

  /** The end-to-end theorem. For every table, every set of filters and expressions, any
      number of workers and any interleaving that gives each of them enough turns: all
      workers finish, and the rows they emitted, after DuckDB has applied the residual
      filters and the expressions left to it, are exactly the rows of the table that
      satisfy every filter and whose key lies in the probed range, each as often as it is
      in the table. */
  lemma ScanIsExact(j: Job, table: seq<Row>, results: seq<seq<Row>>, workers: nat, schedule: seq<nat>, c: W.Config,
                    row: Row, other: Oracle, unknowns: Unknowns)
    requires Sound(j, table) && Answers(j, table, results)
    requires workers > 0 && c.target > 0 && W.Schedule(schedule, workers)
    requires forall w :: 0 <= w < workers ==> W.Turns(schedule, w) > workers + W.QueueWork(results)
    ensures var t := W.Run(W.Initial(results, workers), schedule, c);
            && W.AllDone(t)
            && (if Reapplied(j, row, other, unknowns) then W.Emitted(t.workers)[row] else 0) ==
               (if Wanted(j, row, other, unknowns) && Reachable(j, table, row) then multiset(table)[row] else 0)
  {
    W.FairRunsFinish(results, workers, schedule, c);
    ResultsExact(j, table, results, row);
    if row in table { FiltersSplit(j, row, other, unknowns); }
  }

  /** Safety for every schedule, fair or not: whenever all workers have finished, the
      result is exact; so no interleaving loses, repeats or invents a row. */
  lemma EveryFinishedScanIsExact(j: Job, table: seq<Row>, results: seq<seq<Row>>, workers: nat, schedule: seq<nat>, c: W.Config,
                                 row: Row, other: Oracle, unknowns: Unknowns)
    requires Sound(j, table) && Answers(j, table, results)
    requires workers > 0 && W.Schedule(schedule, workers)
    requires W.AllDone(W.Run(W.Initial(results, workers), schedule, c))
    ensures var t := W.Run(W.Initial(results, workers), schedule, c);
            (if Reapplied(j, row, other, unknowns) then W.Emitted(t.workers)[row] else 0) ==
            (if Wanted(j, row, other, unknowns) && Reachable(j, table, row) then multiset(table)[row] else 0)
  {
    W.EveryRun(results, workers, schedule, c);
    ResultsExact(j, table, results, row);
    if row in table { FiltersSplit(j, row, other, unknowns); }
  }

  /** The range is probed once, before the scan and, on an attached catalog, once for all
      scans. A scan that does not page gives every wanted row exactly when no wanted row's
      key has left that range since. */
  lemma ExactIffRangeHolds(j: Job, table: seq<Row>, results: seq<seq<Row>>, workers: nat, schedule: seq<nat>, c: W.Config,
                           other: Oracle, unknowns: Unknowns)
    requires Sound(j, table) && Answers(j, table, results)
    requires workers > 0 && W.Schedule(schedule, workers)
    requires W.AllDone(W.Run(W.Initial(results, workers), schedule, c))
    ensures var t := W.Run(W.Initial(results, workers), schedule, c);
            (forall row: Row :: (if Reapplied(j, row, other, unknowns) then W.Emitted(t.workers)[row] else 0) ==
                                (if Wanted(j, row, other, unknowns) then multiset(table)[row] else 0)) <==>
            (forall row :: row in table && Wanted(j, row, other, unknowns) ==> InRange(j.b.pk, row))
  {
    forall row: Row
      ensures var t := W.Run(W.Initial(results, workers), schedule, c);
              (if Reapplied(j, row, other, unknowns) then W.Emitted(t.workers)[row] else 0) ==
              (if Wanted(j, row, other, unknowns) && Reachable(j, table, row) then multiset(table)[row] else 0)
    {
      EveryFinishedScanIsExact(j, table, results, workers, schedule, c, row, other, unknowns);
    }
  }
}
