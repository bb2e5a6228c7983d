/** The parallel scan as steps of any number of workers over one shared queue of
    partitions. A step is what a worker does between two visits to shared state:
    one turn of the fetch loop. Workers may be interleaved in any way. */
module Workers {
  import opened Wrappers

  /** `results[i]` is what the server returns for partition i; `reports` counts how often
      the unpushed-filter guard fired. */
  datatype State<R> = State(
    results: seq<seq<R>>,
    next: nat,
    workers: seq<Worker<R>>,
    claims: seq<(nat, nat)>,
    reported: bool,
    reports: nat)

  /** `cursor` holds the rows not yet fetched, `buffer` the chunk being filled, `out` the
      chunks handed to DuckDB. */
  datatype Worker<R> = Worker(cursor: Option<seq<R>>, buffer: seq<R>, out: seq<seq<R>>, done: bool)

  /** `target` is the chunk size; `residual` tells whether the scan has residual filters. */
  datatype Config = Config(target: nat, residual: bool)

  // --- steps -------------------------------------------------------------------------

  /** One turn of worker `w`. */
  function Step<R>(s: State<R>, w: nat, c: Config): State<R>
    requires w < |s.workers|
  {
    var k := s.workers[w];
    if k.done then s
    else if |k.buffer| >= c.target then Put(s, w, Deliver(k))
    else if k.cursor.None? then
      if s.next < |s.results| then
        Put(s, w, k.(cursor := Some(s.results[s.next])))
          .(next := s.next + 1,
            claims := s.claims + [(w, s.next)],
            reported := s.reported || c.residual,
            reports := if c.residual && !s.reported then s.reports + 1 else s.reports)
      else Put(s, w, if k.buffer == [] then k.(done := true) else Deliver(k))
    else if k.cursor.value == [] then Put(s, w, k.(cursor := None))
    else Put(s, w, k.(cursor := Some(k.cursor.value[1..]), buffer := k.buffer + [k.cursor.value[0]]))
  }

  function Put<R>(s: State<R>, w: nat, k: Worker<R>): State<R>
    requires w < |s.workers|
  {
    s.(workers := s.workers[w := k])
  }

  /** The chunk goes to DuckDB. */
  function Deliver<R>(k: Worker<R>): Worker<R> {
    k.(out := k.out + [k.buffer], buffer := [])
  }

  function Fresh<R>(): Worker<R> { Worker(None, [], [], false) }

  function Initial<R>(results: seq<seq<R>>, workers: nat): State<R> {
    State(results, 0, seq(workers, _ => Fresh()), [], false, 0)
  }

  /** A schedule of `n` workers: the worker that moves at each step. */
  predicate Schedule(schedule: seq<nat>, n: nat) {
    schedule == [] || (schedule[0] < n && Schedule(schedule[1..], n))
  }

  function Run<R>(s: State<R>, schedule: seq<nat>, c: Config): (t: State<R>)
    requires Schedule(schedule, |s.workers|)
    ensures |t.workers| == |s.workers|
    decreases |schedule|
  {
    if schedule == [] then s else Run(Step(s, schedule[0], c), schedule[1..], c)
  }

  lemma StepKeepsWorkers<R>(s: State<R>, w: nat, c: Config)
    requires w < |s.workers|
    ensures |Step(s, w, c).workers| == |s.workers|
  {
  }

  lemma RunStep<R>(s: State<R>, schedule: seq<nat>, c: Config)
    requires schedule != [] && Schedule(schedule, |s.workers|)
    ensures Schedule(schedule[1..], |s.workers|) && schedule[0] < |s.workers|
    ensures Run(s, schedule, c) == Run(Step(s, schedule[0], c), schedule[1..], c)
  {
  }

  // --- the rows of a state -----------------------------------------------------------------

  function Rows<R>(xs: seq<seq<R>>): multiset<R> {
    if xs == [] then multiset{} else multiset(xs[0]) + Rows(xs[1..])
  }

  function CursorRows<R>(k: Worker<R>): multiset<R> {
    match k.cursor
    case None => multiset{}
    case Some(rows) => multiset(rows)
  }

  /** Everything that has passed through a worker, or is in its cursor. */
  function Held<R>(k: Worker<R>): multiset<R> {
    Rows(k.out) + multiset(k.buffer) + CursorRows(k)
  }

  function HeldByAll<R>(ks: seq<Worker<R>>): multiset<R> {
    if ks == [] then multiset{} else Held(ks[0]) + HeldByAll(ks[1..])
  }

  function Emitted<R>(ks: seq<Worker<R>>): multiset<R> {
    if ks == [] then multiset{} else Rows(ks[0].out) + Emitted(ks[1..])
  }

  lemma {:induction false} RowsSnoc<R>(xs: seq<seq<R>>, x: seq<R>)
    ensures Rows(xs + [x]) == Rows(xs) + multiset(x)
  {
    if xs == [] {
      assert xs + [x] == [x];
      assert Rows([x][1..]) == multiset{};
    } else {
      assert (xs + [x])[1..] == xs[1..] + [x];
      RowsSnoc(xs[1..], x);
    }
  }

  lemma {:induction false} RowsFrom<R>(xs: seq<seq<R>>, i: nat)
    requires i < |xs|
    ensures Rows(xs[i..]) == multiset(xs[i]) + Rows(xs[i + 1..])
  {
    var rest := xs[i..];
    assert rest[0] == xs[i] && rest[1..] == xs[i + 1..];
  }

  lemma Shift<R>(a: multiset<R>, b: multiset<R>, c: multiset<R>, d: multiset<R>, e: multiset<R>)
    requires b + c == d + e
    ensures (a + b) + c == (a + d) + e
  {
    assert (a + b) + c == a + (b + c);
    assert (a + d) + e == a + (d + e);
  }

  /** From x + h == y + h' and h' == h + p, the difference is p. */
  lemma Cancel<R>(x: multiset<R>, y: multiset<R>, h: multiset<R>, p: multiset<R>)
    requires x + h == y + (h + p)
    ensures x == y + p
  {
    forall r: R ensures x[r] == (y + p)[r] {
      assert (x + h)[r] == (y + (h + p))[r];
    }
  }

  lemma Swap<R>(a: multiset<R>, b: multiset<R>, c: multiset<R>)
    ensures a + b + c == c + b + a
  {
  }

  lemma {:induction false} HeldPut<R>(ks: seq<Worker<R>>, w: nat, k: Worker<R>)
    requires w < |ks|
    ensures HeldByAll(ks[w := k]) + Held(ks[w]) == HeldByAll(ks) + Held(k)
  {
    var put := ks[w := k];
    if w == 0 {
      assert put[1..] == ks[1..];
      Swap(Held(k), HeldByAll(ks[1..]), Held(ks[0]));
    } else {
      assert put[1..] == ks[1..][w - 1 := k] && put[0] == ks[0];
      HeldPut(ks[1..], w - 1, k);
      Shift(Held(ks[0]), HeldByAll(ks[1..][w - 1 := k]), Held(ks[w]), HeldByAll(ks[1..]), Held(k));
    }
  }

  /** Conservation: what workers hold and what the queue still holds are always all rows. */
  ghost predicate Conserved<R>(s: State<R>) {
    s.next <= |s.results| && HeldByAll(s.workers) + Rows(s.results[s.next..]) == Rows(s.results)
  }

  lemma DeliverHeld<R>(k: Worker<R>)
    ensures Held(Deliver(k)) == Held(k)
  {
    RowsSnoc(k.out, k.buffer);
  }

  lemma FetchHeld<R>(k: Worker<R>)
    requires k.cursor.Some? && k.cursor.value != []
    ensures Held(k.(cursor := Some(k.cursor.value[1..]), buffer := k.buffer + [k.cursor.value[0]])) == Held(k)
  {
    var rows := k.cursor.value;
    assert rows == [rows[0]] + rows[1..];
  }

  /** Rows a step brings in from the queue. */
  function Claimed<R>(s: State<R>, w: nat, c: Config): multiset<R>
    requires w < |s.workers|
  {
    var t := Step(s, w, c);
    if t.next == s.next || s.next >= |s.results| then multiset{} else multiset(s.results[s.next])
  }

  lemma StepHeld<R>(s: State<R>, w: nat, c: Config)
    requires w < |s.workers|
    ensures Held(Step(s, w, c).workers[w]) == Held(s.workers[w]) + Claimed(s, w, c)
  {
    var k := s.workers[w];
    if !k.done {
      if |k.buffer| >= c.target || (k.cursor.None? && s.next >= |s.results|) {
        DeliverHeld(k);
      } else if k.cursor.Some? && k.cursor.value != [] {
        FetchHeld(k);
      }
    }
  }

  lemma {:induction false} StepQueue<R>(s: State<R>, w: nat, c: Config)
    requires w < |s.workers| && s.next <= |s.results|
    ensures var t := Step(s, w, c);
            && t.results == s.results && s.next <= t.next <= |s.results|
            && Claimed(s, w, c) + Rows(t.results[t.next..]) == Rows(s.results[s.next..])
            && t.workers == s.workers[w := t.workers[w]]
  {
    QueueShape(s, w, c);
    if Step(s, w, c).next != s.next { RowsFrom(s.results, s.next); }
  }

  lemma QueueShape<R>(s: State<R>, w: nat, c: Config)
    requires w < |s.workers| && s.next <= |s.results|
    ensures var t := Step(s, w, c);
            && t.results == s.results && t.workers == s.workers[w := t.workers[w]]
            && (t.next == s.next || t.next == s.next + 1 <= |s.results|)
  {
  }

  lemma StepConserves<R>(s: State<R>, w: nat, c: Config)
    requires w < |s.workers| && Conserved(s)
    ensures Conserved(Step(s, w, c))
  {
    var t := Step(s, w, c);
    StepQueue(s, w, c);
    StepHeld(s, w, c);
    HeldPut(s.workers, w, t.workers[w]);
    var claimed := Claimed(s, w, c);
    Cancel(HeldByAll(t.workers), HeldByAll(s.workers), Held(s.workers[w]), claimed);
    assert HeldByAll(s.workers) + claimed + Rows(t.results[t.next..]) ==
           HeldByAll(s.workers) + (claimed + Rows(t.results[t.next..]));
  }

  lemma {:induction false} RunConserves<R>(s: State<R>, schedule: seq<nat>, c: Config)
    requires Schedule(schedule, |s.workers|)
    requires Conserved(s)
    ensures Conserved(Run(s, schedule, c))
    decreases |schedule|
  {
    if schedule == [] {
    } else {
      RunStep(s, schedule, c);
      StepKeepsWorkers(s, schedule[0], c);
      StepConserves(s, schedule[0], c);
      RunConserves(Step(s, schedule[0], c), schedule[1..], c);
    }
  }

  lemma {:induction false} FreshHoldNothing<R>(n: nat)
    ensures HeldByAll(seq(n, _ => Fresh<R>())) == multiset{}
  {
    if n > 0 {
      var ks := seq(n, _ => Fresh<R>());
      assert ks[1..] == seq(n - 1, _ => Fresh<R>());
      FreshHoldNothing<R>(n - 1);
    }
  }

  // --- hand-out, reports and quiescence ------------------------------------------------------

  /** Partitions are handed out in order, each to one worker; the guard fired at most once,
      and only once a partition was opened; a finished worker holds nothing back. */
  ghost predicate Orderly<R>(s: State<R>, c: Config) {
    && |s.claims| == s.next <= |s.results|
    && (forall i :: 0 <= i < s.next ==> s.claims[i].1 == i && s.claims[i].0 < |s.workers|)
    && s.reported == (c.residual && s.next > 0)
    && s.reports == (if s.reported then 1 else 0)
    && (forall w :: 0 <= w < |s.workers| && s.workers[w].done ==>
          s.workers[w].cursor.None? && s.workers[w].buffer == [] && s.next == |s.results|)
    && (forall w :: 0 <= w < |s.workers| ==> ChunksOk(s.workers[w], c))
  }

  /** Chunks are never empty and never larger than the target. */
  ghost predicate ChunksOk<R>(k: Worker<R>, c: Config) {
    && (c.target > 0 ==> |k.buffer| <= c.target)
    && (c.target > 0 ==> forall j :: 0 <= j < |k.out| ==> 0 < |k.out[j]| <= c.target)
  }

  lemma {:induction false} StepOrderly<R>(s: State<R>, w: nat, c: Config)
    requires w < |s.workers| && Orderly(s, c)
    ensures Orderly(Step(s, w, c), c)
  {
    var t := Step(s, w, c);
    var k := s.workers[w];
    forall v | 0 <= v < |t.workers| ensures ChunksOk(t.workers[v], c) {
      assert ChunksOk(s.workers[v], c);
    }
  }

  lemma {:induction false} RunOrderly<R>(s: State<R>, schedule: seq<nat>, c: Config)
    requires Schedule(schedule, |s.workers|)
    requires Orderly(s, c)
    ensures Orderly(Run(s, schedule, c), c)
    decreases |schedule|
  {
    if schedule == [] {
    } else {
      RunStep(s, schedule, c);
      StepKeepsWorkers(s, schedule[0], c);
      StepOrderly(s, schedule[0], c);
      RunOrderly(Step(s, schedule[0], c), schedule[1..], c);
    }
  }

  predicate AllDone<R>(s: State<R>) {
    forall w :: 0 <= w < |s.workers| ==> s.workers[w].done
  }

  lemma {:induction false} DoneHold<R>(ks: seq<Worker<R>>)
    requires forall w :: 0 <= w < |ks| ==> ks[w].cursor.None? && ks[w].buffer == []
    ensures HeldByAll(ks) == Emitted(ks)
  {
    if ks == [] {
    } else {
      assert forall w :: 0 <= w < |ks| - 1 ==> ks[1..][w] == ks[w + 1];
      DoneHold(ks[1..]);
      assert Held(ks[0]) == Rows(ks[0].out);
    }
  }

  lemma InitialGood<R>(results: seq<seq<R>>, workers: nat, c: Config)
    ensures Conserved(Initial(results, workers)) && Orderly(Initial(results, workers), c)
  {
    FreshHoldNothing<R>(workers);
    assert results[0..] == results;
    var s := Initial(results, workers);
    forall w | 0 <= w < workers ensures s.workers[w] == Fresh() { }
  }

  lemma FinishedState<R>(t: State<R>, c: Config)
    requires Conserved(t) && Orderly(t, c) && AllDone(t) && t.workers != []
    ensures t.next == |t.results| && Emitted(t.workers) == Rows(t.results)
  {
    assert t.workers[0].done;
    DoneHold(t.workers);
    assert t.results[t.next..] == [];
  }

  /** Safety over every run: in any interleaving of any number of workers, every partition
      is handed out at most once, in order, the guard fires at most once, and once all
      workers have finished every partition was handed out exactly once and the rows
      emitted over all chunks are exactly the rows of all partitions. */
  lemma EveryRun<R>(results: seq<seq<R>>, workers: nat, schedule: seq<nat>, c: Config)
    requires workers > 0 && Schedule(schedule, workers)
    ensures var t := Run(Initial(results, workers), schedule, c);
            && Orderly(t, c) && t.reports <= 1
            && (AllDone(t) ==>
                  && t.next == |results|
                  && Emitted(t.workers) == Rows(results)
                  && t.reports == (if c.residual && results != [] then 1 else 0))
  {
    var s := Initial(results, workers);
    InitialGood(results, workers, c);
    RunConserves(s, schedule, c);
    RunOrderly(s, schedule, c);
    RunResults(s, schedule, c);
    var t := Run(s, schedule, c);
    if AllDone(t) { FinishedState(t, c); }
  }

  lemma {:induction false} RunResults<R>(s: State<R>, schedule: seq<nat>, c: Config)
    requires Schedule(schedule, |s.workers|)
    ensures Run(s, schedule, c).results == s.results
    decreases |schedule|
  {
    if schedule == [] {
    } else {
      RunStep(s, schedule, c);
      StepKeepsWorkers(s, schedule[0], c);
      RunResults(Step(s, schedule[0], c), schedule[1..], c);
    }
  }

  // --- termination ------------------------------------------------------------------------------

  function QueueWork<R>(xs: seq<seq<R>>): nat {
    if xs == [] then 0 else 3 * |xs[0]| + 2 + QueueWork(xs[1..])
  }

  /** Steps a worker can still make on what it holds. */
  function Work<R>(k: Worker<R>): nat {
    (if k.done then 0 else 1) + 2 * |k.buffer| + (match k.cursor case None => 0 case Some(rows) => 3 * |rows| + 1)
  }

  function AllWork<R>(ks: seq<Worker<R>>): nat {
    if ks == [] then 0 else Work(ks[0]) + AllWork(ks[1..])
  }

  function Measure<R>(s: State<R>): nat
    requires s.next <= |s.results|
  {
    AllWork(s.workers) + QueueWork(s.results[s.next..])
  }

  lemma {:induction false} WorkPut<R>(ks: seq<Worker<R>>, w: nat, k: Worker<R>)
    requires w < |ks|
    ensures AllWork(ks[w := k]) + Work(ks[w]) == AllWork(ks) + Work(k)
  {
    if w == 0 {
      assert ks[0 := k][1..] == ks[1..];
    } else {
      assert ks[w := k][1..] == ks[1..][w - 1 := k];
      WorkPut(ks[1..], w - 1, k);
    }
  }

  /** Every step of an unfinished worker makes progress. */
  lemma {:induction false} StepProgress<R>(s: State<R>, w: nat, c: Config)
    requires w < |s.workers| && s.next <= |s.results| && c.target > 0
    ensures Step(s, w, c).next <= |s.results|
    ensures s.workers[w].done ==> Step(s, w, c) == s
    ensures !s.workers[w].done ==> Measure(Step(s, w, c)) < Measure(s)
  {
    var t := Step(s, w, c);
    if !s.workers[w].done {
      WorkPut(s.workers, w, t.workers[w]);
      if t.next == s.next + 1 {
        var rest := s.results[s.next..];
        assert rest[0] == s.results[s.next] && rest[1..] == s.results[s.next + 1..];
      }
    }
  }

  function Turns(schedule: seq<nat>, w: nat): nat {
    if schedule == [] then 0 else (if schedule[0] == w then 1 else 0) + Turns(schedule[1..], w)
  }

  /** Termination under any interleaving: a worker that gets more turns than there is work
      in the whole scan has finished, whatever the others did in between. */
  lemma {:induction false} WorkerTerminates<R>(s: State<R>, schedule: seq<nat>, w: nat, c: Config)
    requires Schedule(schedule, |s.workers|)
    requires w < |s.workers| && s.next <= |s.results| && c.target > 0
    requires s.workers[w].done || Turns(schedule, w) > Measure(s)
    ensures Run(s, schedule, c).workers[w].done
    decreases |schedule|
  {
    if schedule == [] {
    } else {
      RunStep(s, schedule, c);
      StepKeepsWorkers(s, schedule[0], c);
      StepProgress(s, schedule[0], c);
      WorkerTerminates(Step(s, schedule[0], c), schedule[1..], w, c);
    }
  }

  /** Any run that gives every worker enough turns ends with all workers finished, and so
      with every row of every partition emitted exactly once. */
  lemma FairRunsFinish<R>(results: seq<seq<R>>, workers: nat, schedule: seq<nat>, c: Config)
    requires workers > 0 && Schedule(schedule, workers) && c.target > 0
    requires forall w :: 0 <= w < workers ==> Turns(schedule, w) > workers + QueueWork(results)
    ensures var t := Run(Initial(results, workers), schedule, c);
            AllDone(t) && Emitted(t.workers) == Rows(results)
  {
    var s := Initial(results, workers);
    assert results[0..] == results;
    FreshWork<R>(workers);
    forall w | 0 <= w < workers ensures Run(s, schedule, c).workers[w].done {
      WorkerTerminates(s, schedule, w, c);
    }
    EveryRun(results, workers, schedule, c);
  }

  lemma {:induction false} FreshWork<R>(n: nat)
    ensures AllWork(seq(n, _ => Fresh<R>())) == n
  {
    if n > 0 {
      var ks := seq(n, _ => Fresh<R>());
      assert ks[1..] == seq(n - 1, _ => Fresh<R>());
      FreshWork<R>(n - 1);
    }
  }

  lemma {:induction false} RunSnoc<R>(s: State<R>, schedule: seq<nat>, w: nat, c: Config)
    requires Schedule(schedule, |s.workers|) && w < |s.workers|
    ensures Schedule(schedule + [w], |s.workers|)
    ensures Run(s, schedule + [w], c) == Step(Run(s, schedule, c), w, c)
    decreases |schedule|
  {
    if schedule == [] {
      assert schedule + [w] == [w];
      assert Run(Step(s, w, c), [w][1..], c) == Step(s, w, c);
    } else {
      assert (schedule + [w])[1..] == schedule[1..] + [w];
      RunSnoc(Step(s, schedule[0], c), schedule[1..], w, c);
    }
  }
}
