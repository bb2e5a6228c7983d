/** The byte counter of an attached scan: every worker counts what it fetches and adds it to
    the pool's lifetime counter when its Scan() call ends, under any interleaving. */
module Metering {
  import opened Wrappers
  import opened Workers
  import S = Scan

  /** The machine with, for every worker, the bytes counted since its last call ended, and
      the lifetime counter. */
  datatype Metered<R> = Metered(s: State<R>, undrained: seq<nat>, pool: nat)

  /** The row a turn of worker `w` fetches. */
  function Fetching<R>(s: State<R>, w: nat, c: Config): Option<R>
    requires w < |s.workers|
  {
    var k := s.workers[w];
    if k.done || |k.buffer| >= c.target || k.cursor.None? || k.cursor.value == [] then None else Some(k.cursor.value[0])
  }

  /** The turn ends a Scan() call: the chunk is full, or there are no more rows. */
  predicate EndsCall<R>(s: State<R>, w: nat, c: Config)
    requires w < |s.workers|
  {
    var k := s.workers[w];
    !k.done && (|k.buffer| >= c.target || (k.cursor.None? && s.next >= |s.results|))
  }

  /** One turn of worker `w`; `cost` is what a row counts, its width and its BLOBs. */
  function StepMetered<R>(m: Metered<R>, w: nat, c: Config, cost: R -> nat): Metered<R>
    requires w < |m.s.workers| == |m.undrained|
  {
    var t, u := Step(m.s, w, c), m.undrained[w];
    if EndsCall(m.s, w, c) then Metered(t, m.undrained[w := 0], m.pool + u)
    else match Fetching(m.s, w, c)
      case Some(row) => Metered(t, m.undrained[w := u + cost(row)], m.pool)
      case None => Metered(t, m.undrained, m.pool)
  }

  function RunMetered<R>(m: Metered<R>, schedule: seq<nat>, c: Config, cost: R -> nat): Metered<R>
    requires |m.s.workers| == |m.undrained| && Schedule(schedule, |m.s.workers|)
    decreases |schedule|
  {
    if schedule == [] then m else RunMetered(StepMetered(m, schedule[0], c, cost), schedule[1..], c, cost)
  }

  function Start<R>(results: seq<seq<R>>, workers: nat): Metered<R> {
    Metered(Initial(results, workers), seq(workers, _ => 0), 0)
  }

  // --- what has been counted and what is still to be -----------------------------------------

  function Cost<R>(rows: seq<R>, cost: R -> nat): nat {
    if rows == [] then 0 else cost(rows[0]) + Cost(rows[1..], cost)
  }

  function CostOfAll<R>(results: seq<seq<R>>, cost: R -> nat): nat {
    if results == [] then 0 else Cost(results[0], cost) + CostOfAll(results[1..], cost)
  }

  function InCursor<R>(k: Worker<R>, cost: R -> nat): nat {
    match k.cursor
    case None => 0
    case Some(rows) => Cost(rows, cost)
  }

  /** What every worker has counted, or has in its cursor. */
  function Share<R>(ks: seq<Worker<R>>, undrained: seq<nat>, cost: R -> nat): nat
    requires |ks| == |undrained|
  {
    if ks == [] then 0 else undrained[0] + InCursor(ks[0], cost) + Share(ks[1..], undrained[1..], cost)
  }

  /** A worker has counted, since its last call ended, just the chunk it is filling; a
      finished one has neither a chunk nor a cursor. */
  ghost predicate ChunkCounted<R>(k: Worker<R>, undrained: nat, cost: R -> nat) {
    undrained == Cost(k.buffer, cost) && (k.done ==> k.buffer == [] && k.cursor.None?)
  }

  /** What was added to the counter, what workers hold and what the queue holds always are
      all bytes; and what was added are the chunks handed out. */
  ghost predicate Balanced<R>(m: Metered<R>, cost: R -> nat) {
    && |m.s.workers| == |m.undrained| && m.s.next <= |m.s.results|
    && m.pool + Share(m.s.workers, m.undrained, cost) + CostOfAll(m.s.results[m.s.next..], cost) == CostOfAll(m.s.results, cost)
    && forall w :: 0 <= w < |m.s.workers| ==> ChunkCounted(m.s.workers[w], m.undrained[w], cost)
  }

  lemma {:induction false} SharePut<R>(ks: seq<Worker<R>>, us: seq<nat>, w: nat, k: Worker<R>, u: nat, cost: R -> nat)
    requires w < |ks| == |us|
    ensures Share(ks[w := k], us[w := u], cost) + us[w] + InCursor(ks[w], cost) == Share(ks, us, cost) + u + InCursor(k, cost)
  {
    var ks', us' := ks[w := k], us[w := u];
    if w == 0 {
      assert ks'[1..] == ks[1..] && us'[1..] == us[1..];
    } else {
      assert ks'[1..] == ks[1..][w - 1 := k] && us'[1..] == us[1..][w - 1 := u];
      SharePut(ks[1..], us[1..], w - 1, k, u, cost);
    }
  }

  lemma CostFrom<R>(results: seq<seq<R>>, i: nat, cost: R -> nat)
    requires i < |results|
    ensures CostOfAll(results[i..], cost) == Cost(results[i], cost) + CostOfAll(results[i + 1..], cost)
  {
    assert results[i..][0] == results[i] && results[i..][1..] == results[i + 1..];
  }

  lemma {:induction false} CostSnoc<R>(rows: seq<R>, row: R, cost: R -> nat)
    ensures Cost(rows + [row], cost) == Cost(rows, cost) + cost(row)
  {
    if rows == [] {
      assert rows + [row] == [row] && [row][1..] == [];
    } else {
      assert (rows + [row])[1..] == rows[1..] + [row];
      CostSnoc(rows[1..], row, cost);
    }
  }

  /** What a turn moves between the worker's count, its cursor, the queue and the counter. */
  lemma {:induction false} TurnMoves<R>(m: Metered<R>, w: nat, c: Config, cost: R -> nat)
    requires w < |m.s.workers| == |m.undrained| && m.s.next <= |m.s.results|
    requires ChunkCounted(m.s.workers[w], m.undrained[w], cost)
    ensures var n := StepMetered(m, w, c, cost);
            && n.s.results == m.s.results && n.s.next <= |n.s.results|
            && n.s.workers == m.s.workers[w := n.s.workers[w]] && |n.undrained| == |m.undrained|
            && n.undrained == m.undrained[w := n.undrained[w]]
            && ChunkCounted(n.s.workers[w], n.undrained[w], cost)
            && n.pool + n.undrained[w] + InCursor(n.s.workers[w], cost) + CostOfAll(n.s.results[n.s.next..], cost) ==
               m.pool + m.undrained[w] + InCursor(m.s.workers[w], cost) + CostOfAll(m.s.results[m.s.next..], cost)
  {
    var k := m.s.workers[w];
    if !k.done && |k.buffer| < c.target && k.cursor.None? && m.s.next < |m.s.results| { CostFrom(m.s.results, m.s.next, cost); }
    if Fetching(m.s, w, c).Some? { CostSnoc(k.buffer, k.cursor.value[0], cost); }
  }

  lemma {:induction false} StepBalanced<R>(m: Metered<R>, w: nat, c: Config, cost: R -> nat)
    requires w < |m.s.workers| && Balanced(m, cost)
    ensures Balanced(StepMetered(m, w, c, cost), cost)
  {
    var n := StepMetered(m, w, c, cost);
    TurnMoves(m, w, c, cost);
    SharePut(m.s.workers, m.undrained, w, n.s.workers[w], n.undrained[w], cost);
  }

  lemma {:induction false} RunBalanced<R>(m: Metered<R>, schedule: seq<nat>, c: Config, cost: R -> nat)
    requires Balanced(m, cost) && Schedule(schedule, |m.s.workers|)
    ensures Balanced(RunMetered(m, schedule, c, cost), cost)
    ensures RunMetered(m, schedule, c, cost).s == Run(m.s, schedule, c)
    decreases |schedule|
  {
    if schedule == [] {
    } else {
      StepBalanced(m, schedule[0], c, cost);
      StepKeepsWorkers(m.s, schedule[0], c);
      RunStep(m.s, schedule, c);
      RunBalanced(StepMetered(m, schedule[0], c, cost), schedule[1..], c, cost);
    }
  }

  lemma {:induction false} FreshShare<R>(n: nat, cost: R -> nat)
    ensures Share(seq(n, _ => Fresh<R>()), seq(n, _ => 0), cost) == 0
  {
    if n == 0 {
    } else {
      var ks, us := seq(n, _ => Fresh<R>()), seq(n, _ => 0);
      assert ks[1..] == seq(n - 1, _ => Fresh<R>()) && us[1..] == seq(n - 1, _ => 0);
      FreshShare(n - 1, cost);
    }
  }

  lemma {:induction false} NothingLeft<R>(ks: seq<Worker<R>>, us: seq<nat>, cost: R -> nat)
    requires |ks| == |us| && forall w :: 0 <= w < |ks| ==> us[w] == 0 && ks[w].cursor.None?
    ensures Share(ks, us, cost) == 0
  {
    if ks == [] {
    } else {
      assert forall w :: 0 <= w < |ks| - 1 ==> ks[1..][w] == ks[w + 1] && us[1..][w] == us[w + 1];
      NothingLeft(ks[1..], us[1..], cost);
    }
  }

  // --- the total ----------------------------------------------------------------------------------

  lemma {:induction false} ConcatCost<R>(results: seq<seq<R>>, cost: R -> nat)
    ensures CostOfAll(results, cost) == Cost(Concat(results), cost)
  {
    if results == [] {
    } else {
      ConcatCost(results[1..], cost);
      CostCat(results[0], Concat(results[1..]), cost);
    }
  }

  lemma {:induction false} CostCat<R>(a: seq<R>, b: seq<R>, cost: R -> nat)
    ensures Cost(a + b, cost) == Cost(a, cost) + Cost(b, cost)
  {
    if a == [] {
      assert a + b == b;
    } else {
      assert (a + b)[1..] == a[1..] + b;
      CostCat(a[1..], b, cost);
    }
  }

  /** What a row counts. */
  function RowCost<R>(width: nat, blob: R -> nat): R -> nat { row => width + blob(row) }

  lemma {:induction false} CostIsBytes<R>(rows: seq<R>, width: nat, blob: R -> nat)
    ensures Cost(rows, RowCost(width, blob)) == width * |rows| + S.BlobBytes(rows, blob)
  {
    if rows == [] {
    } else {
      CostIsBytes(rows[1..], width, blob);
      S.BlobAppend([rows[0]], rows[1..], blob);
      assert rows == [rows[0]] + rows[1..] && [rows[0]][..0] == [];
      assert width * |rows| == width + width * |rows[1..]|;
    }
  }

  /** In every interleaving of any number of workers the counter, what workers have counted
      or hold, and the queue always make up all bytes; once all workers have finished, the
      counter has grown by the row width for every row of every partition and by all BLOB
      bytes, each counted once. */
  lemma EveryByteCounted<R>(results: seq<seq<R>>, workers: nat, schedule: seq<nat>, c: Config, width: nat, blob: R -> nat)
    requires Schedule(schedule, workers)
    ensures var m := RunMetered(Start(results, workers), schedule, c, RowCost(width, blob));
            && m.s == Run(Initial(results, workers), schedule, c)
            && Balanced(m, RowCost(width, blob))
            && (AllDone(m.s) && workers > 0 ==> m.pool == width * |Concat(results)| + S.BlobBytes(Concat(results), blob))
  {
    var cost := RowCost(width, blob);
    var start := Start(results, workers);
    FreshShare(workers, cost);
    assert results[0..] == results;
    RunBalanced(start, schedule, c, cost);
    EveryTotal(RunMetered(start, schedule, c, cost), results, workers, schedule, c, cost);
    ConcatCost(results, cost);
    CostIsBytes(Concat(results), width, blob);
  }

  lemma EveryTotal<R>(m: Metered<R>, results: seq<seq<R>>, workers: nat, schedule: seq<nat>, c: Config, cost: R -> nat)
    requires Schedule(schedule, workers) && Balanced(m, cost) && m.s == Run(Initial(results, workers), schedule, c)
    ensures AllDone(m.s) && workers > 0 ==> m.pool == CostOfAll(results, cost)
  {
    if AllDone(m.s) && workers > 0 {
      EveryRun(results, workers, schedule, c);
      RunResults(Initial(results, workers), schedule, c);
      assert m.s.results[m.s.next..] == [];
      NothingLeft(m.s.workers, m.undrained, cost);
    }
  }
}
