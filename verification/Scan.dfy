/** FirebirdScanFunction: one worker's Scan() call over the shared partition queue, with
    the local paging fallback and the byte accounting. */
module Scan {
  import opened Wrappers
  import W = Workers

  // --- paging as a function of the row sequence --------------------------------------------

  function Min(a: nat, b: nat): nat { if a <= b then a else b }

  function Take<R>(xs: seq<R>, n: nat): seq<R> { xs[..Min(n, |xs|)] }

  function Drop<R>(xs: seq<R>, n: nat): seq<R> { xs[Min(n, |xs|)..] }

  /** rows[offset .. min(offset + limit, len)) */
  function Slice<R>(xs: seq<R>, offset: nat, limit: nat): seq<R> {
    Take(Drop(xs, offset), limit)
  }

  /** `ROWS first TO last`: the rows whose position, counted from 1, lies in between. */
  function RowsClause<R>(xs: seq<R>, first: int, last: int): seq<R> {
    if xs == [] then []
    else (if first <= 1 <= last then [xs[0]] else []) + RowsClause(xs[1..], first - 1, last - 1)
  }

  lemma {:induction false} RowsPrefix<R>(xs: seq<R>, first: int, last: nat)
    requires first <= 1
    ensures RowsClause(xs, first, last) == Take(xs, last)
  {
    if xs == [] {
    } else {
      if last == 0 {
        RowsNone(xs[1..], first - 1, -1);
      } else {
        RowsPrefix(xs[1..], first - 1, last - 1);
        assert Take(xs, last) == [xs[0]] + Take(xs[1..], last - 1);
      }
    }
  }

  lemma {:induction false} RowsNone<R>(xs: seq<R>, first: int, last: int)
    requires last < 1
    ensures RowsClause(xs, first, last) == []
  {
    if xs == [] {
    } else {
      RowsNone(xs[1..], first - 1, last - 1);
    }
  }

  lemma DropTail<R>(xs: seq<R>, n: nat)
    requires xs != [] && n > 0
    ensures Drop(xs, n) == Drop(xs[1..], n - 1)
  {
  }

  /** The fallback's slice is the sequence the paging clause denotes. */
  lemma {:induction false} SliceIsRows<R>(xs: seq<R>, offset: nat, limit: nat)
    ensures Slice(xs, offset, limit) == RowsClause(xs, offset + 1, offset + limit)
  {
    if offset == 0 {
      RowsPrefix(xs, 1, limit);
      assert Drop(xs, 0) == xs;
    } else if xs != [] {
      SliceIsRows(xs[1..], offset - 1, limit);
      DropTail(xs, offset);
      assert RowsClause(xs, offset + 1, offset + limit) == [] + RowsClause(xs[1..], offset, offset + limit - 1);
    }
  }

  // --- objects of a scan ------------------------------------------------------------------------

  /** An open cursor: the rows still to come and the payload bytes counted so far. */
  class Statement<R> {
    const rowWidth: nat
    var rows: seq<R>
    var bytesRead: nat

    constructor (rows: seq<R>, rowWidth: nat)
      ensures this.rows == rows && this.rowWidth == rowWidth && bytesRead == 0
    {
      this.rows, this.rowWidth, bytesRead := rows, rowWidth, 0;
    }

    method Fetch() returns (row: Option<R>)
      modifies this
      ensures old(rows) == [] ==> row == None && rows == [] && bytesRead == old(bytesRead)
      ensures old(rows) != [] ==>
                row == Some(old(rows)[0]) && rows == old(rows)[1..] && bytesRead == old(bytesRead) + rowWidth
    {
      if rows == [] { return None; }
      row := Some(rows[0]);
      rows := rows[1..];
      bytesRead := bytesRead + rowWidth;
    }

    /** Reading the BLOB columns of the current row. */
    method ReadBlobs(bytes: nat)
      modifies this`bytesRead
      ensures bytesRead == old(bytesRead) + bytes
    {
      bytesRead := bytesRead + bytes;
    }

    method TakeBytesRead() returns (b: nat)
      modifies this`bytesRead
      ensures b == old(bytesRead) && bytesRead == 0
    {
      b := bytesRead;
      bytesRead := 0;
    }
  }

  /** The state shared by all workers; `results[i]` is what the server returns for
      partition i. */
  class GlobalState<R> {
    const results: seq<seq<R>>
    const residual: bool
    var nextPartition: nat
    var unpushedReported: bool
    var reports: nat

    constructor (results: seq<seq<R>>, residual: bool)
      ensures this.results == results && this.residual == residual
      ensures nextPartition == 0 && !unpushedReported && reports == 0
    {
      this.results, this.residual := results, residual;
      nextPartition, unpushedReported, reports := 0, false, 0;
    }

    method NextPartition() returns (partition: Option<nat>)
      modifies this`nextPartition
      ensures old(nextPartition) >= |results| ==> partition == None && nextPartition == old(nextPartition)
      ensures old(nextPartition) < |results| ==>
                partition == Some(old(nextPartition)) && nextPartition == old(nextPartition) + 1
    {
      if nextPartition >= |results| { return None; }
      partition := Some(nextPartition);
      nextPartition := nextPartition + 1;
    }

    /** The once-per-query check for residual filters. */
    method ReportUnpushed()
      modifies this`unpushedReported, this`reports
      ensures unpushedReported == (old(unpushedReported) || residual)
      ensures reports == old(reports) + if residual && !old(unpushedReported) then 1 else 0
    {
      if residual {
        var was := unpushedReported;
        unpushedReported := true;
        if !was { reports := reports + 1; }
      }
    }
  }

  /** The lifetime byte counter of an attached catalog's pool. */
  class PoolCounter {
    var bytes: nat

    constructor ()
      ensures bytes == 0
    {
      bytes := 0;
    }

    method AddBytesReadEstimate(n: nat)
      modifies this
      ensures bytes == old(bytes) + n
    {
      bytes := bytes + n;
    }
  }

  /** Fixed facts of a scan: the fallback slice (offset, limit) if any, the width of a
      fetched row, the chunk size. */
  datatype Plan = Plan(slice: Option<(nat, nat)>, width: nat, target: nat)

  /** The rows still to be emitted, from the rows still to come. */
  function Pending<R>(rows: seq<R>, p: Plan, skipped: nat, emitted: nat): seq<R> {
    match p.slice
    case None => rows
    case Some((offset, limit)) =>
      if skipped > offset || emitted > limit then [] else Slice(rows, offset - skipped, limit - emitted)
  }

  /** How many of the `come` rows still to come the scan will fetch: under the local slice
      the ones it skips, the ones it emits, and the one at which it notices the end. */
  function ToRead(come: nat, p: Plan, skipped: nat, emitted: nat): nat {
    match p.slice
    case None => come
    case Some((offset, limit)) => Min(come, Sub(offset, skipped) + Sub(limit, emitted) + 1)
  }

  function Sub(a: nat, b: nat): nat { if a >= b then a - b else 0 }

  lemma {:induction false} PendingSkip<R>(r: R, rows: seq<R>, p: Plan, skipped: nat, emitted: nat)
    requires p.slice.Some? && skipped < p.slice.value.0
    ensures Pending([r] + rows, p, skipped, emitted) == Pending(rows, p, skipped + 1, emitted)
  {
    var n := p.slice.value.0 - skipped;
    assert Drop([r] + rows, n) == Drop(rows, n - 1);
  }

  lemma {:induction false} PendingEmit<R>(r: R, rows: seq<R>, p: Plan, skipped: nat, emitted: nat)
    requires p.slice.Some? ==> skipped == p.slice.value.0 && emitted < p.slice.value.1
    ensures Pending([r] + rows, p, skipped, emitted) == [r] + Pending(rows, p, skipped, if p.slice.Some? then emitted + 1 else emitted)
  {
    if p.slice.Some? {
      var m := p.slice.value.1 - emitted;
      assert Drop([r] + rows, 0) == [r] + rows && Drop(rows, 0) == rows;
      assert Take([r] + rows, m) == [r] + Take(rows, m - 1);
    }
  }

  lemma PendingDone<R>(rows: seq<R>, p: Plan, skipped: nat, emitted: nat)
    requires rows == [] || (p.slice.Some? && emitted >= p.slice.value.1)
    ensures Pending(rows, p, skipped, emitted) == []
  {
  }

  predicate AllFull<R>(chunks: seq<seq<R>>, target: nat) {
    forall j :: 0 <= j < |chunks| ==> |chunks[j]| == target
  }

  predicate FullButLast<R>(chunks: seq<seq<R>>, target: nat) {
    chunks == [] || AllFull(chunks[..|chunks| - 1], target)
  }

  /** BLOB bytes of a chunk. */
  function BlobBytes<R>(rows: seq<R>, blob: R -> nat): nat {
    if rows == [] then 0 else BlobBytes(rows[..|rows| - 1], blob) + blob(rows[|rows| - 1])
  }

  lemma BlobNone<R>(blob: R -> nat)
    ensures BlobBytes([], blob) == 0
  {
  }

  lemma {:induction false} BlobAppend<R>(a: seq<R>, b: seq<R>, blob: R -> nat)
    ensures BlobBytes(a + b, blob) == BlobBytes(a, blob) + BlobBytes(b, blob)
  {
    if b == [] {
      assert a + b == a;
    } else {
      assert (a + b)[..|a + b| - 1] == a + b[..|b| - 1];
      BlobAppend(a, b[..|b| - 1], blob);
    }
  }

  /** The lifetime counter after `read` rows were fetched and `rows` were emitted. */
  function Counted<R>(base: nat, read: nat, rows: seq<R>, p: Plan, blob: R -> nat): nat {
    base + BytesOf(read, p) + BlobBytes(rows, blob)
  }

  lemma CountedAdd<R>(base: nat, m: nat, n: nat, a: seq<R>, b: seq<R>, p: Plan, blob: R -> nat)
    ensures Counted(Counted(base, m, a, p, blob), n, b, p, blob) == Counted(base, m + n, a + b, p, blob)
  {
    BlobAppend(a, b, blob);
    BytesAdd(m, n, p);
  }

  lemma {:induction false} BlobSnoc<R>(rows: seq<R>, r: R, blob: R -> nat)
    ensures BlobBytes(rows + [r], blob) == BlobBytes(rows, blob) + blob(r)
  {
    assert (rows + [r])[..|rows|] == rows;
  }

  /** What the fetch loop conserves: the rows still to be emitted, the number of rows still
      to be fetched, the bytes counted and not yet added to the lifetime counter, the rows
      fetched, and a bound on the turns left. */
  datatype View<R> = View(pending: seq<R>, unread: nat, undrained: int, read: nat, fuel: nat)

  /** From `v` to `u` no row is lost, repeated or reordered, every row fetched is one of
      those that were to be fetched, and every byte is counted once. */
  ghost predicate Moved<R>(v: View<R>, u: View<R>, chunk: seq<R>, chunk': seq<R>, p: Plan, blob: R -> nat) {
    && chunk' + u.pending == chunk + v.pending
    && |chunk| <= |chunk'|
    && u.read >= v.read && u.read + u.unread == v.read + v.unread
    && u.undrained + BlobBytes(chunk, blob) == v.undrained + BytesOf(u.read - v.read, p) + BlobBytes(chunk', blob)
  }

  /** What one call gives: the next rows outstanding, at most a chunk full; a short chunk
      means that there are no more, and none left to fetch; the rows fetched are those that
      are no longer to be fetched, on an unpaged scan the rows of the chunk. */
  ghost predicate Given<R>(v: View<R>, u: View<R>, chunk: seq<R>, p: Plan) {
    && chunk + u.pending == v.pending && |chunk| <= p.target
    && (|chunk| < p.target ==> u.pending == [] && u.unread == 0)
    && u.read >= v.read && u.read + u.unread == v.read + v.unread
    && (p.slice.None? ==> u.read == v.read + |chunk|)
  }

  /** What all calls together give. */
  ghost predicate AllGiven<R>(v: View<R>, u: View<R>, chunks: seq<seq<R>>, p: Plan) {
    && Concat(chunks) == v.pending && FullButLast(chunks, p.target) && (chunks != [] ==> v.pending != [])
    && u.read == v.read + v.unread
    && (p.slice.None? ==> v.unread == |Concat(chunks)|)
  }

  /** A row was fetched and not emitted. */
  lemma OneRead<R>(v: View<R>, u: View<R>, chunk: seq<R>, p: Plan, blob: R -> nat)
    requires u.pending == v.pending && u.read == v.read + 1 && v.unread == u.unread + 1 && u.undrained == v.undrained + p.width
    ensures Moved(v, u, chunk, chunk, p, blob)
  {
    assert BytesOf(1, p) == p.width + BytesOf(0, p);
  }

  /** The rows fetched between two looks at a scan. */
  function RowsRead<R>(v: View<R>, u: View<R>): nat { Sub(u.read, v.read) }

  lemma MovedGives<R>(v: View<R>, u: View<R>, chunk: seq<R>, p: Plan, blob: R -> nat)
    requires Moved(v, u, [], chunk, p, blob) && |chunk| <= p.target && (|chunk| < p.target ==> u.pending == [] && u.unread == 0)
    requires p.slice.None? ==> v.unread == |v.pending| && u.unread == |u.pending|
    ensures Given(v, u, chunk, p)
    ensures v.undrained == 0 ==> forall base: nat :: base + u.undrained == Counted(base, RowsRead(v, u), chunk, p, blob)
  {
    BlobNone(blob);
    assert [] + v.pending == v.pending;
  }

  lemma GivenAll<R>(v: View<R>, u: View<R>, t: View<R>, chunk: seq<R>, rest: seq<seq<R>>, base: nat, p: Plan, blob: R -> nat)
    requires Given(v, u, chunk, p) && AllGiven(u, t, rest, p) && chunk != []
    ensures AllGiven(v, t, [chunk] + rest, p)
    ensures Counted(Counted(base, RowsRead(v, u), chunk, p, blob), u.unread, Concat(rest), p, blob) ==
            Counted(base, v.unread, Concat([chunk] + rest), p, blob)
  {
    assert ([chunk] + rest)[1..] == rest;
    if rest != [] { assert ([chunk] + rest)[..|rest|] == [chunk] + rest[..|rest| - 1]; }
    CountedAdd(base, RowsRead(v, u), u.unread, chunk, Concat(rest), p, blob);
  }

  lemma GivenNone<R>(v: View<R>, u: View<R>, base: nat, p: Plan, blob: R -> nat)
    requires Given(v, u, [], p) && p.target > 0
    ensures AllGiven(v, u, [], p)
    ensures Counted(base, RowsRead(v, u), [], p, blob) == Counted(base, v.unread, Concat([]), p, blob)
  {
    assert [] + u.pending == u.pending;
  }

  /** Bytes counted for fetched rows. */
  function BytesOf(rows: nat, p: Plan): nat {
    if rows == 0 then 0 else p.width + BytesOf(rows - 1, p)
  }

  lemma {:induction false} BytesAdd(m: nat, n: nat, p: Plan)
    ensures BytesOf(m + n, p) == BytesOf(m, p) + BytesOf(n, p)
  {
    if m == 0 {
    } else {
      BytesAdd(m - 1, n, p);
    }
  }

  lemma {:induction false} BytesProduct(rows: nat, p: Plan)
    ensures BytesOf(rows, p) == p.width * rows
  {
    if rows == 0 {
    } else {
      BytesProduct(rows - 1, p);
    }
  }

  lemma MovedOn<R>(v: View<R>, u: View<R>, t: View<R>, a: seq<R>, b: seq<R>, c: seq<R>, p: Plan, blob: R -> nat)
    requires Moved(v, u, a, b, p, blob) && Moved(u, t, b, c, p, blob)
    ensures Moved(v, t, a, c, p, blob)
  {
    BytesAdd(u.read - v.read, t.read - u.read, p);
  }

  /** The worker's chunk has gone to DuckDB; an empty one ends the worker. */
  function HandedOver<R>(s: W.State<R>, chunk: seq<R>): W.State<R>
    requires |s.workers| == 1
  {
    var k := s.workers[0];
    s.(workers := [if chunk == [] then k.(done := true) else k.(out := [chunk])])
  }

  /** Worker `w` and the queue of `s` are those of `one`, the state of this worker alone. */
  ghost predicate Shows<R>(s: W.State<R>, w: nat, one: W.State<R>) {
    && w < |s.workers| && one.workers == [s.workers[w]]
    && s.results == one.results && s.next == one.next && s.reported == one.reported && s.reports == one.reports
  }

  /** `s` once its worker `w` and the queue have become those of `one`; the other workers
      stay as they are. */
  ghost function Advanced<R>(s: W.State<R>, w: nat, one: W.State<R>): W.State<R>
    requires w < |s.workers| && one.workers != []
  {
    W.State(s.results, one.next, s.workers[w := one.workers[0]],
            if one.next == s.next then s.claims else s.claims + [(w, s.next)], one.reported, one.reports)
  }

  lemma StepAmongOthers<R>(s: W.State<R>, w: nat, one: W.State<R>, c: W.Config)
    requires Shows(s, w, one)
    ensures W.Step(s, w, c) == Advanced(s, w, W.Step(one, 0, c))
    ensures Shows(W.Step(s, w, c), w, W.Step(one, 0, c))
  {
  }

  /** The loop either found the queue empty with nothing held, or made a machine step. */
  ghost predicate Stepped<R>(s: W.State<R>, t: W.State<R>, stop: bool, p: Plan, residual: bool)
    requires |s.workers| == 1
  {
    if stop then t == s && t.workers[0].cursor.None? && t.next >= |t.results|
    else t == W.Step(s, 0, W.Config(p.target, residual))
  }

  /** Among any other workers: the loop found the queue empty and its worker holding
      nothing, or made a step of the machine as worker `w`. */
  ghost predicate SteppedAs<R>(s: W.State<R>, w: nat, t: W.State<R>, stop: bool, p: Plan, residual: bool)
    requires w < |s.workers| && |t.workers| == 1
  {
    if stop then Shows(s, w, t) && s.workers[w].cursor.None? && s.next >= |s.results|
    else W.Step(s, w, W.Config(p.target, residual)) == Advanced(s, w, t)
  }

  lemma SteppedAmong<R>(s: W.State<R>, w: nat, one: W.State<R>, t: W.State<R>, stop: bool, p: Plan, residual: bool)
    requires Shows(s, w, one) && |t.workers| == 1 && Stepped(one, t, stop, p, residual)
    ensures SteppedAs(s, w, t, stop, p, residual)
  {
    StepAmongOthers(s, w, one, W.Config(p.target, residual));
  }

  lemma RowStep<R>(s: W.State<R>, t: W.State<R>, row: R, rest: seq<R>, chunk: seq<R>, p: Plan, residual: bool)
    requires s.workers == [W.Worker(Some([row] + rest), chunk, [], false)] && |chunk| < p.target
    requires t == s.(workers := [W.Worker(Some(rest), chunk + [row], [], false)])
    ensures Stepped(s, t, false, p, residual)
  {
    assert ([row] + rest)[1..] == rest;
  }

  ghost predicate Reaches<R>(s: W.State<R>, t: W.State<R>, schedule: seq<nat>, p: Plan, residual: bool)
    requires |s.workers| == 1
  {
    W.Schedule(schedule, 1) && W.Run(s, schedule, W.Config(p.target, residual)) == t
  }

  lemma OneMore<R>(s: W.State<R>, t: W.State<R>, u: W.State<R>, schedule: seq<nat>, p: Plan, residual: bool)
    returns (schedule': seq<nat>)
    requires |s.workers| == 1 == |t.workers|
    requires Reaches(s, t, schedule, p, residual) && Stepped(t, u, false, p, residual)
    ensures Reaches(s, u, schedule', p, residual)
  {
    W.RunSnoc(s, schedule, 0, W.Config(p.target, residual));
    schedule' := schedule + [0];
  }

  lemma LastTurn<R>(s: W.State<R>, t: W.State<R>, chunk: seq<R>, schedule: seq<nat>, p: Plan, residual: bool)
    returns (schedule': seq<nat>)
    requires |s.workers| == 1 == |t.workers| && p.target > 0 && Reaches(s, t, schedule, p, residual)
    requires t.workers[0] == W.Worker(t.workers[0].cursor, chunk, [], false)
    requires |chunk| >= p.target || (t.workers[0].cursor.None? && t.next >= |t.results|)
    ensures Reaches(s, HandedOver(t.(workers := [t.workers[0].(buffer := [])]), chunk), schedule', p, residual)
  {
    var done, out := t.workers[0].(done := true), t.workers[0].(buffer := [], out := [chunk]);
    assert [] + [chunk] == [chunk];
    assert t.workers[0 := done] == [done] && t.workers[0 := out] == [out];
    schedule' := OneMore(s, t, W.Step(t, 0, W.Config(p.target, residual)), schedule, p, residual);
  }

  // --- one worker ---------------------------------------------------------------------------------

  class LocalState<R> {
    var cursor: Statement?<R>
    var needsLocalSlice: bool
    var rowsSkipped: nat
    var rowsEmitted: nat
    var rowsRead: nat
    var bytesFetched: nat

    constructor ()
      ensures cursor == null && !needsLocalSlice
      ensures rowsSkipped == 0 && rowsEmitted == 0 && rowsRead == 0 && bytesFetched == 0
    {
      cursor, needsLocalSlice := null, false;
      rowsSkipped, rowsEmitted, rowsRead, bytesFetched := 0, 0, 0, 0;
    }

    /** The rows this worker would still see if it had the queue to itself. */
    function ToCome(g: GlobalState<R>): seq<R>
      reads this, cursor, g
      requires g.nextPartition <= |g.results|
    {
      (if cursor == null then [] else cursor.rows) + Concat(g.results[g.nextPartition..])
    }

    function Outstanding(g: GlobalState<R>, p: Plan): seq<R>
      reads this, cursor, g
      requires g.nextPartition <= |g.results|
    {
      Pending(ToCome(g), p, rowsSkipped, rowsEmitted)
    }

    /** The rows this worker would still fetch. */
    function Unread(g: GlobalState<R>, p: Plan): nat
      reads this, cursor, g
      requires g.nextPartition <= |g.results|
    {
      ToRead(|ToCome(g)|, p, rowsSkipped, rowsEmitted)
    }

    /** Bytes counted for this worker but not yet added to the lifetime counter. */
    function Undrained(): nat
      reads this, cursor
    {
      bytesFetched + if cursor == null then 0 else cursor.bytesRead
    }

    /** A paged scan has one partition; an open cursor carries the plan's facts. */
    predicate Valid(g: GlobalState<R>, p: Plan)
      reads this, cursor, g
    {
      && g.nextPartition <= |g.results|
      && (p.slice.Some? ==> |g.results| <= 1 && rowsSkipped <= p.slice.value.0 && rowsEmitted <= p.slice.value.1)
      && (p.slice.Some? && rowsEmitted > 0 ==> rowsSkipped == p.slice.value.0)
      && (cursor != null ==> cursor.rowWidth == p.width && needsLocalSlice == p.slice.Some?)
      && (cursor != null && p.slice.Some? ==> g.nextPartition == |g.results|)
    }

    /** The step machine's view of this worker, running alone with `chunk` half filled. */
    ghost function Machine(g: GlobalState<R>, chunk: seq<R>): W.Worker<R>
      reads this, cursor
    {
      W.Worker(if cursor == null then None else Some(cursor.rows), chunk, [], false)
    }

    /** Takes the next partition and opens its cursor; false when the queue is empty. */
    method OpenNextPartitionCursor(g: GlobalState<R>, p: Plan) returns (ok: bool)
      requires Valid(g, p) && cursor == null
      modifies this`cursor, this`needsLocalSlice, g`nextPartition, g`unpushedReported, g`reports
      ensures ok == (old(g.nextPartition) < |g.results|)
      ensures Valid(g, p) && ToCome(g) == old(ToCome(g))
      ensures Undrained() == old(Undrained())
      ensures !ok ==> cursor == null && ToCome(g) == []
      ensures !ok ==> g.nextPartition == old(g.nextPartition) && g.unpushedReported == old(g.unpushedReported) && g.reports == old(g.reports)
      ensures ok ==>
                && cursor != null && fresh(cursor) && cursor.rows == g.results[old(g.nextPartition)]
                && g.nextPartition == old(g.nextPartition) + 1
                && g.unpushedReported == (old(g.unpushedReported) || g.residual)
                && g.reports == old(g.reports) + if g.residual && !old(g.unpushedReported) then 1 else 0
    {
      var partition := g.NextPartition();
      if partition.None? {
        assert g.results[g.nextPartition..] == [];
        return false;
      }
      ghost var rest := g.results[partition.value..];
      assert rest[0] == g.results[partition.value] && rest[1..] == g.results[partition.value + 1..];
      needsLocalSlice := p.slice.Some?;
      g.ReportUnpushed();
      cursor := new Statement(g.results[partition.value], p.width);
      ok := true;
    }

    /** Keeps the byte count of an exhausted or capped cursor before dropping it. */
    method DropCursor()
      requires cursor != null
      modifies this`cursor, this`bytesFetched, cursor`bytesRead
      ensures cursor == null
      ensures bytesFetched == old(Undrained())
    {
      var b := cursor.TakeBytesRead();
      bytesFetched := bytesFetched + b;
      cursor := null;
    }

    /** The whole scan as the step machine sees it while this worker runs alone. */
    ghost function State(g: GlobalState<R>, chunk: seq<R>, claims: seq<(nat, nat)>): W.State<R>
      reads this, cursor, g
    {
      W.State(g.results, g.nextPartition, [Machine(g, chunk)], claims, g.unpushedReported, g.reports)
    }

    ghost function Look(g: GlobalState<R>, p: Plan): (v: View<R>)
      reads this, cursor, g
      requires g.nextPartition <= |g.results|
      ensures p.slice.None? ==> v.unread == |v.pending|
    {
      View(Outstanding(g, p), Unread(g, p), Undrained(), rowsRead,
           2 * (|g.results| - g.nextPartition) + 2 * |ToCome(g)| + if cursor == null then 0 else 1)
    }

    /** A fetched row: skipped by the local slice, cut off by it, or appended to the chunk. */
    method AcceptRow(g: GlobalState<R>, p: Plan, blob: R -> nat, chunk: seq<R>, row: R, ghost before: View<R>)
      returns (chunk': seq<R>, stop: bool)
      requires Valid(g, p) && cursor != null
      requires before == View(Pending([row] + ToCome(g), p, rowsSkipped, rowsEmitted),
                              ToRead(1 + |ToCome(g)|, p, rowsSkipped, rowsEmitted), Undrained() - p.width, rowsRead,
                              2 * (|g.results| - g.nextPartition) + 2 * |ToCome(g)| + 3)
      modifies this, cursor`bytesRead
      ensures Valid(g, p) && (cursor == null || cursor == old(cursor))
      ensures Moved(before, Look(g, p), chunk, chunk', p, blob) && |chunk'| <= |chunk| + 1
      ensures stop ==> Outstanding(g, p) == [] && Unread(g, p) == 0 && p.slice.Some?
      ensures Look(g, p).fuel < before.fuel
      ensures p.slice.None? ==> cursor == old(cursor) && chunk' == chunk + [row]
    {
      chunk', stop := chunk, false;
      rowsRead := rowsRead + 1;
      if needsLocalSlice {
        if rowsSkipped < p.slice.value.0 {
          SkipRow(g, p, row);
          OneRead(before, Look(g, p), chunk, p, blob);
          return;
        }
        if rowsEmitted >= p.slice.value.1 {
          PendingDone([row] + ToCome(g), p, rowsSkipped, rowsEmitted);
          CutOff(g, p);
          stop := true;
          OneRead(before, Look(g, p), chunk, p, blob);
          return;
        }
      }
      chunk' := EmitRow(g, p, blob, chunk, row, before.pending);
    }

    /** A row before the slice. */
    method SkipRow(g: GlobalState<R>, p: Plan, ghost row: R)
      requires Valid(g, p) && p.slice.Some? && rowsSkipped < p.slice.value.0 && rowsEmitted == 0
      modifies this`rowsSkipped
      ensures Valid(g, p) && rowsSkipped == old(rowsSkipped) + 1
      ensures Outstanding(g, p) == Pending([row] + ToCome(g), p, old(rowsSkipped), rowsEmitted)
    {
      PendingSkip(row, ToCome(g), p, rowsSkipped, rowsEmitted);
      rowsSkipped := rowsSkipped + 1;
    }

    /** The slice is full: drops the cursor, keeping its byte count. */
    method CutOff(g: GlobalState<R>, p: Plan)
      requires Valid(g, p) && cursor != null && p.slice.Some? && rowsEmitted >= p.slice.value.1
      modifies this`cursor, this`bytesFetched, cursor`bytesRead
      ensures Valid(g, p) && cursor == null && Outstanding(g, p) == [] && ToCome(g) == []
      ensures Undrained() == old(Undrained())
    {
      DropCursor();
      assert g.results[g.nextPartition..] == [];
      PendingDone(ToCome(g), p, rowsSkipped, rowsEmitted);
    }

    /** Appends a row to the chunk, reading its BLOB columns. */
    method EmitRow(g: GlobalState<R>, p: Plan, blob: R -> nat, chunk: seq<R>, row: R, ghost pending: seq<R>) returns (chunk': seq<R>)
      requires Valid(g, p) && cursor != null
      requires p.slice.Some? ==> rowsSkipped == p.slice.value.0 && rowsEmitted < p.slice.value.1
      requires pending == Pending([row] + ToCome(g), p, rowsSkipped, rowsEmitted)
      modifies this`rowsEmitted, cursor`bytesRead
      ensures Valid(g, p) && chunk' == chunk + [row] && ToCome(g) == old(ToCome(g))
      ensures rowsEmitted == old(rowsEmitted) + if p.slice.Some? then 1 else 0
      ensures chunk' + Outstanding(g, p) == chunk + pending
      ensures Undrained() + BlobBytes(chunk, blob) == old(Undrained()) + BlobBytes(chunk', blob)
    {
      PendingEmit(row, ToCome(g), p, rowsSkipped, rowsEmitted);
      cursor.ReadBlobs(blob(row));
      BlobSnoc(chunk, row, blob);
      chunk' := chunk + [row];
      if needsLocalSlice { rowsEmitted := rowsEmitted + 1; }
      assert chunk' + Outstanding(g, p) == chunk + ([row] + Outstanding(g, p));
    }

    /** A turn without a cursor: opens the next one, or finds the queue empty. */
    method OpenTurn(g: GlobalState<R>, p: Plan, ghost chunk: seq<R>, ghost claims: seq<(nat, nat)>)
      returns (stop: bool, ghost claims': seq<(nat, nat)>)
      requires Valid(g, p) && |chunk| < p.target && cursor == null
      modifies this`cursor, this`needsLocalSlice, g`nextPartition, g`unpushedReported, g`reports
      ensures Valid(g, p) && (cursor == null || fresh(cursor))
      ensures Look(g, p) == old(Look(g, p)).(fuel := Look(g, p).fuel)
      ensures if stop then Outstanding(g, p) == [] && Unread(g, p) == 0 else Look(g, p).fuel < old(Look(g, p)).fuel
      ensures p.slice.None? ==> Stepped(old(State(g, chunk, claims)), State(g, chunk, claims'), stop, p, g.residual)
    {
      var ok := OpenNextPartitionCursor(g, p);
      stop, claims' := !ok, if ok then claims + [(0, g.nextPartition - 1)] else claims;
    }

    /** A turn on an exhausted cursor: drops it. */
    method Exhausted(g: GlobalState<R>, p: Plan, ghost chunk: seq<R>, ghost claims: seq<(nat, nat)>)
      requires Valid(g, p) && |chunk| < p.target && cursor != null && cursor.rows == []
      modifies this`cursor, this`bytesFetched, cursor`bytesRead
      ensures Valid(g, p) && cursor == null
      ensures Look(g, p) == old(Look(g, p)).(fuel := Look(g, p).fuel) && Look(g, p).fuel < old(Look(g, p)).fuel
      ensures p.slice.None? ==> Stepped(old(State(g, chunk, claims)), State(g, chunk, claims), false, p, g.residual)
    {
      ghost var come := ToCome(g);
      DropCursor();
      assert ToCome(g) == come;
    }

    /** A turn with a cursor: drops it when it is exhausted, or handles the row fetched. */
    method FetchTurn(g: GlobalState<R>, p: Plan, blob: R -> nat, chunk: seq<R>, ghost claims: seq<(nat, nat)>)
      returns (chunk': seq<R>, stop: bool)
      requires Valid(g, p) && |chunk| < p.target && cursor != null
      modifies this, cursor
      ensures Valid(g, p) && (cursor == null || cursor == old(cursor))
      ensures Moved(old(Look(g, p)), Look(g, p), chunk, chunk', p, blob) && |chunk'| <= |chunk| + 1
      ensures stop ==> Outstanding(g, p) == [] && Unread(g, p) == 0
      ensures !stop ==> Look(g, p).fuel < old(Look(g, p)).fuel
      ensures p.slice.None? ==> Stepped(old(State(g, chunk, claims)), State(g, chunk', claims), stop, p, g.residual)
    {
      ghost var before := Look(g, p);
      ghost var come, s, rows := ToCome(g), State(g, chunk, claims), cursor.rows;
      var row := cursor.Fetch();
      if row.None? {
        assert Look(g, p) == before;
        chunk', stop := chunk, false;
        Exhausted(g, p, chunk, claims);
      } else {
        assert rows == [row.value] + cursor.rows;
        assert come == [row.value] + ToCome(g);
        chunk', stop := AcceptRow(g, p, blob, chunk, row.value, before);
        if p.slice.None? { RowStep(s, State(g, chunk', claims), row.value, cursor.rows, chunk, p, g.residual); }
      }
    }

    /** One turn of the fetch loop: opens the next cursor, drops an exhausted one, or
        handles a fetched row. On an unpaged scan it is a step of the machine, in every
        state that shows this worker as its worker `w`, whatever the others hold. */
    method Turn(g: GlobalState<R>, p: Plan, blob: R -> nat, chunk: seq<R>, ghost claims: seq<(nat, nat)>)
      returns (chunk': seq<R>, stop: bool, ghost claims': seq<(nat, nat)>)
      requires Valid(g, p) && |chunk| < p.target
      modifies this, cursor, g
      ensures Valid(g, p) && (cursor == null || cursor == old(cursor) || fresh(cursor))
      ensures Moved(old(Look(g, p)), Look(g, p), chunk, chunk', p, blob) && |chunk'| <= |chunk| + 1
      ensures stop ==> Outstanding(g, p) == [] && Unread(g, p) == 0
      ensures !stop ==> Look(g, p).fuel < old(Look(g, p)).fuel
      ensures p.slice.None? ==> Stepped(old(State(g, chunk, claims)), State(g, chunk', claims'), stop, p, g.residual)
      ensures p.slice.None? ==> forall s: W.State<R>, w: nat ::
                Shows(s, w, old(State(g, chunk, claims))) ==> SteppedAs(s, w, State(g, chunk', claims'), stop, p, g.residual)
    {
      ghost var one := State(g, chunk, claims);
      claims' := claims;
      if cursor == null {
        chunk' := chunk;
        stop, claims' := OpenTurn(g, p, chunk, claims);
      } else {
        chunk', stop := FetchTurn(g, p, blob, chunk, claims);
      }
      if p.slice.None? {
        forall s: W.State<R>, w: nat | Shows(s, w, one)
          ensures SteppedAs(s, w, State(g, chunk', claims'), stop, p, g.residual)
        {
          SteppedAmong(s, w, one, State(g, chunk', claims'), stop, p, g.residual);
        }
      }
    }

    /** Adds what was counted since the last call to the lifetime counter. */
    method Settle(g: GlobalState<R>, p: Plan, pool: PoolCounter?, ghost chunk: seq<R>, ghost claims: seq<(nat, nat)>)
      requires Valid(g, p)
      modifies this`bytesFetched, cursor, pool
      ensures Undrained() == 0 && Valid(g, p)
      ensures Look(g, p) == old(Look(g, p)).(undrained := 0)
      ensures State(g, chunk, claims) == old(State(g, chunk, claims))
      ensures pool != null ==> pool.bytes == old(pool.bytes) + old(Undrained())
    {
      if cursor != null {
        var b := cursor.TakeBytesRead();
        bytesFetched := bytesFetched + b;
      }
      if bytesFetched > 0 {
        if pool != null { pool.AddBytesReadEstimate(bytesFetched); }
        bytesFetched := 0;
      }
    }

    /** The fetch loop of one call. */
    method FillChunk(g: GlobalState<R>, p: Plan, blob: R -> nat, ghost claims: seq<(nat, nat)>)
      returns (chunk: seq<R>, ghost claims': seq<(nat, nat)>, ghost schedule: seq<nat>)
      requires Valid(g, p) && p.target > 0
      modifies this, cursor, g
      ensures Valid(g, p) && (cursor == null || cursor == old(cursor) || fresh(cursor))
      ensures Moved(old(Look(g, p)), Look(g, p), [], chunk, p, blob)
      ensures |chunk| <= p.target && (|chunk| < p.target ==> Outstanding(g, p) == [] && Unread(g, p) == 0)
      ensures p.slice.None? ==> Reaches(old(State(g, [], claims)), HandedOver(State(g, [], claims'), chunk), schedule, p, g.residual)
    {
      chunk, claims', schedule := [], claims, [];
      ghost var start, s := Look(g, p), State(g, [], claims);
      while |chunk| < p.target
        invariant Valid(g, p) && (cursor == null || cursor == old(cursor) || fresh(cursor))
        invariant |chunk| <= p.target
        invariant Moved(start, Look(g, p), [], chunk, p, blob)
        invariant p.slice.None? ==> Reaches(s, State(g, chunk, claims'), schedule, p, g.residual)
        decreases Look(g, p).fuel
      {
        ghost var was, had := Look(g, p), chunk;
        ghost var t := State(g, had, claims');
        var stop;
        chunk, stop, claims' := Turn(g, p, blob, chunk, claims');
        MovedOn(start, was, Look(g, p), [], had, chunk, p, blob);
        if stop { break; }
        if p.slice.None? { schedule := OneMore(s, t, State(g, chunk, claims'), schedule, p, g.residual); }
      }
      if p.slice.None? { schedule := LastTurn(s, State(g, chunk, claims'), chunk, schedule, p, g.residual); }
    }

    /** One Scan() call: fills a chunk, then adds the bytes counted since the last call to
        the lifetime counter (attached scans only; `pool` is null otherwise). The rows of
        the chunk are the next rows outstanding, a short chunk means there are no more; the
        counter grows by the row width for each row fetched, which are those no longer to be
        fetched (on an unpaged scan the rows of the chunk), plus the BLOB bytes of the chunk.
        On an unpaged scan the call is a run of the step machine that ends with the chunk
        handed over. */
    method Scan(g: GlobalState<R>, pool: PoolCounter?, p: Plan, blob: R -> nat, ghost claims: seq<(nat, nat)>)
      returns (chunk: seq<R>, ghost claims': seq<(nat, nat)>, ghost schedule: seq<nat>)
      requires Valid(g, p) && Undrained() == 0 && p.target > 0
      modifies this, cursor, g, pool
      ensures Valid(g, p) && Undrained() == 0 && (cursor == null || cursor == old(cursor) || fresh(cursor))
      ensures Given(old(Look(g, p)), Look(g, p), chunk, p)
      ensures pool != null ==> pool.bytes == Counted(old(pool.bytes), RowsRead(old(Look(g, p)), Look(g, p)), chunk, p, blob)
      ensures p.slice.None? ==> Reaches(old(State(g, [], claims)), HandedOver(State(g, [], claims'), chunk), schedule, p, g.residual)
    {
      ghost var before := Look(g, p);
      chunk, claims', schedule := FillChunk(g, p, blob, claims);
      ghost var after, base := Look(g, p), if pool == null then 0 else pool.bytes;
      MovedGives(before, after, chunk, p, blob);
      assert base + after.undrained == Counted(base, RowsRead(before, after), chunk, p, blob);
      Settle(g, p, pool, [], claims');
    }

    /** DuckDB calls Scan() until it gets an empty chunk. A worker alone with the queue
        emits, over all its chunks, exactly the rows outstanding, in order; every chunk but
        the last is full; it fetches exactly the rows that were to be fetched, and the
        lifetime counter grows by their width plus the BLOB bytes emitted. */
    method ScanAll(g: GlobalState<R>, pool: PoolCounter?, p: Plan, blob: R -> nat)
      returns (chunks: seq<seq<R>>)
      requires Valid(g, p) && Undrained() == 0 && p.target > 0
      modifies this, cursor, g, pool
      ensures Valid(g, p) && AllGiven(old(Look(g, p)), Look(g, p), chunks, p)
      ensures pool != null ==> pool.bytes == Counted(old(pool.bytes), old(Look(g, p)).unread, Concat(chunks), p, blob)
      decreases |Look(g, p).pending|
    {
      ghost var before := Look(g, p);
      ghost var base: nat := if pool == null then 0 else pool.bytes;
      var chunk, _, _ := Scan(g, pool, p, blob, []);
      ghost var after := Look(g, p);
      if chunk == [] {
        GivenNone(before, after, base, p, blob);
        chunks := [];
      } else {
        ghost var middle: nat := if pool == null then 0 else pool.bytes;
        var rest := ScanAll(g, pool, p, blob);
        assert pool != null ==> pool.bytes == Counted(middle, after.unread, Concat(rest), p, blob);
        GivenAll(before, after, Look(g, p), chunk, rest, base, p, blob);
        chunks := [chunk] + rest;
      }
    }
  }

  lemma PendingAtStart<R>(results: seq<seq<R>>, p: Plan)
    ensures Pending(Concat(results), p, 0, 0) ==
            match p.slice { case None => Concat(results) case Some((offset, limit)) => RowsClause(Concat(results), offset + 1, offset + limit) }
  {
    if p.slice.Some? { SliceIsRows(Concat(results), p.slice.value.0, p.slice.value.1); }
  }

  /** The rows a whole scan fetches of the `n` its statements would return: all of them, or
      under the fallback as many as show that the slice has ended. */
  function RowsFetched(n: nat, p: Plan): nat {
    match p.slice
    case None => n
    case Some((offset, limit)) => Min(n, offset + limit + 1)
  }

  /** A scan run by one worker from start to end, whatever the chunk size: the chunks
      together are all rows of all partitions in order or, under the local paging fallback,
      exactly the rows that `ROWS offset+1 TO offset+limit` denotes. The lifetime counter
      grows by the row width times the rows fetched (all of them, under the fallback the
      first offset+limit+1) plus the BLOB bytes of the rows emitted. */
  method SingleWorker<R>(results: seq<seq<R>>, residual: bool, pool: PoolCounter?, p: Plan, blob: R -> nat)
    returns (chunks: seq<seq<R>>)
    requires p.target > 0 && (p.slice.Some? ==> |results| <= 1)
    modifies pool
    ensures Concat(chunks) ==
            match p.slice { case None => Concat(results) case Some((offset, limit)) => RowsClause(Concat(results), offset + 1, offset + limit) }
    ensures FullButLast(chunks, p.target)
    ensures pool != null ==>
              pool.bytes == old(pool.bytes) + p.width * RowsFetched(|Concat(results)|, p) + BlobBytes(Concat(chunks), blob)
  {
    var g := new GlobalState(results, residual);
    var worker := new LocalState<R>();
    assert results[0..] == results && [] + Concat(results) == Concat(results);
    ghost var start := worker.Look(g, p);
    StartView(results, p, start);
    chunks := worker.ScanAll(g, pool, p, blob);
  }

  lemma {:induction false} StartView<R>(results: seq<seq<R>>, p: Plan, v: View<R>)
    requires v.pending == Pending(Concat(results), p, 0, 0) && v.unread == ToRead(|Concat(results)|, p, 0, 0)
    ensures v.pending == match p.slice { case None => Concat(results) case Some((offset, limit)) => RowsClause(Concat(results), offset + 1, offset + limit) }
    ensures v.unread == RowsFetched(|Concat(results)|, p)
    ensures BytesOf(v.unread, p) == p.width * RowsFetched(|Concat(results)|, p)
  {
    PendingAtStart(results, p);
    BytesProduct(v.unread, p);
  }
}
