/** FirebirdObservabilityState: the last-query slot, the query log, and the report on
    filters that were not pushed. */
module Telemetry {
  import opened Wrappers
  import U = Utf8

  datatype QueryTelemetry = QueryTelemetry(
    remoteSql: string, pushedFilters: seq<string>, rowsRead: int, bytesRead: int, errorMessage: string, valid: bool)

  const NO_QUERY := QueryTelemetry("", [], 0, 0, "", false)

  /** What happens to the state of one connection, in lock order. */
  datatype Event =
    | Recorded(rec: QueryTelemetry, logSize: int)
    | RowsAdded(rows: int)
    | BytesAdded(bytes: int)
    | ErrorSet(message: string)

  /** What an event other than a new record does to the current record. */
  function Amend(r: QueryTelemetry, e: Event): QueryTelemetry {
    match e
    case Recorded(_, _) => r
    case RowsAdded(n) => r.(rowsRead := r.rowsRead + n)
    case BytesAdded(n) => r.(bytesRead := r.bytesRead + n)
    case ErrorSet(m) => r.(errorMessage := m)
  }

  /** `rs` with its newest entry amended. */
  function AmendNewest(rs: seq<QueryTelemetry>, e: Event): seq<QueryTelemetry> {
    if rs == [] then [] else rs[..|rs| - 1] + [Amend(rs[|rs| - 1], e)]
  }

  datatype State = State(last: QueryTelemetry, log: seq<QueryTelemetry>)

  function Trimmed(log: seq<QueryTelemetry>, size: nat): seq<QueryTelemetry> {
    if |log| > size then log[|log| - size..] else log
  }

  /** What the object does: metrics go to `last`, and the one metric that changed is
      copied onto the newest log entry. */
  function Mirror(log: seq<QueryTelemetry>, last: QueryTelemetry, e: Event): seq<QueryTelemetry> {
    if log == [] then []
    else
      var newest := log[|log| - 1];
      log[..|log| - 1] + [match e
        case Recorded(_, _) => newest
        case RowsAdded(_) => newest.(rowsRead := last.rowsRead)
        case BytesAdded(_) => newest.(bytesRead := last.bytesRead)
        case ErrorSet(_) => newest.(errorMessage := last.errorMessage)]
  }

  /** The state once `r` is the current record. */
  function WithRecord(s: State, r: QueryTelemetry, size: int): State {
    State(r, if size <= 0 then [] else Trimmed(s.log + [r], size))
  }

  function Next(s: State, e: Event): State {
    match e
    case Recorded(rec, size) => WithRecord(s, rec, size)
    case _ =>
      var last := Amend(s.last, e);
      State(last, Mirror(s.log, last, e))
  }

  function Run(es: seq<Event>): State {
    if es == [] then State(NO_QUERY, []) else Next(Run(es[..|es| - 1]), es[|es| - 1])
  }

  // --- the history behind a state ----------------------------------------------------------

  /** All records ever made, with what was added to each while it was current. */
  function Records(es: seq<Event>): seq<QueryTelemetry> {
    if es == [] then []
    else
      var before, e := Records(es[..|es| - 1]), es[|es| - 1];
      if e.Recorded? then before + [e.rec] else AmendNewest(before, e)
  }

  /** The records since logging was last off. */
  function SinceOff(es: seq<Event>): seq<QueryTelemetry> {
    if es == [] then []
    else
      var before, e := SinceOff(es[..|es| - 1]), es[|es| - 1];
      if e.Recorded? then if e.logSize <= 0 then [] else before + [e.rec]
      else AmendNewest(before, e)
  }

  predicate Suffix<T(==)>(s: seq<T>, t: seq<T>) { |s| <= |t| && t[|t| - |s|..] == s }

  lemma {:induction false} SuffixAmend(s: seq<QueryTelemetry>, t: seq<QueryTelemetry>, e: Event)
    requires Suffix(s, t)
    ensures s != [] ==> Suffix(AmendNewest(s, e), AmendNewest(t, e))
    ensures s == [] ==> Suffix([], AmendNewest(t, e))
  {
    if s != [] {
      var n := |t| - |s|;
      assert t[n..][|s| - 1] == t[|t| - 1];
      assert AmendNewest(t, e)[n..] == t[n..][..|s| - 1] + [Amend(t[|t| - 1], e)];
    }
  }

  lemma {:induction false} SuffixTrim(s: seq<QueryTelemetry>, t: seq<QueryTelemetry>, r: QueryTelemetry, size: nat)
    requires Suffix(s, t)
    ensures Suffix(Trimmed(s + [r], size), t + [r])
  {
    var a, b := s + [r], t + [r];
    assert b[|b| - |a|..] == t[|t| - |s|..] + [r];
    if |a| > size { assert b[|b| - size..] == b[|b| - |a|..][|a| - size..]; }
  }

  /** The log never exceeds the size of the last record. */
  predicate Bounded(es: seq<Event>, log: seq<QueryTelemetry>) {
    if es == [] then log == []
    else match es[|es| - 1]
      case Recorded(_, size) => if size <= 0 then log == [] else 0 < |log| <= size
      case _ => Bounded(es[..|es| - 1], log)
  }

  lemma {:induction false} BoundedLength(es: seq<Event>, a: seq<QueryTelemetry>, b: seq<QueryTelemetry>)
    requires Bounded(es, a) && |a| == |b|
    ensures Bounded(es, b)
  {
    if es != [] && !es[|es| - 1].Recorded? { BoundedLength(es[..|es| - 1], a, b); }
  }

  /** The newest log entry equals the last record; the log is a suffix of the records since
      logging was last off, those are a suffix of all records, and the slot shows the last
      record made. */
  predicate Tracks(s: State, since: seq<QueryTelemetry>, all: seq<QueryTelemetry>) {
    && (s.log != [] ==> s.log[|s.log| - 1] == s.last)
    && Suffix(s.log, since) && Suffix(since, all)
    && (all != [] ==> s.last == all[|all| - 1])
  }

  lemma {:induction false} SuffixSnoc(s: seq<QueryTelemetry>, t: seq<QueryTelemetry>, r: QueryTelemetry)
    requires Suffix(s, t)
    ensures Suffix(s + [r], t + [r])
  {
    assert (t + [r])[|t| - |s|..] == t[|t| - |s|..] + [r];
  }

  lemma TrimLast(log: seq<QueryTelemetry>, r: QueryTelemetry, size: nat)
    requires size > 0
    ensures var t := Trimmed(log + [r], size); 0 < |t| <= size && t[|t| - 1] == r
  {
  }

  lemma {:induction false} RecordStep(s: State, since: seq<QueryTelemetry>, all: seq<QueryTelemetry>, r: QueryTelemetry, size: int)
    requires Tracks(s, since, all)
    ensures Tracks(WithRecord(s, r, size), if size <= 0 then [] else since + [r], all + [r])
    ensures size > 0 ==> 0 < |WithRecord(s, r, size).log| <= size
  {
    if size > 0 {
      SuffixTrim(s.log, since, r, size);
      SuffixSnoc(since, all, r);
      TrimLast(s.log, r, size);
    }
  }

  lemma {:induction false} AmendStep(s: State, since: seq<QueryTelemetry>, all: seq<QueryTelemetry>, e: Event)
    requires Tracks(s, since, all) && !e.Recorded?
    ensures Tracks(Next(s, e), AmendNewest(since, e), AmendNewest(all, e))
    ensures Next(s, e).log == AmendNewest(s.log, e) && |Next(s, e).log| == |s.log|
  {
    SuffixAmend(s.log, since, e);
    SuffixAmend(since, all, e);
  }

  /** Holds after every run; and the log never exceeds its size. */
  lemma {:induction false} EveryRun(es: seq<Event>)
    ensures Tracks(Run(es), SinceOff(es), Records(es)) && Bounded(es, Run(es).log)
  {
    if es == [] {
    } else {
      var init, e := es[..|es| - 1], es[|es| - 1];
      EveryRun(init);
      var s := Run(init);
      if e.Recorded? {
        RecordStep(s, SinceOff(init), Records(init), e.rec, e.logSize);
        assert Run(es) == WithRecord(s, e.rec, e.logSize);
      } else {
        AmendStep(s, SinceOff(init), Records(init), e);
        BoundedLength(init, s.log, Next(s, e).log);
      }
    }
  }

  predicate ConstantSize(es: seq<Event>, size: nat) {
    forall i :: 0 <= i < |es| && es[i].Recorded? ==> es[i].logSize == size
  }

  lemma TrimAmend(rs: seq<QueryTelemetry>, e: Event, size: nat)
    requires size > 0
    ensures AmendNewest(Trimmed(rs, size), e) == Trimmed(AmendNewest(rs, e), size)
  {
  }

  lemma TrimSnoc(rs: seq<QueryTelemetry>, r: QueryTelemetry, size: nat)
    requires size > 0
    ensures Trimmed(Trimmed(rs, size) + [r], size) == Trimmed(rs + [r], size)
  {
  }

  lemma {:induction false} LogIsTrimmed(es: seq<Event>, size: nat)
    requires ConstantSize(es, size) && size > 0
    ensures SinceOff(es) == Records(es)
    ensures Run(es).log == Trimmed(Records(es), size)
  {
    if es == [] {
    } else {
      var init, e := es[..|es| - 1], es[|es| - 1];
      assert forall i :: 0 <= i < |init| ==> init[i] == es[i];
      LogIsTrimmed(init, size);
      EveryRun(init);
      if e.Recorded? {
        TrimSnoc(Records(init), e.rec, size);
      } else {
        AmendStep(Run(init), SinceOff(init), Records(init), e);
        TrimAmend(Records(init), e, size);
      }
    }
  }

  /** With an unchanged log size the log is exactly the last `size` records, or all while
      there are no more. */
  lemma LogIsLastRecords(es: seq<Event>, size: nat)
    requires ConstantSize(es, size) && size > 0
    ensures Suffix(Run(es).log, Records(es))
    ensures |Run(es).log| == if |Records(es)| < size then |Records(es)| else size
  {
    LogIsTrimmed(es, size);
  }

  // --- what a record says ------------------------------------------------------------------------

  /** The records as they were made. */
  function Made(es: seq<Event>): seq<QueryTelemetry> {
    if es == [] then []
    else Made(es[..|es| - 1]) + if es[|es| - 1].Recorded? then [es[|es| - 1].rec] else []
  }

  /** What cannot change any more once a record is made. */
  predicate SameQuery(r: QueryTelemetry, q: QueryTelemetry) {
    r.remoteSql == q.remoteSql && r.pushedFilters == q.pushedFilters && r.valid == q.valid
  }

  /** The error message set last, by a record or while it was current. */
  function LatestError(es: seq<Event>): string {
    if es == [] then ""
    else match es[|es| - 1]
      case Recorded(rec, _) => rec.errorMessage
      case ErrorSet(m) => m
      case _ => LatestError(es[..|es| - 1])
  }

  ghost predicate SameQueries(rs: seq<QueryTelemetry>, qs: seq<QueryTelemetry>) {
    |rs| == |qs| && forall i :: 0 <= i < |rs| ==> SameQuery(rs[i], qs[i])
  }

  lemma SameQueriesSnoc(rs: seq<QueryTelemetry>, qs: seq<QueryTelemetry>, e: Event)
    requires SameQueries(rs, qs)
    ensures e.Recorded? ==> SameQueries(rs + [e.rec], qs + [e.rec])
    ensures !e.Recorded? ==> SameQueries(AmendNewest(rs, e), qs)
  {
  }

  /** Whatever is added to records later, each keeps its statement and its filters. */
  lemma {:induction false} RecordsKeepTheirQuery(es: seq<Event>)
    ensures SameQueries(Records(es), Made(es))
  {
    if es == [] {
    } else {
      var init, e := es[..|es| - 1], es[|es| - 1];
      RecordsKeepTheirQuery(init);
      SameQueriesSnoc(Records(init), Made(init), e);
      assert !e.Recorded? ==> Made(es) == Made(init);
    }
  }

  /** The slot has the error message set last, and no query before the first record. */
  lemma {:induction false} SlotShown(es: seq<Event>)
    ensures Run(es).last.errorMessage == LatestError(es)
    ensures Made(es) == [] ==> !Run(es).last.valid && Run(es).last.remoteSql == ""
  {
    if es == [] {
    } else {
      SlotShown(es[..|es| - 1]);
    }
  }

  // --- conservation ------------------------------------------------------------------------------

  function RowsIn(rs: seq<QueryTelemetry>): int {
    if rs == [] then 0 else RowsIn(rs[..|rs| - 1]) + rs[|rs| - 1].rowsRead
  }

  function BytesIn(rs: seq<QueryTelemetry>): int {
    if rs == [] then 0 else BytesIn(rs[..|rs| - 1]) + rs[|rs| - 1].bytesRead
  }

  /** Everything passed to AddRows since the first record, with what records came with. */
  function RowsPassed(es: seq<Event>): int {
    if es == [] then 0
    else RowsPassed(es[..|es| - 1]) +
         match es[|es| - 1] {
           case Recorded(rec, _) => rec.rowsRead
           case RowsAdded(n) => if Records(es[..|es| - 1]) == [] then 0 else n
           case _ => 0
         }
  }

  function BytesPassed(es: seq<Event>): int {
    if es == [] then 0
    else BytesPassed(es[..|es| - 1]) +
         match es[|es| - 1] {
           case Recorded(rec, _) => rec.bytesRead
           case BytesAdded(n) => if Records(es[..|es| - 1]) == [] then 0 else n
           case _ => 0
         }
  }

  lemma {:induction false} SumSnoc(rs: seq<QueryTelemetry>, r: QueryTelemetry)
    ensures RowsIn(rs + [r]) == RowsIn(rs) + r.rowsRead && BytesIn(rs + [r]) == BytesIn(rs) + r.bytesRead
  {
    assert (rs + [r])[..|rs|] == rs;
  }

  lemma {:induction false} SumAmend(rs: seq<QueryTelemetry>, e: Event)
    ensures RowsIn(AmendNewest(rs, e)) == RowsIn(rs) + if rs != [] && e.RowsAdded? then e.rows else 0
    ensures BytesIn(AmendNewest(rs, e)) == BytesIn(rs) + if rs != [] && e.BytesAdded? then e.bytes else 0
  {
    if rs != [] {
      var rest, newest := rs[..|rs| - 1], rs[|rs| - 1];
      SumSnoc(rest, newest);
      SumSnoc(rest, Amend(newest, e));
      assert rs == rest + [newest];
    }
  }

  /** Rows and bytes are conserved: summed over all records ever made they are everything
      that was passed in, nothing lost or counted twice, whatever the log held. */
  lemma {:induction false} Conserved(es: seq<Event>)
    ensures RowsIn(Records(es)) == RowsPassed(es) && BytesIn(Records(es)) == BytesPassed(es)
  {
    if es == [] {
    } else {
      var init, e := es[..|es| - 1], es[|es| - 1];
      Conserved(init);
      if e.Recorded? { SumSnoc(Records(init), e.rec); } else { SumAmend(Records(init), e); }
    }
  }

  // --- the object ------------------------------------------------------------------------------------

  function SafeAll(ss: seq<string>): seq<string> {
    if ss == [] then [] else [U.TelemetrySafe(ss[0])] + SafeAll(ss[1..])
  }

  /** A record as it is kept: marked valid, its texts made displayable. */
  function Stored(rec: QueryTelemetry): QueryTelemetry {
    rec.(valid := true, remoteSql := U.TelemetrySafe(rec.remoteSql), pushedFilters := SafeAll(rec.pushedFilters))
  }

  lemma {:induction false} SafeAllAt(ss: seq<string>)
    ensures |SafeAll(ss)| == |ss| && forall i :: 0 <= i < |ss| ==> SafeAll(ss)[i] == U.TelemetrySafe(ss[i])
  {
    if ss == [] {
    } else {
      SafeAllAt(ss[1..]);
    }
  }

  /** A kept record can be shown: its texts are valid UTF-8, those that were so before are
      unchanged, there are as many filters, and the metrics and the error are those given. */
  lemma StoredExact(rec: QueryTelemetry)
    ensures var r := Stored(rec);
            && r.valid && r.rowsRead == rec.rowsRead && r.bytesRead == rec.bytesRead && r.errorMessage == rec.errorMessage
            && ShownAs(rec.remoteSql, r.remoteSql)
            && |r.pushedFilters| == |rec.pushedFilters|
            && forall i :: 0 <= i < |rec.pushedFilters| ==> ShownAs(rec.pushedFilters[i], r.pushedFilters[i])
  {
    SafeAllAt(rec.pushedFilters);
    U.TelemetrySafeCorrect(rec.remoteSql);
    forall i | 0 <= i < |rec.pushedFilters| ensures ShownAs(rec.pushedFilters[i], SafeAll(rec.pushedFilters)[i]) {
      U.TelemetrySafeCorrect(rec.pushedFilters[i]);
    }
  }

  predicate ShownAs(text: string, shown: string) {
    U.Valid(shown) && (U.Valid(text) && '\0' !in text ==> shown == text)
  }

  class FirebirdObservabilityState {
    var last: QueryTelemetry
    var log: seq<QueryTelemetry>

    constructor ()
      ensures View() == Run([])
    {
      last, log := NO_QUERY, [];
    }

    function View(): State
      reads this
    {
      State(last, log)
    }

    method RecordQuery(rec: QueryTelemetry, logSize: int)
      modifies this
      ensures View() == Next(old(View()), Recorded(Stored(rec), logSize))
      ensures last.valid && last.rowsRead == rec.rowsRead && last.bytesRead == rec.bytesRead && last.errorMessage == rec.errorMessage
      ensures last.remoteSql == U.TelemetrySafe(rec.remoteSql) && |last.pushedFilters| == |rec.pushedFilters|
      ensures forall i :: 0 <= i < |rec.pushedFilters| ==> last.pushedFilters[i] == U.TelemetrySafe(rec.pushedFilters[i])
    {
      SafeAllAt(rec.pushedFilters);
      var sql := U.MakeTelemetrySafeUtf8(rec.remoteSql);
      var filters := SafeFilters(rec.pushedFilters);
      last := rec.(valid := true, remoteSql := sql, pushedFilters := filters);
      if logSize <= 0 {
        log := [];
        return;
      }
      log := log + [last];
      ghost var whole := log;
      while |log| > logSize
        invariant Trimmed(log, logSize) == Trimmed(whole, logSize) && last == Stored(rec)
        decreases |log|
      {
        log := log[1..];
      }
    }

    method SafeFilters(fs: seq<string>) returns (out: seq<string>)
      ensures out == SafeAll(fs)
    {
      out := [];
      assert fs[0..] == fs;
      for i := 0 to |fs|
        invariant out + SafeAll(fs[i..]) == SafeAll(fs)
      {
        assert fs[i..][0] == fs[i] && fs[i..][1..] == fs[i + 1..];
        var f := U.MakeTelemetrySafeUtf8(fs[i]);
        assert out + ([f] + SafeAll(fs[i + 1..])) == out + [f] + SafeAll(fs[i + 1..]);
        out := out + [f];
      }
      assert out + [] == out;
    }

    method AddRows(n: int)
      modifies this
      ensures View() == Next(old(View()), RowsAdded(n))
    {
      last := last.(rowsRead := last.rowsRead + n);
      if log != [] { log := log[..|log| - 1] + [log[|log| - 1].(rowsRead := last.rowsRead)]; }
    }

    method AddBytes(n: int)
      modifies this
      ensures View() == Next(old(View()), BytesAdded(n))
    {
      last := last.(bytesRead := last.bytesRead + n);
      if log != [] { log := log[..|log| - 1] + [log[|log| - 1].(bytesRead := last.bytesRead)]; }
    }

    method SetError(message: string)
      modifies this
      ensures View() == Next(old(View()), ErrorSet(message))
    {
      last := last.(errorMessage := message);
      if log != [] { log := log[..|log| - 1] + [log[|log| - 1].(errorMessage := last.errorMessage)]; }
    }

    /** The log, newest first. */
    method SnapshotLog() returns (out: seq<QueryTelemetry>)
      ensures |out| == |log| && forall i :: 0 <= i < |out| ==> out[i] == log[|log| - 1 - i]
    {
      out := [];
      for i := 0 to |log|
        invariant |out| == i && forall j :: 0 <= j < i ==> out[j] == log[|log| - 1 - j]
      {
        out := out + [log[|log| - 1 - i]];
      }
    }
  }

  // --- filters that were not pushed ------------------------------------------------------------------

  /** The distinct reasons in the order they first appear. */
  function FirstSeen(reasons: seq<string>): seq<string> {
    if reasons == [] then []
    else
      var before, r := FirstSeen(reasons[..|reasons| - 1]), reasons[|reasons| - 1];
      if r in before then before else before + [r]
  }

  lemma {:induction false} SeenIff(reasons: seq<string>, r: string)
    ensures r in reasons <==> r in FirstSeen(reasons)
  {
    if reasons == [] {
    } else {
      SeenIff(reasons[..|reasons| - 1], r);
      assert reasons == reasons[..|reasons| - 1] + [reasons[|reasons| - 1]];
    }
  }

  /** The order is deterministic: no reason is listed twice, and of two reasons the one
      listed first is the one met first. */
  lemma {:induction false} FirstSeenOrder(reasons: seq<string>, i: nat, j: nat)
    requires i < j < |FirstSeen(reasons)|
    ensures FirstSeen(reasons)[i] != FirstSeen(reasons)[j]
    ensures exists at :: 0 <= at <= |reasons| && FirstSeen(reasons)[i] in reasons[..at] && FirstSeen(reasons)[j] !in reasons[..at]
  {
    var init := reasons[..|reasons| - 1];
    var order := FirstSeen(reasons);
    if j < |FirstSeen(init)| {
      FirstSeenOrder(init, i, j);
      var at :| 0 <= at <= |init| && order[i] in init[..at] && order[j] !in init[..at];
      assert init[..at] == reasons[..at];
    } else {
      SeenIff(init, order[i]);
      SeenIff(init, order[j]);
      assert reasons[..|reasons| - 1] == init;
    }
  }

  datatype Outcome = Silent | InvalidMode | Report(error: bool, total: nat, order: seq<string>, counts: map<string, nat>)

  ghost predicate Counted(counts: map<string, nat>, reasons: seq<string>) {
    && (forall r :: r in counts <==> r in reasons)
    && (forall r :: r in counts ==> counts[r] == multiset(reasons)[r])
  }

  lemma CountOne(counts: map<string, nat>, seen: seq<string>, r: string)
    requires Counted(counts, seen)
    ensures Counted(counts[r := (if r in counts then counts[r] else 0) + 1], seen + [r])
  {
    assert multiset(seen + [r]) == multiset(seen) + multiset{r};
    assert r !in counts ==> multiset(seen)[r] == 0;
  }

  /** The counting loop. */
  method CountReasons(reasons: seq<string>) returns (order: seq<string>, counts: map<string, nat>)
    ensures order == FirstSeen(reasons)
    ensures forall r :: r in counts <==> r in reasons
    ensures forall r :: r in counts ==> counts[r] == multiset(reasons)[r]
  {
    order, counts := [], map[];
    assert reasons[..0] == [];
    for i := 0 to |reasons|
      invariant order == FirstSeen(reasons[..i]) && Counted(counts, reasons[..i])
    {
      var r := reasons[i];
      ghost var seen := reasons[..i];
      assert reasons[..i + 1] == seen + [r] && (seen + [r])[..i] == seen;
      SeenIff(seen, r);
      CountOne(counts, seen, r);
      if r !in counts { order := order + [r]; }
      counts := counts[r := (if r in counts then counts[r] else 0) + 1];
    }
    assert reasons[..|reasons|] == reasons;
  }

  /** `mode` is the setting in lower case, None when it is not registered. */
  method HandleUnpushedFilters(mode: Option<string>, reasons: seq<string>) returns (r: Outcome)
    ensures r == Silent <==> mode == None || mode == Some("silent")
    ensures r == InvalidMode <==> mode.Some? && mode.value !in ["silent", "warn", "error"]
    ensures r.Report? ==>
              && r.error == (mode == Some("error")) && r.total == |reasons| && r.order == FirstSeen(reasons)
              && forall x :: x in r.order ==> x in r.counts && r.counts[x] == multiset(reasons)[x] > 0
  {
    if mode.None? || mode.value == "silent" { return Silent; }
    if mode.value != "warn" && mode.value != "error" { return InvalidMode; }
    var order, counts := CountReasons(reasons);
    forall x | x in order ensures x in reasons { SeenIff(reasons, x); }
    r := Report(mode.value == "error", |reasons|, order, counts);
  }
}
