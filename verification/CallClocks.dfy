/** When a stored call began and how long it took, told from the times at which its statuses
    were delivered. */
module CallClocks {
  import opened Common
  import opened CallTypes
  import opened JournalEntries
  import opened JournalStore
  import opened MainApps
  import opened CallRuns
  import opened CallOrigins

  /** A status and the clock, in milliseconds, at its delivery. */
  datatype Signal = Signal(status: CallStatus, at: int)

  /** The statuses delivered to the entry with key `id`, with their times. */
  ghost function Heard(cfg: Config, a: App, steps: seq<Timed>, id: int): seq<Signal> {
    if steps == [] then [] else
    var front, last := steps[..|steps| - 1], steps[|steps| - 1];
    Heard(cfg, a, front, id) + Signals(DeliveredBy(Run(cfg, a, front), last.ev, id), last.env.now)
  }

  function Signals(d: seq<CallStatus>, at: int): seq<Signal> {
    seq(|d|, i requires 0 <= i < |d| => Signal(d[i], at))
  }

  function Statuses(h: seq<Signal>): seq<CallStatus> {
    seq(|h|, i requires 0 <= i < |h| => h[i].status)
  }

  lemma {:induction false} HeardIsDelivered(cfg: Config, a: App, steps: seq<Timed>, id: int)
    ensures Statuses(Heard(cfg, a, steps, id)) == Delivered(cfg, a, steps, id)
  {
    if steps != [] {
      HeardIsDelivered(cfg, a, steps[..|steps| - 1], id);
    }
  }

  // ----- The times a history calls for -----

  /** Position i starts the call: an outgoing one with every CONNECTED, an incoming one with a
      CONNECTED that does not directly follow another. */
  predicate StartsAt(t: JType, h: seq<Signal>, i: int) {
    && 0 <= i < |h| && h[i].status == Connected && t != JUnknown
    && (t == JIncoming && i > 0 ==> h[i - 1].status != Connected)
  }

  /** Position i is the last start. */
  ghost predicate LastStart(t: JType, h: seq<Signal>, i: int) {
    StartsAt(t, h, i) && forall j :: i < j < |h| ==> !StartsAt(t, h, j)
  }

  ghost predicate NoStart(t: JType, h: seq<Signal>) {
    forall j :: 0 <= j < |h| ==> !StartsAt(t, h, j)
  }

  /** Position j ends the call that position i has started. */
  ghost predicate EndsAt(t: JType, h: seq<Signal>, i: int, j: int) {
    0 <= j < |h| && h[j].status == Disconnected && LastStart(t, h[..j], i)
  }

  ghost predicate NoEnd(t: JType, h: seq<Signal>) {
    forall i, j :: !EndsAt(t, h, i, j)
  }

  /** The last end, and the start that it belongs to. */
  ghost predicate LastEnd(t: JType, h: seq<Signal>, i: int, j: int) {
    EndsAt(t, h, i, j) && forall i', j' :: EndsAt(t, h, i', j') ==> j' <= j
  }

  /** The begin time is that of the last start. */
  ghost predicate BeginIs(t: JType, h: seq<Signal>, begin: Option<int>) {
    match begin
    case None => NoStart(t, h)
    case Some(b) => exists i :: LastStart(t, h, i) && h[i].at == b
  }

  /** The whole seconds in a span of milliseconds, towards zero. */
  predicate WholeSeconds(ms: int, s: int) {
    if ms >= 0 then 1000 * s <= ms < 1000 * (s + 1) else 1000 * -s <= -ms < 1000 * (-s + 1)
  }

  /** The duration is that between the last end and its start, or zero. */
  ghost predicate DurationIs(t: JType, h: seq<Signal>, dur: int) {
    || (NoEnd(t, h) && dur == 0)
    || (exists i, j :: LastEnd(t, h, i, j) && WholeSeconds(h[j].at - h[i].at, dur))
  }

  // ----- One more signal -----

  lemma StartsAtFront(t: JType, h: seq<Signal>, s: Signal, i: int)
    requires i < |h|
    ensures StartsAt(t, h + [s], i) <==> StartsAt(t, h, i)
  {
  }

  lemma EndsAtFront(t: JType, h: seq<Signal>, s: Signal, i: int, j: int)
    ensures EndsAt(t, h + [s], i, j)
            <==> if j == |h| then s.status == Disconnected && LastStart(t, h, i) else EndsAt(t, h, i, j)
  {
    var all := h + [s];
    if 0 <= j <= |h| {
      assert all[..j] == h[..j];
      assert h[..|h|] == h;
    }
  }

  lemma BeginGrows(t: JType, h: seq<Signal>, s: Signal, begin: Option<int>)
    requires BeginIs(t, h, begin)
    ensures BeginIs(t, h + [s], if StartsAt(t, h + [s], |h|) then Some(s.at) else begin)
  {
    var all := h + [s];
    forall j | 0 <= j < |h| ensures StartsAt(t, all, j) <==> StartsAt(t, h, j) {
      StartsAtFront(t, h, s, j);
    }
    if StartsAt(t, all, |h|) {
      assert LastStart(t, all, |h|) && all[|h|].at == s.at;
    } else if begin.Some? {
      var i :| LastStart(t, h, i) && h[i].at == begin.value;
      assert LastStart(t, all, i) && all[i] == h[i];
    }
  }

  /** A signal that is no end leaves the duration; an end sets it. */
  lemma DurationStays(t: JType, h: seq<Signal>, s: Signal, dur: int)
    requires DurationIs(t, h, dur) && (s.status != Disconnected || NoStart(t, h))
    ensures DurationIs(t, h + [s], dur)
  {
    forall i, j ensures EndsAt(t, h + [s], i, j) <==> EndsAt(t, h, i, j) {
      EndsAtFront(t, h, s, i, j);
    }
    if i, j :| LastEnd(t, h, i, j) && WholeSeconds(h[j].at - h[i].at, dur) {
      assert (h + [s])[i] == h[i] && (h + [s])[j] == h[j];
      assert LastEnd(t, h + [s], i, j);
    }
  }

  lemma DurationSet(t: JType, h: seq<Signal>, s: Signal, begin: int, dur: int)
    requires s.status == Disconnected && BeginIs(t, h, Some(begin)) && WholeSeconds(s.at - begin, dur)
    ensures DurationIs(t, h + [s], dur)
  {
    var all := h + [s];
    var i :| LastStart(t, h, i) && h[i].at == begin;
    EndsAtFront(t, h, s, i, |h|);
    forall i', j' | EndsAt(t, all, i', j') ensures j' <= |h| {
    }
    assert LastEnd(t, all, i, |h|) && all[i] == h[i] && all[|h|] == s;
  }

  lemma SpanIsWhole(ms: int)
    ensures WholeSeconds(ms, SpanSeconds(ms))
  {
  }

  // ----- The entry -----

  ghost predicate ClockAgrees(p: Progress, h: seq<Signal>) {
    && BeginIs(p.jtype, h, p.begin) && DurationIs(p.jtype, h, p.duration)
    && (p.state == JsConnected <==> h != [] && h[|h| - 1].status == Connected)
  }

  lemma FreshClock(t: JType)
    ensures ClockAgrees(Progress(t, if t == JIncoming then JrNotReached else JrUnknown, JsUnknown, None, 0), [])
  {
  }

  /** A status that is delivered leaves begin, duration and state as its history calls for. */
  lemma NextClock(p: Progress, h: seq<Signal>, s: CallStatus, now: int)
    requires ClockAgrees(p, h)
    ensures ClockAgrees(p.Next(JournalState(s), now), h + [Signal(s, now)])
  {
    var sig := Signal(s, now);
    var q, all := p.Next(JournalState(s), now), h + [sig];
    BeginGrows(p.jtype, h, sig, p.begin);
    NextBegin(p, h, s, now);
    if s == Disconnected && p.begin.Some? && p.jtype != JUnknown {
      SpanIsWhole(now - p.begin.value);
      DurationSet(p.jtype, h, sig, p.begin.value, q.duration);
    } else {
      NoStartWithoutBegin(p, h);
      DurationStays(p.jtype, h, sig, p.duration);
    }
  }

  lemma NextBegin(p: Progress, h: seq<Signal>, s: CallStatus, now: int)
    requires ClockAgrees(p, h)
    ensures p.Next(JournalState(s), now).begin
            == if StartsAt(p.jtype, h + [Signal(s, now)], |h|) then Some(now) else p.begin
    ensures p.Next(JournalState(s), now).state == JournalState(s)
  {
    var all := h + [Signal(s, now)];
    assert all[|h|] == Signal(s, now) && (h != [] ==> all[|h| - 1] == h[|h| - 1]);
  }

  lemma NoStartWithoutBegin(p: Progress, h: seq<Signal>)
    requires ClockAgrees(p, h)
    ensures p.begin.None? || p.jtype == JUnknown ==> NoStart(p.jtype, h)
  {
  }

  // ----- Runs -----

  /** The stored begin is the second of the last start; the stored duration is the entry's. */
  ghost predicate RowClock(r: Row, h: seq<Signal>) {
    && DurationIs(r.jtype, h, r.dur)
    && (exists begin :: BeginIs(r.jtype, h, begin) && SecondOf(begin, r.tm2))
  }

  predicate SecondOf(ms: Option<int>, s: Option<int>) {
    if ms.None? then s.None? else s.Some? && 1000 * s.value <= ms.value < 1000 * (s.value + 1)
  }

  lemma EntryRowClock(e: Entry, h: seq<Signal>)
    requires ClockAgrees(e.progress, h)
    ensures RowClock(e.ToRow(), h)
  {
    assert SecondOf(e.progress.begin, e.ToRow().tm2);
  }

  /** Rows of the run and active entries carry the times that their signals call for. */
  ghost predicate ClocksOk(base: int, a: App, h: int -> seq<Signal>) {
    && base <= a.store.nextId
    && (forall id :: base <= id && id in a.store.calls ==> RowClock(a.store.calls[id], h(id)))
    && (forall k :: k in a.active ==>
          base <= a.active[k].dbKey && ClockAgrees(a.active[k].progress, h(a.active[k].dbKey)))
  }

  lemma SaveActiveClock(cfg: Config, base: int, a: App, k: Key, e: Entry, env: Env,
                        h: int -> seq<Signal>, h': int -> seq<Signal>)
    requires Inv(cfg, a) && env.FailureFree() && k in a.active && Pending(a.store, a.active[k], e)
    requires ClocksOk(base, a, h)
    requires ClockAgrees(e.progress, h'(e.dbKey)) && forall id :: id != e.dbKey ==> h'(id) == h(id)
    ensures ClocksOk(base, SaveActive(cfg, a, k, e, env), h')
  {
    SaveFacts(cfg.like, a.store, e, env);
    EntryRowClock(e, h'(e.dbKey));
  }

  lemma NewCallClock(cfg: Config, base: int, a: App, ev: AppEvent, env: Env,
                     h: int -> seq<Signal>, h': int -> seq<Signal>)
    requires Inv(cfg, a) && env.FailureFree() && ClocksOk(base, a, h) && ev.NewCall?
    requires forall id :: h'(id) == if id == a.store.nextId then [Signal(ev.status, env.now)] else h(id)
    ensures ClocksOk(base, Step(cfg, a, ev, env), h')
  {
    var e := NewEntry(ev.pid, ev.cid, ev.ctype, ev.status, env.now);
    NewEntryClock(ev, env.now);
    SaveFacts(cfg.like, a.store, e, env);
    var b, f := Step(cfg, a, ev, env), InsertUpdate(cfg.like, a.store, e, env).1;
    EntryRowClock(f, [Signal(ev.status, env.now)]);
    forall id | base <= id && id in b.store.calls ensures RowClock(b.store.calls[id], h'(id)) {
      if id == f.dbKey {
        assert b.store.calls[id] == f.ToRow();
      }
    }
  }

  lemma NewEntryClock(ev: AppEvent, now: int)
    requires ev.NewCall?
    ensures ClockAgrees(NewEntry(ev.pid, ev.cid, ev.ctype, ev.status, now).progress, [Signal(ev.status, now)])
  {
    var start := FreshEntry(ev.pid, ev.cid, JournalType(ev.ctype), now).progress;
    FreshClock(JournalType(ev.ctype));
    NextClock(start, [], ev.status, now);
    assert [] + [Signal(ev.status, now)] == [Signal(ev.status, now)];
  }

  lemma StatusClock(cfg: Config, base: int, a: App, k: Key, status: CallStatus, env: Env,
                    h: int -> seq<Signal>, h': int -> seq<Signal>)
    requires Inv(cfg, a) && env.FailureFree() && ClocksOk(base, a, h) && k in a.active && status != Idle
    requires forall id :: h'(id) == if id == a.active[k].dbKey then h(id) + [Signal(status, env.now)] else h(id)
    ensures ClocksOk(base, Step(cfg, a, CallStatusUpdate(k.pid, k.cid, status), env), h')
  {
    var e := a.active[k];
    NextClock(e.progress, h(e.dbKey), status, env.now);
    SetStatePending(a.store, e, JournalState(status), env.now);
    SaveActiveClock(cfg, base, a, k, e.SetState(JournalState(status), env.now), env, h, h');
  }

  lemma InfoClock(cfg: Config, base: int, a: App, k: Key, info: CallInfo, env: Env, h: int -> seq<Signal>)
    requires Inv(cfg, a) && env.FailureFree() && ClocksOk(base, a, h) && k in a.active
    ensures ClocksOk(base, Step(cfg, a, CallInfoUpdate(k.pid, k.cid, info), env), h)
  {
    MergeInfoPending(cfg, a.store, a.active[k], info);
    var (e, requests) := MergeInfo(cfg, a.active[k], info);
    SaveActiveClock(cfg, base, a.(requests := a.requests + requests), k, e, env, h, h);
  }

  lemma ResponseClock(cfg: Config, base: int, a: App, key: int, data: int, sn: string, env: Env, h: int -> seq<Signal>)
    requires Inv(cfg, a) && env.FailureFree() && ClocksOk(base, a, h)
    ensures ClocksOk(base, Step(cfg, a, ResolverResponse(key, data, sn), env), h)
  {
    var b := Step(cfg, a, ResolverResponse(key, data, sn), env);
    ResponseEffect(cfg, a, key, data, sn, env);
    forall id | base <= id && id in b.store.calls ensures RowClock(b.store.calls[id], h(id)) {
      assert RowClock(a.store.calls[id], h(id));
    }
    forall k | k in b.active
      ensures base <= b.active[k].dbKey && ClockAgrees(b.active[k].progress, h(b.active[k].dbKey))
    {
      NameSets(a.active[k], key, data, sn);
    }
  }

  lemma StepClock(cfg: Config, base: int, a: App, ev: AppEvent, env: Env,
                  h: int -> seq<Signal>, h': int -> seq<Signal>)
    requires Inv(cfg, a) && env.FailureFree() && ClocksOk(base, a, h) && h(a.store.nextId) == []
    requires forall id :: h'(id) == h(id) + Signals(DeliveredBy(a, ev, id), env.now)
    ensures ClocksOk(base, Step(cfg, a, ev, env), h')
  {
    forall id ensures h'(id) == AfterEvent(a, ev, env, id, h(id)) {
      OneSignal(a, ev, env, id, h(id));
    }
    match ev
    case NewCall(_, _, _, _) =>
      NewCallClock(cfg, base, a, ev, env, h, h');
    case CallStatusUpdate(pid, cid, status) =>
      var k := Key(pid, cid);
      if k in a.active && status != Idle {
        StatusClock(cfg, base, a, k, status, env, h, h');
      }
    case CallInfoUpdate(pid, cid, info) =>
      if Key(pid, cid) in a.active {
        InfoClock(cfg, base, a, Key(pid, cid), info, env, h');
      }
    case ResolverResponse(key, data, sn) =>
      ResponseClock(cfg, base, a, key, data, sn, env, h');
  }

  ghost function AfterEvent(a: App, ev: AppEvent, env: Env, id: int, h: seq<Signal>): seq<Signal> {
    if DeliveredBy(a, ev, id) == [] then h else h + [Signal(DeliveredBy(a, ev, id)[0], env.now)]
  }

  lemma OneSignal(a: App, ev: AppEvent, env: Env, id: int, h: seq<Signal>)
    ensures h + Signals(DeliveredBy(a, ev, id), env.now) == AfterEvent(a, ev, env, id, h)
  {
    assert |DeliveredBy(a, ev, id)| <= 1;
  }

  lemma {:induction false} RunClocks(cfg: Config, a: App, steps: seq<Timed>)
    requires Started(cfg, a) && FailureFree(steps)
    ensures ClocksOk(a.store.nextId, Run(cfg, a, steps), id => Heard(cfg, a, steps, id))
  {
    if steps != [] {
      var front, last := steps[..|steps| - 1], steps[|steps| - 1];
      RunClocks(cfg, a, front);
      RunKeepsInv(cfg, a, front);
      var b := Run(cfg, a, front);
      OriginOfActive(cfg, a, front, b.store.nextId);
      HeardIsDelivered(cfg, a, front, b.store.nextId);
      StepClock(cfg, a.store.nextId, b, last.ev, last.env,
                id => Heard(cfg, a, front, id), id => Heard(cfg, a, steps, id));
    }
  }

  /** The begin time and the duration of every row stored in the run: tm2 is the second of the
      last start, and the duration the whole seconds from the start to the last DISCONNECTED
      that had one, or zero. */
  lemma StoredTimes(cfg: Config, a: App, steps: seq<Timed>, id: int)
    requires Started(cfg, a) && FailureFree(steps)
    requires id in Run(cfg, a, steps).store.calls && id >= a.store.nextId
    ensures RowClock(Run(cfg, a, steps).store.calls[id], Heard(cfg, a, steps, id))
  {
    RunClocks(cfg, a, steps);
  }

  /** So when DISCONNECTED comes last, at t2, and the call was last started at t1 <= t2, the row
      says so to the second. */
  lemma StoredDuration(cfg: Config, a: App, steps: seq<Timed>, id: int, i: int)
    requires Started(cfg, a) && FailureFree(steps)
    requires id in Run(cfg, a, steps).store.calls && id >= a.store.nextId
    requires var r, h := Run(cfg, a, steps).store.calls[id], Heard(cfg, a, steps, id);
             h != [] && h[|h| - 1].status == Disconnected && LastStart(r.jtype, h, i) && h[i].at <= h[|h| - 1].at
    ensures var r, h := Run(cfg, a, steps).store.calls[id], Heard(cfg, a, steps, id);
            var t1, t2 := h[i].at, h[|h| - 1].at;
            && 1000 * r.dur <= t2 - t1 < 1000 * (r.dur + 1)
            && r.tm2.Some? && 1000 * r.tm2.value <= t1 < 1000 * (r.tm2.value + 1)
  {
    StoredTimes(cfg, a, steps, id);
    DurationOfLast(Run(cfg, a, steps).store.calls[id], Heard(cfg, a, steps, id), i);
  }

  lemma DurationOfLast(r: Row, h: seq<Signal>, i: int)
    requires RowClock(r, h) && h != [] && h[|h| - 1].status == Disconnected
    requires LastStart(r.jtype, h, i) && h[i].at <= h[|h| - 1].at
    ensures 1000 * r.dur <= h[|h| - 1].at - h[i].at < 1000 * (r.dur + 1)
    ensures r.tm2.Some? && 1000 * r.tm2.value <= h[i].at < 1000 * (r.tm2.value + 1)
  {
    LastIsEnd(r.jtype, h, i);
  }

  lemma LastStartInFront(t: JType, h: seq<Signal>, i: int)
    requires h != [] && h[|h| - 1].status == Disconnected
    ensures LastStart(t, h, i) <==> LastStart(t, h[..|h| - 1], i)
  {
    var n := |h| - 1;
    var front := h[..n];
    assert h == front + [h[n]];
    forall j | 0 <= j < n ensures StartsAt(t, h, j) <==> StartsAt(t, front, j) {
      StartsAtFront(t, front, h[n], j);
    }
  }

  lemma OneLastStart(t: JType, h: seq<Signal>, i: int, j: int)
    requires LastStart(t, h, i) && LastStart(t, h, j)
    ensures i == j
  {
  }

  lemma LastIsEnd(t: JType, h: seq<Signal>, i: int)
    requires h != [] && h[|h| - 1].status == Disconnected && LastStart(t, h, i)
    ensures LastEnd(t, h, i, |h| - 1)
    ensures forall i', j' :: LastEnd(t, h, i', j') ==> i' == i && j' == |h| - 1
    ensures forall begin :: BeginIs(t, h, begin) ==> begin == Some(h[i].at)
  {
    var n := |h| - 1;
    LastStartInFront(t, h, i);
    assert EndsAt(t, h, i, n);
    forall i', j' | LastEnd(t, h, i', j') ensures i' == i && j' == n {
      assert j' == n;
      OneLastStart(t, h[..n], i, i');
    }
    forall begin | BeginIs(t, h, begin) ensures begin == Some(h[i].at) {
      OneBegin(t, h, i, begin);
    }
  }

  lemma OneBegin(t: JType, h: seq<Signal>, i: int, begin: Option<int>)
    requires LastStart(t, h, i) && BeginIs(t, h, begin)
    ensures begin == Some(h[i].at)
  {
    assert StartsAt(t, h, i);
    if begin.Some? {
      var j :| LastStart(t, h, j) && h[j].at == begin.value;
      OneLastStart(t, h, i, j);
    }
  }
}
