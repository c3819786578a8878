/** Properties of whole runs of the application's event handlers. */
module CallRuns {
  import opened Common
  import opened CallTypes
  import opened JournalEntries
  import opened JournalStore
  import opened MainApps

  // ----- What the stored result means -----

  /** The statuses that one event delivers to the entry with key `id`. */
  ghost function DeliveredBy(a: App, ev: AppEvent, id: int): seq<CallStatus> {
    match ev
    case NewCall(_, _, _, status) => if id == a.store.nextId then [status] else []
    case CallStatusUpdate(pid, cid, status) =>
      var k := Key(pid, cid);
      if k in a.active && status != Idle && a.active[k].dbKey == id then [status] else []
    case _ => []
  }

  ghost function Delivered(cfg: Config, a: App, steps: seq<Timed>, id: int): seq<CallStatus> {
    if steps == [] then [] else
    var front := steps[..|steps| - 1];
    Delivered(cfg, a, front, id) + DeliveredBy(Run(cfg, a, front), steps[|steps| - 1].ev, id)
  }

  /** The result is the verdict on the statuses, and only DISCONNECTED brings a duration. */
  ghost predicate RowAgrees(r: Row, delivered: seq<CallStatus>) {
    r.result == Verdict(r.jtype, delivered) && (Disconnected !in delivered ==> r.dur == 0)
  }

  /** With `d` the statuses delivered so far, every row inserted since key `base` and every
      active entry carries the result and the duration that its statuses call for. */
  ghost predicate HistoryOk(base: int, a: App, d: int -> seq<CallStatus>) {
    && base <= a.store.nextId
    && (forall id :: base <= id && id in a.store.calls ==>
          RowAgrees(a.store.calls[id], d(id)))
    && (forall k :: k in a.active ==> base <= a.active[k].dbKey && Agrees(a.active[k].progress, d(a.active[k].dbKey)))
    && (forall id :: id >= a.store.nextId ==> d(id) == [])
  }

  lemma SaveActiveHistory(cfg: Config, base: int, a: App, k: Key, e: Entry, env: Env,
                          d: int -> seq<CallStatus>, d': int -> seq<CallStatus>)
    requires Inv(cfg, a) && env.FailureFree() && k in a.active && Pending(a.store, a.active[k], e)
    requires HistoryOk(base, a, d)
    requires Agrees(e.progress, d'(e.dbKey)) && forall id :: id != e.dbKey ==> d'(id) == d(id)
    ensures HistoryOk(base, SaveActive(cfg, a, k, e, env), d')
  {
    SaveFacts(cfg.like, a.store, e, env);
  }

  lemma NewEntryAgrees(ev: AppEvent, now: int)
    requires ev.NewCall?
    ensures Agrees(NewEntry(ev.pid, ev.cid, ev.ctype, ev.status, now).progress, [ev.status])
  {
    var start := FreshEntry(ev.pid, ev.cid, JournalType(ev.ctype), now).progress;
    assert Agrees(start, []);
    NextAgrees(start, [], ev.status, now);
    assert [] + [ev.status] == [ev.status];
  }

  lemma NewCallHistory(cfg: Config, base: int, a: App, ev: AppEvent, env: Env,
                       d: int -> seq<CallStatus>, d': int -> seq<CallStatus>)
    requires Inv(cfg, a) && env.FailureFree() && HistoryOk(base, a, d) && ev.NewCall?
    requires forall id :: d'(id) == if id == a.store.nextId then [ev.status] else d(id)
    ensures HistoryOk(base, Step(cfg, a, ev, env), d')
  {
    var e := NewEntry(ev.pid, ev.cid, ev.ctype, ev.status, env.now);
    NewEntryAgrees(ev, env.now);
    SaveFacts(cfg.like, a.store, e, env);
    var b, f := Step(cfg, a, ev, env), InsertUpdate(cfg.like, a.store, e, env).1;
    forall id | base <= id && id in b.store.calls ensures RowAgrees(b.store.calls[id], d'(id)) {
      if id == f.dbKey {
        assert b.store.calls[id] == f.ToRow();
      }
    }
  }

  lemma StatusHistory(cfg: Config, base: int, a: App, k: Key, status: CallStatus, env: Env,
                      d: int -> seq<CallStatus>, d': int -> seq<CallStatus>)
    requires Inv(cfg, a) && env.FailureFree() && HistoryOk(base, a, d) && k in a.active && status != Idle
    requires forall id :: d'(id) == if id == a.active[k].dbKey then d(id) + [status] else d(id)
    ensures HistoryOk(base, Step(cfg, a, CallStatusUpdate(k.pid, k.cid, status), env), d')
  {
    var e := a.active[k];
    NextAgrees(e.progress, d(e.dbKey), status, env.now);
    SetStatePending(a.store, e, JournalState(status), env.now);
    SaveActiveHistory(cfg, base, a, k, e.SetState(JournalState(status), env.now), env, d, d');
  }

  lemma StepHistory(cfg: Config, base: int, a: App, ev: AppEvent, env: Env,
                    d: int -> seq<CallStatus>, d': int -> seq<CallStatus>)
    requires Inv(cfg, a) && env.FailureFree() && HistoryOk(base, a, d)
    requires forall id :: d'(id) == d(id) + DeliveredBy(a, ev, id)
    ensures HistoryOk(base, Step(cfg, a, ev, env), d')
  {
    forall id | DeliveredBy(a, ev, id) == [] ensures d'(id) == d(id) {
      assert d(id) + [] == d(id);
    }
    match ev
    case NewCall(_, _, _, status) =>
      assert d(a.store.nextId) + [status] == [status];
      NewCallHistory(cfg, base, a, ev, env, d, d');
    case CallStatusUpdate(pid, cid, status) =>
      var k := Key(pid, cid);
      if k in a.active && status != Idle {
        StatusHistory(cfg, base, a, k, status, env, d, d');
      }
    case CallInfoUpdate(pid, cid, info) =>
      var k := Key(pid, cid);
      if k in a.active {
        InfoHistory(cfg, base, a, k, info, env, d, d');
      }
    case ResolverResponse(key, data, sn) =>
      ResponseHistory(cfg, base, a, key, data, sn, env, d, d');
  }

  lemma InfoHistory(cfg: Config, base: int, a: App, k: Key, info: CallInfo, env: Env,
                    d: int -> seq<CallStatus>, d': int -> seq<CallStatus>)
    requires Inv(cfg, a) && env.FailureFree() && HistoryOk(base, a, d) && k in a.active
    requires forall id :: d'(id) == d(id)
    ensures HistoryOk(base, Step(cfg, a, CallInfoUpdate(k.pid, k.cid, info), env), d')
  {
    MergeInfoPending(cfg, a.store, a.active[k], info);
    var (e, requests) := MergeInfo(cfg, a.active[k], info);
    SaveActiveHistory(cfg, base, a.(requests := a.requests + requests), k, e, env, d, d');
  }

  lemma ResponseHistory(cfg: Config, base: int, a: App, key: int, data: int, sn: string, env: Env,
                        d: int -> seq<CallStatus>, d': int -> seq<CallStatus>)
    requires Inv(cfg, a) && env.FailureFree() && HistoryOk(base, a, d)
    requires forall id :: d'(id) == d(id)
    ensures HistoryOk(base, Step(cfg, a, ResolverResponse(key, data, sn), env), d')
  {
    var b := Step(cfg, a, ResolverResponse(key, data, sn), env);
    ResponseEffect(cfg, a, key, data, sn, env);
    forall id | base <= id && id in b.store.calls ensures RowAgrees(b.store.calls[id], d'(id)) {
      assert RowAgrees(a.store.calls[id], d(id));
    }
    forall k | k in b.active
      ensures base <= b.active[k].dbKey && Agrees(b.active[k].progress, d'(b.active[k].dbKey))
    {
      NameSets(a.active[k], key, data, sn);
    }
  }

  lemma {:induction false} RunHistory(cfg: Config, a: App, steps: seq<Timed>)
    requires Started(cfg, a) && FailureFree(steps)
    ensures Inv(cfg, Run(cfg, a, steps))
    ensures HistoryOk(a.store.nextId, Run(cfg, a, steps), id => Delivered(cfg, a, steps, id))
  {
    RunKeepsInv(cfg, a, steps);
    if steps != [] {
      var front, last := steps[..|steps| - 1], steps[|steps| - 1];
      RunHistory(cfg, a, front);
      StepHistory(cfg, a.store.nextId, Run(cfg, a, front), last.ev, last.env,
                  id => Delivered(cfg, a, front, id), id => Delivered(cfg, a, steps, id));
    }
  }

  lemma RowHistory(cfg: Config, a: App, steps: seq<Timed>, id: int)
    requires Started(cfg, a) && FailureFree(steps)
    requires id in Run(cfg, a, steps).store.calls && id >= a.store.nextId
    ensures RowAgrees(Run(cfg, a, steps).store.calls[id], Delivered(cfg, a, steps, id))
  {
    RunHistory(cfg, a, steps);
  }

  /** A call stored during the run is listed under "Calls in absence" if and only if it is
      incoming and no CONNECTED status was ever delivered to its entry. */
  lemma AbsenceMeansNeverConnected(cfg: Config, a: App, steps: seq<Timed>, id: int)
    requires Started(cfg, a) && FailureFree(steps)
    requires id in Run(cfg, a, steps).store.calls && id >= a.store.nextId
    ensures var r := Run(cfg, a, steps).store.calls[id];
            InFilter(CallsInAbsence, r) <==> r.jtype == JIncoming && Connected !in Delivered(cfg, a, steps, id)
  {
    RowHistory(cfg, a, steps, id);
  }

  /** The result stored for an outgoing call is decided by the last pending, connected or
      busy status delivered to it; before any of these it is unknown. */
  lemma OutgoingResultIsLastDecisive(cfg: Config, a: App, steps: seq<Timed>, id: int)
    requires Started(cfg, a) && FailureFree(steps)
    requires id in Run(cfg, a, steps).store.calls && id >= a.store.nextId
    requires Run(cfg, a, steps).store.calls[id].jtype == JOutgoing
    ensures var r := Run(cfg, a, steps).store.calls[id].result;
            var d := Delivered(cfg, a, steps, id);
            (r == JrUnknown <==> NoneDecisive(d)) && (r != JrUnknown ==> DecidedByLatest(d, r))
  {
    RowHistory(cfg, a, steps, id);
    LastDecisiveIsLast(Delivered(cfg, a, steps, id));
  }

  /** A call has no duration unless DISCONNECTED was delivered to its entry. */
  lemma DurationNeedsDisconnect(cfg: Config, a: App, steps: seq<Timed>, id: int)
    requires Started(cfg, a) && FailureFree(steps)
    requires id in Run(cfg, a, steps).store.calls && id >= a.store.nextId
    requires Disconnected !in Delivered(cfg, a, steps, id)
    ensures Run(cfg, a, steps).store.calls[id].dur == 0
  {
    RowHistory(cfg, a, steps, id);
  }

  // ----- Resolver answers -----

  /** The table after an answer, in one formula for the early and the late answer. */
  function NameInRow(calls: map<int, Row>, key: int, data: int, sn: string): map<int, Row> {
    if key !in calls then calls
    else if data == RESOLVE_CALLER then calls[key := calls[key].(cln := sn)]
    else if data == RESOLVE_CALLED then calls[key := calls[key].(cdn := sn)]
    else calls
  }

  function NameInActive(active: map<Key, Entry>, key: int, data: int, sn: string): map<Key, Entry> {
    map k | k in active :: NameIfKey(active[k], key, data, sn)
  }

  function NameIfKey(e: Entry, key: int, data: int, sn: string): Entry {
    if e.dbKey == key then SetResolvedName(e, data, sn).(dirty := false) else e
  }

  /** Whether the call is still active or already gone, an answer changes the name column
      of the row with its key, and no other row or column. */
  lemma ResponseEffect(cfg: Config, a: App, key: int, data: int, sn: string, env: Env)
    requires Inv(cfg, a) && env.FailureFree()
    ensures var b := Step(cfg, a, ResolverResponse(key, data, sn), env);
            && b.store.calls == NameInRow(a.store.calls, key, data, sn)
            && b.active == NameInActive(a.active, key, data, sn)
            && b.requests == a.requests && b.store.nextId == a.store.nextId
            && b.store.search == a.store.search && b.store.current == a.store.current
  {
    if k :| FindActive(a.active, key) == Some(k) {
      EarlyAnswer(cfg, a, k, key, data, sn, env);
    } else {
      NoActive(a.active, key);
      assert NameInActive(a.active, key, data, sn) == a.active;
      if key in a.store.calls {
        var e := EntryOfRow(key, a.store.calls[key]);
        RowRoundTrip(key, a.store.calls[key]);
        SaveFacts(cfg.like, a.store, SetResolvedName(e, data, sn), env);
      }
    }
  }

  lemma EarlyAnswer(cfg: Config, a: App, k: Key, key: int, data: int, sn: string, env: Env)
    requires Inv(cfg, a) && env.FailureFree() && FindActive(a.active, key) == Some(k)
    ensures var b := SaveActive(cfg, a, k, SetResolvedName(a.active[k], data, sn), env);
            && b.store.calls == NameInRow(a.store.calls, key, data, sn)
            && b.active == NameInActive(a.active, key, data, sn)
            && b.requests == a.requests && b.store.nextId == a.store.nextId
            && b.store.search == a.store.search && b.store.current == a.store.current
  {
    var e := SetResolvedName(a.active[k], data, sn);
    ResolvedNamePending(a.store, a.active[k], data, sn);
    SaveFacts(cfg.like, a.store, e, env);
  }

  /** What a status update other than TCALL_IDLE does to an active call. */
  lemma StatusEffect(cfg: Config, a: App, k: Key, status: CallStatus, env: Env)
    requires Inv(cfg, a) && env.FailureFree() && k in a.active && status != Idle
    ensures var b := Step(cfg, a, CallStatusUpdate(k.pid, k.cid, status), env);
            var e := a.active[k].SetState(JournalState(status), env.now);
            && b.active == a.active[k := e.(dirty := false)]
            && b.store.calls == Updated(a.store.calls, e)
            && b.requests == a.requests && b.store.nextId == a.store.nextId
            && b.store.search == a.store.search && b.store.current == a.store.current
  {
    var e := a.active[k].SetState(JournalState(status), env.now);
    SetStatePending(a.store, a.active[k], JournalState(status), env.now);
    SaveFacts(cfg.like, a.store, e, env);
  }

  /** An answer and another event do not get in each other's way: the event is not another
      answer for the same party, and if it brings particulars of the same call, then the
      answer belongs to a lookup that the call has issued, and it is not an empty name against
      a name that the particulars bring. */
  ghost predicate Independent(a: App, r: AppEvent, s: AppEvent)
    requires r.ResolverResponse?
  {
    match s
    case NewCall(_, _, _, _) => r.key != a.store.nextId
    case CallStatusUpdate(_, _, _) => true
    case CallInfoUpdate(pid, cid, info) =>
      var k := Key(pid, cid);
      k in a.active && a.active[k].dbKey == r.key ==> Flag(a.active[k], r.data) && NameHolds(r.sn, info, r.data)
    case ResolverResponse(key, data, _) => key != r.key || data != r.data
  }

  function PartyName(info: CallInfo, data: int): string {
    if data == RESOLVE_CALLER then info.callerName else info.calledName
  }

  ghost predicate NameHolds(sn: string, info: CallInfo, data: int) {
    sn != "" || PartyName(info, data) == ""
  }

  /** The call has issued the lookup for this party. */
  ghost function Flag(e: Entry, data: int): bool {
    if data == RESOLVE_CALLER then e.resolvingCaller else data == RESOLVE_CALLED && e.resolvingCalled
  }

  // On the rows and the entries alone.

  /** An entry is changed and the change is written, before or after the naming. */
  lemma NameAndUpdate(calls: map<int, Row>, f: Entry, g: Entry, key: int, data: int, sn: string)
    requires g.(dirty := false) == NameIfKey(f.(dirty := false), key, data, sn)
    ensures Updated(NameInRow(calls, key, data, sn), g) == NameInRow(Updated(calls, f), key, data, sn)
  {
    NamedRow(f, g, key, data, sn);
  }

  lemma NamedRow(f: Entry, g: Entry, key: int, data: int, sn: string)
    requires g.(dirty := false) == NameIfKey(f.(dirty := false), key, data, sn)
    ensures g.dbKey == f.dbKey
    ensures g.ToRow() == if f.dbKey != key then f.ToRow()
                         else if data == RESOLVE_CALLER then f.ToRow().(cln := sn)
                         else if data == RESOLVE_CALLED then f.ToRow().(cdn := sn)
                         else f.ToRow()
  {
    assert g.ToRow() == g.(dirty := false).ToRow();
  }

  lemma NameKeepsOthers(active: map<Key, Entry>, k: Key, f: Entry, key: int, data: int, sn: string)
    ensures NameInActive(active[k := f], key, data, sn)
            == NameInActive(active, key, data, sn)[k := NameIfKey(f, key, data, sn)]
  {
  }

  lemma NameAndState(e: Entry, key: int, data: int, sn: string, st: JState, now: int)
    ensures var f, g := e.SetState(st, now), NameIfKey(e, key, data, sn).SetState(st, now);
            g.(dirty := false) == NameIfKey(f.(dirty := false), key, data, sn)
  {
  }

  /** Particulars of the same call do not replace a name that is there, and ask for nothing
      that has been asked. */
  lemma NameAndInfo(cfg: Config, e: Entry, info: CallInfo, key: int, data: int, sn: string)
    requires e.dbKey == key ==> Flag(e, data) && NameHolds(sn, info, data)
    ensures var (f, rs) := MergeInfo(cfg, e, info);
            var (g, ts) := MergeInfo(cfg, NameIfKey(e, key, data, sn), info);
            rs == ts && g.(dirty := false) == NameIfKey(f.(dirty := false), key, data, sn)
  {
    if e.dbKey == key {
      var n := NameIfKey(e, key, data, sn);
      NameAndNames(e, n, info, key, data, sn);
      var f1, g1 := MergeNames(e, info), MergeNames(n, info);
      NameAndCalled(cfg, f1, g1, info, key, data, sn);
      NameAndCaller(cfg, MergeCalled(cfg, f1, info).0, MergeCalled(cfg, g1, info).0, info, key, data, sn);
    } else {
      MergeKeepsKey(cfg, e, info);
    }
  }

  lemma MergeKeepsKey(cfg: Config, e: Entry, info: CallInfo)
    ensures MergeInfo(cfg, e, info).0.dbKey == e.dbKey
  {
  }

  /** g is f with the name of the answer, which belongs to a lookup of theirs. */
  ghost predicate Named(f: Entry, g: Entry, key: int, data: int, sn: string) {
    && f.dbKey == key && Flag(f, data)
    && g.(dirty := false) == NameIfKey(f.(dirty := false), key, data, sn)
  }

  lemma NameAndNames(f: Entry, g: Entry, info: CallInfo, key: int, data: int, sn: string)
    requires Named(f, g, key, data, sn) && NameHolds(sn, info, data)
    ensures Named(MergeNames(f, info), MergeNames(g, info), key, data, sn)
  {
  }

  lemma NameAndCalled(cfg: Config, f: Entry, g: Entry, info: CallInfo, key: int, data: int, sn: string)
    requires Named(f, g, key, data, sn)
    ensures Named(MergeCalled(cfg, f, info).0, MergeCalled(cfg, g, info).0, key, data, sn)
    ensures MergeCalled(cfg, f, info).1 == MergeCalled(cfg, g, info).1
  {
  }

  lemma NameAndCaller(cfg: Config, f: Entry, g: Entry, info: CallInfo, key: int, data: int, sn: string)
    requires Named(f, g, key, data, sn)
    ensures Named(MergeCaller(cfg, f, info).0, MergeCaller(cfg, g, info).0, key, data, sn)
    ensures MergeCaller(cfg, f, info).1 == MergeCaller(cfg, g, info).1
  {
  }

  /** The purge looks at ids and times only. */
  lemma NameAndPurge(calls: map<int, Row>, env: Env, key: int, data: int, sn: string)
    ensures Purged(NameInRow(calls, key, data, sn), env) == NameInRow(Purged(calls, env), key, data, sn)
  {
    var named := NameInRow(calls, key, data, sn);
    var aged, agedNamed := AfterAgeRule(calls, env.prefs, env.now), AfterAgeRule(named, env.prefs, env.now);
    assert agedNamed == NameInRow(aged, key, data, sn);
    assert agedNamed.Keys == aged.Keys;
    assert AfterCountRule(agedNamed, env.prefs) == NameInRow(AfterCountRule(aged, env.prefs), key, data, sn);
  }

  lemma NameAndInsert(calls: map<int, Row>, id: int, row: Row, env: Env, key: int, data: int, sn: string)
    requires id != key
    ensures Purged(NameInRow(calls, key, data, sn)[id := row], env)
            == NameInRow(Purged(calls[id := row], env), key, data, sn)
  {
    assert NameInRow(calls, key, data, sn)[id := row] == NameInRow(calls[id := row], key, data, sn);
    NameAndPurge(calls[id := row], env, key, data, sn);
  }

  // On the application.

  lemma InfoEffect(cfg: Config, a: App, k: Key, info: CallInfo, env: Env)
    requires Inv(cfg, a) && env.FailureFree() && k in a.active
    ensures var b := Step(cfg, a, CallInfoUpdate(k.pid, k.cid, info), env);
            var (f, rs) := MergeInfo(cfg, a.active[k], info);
            && b.active == a.active[k := f.(dirty := false)]
            && b.store.calls == Updated(a.store.calls, f)
            && b.requests == a.requests + rs && b.store.nextId == a.store.nextId
            && b.store.search == a.store.search && b.store.current == a.store.current
  {
    var (f, rs) := MergeInfo(cfg, a.active[k], info);
    MergeInfoPending(cfg, a.store, a.active[k], info);
    SaveFacts(cfg.like, a.store, f, env);
  }

  lemma NewCallEffect(cfg: Config, a: App, ev: AppEvent, env: Env)
    requires Inv(cfg, a) && env.FailureFree() && ev.NewCall?
    ensures var b := Step(cfg, a, ev, env);
            var k := Key(ev.pid, ev.cid);
            var e := NewEntry(ev.pid, ev.cid, ev.ctype, ev.status, env.now).(dbKey := a.store.nextId, dirty := false);
            && b.active == (if k in a.active then a.active else a.active[k := e])
            && b.store.calls == Purged(a.store.calls[a.store.nextId := e.ToRow()], env)
            && b.requests == a.requests && b.store.nextId == a.store.nextId + 1
            && b.store.search == a.store.search && b.store.current == a.store.current
  {
  }

  lemma ResponseAndIdleCommute(cfg: Config, a: App, r: Timed, s: Timed)
    requires Inv(cfg, a) && r.env.FailureFree() && s.env.FailureFree()
    requires r.ev.ResolverResponse? && s.ev.CallStatusUpdate? && s.ev.status == Idle
    ensures Step(cfg, Step(cfg, a, r.ev, r.env), s.ev, s.env) == Step(cfg, Step(cfg, a, s.ev, s.env), r.ev, r.env)
  {
    var key, data, sn := r.ev.key, r.ev.data, r.ev.sn;
    var k := Key(s.ev.pid, s.ev.cid);
    var as_ := Step(cfg, a, s.ev, s.env);
    StepKeepsInv(cfg, a, s.ev, s.env);
    ResponseEffect(cfg, a, key, data, sn, r.env);
    ResponseEffect(cfg, as_, key, data, sn, r.env);
    assert NameInActive(a.active, key, data, sn) - {k} == NameInActive(a.active - {k}, key, data, sn);
    BothOrders(cfg, a, r, s);
  }

  /** After two steps in either order the invariant holds, so equal parts are enough. */
  lemma BothOrders(cfg: Config, a: App, r: Timed, s: Timed)
    requires Inv(cfg, a) && r.env.FailureFree() && s.env.FailureFree()
    ensures var rs := Step(cfg, Step(cfg, a, r.ev, r.env), s.ev, s.env);
            var sr := Step(cfg, Step(cfg, a, s.ev, s.env), r.ev, r.env);
            rs.active == sr.active && rs.requests == sr.requests && rs.store.calls == sr.store.calls
            && rs.store.nextId == sr.store.nextId && rs.store.search == sr.store.search
            && rs.store.current == sr.store.current
            ==> rs == sr
  {
    var ar, as_ := Step(cfg, a, r.ev, r.env), Step(cfg, a, s.ev, s.env);
    StepKeepsInv(cfg, a, r.ev, r.env);
    StepKeepsInv(cfg, a, s.ev, s.env);
    StepKeepsInv(cfg, ar, s.ev, s.env);
    StepKeepsInv(cfg, as_, r.ev, r.env);
  }

  lemma ResponseAndProgressCommute(cfg: Config, a: App, r: Timed, s: Timed)
    requires Inv(cfg, a) && r.env.FailureFree() && s.env.FailureFree()
    requires r.ev.ResolverResponse? && s.ev.CallStatusUpdate? && s.ev.status != Idle
    requires Key(s.ev.pid, s.ev.cid) in a.active
    ensures Step(cfg, Step(cfg, a, r.ev, r.env), s.ev, s.env) == Step(cfg, Step(cfg, a, s.ev, s.env), r.ev, r.env)
  {
    var key, data, sn := r.ev.key, r.ev.data, r.ev.sn;
    var k, st, now := Key(s.ev.pid, s.ev.cid), JournalState(s.ev.status), s.env.now;
    var ar, as_ := Step(cfg, a, r.ev, r.env), Step(cfg, a, s.ev, s.env);
    var e := a.active[k];
    var f, g := e.SetState(st, now), NameIfKey(e, key, data, sn).SetState(st, now);
    StepKeepsInv(cfg, a, r.ev, r.env);
    StepKeepsInv(cfg, a, s.ev, s.env);
    ResponseEffect(cfg, a, key, data, sn, r.env);
    StatusEffect(cfg, ar, k, s.ev.status, s.env);
    StatusEffect(cfg, a, k, s.ev.status, s.env);
    ResponseEffect(cfg, as_, key, data, sn, r.env);
    NameAndState(e, key, data, sn, st, now);
    NameAndUpdate(a.store.calls, f, g, key, data, sn);
    NameKeepsOthers(a.active, k, f.(dirty := false), key, data, sn);
    BothOrders(cfg, a, r, s);
  }

  lemma ResponseAndInfoCommute(cfg: Config, a: App, r: Timed, s: Timed)
    requires Inv(cfg, a) && r.env.FailureFree() && s.env.FailureFree()
    requires r.ev.ResolverResponse? && s.ev.CallInfoUpdate? && Independent(a, r.ev, s.ev)
    requires Key(s.ev.pid, s.ev.cid) in a.active
    ensures Step(cfg, Step(cfg, a, r.ev, r.env), s.ev, s.env) == Step(cfg, Step(cfg, a, s.ev, s.env), r.ev, r.env)
  {
    var key, data, sn := r.ev.key, r.ev.data, r.ev.sn;
    var k := Key(s.ev.pid, s.ev.cid);
    var ar, as_ := Step(cfg, a, r.ev, r.env), Step(cfg, a, s.ev, s.env);
    var e := a.active[k];
    var f, g := MergeInfo(cfg, e, s.ev.info).0, MergeInfo(cfg, NameIfKey(e, key, data, sn), s.ev.info).0;
    StepKeepsInv(cfg, a, r.ev, r.env);
    StepKeepsInv(cfg, a, s.ev, s.env);
    ResponseEffect(cfg, a, key, data, sn, r.env);
    InfoEffect(cfg, ar, k, s.ev.info, s.env);
    InfoEffect(cfg, a, k, s.ev.info, s.env);
    ResponseEffect(cfg, as_, key, data, sn, r.env);
    NameAndInfo(cfg, e, s.ev.info, key, data, sn);
    NameAndUpdate(a.store.calls, f, g, key, data, sn);
    NameKeepsOthers(a.active, k, f.(dirty := false), key, data, sn);
    BothOrders(cfg, a, r, s);
  }

  lemma ResponseAndNewCallCommute(cfg: Config, a: App, r: Timed, s: Timed)
    requires Inv(cfg, a) && r.env.FailureFree() && s.env.FailureFree()
    requires r.ev.ResolverResponse? && s.ev.NewCall? && Independent(a, r.ev, s.ev)
    ensures Step(cfg, Step(cfg, a, r.ev, r.env), s.ev, s.env) == Step(cfg, Step(cfg, a, s.ev, s.env), r.ev, r.env)
  {
    var key, data, sn := r.ev.key, r.ev.data, r.ev.sn;
    var ar, as_ := Step(cfg, a, r.ev, r.env), Step(cfg, a, s.ev, s.env);
    var id := a.store.nextId;
    var e := NewEntry(s.ev.pid, s.ev.cid, s.ev.ctype, s.ev.status, s.env.now).(dbKey := id, dirty := false);
    StepKeepsInv(cfg, a, r.ev, r.env);
    StepKeepsInv(cfg, a, s.ev, s.env);
    ResponseEffect(cfg, a, key, data, sn, r.env);
    NewCallEffect(cfg, ar, s.ev, s.env);
    NewCallEffect(cfg, a, s.ev, s.env);
    ResponseEffect(cfg, as_, key, data, sn, r.env);
    NameAndInsert(a.store.calls, id, e.ToRow(), s.env, key, data, sn);
    NameKeepsOthers(a.active, Key(s.ev.pid, s.ev.cid), e, key, data, sn);
    BothOrders(cfg, a, r, s);
  }

  lemma ResponsesCommute(cfg: Config, a: App, r: Timed, s: Timed)
    requires Inv(cfg, a) && r.env.FailureFree() && s.env.FailureFree()
    requires r.ev.ResolverResponse? && s.ev.ResolverResponse? && Independent(a, r.ev, s.ev)
    ensures Step(cfg, Step(cfg, a, r.ev, r.env), s.ev, s.env) == Step(cfg, Step(cfg, a, s.ev, s.env), r.ev, r.env)
  {
    var ar, as_ := Step(cfg, a, r.ev, r.env), Step(cfg, a, s.ev, s.env);
    StepKeepsInv(cfg, a, r.ev, r.env);
    StepKeepsInv(cfg, a, s.ev, s.env);
    ResponseEffect(cfg, a, r.ev.key, r.ev.data, r.ev.sn, r.env);
    ResponseEffect(cfg, ar, s.ev.key, s.ev.data, s.ev.sn, s.env);
    ResponseEffect(cfg, a, s.ev.key, s.ev.data, s.ev.sn, s.env);
    ResponseEffect(cfg, as_, r.ev.key, r.ev.data, r.ev.sn, r.env);
    NamesInRows(a.store.calls, r.ev, s.ev);
    NamesInActive(a.active, r.ev, s.ev);
    BothOrders(cfg, a, r, s);
  }

  lemma NamesInRows(calls: map<int, Row>, r: AppEvent, s: AppEvent)
    requires r.ResolverResponse? && s.ResolverResponse? && (r.key != s.key || r.data != s.data)
    ensures NameInRow(NameInRow(calls, r.key, r.data, r.sn), s.key, s.data, s.sn)
            == NameInRow(NameInRow(calls, s.key, s.data, s.sn), r.key, r.data, r.sn)
  {
  }

  lemma NamesInActive(active: map<Key, Entry>, r: AppEvent, s: AppEvent)
    requires r.ResolverResponse? && s.ResolverResponse? && (r.key != s.key || r.data != s.data)
    ensures NameInActive(NameInActive(active, r.key, r.data, r.sn), s.key, s.data, s.sn)
            == NameInActive(NameInActive(active, s.key, s.data, s.sn), r.key, r.data, r.sn)
  {
    forall k | k in active
      ensures NameIfKey(NameIfKey(active[k], r.key, r.data, r.sn), s.key, s.data, s.sn)
              == NameIfKey(NameIfKey(active[k], s.key, s.data, s.sn), r.key, r.data, r.sn)
    {
      NamesInEntry(active[k], r, s);
    }
  }

  lemma NamesInEntry(e: Entry, r: AppEvent, s: AppEvent)
    requires r.ResolverResponse? && s.ResolverResponse? && (r.key != s.key || r.data != s.data)
    ensures NameIfKey(NameIfKey(e, r.key, r.data, r.sn), s.key, s.data, s.sn)
            == NameIfKey(NameIfKey(e, s.key, s.data, s.sn), r.key, r.data, r.sn)
  {
    NameSets(e, r.key, r.data, r.sn);
    NameSets(e, s.key, s.data, s.sn);
    NameSets(NameIfKey(e, r.key, r.data, r.sn), s.key, s.data, s.sn);
    NameSets(NameIfKey(e, s.key, s.data, s.sn), r.key, r.data, r.sn);
  }

  lemma NameSets(e: Entry, key: int, data: int, sn: string)
    ensures NameIfKey(e, key, data, sn)
            == if e.dbKey != key then e
               else if data == RESOLVE_CALLER then e.(dirty := false, callerName := sn)
               else if data == RESOLVE_CALLED then e.(dirty := false, calledName := sn)
               else e.(dirty := false)
  {
  }

  /** For particulars of the answer's own call the condition is exact: an empty name erases
      one that arrived before it, and gives way to one that arrives after it. */
  lemma SameCallCommutesIff(cfg: Config, a: App, r: Timed, s: Timed)
    requires Inv(cfg, a) && r.env.FailureFree() && s.env.FailureFree()
    requires r.ev.ResolverResponse? && s.ev.CallInfoUpdate? && Key(s.ev.pid, s.ev.cid) in a.active
    requires var e := a.active[Key(s.ev.pid, s.ev.cid)]; e.dbKey == r.ev.key && Flag(e, r.ev.data)
    ensures Step(cfg, Step(cfg, a, r.ev, r.env), s.ev, s.env) == Step(cfg, Step(cfg, a, s.ev, s.env), r.ev, r.env)
            <==> NameHolds(r.ev.sn, s.ev.info, r.ev.data)
  {
    if NameHolds(r.ev.sn, s.ev.info, r.ev.data) {
      ResponseAndInfoCommute(cfg, a, r, s);
    } else {
      EmptyNameErases(cfg, a, r, s);
    }
  }

  lemma EmptyNameErases(cfg: Config, a: App, r: Timed, s: Timed)
    requires Inv(cfg, a) && r.env.FailureFree() && s.env.FailureFree()
    requires r.ev.ResolverResponse? && s.ev.CallInfoUpdate? && Key(s.ev.pid, s.ev.cid) in a.active
    requires var e := a.active[Key(s.ev.pid, s.ev.cid)]; e.dbKey == r.ev.key && Flag(e, r.ev.data)
    requires r.ev.sn == "" && PartyName(s.ev.info, r.ev.data) != ""
    ensures var k := Key(s.ev.pid, s.ev.cid);
            var rs := Step(cfg, Step(cfg, a, r.ev, r.env), s.ev, s.env).active;
            var sr := Step(cfg, Step(cfg, a, s.ev, s.env), r.ev, r.env).active;
            && k in rs && StoredName(rs[k], r.ev.data) == PartyName(s.ev.info, r.ev.data)
            && k in sr && StoredName(sr[k], r.ev.data) == ""
  {
    var key, data := r.ev.key, r.ev.data;
    var k := Key(s.ev.pid, s.ev.cid);
    var ar, as_ := Step(cfg, a, r.ev, r.env), Step(cfg, a, s.ev, s.env);
    StepKeepsInv(cfg, a, r.ev, r.env);
    StepKeepsInv(cfg, a, s.ev, s.env);
    ResponseEffect(cfg, a, key, data, "", r.env);
    InfoEffect(cfg, ar, k, s.ev.info, s.env);
    InfoEffect(cfg, a, k, s.ev.info, s.env);
    ResponseEffect(cfg, as_, key, data, "", r.env);
    MergeFillsName(cfg, NameIfKey(a.active[k], key, data, ""), s.ev.info, data);
    MergeKeepsKey(cfg, a.active[k], s.ev.info);
    NameSets(MergeInfo(cfg, a.active[k], s.ev.info).0.(dirty := false), key, data, "");
  }

  function StoredName(e: Entry, data: int): string {
    if data == RESOLVE_CALLER then e.callerName else e.calledName
  }

  lemma MergeFillsName(cfg: Config, e: Entry, info: CallInfo, data: int)
    requires StoredName(e, data) == ""
    ensures StoredName(MergeInfo(cfg, e, info).0, data) == PartyName(info, data)
  {
  }

  /** A resolver answer commutes with every event that is independent of it, whichever call
      the event is about, the end of the answer's own call included: the whole application,
      not only the row, is the same in both orders. */
  lemma ResponseCommutes(cfg: Config, a: App, r: Timed, s: Timed)
    requires Inv(cfg, a) && r.env.FailureFree() && s.env.FailureFree()
    requires r.ev.ResolverResponse? && Independent(a, r.ev, s.ev)
    ensures Step(cfg, Step(cfg, a, r.ev, r.env), s.ev, s.env) == Step(cfg, Step(cfg, a, s.ev, s.env), r.ev, r.env)
  {
    match s.ev
    case NewCall(_, _, _, _) =>
      ResponseAndNewCallCommute(cfg, a, r, s);
    case CallStatusUpdate(pid, cid, status) =>
      if status == Idle {
        ResponseAndIdleCommute(cfg, a, r, s);
      } else if Key(pid, cid) in a.active {
        ResponseAndProgressCommute(cfg, a, r, s);
      } else {
        ResponseEffect(cfg, a, r.ev.key, r.ev.data, r.ev.sn, r.env);
      }
    case CallInfoUpdate(pid, cid, _) =>
      if Key(pid, cid) in a.active {
        ResponseAndInfoCommute(cfg, a, r, s);
      } else {
        ResponseEffect(cfg, a, r.ev.key, r.ev.data, r.ev.sn, r.env);
      }
    case ResolverResponse(_, _, _) =>
      ResponsesCommute(cfg, a, r, s);
  }

  lemma {:induction false} RunAppend(cfg: Config, a: App, p: seq<Timed>, q: seq<Timed>)
    ensures Run(cfg, a, p + q) == Run(cfg, Run(cfg, a, p), q)
  {
    if q == [] {
      assert p + q == p;
    } else {
      LastOfSum(p, q);
      RunAppend(cfg, a, p, q[..|q| - 1]);
    }
  }

  lemma LastOfSum(p: seq<Timed>, q: seq<Timed>)
    requires q != []
    ensures var pq := p + q;
            pq[..|pq| - 1] == p + q[..|q| - 1] && pq[|pq| - 1] == q[|q| - 1]
  {
  }

  lemma RunOne(cfg: Config, a: App, t: Timed)
    ensures Run(cfg, a, [t]) == Step(cfg, a, t.ev, t.env)
  {
    assert [t][..0] == [];
  }

  lemma SwapTwo(cfg: Config, a: App, r: Timed, s: Timed)
    requires Inv(cfg, a) && r.env.FailureFree() && s.env.FailureFree()
    requires r.ev.ResolverResponse? && Independent(a, r.ev, s.ev)
    ensures Run(cfg, a, [r] + [s]) == Run(cfg, a, [s] + [r])
  {
    RunAppend(cfg, a, [r], [s]);
    RunAppend(cfg, a, [s], [r]);
    RunOne(cfg, a, r);
    RunOne(cfg, a, s);
    RunOne(cfg, Run(cfg, a, [r]), s);
    RunOne(cfg, Run(cfg, a, [s]), r);
    ResponseCommutes(cfg, a, r, s);
  }

  lemma Regroup(front: seq<Timed>, x: seq<Timed>, y: seq<Timed>)
    ensures (x + front) + y == x + (front + y) && (front + x) + y == front + (x + y)
  {
  }

  /** Each step of the run is independent of the answer, in the state in which it is taken. */
  ghost predicate Undisturbed(cfg: Config, a: App, r: AppEvent, steps: seq<Timed>)
    requires r.ResolverResponse?
  {
    steps == [] ||
      (Undisturbed(cfg, a, r, steps[..|steps| - 1])
       && Independent(Run(cfg, a, steps[..|steps| - 1]), r, steps[|steps| - 1].ev))
  }

  /** An answer may be overtaken by any run of independent events, up to and beyond the end
      of its call, new calls and purges included, without changing the outcome. */
  lemma {:induction false} LateAnswerSameOutcome(cfg: Config, a: App, r: Timed, steps: seq<Timed>)
    requires Inv(cfg, a) && r.env.FailureFree() && FailureFree(steps)
    requires r.ev.ResolverResponse? && Undisturbed(cfg, a, r.ev, steps)
    ensures Run(cfg, a, [r] + steps) == Run(cfg, a, steps + [r])
  {
    if steps == [] {
      assert [r] + steps == steps + [r];
    } else {
      var front, last := steps[..|steps| - 1], steps[|steps| - 1];
      assert steps == front + [last];
      LateAnswerSameOutcome(cfg, a, r, front);
      LateAnswerStep(cfg, a, r, front, last);
    }
  }

  lemma LateAnswerStep(cfg: Config, a: App, r: Timed, front: seq<Timed>, last: Timed)
    requires Inv(cfg, a) && r.env.FailureFree() && FailureFree(front) && last.env.FailureFree()
    requires r.ev.ResolverResponse? && Independent(Run(cfg, a, front), r.ev, last.ev)
    requires Run(cfg, a, [r] + front) == Run(cfg, a, front + [r])
    ensures Run(cfg, a, [r] + (front + [last])) == Run(cfg, a, (front + [last]) + [r])
  {
    RunKeepsInv(cfg, a, front);
    SwapTwo(cfg, Run(cfg, a, front), r, last);
    OneFurther(cfg, a, [r], front, [last]);
  }

  /** What moves behind `front`, and there behind `last`, moves behind both. */
  lemma OneFurther(cfg: Config, a: App, r: seq<Timed>, front: seq<Timed>, last: seq<Timed>)
    requires Run(cfg, a, r + front) == Run(cfg, a, front + r)
    requires Run(cfg, Run(cfg, a, front), r + last) == Run(cfg, Run(cfg, a, front), last + r)
    ensures Run(cfg, a, r + (front + last)) == Run(cfg, a, (front + last) + r)
  {
    Regroup(front, r, last);
    Regroup(front, last, r);
    RunAppend(cfg, a, r + front, last);
    RunAppend(cfg, a, front + r, last);
    RunAppend(cfg, a, front, r + last);
    RunAppend(cfg, a, front, last + r);
  }
}
