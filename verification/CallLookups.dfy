/** What the handlers ask of the resolver, and what they never overwrite. */
module CallLookups {
  import opened CallTypes
  import opened JournalEntries
  import opened JournalStore
  import opened MainApps
  import opened CallRuns

  // ----- One lookup per party -----

  /** How often the party `data` of the call with this key has been looked up. */
  ghost function Lookups(rs: seq<Request>, key: int, data: int): nat {
    if rs == [] then 0
    else Lookups(rs[..|rs| - 1], key, data) + (if rs[|rs| - 1].key == key && rs[|rs| - 1].data == data then 1 else 0)
  }

  lemma {:induction false} LookupsAppend(rs: seq<Request>, ts: seq<Request>, key: int, data: int)
    ensures Lookups(rs + ts, key, data) == Lookups(rs, key, data) + Lookups(ts, key, data)
  {
    if ts == [] {
      assert rs + ts == rs;
    } else {
      var n := |ts| - 1;
      assert (rs + ts)[..|rs| + n] == rs + ts[..n];
      LookupsAppend(rs, ts[..n], key, data);
    }
  }

  /** No party is looked up twice; an entry that has not raised its flag has not asked; keys
      not yet handed out have not been asked about. */
  ghost predicate LookupsOk(a: App) {
    && (forall key, data :: Lookups(a.requests, key, data) <= 1)
    && (forall k, data :: k in a.active && !Flag(a.active[k], data) ==>
          Lookups(a.requests, a.active[k].dbKey, data) == 0)
    && (forall key, data :: key >= a.store.nextId ==> Lookups(a.requests, key, data) == 0)
  }

  /** From entry e to entry f, the requests rs are exactly the lookups whose flag was raised. */
  ghost predicate Asked(e: Entry, f: Entry, rs: seq<Request>, key: int, data: int) {
    && Lookups(rs, key, data) == (if key == e.dbKey && Flag(f, data) && !Flag(e, data) then 1 else 0)
    && (Flag(e, data) ==> Flag(f, data)) && f.dbKey == e.dbKey
  }

  lemma MergeCalledAsks(cfg: Config, e: Entry, info: CallInfo, key: int, data: int)
    ensures var (f, rs) := MergeCalled(cfg, e, info); Asked(e, f, rs, key, data)
  {
    One(MergeCalled(cfg, e, info).1, key, data);
  }

  lemma MergeCallerAsks(cfg: Config, e: Entry, info: CallInfo, key: int, data: int)
    ensures var (f, rs) := MergeCaller(cfg, e, info); Asked(e, f, rs, key, data)
  {
    One(MergeCaller(cfg, e, info).1, key, data);
  }

  /** The lookups that one call-info update issues, counted per party. */
  lemma MergeLookups(cfg: Config, e: Entry, info: CallInfo, key: int, data: int)
    ensures var (f, rs) := MergeInfo(cfg, e, info); Asked(e, f, rs, key, data)
  {
    var named := MergeNames(e, info);
    var (e3, r3) := MergeCalled(cfg, named, info);
    var (e4, r4) := MergeCaller(cfg, e3, info);
    MergeCalledAsks(cfg, named, info, key, data);
    MergeCallerAsks(cfg, e3, info, key, data);
    LookupsAppend(r3, r4, key, data);
    NamesKeepFlags(e, info, data);
    assert MergeInfo(cfg, e, info) == (e4, r3 + r4);
  }

  lemma NamesKeepFlags(e: Entry, info: CallInfo, data: int)
    ensures MergeNames(e, info).dbKey == e.dbKey && Flag(MergeNames(e, info), data) == Flag(e, data)
  {
  }

  lemma One(rs: seq<Request>, key: int, data: int)
    requires |rs| <= 1
    ensures Lookups(rs, key, data) == if |rs| == 1 && rs[0].key == key && rs[0].data == data then 1 else 0
  {
  }

  /** Events that issue no lookups, and leave each entry's flags alone. */
  lemma QuietStep(a: App, b: App)
    requires LookupsOk(a) && b.requests == a.requests && b.store.nextId >= a.store.nextId
    requires forall k :: k in b.active ==>
               || b.active[k].dbKey >= a.store.nextId
               || (k in a.active && b.active[k].dbKey == a.active[k].dbKey
                   && b.active[k].resolvingCaller == a.active[k].resolvingCaller
                   && b.active[k].resolvingCalled == a.active[k].resolvingCalled)
    ensures LookupsOk(b)
  {
    forall k, data | k in b.active && !Flag(b.active[k], data)
      ensures Lookups(b.requests, b.active[k].dbKey, data) == 0
    {
      if b.active[k].dbKey < a.store.nextId {
        assert !Flag(a.active[k], data);
      }
    }
  }

  lemma InfoStep(cfg: Config, a: App, k: Key, info: CallInfo, env: Env)
    requires Inv(cfg, a) && LookupsOk(a) && env.FailureFree() && k in a.active
    ensures LookupsOk(Step(cfg, a, CallInfoUpdate(k.pid, k.cid, info), env))
  {
    var e := a.active[k];
    var (f, rs) := MergeInfo(cfg, e, info);
    MergeInfoPending(cfg, a.store, e, info);
    SaveActiveKeepsInv(cfg, a.(requests := a.requests + rs), k, f, env);
    SaveFacts(cfg.like, a.store, f, env);
    var b := Step(cfg, a, CallInfoUpdate(k.pid, k.cid, info), env);
    assert b.active == a.active[k := f.(dirty := false)] && b.requests == a.requests + rs;
    forall key, data
      ensures Lookups(b.requests, key, data) == Lookups(a.requests, key, data)
                + (if key == e.dbKey && Flag(f, data) && !Flag(e, data) then 1 else 0)
      ensures Flag(e, data) ==> Flag(f, data)
    {
      MergeLookups(cfg, e, info, key, data);
      LookupsAppend(a.requests, rs, key, data);
    }
    assert forall data :: Flag(f.(dirty := false), data) == Flag(f, data);
  }

  lemma NewCallLookups(cfg: Config, a: App, ev: AppEvent, env: Env)
    requires Inv(cfg, a) && LookupsOk(a) && env.FailureFree() && ev.NewCall?
    ensures LookupsOk(Step(cfg, a, ev, env))
  {
    SaveFacts(cfg.like, a.store, NewEntry(ev.pid, ev.cid, ev.ctype, ev.status, env.now), env);
    QuietStep(a, Step(cfg, a, ev, env));
  }

  lemma StatusLookups(cfg: Config, a: App, k: Key, status: CallStatus, env: Env)
    requires Inv(cfg, a) && LookupsOk(a) && env.FailureFree() && k in a.active && status != Idle
    ensures LookupsOk(Step(cfg, a, CallStatusUpdate(k.pid, k.cid, status), env))
  {
    StatusEffect(cfg, a, k, status, env);
    QuietStep(a, Step(cfg, a, CallStatusUpdate(k.pid, k.cid, status), env));
  }

  lemma ResponseLookups(cfg: Config, a: App, key: int, data: int, sn: string, env: Env)
    requires Inv(cfg, a) && LookupsOk(a) && env.FailureFree()
    ensures LookupsOk(Step(cfg, a, ResolverResponse(key, data, sn), env))
  {
    ResponseEffect(cfg, a, key, data, sn, env);
    QuietStep(a, Step(cfg, a, ResolverResponse(key, data, sn), env));
  }

  lemma StepLookups(cfg: Config, a: App, ev: AppEvent, env: Env)
    requires Inv(cfg, a) && LookupsOk(a) && env.FailureFree()
    ensures LookupsOk(Step(cfg, a, ev, env))
  {
    match ev
    case NewCall(pid, cid, t, status) =>
      NewCallLookups(cfg, a, ev, env);
    case CallStatusUpdate(pid, cid, status) =>
      if Key(pid, cid) in a.active && status != Idle {
        StatusLookups(cfg, a, Key(pid, cid), status, env);
      } else {
        QuietStep(a, Step(cfg, a, ev, env));
      }
    case CallInfoUpdate(pid, cid, info) =>
      if Key(pid, cid) in a.active {
        InfoStep(cfg, a, Key(pid, cid), info, env);
      }
    case ResolverResponse(key, data, sn) =>
      ResponseLookups(cfg, a, key, data, sn, env);
  }

  /** Over a whole run each call's caller is looked up at most once, and so is its called
      party, however many call-info updates and answers arrive. */
  lemma {:induction false} AtMostOneLookupPerParty(cfg: Config, a: App, steps: seq<Timed>)
    requires Started(cfg, a) && FailureFree(steps)
    ensures forall key, data :: Lookups(Run(cfg, a, steps).requests, key, data) <= 1
    ensures LookupsOk(Run(cfg, a, steps))
  {
    if steps != [] {
      var front, last := steps[..|steps| - 1], steps[|steps| - 1];
      AtMostOneLookupPerParty(cfg, a, front);
      RunKeepsInv(cfg, a, front);
      StepLookups(cfg, Run(cfg, a, front), last.ev, last.env);
    }
  }

  // ----- Answers to lookups -----

  lemma StepRequestsGrow(cfg: Config, a: App, ev: AppEvent, env: Env, key: int, data: int)
    requires Inv(cfg, a) && env.FailureFree()
    ensures Lookups(Step(cfg, a, ev, env).requests, key, data) >= Lookups(a.requests, key, data)
  {
    if ev.CallInfoUpdate? && Key(ev.pid, ev.cid) in a.active {
      var k := Key(ev.pid, ev.cid);
      InfoEffect(cfg, a, k, ev.info, env);
      LookupsAppend(a.requests, MergeInfo(cfg, a.active[k], ev.info).1, key, data);
    } else if ev.ResolverResponse? {
      ResponseEffect(cfg, a, ev.key, ev.data, ev.sn, env);
    }
  }

  /** The answer to a lookup that has been issued, with a name in it, is independent of every
      event but another answer for the same party. */
  lemma AnswerIsIndependent(cfg: Config, a: App, r: AppEvent, s: AppEvent)
    requires LookupsOk(a) && r.ResolverResponse? && r.sn != "" && Lookups(a.requests, r.key, r.data) >= 1
    requires s.ResolverResponse? ==> s.key != r.key || s.data != r.data
    ensures Independent(a, r, s)
  {
  }

  predicate OtherAnswers(r: AppEvent, steps: seq<Timed>)
    requires r.ResolverResponse?
  {
    forall t :: t in steps && t.ev.ResolverResponse? ==> t.ev.key != r.key || t.ev.data != r.data
  }

  lemma {:induction false} AnswerIsUndisturbed(cfg: Config, a: App, r: AppEvent, steps: seq<Timed>)
    requires Inv(cfg, a) && LookupsOk(a) && FailureFree(steps)
    requires r.ResolverResponse? && r.sn != "" && Lookups(a.requests, r.key, r.data) >= 1 && OtherAnswers(r, steps)
    ensures Undisturbed(cfg, a, r, steps)
    ensures LookupsOk(Run(cfg, a, steps)) && Lookups(Run(cfg, a, steps).requests, r.key, r.data) >= 1
  {
    if steps != [] {
      var front, last := steps[..|steps| - 1], steps[|steps| - 1];
      AnswerIsUndisturbed(cfg, a, r, front);
      RunKeepsInv(cfg, a, front);
      AnswerIsIndependent(cfg, Run(cfg, a, front), r, last.ev);
      StepLookups(cfg, Run(cfg, a, front), last.ev, last.env);
      StepRequestsGrow(cfg, Run(cfg, a, front), last.ev, last.env, r.key, r.data);
    }
  }

  /** Once a lookup has been issued, it makes no difference when its answer arrives: at once,
      or after any further events of any calls, the end of its own call, new calls and
      purges included. That no other answer for its party is
      under way is shown where the resolver is composed with the handlers. */
  lemma AnswerTimeDoesNotMatter(cfg: Config, a: App, before: seq<Timed>, r: Timed, steps: seq<Timed>)
    requires Started(cfg, a) && FailureFree(before) && FailureFree(steps) && r.env.FailureFree()
    requires r.ev.ResolverResponse? && r.ev.sn != "" && OtherAnswers(r.ev, steps)
    requires Lookups(Run(cfg, a, before).requests, r.ev.key, r.ev.data) >= 1
    ensures Run(cfg, Run(cfg, a, before), [r] + steps) == Run(cfg, Run(cfg, a, before), steps + [r])
  {
    RunKeepsInv(cfg, a, before);
    AtMostOneLookupPerParty(cfg, a, before);
    AnswerIsUndisturbed(cfg, Run(cfg, a, before), r.ev, steps);
    LateAnswerSameOutcome(cfg, Run(cfg, a, before), r, steps);
  }

  // ----- What a stored row never loses -----

  /** A later version of a row: the type, the time of creation and every known number stay. */
  ghost predicate Keeps(r: Row, r': Row) {
    && r'.jtype == r.jtype && r'.tm1 == r.tm1
    && (r.clnr != "" ==> r'.clnr == r.clnr)
    && (r.cdnr != "" ==> r'.cdnr == r.cdnr)
  }

  lemma MergeKeeps(cfg: Config, e: Entry, info: CallInfo)
    ensures Keeps(e.ToRow(), MergeInfo(cfg, e, info).0.ToRow())
  {
    var named := MergeNames(e, info);
    var (e3, r3) := MergeCalled(cfg, named, info);
    var (e4, r4) := MergeCaller(cfg, e3, info);
    assert Keeps(e.ToRow(), named.ToRow());
    assert Keeps(named.ToRow(), e3.ToRow());
    assert Keeps(e3.ToRow(), e4.ToRow());
  }

  /** From one state to a later one: surviving rows keep what they must, removed rows do not
      come back, and an entry that is still active keeps the same. */
  ghost predicate Kept(a: App, b: App) {
    && a.store.nextId <= b.store.nextId
    && (forall id :: id in b.store.calls && id < a.store.nextId ==>
          id in a.store.calls && Keeps(a.store.calls[id], b.store.calls[id]))
    && (forall k :: k in b.active && b.active[k].dbKey < a.store.nextId ==> EntryKept(a, b, k))
  }

  ghost predicate EntryKept(a: App, b: App, k: Key)
    requires k in b.active
  {
    && k in a.active && a.active[k].dbKey == b.active[k].dbKey
    && Keeps(a.active[k].ToRow(), b.active[k].ToRow())
  }

  lemma SaveActiveKeeps(cfg: Config, a: App, k: Key, e: Entry, env: Env)
    requires Inv(cfg, a) && env.FailureFree() && k in a.active && Pending(a.store, a.active[k], e)
    requires Keeps(a.active[k].ToRow(), e.ToRow())
    ensures Kept(a, SaveActive(cfg, a, k, e, env))
  {
    SaveFacts(cfg.like, a.store, e, env);
    var b := SaveActive(cfg, a, k, e, env);
    forall j | j in b.active ensures EntryKept(a, b, j) {
      if j == k {
        assert b.active[k] == e.(dirty := false);
        assert b.active[k].ToRow() == e.ToRow();
      }
    }
  }

  lemma NewCallKeeps(cfg: Config, a: App, ev: AppEvent, env: Env)
    requires Inv(cfg, a) && env.FailureFree() && ev.NewCall?
    ensures Kept(a, Step(cfg, a, ev, env))
  {
    SaveFacts(cfg.like, a.store, NewEntry(ev.pid, ev.cid, ev.ctype, ev.status, env.now), env);
    var b := Step(cfg, a, ev, env);
    forall j | j in b.active && b.active[j].dbKey < a.store.nextId ensures EntryKept(a, b, j) {
      assert j in a.active && b.active[j] == a.active[j];
    }
  }

  lemma ResponseKeeps(cfg: Config, a: App, key: int, data: int, sn: string, env: Env)
    requires Inv(cfg, a) && env.FailureFree()
    ensures Kept(a, Step(cfg, a, ResolverResponse(key, data, sn), env))
  {
    ResponseEffect(cfg, a, key, data, sn, env);
    var b := Step(cfg, a, ResolverResponse(key, data, sn), env);
    forall j | j in b.active ensures EntryKept(a, b, j) {
      assert b.active[j] == NameInActive(a.active, key, data, sn)[j];
    }
  }

  lemma StatusKeeps(cfg: Config, a: App, k: Key, status: CallStatus, env: Env)
    requires Inv(cfg, a) && env.FailureFree() && k in a.active && status != Idle
    ensures Kept(a, Step(cfg, a, CallStatusUpdate(k.pid, k.cid, status), env))
  {
    SetStatePending(a.store, a.active[k], JournalState(status), env.now);
    SetStateKeeps(a.active[k], JournalState(status), env.now);
    SaveActiveKeeps(cfg, a, k, a.active[k].SetState(JournalState(status), env.now), env);
  }

  lemma InfoKeeps(cfg: Config, a: App, k: Key, info: CallInfo, env: Env)
    requires Inv(cfg, a) && env.FailureFree() && k in a.active
    ensures Kept(a, Step(cfg, a, CallInfoUpdate(k.pid, k.cid, info), env))
  {
    MergeInfoPending(cfg, a.store, a.active[k], info);
    MergeKeeps(cfg, a.active[k], info);
    var (e, rs) := MergeInfo(cfg, a.active[k], info);
    SaveActiveKeeps(cfg, a.(requests := a.requests + rs), k, e, env);
  }

  lemma StepKeeps(cfg: Config, a: App, ev: AppEvent, env: Env)
    requires Inv(cfg, a) && env.FailureFree()
    ensures Kept(a, Step(cfg, a, ev, env))
  {
    match ev
    case NewCall(_, _, _, _) =>
      NewCallKeeps(cfg, a, ev, env);
    case CallStatusUpdate(pid, cid, status) =>
      var k := Key(pid, cid);
      if k in a.active && status != Idle {
        StatusKeeps(cfg, a, k, status, env);
      }
    case CallInfoUpdate(pid, cid, info) =>
      var k := Key(pid, cid);
      if k in a.active {
        InfoKeeps(cfg, a, k, info, env);
      }
    case ResolverResponse(key, data, sn) =>
      ResponseKeeps(cfg, a, key, data, sn, env);
  }

  lemma SetStateKeeps(e: Entry, s: JState, now: int)
    ensures Keeps(e.ToRow(), e.SetState(s, now).ToRow())
  {
    assert e.progress.Next(s, now).jtype == e.progress.jtype;
  }

  lemma KeptTransitive(a: App, b: App, c: App)
    requires Kept(a, b) && Kept(b, c)
    ensures Kept(a, c)
  {
    forall k | k in c.active && c.active[k].dbKey < a.store.nextId ensures EntryKept(a, c, k) {
      assert EntryKept(b, c, k);
      assert EntryKept(a, b, k);
    }
  }

  /** A number that has reached an entry or the journal is never changed by any later event,
      nor is the type or the time of the call. */
  lemma {:induction false} NumbersNeverChange(cfg: Config, a: App, steps: seq<Timed>)
    requires Inv(cfg, a) && FailureFree(steps)
    ensures Kept(a, Run(cfg, a, steps))
  {
    if steps != [] {
      var front, last := steps[..|steps| - 1], steps[|steps| - 1];
      NumbersNeverChange(cfg, a, front);
      RunKeepsInv(cfg, a, front);
      StepKeeps(cfg, Run(cfg, a, front), last.ev, last.env);
      KeptTransitive(a, Run(cfg, a, front), Run(cfg, a, steps));
    } else {
      assert forall k :: k in a.active ==> EntryKept(a, a, k);
    }
  }
}
