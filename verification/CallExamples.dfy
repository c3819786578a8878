/** Runs from a started application that reach its surprising cases. */
module CallExamples {
  import opened CallTypes
  import opened JournalEntries
  import opened JournalStore
  import opened MainApps
  import opened CallRuns
  import opened CallLookups
  import opened CallReuse
  import opened TapiLines
  import FritzStream

  /** Nothing fails and nothing is purged. */
  predicate Calm(env: Env) {
    env.FailureFree() && !env.prefs.byAge && !env.prefs.byCount
  }

  /** The row of an active call is its entry, if it is there. */
  lemma RowOfActive(cfg: Config, a: App, k: Key)
    requires Inv(cfg, a) && k in a.active && a.active[k].dbKey in a.store.calls
    ensures a.store.calls[a.active[k].dbKey] == a.active[k].ToRow()
  {
    assert EntryOk(a.store, k, a.active[k]);
  }

  lemma StepKeepsRows(cfg: Config, a: App, ev: AppEvent, env: Env)
    requires Inv(cfg, a) && env.FailureFree() && !ev.NewCall?
    ensures Step(cfg, a, ev, env).store.calls.Keys == a.store.calls.Keys
  {
    match ev
    case CallStatusUpdate(pid, cid, status) =>
      if Key(pid, cid) in a.active && status != Idle {
        StatusEffect(cfg, a, Key(pid, cid), status, env);
      }
    case CallInfoUpdate(pid, cid, info) =>
      if Key(pid, cid) in a.active {
        InfoEffect(cfg, a, Key(pid, cid), info, env);
      }
    case ResolverResponse(key, data, sn) =>
      ResponseEffect(cfg, a, key, data, sn, env);
  }

  lemma CallStarted(cfg: Config, a: App, ev: AppEvent, env: Env)
    requires Started(cfg, a) && Calm(env) && ev.NewCall?
    ensures var b, k := Step(cfg, a, ev, env), Key(ev.pid, ev.cid);
            var e := NewEntry(ev.pid, ev.cid, ev.ctype, ev.status, env.now).(dbKey := a.store.nextId, dirty := false);
            && Inv(cfg, b) && b.active == map[k := e] && b.requests == []
            && a.store.nextId < b.store.nextId && a.store.nextId in b.store.calls
  {
    NewCallEffect(cfg, a, ev, env);
    StepKeepsInv(cfg, a, ev, env);
    assert map[][Key(ev.pid, ev.cid) := Step(cfg, a, ev, env).active[Key(ev.pid, ev.cid)]]
           == map[Key(ev.pid, ev.cid) := Step(cfg, a, ev, env).active[Key(ev.pid, ev.cid)]];
  }

  // ----- The empty name -----

  const OFFERED := NewCall(1, 1, TypeIncoming, Offering)
  const CALLER_IS_1 := CallInfoUpdate(1, 1, CallInfo("", "1", "", ""))
  const CALLER_IS_ANN := CallInfoUpdate(1, 1, CallInfo("", "", "", "Ann"))

  /** An incoming call whose caller has been looked up. */
  lemma LookedUp(cfg: Config, a: App, env: Env) returns (b: App)
    requires Started(cfg, a) && Calm(env) && cfg.parse("1").national != ""
    ensures b == Step(cfg, Step(cfg, a, OFFERED, env), CALLER_IS_1, env)
    ensures Inv(cfg, b) && Key(1, 1) in b.active && b.active[Key(1, 1)].dbKey == a.store.nextId
    ensures b.active[Key(1, 1)].resolvingCaller && a.store.nextId in b.store.calls
    ensures Lookups(b.requests, a.store.nextId, RESOLVE_CALLER) == 1
  {
    var k, b1 := Key(1, 1), Step(cfg, a, OFFERED, env);
    CallStarted(cfg, a, OFFERED, env);
    b := Step(cfg, b1, CALLER_IS_1, env);
    InfoEffect(cfg, b1, k, CALLER_IS_1.info, env);
    StepKeepsInv(cfg, b1, CALLER_IS_1, env);
    StepKeepsRows(cfg, b1, CALLER_IS_1, env);
    MergeLookups(cfg, b1.active[k], CALLER_IS_1.info, a.store.nextId, RESOLVE_CALLER);
    MergeKeepsKey(cfg, b1.active[k], CALLER_IS_1.info);
    assert [] + MergeInfo(cfg, b1.active[k], CALLER_IS_1.info).1 == MergeInfo(cfg, b1.active[k], CALLER_IS_1.info).1;
  }

  /** The resolver's answer has no name, the telephone network has one: the journal shows the
      name or not, depending on which comes last. */
  lemma EmptyNameIsReached(cfg: Config, a: App, env: Env)
    requires Started(cfg, a) && Calm(env) && cfg.parse("1").national != ""
    ensures var id := a.store.nextId;
            var b := Step(cfg, Step(cfg, a, OFFERED, env), CALLER_IS_1, env);
            var answer := ResolverResponse(id, RESOLVE_CALLER, "");
            var answerFirst := Step(cfg, Step(cfg, b, answer, env), CALLER_IS_ANN, env);
            var answerLast := Step(cfg, Step(cfg, b, CALLER_IS_ANN, env), answer, env);
            && Lookups(b.requests, id, RESOLVE_CALLER) == 1
            && id in answerFirst.store.calls && answerFirst.store.calls[id].cln == "Ann"
            && id in answerLast.store.calls && answerLast.store.calls[id].cln == ""
  {
    var k, id := Key(1, 1), a.store.nextId;
    var b := LookedUp(cfg, a, env);
    var answer := ResolverResponse(id, RESOLVE_CALLER, "");
    EmptyNameErases(cfg, b, Timed(answer, env), Timed(CALLER_IS_ANN, env));
    TwoSteps(cfg, b, answer, CALLER_IS_ANN, env, k);
    TwoSteps(cfg, b, CALLER_IS_ANN, answer, env, k);
  }

  lemma TwoSteps(cfg: Config, a: App, first: AppEvent, second: AppEvent, env: Env, k: Key)
    requires Inv(cfg, a) && env.FailureFree() && k in a.active && a.active[k].dbKey in a.store.calls
    requires !first.NewCall? && !second.NewCall? && !first.CallStatusUpdate? && !second.CallStatusUpdate?
    ensures var c, id := Step(cfg, Step(cfg, a, first, env), second, env), a.active[k].dbKey;
            k in c.active && id in c.store.calls && c.store.calls[id] == c.active[k].ToRow()
  {
    var b := Step(cfg, a, first, env);
    StepKeepsInv(cfg, a, first, env);
    StepKeepsRows(cfg, a, first, env);
    StaysActive(cfg, a, first, env, k);
    StepKeepsInv(cfg, b, second, env);
    StepKeepsRows(cfg, b, second, env);
    StaysActive(cfg, b, second, env, k);
    RowOfActive(cfg, Step(cfg, b, second, env), k);
  }

  // ----- The call of a Fritz!Box -----

  /** The events as they are handled, all in the same environment. */
  function Handled(events: seq<AppEvent>, env: Env): seq<Timed> {
    seq(|events|, i requires 0 <= i < |events| => Timed(events[i], env))
  }

  /** A box reports one incoming call with RING, CONNECT and DISCONNECT: its row says that it
      was answered, but not for how long. */
  lemma BoxCallWithoutDuration(cfg: Config, a: App, env: Env, ring: FritzStream.BoxMessage,
                               connect: FritzStream.BoxMessage, end: FritzStream.BoxMessage)
    requires Started(cfg, a) && Calm(env)
    requires ring.Ring? && connect.Connect? && end.Disconnect? && ring.id == connect.id == end.id
    ensures var ms, id := [ring, connect, end], a.store.nextId;
            var b := Run(cfg, a, Handled(FritzStream.Meanings(ms), env));
            && id in b.store.calls && b.store.calls[id].jtype == JIncoming
            && b.store.calls[id].result == JrOk && b.store.calls[id].dur == 0
            && b.active == map[]
  {
    var ms, id := [ring, connect, end], a.store.nextId;
    var cid := FritzStream.ToUnsigned(ring.id);
    var info := CallInfo(ring.called, ring.caller, "", "");
    var e1, e2 := NewCall(FRITZ_PID, cid, TypeIncoming, Offering), CallInfoUpdate(FRITZ_PID, cid, info);
    var e3, e4 := CallStatusUpdate(FRITZ_PID, cid, Connected), CallStatusUpdate(FRITZ_PID, cid, Idle);
    ThreeMeanings(ring, connect, end);
    assert FritzStream.Meanings(ms) == [e1, e2, e3, e4];
    var t1, q := Timed(e1, env), [Timed(e2, env), Timed(e3, env), Timed(e4, env)];
    assert Handled([e1, e2, e3, e4], env) == [] + [t1] + q;
    BoxRun(cfg, a, env, cid, info);
  }

  lemma ThreeMeanings(a: FritzStream.BoxMessage, b: FritzStream.BoxMessage, c: FritzStream.BoxMessage)
    ensures FritzStream.Meanings([a, b, c])
            == FritzStream.Meaning(a) + (FritzStream.Meaning(b) + FritzStream.Meaning(c))
  {
    FirstMeaning(a, [b, c]);
    FirstMeaning(b, [c]);
    FirstMeaning(c, []);
    assert [a] + [b, c] == [a, b, c] && [b] + [c] == [b, c] && [c] + [] == [c];
    assert FritzStream.Meaning(c) + [] == FritzStream.Meaning(c);
  }

  lemma FirstMeaning(m: FritzStream.BoxMessage, ms: seq<FritzStream.BoxMessage>)
    ensures FritzStream.Meanings([m] + ms) == FritzStream.Meaning(m) + FritzStream.Meanings(ms)
  {
    assert ([m] + ms)[1..] == ms;
  }

  lemma BoxRun(cfg: Config, a: App, env: Env, cid: nat, info: CallInfo)
    requires Started(cfg, a) && Calm(env)
    ensures var t := Timed(NewCall(FRITZ_PID, cid, TypeIncoming, Offering), env);
            var q := [Timed(CallInfoUpdate(FRITZ_PID, cid, info), env),
                      Timed(CallStatusUpdate(FRITZ_PID, cid, Connected), env),
                      Timed(CallStatusUpdate(FRITZ_PID, cid, Idle), env)];
            var b, id := Run(cfg, a, [] + [t] + q), a.store.nextId;
            && id in b.store.calls && b.store.calls[id].jtype == JIncoming
            && b.store.calls[id].result == JrOk && b.store.calls[id].dur == 0
            && b.active == map[]
  {
    var k, id := Key(FRITZ_PID, cid), a.store.nextId;
    var t := Timed(NewCall(FRITZ_PID, cid, TypeIncoming, Offering), env);
    var t2 := Timed(CallInfoUpdate(FRITZ_PID, cid, info), env);
    var t3 := Timed(CallStatusUpdate(FRITZ_PID, cid, Connected), env);
    var t4 := Timed(CallStatusUpdate(FRITZ_PID, cid, Idle), env);
    var q := [t2, t3, t4];
    PostedOfBox(cfg, t2, t3, t4, k);
    RowHasOwnStatusesIff(cfg, a, [], t, q);
    BoxRunEnds(cfg, a, env, t, t2, t3, t4);
    ResultOfOwnCall(cfg, a, [], t, q);
    assert FailureFree([] + [t] + q);
    DurationNeedsDisconnect(cfg, a, [] + [t] + q, id);
  }

  lemma PostedOfBox(cfg: Config, t2: Timed, t3: Timed, t4: Timed, k: Key)
    requires t2.ev.CallInfoUpdate? && t3.ev == CallStatusUpdate(k.pid, k.cid, Connected)
    requires t4.ev == CallStatusUpdate(k.pid, k.cid, Idle)
    ensures Posted([t2, t3, t4], k) == ([Connected], true)
  {
    PostedSnoc([], t2, k);
    PostedSnoc([t2], t3, k);
    PostedSnoc([t2, t3], t4, k);
    assert [] + [t2] == [t2] && [t2] + [t3] == [t2, t3] && [t2, t3] + [t4] == [t2, t3, t4];
    assert [] + [Connected] == [Connected];
  }

  lemma PostedSnoc(q: seq<Timed>, t: Timed, k: Key)
    ensures Posted(q + [t], k) == PostTo(Posted(q, k), t.ev, k)
  {
    assert (q + [t])[..|q|] == q;
  }

  /** The row is there at the end, with its type, and the call is not active. */
  lemma BoxRunEnds(cfg: Config, a: App, env: Env, t: Timed, t2: Timed, t3: Timed, t4: Timed)
    requires Started(cfg, a) && Calm(env) && t.env == t2.env == t3.env == t4.env == env
    requires t.ev.NewCall? && t.ev.ctype == TypeIncoming && t2.ev.CallInfoUpdate?
    requires t3.ev.CallStatusUpdate? && t4.ev == CallStatusUpdate(t.ev.pid, t.ev.cid, Idle)
    ensures var b, id := Run(cfg, a, [] + [t] + [t2, t3, t4]), a.store.nextId;
            id in b.store.calls && b.store.calls[id].jtype == JIncoming && b.active == map[]
  {
    var b1 := Step(cfg, a, t.ev, env);
    CallStarted(cfg, a, t.ev, env);
    RowOfActive(cfg, b1, Key(t.ev.pid, t.ev.cid));
    FourSteps(cfg, a, t, t2, t3, t4);
    RowStays(cfg, b1, t2, t3, t4);
    NumbersNeverChange(cfg, b1, [t2, t3, t4]);
    LastIsGone(cfg, b1, t2, t3, t4, Key(t.ev.pid, t.ev.cid));
  }

  lemma RowStays(cfg: Config, a: App, t2: Timed, t3: Timed, t4: Timed)
    requires Inv(cfg, a) && FailureFree([t2, t3, t4])
    requires !t2.ev.NewCall? && !t3.ev.NewCall? && !t4.ev.NewCall?
    ensures Step(cfg, Step(cfg, Step(cfg, a, t2.ev, t2.env), t3.ev, t3.env), t4.ev, t4.env).store.calls.Keys
            == a.store.calls.Keys
  {
    assert t2 in [t2, t3, t4] && t3 in [t2, t3, t4] && t4 in [t2, t3, t4];
    var b2 := Step(cfg, a, t2.ev, t2.env);
    StepKeepsInv(cfg, a, t2.ev, t2.env);
    StepKeepsInv(cfg, b2, t3.ev, t3.env);
    StepKeepsRows(cfg, a, t2.ev, t2.env);
    StepKeepsRows(cfg, b2, t3.ev, t3.env);
    StepKeepsRows(cfg, Step(cfg, b2, t3.ev, t3.env), t4.ev, t4.env);
  }

  lemma LastIsGone(cfg: Config, a: App, t2: Timed, t3: Timed, t4: Timed, k: Key)
    requires a.active.Keys == {k} && !t2.ev.NewCall? && !t3.ev.NewCall?
    requires t4.ev == CallStatusUpdate(k.pid, k.cid, Idle)
    ensures Step(cfg, Step(cfg, Step(cfg, a, t2.ev, t2.env), t3.ev, t3.env), t4.ev, t4.env).active == map[]
  {
    var b2 := Step(cfg, a, t2.ev, t2.env);
    var b3 := Step(cfg, b2, t3.ev, t3.env);
    OneActive(cfg, a, t2.ev, t2.env);
    OneActive(cfg, b2, t3.ev, t3.env);
    assert Step(cfg, b3, t4.ev, t4.env).active.Keys == {};
  }

  lemma OneActive(cfg: Config, a: App, ev: AppEvent, env: Env)
    requires !ev.NewCall?
    ensures Step(cfg, a, ev, env).active.Keys <= a.active.Keys
  {
  }

  lemma FourSteps(cfg: Config, a: App, t: Timed, t2: Timed, t3: Timed, t4: Timed)
    ensures Run(cfg, a, [] + [t] + [t2, t3, t4]) == Run(cfg, Step(cfg, a, t.ev, t.env), [t2, t3, t4])
    ensures Run(cfg, Step(cfg, a, t.ev, t.env), [t2, t3, t4])
            == Step(cfg, Step(cfg, Step(cfg, Step(cfg, a, t.ev, t.env), t2.ev, t2.env), t3.ev, t3.env), t4.ev, t4.env)
  {
    assert [] + [t] == [t];
    RunAppend(cfg, a, [t], [t2, t3, t4]);
    RunOne(cfg, a, t);
    var b := Step(cfg, a, t.ev, t.env);
    RunOne(cfg, b, t2);
    RunSnoc(cfg, b, [t2], t3);
    RunSnoc(cfg, b, [t2, t3], t4);
    assert [t2] + [t3] == [t2, t3] && [t2, t3] + [t4] == [t2, t3, t4];
  }

  lemma RunSnoc(cfg: Config, a: App, q: seq<Timed>, t: Timed)
    ensures Run(cfg, a, q + [t]) == Step(cfg, Run(cfg, a, q), t.ev, t.env)
  {
    assert (q + [t])[..|q|] == q;
  }

  // ----- A name for a number -----

  /** A reported TAPI call whose driver comes to know the called party's name: the number that
      the library makes of that name is stored as the called number, and no later event
      corrects it. */
  lemma NameStaysAsNumber(cfg: Config, a: App, calls: map<nat, Call>, h: nat, q: Query, env: Env, later: seq<Timed>)
    requires LineOk(calls) && h in calls && calls[h].reported && q.ok && q.calledName.Some?
    requires Inv(cfg, a) && env.FailureFree() && FailureFree(later)
    requires Key(TAPI_PID, h) in a.active
    requires a.active[Key(TAPI_PID, h)].calledAddress == "" && !a.active[Key(TAPI_PID, h)].resolvingCalled
    requires q.calledName.value != "" && cfg.parse(q.calledName.value).national != ""
    ensures var events := LineStep(calls, CallInfoMsg(h, q)).1;
            var id, n := a.active[Key(TAPI_PID, h)].dbKey, cfg.parse(q.calledName.value).national;
            && |events| == 1
            && var b := Run(cfg, Step(cfg, a, ToAppEvent(events[0]), env), later);
               (id in b.store.calls ==> b.store.calls[id].cdnr == n)
               && forall k :: k in b.active && b.active[k].dbKey == id ==> b.active[k].calledAddress == n
  {
    var k, id, n := Key(TAPI_PID, h), a.active[Key(TAPI_PID, h)].dbKey, cfg.parse(q.calledName.value).national;
    var ev := ToAppEvent(LineStep(calls, CallInfoMsg(h, q)).1[0]);
    NameInEvent(calls, h, q);
    var b := Step(cfg, a, ev, env);
    InfoEffect(cfg, a, k, ev.info, env);
    NameIsParsed(cfg, a.active[k], ev.info);
    StepKeepsInv(cfg, a, ev, env);
    assert EntryOk(b.store, k, b.active[k]);
    NumberStays(cfg, b, k, later);
  }

  lemma NameInEvent(calls: map<nat, Call>, h: nat, q: Query)
    requires LineOk(calls) && h in calls && calls[h].reported && q.ok && q.calledName.Some?
    ensures var events := LineStep(calls, CallInfoMsg(h, q)).1;
            && |events| == 1
            && ToAppEvent(events[0]).CallInfoUpdate? && ToAppEvent(events[0]).pid == TAPI_PID
            && ToAppEvent(events[0]).cid == h && ToAppEvent(events[0]).info.calledAddress == q.calledName.value
  {
  }

  lemma NameIsParsed(cfg: Config, e: Entry, info: CallInfo)
    requires e.calledAddress == "" && !e.resolvingCalled && info.calledAddress != ""
    ensures var f := MergeInfo(cfg, e, info).0;
            f.calledAddress == cfg.parse(info.calledAddress).national && f.dbKey == e.dbKey
  {
  }

  /** A known called number stays with its entry and its row. */
  lemma NumberStays(cfg: Config, a: App, k: Key, later: seq<Timed>)
    requires Inv(cfg, a) && FailureFree(later) && k in a.active && a.active[k].calledAddress != ""
    ensures var b, id, n := Run(cfg, a, later), a.active[k].dbKey, a.active[k].calledAddress;
            && (id in b.store.calls ==> b.store.calls[id].cdnr == n)
            && forall j :: j in b.active && b.active[j].dbKey == id ==> b.active[j].calledAddress == n
  {
    var b, id, n := Run(cfg, a, later), a.active[k].dbKey, a.active[k].calledAddress;
    NumbersNeverChange(cfg, a, later);
    assert EntryOk(a.store, k, a.active[k]);
    if id in b.store.calls {
      RowOfActive(cfg, a, k);
    }
    forall j | j in b.active && b.active[j].dbKey == id ensures b.active[j].calledAddress == n {
      assert EntryKept(a, b, j);
      assert Keeps(a.active[j].ToRow(), b.active[j].ToRow());
    }
  }
}
