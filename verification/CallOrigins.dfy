/** What the handlers do with a call, told from the event that announced it: which party may be
    looked up online, and why the calls of a Fritz!Box have no duration. */
module CallOrigins {
  import opened Common
  import opened CallTypes
  import opened JournalEntries
  import opened JournalStore
  import opened MainApps
  import opened CallRuns
  import opened CallLookups
  import FritzStream

  /** The NEW_CALL whose entry was given the key `id` in the run. */
  ghost function Origin(cfg: Config, a: App, steps: seq<Timed>, id: int): Option<AppEvent> {
    if steps == [] then None else
    var front, ev := steps[..|steps| - 1], steps[|steps| - 1].ev;
    if ev.NewCall? && id == Run(cfg, a, front).store.nextId then Some(ev) else Origin(cfg, a, front, id)
  }

  /** The party at the far end: the caller of an incoming call, the called one of an outgoing. */
  predicate FarParty(t: JType, data: int) {
    (data == RESOLVE_CALLER && t != JOutgoing) || (data == RESOLVE_CALLED && t != JIncoming)
  }

  ghost predicate Announced(o: Option<AppEvent>, t: JType) {
    o.Some? && o.value.NewCall? && JournalType(o.value.ctype) == t
  }

  predicate SameCall(ev: AppEvent, k: Key) {
    ev.NewCall? && ev.pid == k.pid && ev.cid == k.cid
  }

  ghost predicate RequestOk(o: Option<AppEvent>, r: Request) {
    && r.national != "" && o.Some? && o.value.NewCall?
    && (r.online ==> FarParty(JournalType(o.value.ctype), r.data))
  }

  /** Entries, rows of the run and requests belong to a call that was announced, with its
      provider and its type. */
  ghost predicate OriginsOk(base: int, a: App, o: int -> Option<AppEvent>) {
    && base <= a.store.nextId
    && (forall k :: k in a.active ==>
          Announced(o(a.active[k].dbKey), a.active[k].progress.jtype) && SameCall(o(a.active[k].dbKey).value, k))
    && (forall id :: base <= id && id in a.store.calls ==> Announced(o(id), a.store.calls[id].jtype))
    && (forall r :: r in a.requests ==> RequestOk(o(r.key), r))
  }

  lemma MergeOnline(cfg: Config, e: Entry, info: CallInfo)
    ensures forall r :: r in MergeInfo(cfg, e, info).1 ==>
              r.key == e.dbKey && r.national != "" && (r.online ==> FarParty(e.progress.jtype, r.data))
  {
  }

  lemma NewCallOrigins(cfg: Config, base: int, a: App, ev: AppEvent, env: Env,
                       o: int -> Option<AppEvent>, o': int -> Option<AppEvent>)
    requires Inv(cfg, a) && env.FailureFree() && OriginsOk(base, a, o) && ev.NewCall?
    requires forall id :: o'(id) == if id == a.store.nextId then Some(ev) else o(id)
    ensures OriginsOk(base, Step(cfg, a, ev, env), o')
  {
    NewCallEffect(cfg, a, ev, env);
    PurgeOnlyRemoves(a.store.calls[a.store.nextId := NewEntry(ev.pid, ev.cid, ev.ctype, ev.status, env.now)
                                     .(dbKey := a.store.nextId, dirty := false).ToRow()], env);
    var e := NewEntry(ev.pid, ev.cid, ev.ctype, ev.status, env.now);
    assert e.progress.jtype == JournalType(ev.ctype);
  }

  /** The requests that one event adds. */
  ghost function NewRequests(cfg: Config, a: App, ev: AppEvent): seq<Request> {
    if ev.CallInfoUpdate? && Key(ev.pid, ev.cid) in a.active
    then MergeInfo(cfg, a.active[Key(ev.pid, ev.cid)], ev.info).1
    else []
  }

  lemma OtherEvent(cfg: Config, a: App, ev: AppEvent, env: Env)
    requires Inv(cfg, a) && env.FailureFree() && !ev.NewCall?
    ensures var b := Step(cfg, a, ev, env);
            b.store.nextId == a.store.nextId && b.requests == a.requests + NewRequests(cfg, a, ev)
  {
    match ev
    case CallStatusUpdate(pid, cid, status) =>
      if Key(pid, cid) in a.active && status != Idle {
        StatusEffect(cfg, a, Key(pid, cid), status, env);
      }
    case CallInfoUpdate(pid, cid, info) =>
      if Key(pid, cid) in a.active {
        InfoEffect(cfg, a, Key(pid, cid), info, env);
      }
    case ResolverResponse(key, data, sn) =>
      ResponseEffect(cfg, a, key, data, sn, env);
  }

  lemma OtherOrigins(cfg: Config, base: int, a: App, ev: AppEvent, env: Env, o: int -> Option<AppEvent>)
    requires Inv(cfg, a) && env.FailureFree() && OriginsOk(base, a, o) && !ev.NewCall?
    ensures OriginsOk(base, Step(cfg, a, ev, env), o)
  {
    var b := Step(cfg, a, ev, env);
    StepKeeps(cfg, a, ev, env);
    StepKeepsInv(cfg, a, ev, env);
    OtherEvent(cfg, a, ev, env);
    forall k | k in b.active
      ensures Announced(o(b.active[k].dbKey), b.active[k].progress.jtype) && SameCall(o(b.active[k].dbKey).value, k)
    {
      assert EntryOk(b.store, k, b.active[k]) && EntryKept(a, b, k);
      assert Keeps(a.active[k].ToRow(), b.active[k].ToRow());
    }
    forall r | r in b.requests ensures RequestOk(o(r.key), r) {
      if r !in a.requests {
        MergeOnline(cfg, a.active[Key(ev.pid, ev.cid)], ev.info);
      }
    }
  }

  lemma {:induction false} RunOrigins(cfg: Config, a: App, steps: seq<Timed>)
    requires Started(cfg, a) && FailureFree(steps)
    ensures OriginsOk(a.store.nextId, Run(cfg, a, steps), id => Origin(cfg, a, steps, id))
  {
    RunKeepsInv(cfg, a, steps);
    if steps != [] {
      var front, last := steps[..|steps| - 1], steps[|steps| - 1];
      RunOrigins(cfg, a, front);
      RunKeepsInv(cfg, a, front);
      var base, b := a.store.nextId, Run(cfg, a, front);
      if last.ev.NewCall? {
        NewCallOrigins(cfg, base, b, last.ev, last.env,
                       id => Origin(cfg, a, front, id), id => Origin(cfg, a, steps, id));
      } else {
        OtherOrigins(cfg, base, b, last.ev, last.env, id => Origin(cfg, a, front, id));
        assert forall id :: Origin(cfg, a, steps, id) == Origin(cfg, a, front, id);
      }
    }
  }

  /** A stored call is incoming or outgoing just as it was announced, and its filters say so. */
  lemma TypeOfOrigin(cfg: Config, a: App, steps: seq<Timed>, id: int)
    requires Started(cfg, a) && FailureFree(steps)
    requires id in Run(cfg, a, steps).store.calls && id >= a.store.nextId
    ensures var o, r := Origin(cfg, a, steps, id), Run(cfg, a, steps).store.calls[id];
            && o.Some? && o.value.NewCall?
            && (o.value.ctype == TypeIncoming <==> r.jtype == JIncoming)
            && (o.value.ctype == TypeOutgoing <==> r.jtype == JOutgoing)
            && (InFilter(Incoming, r) <==> o.value.ctype == TypeIncoming)
            && (InFilter(Outgoing, r) <==> o.value.ctype == TypeOutgoing)
  {
    RunOrigins(cfg, a, steps);
  }

  /** Over a whole run, only the number of the party at the far end of a call is ever given
      to an online service, and no empty number is looked up; the call is the one announced
      with the request's key, whether its entry or row is still there or not. */
  lemma OnlyFarPartyOnline(cfg: Config, a: App, steps: seq<Timed>, r: Request)
    requires Started(cfg, a) && FailureFree(steps) && r in Run(cfg, a, steps).requests
    ensures RequestOk(Origin(cfg, a, steps, r.key), r)
  {
    RunOrigins(cfg, a, steps);
  }

  // ----- Fritz!Box calls -----

  /** Every event of the Fritz!Box provider is the work of some message. */
  ghost predicate FromBox(ev: AppEvent) {
    !ev.ResolverResponse? && ev.pid == FRITZ_PID ==> exists msg :: ev in FritzStream.Dispatch(msg)
  }

  lemma BoxNeverDisconnects(ev: AppEvent)
    requires FromBox(ev) && !ev.ResolverResponse? && ev.pid == FRITZ_PID && !ev.CallInfoUpdate?
    ensures ev.status != Disconnected
  {
  }

  ghost predicate OfBox(o: Option<AppEvent>) {
    o.Some? && o.value.NewCall? && o.value.pid == FRITZ_PID
  }

  /** One more event delivers no DISCONNECTED to a call of the box. */
  lemma BoxDelivery(a: App, ev: AppEvent, id: int, o: Option<AppEvent>, d: seq<CallStatus>)
    requires FromBox(ev) && (OfBox(o) ==> Disconnected !in d) && (id == a.store.nextId ==> d == [])
    requires EntriesOf(a, id, o)
    ensures OfBox(if ev.NewCall? && id == a.store.nextId then Some(ev) else o)
            ==> Disconnected !in d + DeliveredBy(a, ev, id)
  {
    if !ev.ResolverResponse? && ev.pid == FRITZ_PID && !ev.CallInfoUpdate? {
      BoxNeverDisconnects(ev);
    }
  }

  lemma {:induction false} BoxDeliveries(cfg: Config, a: App, steps: seq<Timed>, id: int)
    requires Started(cfg, a) && FailureFree(steps) && forall t :: t in steps ==> FromBox(t.ev)
    ensures OfBox(Origin(cfg, a, steps, id)) ==> Disconnected !in Delivered(cfg, a, steps, id)
  {
    if steps != [] {
      var front, ev := steps[..|steps| - 1], steps[|steps| - 1].ev;
      BoxDeliveries(cfg, a, front, id);
      OriginOfActive(cfg, a, front, id);
      BoxDelivery(Run(cfg, a, front), ev, id, Origin(cfg, a, front, id), Delivered(cfg, a, front, id));
    }
  }

  /** Active entries with the key id belong to the call o. */
  ghost predicate EntriesOf(a: App, id: int, o: Option<AppEvent>) {
    forall k :: k in a.active && a.active[k].dbKey == id ==> o.Some? && SameCall(o.value, k)
  }

  lemma OriginOfActive(cfg: Config, a: App, steps: seq<Timed>, id: int)
    requires Started(cfg, a) && FailureFree(steps)
    ensures var b, o := Run(cfg, a, steps), Origin(cfg, a, steps, id);
            && (id == b.store.nextId ==> Delivered(cfg, a, steps, id) == [])
            && EntriesOf(b, id, o)
  {
    RunHistory(cfg, a, steps);
    RunOrigins(cfg, a, steps);
    var d := (i: int) => Delivered(cfg, a, steps, i);
    assert HistoryOk(a.store.nextId, Run(cfg, a, steps), d);
    assert d(id) == Delivered(cfg, a, steps, id);
  }

  /** A call that a Fritz!Box announced never gets a duration: the end of a call is posted as
      TCALL_IDLE, and DISCONNECTED, which alone computes one, is never posted. */
  lemma BoxCallsHaveNoDuration(cfg: Config, a: App, steps: seq<Timed>, id: int)
    requires Started(cfg, a) && FailureFree(steps) && forall t :: t in steps ==> FromBox(t.ev)
    requires id in Run(cfg, a, steps).store.calls && id >= a.store.nextId
    requires OfBox(Origin(cfg, a, steps, id))
    ensures Run(cfg, a, steps).store.calls[id].dur == 0
  {
    BoxDeliveries(cfg, a, steps, id);
    DurationNeedsDisconnect(cfg, a, steps, id);
  }
}
