/** Which statuses a line posts, told from its messages alone, and what the journal makes of
    them. */
module TapiStatuses {
  import opened Common
  import opened CallTypes
  import opened JournalEntries
  import opened JournalStore
  import opened MainApps
  import opened CallRuns
  import opened CallOrigins
  import opened TapiLines

  /** The line states behind a status that is posted for a call that has been reported. */
  predicate Carries(st: CallStatus, to: LineState) {
    match st
    case Connected => to == LsConnected || to == LsAccepted
    case Disconnected => to == LsDisconnected
    case Busy => to == LsBusy
    case Ringback => to == LsRingback
    case Dialing => to == LsDialing
    case Proceeding => to == LsProceeding
    case OnHold => to == LsOnHold
    case Conferenced => to == LsConferenced || to == LsOnHoldPendConf || to == LsOnHoldPendTransfer
    case StatusUnknown => to == LsIdle || to == LsSpecialInfo || to.Other?
    case _ => false
  }

  /** The state messages for h, while its call is reported, with a state behind the status. */
  function Signalled(ms: seq<Msg>, h: nat, st: CallStatus): nat {
    if ms == [] then 0 else
    var front, m := ms[..|ms| - 1], ms[|ms| - 1];
    var calls := LineRun(map[], front).0;
    Signalled(front, h, st) +
      (if m.CallStateMsg? && m.handle == h && h in calls && calls[h].reported && Carries(st, m.state) then 1 else 0)
  }

  /** The updates to the status that have been posted for h. */
  function PostedFor(evs: seq<AppEvent>, h: nat, st: CallStatus): nat {
    if evs == [] then 0
    else PostedFor(evs[..|evs| - 1], h, st) +
         (if evs[|evs| - 1] == CallStatusUpdate(TAPI_PID, h, st) then 1 else 0)
  }

  lemma {:induction false} PostedAppend(p: seq<AppEvent>, q: seq<AppEvent>, h: nat, st: CallStatus)
    ensures PostedFor(p + q, h, st) == PostedFor(p, h, st) + PostedFor(q, h, st)
  {
    if q == [] {
      assert p + q == p;
    } else {
      assert (p + q)[..|p| + |q| - 1] == p + q[..|q| - 1];
      PostedAppend(p, q[..|q| - 1], h, st);
    }
  }

  lemma PostedOne(ev: AppEvent, h: nat, st: CallStatus)
    ensures PostedFor([ev], h, st) == if ev == CallStatusUpdate(TAPI_PID, h, st) then 1 else 0
  {
    assert [ev][..0] == [];
  }

  /** A call that has been reported posts a status for every state but OFFERING and DIALTONE,
      and the status that carries the state. */
  lemma StateCarried(c: Call, to: LineState, h: nat, st: CallStatus)
    requires st != Idle
    ensures var events := SwitchState(c, to).1;
            PostedFor(ToAppEvents(events), h, st) == if c.id == h && c.reported && Carries(st, to) then 1 else 0
  {
    var events := SwitchState(c, to).1;
    StateEvent(c, to);
    if events == [] {
      assert ToAppEvents(events) == [];
    } else {
      assert ToAppEvents(events) == [ToAppEvent(events[0])];
      PostedOne(ToAppEvent(events[0]), h, st);
      if events[0].TafState? {
        StatusCarries(to, st);
      }
    }
  }

  lemma StateEvent(c: Call, to: LineState)
    ensures var (d, events) := SwitchState(c, to);
            && d.id == c.id && |events| <= 1
            && (events == [] ==> !c.reported || to == LsOffering || to == LsDialtone)
            && (events != [] ==> events[0] == TafState(c.(state := to)) || events[0].TafNew?)
            && (events != [] && events[0].TafNew? ==> !c.reported)
            && (events != [] && events[0].TafState? ==> c.reported && to != LsOffering && to != LsDialtone)
  {
  }

  lemma StatusCarries(to: LineState, st: CallStatus)
    requires st != Idle && to != LsOffering && to != LsDialtone
    ensures GetCallStatus(to) == st <==> Carries(st, to)
  {
  }

  lemma InfoPostsNoStatus(c: Call, m: Msg, h: nat, st: CallStatus)
    requires !m.CallStateMsg?
    ensures PostedFor(ToAppEvents(CallStep(c, m).1), h, st) == 0
  {
    var events := CallStep(c, m).1;
    if events == [] {
      assert ToAppEvents(events) == [];
    } else {
      assert ToAppEvents(events) == [ToAppEvent(events[0])];
      PostedOne(ToAppEvent(events[0]), h, st);
    }
  }

  lemma DeletionPostsIdle(more: seq<TafEvent>, c: Call, h: nat, st: CallStatus)
    requires st != Idle
    ensures PostedFor(ToAppEvents(more + [TafDeleted(c)]), h, st) == PostedFor(ToAppEvents(more), h, st)
  {
    var del := [TafDeleted(c)];
    ToAppEventsAppend(more, del);
    assert ToAppEvents(del) == [ToAppEvent(TafDeleted(c))];
    PostedAppend(ToAppEvents(more), ToAppEvents(del), h, st);
    PostedOne(ToAppEvent(TafDeleted(c)), h, st);
  }

  lemma StepPosts(calls: map<nat, Call>, m: Msg, h: nat, st: CallStatus)
    requires LineOk(calls) && st != Idle
    ensures PostedFor(ToAppEvents(LineStep(calls, m).1), h, st)
            == if m.CallStateMsg? && m.handle == h && h in calls && calls[h].reported && Carries(st, m.state) then 1
               else 0
  {
    if !m.LineClose? && !m.AppNewCall? && m.handle in calls {
      var (c, more) := CallStep(calls[m.handle], m);
      if m.CallStateMsg? {
        StateCarried(calls[m.handle], m.state, h, st);
      } else {
        InfoPostsNoStatus(calls[m.handle], m, h, st);
      }
      DeletionPostsIdle(more, c, h, st);
    } else {
      assert ToAppEvents([]) == [];
    }
  }

  /** Over every run of a line: each status is posted for a handle exactly as often as one of
      its line states is signalled while the call is reported. */
  lemma {:induction false} StatusesAreSignalled(ms: seq<Msg>, h: nat, st: CallStatus)
    requires st != Idle
    ensures PostedFor(ToAppEvents(LineRun(map[], ms).1), h, st) == Signalled(ms, h, st)
    ensures LineOk(LineRun(map[], ms).0)
  {
    if ms == [] {
      assert ToAppEvents([]) == [];
    } else {
      var front, m := ms[..|ms| - 1], ms[|ms| - 1];
      StatusesAreSignalled(front, h, st);
      var (before, events) := LineRun(map[], front);
      StepPosts(before, m, h, st);
      LineStepDeletions(before, m, h);
      ToAppEventsAppend(events, LineStep(before, m).1);
      PostedAppend(ToAppEvents(events), ToAppEvents(LineStep(before, m).1), h, st);
    }
  }

  /** In the run, h has got one of the states. */
  predicate Got(ms: seq<Msg>, h: nat, st: CallStatus) {
    exists i :: 0 <= i < |ms| && ms[i].CallStateMsg? && ms[i].handle == h && Carries(st, ms[i].state)
  }

  lemma GotInFront(ms: seq<Msg>, h: nat, st: CallStatus)
    requires ms != []
    ensures Got(ms[..|ms| - 1], h, st) ==> Got(ms, h, st)
  {
    var front := ms[..|ms| - 1];
    if i :| 0 <= i < |front| && front[i].CallStateMsg? && front[i].handle == h && Carries(st, front[i].state) {
      assert ms[i] == front[i];
    }
  }

  lemma {:induction false} NotGotNotSignalled(ms: seq<Msg>, h: nat, st: CallStatus)
    requires !Got(ms, h, st)
    ensures Signalled(ms, h, st) == 0
  {
    if ms != [] {
      var front := ms[..|ms| - 1];
      GotInFront(ms, h, st);
      NotGotNotSignalled(front, h, st);
    }
  }

  lemma {:induction false} PostedIsThere(evs: seq<AppEvent>, i: nat, h: nat, st: CallStatus)
    requires i < |evs| && evs[i] == CallStatusUpdate(TAPI_PID, h, st)
    ensures PostedFor(evs, h, st) >= 1
  {
    if i < |evs| - 1 {
      PostedIsThere(evs[..|evs| - 1], i, h, st);
    }
  }

  /** A live call is announced exactly if it has not been reported and the line offers it or
      signals ringback, busy or connected; otherwise an unreported call raises nothing. */
  lemma AnnouncedIff(calls: map<nat, Call>, h: nat, to: LineState)
    requires LineOk(calls) && h in calls && to != LsIdle
    ensures var events := LineStep(calls, CallStateMsg(h, to)).1;
            var setsOff := to == LsOffering || to == LsRingback || to == LsBusy || to == LsConnected;
            && ((exists e :: e in events && e.TafNew?) <==> !calls[h].reported && setsOff)
            && (!calls[h].reported && !setsOff ==> events == [])
  {
    var events := SwitchState(calls[h], to).1;
    assert LineStep(calls, CallStateMsg(h, to)).1 == events;
    if events != [] {
      assert events == [events[0]] && events[0] in events;
    }
  }

  /** The status of a NEW_CALL carries the state that reported the call. */
  lemma AnnouncementCarries(calls: map<nat, Call>, m: Msg, e: TafEvent)
    requires LineOk(calls) && e in LineStep(calls, m).1 && e.TafNew?
    ensures var ev := ToAppEvent(e);
            && m.CallStateMsg? && ev.NewCall? && ev.cid == m.handle
            && (if m.state == LsOffering then ev.status == Offering else Carries(ev.status, m.state))
  {
  }

  /** CONNECTED comes to the application, as an update or with a NEW_CALL, only for a handle
      that has got CONNECTED or ACCEPTED from the line. */
  lemma {:induction false} ConnectedOnlyIfGot(ms: seq<Msg>, h: nat, ev: AppEvent)
    requires ev in ToAppEvents(LineRun(map[], ms).1) && !Got(ms, h, Connected)
    ensures ev != CallStatusUpdate(TAPI_PID, h, Connected)
    ensures ev.NewCall? && ev.cid == h ==> ev.status != Connected
  {
    var evs := ToAppEvents(LineRun(map[], ms).1);
    NotGotNotSignalled(ms, h, Connected);
    StatusesAreSignalled(ms, h, Connected);
    var i :| 0 <= i < |evs| && evs[i] == ev;
    if ev == CallStatusUpdate(TAPI_PID, h, Connected) {
      PostedIsThere(evs, i, h, Connected);
    }
    if ev.NewCall? && ev.cid == h {
      NewOnlyIfGot(ms, i, h);
    }
  }

  lemma {:induction false} NewOnlyIfGot(ms: seq<Msg>, i: nat, h: nat)
    requires i < |LineRun(map[], ms).1| && !Got(ms, h, Connected)
    ensures var ev := ToAppEvent(LineRun(map[], ms).1[i]); ev.NewCall? && ev.cid == h ==> ev.status != Connected
  {
    var front, m := ms[..|ms| - 1], ms[|ms| - 1];
    var (before, events) := LineRun(map[], front);
    StatusesAreSignalled(front, h, Connected);
    if i < |events| {
      GotInFront(ms, h, Connected);
      NewOnlyIfGot(front, i, h);
    } else {
      var e := LineStep(before, m).1[i - |events|];
      assert e == LineRun(map[], ms).1[i];
      if e.TafNew? {
        AnnouncementCarries(before, m, e);
      }
    }
  }

  // ----- Down to the journal -----

  /** Every TAPI event of the run is one of these. */
  ghost predicate TapiEventsIn(steps: seq<Timed>, evs: seq<AppEvent>) {
    forall t :: t in steps && !t.ev.ResolverResponse? && t.ev.pid == TAPI_PID ==> t.ev in evs
  }

  ghost predicate NeverConnects(evs: seq<AppEvent>, h: nat) {
    forall ev :: ev in evs ==>
      ev != CallStatusUpdate(TAPI_PID, h, Connected) && (ev.NewCall? && ev.cid == h ==> ev.status != Connected)
  }

  ghost predicate OfHandle(o: Option<AppEvent>, h: nat) {
    o.Some? && o.value.NewCall? && o.value.pid == TAPI_PID && o.value.cid == h
  }

  /** One more event delivers no CONNECTED to a call of h, if none of the events has one. */
  lemma LineDelivery(a: App, ev: AppEvent, evs: seq<AppEvent>, h: nat, id: int, o: Option<AppEvent>, d: seq<CallStatus>)
    requires NeverConnects(evs, h) && (!ev.ResolverResponse? && ev.pid == TAPI_PID ==> ev in evs)
    requires (OfHandle(o, h) ==> Connected !in d) && (id == a.store.nextId ==> d == [])
    requires EntriesOf(a, id, o)
    ensures OfHandle(if ev.NewCall? && id == a.store.nextId then Some(ev) else o, h)
            ==> Connected !in d + DeliveredBy(a, ev, id)
  {
  }

  lemma {:induction false} LineDeliveries(cfg: Config, a: App, steps: seq<Timed>, evs: seq<AppEvent>, h: nat, id: int)
    requires Started(cfg, a) && FailureFree(steps) && TapiEventsIn(steps, evs) && NeverConnects(evs, h)
    ensures OfHandle(Origin(cfg, a, steps, id), h) ==> Connected !in Delivered(cfg, a, steps, id)
  {
    if steps != [] {
      var front, ev := steps[..|steps| - 1], steps[|steps| - 1].ev;
      assert steps[|steps| - 1] in steps;
      LineDeliveries(cfg, a, front, evs, h, id);
      OriginOfActive(cfg, a, front, id);
      LineDelivery(Run(cfg, a, front), ev, evs, h, id, Origin(cfg, a, front, id), Delivered(cfg, a, front, id));
    }
  }

  /** A call that the line offers, and that it never reports as accepted or connected, is listed
      as a call in absence: whatever else is handled, in whatever order. */
  lemma MissedCallIsListed(cfg: Config, a: App, steps: seq<Timed>, ms: seq<Msg>, h: nat, id: int)
    requires Started(cfg, a) && FailureFree(steps) && TapiEventsIn(steps, ToAppEvents(LineRun(map[], ms).1))
    requires !Got(ms, h, Connected)
    requires id in Run(cfg, a, steps).store.calls && id >= a.store.nextId
    requires var o := Origin(cfg, a, steps, id); OfHandle(o, h) && o.value.ctype == TypeIncoming
    ensures InFilter(CallsInAbsence, Run(cfg, a, steps).store.calls[id])
  {
    var evs := ToAppEvents(LineRun(map[], ms).1);
    forall ev | ev in evs
      ensures ev != CallStatusUpdate(TAPI_PID, h, Connected) && (ev.NewCall? && ev.cid == h ==> ev.status != Connected)
    {
      ConnectedOnlyIfGot(ms, h, ev);
    }
    LineDeliveries(cfg, a, steps, evs, h, id);
    AbsenceMeansNeverConnected(cfg, a, steps, id);
    TypeOfOrigin(cfg, a, steps, id);
  }
}
