/** The TAPI side (plugin_cp_tapi): `CTafCall` and `CTafLine` turn line messages into call
    events, and `CTapiCallMonitor` turns those into queued application events. */
module TapiLines {
  import opened Common
  import opened CallTypes

  /** The call states of the telephony interface; `Other` is any further code, among them
      the zero of a call that has not reported a state yet. */
  datatype LineState =
    | LsIdle | LsOffering | LsAccepted | LsDialtone | LsDialing | LsRingback | LsBusy | LsSpecialInfo
    | LsConnected | LsProceeding | LsOnHold | LsConferenced | LsOnHoldPendConf | LsOnHoldPendTransfer
    | LsDisconnected | Other(code: nat)

  datatype TafType = TctUnknown | TctIncoming | TctOutgoing

  /** What one query of the call's particulars yields; `None` where the driver has nothing. */
  datatype Query = Query(ok: bool, callerAddress: Option<string>, callerName: Option<string>,
                         calledAddress: Option<string>, calledName: Option<string>)

  datatype Call = Call(id: nat, state: LineState, ctype: TafType, reported: bool, info: CallInfo)

  /** Messages of a line. Queries are answered by the driver, so a message carries the answer. */
  datatype Msg =
    | LineClose
    | AppNewCall(handle: nat, query: Query)
    | CallInfoMsg(handle: nat, query: Query)
    | CallStateMsg(handle: nat, state: LineState)
    | ReplyMsg(handle: nat)

  /** What the line tells its observers, with the call as it is at that moment. */
  datatype TafEvent = TafNew(call: Call) | TafInfo(call: Call) | TafState(call: Call) | TafDeleted(call: Call)

  function Assign(old_: string, new_: Option<string>): string {
    if new_.Some? then new_.value else old_
  }

  /** `queryInfo`: the called party's name ends up in the address field, as in the original. What that
      breaks is stated below. */
  function QueryInfo(i: CallInfo, q: Query): CallInfo {
    if !q.ok then i else
    i.(callerAddress := Assign(i.callerAddress, q.callerAddress),
       callerName := Assign(i.callerName, q.callerName),
       calledAddress := Assign(Assign(i.calledAddress, q.calledAddress), q.calledName))
  }

  function FreshCall(id: nat, q: Query): Call {
    Call(id, Other(0), TctUnknown, false, QueryInfo(CallInfo("", "", "", ""), q))
  }

  /** `switchState`: the call afterwards and the events it raises. */
  function SwitchState(c: Call, to: LineState): (Call, seq<TafEvent>) {
    var d := c.(state := to);
    if to == LsOffering then
      var n := d.(ctype := TctIncoming);
      (n.(reported := true), if c.reported then [] else [TafNew(n)])
    else if to == LsDialtone then
      (d.(ctype := TctOutgoing), [])
    else if to in {LsRingback, LsBusy, LsConnected} && !c.reported then
      var n := d.(ctype := TctOutgoing);
      (n.(reported := true), [TafNew(n)])
    else
      (d, if c.reported then [TafState(d)] else [])
  }

  function CallStep(c: Call, m: Msg): (Call, seq<TafEvent>) {
    match m
    case CallStateMsg(_, to) => SwitchState(c, to)
    case CallInfoMsg(_, q) =>
      var d := c.(info := QueryInfo(c.info, q));
      (d, if c.reported then [TafInfo(d)] else [])
    case _ => (c, [])
  }

  /** `CTafLine::handleMessage`: the live calls afterwards and the events raised. */
  function LineStep(calls: map<nat, Call>, m: Msg): (map<nat, Call>, seq<TafEvent>) {
    match m
    case LineClose => (map[], [])
    case AppNewCall(h, q) => (if h in calls then calls else calls[h := FreshCall(h, q)], [])
    case _ =>
      if m.handle !in calls then (calls, []) else
      var (c, events) := CallStep(calls[m.handle], m);
      if c.state == LsIdle then (calls - {m.handle}, events + [TafDeleted(c)])
      else (calls[m.handle := c], events)
  }

  function LineRun(calls: map<nat, Call>, ms: seq<Msg>): (map<nat, Call>, seq<TafEvent>) {
    if ms == [] then (calls, []) else
    var (before, events) := LineRun(calls, ms[..|ms| - 1]);
    var (after, more) := LineStep(before, ms[|ms| - 1]);
    (after, events + more)
  }

  // ----- Life of a call -----

  ghost predicate LineOk(calls: map<nat, Call>) {
    forall h :: h in calls ==> calls[h].id == h && calls[h].state != LsIdle
  }

  /** Handle h is open after the events: its last NEW_CALL has no CALL_DELETED behind it. */
  ghost predicate Open(events: seq<TafEvent>, h: nat) {
    exists i :: 0 <= i < |events| && events[i].TafNew? && events[i].call.id == h
             && forall j :: i < j < |events| ==> !(events[j].TafDeleted? && events[j].call.id == h)
  }

  /** An event that may follow `before`: NEW_CALL only for a handle that is not open, and with
      a known type; updates only for one that is. */
  ghost predicate MayFollow(before: seq<TafEvent>, e: TafEvent) {
    match e
    case TafNew(c) => !Open(before, c.id) && c.ctype != TctUnknown
    case TafDeleted(_) => true
    case _ => Open(before, e.call.id)
  }

  /** Every event of the sequence may follow those before it: for each handle, updates lie
      between a NEW_CALL and the next CALL_DELETED, and NEW_CALL is not repeated before it. */
  ghost predicate Orderly(events: seq<TafEvent>) {
    forall i :: 0 <= i < |events| ==> MayFollow(events[..i], events[i])
  }

  lemma OrderlyAppend(events: seq<TafEvent>, e: TafEvent)
    requires Orderly(events) && MayFollow(events, e)
    ensures Orderly(events + [e])
  {
    forall i | 0 <= i < |events| + 1 ensures MayFollow((events + [e])[..i], (events + [e])[i]) {
      if i < |events| {
        assert (events + [e])[..i] == events[..i];
      } else {
        assert (events + [e])[..i] == events;
      }
    }
  }

  /** How one more event changes which handles are open. */
  lemma OpenAppend(events: seq<TafEvent>, e: TafEvent, h: nat)
    ensures Open(events + [e], h) <==>
            if e.call.id == h && e.TafNew? then true
            else if e.call.id == h && e.TafDeleted? then false
            else Open(events, h)
  {
    var all := events + [e];
    if e.call.id == h && e.TafNew? {
      assert all[|events|] == e;
    } else {
      if i :| 0 <= i < |events| && events[i].TafNew? && events[i].call.id == h
              && forall j :: i < j < |events| ==> !(events[j].TafDeleted? && events[j].call.id == h) {
        if !(e.TafDeleted? && e.call.id == h) {
          assert all[i] == events[i];
        }
      }
      if i :| 0 <= i < |all| && all[i].TafNew? && all[i].call.id == h
              && forall j :: i < j < |all| ==> !(all[j].TafDeleted? && all[j].call.id == h) {
        assert i < |events| && events[i] == all[i];
        assert forall j :: i < j < |events| ==> events[j] == all[j];
        assert all[|events|] == e;
      }
    }
  }

  /** The open handles are those of the live calls that have been reported. */
  ghost predicate OpenMatches(calls: map<nat, Call>, events: seq<TafEvent>) {
    forall h: nat :: Open(events, h) <==> h in calls && calls[h].reported
  }

  ghost predicate RunOk(calls: map<nat, Call>, events: seq<TafEvent>) {
    LineOk(calls) && Orderly(events) && OpenMatches(calls, events)
  }

  /** One event of a live call, appended. */
  lemma Emit(calls: map<nat, Call>, events: seq<TafEvent>, h: nat, e: TafEvent)
    requires Orderly(events) && h in calls && e.call.id == h && MayFollow(events, e)
    requires forall x: nat :: x != h ==> (Open(events, x) <==> x in calls && calls[x].reported)
    requires e.TafNew? ==> calls[h].reported
    requires e.TafInfo? || e.TafState? ==> calls[h].reported
    requires !e.TafDeleted?
    ensures Orderly(events + [e]) && OpenMatches(calls, events + [e])
  {
    OrderlyAppend(events, e);
    forall x: nat ensures Open(events + [e], x) <==> x in calls && calls[x].reported {
      OpenAppend(events, e, x);
    }
  }

  lemma Delete(calls: map<nat, Call>, events: seq<TafEvent>, c: Call)
    requires LineOk(calls - {c.id}) && Orderly(events)
    requires forall x: nat :: x != c.id ==> (Open(events, x) <==> x in calls && calls[x].reported)
    ensures RunOk(calls - {c.id}, events + [TafDeleted(c)])
  {
    OrderlyAppend(events, TafDeleted(c));
    forall x: nat
      ensures Open(events + [TafDeleted(c)], x) <==> x in calls - {c.id} && (calls - {c.id})[x].reported
    {
      OpenAppend(events, TafDeleted(c), x);
    }
  }

  /** A call handles a message: at most one event, in order, and its report flag tells
      whether it is open. */
  lemma CallStepOk(calls: map<nat, Call>, events: seq<TafEvent>, h: nat, m: Msg)
    requires RunOk(calls, events) && h in calls
    ensures var (c, more) := CallStep(calls[h], m);
            c.id == h && Orderly(events + more) && OpenMatches(calls[h := c], events + more)
  {
    var (c, more) := CallStep(calls[h], m);
    assert |more| <= 1;
    if more == [] {
      assert events + more == events;
    } else {
      Emit(calls[h := c], events, h, more[0]);
      assert more == [more[0]];
    }
  }

  lemma LineStepOk(calls: map<nat, Call>, events: seq<TafEvent>, m: Msg)
    requires RunOk(calls, events) && !m.LineClose?
    ensures var (after, more) := LineStep(calls, m); RunOk(after, events + more)
  {
    assert events + [] == events;
    if m.AppNewCall? {
    } else if m.handle in calls {
      var h := m.handle;
      CallStepOk(calls, events, h, m);
      var (c, more) := CallStep(calls[h], m);
      if c.state == LsIdle {
        Delete(calls[h := c], events + more, c);
        assert calls[h := c] - {h} == calls - {h};
        assert events + (more + [TafDeleted(c)]) == (events + more) + [TafDeleted(c)];
      }
    }
  }

  /** For every sequence of messages on a line, without the line being closed, the events are
      orderly and the open handles are exactly the live, reported calls. */
  lemma {:induction false} EventsAreOrderly(ms: seq<Msg>)
    requires forall m :: m in ms ==> !m.LineClose?
    ensures var (calls, events) := LineRun(map[], ms); RunOk(calls, events)
  {
    if ms != [] {
      EventsAreOrderly(ms[..|ms| - 1]);
      var (before, events) := LineRun(map[], ms[..|ms| - 1]);
      LineStepOk(before, events, ms[|ms| - 1]);
    }
  }

  /** A call is announced as incoming with the status OFFERING, and as outgoing with the first
      status that shows a call at all. */
  ghost predicate WellAnnounced(ev: AppEvent) {
    ev.NewCall? ==> || (ev.ctype == TypeIncoming && ev.status == Offering)
                    || (ev.ctype == TypeOutgoing && ev.status in {Ringback, Busy, Connected})
  }

  lemma LineStepAnnounces(calls: map<nat, Call>, m: Msg)
    ensures forall e :: e in LineStep(calls, m).1 ==> WellAnnounced(ToAppEvent(e))
  {
  }

  lemma {:induction false} AnnouncedTypes(ms: seq<Msg>)
    ensures forall e :: e in LineRun(map[], ms).1 ==> WellAnnounced(ToAppEvent(e))
  {
    if ms != [] {
      AnnouncedTypes(ms[..|ms| - 1]);
      LineStepAnnounces(LineRun(map[], ms[..|ms| - 1]).0, ms[|ms| - 1]);
    }
  }

  function Deletions(events: seq<TafEvent>, h: nat): nat {
    if events == [] then 0
    else Deletions(events[..|events| - 1], h) +
         (if events[|events| - 1].TafDeleted? && events[|events| - 1].call.id == h then 1 else 0)
  }

  function Announcements(ms: seq<Msg>, h: nat): nat {
    if ms == [] then 0
    else Announcements(ms[..|ms| - 1], h) +
         (if ms[|ms| - 1].AppNewCall? && ms[|ms| - 1].handle == h then 1 else 0)
  }

  lemma {:induction false} DeletionsAppend(a: seq<TafEvent>, b: seq<TafEvent>, h: nat)
    ensures Deletions(a + b, h) == Deletions(a, h) + Deletions(b, h)
  {
    if b == [] {
      assert a + b == a;
    } else {
      assert (a + b)[..|a| + |b| - 1] == a + b[..|b| - 1];
      DeletionsAppend(a, b[..|b| - 1], h);
    }
  }

  lemma NoDeletionInCallStep(c: Call, m: Msg, h: nat)
    ensures Deletions(CallStep(c, m).1, h) == 0 && CallStep(c, m).0.id == c.id
  {
    var more := CallStep(c, m).1;
    assert |more| <= 1 && (|more| == 1 ==> !more[0].TafDeleted? && more == [more[0]]);
    assert |more| == 1 ==> more[..0] == [];
  }

  lemma OneDeletion(c: Call, h: nat)
    ensures Deletions([TafDeleted(c)], h) == if c.id == h then 1 else 0
  {
    assert [TafDeleted(c)][..0] == [];
  }

  lemma LineStepDeletions(calls: map<nat, Call>, m: Msg, h: nat)
    requires LineOk(calls)
    ensures var (after, more) := LineStep(calls, m);
            Deletions(more, h)
            == if m.LineClose? || m.AppNewCall? then 0 else if h in calls && h !in after then 1 else 0
    ensures LineOk(LineStep(calls, m).0)
  {
    if !m.LineClose? && !m.AppNewCall? && m.handle in calls {
      NoDeletionInCallStep(calls[m.handle], m, h);
      DeletionAtEnd(CallStep(calls[m.handle], m).0, CallStep(calls[m.handle], m).1, h);
    }
  }

  lemma DeletionAtEnd(c: Call, more: seq<TafEvent>, h: nat)
    requires Deletions(more, h) == 0
    ensures Deletions(more + [TafDeleted(c)], h) == if c.id == h then 1 else 0
  {
    OneDeletion(c, h);
    DeletionsAppend(more, [TafDeleted(c)], h);
  }

  /** Each announced call is deleted at most once: the deletions of a handle, together with
      a call still live on it, never outnumber its announcements. */
  lemma {:induction false} DeletedAtMostOnce(ms: seq<Msg>, h: nat)
    ensures var (calls, events) := LineRun(map[], ms);
            LineOk(calls) && Deletions(events, h) + (if h in calls then 1 else 0) <= Announcements(ms, h)
  {
    if ms != [] {
      var front, m := ms[..|ms| - 1], ms[|ms| - 1];
      DeletedAtMostOnce(front, h);
      var (before, events) := LineRun(map[], front);
      LineStepDeletions(before, m, h);
      DeletionsAppend(events, LineStep(before, m).1, h);
    }
  }

  // ----- The particulars of a call -----

  ghost predicate NoCalledNames(calls: map<nat, Call>) {
    forall h :: h in calls ==> calls[h].info.calledName == ""
  }

  lemma LineStepNamesNobody(calls: map<nat, Call>, m: Msg)
    requires NoCalledNames(calls)
    ensures NoCalledNames(LineStep(calls, m).0)
    ensures forall e :: e in LineStep(calls, m).1 ==> e.call.info.calledName == ""
  {
  }

  /** Over every run of a line, whatever the driver reports, no event carries a called name. */
  lemma {:induction false} CalledNameNeverKnown(ms: seq<Msg>)
    ensures NoCalledNames(LineRun(map[], ms).0)
    ensures forall e :: e in LineRun(map[], ms).1 ==> e.call.info.calledName == ""
  {
    if ms != [] {
      CalledNameNeverKnown(ms[..|ms| - 1]);
      LineStepNamesNobody(LineRun(map[], ms[..|ms| - 1]).0, ms[|ms| - 1]);
    }
  }

  /** The particulars after the first query, in the constructor, and all later ones. */
  function InfoAfter(qs: seq<Query>): CallInfo {
    if qs == [] then CallInfo("", "", "", "") else QueryInfo(InfoAfter(qs[..|qs| - 1]), qs[|qs| - 1])
  }

  /** The queries that the call live on h has made in the run. */
  function QueriesOf(ms: seq<Msg>, h: nat): seq<Query> {
    if ms == [] then [] else
    var front, m := ms[..|ms| - 1], ms[|ms| - 1];
    var live := h in LineRun(map[], front).0;
    if m.AppNewCall? && m.handle == h && !live then [m.query]
    else if m.CallInfoMsg? && m.handle == h && live then QueriesOf(front, h) + [m.query]
    else QueriesOf(front, h)
  }

  lemma {:induction false} InfoOfQueries(ms: seq<Msg>, h: nat)
    requires h in LineRun(map[], ms).0
    ensures LineRun(map[], ms).0[h].info == InfoAfter(QueriesOf(ms, h))
  {
    var front, m := ms[..|ms| - 1], ms[|ms| - 1];
    var before := LineRun(map[], front).0;
    if h in before {
      InfoOfQueries(front, h);
      if m.CallInfoMsg? && m.handle == h {
        assert (QueriesOf(front, h) + [m.query])[..|QueriesOf(front, h)|] == QueriesOf(front, h);
      }
    } else {
      assert m == AppNewCall(h, m.query);
      assert [m.query][..0] == [];
    }
  }

  /** The last text that a successful query brought, by the column f; empty if none did. */
  function LastBrought(qs: seq<Query>, f: Query -> Option<string>): string {
    if qs == [] then ""
    else if qs[|qs| - 1].ok && f(qs[|qs| - 1]).Some? then f(qs[|qs| - 1]).value
    else LastBrought(qs[..|qs| - 1], f)
  }

  lemma {:induction false} CallerAfter(qs: seq<Query>)
    ensures InfoAfter(qs).callerAddress == LastBrought(qs, (q: Query) => q.callerAddress)
    ensures InfoAfter(qs).callerName == LastBrought(qs, (q: Query) => q.callerName)
  {
    if qs != [] {
      CallerAfter(qs[..|qs| - 1]);
    }
  }

  /** Over every run of a line a live call has the caller's address and name that the driver
      reported last, and a query of a reported call posts all its particulars. */
  lemma CallerIsReported(ms: seq<Msg>, h: nat)
    requires h in LineRun(map[], ms).0
    ensures var i := LineRun(map[], ms).0[h].info;
            && i.callerAddress == LastBrought(QueriesOf(ms, h), (q: Query) => q.callerAddress)
            && i.callerName == LastBrought(QueriesOf(ms, h), (q: Query) => q.callerName)
  {
    InfoOfQueries(ms, h);
    CallerAfter(QueriesOf(ms, h));
  }

  lemma ParticularsArePosted(calls: map<nat, Call>, h: nat, q: Query)
    requires LineOk(calls) && h in calls && calls[h].reported
    ensures var (after, events) := LineStep(calls, CallInfoMsg(h, q));
            h in after && ToAppEvents(events) == [CallInfoUpdate(TAPI_PID, h, after[h].info)]
  {
    assert LineStep(calls, CallInfoMsg(h, q)).1 == [TafInfo(LineStep(calls, CallInfoMsg(h, q)).0[h])];
  }

  /** The called address that the driver reported last. */
  function DriverAddress(qs: seq<Query>): string {
    if qs == [] then ""
    else if qs[|qs| - 1].ok && qs[|qs| - 1].calledAddress.Some? then qs[|qs| - 1].calledAddress.value
    else DriverAddress(qs[..|qs| - 1])
  }

  /** The last successful query that said anything about the called party. */
  function LastAboutCalled(qs: seq<Query>): Option<Query> {
    if qs == [] then None else
    var q := qs[|qs| - 1];
    if q.ok && (q.calledAddress.Some? || q.calledName.Some?) then Some(q) else LastAboutCalled(qs[..|qs| - 1])
  }

  ghost predicate NoOtherName(qs: seq<Query>) {
    match LastAboutCalled(qs)
    case None => true
    case Some(q) => q.calledName.None? || q.calledName.value == DriverAddress(qs)
  }

  lemma {:induction false} AddressAfterIff(qs: seq<Query>)
    ensures InfoAfter(qs).calledAddress == DriverAddress(qs) <==> NoOtherName(qs)
  {
    if qs != [] {
      AddressAfterIff(qs[..|qs| - 1]);
    }
  }

  /** Over every run of a line, the first query of each call included: a live call has the
      called address that the driver reported last if and only if the last query about the
      called party brought no name, or one that equals the address. */
  lemma CalledAddressIffNoName(ms: seq<Msg>, h: nat)
    requires h in LineRun(map[], ms).0
    ensures LineRun(map[], ms).0[h].info.calledAddress == DriverAddress(QueriesOf(ms, h))
            <==> NoOtherName(QueriesOf(ms, h))
  {
    InfoOfQueries(ms, h);
    AddressAfterIff(QueriesOf(ms, h));
  }

  const BOB := Query(true, None, None, Some("555"), Some("Bob"))
  const BOB_QUIET := Call(1, Other(0), TctUnknown, false, CallInfo("Bob", "", "", ""))
  const BOB_RINGS := Call(1, LsRingback, TctOutgoing, true, CallInfo("Bob", "", "", ""))

  lemma BobSteps()
    ensures LineStep(map[], AppNewCall(1, BOB)) == (map[1 := BOB_QUIET], [])
    ensures LineStep(map[1 := BOB_QUIET], CallStateMsg(1, LsRingback))
            == (map[1 := BOB_RINGS], [TafNew(BOB_RINGS.(reported := false))])
    ensures LineStep(map[1 := BOB_RINGS], CallInfoMsg(1, BOB)) == (map[1 := BOB_RINGS], [TafInfo(BOB_RINGS)])
  {
    assert FreshCall(1, BOB) == BOB_QUIET;
    assert SwitchState(BOB_QUIET, LsRingback) == (BOB_RINGS, [TafNew(BOB_RINGS.(reported := false))]);
    assert QueryInfo(BOB_RINGS.info, BOB) == BOB_RINGS.info;
    assert map[1 := BOB_QUIET][1 := BOB_RINGS] == map[1 := BOB_RINGS];
    assert map[1 := BOB_RINGS][1 := BOB_RINGS] == map[1 := BOB_RINGS];
  }

  /** An outgoing call to 555 whose driver knows the name: the application is told that the
      call goes to the number "Bob". */
  lemma BobIsANumber()
    ensures ToAppEvents(LineRun(map[], [AppNewCall(1, BOB), CallStateMsg(1, LsRingback), CallInfoMsg(1, BOB)]).1)
            == [NewCall(TAPI_PID, 1, TypeOutgoing, Ringback), CallInfoUpdate(TAPI_PID, 1, CallInfo("Bob", "", "", ""))]
  {
    var m1, m2, m3 := AppNewCall(1, BOB), CallStateMsg(1, LsRingback), CallInfoMsg(1, BOB);
    BobSteps();
    RunMore([], m1);
    assert [] + [m1] == [m1];
    RunMore([m1], m2);
    assert [m1] + [m2] == [m1, m2];
    RunMore([m1, m2], m3);
    assert [m1, m2] + [m3] == [m1, m2, m3];
    assert LineRun(map[], [m1, m2, m3]).1 == [TafNew(BOB_RINGS.(reported := false)), TafInfo(BOB_RINGS)];
  }

  lemma RunMore(ms: seq<Msg>, m: Msg)
    ensures var (before, events) := LineRun(map[], ms);
            var (after, more) := LineStep(before, m);
            LineRun(map[], ms + [m]) == (after, events + more)
  {
    assert (ms + [m])[..|ms|] == ms;
  }

  // ----- From call events to application events -----

  function GetCallStatus(s: LineState): CallStatus {
    match s
    case LsOffering => Offering
    case LsAccepted => Connected
    case LsConnected => Connected
    case LsDisconnected => Disconnected
    case LsOnHold => OnHold
    case LsConferenced => Conferenced
    case LsOnHoldPendConf => Conferenced
    case LsOnHoldPendTransfer => Conferenced
    case LsDialtone => Dialtone
    case LsDialing => Dialing
    case LsRingback => Ringback
    case LsBusy => Busy
    case LsProceeding => Proceeding
    case _ => StatusUnknown
  }

  function CallTypeOf(t: TafType): CallType {
    match t
    case TctIncoming => TypeIncoming
    case TctOutgoing => TypeOutgoing
    case TctUnknown => TypeUnknown
  }

  function ToAppEvent(e: TafEvent): AppEvent {
    match e
    case TafNew(c) => NewCall(TAPI_PID, c.id, CallTypeOf(c.ctype), GetCallStatus(c.state))
    case TafInfo(c) => CallInfoUpdate(TAPI_PID, c.id, c.info)
    case TafState(c) => CallStatusUpdate(TAPI_PID, c.id, GetCallStatus(c.state))
    case TafDeleted(c) => CallStatusUpdate(TAPI_PID, c.id, Idle)
  }

  function ToAppEvents(es: seq<TafEvent>): seq<AppEvent> {
    seq(|es|, i requires 0 <= i < |es| => ToAppEvent(es[i]))
  }

  /** TCALL_IDLE reaches the application for a deletion and for nothing else. */
  lemma IdleMeansDeleted(e: TafEvent)
    ensures ToAppEvent(e).CallStatusUpdate? && ToAppEvent(e).status == Idle <==> e.TafDeleted?
  {
  }

  // ----- The objects -----

  class TafCall {
    const id: nat
    var state: LineState
    var ctype: TafType
    var reported: bool
    var info: CallInfo

    function Val(): Call
      reads this
    {
      Call(id, state, ctype, reported, info)
    }

    constructor (id: nat, q: Query)
      ensures Val() == FreshCall(id, q)
    {
      this.id, state, ctype, reported := id, Other(0), TctUnknown, false;
      info := QueryInfo(CallInfo("", "", "", ""), q);
    }

    method DoSwitchState(to: LineState, queue: EventQueue)
      modifies this, queue
      ensures Val() == SwitchState(old(Val()), to).0
      ensures queue.events == old(queue.events) + ToAppEvents(SwitchState(old(Val()), to).1)
    {
      state := to;
      match to
      case LsOffering =>
        ctype := TctIncoming;
        if !reported {
          OnTafEvent(TafNew(Val()), queue);
          reported := true;
        }
      case LsDialtone =>
        ctype := TctOutgoing;
      case LsRingback => FirstSignal(queue);
      case LsBusy => FirstSignal(queue);
      case LsConnected => FirstSignal(queue);
      case _ =>
        if reported {
          OnTafEvent(TafState(Val()), queue);
        }
    }

    /** The branch that ringback, busy and connected share: an unreported call must be an
        outgoing one. */
    method FirstSignal(queue: EventQueue)
      modifies this, queue
      ensures Val() == if old(reported) then old(Val()) else old(Val()).(ctype := TctOutgoing, reported := true)
      ensures queue.events == old(queue.events) + ToAppEvents(
                [if old(reported) then TafState(old(Val())) else TafNew(old(Val()).(ctype := TctOutgoing))])
    {
      if !reported {
        ctype := TctOutgoing;
        OnTafEvent(TafNew(Val()), queue);
        reported := true;
      } else {
        OnTafEvent(TafState(Val()), queue);
      }
    }

    method HandleMessage(m: Msg, queue: EventQueue)
      requires !m.LineClose?
      modifies this, queue
      ensures m.handle == id ==>
                Val() == CallStep(old(Val()), m).0
                && queue.events == old(queue.events) + ToAppEvents(CallStep(old(Val()), m).1)
      ensures m.handle != id ==> Val() == old(Val()) && queue.events == old(queue.events)
    {
      if m.handle != id {
        return;
      }
      match m
      case CallStateMsg(_, to) =>
        DoSwitchState(to, queue);
      case CallInfoMsg(_, q) =>
        info := QueryInfo(info, q);
        if reported {
          OnTafEvent(TafInfo(Val()), queue);
        }
      case _ =>
    }
  }

  /** `CTapiCallMonitor::OnTafEvent`, with the application as its one listener. */
  method OnTafEvent(e: TafEvent, queue: EventQueue)
    modifies queue
    ensures queue.events == old(queue.events) + ToAppEvents([e])
  {
    match e
    case TafNew(c) =>
      var t := CallTypeOf(c.ctype);
      queue.Post(NewCall(TAPI_PID, c.id, t, GetCallStatus(c.state)));
    case TafInfo(c) =>
      queue.Post(CallInfoUpdate(TAPI_PID, c.id, c.info));
    case TafState(c) =>
      queue.Post(CallStatusUpdate(TAPI_PID, c.id, GetCallStatus(c.state)));
    case TafDeleted(c) =>
      queue.Post(CallStatusUpdate(TAPI_PID, c.id, Idle));
  }

  lemma ToAppEventsAppend(a: seq<TafEvent>, b: seq<TafEvent>)
    ensures ToAppEvents(a + b) == ToAppEvents(a) + ToAppEvents(b)
  {
  }

  lemma ForgetChanged(calls: map<nat, Call>, h: nat, c: Call)
    ensures calls[h := c] - {h} == calls - {h}
  {
  }

  class TafLine {
    var calls: map<nat, TafCall>

    ghost predicate Valid()
      reads this, calls.Values
    {
      && (forall h :: h in calls ==> calls[h].id == h)
      && (forall g, h :: g in calls && h in calls && g != h ==> calls[g] != calls[h])
    }

    function Val(): map<nat, Call>
      reads this, calls.Values
    {
      map h | h in calls :: calls[h].Val()
    }

    constructor ()
      ensures Valid() && Val() == map[]
    {
      calls := map[];
    }

    method HandleMessage(m: Msg, queue: EventQueue)
      requires Valid()
      modifies this, calls.Values, queue
      ensures Valid() && Val() == LineStep(old(Val()), m).0
      ensures queue.events == old(queue.events) + ToAppEvents(LineStep(old(Val()), m).1)
    {
      match m
      case LineClose =>
        calls := map[];
      case AppNewCall(h, q) =>
        Announce(h, q);
      case _ =>
        if m.handle in calls {
          DeliverToCall(m, queue);
        }
    }

    /** A new call is inserted unless its handle is in use. */
    method Announce(h: nat, q: Query)
      requires Valid()
      modifies this`calls
      ensures Valid() && Val() == LineStep(old(Val()), AppNewCall(h, q)).0
    {
      ghost var was := Val();
      var call := new TafCall(h, q);
      if h !in calls {
        calls := calls[h := call];
        assert Val() == was[h := FreshCall(h, q)];
      }
    }

    twostate lemma OneCallChanged(h: nat)
      requires calls == old(calls) && h in calls
      requires forall g :: g in calls && g != h ==> calls[g].Val() == old(calls[g].Val())
      ensures Val() == old(Val())[h := calls[h].Val()]
    {
    }

    method Forget(h: nat)
      requires Valid()
      modifies this`calls
      ensures Valid() && Val() == old(Val()) - {h}
    {
      ghost var was := Val();
      calls := calls - {h};
      assert Val() == was - {h};
    }

    /** A message for a live call; a call that has become idle is announced as deleted and
        forgotten. */
    method DeliverToCall(m: Msg, queue: EventQueue)
      requires Valid() && !m.LineClose? && !m.AppNewCall? && m.handle in calls
      modifies this, calls[m.handle], queue
      ensures Valid() && Val() == LineStep(old(Val()), m).0
      ensures queue.events == old(queue.events) + ToAppEvents(LineStep(old(Val()), m).1)
    {
      ghost var was := Val();
      ghost var (c, more) := CallStep(was[m.handle], m);
      PassOn(m, queue);
      if calls[m.handle].state == LsIdle {
        Delete(m.handle, queue);
        ToAppEventsAppend(more, [TafDeleted(c)]);
        ForgetChanged(was, m.handle, c);
      }
    }

    method Delete(h: nat, queue: EventQueue)
      requires Valid() && h in calls
      modifies this`calls, queue
      ensures Valid() && Val() == old(Val()) - {h}
      ensures queue.events == old(queue.events) + ToAppEvents([TafDeleted(old(Val())[h])])
    {
      OnTafEvent(TafDeleted(calls[h].Val()), queue);
      Forget(h);
    }

    method PassOn(m: Msg, queue: EventQueue)
      requires Valid() && !m.LineClose? && !m.AppNewCall? && m.handle in calls
      modifies calls[m.handle], queue
      ensures Valid() && Val() == old(Val())[m.handle := CallStep(old(Val())[m.handle], m).0]
      ensures queue.events == old(queue.events) + ToAppEvents(CallStep(old(Val())[m.handle], m).1)
    {
      calls[m.handle].HandleMessage(m, queue);
      OneCallChanged(m.handle);
    }
  }
}
