/** The three layers together: TAPI lines raise events, the queue holds them, the
    application handles them, in any interleaving and beside other providers and the
    resolver. */
module CallPipeline {
  import opened CallTypes
  import opened JournalStore
  import opened MainApps
  import opened TapiLines
  import opened FritzStream

  /** `stranded` and `box` are histories: the handles whose line was closed while they were
      reported, with no deletion raised since, and the messages of the Fritz!Box handled so
      far. */
  datatype Sys = Sys(lines: map<nat, map<nat, Call>>, queue: seq<AppEvent>, app: App,
                     stranded: set<nat>, box: seq<string>)

  datatype SysStep =
    | AddLine(line: nat)
    | RemoveLine(line: nat)
    | Tapi(line: nat, m: Msg)
    | Box(msg: string)
    | Foreign(ev: AppEvent)   // another provider, or the resolver thread
    | Handle(env: Env)        // the GUI thread takes the front event

  function Initial(app: App): Sys {
    Sys(map[], [], app, {}, [])
  }

  /** Handles are unique while alive: no other line has a live call with this handle. */
  ghost predicate HandleFree(lines: map<nat, map<nat, Call>>, line: nat, h: nat) {
    forall l :: l in lines && l != line ==> h !in lines[l]
  }

  ghost predicate Enabled(s: Sys, step: SysStep) {
    match step
    case AddLine(line) => line !in s.lines
    case RemoveLine(line) => line in s.lines
    case Tapi(line, m) => line in s.lines && (m.AppNewCall? ==> HandleFree(s.lines, line, m.handle))
    case Box(_) => true
    case Foreign(ev) => ev.ResolverResponse? || (ev.pid != TAPI_PID && ev.pid != FRITZ_PID)
    case Handle(_) => s.queue != []
  }

  function Reported(calls: map<nat, Call>): set<nat> {
    set h | h in calls && calls[h].reported
  }

  function DeletedBy(events: seq<TafEvent>): set<nat> {
    set i | 0 <= i < |events| && events[i].TafDeleted? :: events[i].call.id
  }

  ghost function Next(cfg: Config, s: Sys, step: SysStep): Sys
    requires Enabled(s, step)
  {
    match step
    case AddLine(line) => s.(lines := s.lines[line := map[]])
    case RemoveLine(line) =>
      // the destructor closes the line
      s.(lines := s.lines - {line}, stranded := s.stranded + Reported(s.lines[line]))
    case Tapi(line, m) =>
      var (calls, events) := LineStep(s.lines[line], m);
      s.(lines := s.lines[line := calls], queue := s.queue + ToAppEvents(events),
         stranded := if m.LineClose? then s.stranded + Reported(s.lines[line]) else s.stranded - DeletedBy(events))
    case Box(msg) => s.(queue := s.queue + Dispatch(msg), box := s.box + [msg])
    case Foreign(ev) => s.(queue := s.queue + [ev])
    case Handle(env) => s.(queue := s.queue[1..], app := Step(cfg, s.app, s.queue[0], env))
  }

  /** The steps can be taken one after the other, and lead from s to t. */
  ghost predicate Leads(cfg: Config, s: Sys, steps: seq<SysStep>, t: Sys)
    decreases |steps|
  {
    if steps == [] then s == t
    else Enabled(s, steps[0]) && Leads(cfg, Next(cfg, s, steps[0]), steps[1..], t)
  }

  /** Removing a line takes that line alone, and posts nothing. */
  lemma RemovedLine(cfg: Config, s: Sys, line: nat)
    requires Enabled(s, RemoveLine(line))
    ensures var t := Next(cfg, s, RemoveLine(line));
            && t.lines.Keys == s.lines.Keys - {line} && (forall l :: l in t.lines ==> t.lines[l] == s.lines[l])
            && t.queue == s.queue && t.app == s.app
  {
  }

  // ----- What an event does to the set of active calls -----

  function StepKeys(keys: set<Key>, ev: AppEvent): set<Key> {
    match ev
    case NewCall(pid, cid, _, _) => keys + {Key(pid, cid)}
    case CallStatusUpdate(pid, cid, status) => if status == Idle then keys - {Key(pid, cid)} else keys
    case _ => keys
  }

  function KeysAfter(keys: set<Key>, q: seq<AppEvent>): set<Key> {
    if q == [] then keys else StepKeys(KeysAfter(keys, q[..|q| - 1]), q[|q| - 1])
  }

  lemma StepActiveKeys(cfg: Config, a: App, ev: AppEvent, env: Env)
    ensures Step(cfg, a, ev, env).active.Keys == StepKeys(a.active.Keys, ev)
  {
  }

  lemma {:induction false} KeysAfterAppend(keys: set<Key>, p: seq<AppEvent>, q: seq<AppEvent>)
    ensures KeysAfter(keys, p + q) == KeysAfter(KeysAfter(keys, p), q)
  {
    if q == [] {
      assert p + q == p;
    } else {
      assert (p + q)[..|p| + |q| - 1] == p + q[..|q| - 1];
      KeysAfterAppend(keys, p, q[..|q| - 1]);
    }
  }

  lemma KeysAfterOne(keys: set<Key>, ev: AppEvent)
    ensures KeysAfter(keys, [ev]) == StepKeys(keys, ev)
  {
    assert [ev][..0] == [];
  }

  // ----- The calls of a Fritz!Box -----

  predicate Announces(msg: string, id: nat) {
    exists i :: 0 <= i < |Dispatch(msg)| && Dispatch(msg)[i].NewCall? && Dispatch(msg)[i].cid == id
  }

  predicate Disconnects(msg: string, id: nat) {
    exists i :: 0 <= i < |Dispatch(msg)| && Dispatch(msg)[i].CallStatusUpdate?
             && Dispatch(msg)[i].status == Idle && Dispatch(msg)[i].cid == id
  }

  /** Message i announced the call, and none since has disconnected it. */
  ghost predicate OpenFrom(box: seq<string>, id: nat, i: nat) {
    i < |box| && Announces(box[i], id) && forall j :: i < j < |box| ==> !Disconnects(box[j], id)
  }

  ghost predicate BoxOpen(box: seq<string>, id: nat) {
    exists i: nat :: OpenFrom(box, id, i)
  }

  lemma OpenFromAppend(box: seq<string>, msg: string, id: nat, i: nat)
    requires i < |box|
    ensures OpenFrom(box + [msg], id, i) <==> OpenFrom(box, id, i) && !Disconnects(msg, id)
  {
    var all := box + [msg];
    assert all[i] == box[i] && all[|box|] == msg;
    if OpenFrom(all, id, i) {
      forall j | i < j < |box| ensures !Disconnects(box[j], id) {
        assert all[j] == box[j];
      }
    }
  }

  lemma BoxOpenAppend(box: seq<string>, msg: string, id: nat)
    ensures BoxOpen(box + [msg], id) <==> Announces(msg, id) || (BoxOpen(box, id) && !Disconnects(msg, id))
  {
    var all := box + [msg];
    if Announces(msg, id) {
      assert OpenFrom(all, id, |box|);
    } else {
      if i: nat :| OpenFrom(box, id, i) {
        OpenFromAppend(box, msg, id, i);
      }
      if i: nat :| OpenFrom(all, id, i) {
        assert i != |box|;
        OpenFromAppend(box, msg, id, i);
      }
    }
  }

  /** What the events of one message do to the keys. */
  lemma BoxKeys(keys: set<Key>, msg: string)
    ensures var keys' := KeysAfter(keys, Dispatch(msg));
            && (forall id: nat :: Key(FRITZ_PID, id) in keys' <==>
                  Announces(msg, id) || (Key(FRITZ_PID, id) in keys && !Disconnects(msg, id)))
            && (forall k: Key :: k.pid != FRITZ_PID ==> (k in keys' <==> k in keys))
  {
    var evs := Dispatch(msg);
    DispatchShape(msg);
    if |evs| == 1 {
      KeysAfterOne(keys, evs[0]);
      assert evs == [evs[0]];
    } else if |evs| == 2 {
      assert evs == [evs[0]] + [evs[1]];
      KeysAfterAppend(keys, [evs[0]], [evs[1]]);
      KeysAfterOne(keys, evs[0]);
      KeysAfterOne(KeysAfter(keys, [evs[0]]), evs[1]);
    }
  }

  lemma DispatchShape(msg: string)
    ensures var evs := Dispatch(msg);
            && |evs| <= 2
            && (|evs| == 1 ==> evs[0].CallStatusUpdate? && evs[0].pid == FRITZ_PID)
            && (|evs| == 2 ==> evs[0].NewCall? && evs[0].pid == FRITZ_PID && evs[1].CallInfoUpdate?)
  {
  }

  // ----- The invariant -----

  ghost predicate LiveReported(lines: map<nat, map<nat, Call>>, h: nat) {
    exists l :: l in lines && h in lines[l] && lines[l][h].reported
  }

  /** Once the queue is worked off, the active TAPI calls will be the live reported ones and
      the stranded ones, and the active box calls the open ones. */
  ghost predicate InStep(s: Sys) {
    var keys := KeysAfter(s.app.active.Keys, s.queue);
    && (forall h: nat :: Key(TAPI_PID, h) in keys <==> LiveReported(s.lines, h) || h in s.stranded)
    && (forall id: nat :: Key(FRITZ_PID, id) in keys <==> BoxOpen(s.box, id))
  }

  ghost predicate LinesOk(lines: map<nat, map<nat, Call>>) {
    && (forall l :: l in lines ==> LineOk(lines[l]))
    && (forall l, h :: l in lines && h in lines[l] ==> HandleFree(lines, l, h))
  }

  ghost predicate SysInv(s: Sys) {
    LinesOk(s.lines) && InStep(s)
  }

  /** The event that a call raises itself, if any: its first report brings its key. */
  lemma CallStepKeys(c: Call, m: Msg, keys: set<Key>)
    ensures var (d, events) := CallStep(c, m);
            var keys' := KeysAfter(keys, ToAppEvents(events));
            && (c.reported ==> d.reported) && DeletedBy(events) == {}
            && (Key(TAPI_PID, c.id) in keys' <==> Key(TAPI_PID, c.id) in keys || (d.reported && !c.reported))
            && (forall k :: k != Key(TAPI_PID, c.id) ==> (k in keys' <==> k in keys))
  {
    var more := CallStep(c, m).1;
    AtMostOneEvent(c, m);
    if more == [] {
      NoEvents(keys);
    } else {
      assert ToAppEvents(more) == [ToAppEvent(more[0])];
      KeysAfterOne(keys, ToAppEvent(more[0]));
    }
  }

  lemma AtMostOneEvent(c: Call, m: Msg)
    ensures var (d, events) := CallStep(c, m);
            && (c.reported ==> d.reported) && d.id == c.id && |events| <= 1
            && (events == [] ==> d.reported == c.reported)
            && (events != [] ==>
                  var e := events[0];
                  e.call.id == c.id && !e.TafDeleted? && (e.TafNew? <==> d.reported && !c.reported))
  {
  }

  /** A deletion behind it takes the key away. */
  lemma DeletionKeys(keys: set<Key>, more: seq<TafEvent>, c: Call)
    requires DeletedBy(more) == {}
    ensures KeysAfter(keys, ToAppEvents(more + [TafDeleted(c)]))
            == KeysAfter(keys, ToAppEvents(more)) - {Key(TAPI_PID, c.id)}
    ensures DeletedBy(more + [TafDeleted(c)]) == {c.id}
  {
    var del := ToAppEvent(TafDeleted(c));
    ToAppEventsAppend(more, [TafDeleted(c)]);
    assert ToAppEvents([TafDeleted(c)]) == [del];
    KeysAfterAppend(keys, ToAppEvents(more), [del]);
    KeysAfterOne(KeysAfter(keys, ToAppEvents(more)), del);
    DeletedByAppend(more, c);
  }

  lemma DeletedByAppend(more: seq<TafEvent>, c: Call)
    requires DeletedBy(more) == {}
    ensures DeletedBy(more + [TafDeleted(c)]) == {c.id}
  {
    var all := more + [TafDeleted(c)];
    assert all[|more|] == TafDeleted(c);
    forall i | 0 <= i < |more| ensures !all[i].TafDeleted? {
      var id := more[i].call.id;
      assert more[i].TafDeleted? ==> id in DeletedBy(more);
    }
  }

  lemma NoEvents(keys: set<Key>)
    ensures KeysAfter(keys, ToAppEvents([])) == keys && DeletedBy([]) == {}
  {
    assert ToAppEvents([]) == [];
  }

  /** The events of one message change the key of its handle only. The key of a call that
      stays live comes with its first report; that of a deleted call goes. */
  lemma LineStepKeys(calls: map<nat, Call>, m: Msg, keys: set<Key>)
    requires LineOk(calls) && !m.LineClose?
    ensures var (after, events) := LineStep(calls, m);
            var keys', h := KeysAfter(keys, ToAppEvents(events)), m.handle;
            && LineOk(after)
            && (forall k :: k != Key(TAPI_PID, h) ==> (k in keys' <==> k in keys))
            && (h !in calls ==> keys' == keys && (h in after ==> !after[h].reported))
            && (h in calls && h in after ==>
                  (Key(TAPI_PID, h) in keys' <==> Key(TAPI_PID, h) in keys || (after[h].reported && !calls[h].reported))
                  && (calls[h].reported ==> after[h].reported))
            && (h in calls && h !in after ==> Key(TAPI_PID, h) !in keys')
            && DeletedBy(events) == (if h in calls && h !in after then {h} else {})
            && (forall x :: x != h ==> (x in after <==> x in calls) && (x in after ==> after[x] == calls[x]))
  {
    if !m.AppNewCall? && m.handle in calls {
      var (c, more) := CallStep(calls[m.handle], m);
      CallStepKeys(calls[m.handle], m, keys);
      if c.state == LsIdle {
        DeletionKeys(keys, more, c);
      }
    } else {
      NoEvents(keys);
    }
  }

  lemma TapiStepKeepsInv(cfg: Config, s: Sys, line: nat, m: Msg)
    requires SysInv(s) && Enabled(s, Tapi(line, m)) && !m.LineClose?
    ensures SysInv(Next(cfg, s, Tapi(line, m)))
  {
    var t := Next(cfg, s, Tapi(line, m));
    var keys := KeysAfter(s.app.active.Keys, s.queue);
    var (after, events) := LineStep(s.lines[line], m);
    LineStepKeys(s.lines[line], m, keys);
    var keys' := KeysAfter(keys, ToAppEvents(events));
    KeysAfterAppend(s.app.active.Keys, s.queue, ToAppEvents(events));
    forall h: nat ensures Key(TAPI_PID, h) in keys' <==> LiveReported(t.lines, h) || h in t.stranded {
      if h != m.handle {
        SameElsewhere(s.lines, line, after, h);
      } else if m.handle in s.lines[line] {
        OnlyLine(s.lines, line, h);
        OnlyLineAfter(s.lines, line, after, h);
      } else {
        Unreported(s.lines, line, after, h);
      }
    }
    LinesStayOk(s.lines, line, after, m.handle);
  }

  /** A line that goes, or is closed, leaves its reported calls behind. */
  lemma ClosedLine(lines: map<nat, map<nat, Call>>, line: nat, lines': map<nat, map<nat, Call>>, h: nat)
    requires line in lines && (lines' == lines[line := map[]] || lines' == lines - {line})
    ensures LiveReported(lines', h) || h in Reported(lines[line]) <==> LiveReported(lines, h)
  {
    if l :| l in lines && h in lines[l] && lines[l][h].reported {
      if l != line {
        assert l in lines' && lines'[l] == lines[l];
      }
    }
    if l :| l in lines' && h in lines'[l] && lines'[l][h].reported {
      assert l in lines && lines[l] == lines'[l];
    }
  }

  lemma CloseKeepsInv(cfg: Config, s: Sys, line: nat)
    requires SysInv(s) && line in s.lines
    ensures SysInv(Next(cfg, s, Tapi(line, LineClose))) && SysInv(Next(cfg, s, RemoveLine(line)))
  {
    var closed, removed := Next(cfg, s, Tapi(line, LineClose)), Next(cfg, s, RemoveLine(line));
    assert s.queue + ToAppEvents([]) == s.queue;
    forall h: nat
      ensures LiveReported(closed.lines, h) || h in closed.stranded <==> LiveReported(s.lines, h) || h in s.stranded
      ensures LiveReported(removed.lines, h) || h in removed.stranded <==> LiveReported(s.lines, h) || h in s.stranded
    {
      ClosedLine(s.lines, line, closed.lines, h);
      ClosedLine(s.lines, line, removed.lines, h);
    }
    FewerLinesOk(s.lines, line);
  }

  lemma FewerLinesOk(lines: map<nat, map<nat, Call>>, line: nat)
    requires LinesOk(lines) && line in lines
    ensures LinesOk(lines[line := map[]]) && LinesOk(lines - {line})
  {
    var closed: map<nat, map<nat, Call>> := lines[line := map[]];
    forall l, x | l in closed && x in closed[l] ensures HandleFree(closed, l, x) {
      assert HandleFree(lines, l, x);
    }
    forall l, x | l in lines - {line} && x in lines[l] ensures HandleFree(lines - {line}, l, x) {
      assert HandleFree(lines, l, x);
    }
  }

  lemma OnlyLine(lines: map<nat, map<nat, Call>>, line: nat, h: nat)
    requires LinesOk(lines) && line in lines && h in lines[line]
    ensures LiveReported(lines, h) <==> lines[line][h].reported
  {
    assert HandleFree(lines, line, h);
  }

  lemma SameElsewhere(lines: map<nat, map<nat, Call>>, line: nat, after: map<nat, Call>, h: nat)
    requires line in lines && (h in after <==> h in lines[line]) && (h in after ==> after[h] == lines[line][h])
    ensures LiveReported(lines, h) <==> LiveReported(lines[line := after], h)
  {
    var lines': map<nat, map<nat, Call>> := lines[line := after];
    if l :| l in lines && h in lines[l] && lines[l][h].reported {
      assert l in lines' && h in lines'[l] && lines'[l][h].reported;
    }
  }

  lemma OnlyLineAfter(lines: map<nat, map<nat, Call>>, line: nat, after: map<nat, Call>, h: nat)
    requires LinesOk(lines) && line in lines && h in lines[line]
    ensures LiveReported(lines[line := after], h) <==> h in after && after[h].reported
  {
    assert HandleFree(lines, line, h);
    var lines': map<nat, map<nat, Call>> := lines[line := after];
    if h in after && after[h].reported {
      assert line in lines' && h in lines'[line];
    }
  }

  lemma Unreported(lines: map<nat, map<nat, Call>>, line: nat, after: map<nat, Call>, h: nat)
    requires line in lines && h !in lines[line] && (h in after ==> !after[h].reported)
    ensures LiveReported(lines, h) <==> LiveReported(lines[line := after], h)
  {
    var lines': map<nat, map<nat, Call>> := lines[line := after];
    if l :| l in lines && h in lines[l] && lines[l][h].reported {
      assert l in lines' && h in lines'[l] && lines'[l][h].reported;
    }
  }

  lemma LinesStayOk(lines: map<nat, map<nat, Call>>, line: nat, after: map<nat, Call>, h: nat)
    requires LinesOk(lines) && line in lines && LineOk(after)
    requires forall x :: x in after && x != h ==> x in lines[line]
    requires h in after ==> HandleFree(lines, line, h)
    ensures LinesOk(lines[line := after])
  {
    var lines': map<nat, map<nat, Call>> := lines[line := after];
    forall l, x | l in lines' && x in lines'[l] ensures HandleFree(lines', l, x) {
      if l == line {
        assert x in lines[line] ==> HandleFree(lines, line, x);
      } else {
        assert HandleFree(lines, l, x);
      }
    }
  }

  lemma NewLineOk(lines: map<nat, map<nat, Call>>, line: nat)
    requires LinesOk(lines) && line !in lines
    ensures LinesOk(lines[line := map[]])
  {
    var more: map<nat, map<nat, Call>> := lines[line := map[]];
    forall l, x | l in more && x in more[l] ensures HandleFree(more, l, x) {
      assert HandleFree(lines, l, x);
    }
  }

  /** Handling the front event does not change what the queue leads to. */
  lemma FrontHandled(cfg: Config, s: Sys, env: Env)
    requires s.queue != []
    ensures KeysAfter(Step(cfg, s.app, s.queue[0], env).active.Keys, s.queue[1..])
            == KeysAfter(s.app.active.Keys, s.queue)
  {
    StepActiveKeys(cfg, s.app, s.queue[0], env);
    assert s.queue == [s.queue[0]] + s.queue[1..];
    KeysAfterAppend(s.app.active.Keys, [s.queue[0]], s.queue[1..]);
    KeysAfterOne(s.app.active.Keys, s.queue[0]);
  }

  lemma QueueStepsKeepInv(cfg: Config, s: Sys, step: SysStep)
    requires SysInv(s) && Enabled(s, step) && !step.Tapi? && !step.RemoveLine?
    ensures SysInv(Next(cfg, s, step))
  {
    var keys := s.app.active.Keys;
    match step
    case AddLine(line) =>
      NewLineOk(s.lines, line);
      NewLineReportsNothing(s.lines, line);
    case Box(msg) =>
      BoxStepKeepsInv(cfg, s, msg);
    case Foreign(ev) =>
      KeysAfterAppend(keys, s.queue, [ev]);
      KeysAfterOne(KeysAfter(keys, s.queue), ev);
    case Handle(env) =>
      FrontHandled(cfg, s, env);
  }

  lemma BoxStepKeepsInv(cfg: Config, s: Sys, msg: string)
    requires SysInv(s)
    ensures SysInv(Next(cfg, s, Box(msg)))
  {
    KeysAfterAppend(s.app.active.Keys, s.queue, Dispatch(msg));
    BoxKeys(KeysAfter(s.app.active.Keys, s.queue), msg);
    forall id: nat
      ensures BoxOpen(s.box + [msg], id) <==> Announces(msg, id) || (BoxOpen(s.box, id) && !Disconnects(msg, id))
    {
      BoxOpenAppend(s.box, msg, id);
    }
  }

  lemma NewLineReportsNothing(lines: map<nat, map<nat, Call>>, line: nat)
    requires line !in lines
    ensures forall h: nat :: LiveReported(lines[line := map[]], h) <==> LiveReported(lines, h)
  {
    var more: map<nat, map<nat, Call>> := lines[line := map[]];
    forall h: nat ensures LiveReported(lines, h) <==> LiveReported(more, h) {
      if l :| l in lines && h in lines[l] && lines[l][h].reported {
        assert l in more && h in more[l] && more[l][h].reported;
      }
    }
  }

  lemma {:induction false} RunsKeepInv(cfg: Config, s: Sys, steps: seq<SysStep>, t: Sys)
    requires SysInv(s) && Leads(cfg, s, steps, t)
    ensures SysInv(t)
    decreases |steps|
  {
    if steps != [] {
      var step := steps[0];
      if step.Tapi? && !step.m.LineClose? {
        TapiStepKeepsInv(cfg, s, step.line, step.m);
      } else if step.Tapi? || step.RemoveLine? {
        CloseKeepsInv(cfg, s, step.line);
      } else {
        QueueStepsKeepInv(cfg, s, step);
      }
      RunsKeepInv(cfg, Next(cfg, s, step), steps[1..], t);
    }
  }

  lemma InitialInv(app: App)
    requires app.active == map[]
    ensures SysInv(Initial(app))
  {
  }

  /** For every interleaving of TAPI and Fritz!Box messages, lines that come, go and are
      closed, other providers, resolver answers and the GUI thread, with or without database
      failures: whenever the queue has drained, the active TAPI calls are exactly the live
      calls that were reported, together with the stranded ones, and the active calls of the
      box are exactly those that were announced and not disconnected since. */
  lemma DrainedQueueMeansKnownCalls(cfg: Config, app: App, steps: seq<SysStep>, t: Sys)
    requires app.active == map[] && Leads(cfg, Initial(app), steps, t)
    requires t.queue == []
    ensures forall h: nat :: Key(TAPI_PID, h) in t.app.active <==> LiveReported(t.lines, h) || h in t.stranded
    ensures forall id: nat :: Key(FRITZ_PID, id) in t.app.active <==> BoxOpen(t.box, id)
  {
    InitialInv(app);
    RunsKeepInv(cfg, Initial(app), steps, t);
  }

  predicate Closes(step: SysStep) {
    step.RemoveLine? || (step.Tapi? && step.m.LineClose?)
  }

  lemma {:induction false} NobodyStranded(cfg: Config, s: Sys, steps: seq<SysStep>, t: Sys)
    requires s.stranded == {} && Leads(cfg, s, steps, t) && forall i :: 0 <= i < |steps| ==> !Closes(steps[i])
    ensures t.stranded == {}
    decreases |steps|
  {
    if steps != [] {
      NobodyStranded(cfg, Next(cfg, s, steps[0]), steps[1..], t);
    }
  }

  /** As long as no line is closed or removed, the active TAPI calls are exactly the live
      calls that were reported. */
  lemma DrainedQueueMeansLiveCalls(cfg: Config, app: App, steps: seq<SysStep>, t: Sys)
    requires app.active == map[] && Leads(cfg, Initial(app), steps, t)
    requires t.queue == [] && forall i :: 0 <= i < |steps| ==> !Closes(steps[i])
    ensures forall h: nat :: Key(TAPI_PID, h) in t.app.active <==> LiveReported(t.lines, h)
  {
    DrainedQueueMeansKnownCalls(cfg, app, steps, t);
    NobodyStranded(cfg, Initial(app), steps, t);
  }

  // ----- Closing a line -----

  /** LINE_CLOSE forgets the calls of the line and raises no events. */
  ghost function Close(cfg: Config, s: Sys, line: nat): Sys
    requires line in s.lines
  {
    Next(cfg, s, Tapi(line, LineClose))
  }

  /** The active TAPI calls are, or will be, just the live reported ones. */
  ghost predicate OnlyLiveCalls(s: Sys) {
    forall h: nat :: Key(TAPI_PID, h) in KeysAfter(s.app.active.Keys, s.queue) <==> LiveReported(s.lines, h)
  }

  /** That stays so through a close if and only if the line has no reported call. */
  lemma CloseKeepsInStepIffNoneReported(cfg: Config, s: Sys, line: nat)
    requires SysInv(s) && line in s.lines && OnlyLiveCalls(s)
    ensures OnlyLiveCalls(Close(cfg, s, line)) <==> forall h :: h in s.lines[line] ==> !s.lines[line][h].reported
  {
    var t := Close(cfg, s, line);
    assert t.queue == s.queue;
    if h :| h in s.lines[line] && s.lines[line][h].reported {
      OnlyLine(s.lines, line, h);
      OnlyLineAfter(s.lines, line, map[], h);
      assert !LiveReported(t.lines, h);
    } else {
      forall h: nat ensures LiveReported(t.lines, h) <==> LiveReported(s.lines, h) {
        ClosedLine(s.lines, line, t.lines, h);
      }
    }
  }

  /** How often a run deletes the handle, that is, posts TCALL_IDLE for it. */
  ghost function RunDeletions(cfg: Config, s: Sys, steps: seq<SysStep>, h: nat): nat
    decreases |steps|
  {
    if steps == [] || !Enabled(s, steps[0]) then 0
    else (if steps[0].Tapi? then Deletions(LineStep(s.lines[steps[0].line], steps[0].m).1, h) else 0)
         + RunDeletions(cfg, Next(cfg, s, steps[0]), steps[1..], h)
  }

  lemma {:induction false} NotDeleted(events: seq<TafEvent>, h: nat)
    ensures Deletions(events, h) == 0 <==> h !in DeletedBy(events)
  {
    if events != [] {
      var n := |events| - 1;
      var front := events[..n];
      NotDeleted(front, h);
      if i :| 0 <= i < |events| && events[i].TafDeleted? && events[i].call.id == h {
        if i < n {
          assert front[i] == events[i];
        }
      }
      if i :| 0 <= i < n && front[i].TafDeleted? && front[i].call.id == h {
        assert events[i] == front[i];
      }
    }
  }

  lemma {:induction false} StrandedStays(cfg: Config, s: Sys, steps: seq<SysStep>, t: Sys, h: nat)
    requires Leads(cfg, s, steps, t) && h in s.stranded && RunDeletions(cfg, s, steps, h) == 0
    ensures h in t.stranded
    decreases |steps|
  {
    if steps != [] {
      if steps[0].Tapi? {
        NotDeleted(LineStep(s.lines[steps[0].line], steps[0].m).1, h);
      }
      StrandedStays(cfg, Next(cfg, s, steps[0]), steps[1..], t, h);
    }
  }

  /** The reported calls of a closed line stay active in the application: in every run after
      the close, further closes included, whenever the queue has drained, each of them is
      still there, unless a TCALL_IDLE for its handle has been posted since. */
  lemma ClosedCallsStayUntilIdle(cfg: Config, s: Sys, line: nat, steps: seq<SysStep>, t: Sys, h: nat)
    requires SysInv(s) && line in s.lines && h in s.lines[line] && s.lines[line][h].reported
    requires Leads(cfg, Close(cfg, s, line), steps, t) && RunDeletions(cfg, Close(cfg, s, line), steps, h) == 0
    requires t.queue == []
    ensures Key(TAPI_PID, h) in t.app.active
  {
    CloseKeepsInv(cfg, s, line);
    StrandedStays(cfg, Close(cfg, s, line), steps, t, h);
    RunsKeepInv(cfg, Close(cfg, s, line), steps, t);
  }

  ghost predicate NotLive(lines: map<nat, map<nat, Call>>, h: nat) {
    forall l :: l in lines ==> h !in lines[l]
  }

  lemma {:induction false} UnusedIsNotDeleted(cfg: Config, s: Sys, steps: seq<SysStep>, t: Sys, h: nat)
    requires LinesOk(s.lines) && NotLive(s.lines, h) && Leads(cfg, s, steps, t)
    requires forall i :: 0 <= i < |steps| && steps[i].Tapi? && steps[i].m.AppNewCall? ==> steps[i].m.handle != h
    ensures RunDeletions(cfg, s, steps, h) == 0
    decreases |steps|
  {
    if steps != [] {
      var step, next := steps[0], Next(cfg, s, steps[0]);
      if step.Tapi? {
        LineStepDeletions(s.lines[step.line], step.m, h);
        LineStepStaysOk(s.lines, step.line, step.m);
        StillNotLive(s.lines, step.line, step.m, h);
      } else if step.AddLine? {
        NewLineOk(s.lines, step.line);
      } else if step.RemoveLine? {
        FewerLinesOk(s.lines, step.line);
      }
      UnusedIsNotDeleted(cfg, next, steps[1..], t, h);
    }
  }

  lemma StillNotLive(lines: map<nat, map<nat, Call>>, line: nat, m: Msg, h: nat)
    requires line in lines && NotLive(lines, h) && (m.AppNewCall? ==> m.handle != h)
    ensures NotLive(lines[line := LineStep(lines[line], m).0], h)
  {
  }

  lemma LineStepStaysOk(lines: map<nat, map<nat, Call>>, line: nat, m: Msg)
    requires LinesOk(lines) && line in lines && (m.AppNewCall? ==> HandleFree(lines, line, m.handle))
    ensures LinesOk(lines[line := LineStep(lines[line], m).0])
  {
    var after := LineStep(lines[line], m).0;
    LineStepDeletions(lines[line], m, 0);
    if m.LineClose? {
      FewerLinesOk(lines, line);
    } else {
      if m.handle in lines[line] {
        assert HandleFree(lines, line, m.handle);
      }
      LinesStayOk(lines, line, after, m.handle);
    }
  }

  /** They stay for good if their handle is not announced again. */
  lemma ClosedCallsStayForGood(cfg: Config, s: Sys, line: nat, steps: seq<SysStep>, t: Sys, h: nat)
    requires SysInv(s) && line in s.lines && h in s.lines[line] && s.lines[line][h].reported
    requires Leads(cfg, Close(cfg, s, line), steps, t) && t.queue == []
    requires forall i :: 0 <= i < |steps| && steps[i].Tapi? && steps[i].m.AppNewCall? ==> steps[i].m.handle != h
    ensures Key(TAPI_PID, h) in t.app.active
  {
    assert HandleFree(s.lines, line, h);
    FewerLinesOk(s.lines, line);
    UnusedIsNotDeleted(cfg, Close(cfg, s, line), steps, t, h);
    ClosedCallsStayUntilIdle(cfg, s, line, steps, t, h);
  }

  // ----- An example -----

  /** A line with one call, announced and signalled. */
  function OneCall(q: Query): seq<SysStep> {
    [AddLine(0), Tapi(0, AppNewCall(1, q)), Tapi(0, CallStateMsg(1, LsOffering))]
  }

  lemma OneCallOffered(cfg: Config, app: App, q: Query) returns (t: Sys)
    ensures Leads(cfg, Initial(app), OneCall(q), t)
    ensures t.lines.Keys == {0} && t.queue == [NewCall(TAPI_PID, 1, TypeIncoming, Offering)] && t.app == app
  {
    var s0, steps := Initial(app), OneCall(q);
    var s1 := Next(cfg, s0, steps[0]);
    var s2 := Next(cfg, s1, steps[1]);
    t := Next(cfg, s2, steps[2]);
    OfferedCall(q);
    LeadsCons(cfg, s2, steps[2], [], t);
    LeadsCons(cfg, s1, steps[1], [steps[2]], t);
    LeadsCons(cfg, s0, steps[0], [steps[1], steps[2]], t);
    assert [steps[2]] + [] == [steps[2]] && [steps[1]] + [steps[2]] == [steps[1], steps[2]];
    assert [steps[0]] + [steps[1], steps[2]] == steps;
  }

  lemma OfferedCall(q: Query)
    ensures var c := FreshCall(1, q);
            && LineStep(map[], AppNewCall(1, q)) == (map[1 := c], [])
            && ToAppEvents(LineStep(map[1 := c], CallStateMsg(1, LsOffering)).1)
               == [NewCall(TAPI_PID, 1, TypeIncoming, Offering)]
  {
    assert map[][1 := FreshCall(1, q)] == map[1 := FreshCall(1, q)];
  }

  lemma HandledAndClosed(cfg: Config, s: Sys, env: Env) returns (t: Sys)
    requires s.lines.Keys == {0} && s.queue == [NewCall(TAPI_PID, 1, TypeIncoming, Offering)] && s.app.active == map[]
    ensures Leads(cfg, s, [Handle(env), Tapi(0, LineClose)], t)
    ensures t.lines == map[0 := map[]] && t.queue == [] && t.app.active.Keys == {Key(TAPI_PID, 1)}
  {
    var s1 := Next(cfg, s, Handle(env));
    StepActiveKeys(cfg, s.app, s.queue[0], env);
    t := Next(cfg, s1, Tapi(0, LineClose));
    assert ToAppEvents([]) == [];
    LeadsCons(cfg, s1, Tapi(0, LineClose), [], t);
    LeadsCons(cfg, s, Handle(env), [Tapi(0, LineClose)], t);
    assert [Tapi(0, LineClose)] + [] == [Tapi(0, LineClose)];
    assert [Handle(env)] + [Tapi(0, LineClose)] == [Handle(env), Tapi(0, LineClose)];
  }

  /** From the empty system: after the line of an incoming call is closed, no line has a call,
      the queue is empty, and the application still shows the call. */
  lemma ClosedCallIsStranded(cfg: Config, app: App, q: Query, env: Env) returns (t: Sys)
    requires app.active == map[]
    ensures Leads(cfg, Initial(app), OneCall(q) + [Handle(env), Tapi(0, LineClose)], t)
    ensures t.lines == map[0 := map[]] && t.queue == [] && t.app.active.Keys == {Key(TAPI_PID, 1)}
  {
    var s := OneCallOffered(cfg, app, q);
    t := HandledAndClosed(cfg, s, env);
    LeadsTogether(cfg, Initial(app), OneCall(q), s, [Handle(env), Tapi(0, LineClose)], t);
  }

  lemma {:induction false} LeadsTogether(cfg: Config, s: Sys, p: seq<SysStep>, t: Sys, q: seq<SysStep>, u: Sys)
    requires Leads(cfg, s, p, t) && Leads(cfg, t, q, u)
    ensures Leads(cfg, s, p + q, u)
    decreases |p|
  {
    if p == [] {
      assert p + q == q;
    } else {
      LeadsTogether(cfg, Next(cfg, s, p[0]), p[1..], t, q, u);
      assert (p + q)[1..] == p[1..] + q && (p + q)[0] == p[0];
    }
  }

  lemma LeadsCons(cfg: Config, s: Sys, step: SysStep, rest: seq<SysStep>, t: Sys)
    requires Enabled(s, step) && Leads(cfg, Next(cfg, s, step), rest, t)
    ensures Leads(cfg, s, [step] + rest, t)
  {
    assert ([step] + rest)[1..] == rest;
  }
}
