/** What the application shows of a Fritz!Box, told from the messages that the box sends, and
    what a broken connection leaves behind. */
module BoxPipeline {
  import opened CallTypes
  import opened JournalStore
  import opened MainApps
  import opened FritzStream
  import opened CallPipeline

  predicate Starts(m: BoxMessage, id: nat) {
    (m.Call? || m.Ring?) && ToUnsigned(m.id) == id
  }

  predicate Ends(m: BoxMessage, id: nat) {
    m.Disconnect? && ToUnsigned(m.id) == id
  }

  /** Message i has started the call, and none since has ended it. */
  ghost predicate RunsFrom(ms: seq<BoxMessage>, id: nat, i: nat) {
    i < |ms| && Starts(ms[i], id) && forall j :: i < j < |ms| ==> !Ends(ms[j], id)
  }

  ghost predicate Running(ms: seq<BoxMessage>, id: nat) {
    exists i: nat :: RunsFrom(ms, id, i)
  }

  lemma MessageMeans(m: BoxMessage, id: nat)
    requires TextsClean(m)
    ensures Announces(Print(m), id) <==> Starts(m, id)
    ensures Disconnects(Print(m), id) <==> Ends(m, id)
  {
    PrintThenDispatch(m);
    var evs := Dispatch(Print(m));
    if Starts(m, id) {
      assert evs[0].NewCall? && evs[0].cid == id;
    }
    if Ends(m, id) {
      assert evs[0].CallStatusUpdate? && evs[0].cid == id;
    }
  }

  lemma OpenMeansRunning(ms: seq<BoxMessage>, id: nat)
    requires forall m :: m in ms ==> TextsClean(m)
    ensures BoxOpen(Lines(ms), id) <==> Running(ms, id)
  {
    var box := Lines(ms);
    forall i | 0 <= i < |ms|
      ensures (Announces(box[i], id) <==> Starts(ms[i], id)) && (Disconnects(box[i], id) <==> Ends(ms[i], id))
    {
      MessageMeans(ms[i], id);
    }
    if i: nat :| OpenFrom(box, id, i) {
      assert RunsFrom(ms, id, i);
    }
    if i: nat :| RunsFrom(ms, id, i) {
      assert OpenFrom(box, id, i);
    }
  }

  /** In every interleaving, with a drained queue: after the messages `ms` of the box, its
      active calls are exactly those that have been started and not ended since. */
  lemma DrainedQueueMeansRunningCalls(cfg: Config, app: App, steps: seq<SysStep>, t: Sys, ms: seq<BoxMessage>)
    requires app.active == map[] && Leads(cfg, Initial(app), steps, t) && t.queue == []
    requires t.box == Lines(ms) && forall m :: m in ms ==> TextsClean(m)
    ensures forall id: nat :: Key(FRITZ_PID, id) in t.app.active <==> Running(ms, id)
  {
    DrainedQueueMeansKnownCalls(cfg, app, steps, t);
    forall id: nat ensures BoxOpen(t.box, id) <==> Running(ms, id) {
      OpenMeansRunning(ms, id);
    }
  }

  /** However a connection breaks off, and whatever connections follow, the active calls are
      those running after the messages that have fully arrived: an end that got lost with its
      connection leaves its call active, until the same id is ended again. */
  lemma BrokenConnectionLeavesRunningCalls(cfg: Config, app: App, steps: seq<SysStep>, t: Sys,
                                           sent: seq<BoxMessage>, es: seq<Event>, later: seq<BoxMessage>)
    requires app.active == map[] && Leads(cfg, Initial(app), steps, t) && t.queue == []
    requires forall m :: m in sent || m in later ==> TextsClean(m)
    requires Stream(es).0 <= Sent(sent) && t.box == Handled([es]) + Lines(later)
    ensures var arrived := sent[..Arrived(Lines(sent), |Stream(es).0|)];
            forall id: nat :: Key(FRITZ_PID, id) in t.app.active <==> Running(arrived + later, id)
  {
    var k := Arrived(Lines(sent), |Stream(es).0|);
    HandledOf(sent, es);
    JoinLines(sent[..k], later);
    DrainedQueueMeansRunningCalls(cfg, app, steps, t, sent[..k] + later);
  }

  lemma HandledOf(sent: seq<BoxMessage>, es: seq<Event>)
    requires (forall m :: m in sent ==> TextsClean(m)) && Stream(es).0 <= Sent(sent)
    ensures Handled([es]) == Lines(sent[..Arrived(Lines(sent), |Stream(es).0|)])
  {
    SentLines(sent);
    LinesAreClean(sent);
    PrefixFrames(Lines(sent), Stream(es).0);
    OneConnection(es);
    FrontLines(sent, Arrived(Lines(sent), |Stream(es).0|));
  }

  lemma JoinLines(a: seq<BoxMessage>, b: seq<BoxMessage>)
    ensures Lines(a + b) == Lines(a) + Lines(b)
  {
  }

  // ----- An example -----

  /** The box sends a RING and the DISCONNECT of the same call, but the connection breaks within
      the second line: the call is handled and stays active. */
  lemma LostEndStrandsCall(cfg: Config, app: App, env: Env, ring: BoxMessage, end: BoxMessage, part: string)
    returns (t: Sys)
    requires app.active == map[] && ring.Ring? && TextsClean(ring)
    requires end.Disconnect? && end.id == ring.id && TextsClean(end) && part <= Print(end)
    ensures Handled([[Received(Print(ring) + "\n" + part), ClosedByBox]]) == [Print(ring)]
    ensures Leads(cfg, Initial(app), [Box(Print(ring)), Handle(env), Handle(env)], t)
    ensures t.queue == [] && Key(FRITZ_PID, ToUnsigned(ring.id)) in t.app.active
  {
    PrintThenDispatch(ring);
    PrintThenDispatch(end);
    FrontIsClean(part, Print(end));
    OnlyFirstArrives(Print(ring), part);
    t := TwoHandled(cfg, app, env, Print(ring));
    StartIsOpen(ring);
    DrainedQueueMeansKnownCalls(cfg, app, [Box(Print(ring)), Handle(env), Handle(env)], t);
  }

  lemma StartIsOpen(m: BoxMessage)
    requires m.Ring? && TextsClean(m)
    ensures BoxOpen([Print(m)], ToUnsigned(m.id))
  {
    MessageMeans(m, ToUnsigned(m.id));
    assert OpenFrom([Print(m)], ToUnsigned(m.id), 0);
  }

  /** A message with two events is posted, and both are handled. */
  lemma TwoHandled(cfg: Config, app: App, env: Env, msg: string) returns (t: Sys)
    requires |Dispatch(msg)| == 2
    ensures Leads(cfg, Initial(app), [Box(msg), Handle(env), Handle(env)], t)
    ensures t.queue == [] && t.box == [msg]
  {
    var s0 := Initial(app);
    var s1 := Next(cfg, s0, Box(msg));
    var s2 := Next(cfg, s1, Handle(env));
    t := Next(cfg, s2, Handle(env));
    LeadsCons(cfg, s2, Handle(env), [], t);
    LeadsCons(cfg, s1, Handle(env), [Handle(env)], t);
    LeadsCons(cfg, s0, Box(msg), [Handle(env), Handle(env)], t);
    assert [Handle(env)] + [] == [Handle(env)] && [Handle(env)] + [Handle(env)] == [Handle(env), Handle(env)];
    assert [Box(msg)] + [Handle(env), Handle(env)] == [Box(msg), Handle(env), Handle(env)];
  }

  lemma FrontIsClean(part: string, line: string)
    requires part <= line && Clean(line, '\n')
    ensures Clean(part, '\n')
  {
  }

  lemma OnlyFirstArrives(line: string, part: string)
    requires Clean(line, '\n') && Clean(part, '\n')
    ensures Handled([[Received(line + "\n" + part), ClosedByBox]]) == [line]
  {
    var es := [Received(line + "\n" + part), ClosedByBox];
    var s := line + "\n" + part;
    assert es[1..] == [ClosedByBox] && s + "" == s;
    assert Stream([ClosedByBox]) == ("", true);
    assert Stream(es).0 == s;
    BreaksInFirst([], part);
    FramingGrows(line, part, [], part);
    FramingIsUnique(s, [line], part);
    OneConnection(es);
  }
}
