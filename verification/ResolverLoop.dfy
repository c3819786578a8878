/** The round trip of a lookup: a handler issues it, the worker processes it and may post an
    answer, and a handler takes the answer. Since every request is processed at most once and
    no party is looked up twice, no second answer for a party can be under way. */
module ResolverLoop {
  import opened Common
  import opened CallTypes
  import opened JournalStore
  import opened MainApps
  import opened CallRuns
  import opened CallLookups
  import Worker = ResolverWorker

  /** `log` holds the events handled so far, in order. */
  datatype Loop = Loop(app: App, log: seq<Timed>, queue: seq<AppEvent>, worker: Worker.State)

  datatype LoopStep =
    | Provider(ev: AppEvent)              // a call provider posts an event
    | Handle(env: Env)                    // the GUI thread takes the front event
    | Send                                // the GUI thread enters the resolver with its next request
    | Thread(step: Worker.Step)           // any other step of the resolver's threads
    | Answer(sn: Option<string>)          // the worker processes its request, with or without an answer

  ghost predicate Enabled(s: Loop, step: LoopStep) {
    match step
    case Provider(ev) => !ev.ResolverResponse?
    case Handle(env) => s.queue != [] && env.FailureFree()
    case Send => |s.worker.pushed| < |s.app.requests| && s.worker.cs.Free?
    case Thread(w) => Worker.Enabled(s.worker, w) && !w.ProducerEnter? && !w.Process?
    case Answer(_) => Worker.Enabled(s.worker, Worker.Process)
  }

  ghost function Next(cfg: Config, s: Loop, step: LoopStep): Loop
    requires Enabled(s, step)
  {
    match step
    case Provider(ev) => s.(queue := s.queue + [ev])
    case Handle(env) =>
      s.(app := Step(cfg, s.app, s.queue[0], env), log := s.log + [Timed(s.queue[0], env)], queue := s.queue[1..])
    case Send =>
      s.(worker := Worker.Next(s.worker, Worker.ProducerEnter(0, s.app.requests[|s.worker.pushed|])))
    case Thread(w) => s.(worker := Worker.Next(s.worker, w))
    case Answer(sn) =>
      s.(worker := Worker.Next(s.worker, Worker.Process), queue := s.queue + AnswerTo(s.worker.req, sn))
  }

  function AnswerTo(r: Request, sn: Option<string>): seq<AppEvent> {
    if sn.Some? then [ResolverResponse(r.key, r.data, sn.value)] else []
  }

  ghost predicate Leads(cfg: Config, s: Loop, steps: seq<LoopStep>, t: Loop)
    decreases |steps|
  {
    if steps == [] then s == t
    else Enabled(s, steps[0]) && Leads(cfg, Next(cfg, s, steps[0]), steps[1..], t)
  }

  function Initial(a: App, r: Request): Loop {
    Loop(a, [], [], Worker.Initial(r))
  }

  // ----- Counting answers -----

  function IsAnswer(ev: AppEvent, key: int, data: int): bool {
    ev.ResolverResponse? && ev.key == key && ev.data == data
  }

  ghost function Answers(evs: seq<AppEvent>, key: int, data: int): nat {
    if evs == [] then 0
    else Answers(evs[..|evs| - 1], key, data) + (if IsAnswer(evs[|evs| - 1], key, data) then 1 else 0)
  }

  lemma {:induction false} AnswersAppend(p: seq<AppEvent>, q: seq<AppEvent>, key: int, data: int)
    ensures Answers(p + q, key, data) == Answers(p, key, data) + Answers(q, key, data)
  {
    if q == [] {
      assert p + q == p;
    } else {
      assert (p + q)[..|p| + |q| - 1] == p + q[..|q| - 1];
      AnswersAppend(p, q[..|q| - 1], key, data);
    }
  }

  lemma OneAnswer(ev: AppEvent, key: int, data: int)
    ensures Answers([ev], key, data) == if IsAnswer(ev, key, data) then 1 else 0
  {
    assert [ev][..0] == [];
  }

  lemma {:induction false} SomeAnswer(evs: seq<AppEvent>, i: nat)
    requires i < |evs| && evs[i].ResolverResponse?
    ensures Answers(evs, evs[i].key, evs[i].data) >= 1
  {
    if i < |evs| - 1 {
      SomeAnswer(evs[..|evs| - 1], i);
    }
  }

  function Events(log: seq<Timed>): seq<AppEvent> {
    seq(|log|, i requires 0 <= i < |log| => log[i].ev)
  }

  lemma LookupsPrefix(p: seq<Request>, q: seq<Request>, key: int, data: int)
    requires p <= q
    ensures Lookups(p, key, data) <= Lookups(q, key, data)
  {
    assert q == p + q[|p|..];
    LookupsAppend(p, q[|p|..], key, data);
  }

  // ----- The invariant -----

  /** What has been given to the resolver, one request on its way included. */
  function Given(w: Worker.State): seq<Request> {
    w.pushed + (if w.cs.HeldByProducer? && w.cs.stage.Pushing? then [w.cs.stage.r] else [])
  }

  /** Answers, handled or queued, are for processed requests, each answered at most once. */
  ghost predicate AnswersOk(s: Loop) {
    forall key, data ::
      Answers(Events(s.log) + s.queue, key, data) <= Lookups(s.worker.processed, key, data)
  }

  /** Every handled answer was for a lookup issued before. */
  ghost predicate AskedBefore(cfg: Config, a: App, log: seq<Timed>) {
    forall i :: 0 <= i < |log| && log[i].ev.ResolverResponse? ==>
      Lookups(Run(cfg, a, log[..i]).requests, log[i].ev.key, log[i].ev.data) >= 1
  }

  ghost predicate LoopInv(cfg: Config, a: App, s: Loop) {
    && s.app == Run(cfg, a, s.log) && FailureFree(s.log)
    && Worker.Inv(s.worker) && Given(s.worker) <= s.app.requests
    && AnswersOk(s) && AskedBefore(cfg, a, s.log)
  }

  /** The queue gets longer, or its front moves to the log. */
  lemma QueueGrows(s: Loop, t: Loop, more: seq<AppEvent>)
    requires AnswersOk(s) && t.log == s.log && t.queue == s.queue + more
    requires forall key, data ::
               Answers(more, key, data) + Lookups(s.worker.processed, key, data)
               <= Lookups(t.worker.processed, key, data)
    ensures AnswersOk(t)
  {
    forall key, data
      ensures Answers(Events(t.log) + t.queue, key, data) <= Lookups(t.worker.processed, key, data)
    {
      Assoc(Events(s.log), s.queue, more);
      AnswersAppend(Events(s.log) + s.queue, more, key, data);
    }
  }

  lemma FrontMoves(log: seq<Timed>, queue: seq<AppEvent>, env: Env)
    requires queue != []
    ensures Events(log + [Timed(queue[0], env)]) + queue[1..] == Events(log) + queue
  {
  }

  lemma ProcessAnswers(s: Loop, sn: Option<string>)
    requires AnswersOk(s) && Worker.Enabled(s.worker, Worker.Process)
    ensures var w := Worker.Next(s.worker, Worker.Process);
            AnswersOk(s.(worker := w, queue := s.queue + AnswerTo(s.worker.req, sn)))
  {
    var w, more := Worker.Next(s.worker, Worker.Process), AnswerTo(s.worker.req, sn);
    forall key, data
      ensures Answers(more, key, data) + Lookups(s.worker.processed, key, data) <= Lookups(w.processed, key, data)
    {
      assert w.processed[..|s.worker.processed|] == s.worker.processed;
      if sn.Some? {
        OneAnswer(more[0], key, data);
      }
    }
    QueueGrows(s, s.(worker := w, queue := s.queue + more), more);
  }

  /** The next event, if it is an answer, is for a lookup that the application has issued. */
  lemma FrontWasAsked(cfg: Config, a: App, s: Loop)
    requires LoopInv(cfg, a, s) && s.queue != [] && s.queue[0].ResolverResponse?
    ensures Lookups(s.app.requests, s.queue[0].key, s.queue[0].data) >= 1
  {
    var key, data := s.queue[0].key, s.queue[0].data;
    SomeAnswer(s.queue, 0);
    AnswersAppend(Events(s.log), s.queue, key, data);
    LookupsPrefix(s.worker.processed, s.app.requests, key, data);
  }

  lemma HandleKeepsInv(cfg: Config, a: App, s: Loop, env: Env)
    requires Started(cfg, a) && LoopInv(cfg, a, s) && Enabled(s, Handle(env))
    ensures LoopInv(cfg, a, Next(cfg, s, Handle(env)))
  {
    var ev := s.queue[0];
    var log := s.log + [Timed(ev, env)];
    assert log[..|s.log|] == s.log;
    RunKeepsInv(cfg, a, s.log);
    StepRequestsPrefix(cfg, s.app, ev, env);
    FrontMoves(s.log, s.queue, env);
    assert AnswersOk(Next(cfg, s, Handle(env)));
    if ev.ResolverResponse? {
      FrontWasAsked(cfg, a, s);
    }
    OneMoreAsked(cfg, a, s.log, Timed(ev, env));
  }

  lemma OneMoreAsked(cfg: Config, a: App, log: seq<Timed>, t: Timed)
    requires AskedBefore(cfg, a, log)
    requires t.ev.ResolverResponse? ==> Lookups(Run(cfg, a, log).requests, t.ev.key, t.ev.data) >= 1
    ensures AskedBefore(cfg, a, log + [t])
  {
    var more := log + [t];
    forall i | 0 <= i < |more| && more[i].ev.ResolverResponse?
      ensures Lookups(Run(cfg, a, more[..i]).requests, more[i].ev.key, more[i].ev.data) >= 1
    {
      if i < |log| {
        assert more[..i] == log[..i] && more[i] == log[i];
      } else {
        assert more[..i] == log;
      }
    }
  }

  lemma StepRequestsPrefix(cfg: Config, a: App, ev: AppEvent, env: Env)
    requires Inv(cfg, a) && env.FailureFree()
    ensures a.requests <= Step(cfg, a, ev, env).requests
  {
    if ev.CallInfoUpdate? && Key(ev.pid, ev.cid) in a.active {
      InfoEffect(cfg, a, Key(ev.pid, ev.cid), ev.info, env);
    } else if ev.ResolverResponse? {
      ResponseEffect(cfg, a, ev.key, ev.data, ev.sn, env);
    }
  }

  lemma ThreadKeepsInv(cfg: Config, a: App, s: Loop, w: Worker.Step)
    requires LoopInv(cfg, a, s) && Enabled(s, Thread(w))
    ensures LoopInv(cfg, a, Next(cfg, s, Thread(w)))
  {
    Worker.StepKeepsInv(s.worker, w);
    var t := Next(cfg, s, Thread(w));
    assert t.worker.processed == s.worker.processed;
    GivenStays(s.worker, w);
  }

  lemma GivenStays(s: Worker.State, w: Worker.Step)
    requires Worker.Inv(s) && Worker.Enabled(s, w) && !w.ProducerEnter? && !w.Process?
    ensures Given(Worker.Next(s, w)) == Given(s)
  {
    if w.ProducerPush? {
      var pushed := s.pushed + [s.cs.stage.r];
      assert pushed + [] == pushed;
    }
  }

  lemma LoopStepKeepsInv(cfg: Config, a: App, s: Loop, step: LoopStep)
    requires Started(cfg, a) && LoopInv(cfg, a, s) && Enabled(s, step)
    ensures LoopInv(cfg, a, Next(cfg, s, step))
  {
    match step
    case Provider(ev) =>
      ProviderKeepsInv(cfg, a, s, ev);
    case Handle(env) =>
      HandleKeepsInv(cfg, a, s, env);
    case Send =>
      Worker.StepKeepsInv(s.worker, Worker.ProducerEnter(0, s.app.requests[|s.worker.pushed|]));
    case Thread(w) =>
      ThreadKeepsInv(cfg, a, s, w);
    case Answer(sn) =>
      AnswerKeepsInv(cfg, a, s, sn);
  }

  lemma ProviderKeepsInv(cfg: Config, a: App, s: Loop, ev: AppEvent)
    requires LoopInv(cfg, a, s) && Enabled(s, Provider(ev))
    ensures LoopInv(cfg, a, Next(cfg, s, Provider(ev)))
  {
    forall key, data ensures Answers([ev], key, data) == 0 {
      OneAnswer(ev, key, data);
    }
    QueueGrows(s, Next(cfg, s, Provider(ev)), [ev]);
  }

  lemma AnswerKeepsInv(cfg: Config, a: App, s: Loop, sn: Option<string>)
    requires LoopInv(cfg, a, s) && Enabled(s, Answer(sn))
    ensures LoopInv(cfg, a, Next(cfg, s, Answer(sn)))
  {
    Worker.StepKeepsInv(s.worker, Worker.Process);
    ProcessAnswers(s, sn);
  }

  lemma {:induction false} LoopRunsKeepInv(cfg: Config, a: App, s: Loop, steps: seq<LoopStep>, t: Loop)
    requires Started(cfg, a) && LoopInv(cfg, a, s) && Leads(cfg, s, steps, t)
    ensures LoopInv(cfg, a, t)
    decreases |steps|
  {
    if steps != [] {
      LoopStepKeepsInv(cfg, a, s, steps[0]);
      LoopRunsKeepInv(cfg, a, Next(cfg, s, steps[0]), steps[1..], t);
    }
  }

  // ----- What follows -----

  /** In every interleaving each party of each call is answered at most once, counting the
      answers handled and those still queued. */
  lemma AtMostOneAnswerPerParty(cfg: Config, a: App, r: Request, steps: seq<LoopStep>, t: Loop, key: int, data: int)
    requires Started(cfg, a) && Leads(cfg, Initial(a, r), steps, t)
    ensures Answers(Events(t.log) + t.queue, key, data) <= 1
  {
    LoopRunsKeepInv(cfg, a, Initial(a, r), steps, t);
    AtMostOneLookupPerParty(cfg, a, t.log);
    LookupsPrefix(t.worker.processed, t.app.requests, key, data);
  }

  // ----- What is answered -----

  /** The answers among some events, in order. */
  function Responses(evs: seq<AppEvent>): seq<AppEvent> {
    if evs == [] then [] else
    Responses(evs[..|evs| - 1]) + (if evs[|evs| - 1].ResolverResponse? then [evs[|evs| - 1]] else [])
  }

  /** What the sources made of the requests, in the order in which the worker took them up. */
  function Outcomes(steps: seq<LoopStep>): seq<Option<string>> {
    if steps == [] then [] else Outcome(steps[0]) + Outcomes(steps[1..])
  }

  function Outcome(step: LoopStep): seq<Option<string>> {
    if step.Answer? then [step.sn] else []
  }

  /** One answer for each request that a source had a name for. */
  function Replies(rs: seq<Request>, names: seq<Option<string>>): seq<AppEvent>
    requires |rs| == |names|
  {
    if rs == [] then [] else
    var last := |rs| - 1;
    Replies(rs[..last], names[..last])
    + (match names[last] case Some(name) => [ResolverResponse(rs[last].key, rs[last].data, name)] case None => [])
  }

  lemma {:induction false} ResponsesAppend(p: seq<AppEvent>, q: seq<AppEvent>)
    ensures Responses(p + q) == Responses(p) + Responses(q)
  {
    if q == [] {
      assert p + q == p;
    } else {
      assert (p + q)[..|p| + |q| - 1] == p + q[..|q| - 1];
      ResponsesAppend(p, q[..|q| - 1]);
    }
  }

  /** So far the answers handled and queued are the replies to what has been processed. */
  ghost predicate Replied(s: Loop, names: seq<Option<string>>) {
    |s.worker.processed| == |names| && Responses(Events(s.log) + s.queue) == Replies(s.worker.processed, names)
  }

  lemma StepReplies(cfg: Config, s: Loop, step: LoopStep, names: seq<Option<string>>)
    requires Enabled(s, step) && Replied(s, names)
    ensures Replied(Next(cfg, s, step), names + Outcome(step))
  {
    assert names + [] == names;
    match step
    case Provider(ev) => QueuedReply(s, Next(cfg, s, step), [ev]);
    case Handle(env) => FrontMoves(s.log, s.queue, env);
    case Send =>
    case Thread(w) => ThreadProcessesNothing(s.worker, w);
    case Answer(sn) => AnswerReplies(cfg, s, sn, names);
  }

  lemma ThreadProcessesNothing(s: Worker.State, w: Worker.Step)
    requires Worker.Enabled(s, w) && !w.Process?
    ensures Worker.Next(s, w).processed == s.processed
  {
  }

  lemma AnswerReplies(cfg: Config, s: Loop, sn: Option<string>, names: seq<Option<string>>)
    requires Enabled(s, Answer(sn)) && Replied(s, names)
    ensures Replied(Next(cfg, s, Answer(sn)), names + [sn])
  {
    QueuedReply(s, Next(cfg, s, Answer(sn)), AnswerTo(s.worker.req, sn));
    OneMoreReply(s.worker.processed, names, s.worker.req, sn);
  }

  lemma OneMoreReply(rs: seq<Request>, names: seq<Option<string>>, r: Request, sn: Option<string>)
    requires |rs| == |names|
    ensures Replies(rs + [r], names + [sn])
            == Replies(rs, names)
               + (match sn case Some(name) => [ResolverResponse(r.key, r.data, name)] case None => [])
  {
    assert (rs + [r])[..|rs|] == rs && (names + [sn])[..|rs|] == names;
  }

  lemma QueuedReply(s: Loop, t: Loop, more: seq<AppEvent>)
    requires |more| <= 1 && t.log == s.log && t.queue == s.queue + more
    ensures Responses(Events(t.log) + t.queue)
            == Responses(Events(s.log) + s.queue) + (if more != [] && more[0].ResolverResponse? then more else [])
  {
    Assoc(Events(s.log), s.queue, more);
    ResponsesAppend(Events(s.log) + s.queue, more);
    if more != [] {
      assert more[..0] == [];
    }
  }

  lemma {:induction false} RunReplies(cfg: Config, s: Loop, steps: seq<LoopStep>, t: Loop, names: seq<Option<string>>)
    requires Leads(cfg, s, steps, t) && Replied(s, names)
    ensures Replied(t, names + Outcomes(steps))
    decreases |steps|
  {
    if steps == [] {
      assert names + [] == names;
    } else {
      StepReplies(cfg, s, steps[0], names);
      Assoc(names, Outcome(steps[0]), Outcomes(steps[1..]));
      RunReplies(cfg, Next(cfg, s, steps[0]), steps[1..], t, names + Outcome(steps[0]));
    }
  }

  /** In every interleaving the answers, handled and queued together, are those that the
      sources gave to the first lookups issued: in that order, each with its own name, and
      none for a lookup that no source could answer. */
  lemma AnswersInOrder(cfg: Config, a: App, r: Request, steps: seq<LoopStep>, t: Loop)
    requires Started(cfg, a) && Leads(cfg, Initial(a, r), steps, t)
    ensures |Outcomes(steps)| <= |t.app.requests|
    ensures Responses(Events(t.log) + t.queue) == Replies(t.app.requests[..|Outcomes(steps)|], Outcomes(steps))
  {
    LoopRunsKeepInv(cfg, a, Initial(a, r), steps, t);
    RunReplies(cfg, Initial(a, r), steps, t, []);
    assert [] + Outcomes(steps) == Outcomes(steps);
    ProcessedInOrder(t.worker, t.app.requests);
  }

  lemma ProcessedInOrder(w: Worker.State, requests: seq<Request>)
    requires Worker.Inv(w) && Given(w) <= requests
    ensures |w.processed| <= |requests| && w.processed == requests[..|w.processed|]
  {
    assert w.processed <= w.pushed <= Given(w);
  }

  /** A log with one answer for a party has no other. */
  lemma OthersInLog(p: seq<Timed>, r: Timed, q: seq<Timed>, rest: seq<Timed>, log: seq<Timed>)
    requires log == p + ([r] + q) + rest || log == p + (q + [r]) + rest
    requires r.ev.ResolverResponse? && Answers(Events(log), r.ev.key, r.ev.data) <= 1
    ensures OtherAnswers(r.ev, q)
  {
    var key, data := r.ev.key, r.ev.data;
    CountParts(p, r, q, rest, log, key, data);
    OneAnswer(r.ev, key, data);
    forall t | t in q && t.ev.ResolverResponse? ensures t.ev.key != key || t.ev.data != data {
      var i :| 0 <= i < |q| && q[i] == t;
      SomeAnswer(Events(q), i);
    }
  }

  lemma CountParts(p: seq<Timed>, r: Timed, q: seq<Timed>, rest: seq<Timed>, log: seq<Timed>, key: int, data: int)
    requires log == p + ([r] + q) + rest || log == p + (q + [r]) + rest
    ensures Answers(Events(log), key, data) >= Answers([r.ev], key, data) + Answers(Events(q), key, data)
  {
    if log == p + ([r] + q) + rest {
      CountMiddle(p, [r] + q, rest, key, data);
      EventsAppend([r], q);
      AnswersAppend([r.ev], Events(q), key, data);
    } else {
      CountMiddle(p, q + [r], rest, key, data);
      EventsAppend(q, [r]);
      AnswersAppend(Events(q), [r.ev], key, data);
    }
    assert Events([r]) == [r.ev];
  }

  lemma EventsAppend(p: seq<Timed>, q: seq<Timed>)
    ensures Events(p + q) == Events(p) + Events(q)
  {
  }

  lemma CountMiddle(p: seq<Timed>, mid: seq<Timed>, rest: seq<Timed>, key: int, data: int)
    ensures Answers(Events(p + mid + rest), key, data) >= Answers(Events(mid), key, data)
  {
    EventsAppend(p + mid, rest);
    EventsAppend(p, mid);
    AnswersAppend(Events(p + mid), Events(rest), key, data);
    AnswersAppend(Events(p), Events(mid), key, data);
  }

  /** In every interleaving of call providers, GUI thread and resolver: a named answer that was
      handled could as well have been handled at any other time since its lookup, with the
      same outcome of the whole run. */
  lemma AnswerMayComeAnyTime(cfg: Config, a: App, first: Request, steps: seq<LoopStep>, t: Loop,
                             p: seq<Timed>, r: Timed, q: seq<Timed>, rest: seq<Timed>)
    requires Started(cfg, a) && Leads(cfg, Initial(a, first), steps, t)
    requires r.ev.ResolverResponse? && r.ev.sn != ""
    requires || t.log == p + ([r] + q) + rest
             || (t.log == p + (q + [r]) + rest && Lookups(Run(cfg, a, p).requests, r.ev.key, r.ev.data) >= 1)
    ensures Run(cfg, a, p + ([r] + q) + rest) == t.app == Run(cfg, a, p + (q + [r]) + rest)
  {
    LoopRunsKeepInv(cfg, a, Initial(a, first), steps, t);
    AtMostOneAnswerPerParty(cfg, a, first, steps, t, r.ev.key, r.ev.data);
    AnswersAppend(Events(t.log), t.queue, r.ev.key, r.ev.data);
    OthersInLog(p, r, q, rest, t.log);
    PartsAreFailureFree(p, r, q, rest, t.log);
    if t.log == p + ([r] + q) + rest {
      AskedAt(cfg, a, p, r, q, rest, t.log);
    }
    SwapInRun(cfg, a, p, r, q, rest);
  }

  lemma AskedAt(cfg: Config, a: App, p: seq<Timed>, r: Timed, q: seq<Timed>, rest: seq<Timed>, log: seq<Timed>)
    requires log == p + ([r] + q) + rest && r.ev.ResolverResponse? && AskedBefore(cfg, a, log)
    ensures Lookups(Run(cfg, a, p).requests, r.ev.key, r.ev.data) >= 1
  {
    assert log[..|p|] == p && log[|p|] == r;
  }

  lemma SwapInRun(cfg: Config, a: App, p: seq<Timed>, r: Timed, q: seq<Timed>, rest: seq<Timed>)
    requires Started(cfg, a) && FailureFree(p) && FailureFree(q) && r.env.FailureFree()
    requires r.ev.ResolverResponse? && r.ev.sn != "" && OtherAnswers(r.ev, q)
    requires Lookups(Run(cfg, a, p).requests, r.ev.key, r.ev.data) >= 1
    ensures Run(cfg, a, p + ([r] + q) + rest) == Run(cfg, a, p + (q + [r]) + rest)
  {
    AnswerTimeDoesNotMatter(cfg, a, p, r, q);
    RunParts(cfg, a, p, [r] + q, rest);
    RunParts(cfg, a, p, q + [r], rest);
  }

  lemma PartsAreFailureFree(p: seq<Timed>, r: Timed, q: seq<Timed>, rest: seq<Timed>, log: seq<Timed>)
    requires FailureFree(log) && (log == p + ([r] + q) + rest || log == p + (q + [r]) + rest)
    ensures FailureFree(p) && FailureFree(q) && r.env.FailureFree()
  {
    assert forall x :: x in p || x in q || x == r ==> x in log;
  }

  lemma RunParts(cfg: Config, a: App, p: seq<Timed>, mid: seq<Timed>, rest: seq<Timed>)
    ensures Run(cfg, a, p + mid + rest) == Run(cfg, Run(cfg, Run(cfg, a, p), mid), rest)
  {
    RunAppend(cfg, a, p + mid, rest);
    RunAppend(cfg, a, p, mid);
  }
}
