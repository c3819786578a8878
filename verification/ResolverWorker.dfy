/** The resolver's worker thread (gui/resolver/resolvermodel.cpp): a request list under a
    critical section, a semaphore that counts its entries, a termination flag, and one
    extra wake-up from `shutdown`. Every thread's next action is a step of its own. */
module ResolverWorker {
  import opened Common
  import opened CallTypes

  /** Where the worker is in its loop. `Crashed` is reached by `front()` on an empty list. */
  datatype WorkerPc =
    | Testing | Waiting | HasToken | Entering | AtFront | AtPop | Leaving | Processing | Exited | Crashed

  /** Where a producer is inside the critical section. */
  datatype Stage = Pushing(r: Request) | Posting | Going

  datatype Lock = Free | HeldByWorker | HeldByProducer(thread: nat, stage: Stage)

  datatype ShutdownPc = NotStarted | Flagged | Posted | Joined

  /** `pushed` and `processed` are the histories that the claims are about. */
  datatype State = State(list: seq<Request>, sema: nat, terminate: bool, cs: Lock,
                         pc: WorkerPc, req: Request, sd: ShutdownPc,
                         pushed: seq<Request>, processed: seq<Request>)

  datatype Step =
    | ProducerEnter(thread: nat, r: Request) | ProducerPush | ProducerPost | ProducerLeave
    | SetTerminate | PostWakeUp | Join
    | TestDestroy | WaitSemaphore | CheckTerminate | WorkerEnter | Front | Pop | WorkerLeave | Process

  function Initial(r: Request): State {
    State([], 0, false, Free, Testing, r, NotStarted, [], [])
  }

  predicate Enabled(s: State, step: Step) {
    match step
    case ProducerEnter(_, _) => s.cs.Free?
    case ProducerPush => s.cs.HeldByProducer? && s.cs.stage.Pushing?
    case ProducerPost => s.cs.HeldByProducer? && s.cs.stage.Posting?
    case ProducerLeave => s.cs.HeldByProducer? && s.cs.stage.Going?
    case SetTerminate => s.sd == NotStarted
    case PostWakeUp => s.sd == Flagged
    case Join => s.sd == Posted && s.pc == Exited
    case TestDestroy => s.pc == Testing
    case WaitSemaphore => s.pc == Waiting && s.sema > 0
    case CheckTerminate => s.pc == HasToken
    case WorkerEnter => s.pc == Entering && s.cs.Free?
    case Front => s.pc == AtFront
    case Pop => s.pc == AtPop
    case WorkerLeave => s.pc == Leaving
    case Process => s.pc == Processing
  }

  function Next(s: State, step: Step): State
    requires Enabled(s, step)
  {
    match step
    case ProducerEnter(t, r) => s.(cs := HeldByProducer(t, Pushing(r)))
    case ProducerPush =>
      s.(list := s.list + [s.cs.stage.r], pushed := s.pushed + [s.cs.stage.r],
         cs := HeldByProducer(s.cs.thread, Posting))
    case ProducerPost => s.(sema := s.sema + 1, cs := HeldByProducer(s.cs.thread, Going))
    case ProducerLeave => s.(cs := Free)
    case SetTerminate => s.(terminate := true, sd := Flagged)
    case PostWakeUp => s.(sema := s.sema + 1, sd := Posted)
    case Join => s.(sd := Joined)
    case TestDestroy => s.(pc := Waiting)
    case WaitSemaphore => s.(sema := s.sema - 1, pc := HasToken)
    case CheckTerminate => s.(pc := if s.terminate then Exited else Entering)
    case WorkerEnter => s.(cs := HeldByWorker, pc := AtFront)
    case Front => if s.list == [] then s.(pc := Crashed) else s.(req := s.list[0], pc := AtPop)
    case Pop => if s.list == [] then s.(pc := Crashed) else s.(list := s.list[1..], pc := Leaving)
    case WorkerLeave => s.(cs := Free, pc := Processing)
    case Process => s.(processed := s.processed + [s.req], pc := Testing)
  }

  ghost predicate Leads(s: State, steps: seq<Step>, t: State)
    decreases |steps|
  {
    if steps == [] then s == t
    else Enabled(s, steps[0]) && Leads(Next(s, steps[0]), steps[1..], t)
  }

  // ----- Safety -----

  /** The worker has taken a token that it has not yet turned into a removal; at the end of
      the thread this is the token of the final wake-up. */
  predicate HoldsToken(pc: WorkerPc) {
    pc in {HasToken, Entering, AtFront, AtPop, Exited}
  }

  /** The request that is out of the list and not yet processed. */
  function InHand(s: State): seq<Request> {
    if s.pc in {Leaving, Processing} then [s.req] else []
  }

  /** Tokens, in the semaphore, in the worker's hand or about to be posted, count the list
      entries and the one wake-up. */
  predicate TokensBalance(s: State) {
    s.sema + (if HoldsToken(s.pc) then 1 else 0) + (if s.cs.HeldByProducer? && s.cs.stage.Posting? then 1 else 0)
    == |s.list| + (if s.sd in {Posted, Joined} then 1 else 0)
  }

  predicate Inv(s: State) {
    && TokensBalance(s)
    && (s.terminate <==> s.sd != NotStarted)
    && (s.cs.HeldByWorker? <==> s.pc in {AtFront, AtPop, Leaving})
    && (s.pc in {Entering, AtFront, AtPop} ==> s.list != [])
    && (s.cs.HeldByProducer? && s.cs.stage.Posting? ==> s.list != [])
    && (s.pc == AtPop ==> s.req == s.list[0])
    && (s.pc == Exited ==> s.terminate)
    && (s.sd == Joined ==> s.pc == Exited)
    && s.pc != Crashed
    && s.pushed == s.processed + InHand(s) + s.list
  }

  lemma StepKeepsInv(s: State, step: Step)
    requires Inv(s) && Enabled(s, step)
    ensures Inv(Next(s, step))
  {
    if step.ProducerPush? {
      PushKeepsOrder(s);
    } else if step.Pop? {
      PopKeepsOrder(s);
    } else if IsWorkerStep(step) {
      WorkerStepKeepsInv(s, step);
    }
  }

  lemma PushKeepsOrder(s: State)
    requires Inv(s) && Enabled(s, ProducerPush)
    ensures Inv(Next(s, ProducerPush))
  {
    assert Next(s, ProducerPush).pushed == (s.processed + InHand(s) + s.list) + [s.cs.stage.r];
  }

  lemma PopKeepsOrder(s: State)
    requires Inv(s) && Enabled(s, Pop)
    ensures Inv(Next(s, Pop))
  {
    assert s.list == [s.list[0]] + s.list[1..];
  }

  lemma WorkerStepKeepsInv(s: State, step: Step)
    requires Inv(s) && Enabled(s, step) && IsWorkerStep(step) && !step.Pop?
    ensures Inv(Next(s, step))
  {
    var t := Next(s, step);
    if step.Process? || step.WorkerLeave? {
      assert t.processed + InHand(t) == s.processed + InHand(s);
    } else {
      assert InHand(t) == InHand(s) && t.processed == s.processed;
    }
  }

  lemma {:induction false} RunsKeepInv(s: State, steps: seq<Step>, t: State)
    requires Inv(s) && Leads(s, steps, t)
    ensures Inv(t)
    decreases |steps|
  {
    if steps != [] {
      StepKeepsInv(s, steps[0]);
      RunsKeepInv(Next(s, steps[0]), steps[1..], t);
    }
  }

  /** In every interleaving the list is non-empty when the worker takes its front, and the
      processed requests are a prefix of the pushed ones: in push order, each at most once. */
  lemma FrontIsSafeAndOrderKept(r: Request, steps: seq<Step>, t: State)
    requires Leads(Initial(r), steps, t)
    ensures t.pc in {AtFront, AtPop} ==> t.list != []
    ensures t.pc != Crashed
    ensures t.processed <= t.pushed
  {
    RunsKeepInv(Initial(r), steps, t);
  }

  /** No wake-up is lost: when nobody is shutting down and the worker can only wait, with no
      producer in the critical section, every pushed request has been processed. */
  lemma IdleWorkerHasProcessedEverything(r: Request, steps: seq<Step>, t: State)
    requires Leads(Initial(r), steps, t)
    requires t.pc == Waiting && t.sema == 0 && t.cs.Free? && t.sd == NotStarted
    ensures t.processed == t.pushed
  {
    RunsKeepInv(Initial(r), steps, t);
  }

  // ----- Shutdown -----

  predicate IsWorkerStep(step: Step) {
    step in {TestDestroy, WaitSemaphore, CheckTerminate, WorkerEnter, Front, Pop, WorkerLeave, Process}
  }

  /** How many steps the worker is from its end once the flag is up. */
  function Rank(pc: WorkerPc): nat {
    match pc
    case Entering => 8
    case AtFront => 7
    case AtPop => 6
    case Leaving => 5
    case Processing => 4
    case Testing => 3
    case Waiting => 2
    case HasToken => 1
    case Exited => 0
    case Crashed => 0
  }

  function WorkerSteps(steps: seq<Step>): nat {
    if steps == [] then 0 else (if IsWorkerStep(steps[0]) then 1 else 0) + WorkerSteps(steps[1..])
  }

  lemma RankDrops(s: State, step: Step)
    requires Inv(s) && s.terminate && Enabled(s, step)
    ensures Next(s, step).terminate
    ensures (if IsWorkerStep(step) then 1 else 0) + Rank(Next(s, step).pc) == Rank(s.pc)
  {
  }

  /** From the moment the flag is raised the worker takes at most eight more steps. */
  lemma {:induction false} WorkerEndsSoon(s: State, steps: seq<Step>, t: State)
    requires Inv(s) && s.terminate && Leads(s, steps, t)
    ensures WorkerSteps(steps) + Rank(t.pc) == Rank(s.pc)
    ensures WorkerSteps(steps) <= 8
    decreases |steps|
  {
    if steps != [] {
      StepKeepsInv(s, steps[0]);
      RankDrops(s, steps[0]);
      WorkerEndsSoon(Next(s, steps[0]), steps[1..], t);
    }
  }

  /** After the wake-up has been posted there is no deadlock: the worker has ended, can step, or
      waits for a producer that can step. Producers that keep entering the critical section
      could still keep the worker out of it. */
  lemma JoinCannotHang(r: Request, steps: seq<Step>, t: State)
    requires Leads(Initial(r), steps, t) && t.sd == Posted
    ensures || Enabled(t, Join)
            || (exists w :: IsWorkerStep(w) && Enabled(t, w))
            || (t.pc == Entering && exists p :: p in {ProducerPush, ProducerPost, ProducerLeave} && Enabled(t, p))
  {
    RunsKeepInv(Initial(r), steps, t);
    var mine := match t.pc
      case Testing => TestDestroy
      case Waiting => WaitSemaphore
      case HasToken => CheckTerminate
      case Entering => WorkerEnter
      case AtFront => Front
      case AtPop => Pop
      case Leaving => WorkerLeave
      case _ => Process;
    if t.pc == Entering && t.cs.HeldByProducer? {
      var p := match t.cs.stage
        case Pushing(_) => ProducerPush
        case Posting => ProducerPost
        case Going => ProducerLeave;
      assert Enabled(t, p);
    } else if t.pc != Exited {
      assert IsWorkerStep(mine) && Enabled(t, mine);
    }
  }

  /** The steps that are left of the worker and of the producer in the critical section. */
  function Left(s: State): nat {
    Rank(s.pc) + match s.cs
                 case HeldByProducer(_, Pushing(_)) => 3
                 case HeldByProducer(_, Posting) => 2
                 case HeldByProducer(_, Going) => 1
                 case _ => 0
  }

  predicate IsQuiet(step: Step) {
    !step.ProducerEnter? && !step.Join?
  }

  lemma QuietStepLeavesLess(s: State, step: Step)
    requires Inv(s) && s.sd == Posted && Enabled(s, step) && IsQuiet(step)
    ensures Left(Next(s, step)) + 1 == Left(s) && Next(s, step).sd == Posted
  {
  }

  lemma {:induction false} QuietRunsAreShort(s: State, steps: seq<Step>, t: State)
    requires Inv(s) && s.sd == Posted && Leads(s, steps, t)
    requires forall i :: 0 <= i < |steps| ==> IsQuiet(steps[i])
    ensures |steps| + Left(t) == Left(s) && t.sd == Posted
    decreases |steps|
  {
    if steps != [] {
      QuietStepLeavesLess(s, steps[0]);
      StepKeepsInv(s, steps[0]);
      QuietRunsAreShort(Next(s, steps[0]), steps[1..], t);
    }
  }

  /** If no further producer enters, every schedule gets to the join in at most eleven steps:
      no run without one is longer, and where it stops short the join or another such step is
      possible. */
  lemma JoinIsReached(r: Request, before: seq<Step>, s: State, steps: seq<Step>, t: State)
    requires Leads(Initial(r), before, s) && s.sd == Posted && Leads(s, steps, t)
    requires forall i :: 0 <= i < |steps| ==> IsQuiet(steps[i])
    ensures |steps| <= 11
    ensures Enabled(t, Join) || exists q :: IsQuiet(q) && Enabled(t, q)
  {
    RunsKeepInv(Initial(r), before, s);
    QuietRunsAreShort(s, steps, t);
    LeadsTogether(Initial(r), before, s, steps, t);
    QuietStepLeft(r, before + steps, t);
  }

  lemma QuietStepLeft(r: Request, steps: seq<Step>, t: State)
    requires Leads(Initial(r), steps, t) && t.sd == Posted
    ensures Enabled(t, Join) || exists q :: IsQuiet(q) && Enabled(t, q)
  {
    JoinCannotHang(r, steps, t);
    if w :| IsWorkerStep(w) && Enabled(t, w) {
      assert IsQuiet(w);
    } else if p :| p in {ProducerPush, ProducerPost, ProducerLeave} && Enabled(t, p) {
      assert IsQuiet(p);
    }
  }

  lemma {:induction false} LeadsTogether(s: State, p: seq<Step>, t: State, q: seq<Step>, u: State)
    requires Leads(s, p, t) && Leads(t, q, u)
    ensures Leads(s, p + q, u)
    decreases |p|
  {
    if p == [] {
      assert p + q == q;
    } else {
      LeadsTogether(Next(s, p[0]), p[1..], t, q, u);
      assert (p + q)[1..] == p[1..] + q && (p + q)[0] == p[0];
    }
  }

  // ----- One request -----

  /** What a resolver looks like to a request. */
  datatype Source = Source(name: string, online: bool, enabled: bool)

  /** The number a source is asked for, if it is asked at all. */
  function Asked(src: Source, req: Request): Option<string> {
    if !src.enabled then None
    else if !src.online then Some(req.e164)
    else if req.online then Some(req.national)
    else None
  }

  /** What the books and the web pages answer, left open. */
  type Answers = (Source, string) -> Option<string>

  predicate Answered(src: Source, req: Request, answers: Answers) {
    Asked(src, req).Some? && answers(src, Asked(src, req).value).Some?
  }

  /** `processRequest`: the sources are tried in list order until one answers. The answer is
      that of the first source that has one, it is sent at most once, no source behind it is
      asked, and a request that must stay local reaches no online source. */
  method ProcessRequest(req: Request, sources: seq<Source>, answers: Answers)
    returns (response: Option<string>, queried: seq<int>)
    ensures response.Some? <==> exists i :: 0 <= i < |sources| && Answered(sources[i], req, answers)
    ensures response.Some? ==>
              exists i :: 0 <= i < |sources| && Answered(sources[i], req, answers)
                       && response == answers(sources[i], Asked(sources[i], req).value)
                       && (forall j :: 0 <= j < i ==> !Answered(sources[j], req, answers))
                       && (forall q :: q in queried ==> q <= i)
    ensures response.Some? ==>
              exists src :: src in sources && src.enabled && (src.online ==> req.online)
                         && response == answers(src, if src.online then req.national else req.e164)
    ensures forall q :: q in queried ==> 0 <= q < |sources| && sources[q].enabled && (sources[q].online ==> req.online)
    ensures response.None? ==>
              forall src :: src in sources && src.enabled && (src.online ==> req.online)
                         ==> answers(src, if src.online then req.national else req.e164).None?
  {
    response, queried := None, [];
    for i := 0 to |sources|
      invariant response.None?
      invariant forall j :: 0 <= j < i ==> !Answered(sources[j], req, answers)
      invariant forall q :: q in queried ==> 0 <= q < i && sources[q].enabled && (sources[q].online ==> req.online)
    {
      var src := sources[i];
      if src.enabled {
        var found: Option<string> := None;
        if src.online {
          if !req.online {
            continue;
          }
          queried := queried + [i];
          found := answers(src, req.national);
        } else {
          queried := queried + [i];
          found := answers(src, req.e164);
        }
        if found.Some? {
          response := found;
          assert Answered(sources[i], req, answers) && sources[i] in sources;
          return;
        }
      }
    }
  }
}
