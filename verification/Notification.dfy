/** The notification windows (gui/notification.cpp): one per incoming call, stacked in slots
    at the lower right of the screen, and moved there by a timer. */
module Notification {
  import opened Common

  const WIDTH := 320
  const HEIGHT := 100

  datatype Screen = Screen(width: int, height: int)

  datatype Point = Point(x: int, y: int)

  datatype Window = Window(pos: Point, target: Point)

  /** The windows in order of arrival, and whether the timer runs. */
  datatype Manager = Manager(windows: seq<Window>, running: bool)

  // ----- One window -----

  /** One axis: a step towards the target, cut off at it. */
  function StepTo(from: int, to: int, up: int, down: int): int {
    if from < to then (if from + up > to then to else from + up)
    else if from > to then (if from - down < to then to else from - down)
    else from
  }

  function Move(w: Window): Window {
    w.(pos := Point(StepTo(w.pos.x, w.target.x, 3, 3), StepTo(w.pos.y, w.target.y, 3, 10)))
  }

  predicate NeedToMove(w: Window) {
    w.pos != w.target
  }

  function Ceil3(d: int): int { (d + 2) / 3 }
  function Ceil10(d: int): int { (d + 9) / 10 }

  /** Steps left on each axis: distance over step width, rounded up. Upward steps of the
      window, that is towards smaller y, are ten pixels wide, all others three. */
  function StepsX(w: Window): int {
    if w.pos.x < w.target.x then Ceil3(w.target.x - w.pos.x) else Ceil3(w.pos.x - w.target.x)
  }

  function StepsY(w: Window): int {
    if w.pos.y < w.target.y then Ceil3(w.target.y - w.pos.y) else Ceil10(w.pos.y - w.target.y)
  }

  function Steps(w: Window): int {
    Max(StepsX(w), StepsY(w))
  }

  predicate Between(a: int, m: int, b: int) {
    a <= m <= b || b <= m <= a
  }

  /** One move takes exactly one step off the count, never passes the target on either axis,
      and none are left exactly when the window is in place. */
  lemma MoveCounts(w: Window)
    ensures Steps(Move(w)) == (if Steps(w) == 0 then 0 else Steps(w) - 1) && Steps(w) >= 0
    ensures Between(w.pos.x, Move(w).pos.x, w.target.x) && Between(w.pos.y, Move(w).pos.y, w.target.y)
    ensures NeedToMove(w) <==> Steps(w) > 0
    ensures Move(w).target == w.target
  {
  }

  // ----- The timer -----

  function MoveAll(ws: seq<Window>): seq<Window> {
    seq(|ws|, i requires 0 <= i < |ws| => Move(ws[i]))
  }

  predicate AnyNeedsToMove(ws: seq<Window>) {
    exists i :: 0 <= i < |ws| && NeedToMove(ws[i])
  }

  function Tick(m: Manager): Manager {
    Manager(MoveAll(m.windows), m.running && AnyNeedsToMove(MoveAll(m.windows)))
  }

  /** n timer events; a stopped timer raises none. */
  function Ticks(m: Manager, n: nat): Manager {
    if n == 0 then m else
    var p := Ticks(m, n - 1);
    if p.running then Tick(p) else p
  }

  function MostSteps(ws: seq<Window>): int {
    if ws == [] then 0 else Max(MostSteps(ws[..|ws| - 1]), Steps(ws[|ws| - 1]))
  }

  lemma {:induction false} MostStepsDrops(ws: seq<Window>)
    ensures MostSteps(ws) >= 0
    ensures MostSteps(MoveAll(ws)) == if MostSteps(ws) == 0 then 0 else MostSteps(ws) - 1
  {
    if ws != [] {
      var n := |ws| - 1;
      MostStepsDrops(ws[..n]);
      MoveCounts(ws[n]);
      assert MoveAll(ws)[..n] == MoveAll(ws[..n]);
    }
  }

  lemma {:induction false} MostStepsMeansMoving(ws: seq<Window>)
    ensures MostSteps(ws) > 0 <==> AnyNeedsToMove(ws)
  {
    if ws != [] {
      var n := |ws| - 1;
      MostStepsMeansMoving(ws[..n]);
      MostStepsDrops(ws[..n]);
      MoveCounts(ws[n]);
      if i :| 0 <= i < n && NeedToMove(ws[i]) {
        assert ws[..n][i] == ws[i];
      }
      if NeedToMove(ws[n]) {
        assert AnyNeedsToMove(ws);
      }
      if AnyNeedsToMove(ws[..n]) {
        var i :| 0 <= i < n && NeedToMove(ws[..n][i]);
        assert NeedToMove(ws[i]);
      }
    }
  }

  /** The state after n timer events, by the number of steps that were left at the start. */
  ghost predicate TimedOut(m: Manager, p: Manager, n: nat) {
    && (n < Max(1, MostSteps(m.windows)) ==> p.running && MostSteps(p.windows) == MostSteps(m.windows) - n)
    && (n >= Max(1, MostSteps(m.windows)) ==> !p.running && MostSteps(p.windows) == 0)
  }

  lemma {:induction false} TimerCounts(m: Manager, n: nat)
    requires m.running
    ensures TimedOut(m, Ticks(m, n), n)
  {
    MostStepsDrops(m.windows);
    if n > 0 {
      TimerCounts(m, n - 1);
      TickDrops(Ticks(m, n - 1));
    }
  }

  lemma {:induction false} TargetsStay(m: Manager, n: nat)
    ensures |Ticks(m, n).windows| == |m.windows|
    ensures forall i :: 0 <= i < |m.windows| ==> Ticks(m, n).windows[i].target == m.windows[i].target
  {
    if n > 0 {
      TargetsStay(m, n - 1);
    }
  }

  /** With no window added or removed, the timer runs for exactly as many events as the
      longest way takes, at least one, and then every window is at its target. */
  lemma TimerStopsAfter(m: Manager, n: nat)
    requires m.running
    ensures Ticks(m, n).running <==> n < Max(1, MostSteps(m.windows))
    ensures n >= Max(1, MostSteps(m.windows)) ==> forall i :: 0 <= i < |m.windows| ==>
              i < |Ticks(m, n).windows| && Ticks(m, n).windows[i].pos == m.windows[i].target
  {
    TimerCounts(m, n);
    TargetsStay(m, n);
    var p := Ticks(m, n);
    MostStepsMeansMoving(p.windows);
    if n >= Max(1, MostSteps(m.windows)) {
      forall i | 0 <= i < |m.windows| ensures p.windows[i].pos == m.windows[i].target {
        assert !NeedToMove(p.windows[i]);
      }
    }
  }

  lemma TickDrops(p: Manager)
    ensures MostSteps(Tick(p).windows) == (if MostSteps(p.windows) == 0 then 0 else MostSteps(p.windows) - 1)
    ensures Tick(p).running <==> p.running && MostSteps(Tick(p).windows) > 0
  {
    MostStepsDrops(p.windows);
    MostStepsMeansMoving(MoveAll(p.windows));
  }

  // ----- Slots -----

  function Slot(s: Screen, i: nat): Point {
    Point(s.width - WIDTH, s.height - HEIGHT - HEIGHT * i)
  }

  /** `CalculatePositions`. */
  function LayOut(ws: seq<Window>, s: Screen): seq<Window> {
    seq(|ws|, i requires 0 <= i < |ws| => ws[i].(target := Slot(s, i)))
  }

  function Arrange(ws: seq<Window>, s: Screen, running: bool): Manager {
    var laid := LayOut(ws, s);
    Manager(laid, running || AnyNeedsToMove(laid))
  }

  datatype Event =
    | Notify(incoming: bool, screen: Screen)
    | Kill(idx: nat, screen: Screen)   // an index outside the list: the window is not found
    | Timer

  function Apply(m: Manager, e: Event): Manager {
    match e
    case Notify(incoming, s) =>
      if !incoming then m
      else
        var start := Point(s.width - WIDTH, s.height);
        Arrange(m.windows + [Window(start, start)], s, m.running)
    case Kill(idx, s) =>
      if idx < |m.windows| then Arrange(m.windows[..idx] + m.windows[idx + 1..], s, m.running) else m
    case Timer => if m.running then Tick(m) else m
  }

  function ApplyAll(m: Manager, es: seq<Event>): Manager {
    if es == [] then m else Apply(ApplyAll(m, es[..|es| - 1]), es[|es| - 1])
  }

  ghost predicate LaidOut(ws: seq<Window>, s: Screen) {
    forall i :: 0 <= i < |ws| ==> ws[i].target == Slot(s, i)
  }

  ghost predicate Inv(m: Manager) {
    && (exists s :: LaidOut(m.windows, s))
    && (!m.running ==> !AnyNeedsToMove(m.windows))
  }

  /** An incoming call adds a window below the screen, behind the others, which stay where they
      are; any other call adds none. */
  lemma NotifiedWindow(m: Manager, incoming: bool, s: Screen)
    ensures var t := Apply(m, Notify(incoming, s));
            if incoming then
              && |t.windows| == |m.windows| + 1
              && (forall i :: 0 <= i < |m.windows| ==> t.windows[i].pos == m.windows[i].pos)
              && t.windows[|m.windows|].pos == Point(s.width - 320, s.height)
              && InSlots(t.windows, s)
            else t == m
  {
  }

  /** A window that is closed goes, and it alone: the others stay where they are and keep their
      order. */
  lemma KilledWindow(m: Manager, idx: nat, s: Screen)
    ensures var t := Apply(m, Kill(idx, s));
            if idx < |m.windows| then
              && |t.windows| == |m.windows| - 1
              && (forall i :: 0 <= i < idx ==> t.windows[i].pos == m.windows[i].pos)
              && (forall i :: idx < i < |m.windows| ==> t.windows[i - 1].pos == m.windows[i].pos)
              && InSlots(t.windows, s)
            else t == m
  {
  }

  /** The windows are on their way to the lower right, one above the other. */
  ghost predicate InSlots(ws: seq<Window>, s: Screen) {
    forall i :: 0 <= i < |ws| ==> ws[i].target.x + 320 == s.width && ws[i].target.y + 100 * (i + 1) == s.height
  }

  lemma ApplyKeepsInv(m: Manager, e: Event)
    requires Inv(m)
    ensures Inv(Apply(m, e))
  {
    var s :| LaidOut(m.windows, s);
    match e
    case Timer =>
      assert LaidOut(Apply(m, e).windows, s);
    case _ =>
      if Apply(m, e) != m {
        assert LaidOut(Apply(m, e).windows, e.screen);
      }
  }

  /** Over any run of calls, deletions and timer events, with the screen changing between
      them: while the timer is stopped every window is at its target, and the targets are the
      slots of one screen. */
  lemma {:induction false} RunsKeepInv(es: seq<Event>)
    ensures Inv(ApplyAll(Manager([], false), es))
  {
    if es == [] {
      assert LaidOut([], Screen(0, 0));
    } else {
      RunsKeepInv(es[..|es| - 1]);
      ApplyKeepsInv(ApplyAll(Manager([], false), es[..|es| - 1]), es[|es| - 1]);
    }
  }

  predicate Overlap(a: Point, b: Point) {
    a.x < b.x + WIDTH && b.x < a.x + WIDTH && a.y < b.y + HEIGHT && b.y < a.y + HEIGHT
  }

  lemma SlotsApart(s: Screen, i: nat, j: nat)
    requires i < j
    ensures Slot(s, i).y - Slot(s, j).y >= HEIGHT
  {
  }

  /** At rest no two windows overlap, and they fill the column without a gap. */
  lemma RestingWindowsAreDisjoint(es: seq<Event>)
    ensures var m := ApplyAll(Manager([], false), es);
            !m.running ==>
              (forall i, j :: 0 <= i < j < |m.windows| ==> !Overlap(m.windows[i].pos, m.windows[j].pos))
              && (forall i :: 0 <= i < |m.windows| - 1 ==> m.windows[i].pos.y - HEIGHT == m.windows[i + 1].pos.y)
  {
    var m := ApplyAll(Manager([], false), es);
    RunsKeepInv(es);
    if !m.running {
      var s :| LaidOut(m.windows, s);
      forall i | 0 <= i < |m.windows| ensures m.windows[i].pos == Slot(s, i) {
        assert !NeedToMove(m.windows[i]);
      }
      forall i, j | 0 <= i < j < |m.windows| ensures !Overlap(m.windows[i].pos, m.windows[j].pos) {
        SlotsApart(s, i, j);
      }
    }
  }

  // ----- The objects -----

  class NotificationWnd {
    var pos: Point
    var target: Point

    function Val(): Window
      reads this
    {
      Window(pos, target)
    }

    constructor (at: Point)
      ensures Val() == Window(at, at)
    {
      pos, target := at, at;
    }

    method SetTargetPos(p: Point)
      modifies this
      ensures Val() == old(Val()).(target := p)
    {
      target := p;
    }

    method DoMove()
      modifies this
      ensures Val() == Move(old(Val()))
    {
      var p := pos;
      if p != target {
        if p.x < target.x {
          p := p.(x := p.x + 3);
          if p.x > target.x {
            p := p.(x := target.x);
          }
        } else if p.x > target.x {
          p := p.(x := p.x - 3);
          if p.x < target.x {
            p := p.(x := target.x);
          }
        }
        if p.y < target.y {
          p := p.(y := p.y + 3);
          if p.y > target.y {
            p := p.(y := target.y);
          }
        } else if p.y > target.y {
          p := p.(y := p.y - 10);
          if p.y < target.y {
            p := p.(y := target.y);
          }
        }
        pos := p;
      }
    }
  }

  class NotificationMgr {
    var windows: seq<NotificationWnd>
    var running: bool

    ghost predicate Valid()
      reads this
    {
      forall i, j :: 0 <= i < j < |windows| ==> windows[i] != windows[j]
    }

    function Vals(): seq<Window>
      reads this, windows
    {
      seq(|windows|, i requires 0 <= i < |windows| reads this, windows => windows[i].Val())
    }

    function Val(): Manager
      reads this, windows
    {
      Manager(Vals(), running)
    }

    constructor ()
      ensures Valid() && Val() == Manager([], false)
    {
      windows, running := [], false;
    }

    method CalculatePositions(s: Screen) returns (needMove: bool)
      requires Valid()
      modifies windows
      ensures Vals() == LayOut(old(Vals()), s)
      ensures needMove <==> AnyNeedsToMove(Vals())
    {
      needMove := false;
      var p := Point(s.width - WIDTH, s.height - HEIGHT);
      ghost var was := Vals();
      for i := 0 to |windows|
        invariant p == Slot(s, i)
        invariant forall k :: 0 <= k < i ==> windows[k].Val() == was[k].(target := Slot(s, k))
        invariant forall k :: i <= k < |windows| ==> windows[k].Val() == was[k]
        invariant needMove <==> exists k :: 0 <= k < i && NeedToMove(was[k].(target := Slot(s, k)))
      {
        windows[i].SetTargetPos(p);
        needMove := needMove || windows[i].pos != windows[i].target;
        p := p.(y := p.y - HEIGHT);
      }
      assert Vals() == LayOut(was, s);
      assert forall k :: 0 <= k < |windows| ==> LayOut(was, s)[k] == was[k].(target := Slot(s, k));
    }

    method DoNotify(incoming: bool, s: Screen)
      requires Valid()
      modifies this, windows
      ensures Valid() && Val() == Apply(old(Val()), Notify(incoming, s))
    {
      if incoming {
        ghost var was := Vals();
        var start := Point(s.width - WIDTH, s.height);
        var w := new NotificationWnd(start);
        windows := windows + [w];
        assert Vals() == was + [Window(start, start)];
        var need := CalculatePositions(s);
        if need {
          running := true;
        }
      }
    }

    /** Searches the window and takes it out; the others move up. */
    method KillWnd(w: NotificationWnd, s: Screen) returns (ghost idx: nat)
      requires Valid()
      modifies this, windows
      ensures Valid() && Val() == Apply(old(Val()), Kill(idx, s))
      ensures if w in old(windows) then idx < |old(windows)| && old(windows)[idx] == w else idx == |old(windows)|
    {
      idx := |windows|;
      for i := 0 to |windows|
        invariant unchanged(this) && unchanged(windows)
        invariant forall k :: 0 <= k < i ==> windows[k] != w
      {
        if windows[i] == w {
          ghost var was := Vals();
          idx := i;
          windows := windows[..i] + windows[i + 1..];
          assert Vals() == was[..i] + was[i + 1..];
          var need := CalculatePositions(s);
          if need {
            running := true;
          }
          return;
        }
      }
    }

    /** The timer event, which is raised only while the timer runs. */
    method OnTimer()
      requires Valid() && running
      modifies this, windows
      ensures Valid() && Val() == Apply(old(Val()), Timer)
    {
      var needMove := false;
      ghost var was := Vals();
      for i := 0 to |windows|
        invariant windows == old(windows) && running
        invariant forall k :: 0 <= k < i ==> windows[k].Val() == Move(was[k])
        invariant forall k :: i <= k < |windows| ==> windows[k].Val() == was[k]
        invariant needMove <==> exists k :: 0 <= k < i && NeedToMove(Move(was[k]))
      {
        windows[i].DoMove();
        needMove := needMove || windows[i].pos != windows[i].target;
      }
      assert Vals() == MoveAll(was);
      assert forall k :: 0 <= k < |windows| ==> MoveAll(was)[k] == Move(was[k]);
      if !needMove {
        running := false;
      }
    }
  }
}
