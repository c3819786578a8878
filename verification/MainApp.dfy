/** `CMainApp` (gui/mainapp.cpp): the handlers that run on the GUI thread, one queued
    event at a time. They keep the active calls, write them through to the journal and
    ask the resolver for the names of the two parties.

    `App` is the value of the application and `Step` what one event does to it; the class
    at the end does the same in place. */
module MainApps {
  import opened Common
  import opened CallTypes
  import opened JournalEntries
  import opened JournalStore

  /** The key of `m_ActiveCalls`, ordered by provider and then by call. */
  datatype Key = Key(pid: nat, cid: nat)

  predicate KeyLeq(a: Key, b: Key) {
    a.pid < b.pid || (a.pid == b.pid && a.cid <= b.cid)
  }

  datatype NumberKind = Internal | National | NationalResolvable | International | Invalid
  datatype Parsed = Parsed(kind: NumberKind, national: string, e164: string)

  /** What the model does not look into: the engine's text match and the phone-number library. */
  datatype Config = Config(like: Like, parse: string -> Parsed)

  datatype App = App(active: map<Key, Entry>, store: Store, requests: seq<Request>)

  // ----- Handlers on values -----

  ghost predicate IsFirst(active: map<Key, Entry>, dbKey: int, k: Key) {
    && k in active && active[k].dbKey == dbKey
    && forall j :: j in active && active[j].dbKey == dbKey ==> KeyLeq(k, j)
  }

  /** `findActiveEntry`: the first entry, in key order, with this database key. */
  ghost function FindActive(active: map<Key, Entry>, dbKey: int): Option<Key> {
    if k :| IsFirst(active, dbKey, k) then Some(k) else None
  }

  /** None of the calls in front of it, by provider and then by id, has that key. */
  lemma FirstFound(active: map<Key, Entry>, dbKey: int, k: Key, j: Key)
    requires FindActive(active, dbKey) == Some(k) && j in active && active[j].dbKey == dbKey
    ensures k in active && active[k].dbKey == dbKey
    ensures k.pid < j.pid || (k.pid == j.pid && k.cid <= j.cid)
  {
  }

  function OnlineResolvable(e: Entry, localSide: JType, kind: NumberKind): bool {
    e.progress.jtype != localSide && kind != Internal && kind != International
  }

  function ResolveCaller(cfg: Config, number: string, e: Entry): (Entry, seq<Request>) {
    if e.resolvingCaller then (e, []) else
    var p := cfg.parse(number);
    var f := e.SetCallerAddress(p.national);
    if f.callerName == "" && p.national != "" then
      (f.(resolvingCaller := true),
       [Request(f.dbKey, RESOLVE_CALLER, p.national, p.e164, OnlineResolvable(f, JOutgoing, p.kind))])
    else (f, [])
  }

  function ResolveCalled(cfg: Config, number: string, e: Entry): (Entry, seq<Request>) {
    if e.resolvingCalled then (e, []) else
    var p := cfg.parse(number);
    var f := e.SetCalledAddress(p.national);
    if f.calledName == "" && p.national != "" then
      (f.(resolvingCalled := true),
       [Request(f.dbKey, RESOLVE_CALLED, p.national, p.e164, OnlineResolvable(f, JIncoming, p.kind))])
    else (f, [])
  }

  function MergeNames(e: Entry, info: CallInfo): Entry {
    var f := if e.calledName == "" then e.SetCalledName(info.calledName) else e;
    if f.callerName == "" then f.SetCallerName(info.callerName) else f
  }

  function MergeCalled(cfg: Config, e: Entry, info: CallInfo): (Entry, seq<Request>) {
    if e.calledAddress == "" && info.calledAddress != "" then ResolveCalled(cfg, info.calledAddress, e) else (e, [])
  }

  function MergeCaller(cfg: Config, e: Entry, info: CallInfo): (Entry, seq<Request>) {
    if e.callerAddress == "" && info.callerAddress != "" then ResolveCaller(cfg, info.callerAddress, e) else (e, [])
  }

  /** What a call-info update does to its entry, and the lookups it issues. */
  function MergeInfo(cfg: Config, e: Entry, info: CallInfo): (Entry, seq<Request>) {
    var (e3, r3) := MergeCalled(cfg, MergeNames(e, info), info);
    var (e4, r4) := MergeCaller(cfg, e3, info);
    (e4, r3 + r4)
  }

  function SetResolvedName(e: Entry, data: int, sn: string): Entry {
    if data == RESOLVE_CALLER then e.SetCallerName(sn)
    else if data == RESOLVE_CALLED then e.SetCalledName(sn)
    else e
  }

  /** Stores an active entry back after a handler has changed it. */
  function SaveActive(cfg: Config, a: App, k: Key, e: Entry, env: Env): App {
    var (s, f) := InsertUpdate(cfg.like, a.store, e, env);
    a.(active := a.active[k := f], store := s)
  }

  function NewEntry(pid: nat, cid: nat, t: CallType, status: CallStatus, now: int): Entry {
    FreshEntry(pid, cid, JournalType(t), now).SetState(JournalState(status), now)
  }

  ghost function Step(cfg: Config, a: App, ev: AppEvent, env: Env): App {
    match ev
    case NewCall(pid, cid, t, status) =>
      var (s, e) := InsertUpdate(cfg.like, a.store, NewEntry(pid, cid, t, status, env.now), env);
      // std::map::insert keeps an entry that is already there
      a.(active := if Key(pid, cid) in a.active then a.active else a.active[Key(pid, cid) := e], store := s)
    case CallStatusUpdate(pid, cid, status) =>
      var k := Key(pid, cid);
      if k !in a.active then a
      else if status == Idle then a.(active := a.active - {k})
      else SaveActive(cfg, a, k, a.active[k].SetState(JournalState(status), env.now), env)
    case CallInfoUpdate(pid, cid, info) =>
      var k := Key(pid, cid);
      if k !in a.active then a else
      var (e, requests) := MergeInfo(cfg, a.active[k], info);
      SaveActive(cfg, a.(requests := a.requests + requests), k, e, env)
    case ResolverResponse(key, data, sn) =>
      match FindActive(a.active, key)
      case Some(k) => SaveActive(cfg, a, k, SetResolvedName(a.active[k], data, sn), env)
      case None =>
        if env.dbOk && key in a.store.calls then
          var e := SetResolvedName(EntryOfRow(key, a.store.calls[key]), data, sn);
          a.(store := InsertUpdate(cfg.like, a.store, e, env).0)
        else a
  }

  /** An event together with the clock and the database as its handler meets them. */
  datatype Timed = Timed(ev: AppEvent, env: Env)

  ghost function Run(cfg: Config, a: App, steps: seq<Timed>): App {
    if steps == [] then a else
    var last := steps[|steps| - 1];
    Step(cfg, Run(cfg, a, steps[..|steps| - 1]), last.ev, last.env)
  }

  predicate FailureFree(steps: seq<Timed>) {
    forall t :: t in steps ==> t.env.FailureFree()
  }

  /** A started application: no calls yet, and a journal from earlier sessions. */
  ghost predicate Started(cfg: Config, a: App) {
    a.active == map[] && a.requests == [] && IdsBelowCounter(a.store) && CountsExact(cfg.like, a.store)
  }

  // ----- The invariant of failure-free runs -----

  ghost predicate EntryOk(s: Store, k: Key, e: Entry) {
    e.pid == k.pid && e.cid == k.cid && 1 <= e.dbKey < s.nextId && !e.dirty && RowMatches(s, e)
  }

  ghost predicate Inv(cfg: Config, a: App) {
    && IdsBelowCounter(a.store) && CountsExact(cfg.like, a.store)
    && (forall k :: k in a.active ==> EntryOk(a.store, k, a.active[k]))
    && (forall j, k :: j in a.active && k in a.active && j != k ==> a.active[j].dbKey != a.active[k].dbKey)
    && (forall r :: r in a.requests ==> 1 <= r.key < a.store.nextId)
  }

  /** An entry on its way from a handler to the journal: it still has the identity of the
      active entry, and either matches its row or is marked. */
  ghost predicate Pending(s: Store, old_: Entry, e: Entry) {
    e.pid == old_.pid && e.cid == old_.cid && e.dbKey == old_.dbKey && RowMatches(s, e)
  }

  lemma SetStatePending(s: Store, e: Entry, st: JState, now: int)
    requires RowMatches(s, e)
    ensures Pending(s, e, e.SetState(st, now))
  {
    if !e.progress.Marks(st) {
      UnmarkedMeansUnchanged(e.progress, st, now);
    }
  }

  lemma MergeNamesPending(s: Store, e: Entry, info: CallInfo)
    requires RowMatches(s, e)
    ensures Pending(s, e, MergeNames(e, info)) && MergeNames(e, info).progress == e.progress
  {
  }

  lemma MergeAddressesPending(cfg: Config, s: Store, e: Entry, info: CallInfo)
    requires RowMatches(s, e)
    ensures var (f, rs) := MergeCalled(cfg, e, info);
            Pending(s, e, f) && f.progress == e.progress && forall r :: r in rs ==> r.key == e.dbKey
    ensures var (f, rs) := MergeCaller(cfg, e, info);
            Pending(s, e, f) && f.progress == e.progress && forall r :: r in rs ==> r.key == e.dbKey
  {
  }

  lemma MergeInfoPending(cfg: Config, s: Store, e: Entry, info: CallInfo)
    requires RowMatches(s, e)
    ensures var (f, rs) := MergeInfo(cfg, e, info);
            Pending(s, e, f) && f.progress == e.progress && forall r :: r in rs ==> r.key == e.dbKey
  {
    MergeNamesPending(s, e, info);
    var named := MergeNames(e, info);
    MergeAddressesPending(cfg, s, named, info);
    MergeAddressesPending(cfg, s, MergeCalled(cfg, named, info).0, info);
  }

  lemma ResolvedNamePending(s: Store, e: Entry, data: int, sn: string)
    requires RowMatches(s, e)
    ensures Pending(s, e, SetResolvedName(e, data, sn))
    ensures SetResolvedName(e, data, sn).progress == e.progress
  {
  }

  lemma SaveActiveKeepsInv(cfg: Config, a: App, k: Key, e: Entry, env: Env)
    requires Inv(cfg, a) && env.FailureFree() && k in a.active && Pending(a.store, a.active[k], e)
    ensures Inv(cfg, SaveActive(cfg, a, k, e, env))
    ensures SaveActive(cfg, a, k, e, env).active == a.active[k := e.(dirty := false)]
  {
    SaveFacts(cfg.like, a.store, e, env);
  }

  lemma NewCallKeepsInv(cfg: Config, a: App, pid: nat, cid: nat, t: CallType, status: CallStatus, env: Env)
    requires Inv(cfg, a) && env.FailureFree()
    ensures Inv(cfg, Step(cfg, a, NewCall(pid, cid, t, status), env))
  {
    SaveFacts(cfg.like, a.store, NewEntry(pid, cid, t, status, env.now), env);
  }

  lemma LateResponseKeepsInv(cfg: Config, a: App, key: int, data: int, sn: string, env: Env)
    requires Inv(cfg, a) && env.FailureFree() && FindActive(a.active, key).None?
    ensures Inv(cfg, Step(cfg, a, ResolverResponse(key, data, sn), env))
  {
    if key in a.store.calls {
      RowRoundTrip(key, a.store.calls[key]);
      NoActive(a.active, key);
      SaveFacts(cfg.like, a.store, SetResolvedName(EntryOfRow(key, a.store.calls[key]), data, sn), env);
    }
  }

  lemma StepKeepsInv(cfg: Config, a: App, ev: AppEvent, env: Env)
    requires Inv(cfg, a) && env.FailureFree()
    ensures Inv(cfg, Step(cfg, a, ev, env))
  {
    match ev
    case NewCall(pid, cid, t, status) =>
      NewCallKeepsInv(cfg, a, pid, cid, t, status, env);
    case CallStatusUpdate(pid, cid, status) =>
      var k := Key(pid, cid);
      if k in a.active && status != Idle {
        SetStatePending(a.store, a.active[k], JournalState(status), env.now);
        SaveActiveKeepsInv(cfg, a, k, a.active[k].SetState(JournalState(status), env.now), env);
      }
    case CallInfoUpdate(pid, cid, info) =>
      var k := Key(pid, cid);
      if k in a.active {
        MergeInfoPending(cfg, a.store, a.active[k], info);
        var (e, requests) := MergeInfo(cfg, a.active[k], info);
        SaveActiveKeepsInv(cfg, a.(requests := a.requests + requests), k, e, env);
      }
    case ResolverResponse(key, data, sn) =>
      match FindActive(a.active, key) {
        case Some(k) =>
          ResolvedNamePending(a.store, a.active[k], data, sn);
          SaveActiveKeepsInv(cfg, a, k, SetResolvedName(a.active[k], data, sn), env);
        case None =>
          LateResponseKeepsInv(cfg, a, key, data, sn, env);
      }
  }

  /** In every failure-free run the active entries have distinct non-zero keys, are clean,
      and equal their rows unless those have been purged. */
  lemma {:induction false} RunKeepsInv(cfg: Config, a: App, steps: seq<Timed>)
    requires Inv(cfg, a) && FailureFree(steps)
    ensures Inv(cfg, Run(cfg, a, steps))
  {
    if steps != [] {
      var front, last := steps[..|steps| - 1], steps[|steps| - 1];
      RunKeepsInv(cfg, a, front);
      StepKeepsInv(cfg, Run(cfg, a, front), last.ev, last.env);
    }
  }

  // ----- Finding an active entry -----

  lemma {:induction false} LeastKey(keys: set<Key>) returns (k: Key)
    requires keys != {}
    ensures k in keys && forall j :: j in keys ==> KeyLeq(k, j)
    decreases keys
  {
    k := Pick(keys);
    var rest := keys - {k};
    assert forall j :: j in keys ==> j == k || j in rest;
    if rest != {} {
      var l := LeastKey(rest);
      k := if KeyLeq(k, l) then k else l;
    }
  }

  /** The search fails only when no active entry has the key. */
  lemma NoActive(active: map<Key, Entry>, dbKey: int)
    requires FindActive(active, dbKey).None?
    ensures forall k :: k in active ==> active[k].dbKey != dbKey
  {
    var matching := set k | k in active && active[k].dbKey == dbKey;
    if matching != {} {
      var k := LeastKey(matching);
      assert IsFirst(active, dbKey, k);
    }
    forall k | k in active ensures active[k].dbKey != dbKey {
      assert k !in matching;
    }
  }

  /** The least key of the rest, when nothing in front of the rest matches. */
  lemma FirstOfRest(active: map<Key, Entry>, rest: set<Key>, dbKey: int, k: Key)
    requires k in active && k in rest && active[k].dbKey == dbKey
    requires forall j :: j in rest ==> KeyLeq(k, j)
    requires forall j :: j in active && j !in rest ==> active[j].dbKey != dbKey
    ensures FindActive(active, dbKey) == Some(k)
  {
    FirstIsUnique(active, dbKey, k);
  }

  lemma FirstIsUnique(active: map<Key, Entry>, dbKey: int, k: Key)
    requires IsFirst(active, dbKey, k)
    ensures FindActive(active, dbKey) == Some(k)
  {
  }

  /** Saving an entry that has already been put into the map. */
  lemma SaveOver(cfg: Config, a: App, k: Key, e: Entry, env: Env)
    requires k in a.active
    ensures SaveActive(cfg, a.(active := a.active[k := e]), k, e, env) == SaveActive(cfg, a, k, e, env)
  {
    var f := InsertUpdate(cfg.like, a.store, e, env).1;
    assert a.active[k := e][k := f] == a.active[k := f];
  }

  // ----- The application object -----

  class MainApp {
    const cfg: Config
    const journal: JournalModel
    var active: map<Key, JournalEntry>
    var requests: seq<Request>

    ghost predicate Valid()
      reads this, journal
    {
      && journal.like == cfg.like && |journal.counts| == |FILTERS|
      && forall j, k :: j in active && k in active && j != k ==> active[j] != active[k]
    }

    function Val(): App
      reads this, journal, active.Values
    {
      App(map k | k in active :: active[k].Val(), journal.Val(), requests)
    }

    constructor (cfg: Config, journal: JournalModel)
      requires journal.like == cfg.like && |journal.counts| == |FILTERS|
      ensures Valid() && this.cfg == cfg && this.journal == journal
      ensures Val() == App(map[], journal.Val(), [])
    {
      this.cfg, this.journal, active, requests := cfg, journal, map[], [];
    }

    /** Constructs the entry of a new call and stores it. */
    method CreateCall(pid: nat, cid: nat, t: CallType, status: CallStatus, env: Env) returns (call: JournalEntry)
      requires Valid()
      modifies journal
      ensures Valid() && fresh(call) && Val() == old(Val()).(store := journal.Val())
      ensures (journal.Val(), call.Val())
              == InsertUpdate(cfg.like, old(journal.Val()), NewEntry(pid, cid, t, status, env.now), env)
    {
      call := new JournalEntry(pid, cid, JournalType(t), env.now);
      call.SetState(JournalState(status), env.now);
      journal.InsertUpdateEntry(call, env);
      EntriesUnchanged();
    }

    /** Nothing but the journal and new objects have changed. */
    twostate lemma EntriesUnchanged()
      requires active == old(active) && requests == old(requests)
      requires forall k :: k in active ==> active[k].Val() == old(active[k].Val())
      ensures Val() == old(Val()).(store := journal.Val())
    {
    }

    /** Inserting does not replace an entry that is already there. */
    method Track(k: Key, call: JournalEntry)
      requires Valid() && forall j :: j in active ==> active[j] != call
      modifies this`active
      ensures Valid()
      ensures Val() == if k in old(Val()).active then old(Val())
                       else old(Val()).(active := old(Val()).active[k := call.Val()])
    {
      ghost var was := Val();
      if k !in active {
        active := active[k := call];
        assert Val().active == was.active[k := call.Val()];
      }
    }

    method OnNewCall(pid: nat, cid: nat, t: CallType, status: CallStatus, env: Env)
      requires Valid()
      modifies this, journal
      ensures Valid() && Val() == Step(cfg, old(Val()), NewCall(pid, cid, t, status), env)
    {
      var call := CreateCall(pid, cid, t, status, env);
      Track(Key(pid, cid), call);
    }

    /** Only the entry k has changed. */
    twostate lemma OneEntryChanged(k: Key)
      requires active == old(active) && k in active
      requires forall j :: j in active && j != k ==> active[j].Val() == old(active[j].Val())
      ensures Val().active == old(Val()).active[k := active[k].Val()]
    {
    }

    method EnterState(k: Key, s: JState, now: int)
      requires Valid() && k in active
      modifies active[k]
      ensures Valid() && Val() == old(Val()).(active := old(Val()).active[k := old(active[k].Val()).SetState(s, now)])
    {
      active[k].SetState(s, now);
      OneEntryChanged(k);
    }

    method Forget(k: Key)
      requires Valid()
      modifies this`active
      ensures Valid() && Val() == old(Val()).(active := old(Val()).active - {k})
    {
      ghost var was := Val();
      active := active - {k};
      assert Val().active == was.active - {k};
    }

    method OnCallStateUpdate(pid: nat, cid: nat, status: CallStatus, env: Env)
      requires Valid()
      modifies this, journal, active.Values
      ensures Valid() && Val() == Step(cfg, old(Val()), CallStatusUpdate(pid, cid, status), env)
    {
      var k := Key(pid, cid);
      if k in active {
        if status == Idle {
          Forget(k);
        } else {
          ghost var was := Val();
          EnterState(k, JournalState(status), env.now);
          ghost var e := active[k].Val();
          SaveEntry(k, env);
          SaveOver(cfg, was, k, e, env);
        }
      }
    }

    /** Writes an active entry back to the journal. */
    method SaveEntry(k: Key, env: Env)
      requires Valid() && k in active
      modifies journal, active[k]
      ensures Valid() && Val() == SaveActive(cfg, old(Val()), k, old(active[k].Val()), env)
    {
      journal.InsertUpdateEntry(active[k], env);
      OneEntryChanged(k);
    }

    method OnCallInfoUpdate(pid: nat, cid: nat, info: CallInfo, env: Env)
      requires Valid()
      modifies this, journal, active.Values
      ensures Valid() && Val() == Step(cfg, old(Val()), CallInfoUpdate(pid, cid, info), env)
    {
      var k := Key(pid, cid);
      if k in active {
        ghost var was := Val();
        MergeEntry(k, info);
        ghost var merged := active[k].Val();
        SaveEntry(k, env);
        SaveOver(cfg, was.(requests := requests), k, merged, env);
      }
    }

    method MergeEntry(k: Key, info: CallInfo)
      requires Valid() && k in active
      modifies this`requests, active[k]
      ensures Valid() && active == old(active)
      ensures var (e, asked) := MergeInfo(cfg, old(active[k].Val()), info);
              Val() == old(Val()).(active := old(Val()).active[k := e], requests := old(requests) + asked)
    {
      MergeInfoInPlace(active[k], info);
      OneEntryChanged(k);
    }

    method MergeNamesInPlace(e: JournalEntry, info: CallInfo)
      modifies e
      ensures e.Val() == MergeNames(old(e.Val()), info)
    {
      if e.calledName == "" {
        e.SetCalledName(info.calledName);
      }
      if e.callerName == "" {
        e.SetCallerName(info.callerName);
      }
    }

    method MergeInfoInPlace(e: JournalEntry, info: CallInfo)
      modifies this`requests, e
      ensures e.Val() == MergeInfo(cfg, old(e.Val()), info).0
      ensures requests == old(requests) + MergeInfo(cfg, old(e.Val()), info).1
    {
      ghost var asked := requests;
      MergeNamesInPlace(e, info);
      ghost var named := e.Val();
      if e.calledAddress == "" && info.calledAddress != "" {
        DoResolveCalled(info.calledAddress, e);
      }
      ghost var called := e.Val();
      assert called == MergeCalled(cfg, named, info).0 && requests == asked + MergeCalled(cfg, named, info).1;
      if e.callerAddress == "" && info.callerAddress != "" {
        DoResolveCaller(info.callerAddress, e);
      }
      assert e.Val() == MergeCaller(cfg, called, info).0;
      assert requests == (asked + MergeCalled(cfg, named, info).1) + MergeCaller(cfg, called, info).1;
    }

    method DoResolveCaller(number: string, e: JournalEntry)
      modifies this`requests, e
      ensures e.Val() == ResolveCaller(cfg, number, old(e.Val())).0
      ensures requests == old(requests) + ResolveCaller(cfg, number, old(e.Val())).1
    {
      if !e.resolvingCaller {
        var p := cfg.parse(number);
        e.SetCallerAddress(p.national);
        if e.callerName == "" && p.national != "" {
          e.resolvingCaller := true;
          var online := e.jtype != JOutgoing && p.kind != Internal && p.kind != International;
          requests := requests + [Request(e.dbKey, RESOLVE_CALLER, p.national, p.e164, online)];
        }
      }
    }

    method DoResolveCalled(number: string, e: JournalEntry)
      modifies this`requests, e
      ensures e.Val() == ResolveCalled(cfg, number, old(e.Val())).0
      ensures requests == old(requests) + ResolveCalled(cfg, number, old(e.Val())).1
    {
      if !e.resolvingCalled {
        var p := cfg.parse(number);
        e.SetCalledAddress(p.national);
        if e.calledName == "" && p.national != "" {
          e.resolvingCalled := true;
          var online := e.jtype != JIncoming && p.kind != Internal && p.kind != International;
          requests := requests + [Request(e.dbKey, RESOLVE_CALLED, p.national, p.e164, online)];
        }
      }
    }

    /** Walks the active calls in key order and stops at the first match. */
    method FindActiveEntry(dbKey: int) returns (found: Option<Key>)
      requires Valid()
      ensures found == FindActive(Val().active, dbKey)
    {
      ghost var vals := Val().active;
      var rest := active.Keys;
      found := None;
      while rest != {}
        invariant rest <= active.Keys
        invariant forall k, j :: k in rest && j in active && j !in rest ==> KeyLeq(j, k)
        invariant forall j :: j in active && j !in rest ==> vals[j].dbKey != dbKey
        decreases rest
      {
        ghost var least := LeastKey(rest);
        var k :| k in rest && forall j :: j in rest ==> KeyLeq(k, j);
        if active[k].dbKey == dbKey {
          FirstOfRest(vals, rest, dbKey, k);
          return Some(k);
        }
        rest := rest - {k};
      }
    }

    method NameEntry(k: Key, data: int, sn: string)
      requires Valid() && k in active
      modifies active[k]
      ensures Valid()
      ensures Val() == old(Val()).(active := old(Val()).active[k := SetResolvedName(old(active[k].Val()), data, sn)])
    {
      SetName(active[k], data, sn);
      OneEntryChanged(k);
    }

    method AnswerActive(k: Key, data: int, sn: string, env: Env)
      requires Valid() && k in active
      modifies this, journal, active.Values
      ensures Valid()
      ensures Val() == SaveActive(cfg, old(Val()), k, SetResolvedName(old(active[k].Val()), data, sn), env)
    {
      ghost var was := Val();
      NameEntry(k, data, sn);
      ghost var named := active[k].Val();
      SaveEntry(k, env);
      SaveOver(cfg, was, k, named, env);
    }

    method OnResolverResponse(key: int, data: int, sn: string, env: Env)
      requires Valid()
      modifies this, journal, active.Values
      ensures Valid() && Val() == Step(cfg, old(Val()), ResolverResponse(key, data, sn), env)
    {
      var found := FindActiveEntry(key);
      if found.Some? {
        AnswerActive(found.value, data, sn, env);
      } else {
        AnswerStored(key, data, sn, env);
      }
    }

    /** An answer for a call that is no longer active goes to its row, if there is one. */
    method AnswerStored(key: int, data: int, sn: string, env: Env)
      requires Valid()
      modifies journal
      ensures Valid()
      ensures Val() == if env.dbOk && key in old(journal.calls)
              then old(Val()).(store := InsertUpdate(cfg.like, old(journal.Val()),
                                   SetResolvedName(EntryOfRow(key, old(journal.calls)[key]), data, sn), env).0)
              else old(Val())
    {
      var e := new JournalEntry(0, 0, JUnknown, env.now);
      var stored := journal.GetEntry(key, e, env);
      if stored {
        assert e.Val() == EntryOfRow(key, old(journal.calls)[key]);
        SetName(e, data, sn);
        journal.InsertUpdateEntry(e, env);
      }
      EntriesUnchanged();
    }

    method SetName(e: JournalEntry, data: int, sn: string)
      modifies e
      ensures e.Val() == SetResolvedName(old(e.Val()), data, sn)
    {
      if data == RESOLVE_CALLER {
        e.SetCallerName(sn);
      } else if data == RESOLVE_CALLED {
        e.SetCalledName(sn);
      }
    }

    /** Takes the front event off the queue and runs its handler. */
    method Dispatch(queue: EventQueue, env: Env)
      requires Valid() && queue.events != []
      modifies this, journal, active.Values, queue
      ensures Valid() && Val() == Step(cfg, old(Val()), old(queue.events)[0], env)
      ensures queue.events == old(queue.events)[1..]
    {
      var ev := queue.events[0];
      queue.events := queue.events[1..];
      match ev
      case NewCall(pid, cid, t, status) => OnNewCall(pid, cid, t, status, env);
      case CallStatusUpdate(pid, cid, status) => OnCallStateUpdate(pid, cid, status, env);
      case CallInfoUpdate(pid, cid, info) => OnCallInfoUpdate(pid, cid, info, env);
      case ResolverResponse(key, data, sn) => OnResolverResponse(key, data, sn, env);
    }
  }
}
