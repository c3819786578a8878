/** `CJournalEntry` (gui/journal/journalentry.cpp): the record of one call while it
    is active. `Entry` is its value; the class below updates the fields in place. */
module JournalEntries {
  import opened Common
  import opened CallTypes

  datatype JType = JUnknown | JIncoming | JOutgoing
  datatype JState = JsUnknown | JsPending | JsConnected | JsDisconnected | JsBusy | JsOnHold
  datatype JResult = JrUnknown | JrOk | JrBusy | JrNotReached | JrFailed

  /** A row of table `calls`, without its id. Times are whole seconds. */
  datatype Row = Row(jtype: JType, result: JResult, tm1: Option<int>, tm2: Option<int>, dur: int,
                     clnr: string, cln: string, cdnr: string, cdn: string)

  /** The fields that a change of state reads and writes. `None` is the invalid date;
      times are milliseconds. */
  datatype Progress = Progress(jtype: JType, result: JResult, state: JState, begin: Option<int>, duration: int)
  {
    /** The fields after the call enters state `s`. */
    function Next(s: JState, now: int): Progress {
      var p := match jtype
        case JOutgoing => OutgoingEffect(s, now)
        case JIncoming => IncomingEffect(s, now)
        case JUnknown => this;
      p.(state := s)
    }

    function OutgoingEffect(s: JState, now: int): Progress {
      match s
      case JsPending => this.(result := JrNotReached)
      case JsConnected => this.(begin := Some(now), result := JrOk)
      case JsDisconnected => Ended(now)
      case JsBusy => this.(result := JrBusy)
      case _ => this
    }

    function IncomingEffect(s: JState, now: int): Progress {
      match s
      case JsConnected => if state != JsConnected then this.(result := JrOk, begin := Some(now)) else this
      case JsDisconnected => Ended(now)
      case _ => this
    }

    function Ended(now: int): Progress {
      if begin.Some? then this.(duration := SpanSeconds(now - begin.value)) else this
    }

    /** Whether entering state `s` marks the entry as changed: a new state or a new result
        does, and so does every reading of the clock. */
    predicate Marks(s: JState) {
      state != s || (jtype == JOutgoing && OutgoingMarks(s)) || (jtype == JIncoming && IncomingMarks(s))
    }

    predicate OutgoingMarks(s: JState) {
      match s
      case JsPending => result != JrNotReached
      case JsConnected => true
      case JsBusy => result != JrBusy
      case JsDisconnected => begin.Some?
      case _ => false
    }

    predicate IncomingMarks(s: JState) {
      (s == JsConnected && state != JsConnected) || (s == JsDisconnected && begin.Some?)
    }
  }

  /** An entry: its identity, its volatile flags and what is stored of it. */
  datatype Entry = Entry(
    pid: nat, cid: nat, dbKey: int, dirty: bool,
    resolvingCaller: bool, resolvingCalled: bool,
    progress: Progress, creation: Option<int>,
    callerAddress: string, calledAddress: string,
    callerName: string, calledName: string)
  {
    function SetCallerAddress(s: string): Entry {
      this.(dirty := dirty || callerAddress != s, callerAddress := s)
    }

    function SetCalledAddress(s: string): Entry {
      this.(dirty := dirty || calledAddress != s, calledAddress := s)
    }

    function SetCallerName(s: string): Entry {
      this.(dirty := dirty || callerName != s, callerName := s)
    }

    function SetCalledName(s: string): Entry {
      this.(dirty := dirty || calledName != s, calledName := s)
    }

    function SetDbKey(key: int): Entry {
      this.(dirty := dirty || dbKey != key, dbKey := key)
    }

    function SetState(s: JState, now: int): Entry {
      this.(dirty := dirty || progress.Marks(s), progress := progress.Next(s, now))
    }

    /** The row that a save of this entry writes. */
    function ToRow(): Row {
      Row(progress.jtype, progress.result, Seconds(creation), Seconds(progress.begin), progress.duration,
          callerAddress, callerName, calledAddress, calledName)
    }
  }

  function Seconds(t: Option<int>): Option<int> {
    if t.Some? then Some(t.value / 1000) else None
  }

  function Millis(t: Option<int>): Option<int> {
    if t.Some? then Some(t.value * 1000) else None
  }

  /** A freshly constructed entry. */
  function FreshEntry(pid: nat, cid: nat, t: JType, now: int): Entry {
    var result := if t == JIncoming then JrNotReached else JrUnknown;
    Entry(pid, cid, 0, true, false, false, Progress(t, result, JsUnknown, None, 0), Some(now), "", "", "", "")
  }

  /** The entry that `getEntry` builds from a stored row. */
  function EntryOfRow(key: int, r: Row): Entry {
    Entry(0, 0, key, false, false, false, Progress(r.jtype, r.result, JsUnknown, Millis(r.tm2), r.dur), Millis(r.tm1),
          r.clnr, r.cdnr, r.cln, r.cdn)
  }

  function JournalType(t: CallType): JType {
    match t
    case TypeIncoming => JIncoming
    case TypeOutgoing => JOutgoing
    case TypeUnknown => JUnknown
  }

  function JournalState(s: CallStatus): JState {
    match s
    case Offering => JsPending
    case WaitDialtone => JsPending
    case Dialtone => JsPending
    case Dialing => JsPending
    case Proceeding => JsPending
    case Ringback => JsPending
    case Connected => JsConnected
    case Busy => JsBusy
    case Disconnected => JsDisconnected
    case OnHold => JsOnHold
    case Conferenced => JsOnHold
    case StatusUnknown => JsUnknown
    case Idle => JsUnknown
  }

  /** Reading a row back and writing it again changes nothing, although the clock has
      a finer grain than the row. */
  lemma RowRoundTrip(key: int, r: Row)
    ensures EntryOfRow(key, r).ToRow() == r
    ensures !EntryOfRow(key, r).dirty && EntryOfRow(key, r).dbKey == key
  {
    forall t: int ensures (t * 1000) / 1000 == t {}
  }

  /** No state change alters what would be stored, or the state, without marking the entry. */
  lemma UnmarkedMeansUnchanged(p: Progress, s: JState, now: int)
    requires !p.Marks(s)
    ensures p.Next(s, now) == p
  {
    match p.jtype {
      case JOutgoing =>
      case JIncoming =>
      case JUnknown =>
    }
  }

  /** A state marks the entry exactly if some reading of the clock would change a field. */
  lemma MarksIff(p: Progress, s: JState)
    ensures p.Marks(s) <==> exists now :: p.Next(s, now) != p
  {
    if p.Marks(s) {
      var begin := if p.begin.Some? then p.begin.value else 0;
      var later := begin + 1000 * Max(p.duration + 1, 1);
      assert SpanSeconds(later - begin) == Max(p.duration + 1, 1);
      assert p.Next(s, later) != p;
    } else {
      forall now ensures p.Next(s, now) == p {
        UnmarkedMeansUnchanged(p, s, now);
      }
    }
  }

  /** Setting a text or the key marks the entry exactly if it changes. */
  lemma SettersMark(e: Entry, s: string, key: int)
    requires !e.dirty
    ensures e.SetCallerName(s).dirty <==> e.callerName != s
    ensures e.SetCalledName(s).dirty <==> e.calledName != s
    ensures e.SetCallerAddress(s).dirty <==> e.callerAddress != s
    ensures e.SetCalledAddress(s).dirty <==> e.calledAddress != s
    ensures e.SetDbKey(key).dirty <==> e.dbKey != key
  {
  }

  /** The result that a list of statuses, in delivery order, should leave behind:
      stated on the statuses alone, without the entry's bookkeeping. */
  ghost function Verdict(t: JType, delivered: seq<CallStatus>): JResult {
    match t
    case JIncoming => if Connected in delivered then JrOk else JrNotReached
    case JOutgoing => LastDecisive(delivered)
    case JUnknown => JrUnknown
  }

  ghost function LastDecisive(delivered: seq<CallStatus>): JResult {
    if delivered == [] then JrUnknown
    else if Decisive(delivered[|delivered| - 1]) then ResultOfStatus(delivered[|delivered| - 1])
    else LastDecisive(delivered[..|delivered| - 1])
  }

  /** The statuses of a call that is being set up, is answered, or meets a busy line. */
  predicate Decisive(s: CallStatus) {
    s in {Offering, WaitDialtone, Dialtone, Dialing, Proceeding, Ringback, Connected, Busy}
  }

  function ResultOfStatus(s: CallStatus): JResult
    requires Decisive(s)
  {
    if s == Connected then JrOk else if s == Busy then JrBusy else JrNotReached
  }

  /** The progress fields agree with the statuses the entry has been given. */
  ghost predicate Agrees(p: Progress, delivered: seq<CallStatus>) {
    && p.result == Verdict(p.jtype, delivered)
    && (p.state == JsConnected ==> Connected in delivered)
    && (Disconnected !in delivered ==> p.duration == 0)
  }

  /** One more status keeps the stored result what the whole history says it should be. */
  lemma NextAgrees(p: Progress, delivered: seq<CallStatus>, s: CallStatus, now: int)
    requires Agrees(p, delivered)
    ensures Agrees(p.Next(JournalState(s), now), delivered + [s])
  {
    assert (delivered + [s])[..|delivered|] == delivered;
    assert Connected in delivered + [s] <==> Connected in delivered || s == Connected;
    assert Disconnected in delivered + [s] <==> Disconnected in delivered || s == Disconnected;
  }

  /** Position i holds the latest pending, connected or busy status. */
  ghost predicate LatestDecisive(delivered: seq<CallStatus>, i: int) {
    0 <= i < |delivered| && Decisive(delivered[i]) && forall j :: i < j < |delivered| ==> !Decisive(delivered[j])
  }

  ghost predicate NoneDecisive(delivered: seq<CallStatus>) {
    forall i :: 0 <= i < |delivered| ==> !Decisive(delivered[i])
  }

  ghost predicate DecidedByLatest(delivered: seq<CallStatus>, r: JResult) {
    exists i :: LatestDecisive(delivered, i) && r == ResultOfStatus(delivered[i])
  }

  /** The recursion above, read as a position in the history. */
  lemma {:induction false} LastDecisiveIsLast(delivered: seq<CallStatus>)
    ensures LastDecisive(delivered) == JrUnknown <==> NoneDecisive(delivered)
    ensures LastDecisive(delivered) != JrUnknown ==> DecidedByLatest(delivered, LastDecisive(delivered))
  {
    if delivered != [] {
      var n := |delivered| - 1;
      var front := delivered[..n];
      LastDecisiveIsLast(front);
      if Decisive(delivered[n]) {
        assert LatestDecisive(delivered, n);
      } else {
        assert LastDecisive(delivered) == LastDecisive(front);
        if i :| LatestDecisive(front, i) && LastDecisive(front) == ResultOfStatus(front[i]) {
          assert LatestDecisive(delivered, i);
        }
      }
    }
  }

  class JournalEntry {
    var pid: nat
    var cid: nat
    var dbKey: int
    var dirty: bool
    var resolvingCaller: bool
    var resolvingCalled: bool
    var jtype: JType
    var result: JResult
    var state: JState
    var creation: Option<int>
    var begin: Option<int>
    var duration: int
    var callerAddress: string
    var calledAddress: string
    var callerName: string
    var calledName: string

    function Val(): Entry
      reads this
    {
      Entry(pid, cid, dbKey, dirty, resolvingCaller, resolvingCalled,
            Progress(jtype, result, state, begin, duration), creation,
            callerAddress, calledAddress, callerName, calledName)
    }

    constructor (pid: nat, cid: nat, jtype: JType, now: int)
      ensures Val() == FreshEntry(pid, cid, jtype, now)
    {
      this.pid, this.cid, this.jtype := pid, cid, jtype;
      dbKey, dirty, resolvingCaller, resolvingCalled := 0, false, false, false;
      result, state := JrUnknown, JsUnknown;
      creation, begin, duration := None, None, 0;
      callerAddress, calledAddress, callerName, calledName := "", "", "", "";
      new;
      SetCreation(Some(now));
      if jtype == JIncoming {
        SetResult(JrNotReached);
      }
    }

    method SetCreation(t: Option<int>)
      modifies this
      ensures Val() == old(Val()).(dirty := old(dirty) || old(creation) != t, creation := t)
    {
      if creation.Some? && t.None? {
        dirty := true;
      } else if creation.None? && t.Some? {
        dirty := true;
      } else if creation.Some? && t.Some? {
        dirty := dirty || creation != t;
      }
      creation := t;
    }

    method SetResult(r: JResult)
      modifies this
      ensures var was := old(Val());
              Val() == was.(dirty := was.dirty || was.progress.result != r, progress := was.progress.(result := r))
    {
      dirty := dirty || result != r;
      result := r;
    }

    method SetDbKey(key: int)
      modifies this
      ensures Val() == old(Val()).SetDbKey(key)
    {
      dirty := dirty || dbKey != key;
      dbKey := key;
    }

    method SetCallerAddress(s: string)
      modifies this
      ensures Val() == old(Val()).SetCallerAddress(s)
    {
      dirty := dirty || callerAddress != s;
      callerAddress := s;
    }

    method SetCalledAddress(s: string)
      modifies this
      ensures Val() == old(Val()).SetCalledAddress(s)
    {
      dirty := dirty || calledAddress != s;
      calledAddress := s;
    }

    method SetCallerName(s: string)
      modifies this
      ensures Val() == old(Val()).SetCallerName(s)
    {
      dirty := dirty || callerName != s;
      callerName := s;
    }

    method SetCalledName(s: string)
      modifies this
      ensures Val() == old(Val()).SetCalledName(s)
    {
      dirty := dirty || calledName != s;
      calledName := s;
    }

    method SetBeginNow(now: int)
      modifies this
      ensures var was := old(Val());
              Val() == was.(dirty := true, progress := was.progress.(begin := Some(now)))
    {
      dirty := true;
      begin := Some(now);
    }

    method SetEndNow(now: int)
      requires begin.Some?
      modifies this
      ensures var was := old(Val());
              Val() == was.(dirty := true, progress := was.progress.Ended(now))
    {
      dirty := true;
      var span := now - begin.value;
      duration := SpanSeconds(span);
    }

    method EnterOutgoing(s: JState, now: int)
      modifies this
      ensures var was := old(Val());
              Val() == was.(dirty := was.dirty || was.progress.OutgoingMarks(s),
                            progress := was.progress.OutgoingEffect(s, now))
    {
      match s
      case JsPending =>
        SetResult(JrNotReached);
      case JsConnected =>
        SetBeginNow(now);
        SetResult(JrOk);
      case JsDisconnected =>
        if begin.Some? {
          SetEndNow(now);
        }
      case JsBusy =>
        SetResult(JrBusy);
      case _ =>
    }

    method EnterIncoming(s: JState, now: int)
      modifies this
      ensures var was := old(Val());
              Val() == was.(dirty := was.dirty || was.progress.IncomingMarks(s),
                            progress := was.progress.IncomingEffect(s, now))
    {
      match s
      case JsConnected =>
        if state != JsConnected {
          SetResult(JrOk);
          SetBeginNow(now);
        }
      case JsDisconnected =>
        if begin.Some? {
          SetEndNow(now);
        }
      case _ =>
    }

    method SetState(s: JState, now: int)
      modifies this
      ensures Val() == old(Val()).SetState(s, now)
    {
      dirty := dirty || state != s;
      if jtype == JOutgoing {
        EnterOutgoing(s, now);
      } else if jtype == JIncoming {
        EnterIncoming(s, now);
      }
      state := s;
    }
  }
}
