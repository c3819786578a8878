/** What one call-info update does, told from the entry, the particulars and the phone-number
    library alone. */
module CallMerges {
  import opened Common
  import opened CallTypes
  import opened JournalEntries
  import opened JournalStore
  import opened MainApps
  import opened CallRuns

  /** Names and numbers only fill what is empty. A number is stored as the library formats it,
      unless its party is being looked up. */
  lemma PartiesFilled(cfg: Config, e: Entry, info: CallInfo)
    ensures var f := MergeInfo(cfg, e, info).0;
            && f.calledName == (if e.calledName != "" then e.calledName else info.calledName)
            && f.callerName == (if e.callerName != "" then e.callerName else info.callerName)
            && f.calledAddress == (if e.calledAddress != "" || info.calledAddress == "" || e.resolvingCalled
                                   then e.calledAddress else cfg.parse(info.calledAddress).national)
            && f.callerAddress == (if e.callerAddress != "" || info.callerAddress == "" || e.resolvingCaller
                                   then e.callerAddress else cfg.parse(info.callerAddress).national)
  {
    CalledFilled(cfg, MergeNames(e, info), info);
    CallerFilled(cfg, MergeCalled(cfg, MergeNames(e, info), info).0, info);
  }

  lemma CalledFilled(cfg: Config, e: Entry, info: CallInfo)
    ensures var f := MergeCalled(cfg, e, info).0;
            && f.calledName == e.calledName && f.callerName == e.callerName
            && f.callerAddress == e.callerAddress && f.resolvingCaller == e.resolvingCaller
            && f.dbKey == e.dbKey && f.progress == e.progress
            && f.calledAddress == (if e.calledAddress != "" || info.calledAddress == "" || e.resolvingCalled
                                   then e.calledAddress else cfg.parse(info.calledAddress).national)
  {
  }

  lemma CallerFilled(cfg: Config, e: Entry, info: CallInfo)
    ensures var f := MergeCaller(cfg, e, info).0;
            && f.calledName == e.calledName && f.callerName == e.callerName && f.calledAddress == e.calledAddress
            && f.callerAddress == (if e.callerAddress != "" || info.callerAddress == "" || e.resolvingCaller
                                   then e.callerAddress else cfg.parse(info.callerAddress).national)
  {
  }

  /** The called party has to be looked up: its number is new and can be formatted, nobody has
      asked, and nobody knows its name. */
  predicate AskCalled(cfg: Config, e: Entry, info: CallInfo) {
    && e.calledAddress == "" && info.calledAddress != "" && cfg.parse(info.calledAddress).national != ""
    && !e.resolvingCalled && e.calledName == "" && info.calledName == ""
  }

  predicate AskCaller(cfg: Config, e: Entry, info: CallInfo) {
    && e.callerAddress == "" && info.callerAddress != "" && cfg.parse(info.callerAddress).national != ""
    && !e.resolvingCaller && e.callerName == "" && info.callerName == ""
  }

  /** A national number of the far party may be asked for online. */
  predicate MayGoOnline(p: Parsed, far: bool) {
    far && p.kind != Internal && p.kind != International
  }

  /** Exactly the parties that have to be looked up are asked for, the called one first, each
      under the key of the call and with both forms of its number. */
  lemma LookupsIssued(cfg: Config, e: Entry, info: CallInfo)
    ensures var called, caller := cfg.parse(info.calledAddress), cfg.parse(info.callerAddress);
            MergeInfo(cfg, e, info).1
            == (if AskCalled(cfg, e, info)
                then [Request(e.dbKey, RESOLVE_CALLED, called.national, called.e164,
                              MayGoOnline(called, e.progress.jtype != JIncoming))]
                else [])
             + (if AskCaller(cfg, e, info)
                then [Request(e.dbKey, RESOLVE_CALLER, caller.national, caller.e164,
                              MayGoOnline(caller, e.progress.jtype != JOutgoing))]
                else [])
  {
    var named := MergeNames(e, info);
    CalledAsked(cfg, named, info);
    CalledFilled(cfg, named, info);
    CallerAsked(cfg, MergeCalled(cfg, named, info).0, info);
  }

  lemma CalledAsked(cfg: Config, e: Entry, info: CallInfo)
    ensures var p := cfg.parse(info.calledAddress);
            MergeCalled(cfg, e, info).1
            == if e.calledAddress == "" && info.calledAddress != "" && p.national != "" && !e.resolvingCalled
                  && e.calledName == ""
               then [Request(e.dbKey, RESOLVE_CALLED, p.national, p.e164,
                             MayGoOnline(p, e.progress.jtype != JIncoming))]
               else []
  {
  }

  lemma CallerAsked(cfg: Config, e: Entry, info: CallInfo)
    ensures var p := cfg.parse(info.callerAddress);
            MergeCaller(cfg, e, info).1
            == if e.callerAddress == "" && info.callerAddress != "" && p.national != "" && !e.resolvingCaller
                  && e.callerName == ""
               then [Request(e.dbKey, RESOLVE_CALLER, p.national, p.e164,
                             MayGoOnline(p, e.progress.jtype != JOutgoing))]
               else []
  {
  }

  /** The state of an entry after a status: both kinds of holding are one state, and so are all
      statuses of a call that is being set up. */
  lemma StatesMatch(s: CallStatus)
    ensures JournalState(s) == JsConnected <==> s == Connected
    ensures JournalState(s) == JsDisconnected <==> s == Disconnected
    ensures JournalState(s) == JsBusy <==> s == Busy
    ensures JournalState(s) == JsOnHold <==> s == OnHold || s == Conferenced
    ensures JournalState(s) == JsUnknown <==> s == StatusUnknown || s == Idle
  {
  }

  /** The provider's type of a call is the journal's. */
  lemma TypesMatch(t: CallType)
    ensures (JournalType(t) == JIncoming <==> t == TypeIncoming) && (JournalType(t) == JOutgoing <==> t == TypeOutgoing)
  {
  }

  /** A call that is announced under a free id and then gets its particulars: the columns of its
      row, unless the purge has removed it at once. */
  lemma FirstParticulars(cfg: Config, a: App, t: Timed, u: Timed)
    requires Inv(cfg, a) && t.env.FailureFree() && u.env.FailureFree()
    requires t.ev.NewCall? && u.ev.CallInfoUpdate? && u.ev == CallInfoUpdate(t.ev.pid, t.ev.cid, u.ev.info)
    requires Key(t.ev.pid, t.ev.cid) !in a.active
    ensures var id := a.store.nextId;
            var b := Step(cfg, a, t.ev, t.env);
            var c := Step(cfg, b, u.ev, u.env);
            id in b.store.calls ==>
              && id in c.store.calls
              && c.store.calls[id].clnr == Formatted(cfg, u.ev.info.callerAddress)
              && c.store.calls[id].cdnr == Formatted(cfg, u.ev.info.calledAddress)
              && c.store.calls[id].cln == u.ev.info.callerName && c.store.calls[id].cdn == u.ev.info.calledName
  {
    var k := Key(t.ev.pid, t.ev.cid);
    var b := Step(cfg, a, t.ev, t.env);
    NewCallEffect(cfg, a, t.ev, t.env);
    StepKeepsInv(cfg, a, t.ev, t.env);
    InfoEffect(cfg, b, k, u.ev.info, u.env);
    PartiesFilled(cfg, b.active[k], u.ev.info);
    MergeKeepsKey(cfg, b.active[k], u.ev.info);
  }

  function Formatted(cfg: Config, number: string): string {
    if number == "" then "" else cfg.parse(number).national
  }
}
