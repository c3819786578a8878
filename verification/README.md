# A verified model of c'mon, the call monitor

c'mon watches telephone lines, shows who is calling, keeps a journal of calls, resolves
numbers to names and maintains address books. This project models its state machines and
stores in Dafny and proves what they keep over whole runs. `dafny verify dfyconfig.toml`
checks everything.

Each file holds one component. A component that changes state is modelled twice: as a value
with a step function, on which the properties are proved, and as a class that works in place
like the original, whose methods are proved equal to the steps.

| file | component |
|---|---|
| `CallTypes.dfy`, `JournalEntry.dfy`, `JournalStore.dfy`, `MainApp.dfy` | the event queue, the record of a call, the journal table with its filters and purge, the event handlers |
| `JournalRules.dfy`, `CallMerges.dfy` | what the purge keeps, what the filters list, and what an update of a call does, told from their inputs alone |
| `CallRuns.dfy`, `CallClocks.dfy`, `CallLookups.dfy`, `CallOrigins.dfy`, `CallReuse.dfy`, `CallExamples.dfy` | whole runs of the handlers: what stored results and times mean, why a late answer of the resolver reaches the right row, lookups, numbers, durations, reused call ids, and runs that reach the surprising cases |
| `TapiLine.dfy`, `TapiStatuses.dfy`, `CallPipeline.dfy`, `BoxPipeline.dfy` | TAPI calls and lines, the statuses that they post, and the three layers provider, queue and handlers in every interleaving |
| `ResolverWorker.dfy`, `ResolverLoop.dfy`, `ResolverList.dfy`, `ResolverOrder.dfy` | the worker thread as interleaved steps, the round trip of a lookup through it, the list of resolvers, its table and its order |
| `FritzStream.dfy` | the byte stream of the Fritz!Box, its lines and its message grammar |
| `CsvFile.dfy`, `CsvReader.dfy`, `CsvFormats.dfy` | export, a reference decoder for section 2 of RFC 4180, and the import reader, for the exported format and for all others |
| `AddressBook.dfy`, `SaveRetry.dfy` | saving a contact with its phones, and saving it again after a failure |
| `ContactDialog.dfy`, `ContactRoundTrip.dfy` | the edits that lead to a save, and the way from the table to the dialog and back |
| `Notification.dfy`, `FileLog.dfy` | the animation of the notification windows, the rotating log |
| `Common.dfy`, `Decimal.dfy`, `Texts.dfy` | shared vocabulary |

## Where the code does not do what one would expect

* Closing or removing a TAPI line deletes its calls without an event. The reported ones stay
  active in the application until their handle is announced again and that call ends
  (`CallPipeline.CloseKeepsInStepIffNoneReported`, `CallPipeline.ClosedCallsStayUntilIdle`,
  `CallPipeline.ClosedCallsStayForGood`, and `CallPipeline.ClosedCallIsStranded` for a run).
* A Fritz!Box call whose DISCONNECT is lost with a broken connection stays active
  (`BoxPipeline.BrokenConnectionLeavesRunningCalls`, `BoxPipeline.LostEndStrandsCall`).
* A call whose id is still active at its NEW_CALL gets a row but no entry: its statuses go to
  the row of the older call (`CallReuse.RowHasOwnStatusesIff`).
* `queryInfo` writes the called party's name into the address field
  (plugin_cp_tapi/tapi/taf.cpp:275). So the application never learns a called name from TAPI,
  and stores the name as the number if the driver reports one (`TapiLines.CalledNameNeverKnown`,
  `TapiLines.CalledAddressIffNoName`, `CallExamples.NameStaysAsNumber`; `TapiLines.BobIsANumber`
  is a run).
* An empty name from the resolver erases a name that particulars of the call brought before
  it (`CallRuns.SameCallCommutesIff`; `CallExamples.EmptyNameIsReached` is a run). Answers with
  a name, of which there is at most one for a party, may come at any time
  (`ResolverLoop.AnswerMayComeAnyTime`).
* A rolled-back save leaves the keys it has handed out in the contact. Saving that contact
  again then does not store it: a new contact is not stored at all, and a known one is stored
  without the phones that were keyed (`SaveRetry.RetryStoresExactlyIff`,
  `SaveRetry.RetrySureIff`, `SaveRetry.RetryLosesPhone`). If another save has taken those keys
  in between, the retry overwrites what they belong to
  (`SaveRetry.RetryOverwritesForeignPhone`, `SaveRetry.RetryReplacesForeignContact`). The
  callers in this program do not retry: after a save the contact page loads its list anew
  (gui/contactspage.cpp:172-197), and a new or imported contact is a local object that is
  dropped (gui/csvimportdlg.cpp:212-258).
* With a maximum age of zero the purge deletes a call as it is saved, unless the clock is at a
  full second, because rows carry whole seconds (`JournalRules.NewCallSurvivesIff`).
* A call of a Fritz!Box never gets a duration, because its end is posted as TCALL_IDLE
  (`CallOrigins.BoxCallsHaveNoDuration`; `CallExamples.BoxCallWithoutDuration` is a run).
* `appendEntry` gives the new resolver the highest position in use, not one more, so a
  reload may change its order (`ResolverList.AppendTies`, `ResolverList.ReloadExactIffNoTies`).
* The CSV reader deletes all quote characters, so a contact is read back unchanged exactly if
  none of its texts has one (`CsvReader.ContactIntactIff`, `CsvReader.QuotesAreLost`). It also
  drops an empty last cell of a row, which reads as empty all the same.
* The CSV reader ignores a last line without its newline, which section 2 of RFC 4180 allows
  (`CsvReader.LastLineIsRowIff`, `CsvReader.UnterminatedRecordIsLost`,
  `CsvReader.UnterminatedDecodes`, `CsvReader.SecondLineIsLost`).

## Model

| member | source | states |
|---|---|---|
| `JournalEntries.JournalEntry.constructor` | gui/journal/journalentry.cpp:47-65 | a new entry has no key and no begin time, is dirty because its creation time is set, and an incoming one starts as not reached |
| `JournalEntries.JournalEntry.SetState` | gui/journal/journalentry.cpp:189-233 | the state change of the fields in place equals the value-level state change: per call type, only the listed states touch result, begin time or duration |
| `JournalEntries.JournalEntry.SetCreation` | gui/journal/journalentry.cpp:128-141 | the entry becomes dirty exactly when the creation time differs, invalid dates included |
| `JournalEntries.UnmarkedMeansUnchanged` | gui/journal/journalentry.cpp:189-233 | a state change that does not mark the entry as dirty changes neither the state nor anything that would be stored |
| `JournalEntries.MarksIff` | gui/journal/journalentry.cpp:189-233 | a state marks the entry iff there is a clock reading at which it would change a field |
| `JournalEntries.NextAgrees` | gui/journal/journalentry.cpp:189-233 | one more delivered status keeps the result equal to the verdict on the whole status history |
| `JournalEntries.LastDecisiveIsLast` | gui/journal/journalentry.cpp:195-212 | the verdict for an outgoing call is unknown iff no pending, connected or busy status was delivered, and otherwise comes from the last one of them |
| `JournalEntries.RowRoundTrip` | gui/journal/journalmodel.cpp:296-341 | an entry read from a row is clean and would write the identical row, although the row has the coarser clock |
| `JournalStore.JournalModel.UpdateFilters` | gui/journal/journalmodel.cpp:163-199 | with an open database every cached count becomes the number of rows that match its filter and the name/number condition, or zero where its query fails; nothing else changes |
| `JournalStore.JournalModel.SetNameAndNumberFilter` | gui/journal/journalmodel.cpp:126-147 | the new condition replaces the old one, and the counts are taken again if the database is open |
| `JournalStore.JournalModel.SelectFilter` | gui/journal/journalmodel.cpp:149-155 | an index outside the list leaves the selection alone |
| `JournalStore.JournalModel.PurgeEntries` | gui/journal/journalmodel.cpp:485-518 | with an open database both rules run in one transaction; a failure of it leaves the table as it was |
| `JournalStore.JournalModel.InsertUpdateEntry` | gui/journal/journalmodel.cpp:208-270 | table, counter, counts and entry afterwards, for a clean entry, a closed database, an insert, an update of a present or purged row, and failures before and after the key is assigned |
| `JournalStore.JournalModel.GetEntry` | gui/journal/journalmodel.cpp:272-354 | found iff the database is open and the row is there; then all stored fields come from the row and the entry is clean |
| `JournalStore.JournalModel.GetEntries` | gui/journal/journalmodel.cpp:356-483 | with an open database the list has exactly the rows of the selected filter, each with its key, and as many as an exact cached count says; otherwise it stays as it was |
| `JournalStore.CachedCountsAreListLengths` | gui/journal/journalmodel.cpp:163-199 | after any run of saves (with failures), purges, searches and filter choices, the cached count of a filter is the length of the list it would show, as long as its own count queries work |
| `JournalStore.RecountExactIff` | gui/journal/journalmodel.cpp:186-197 | with failing queries a count is exact iff its own query works or the filter has no rows |
| `JournalStore.NewestAreTheLargest` | gui/journal/journalmodel.cpp:507-509 | the ids kept by the count rule are min(n, limit) of the n ids, and every kept id is larger than every dropped one |
| `JournalStore.PurgeKeepsNewestSurvivors` | gui/journal/journalmodel.cpp:501-510 | age rule and count rule together keep exactly the newest min(n, limit) of the n rows that survive the age rule, unchanged |
| `JournalRules.AgeRuleKeepsIff` | gui/journal/journalmodel.cpp:501-506 | with the age rule alone a committed purge keeps exactly the rows that are at most the maximum age old, in milliseconds, and those without a time |
| `JournalRules.AgeRuleAtTheEdge` | gui/journal/journalmodel.cpp:501-506 | a row of exactly the maximum age stays, one a second older goes, and no row is kept while a later one is dropped |
| `JournalRules.BothRulesKeepIff` | gui/journal/journalmodel.cpp:501-510 | with both rules a row stays iff it is young enough and fewer than the maximum count of young rows have larger ids |
| `JournalRules.NothingPurged` | gui/journal/journalmodel.cpp:485-518 | without a rule, with a closed database or after a rolled-back purge every row stays |
| `JournalRules.NewRowTime` | gui/journal/journalentry.cpp:47-65 | the stored time of a new call is the second of the clock, rounded down |
| `JournalRules.NewCallSurvivesIff` | gui/journal/journalmodel.cpp:208-270 | a call survives the purge of its own save iff its fraction of a second is within the maximum age and at least one row may stay |
| `JournalRules.NewCallSurvives` | gui/journal/journalmodel.cpp:208-270 | so it does for any maximum age of a day or more and any maximum count but zero |
| `JournalRules.FailedSaveChangesNothing` | gui/journal/journalmodel.cpp:208-270 | a rolled-back save, a closed database and a clean entry change no row, id, count or search; only a failed insert may leave a key in the entry |
| `JournalRules.ListedMeans` | gui/journal/journalmodel.cpp:65-81 | which rows each filter lists, by type and result of the row |
| `JournalRules.SearchMeans` | gui/journal/journalmodel.cpp:126-147 | a name is searched among callers and called alike, so is a number, and both restrict together |
| `JournalRules.SearchReplaced` | gui/journal/journalmodel.cpp:126-147 | a new search replaces the old one even while the database is closed, and the counts follow it as soon as they can be taken |
| `JournalRules.ChosenFilter` | gui/journal/journalmodel.cpp:149-155 | a chosen filter decides what is listed, giving it up lists all calls, and an index outside the list changes nothing |
| `JournalStore.IdsFollowInsertionOrder` | gui/journal/journalmodel.cpp:236-246 | over every run, purges and failed transactions included, committed inserts get strictly increasing ids above all earlier ones, and every stored id was there before or was inserted in the run |
| `JournalStore.SaveFacts` | gui/journal/journalmodel.cpp:208-259 | a save without failure gives an unkeyed entry the next key, leaves it clean and equal to its row unless that was purged, and changes no other row |
| `MainApps.MainApp.OnNewCall` | gui/mainapp.cpp:448-457 | the created entry is written first and then tracked, unless the provider reuses a call id that is still active |
| `MainApps.MainApp.OnCallStateUpdate` | gui/mainapp.cpp:459-473 | TCALL_IDLE forgets the entry without writing; any other status of an active call is written through; others are ignored |
| `MainApps.MainApp.OnCallInfoUpdate` | gui/mainapp.cpp:475-497 | names and numbers only fill what is empty, lookups go to the resolver, and the entry is written |
| `MainApps.MainApp.DoResolveCaller` | gui/mainapp.cpp:499-523 | at most one caller lookup, only for a call without a caller name, never online for outgoing calls or internal and international numbers |
| `MainApps.MainApp.DoResolveCalled` | gui/mainapp.cpp:525-548 | the same for the called party, never online for incoming calls |
| `MainApps.MainApp.OnResolverResponse` | gui/mainapp.cpp:550-578 | the answer names the active entry with the key, or else the stored row, or is dropped |
| `MainApps.MainApp.FindActiveEntry` | gui/mainapp.cpp:296-307 | the first active entry in key order whose database key matches, or none if there is none |
| `MainApps.NoActive` | gui/mainapp.cpp:296-307 | the search fails only if no active entry has the key |
| `MainApps.FirstFound` | gui/mainapp.cpp:296-307 | no active call with that key comes before the one found, by provider and then by id |
| `MainApps.StepKeepsInv` | gui/mainapp.cpp:448-578 | each handler keeps: active entries have distinct non-zero keys below the counter, are clean and equal their rows; counts stay exact |
| `MainApps.RunKeepsInv` | gui/mainapp.cpp:448-578 | the same over every failure-free run of events |
| `CallRuns.RunHistory` | gui/mainapp.cpp:448-473 | over every run, the result of each row and active entry is the verdict on the statuses delivered to that entry |
| `CallRuns.AbsenceMeansNeverConnected` | gui/journal/journalmodel.cpp:74-79 | a stored call is listed under calls in absence iff it is incoming and no CONNECTED status was ever delivered to its entry |
| `CallRuns.OutgoingResultIsLastDecisive` | gui/journal/journalentry.cpp:193-213 | the stored result of an outgoing call is that of the last pending, connected or busy status delivered, and unknown iff there was none |
| `CallRuns.DurationNeedsDisconnect` | gui/journal/journalentry.cpp:182-229 | a stored call has no duration unless DISCONNECTED was delivered to its entry |
| `CallClocks.NextClock` | gui/journal/journalentry.cpp:182-229 | one more status keeps begin time and duration what the clocks of the statuses delivered so far call for |
| `CallClocks.StoredTimes` | gui/journal/journalentry.cpp:182-229 | over every run: the stored begin is the second of the last start (the last CONNECTED; for an incoming call the last that did not directly follow another), and the duration the whole seconds from it to the last DISCONNECTED that had a start, or zero |
| `CallClocks.StoredDuration` | gui/journal/journalentry.cpp:182-229 | with DISCONNECTED last, at t2, and the last start at t1 <= t2: the row has 1000 dur <= t2 - t1 < 1000 (dur + 1), and its begin is the second of t1 |
| `CallRuns.ResponseEffect` | gui/mainapp.cpp:550-578 | an answer changes the one name column of the row with its key, whether the call is still active or not, and no other row, key or counter |
| `CallRuns.SameCallCommutesIff` | gui/mainapp.cpp:483-488 | an answer and particulars of its own call give the same application in both orders iff the answer has a name or the particulars bring none |
| `CallRuns.EmptyNameErases` | gui/mainapp.cpp:557-568 | the failing case: an empty answer erases a name that came before it and gives way to one that comes after it |
| `CallRuns.ResponseCommutes` | gui/mainapp.cpp:459-578 | an answer commutes with every independent event: new calls with their purges, all status updates and TCALL_IDLE of any call, particulars and other answers |
| `CallRuns.LateAnswerSameOutcome` | gui/mainapp.cpp:550-578 | an answer may be overtaken by any run of independent events, beyond the end of its call, with the same final application |
| `CallLookups.AtMostOneLookupPerParty` | gui/mainapp.cpp:499-548 | over every run each call issues at most one caller and one called lookup, whatever updates and answers arrive |
| `CallLookups.MergeLookups` | gui/mainapp.cpp:483-494 | one update issues the lookup of a party iff it raises the flag of that party; flags are never lowered |
| `CallMerges.PartiesFilled` | gui/mainapp.cpp:475-497 | after an update each name and number is the one before it if there was one, and otherwise the one that the particulars bring, the number as the library formats it and only while its party is not being looked up |
| `CallMerges.LookupsIssued` | gui/mainapp.cpp:499-548 | the requests of one update, called party first, in terms of entry, particulars and number library alone: a party is asked for iff its number is new and its name unknown, and online iff it is the far party of a national number |
| `CallMerges.FirstParticulars` | gui/mainapp.cpp:448-497 | the four text columns of the row of a call after its announcement and its first particulars |
| `CallLookups.AnswerTimeDoesNotMatter` | gui/mainapp.cpp:550-578 | once a lookup is issued, its named answer leads to the same application at once or after any further events, its call ended and purges included |
| `ResolverLoop.AtMostOneAnswerPerParty` | gui/resolver/resolvermodel.cpp:381-422 | with handlers, queue and worker in any interleaving, each party of each call is answered at most once, handled and queued answers counted |
| `ResolverLoop.AnswerMayComeAnyTime` | gui/mainapp.cpp:550-578 | in every such interleaving a named answer could as well have been handled at any other time since its lookup, with the same outcome of the whole run |
| `ResolverLoop.AnswersInOrder` | gui/resolver/resolvermodel.cpp:381-422 | in every such interleaving the answers handled and queued are those that the sources gave to the first lookups issued, in the order of the lookups, each with its name, and none for a lookup without one |
| `CallOrigins.OnlyFarPartyOnline` | gui/mainapp.cpp:509-545 | over every run no empty number is looked up, and only the far party of the announced call is ever looked up online, whether its row still exists or not |
| `CallOrigins.TypeOfOrigin` | gui/journal/journalmodel.cpp:65-79 | over every run a stored call is listed as incoming or outgoing iff it was announced so |
| `CallOrigins.BoxCallsHaveNoDuration` | plugin_cp_fritz/cpf_monitor.cpp:282-298 | over every run in which the Fritz!Box events come from messages, a call announced by the box never gets a duration, since DISCONNECT posts TCALL_IDLE |
| `CallLookups.NumbersNeverChange` | gui/mainapp.cpp:489-494 | over every run a known number, the type and the creation time of an entry or row never change, and purged rows do not come back |
| `CallLookups.MergeKeeps` | gui/mainapp.cpp:475-497 | an update never overwrites a known number |
| `TapiLines.TafCall.constructor` | plugin_cp_tapi/tapi/taf.cpp:217-226 | a new call is unreported, of unknown type, with the particulars of the first query |
| `TapiLines.TafCall.DoSwitchState` | plugin_cp_tapi/tapi/taf.cpp:369-401 | state, type, report flag and the one event that each line state raises |
| `TapiLines.TafCall.HandleMessage` | plugin_cp_tapi/tapi/taf.cpp:300-367 | a state message switches the state; a particulars message re-reads them and is announced only for a reported call; messages for another handle are ignored |
| `TapiLines.TafLine.HandleMessage` | plugin_cp_tapi/tapi/taf.cpp:591-620 | live calls afterwards and queued events; a message for an unknown handle does nothing; an idle call is announced as deleted and removed |
| `TapiLines.OnTafEvent` | plugin_cp_tapi/cpt_monitor.cpp:161-212 | each line event becomes exactly one application event of the TAPI provider; which one, `TapiStatuses` says from the line states |
| `TapiLines.EventsAreOrderly` | plugin_cp_tapi/tapi/taf.cpp:369-401 | for all message sequences of a line: NEW_CALL never repeats for an open handle and never has an unknown type, updates come only for an open one, and the open handles are the live reported calls |
| `TapiLines.AnnouncedTypes` | plugin_cp_tapi/tapi/taf.cpp:374-391 | in every run a call is announced as incoming with OFFERING and as outgoing with ringback, busy or connected, and never otherwise |
| `TapiStatuses.StatusesAreSignalled` | plugin_cp_tapi/cpt_monitor.cpp:53-73 | over every run of a line and for every status but TCALL_IDLE: it is posted for a handle exactly as often as one of its line states is signalled while the call is reported |
| `TapiStatuses.ConnectedOnlyIfGot` | plugin_cp_tapi/cpt_monitor.cpp:53-73 | over every run CONNECTED is posted for a handle, as an update or with NEW_CALL, only if the line has signalled CONNECTED or ACCEPTED for it |
| `TapiStatuses.AnnouncementCarries` | plugin_cp_tapi/cpt_monitor.cpp:161-180 | the status of a NEW_CALL is that of the line state that reported the call |
| `TapiStatuses.AnnouncedIff` | plugin_cp_tapi/tapi/taf.cpp:369-401 | a live call is announced iff it has not been reported and the line signals offering, ringback, busy or connected; before that it raises nothing |
| `TapiStatuses.MissedCallIsListed` | gui/journal/journalmodel.cpp:74-79 | from the line to the journal: an offered call that gets neither CONNECTED nor ACCEPTED from the line is listed under calls in absence, whatever else is handled in between |
| `TapiLines.CalledNameNeverKnown` | plugin_cp_tapi/tapi/taf.cpp:272-276 | over every run of a line no event carries a called name, whatever the driver reports |
| `TapiLines.CalledAddressIffNoName` | plugin_cp_tapi/tapi/taf.cpp:217-288 | over every run of a line, first query included: the called address of a live call is the one the driver reported last iff the last query about the called party brought no name, or one equal to it |
| `TapiLines.InfoOfQueries` | plugin_cp_tapi/tapi/taf.cpp:217-365 | the particulars of a live call are those of its own queries, in order |
| `TapiLines.CallerIsReported` | plugin_cp_tapi/tapi/taf.cpp:235-271 | over every run the caller of a live call has the address and the name that its driver reported last |
| `TapiLines.ParticularsArePosted` | plugin_cp_tapi/tapi/taf.cpp:300-365 | a query of a reported call posts its particulars as they are then |
| `TapiLines.BobIsANumber` | plugin_cp_tapi/tapi/taf.cpp:235-288 | a concrete outgoing call whose driver knows the name: the application is told the number "Bob" |
| `TapiLines.LineStepDeletions` | plugin_cp_tapi/tapi/taf.cpp:591-620 | a message to a call raises one CALL_DELETED for a handle iff it removes that handle; LINE_CLOSE removes handles and raises none |
| `TapiLines.DeletedAtMostOnce` | plugin_cp_tapi/tapi/taf.cpp:591-620 | the deletions of a handle, plus one if it is live, never outnumber its announcements |
| `TapiLines.IdleMeansDeleted` | plugin_cp_tapi/cpt_monitor.cpp:53-73 | TCALL_IDLE is sent for a deletion and for nothing else, because no line state maps to it |
| `CallPipeline.TapiStepKeepsInv` | plugin_cp_tapi/tapi/taf.cpp:591-620 | a message to a call keeps the active calls in step with the live reported and the stranded ones, with the queued events counted in |
| `CallPipeline.CloseKeepsInv` | plugin_cp_tapi/tapi/taf.cpp:525-542 | so do closing and removing a line, which strand its reported calls |
| `CallPipeline.QueueStepsKeepInv` | gui/mainapp.cpp:448-473 | so do handling an event, Fritz!Box messages, other providers, the resolver and new lines |
| `CallPipeline.DrainedQueueMeansKnownCalls` | gui/mainapp.cpp:448-473 | in every interleaving, lines closed and removed included, with or without database failures: when the queue is empty, the active TAPI calls are exactly the live reported and the stranded ones, and the active box calls those announced and not disconnected since |
| `CallPipeline.DrainedQueueMeansLiveCalls` | gui/mainapp.cpp:448-473 | as long as no line is closed or removed, the active TAPI calls are exactly the live reported ones |
| `CallPipeline.CloseKeepsInStepIffNoneReported` | plugin_cp_tapi/tapi/taf.cpp:525-542 | closing a line keeps the active TAPI calls the live reported ones iff none of its calls has been reported |
| `CallPipeline.ClosedCallsStayUntilIdle` | plugin_cp_tapi/tapi/taf.cpp:525-542 | in every run after the close, further closes included, with the queue drained, each reported call of the line is still active, unless TCALL_IDLE has been posted for its handle since |
| `CallPipeline.ClosedCallsStayForGood` | plugin_cp_tapi/tapi/taf.cpp:525-542 | and they stay for good if the handle is not announced again |
| `CallPipeline.ClosedCallIsStranded` | plugin_cp_tapi/tapi/taf.cpp:525-620 | a run from the empty system: line, call, OFFERING, handled, closed; no line has a call and the queue is empty, but the call is active |
| `BoxPipeline.DrainedQueueMeansRunningCalls` | plugin_cp_fritz/cpf_monitor.cpp:213-298 | with the queue drained, the active box calls are exactly those whose RING or CALL has been handled with no DISCONNECT since |
| `BoxPipeline.BrokenConnectionLeavesRunningCalls` | plugin_cp_fritz/cpf_monitor.cpp:335-364 | wherever a connection breaks off, the active calls are those running after the fully arrived messages and those of later connections; a lost DISCONNECT leaves its call active |
| `BoxPipeline.LostEndStrandsCall` | plugin_cp_fritz/cpf_monitor.cpp:335-364 | a run: RING arrives, the connection breaks within the line of DISCONNECT, and the call stays active |
| `CallReuse.RowHasOwnStatusesIff` | gui/mainapp.cpp:448-473 | the row of a call is given all statuses posted for it, from NEW_CALL to TCALL_IDLE, iff its id was not active at its NEW_CALL or none follow; otherwise they go to the row of the older call |
| `CallReuse.ResultOfOwnCall` | gui/mainapp.cpp:448-473 | so its result is the verdict on its own statuses if the id was not active, and on its first one alone otherwise |
| `CallExamples.EmptyNameIsReached` | gui/mainapp.cpp:448-578 | a run from a started application: the empty answer to an issued lookup and a name from the network, in both orders, leave different names in the row |
| `CallExamples.BoxCallWithoutDuration` | plugin_cp_fritz/cpf_monitor.cpp:213-298 | the events of RING, CONNECT and DISCONNECT of one call end in a stored row with result OK and duration 0 |
| `CallExamples.NameStaysAsNumber` | plugin_cp_tapi/tapi/taf.cpp:272-276 | a called name that the driver brings is stored as the called number and never corrected by any later event |
| `ResolverWorker.StepKeepsInv` | gui/resolver/resolvermodel.cpp:381-443 | every atomic step keeps the balance of semaphore tokens against list entries and the one wake-up, the lock ownership and the order of requests |
| `ResolverWorker.FrontIsSafeAndOrderKept` | gui/resolver/resolvermodel.cpp:424-443 | in every interleaving the list is non-empty at front() and pop_front(), and the processed requests are a prefix of the pushed ones |
| `ResolverWorker.IdleWorkerHasProcessedEverything` | gui/resolver/resolvermodel.cpp:381-389 | no wake-up is lost: if the worker can only wait and nobody shuts down, everything pushed has been processed |
| `ResolverWorker.WorkerEndsSoon` | gui/resolver/resolvermodel.cpp:428-441 | with the flag up, the steps the worker has taken and those it has left add up to its rank, at most eight |
| `ResolverWorker.JoinCannotHang` | gui/resolver/resolvermodel.cpp:74-81 | no deadlock: after the wake-up the worker has ended, can step, or waits for a producer that can step |
| `ResolverWorker.JoinIsReached` | gui/resolver/resolvermodel.cpp:74-81 | if no further producer enters, every schedule reaches the join within eleven steps |
| `ResolverWorker.ProcessRequest` | gui/resolver/resolvermodel.cpp:391-422 | the answer is that of the first resolver in list order that has one, address books asked with the international form and web pages with the national one, nothing behind it is asked, no online one unless the request allows it, and there is none iff no resolver that may be asked has one |
| `ResolverList.ResolverObject.constructor` | gui/resolver/resolver.cpp:35-41 | a new resolver is dirty, disabled and at position 0 |
| `ResolverList.ResolverModel.HasName` | gui/resolver/resolvermodel.cpp:90-100 | true iff some resolver has the name |
| `ResolverList.ResolverModel.DoSave` | gui/resolver/resolvermodel.cpp:248-305 | each dirty entry whose transaction commits is written and cleaned, the others stay dirty; nothing is written while the database is closed |
| `ResolverList.ResolverModel.PrependEntry` | gui/resolver/resolvermodel.cpp:102-113 | refused for a known name; otherwise first in the list, all renumbered and saved |
| `ResolverList.ResolverModel.AppendEntry` | gui/resolver/resolvermodel.cpp:115-127 | refused for a known name; otherwise last, with the highest position in use, and saved |
| `ResolverList.ResolverModel.DoMoveUp` | gui/resolver/resolvermodel.cpp:129-150 | swapped with its predecessor, renumbered and saved; the first entry does not move |
| `ResolverList.ResolverModel.DoMoveDown` | gui/resolver/resolvermodel.cpp:152-173 | swapped with its successor, renumbered and saved |
| `ResolverList.ResolverModel.DoToggle` | gui/resolver/resolvermodel.cpp:175-188 | the enabled flag of one entry is inverted and saved |
| `ResolverList.ResolverModel.DoDelete` | gui/resolver/resolvermodel.cpp:307-335 | row and entry go together, or neither if the transaction fails or the database is closed |
| `ResolverList.SaveMarks` | gui/resolver/resolvermodel.cpp:256-304 | a save changes dirty marks only, and clears exactly those of the entries written |
| `ResolverList.SaveKeepsMirror` | gui/resolver/resolvermodel.cpp:248-305 | a save of any prefix, with any failures, keeps clean entries equal to their rows and every row in the list |
| `ResolverList.SaveReaches` | gui/resolver/resolvermodel.cpp:248-305 | after a complete save a marked entry is clean and its row has its place and flag, unless the database was closed or its transaction failed; otherwise entry and row are as before |
| `ResolverList.BooksKeepColumns` | gui/resolver/resolvermodel.cpp:248-305 | saving address books leaves the text columns of their rows alone |
| `ResolverList.RunsKeepInv` | gui/resolver/resolvermodel.cpp:102-335 | across any operations with arbitrary failures of single transactions: clean available entries equal their rows, every row is in the list, names are distinct, positions never decrease |
| `ResolverList.LoadKeepsInv` | gui/resolver/resolvermodel.cpp:190-245 | what is loaded is itself a valid list for its table |
| `ResolverList.LoadedMeans` | gui/resolver/resolvermodel.cpp:209-233 | a loaded entry has the position and kind of its row, and is enabled iff its row is and, for an address book, the book is loaded |
| `ResolverList.ReloadUpToTies` | gui/resolver/resolvermodel.cpp:201-233 | after complete saves any reload has the same entries with the same positions, index by index |
| `ResolverList.ReloadExactIffNoTies` | gui/resolver/resolvermodel.cpp:201-203 | a reload is sure to restore the list itself iff no two positions are equal |
| `ResolverList.AppendTies` | gui/resolver/resolvermodel.cpp:119-124 | appending to a non-empty list always makes a tie |
| `ResolverList.ReorderingRemovesTies` | gui/resolver/resolvermodel.cpp:141-144 | prepending and moving leave strictly increasing positions |
| `ResolverOrder.MovedUp` | gui/resolver/resolvermodel.cpp:129-150 | the entries at idx - 1 and idx have changed places and every other index has its entry; the first and an index outside the list stay |
| `ResolverOrder.MovedDown` | gui/resolver/resolvermodel.cpp:152-173 | the entries at idx and idx + 1 have changed places and every other index has its entry |
| `ResolverOrder.UpAndDownRestores` | gui/resolver/resolvermodel.cpp:129-173 | moving up and then down again restores the order, whatever transactions fail |
| `ResolverOrder.PrependedIsFirst` | gui/resolver/resolvermodel.cpp:102-113 | the new resolver is in front of the unchanged order; a known name changes nothing |
| `ResolverOrder.AppendedIsLast` | gui/resolver/resolvermodel.cpp:115-127 | the new resolver is behind the unchanged order; a known name changes nothing |
| `ResolverOrder.ToggledOne` | gui/resolver/resolvermodel.cpp:175-188 | one flag is turned over, and nothing else of any entry |
| `ResolverOrder.ToggledTwice` | gui/resolver/resolvermodel.cpp:175-188 | toggling twice leaves all entries as they were, once does not |
| `ResolverOrder.DeletedOne` | gui/resolver/resolvermodel.cpp:307-335 | a committed deletion takes one entry and its row, the others keep their order and rows; a failed one changes nothing |
| `FritzStream.FrameLosesNothing` | plugin_cp_fritz/cpf_monitor.cpp:335-345 | messages with their newlines and the kept rest are the whole stream, and neither contains a newline |
| `FritzStream.FramingIsUnique` | plugin_cp_fritz/cpf_monitor.cpp:335-345 | any cut of a stream into newline-free messages and a newline-free rest is the one computed |
| `FritzStream.FrameAppend` | plugin_cp_fritz/cpf_monitor.cpp:335-345 | framing what is there, keeping the rest and going on equals framing the whole |
| `FritzStream.FritzMonitor.Receive` | plugin_cp_fritz/cpf_monitor.cpp:335-345 | one chunk: every line it completes is handled in order, the rest is kept |
| `FritzStream.FritzMonitor.Serve` | plugin_cp_fritz/cpf_monitor.cpp:327-367 | one connection: the handled messages are the terminated segments of its stream, and its rest is dropped when it ends |
| `FritzStream.FritzMonitor.Monitor` | plugin_cp_fritz/cpf_monitor.cpp:302-381 | for every cutting of every connection into chunks, with timeouts between: exactly the terminated segments of each stream, none joined across connections |
| `FritzStream.FritzMonitor.HandleFritzMessage` | plugin_cp_fritz/cpf_monitor.cpp:220-254 | the posted events are those of the tokens of the message, at most five arguments taken |
| `FritzStream.FritzMonitor.OnNewCall` | plugin_cp_fritz/cpf_monitor.cpp:256-280 | a new call is followed by its particulars, under the same id |
| `FritzStream.SplitJoin` | plugin_cp_fritz/cpf_monitor.cpp:227-229 | splitting at semicolons undoes joining, empty fields included |
| `FritzStream.AtoiReadsDec` | plugin_cp_fritz/cpf_monitor.cpp:240-249 | reading a printed number gives the number back |
| `FritzStream.AtoiReads` | plugin_cp_fritz/cpf_monitor.cpp:240-249 | white space in front, a sign, and whatever stands behind the digits |
| `FritzStream.UnsignedIds` | plugin_cp_fritz/cpf_monitor.cpp:256-298 | ids in range are kept, negative ones come out above, and two ids are taken for one call iff they are a multiple of 2^32 apart |
| `FritzStream.PostsIffEnough` | plugin_cp_fritz/cpf_monitor.cpp:220-254 | any line at all posts something iff it has a known command and at least the fields that command needs |
| `FritzStream.OnlyNeededMatter` | plugin_cp_fritz/cpf_monitor.cpp:220-254 | the date and the fields behind the needed ones make no difference to what is posted |
| `FritzStream.PrintThenDispatch` | plugin_cp_fritz/cpf_monitor.cpp:213-254 | each documented message form, with any id and any texts without semicolon and newline, posts exactly the events it means |
| `FritzStream.SentIsUnderstood` | plugin_cp_fritz/cpf_monitor.cpp:213-367 | whatever the box sends, however it is cut and delayed and wherever it breaks off: the meanings of the fully arrived messages are posted in order, and only the begun one is held back |
| `FritzStream.ArrivedFits` | plugin_cp_fritz/cpf_monitor.cpp:338-345 | the fully arrived messages are those whose newline lies within the received bytes, and no more |
| `FritzStream.StreamIsBytes` | plugin_cp_fritz/cpf_monitor.cpp:333-367 | a connection ends with the first event that is neither data nor a timeout, be it a close or an error, and its stream is the bytes received until then, in order |
| `FritzStream.ConnectionsAreApart` | plugin_cp_fritz/cpf_monitor.cpp:333-367 | ended connections leave nothing to those after them, and one that has not ended is the last |
| `CsvFile.DoExport` | gui/contactspage.cpp:569-623 | the text built cell by cell is the header and one quoted line per contact, padded to the largest number of phones |
| `CsvReader.DecodeCell` | gui/contactspage.cpp:556-567 | a quoted cell decodes to itself under RFC 4180, whatever it contains |
| `CsvReader.ExportDecodes` | gui/contactspage.cpp:569-623 | the whole export decodes to its records under section 2 of RFC 4180, each with 9 plus the largest number of phones cells |
| `CsvReader.RecordHoldsContact` | gui/contactspage.cpp:593-618 | a record holds all nine fields, every phone in order, and then only empty cells |
| `CsvReader.ColumnsAreNamed` | gui/contactspage.cpp:569-618 | the header names each of the nine columns as its field in every record, and is as long as every record |
| `CsvReader.CsvImport.DoReadLine` | gui/csvimp.cpp:303-337 | the character loop computes the line, the separator positions, whether it was terminated, and what is left to read |
| `CsvReader.CsvImport.LoadFile` | gui/csvimp.cpp:231-301 | the collected lines are the rows of the text behind the skipped ones; an unterminated last line is not a row |
| `CsvReader.CsvImport.SliceColumns` | gui/csvimp.cpp:261-271 | the columns are the pieces between the recorded positions, and a last one only if it is not empty |
| `CsvReader.ReadsLine` | gui/csvimp.cpp:256-337 | a printed line is read as its cells with the quotes deleted and an empty last one dropped |
| `CsvReader.ImportOfExport` | gui/csvimp.cpp:256-337 | reading an export, header skipped, gives one row per contact, each its cells with quotes deleted and an empty last cell dropped |
| `CsvReader.RowIntactIff` | gui/csvimp.cpp:261-271 | the stored row equals the record iff no cell has a quote and the last is not empty |
| `CsvReader.ContactIntactIff` | gui/csvimp.cpp:122-337 | read cell by cell through the accessor of the control, as the import does, a contact comes back from export and import as it was written iff no cell of it has a quote; no row is longer than its record |
| `CsvReader.CellsReadBack` | gui/csvimp.cpp:122-129 | each cell reads back as the written one without its quotes, the dropped empty last one included |
| `CsvFormats.ReadsAnyFormat` | gui/csvimp.cpp:303-337 | in every format, quoted or not, with any separator and quote character: a line of texts that the format can hold is read as just those texts, without an empty last one |
| `CsvFormats.RowsOfAnyFormat` | gui/csvimp.cpp:122-337 | a file of such lines shows one row for each, cell by cell as written |
| `CsvFormats.RowsSkipped` | gui/csvimp.cpp:256-283 | skipping lines shows the rows of the whole text without the first ones, none if there are not enough, all for a negative number |
| `CsvReader.QuotesAreLost` | gui/csvimp.cpp:303-337 | a concrete contact: the first name Joe "J" comes back as Joe J |
| `CsvReader.LastLineIsRowIff` | gui/csvimp.cpp:256-337 | for every text and format, nothing is left unread iff the text is empty or ends with a newline and, with quoting, has an even number of quotes |
| `CsvReader.UnreadIsNoRow` | gui/csvimp.cpp:256-337 | what is left unread belongs to no row: the rows are those of the text in front of it |
| `CsvReader.UnterminatedRecordIsLost` | gui/csvimp.cpp:314-318 | after any records, a last one without its newline is not a row; with the newline it is |
| `CsvReader.UnterminatedDecodes` | gui/contactspage.cpp:556-623 | the reference decoder for section 2 of RFC 4180 does read that last record |
| `CsvReader.SecondLineIsLost` | gui/csvimp.cpp:256-337 | a concrete file of two lines, without and with the last newline |
| `AddressBook.ContactObject.IsDirty` | shared/src/contact.cpp:603-614 | dirty iff marked or some phone is, and the mark is kept |
| `AddressBook.Database.constructor` | plugin_ab_sqlite/sqlite_ab.cpp:93-129 | a new database is empty with both counters at 1 |
| `AddressBook.Database.SaveDetails` | plugin_ab_sqlite/sqlite_ab.cpp:322-340 | a new contact takes the next key, a known one is updated if its row is there |
| `AddressBook.Database.SavePhone` | plugin_ab_sqlite/sqlite_ab.cpp:349-370 | a new phone takes the next key and its row; a stored one has type, number and note updated, not its reference |
| `AddressBook.Database.SavePhones` | plugin_ab_sqlite/sqlite_ab.cpp:347-371 | the loop over the list computes the whole list, or stops at the failing phone with the ones before it stored |
| `AddressBook.Database.InsertUpdateEntry` | plugin_ab_sqlite/sqlite_ab.cpp:302-394 | a clean contact or a closed database stores nothing; otherwise either the whole transaction with its effect on the contact, or unchanged tables and exactly the contact that a failure at the failing statement leaves |
| `AddressBook.Database.DeleteEntry` | plugin_ab_sqlite/sqlite_ab.cpp:396-419 | contact and its numbers go together; a failure changes nothing |
| `AddressBook.SaveStoresExactly` | plugin_ab_sqlite/sqlite_ab.cpp:321-380 | the number rows of the contact become exactly its phone list, other contacts keep theirs, references stay valid and both counters above all ids |
| `AddressBook.SavedPhonesAreListed` | plugin_ab_sqlite/sqlite_ab.cpp:182-300 | listing after the save gives back exactly the phones of the contact |
| `AddressBook.RunsKeepInv` | plugin_ab_sqlite/sqlite_ab.cpp:321-417 | over every run of saves and removals with failures anywhere, references stay valid and counters above the ids in use |
| `AddressBook.SavedContact` | plugin_ab_sqlite/sqlite_ab.cpp:302-394 | a save of a contact that owns its keys stores it exactly, or changes nothing if it fails |
| `AddressBook.RemovedContact` | plugin_ab_sqlite/sqlite_ab.cpp:396-419 | a removal takes the contact and its numbers and nothing else, and nothing at all if it fails or the key is not there |
| `SaveRetry.RetryStoresExactlyIff` | plugin_ab_sqlite/sqlite_ab.cpp:320-388 | for a save failing at statement f, saving again on the restored tables stores the contact iff no key was handed out before f: f is the first, or the contact and all phones before f have keys; then it equals the first save |
| `SaveRetry.RetrySureIff` | plugin_ab_sqlite/sqlite_ab.cpp:320-388 | wherever the save may fail, the retry is sure to store the contact iff the contact and all its phones have been stored before |
| `SaveRetry.RetryLosesPhone` | plugin_ab_sqlite/sqlite_ab.cpp:349-379 | for a known contact with a phone keyed by the failed save, the retry succeeds, writes the texts and leaves nothing marked, but the phone has no row of its own |
| `SaveRetry.RetryStoresNothing` | plugin_ab_sqlite/sqlite_ab.cpp:333-367 | for a contact keyed by the failed save, the retry stores no row, and fails if a phone is new |
| `SaveRetry.RetryOverwritesForeignPhone` | plugin_ab_sqlite/sqlite_ab.cpp:362-367 | if a phone key has meanwhile gone to another contact, the retry overwrites that phone |
| `SaveRetry.RetryReplacesForeignContact` | plugin_ab_sqlite/sqlite_ab.cpp:333-376 | if the contact key has meanwhile gone to another contact, the retry replaces its texts and deletes its numbers |
| `SaveRetry.AnnIsNotStored` | plugin_ab_sqlite/sqlite_ab.cpp:323-388 | a concrete new contact whose commit fails: the retry stores nothing |
| `SaveRetry.AnnReplacesBob` | plugin_ab_sqlite/sqlite_ab.cpp:323-388 | with another contact stored in between, the retry replaces it and deletes its number |
| `SaveRetry.AnnOverwritesBobsNumber` | plugin_ab_sqlite/sqlite_ab.cpp:349-388 | with another phone stored in between, the retry overwrites that number |
| `ContactRoundTrip.LoadedIsOwned` | plugin_ab_sqlite/sqlite_ab.cpp:243-286 | a contact as the list query loads it owns its keys, uses each once and counts as unedited |
| `ContactRoundTrip.EditsKeepGood` | gui/contactdlg.cpp:47-122 | any edits keep the stored keys owned and used once, and numbers trimmed |
| `ContactRoundTrip.EditedIsListed` | plugin_ab_sqlite/sqlite_ab.cpp:182-394 | load, any edits, assign, save or skip, list: the list shows the edited texts and phones, and all other contacts as before |
| `ContactRoundTrip.DeletedPhoneIsGone` | plugin_ab_sqlite/sqlite_ab.cpp:349-380 | load, delete one phone in the dialog, assign, save: its key is in no row, every other phone of the contact has its row, and all rows of other contacts are as before |
| `ContactRoundTrip.AddedIsListed` | gui/contactspage.cpp:172-182 | the same for a new contact: stored under the next key and listed with the entered texts and phones, or nothing stored if nothing was entered |
| `Texts.TrimIsTrimmed` | shared/src/contact.cpp:349-363 | the stored number has no blanks at its ends, and storing it again changes nothing |
| `ContactDialog.EditMarksOrKeeps` | shared/src/contact.cpp:343-369 | editing a cell marks the phone or leaves it as it was |
| `ContactDialog.PhoneNumberModel.DoDeleteItem` | gui/contactdlg.cpp:55-65 | by index: one phone fewer, those in front of the row unchanged, those behind it one place earlier; nothing for a row outside |
| `ContactDialog.DeletedRow` | gui/contactdlg.cpp:55-65 | the same of the list of edits |
| `ContactDialog.AddedRow` | gui/contactdlg.cpp:47-53 | a new phone comes behind the others with the trimmed placeholder, marked and without a key |
| `ContactDialog.EditedCell` | gui/contactdlg.cpp:99-122 | a cell edit changes that column of that phone only, and marks it iff the value differs |
| `ContactDialog.GetData` | shared/src/contact.cpp:489-508 | the assignment of the dialog data copies everything, and marks the contact if a field or the length of the list differs |
| `ContactDialog.CleanSameLengthIsOriginal` | shared/src/contact.cpp:500-506 | a list of the original length without a marked phone is the original list, whatever edits led to it |
| `ContactDialog.NoEditIsSkipped` | shared/src/contact.cpp:489-614 | after any edits of a freshly loaded contact: if anything differs, the contact counts as dirty |
| `Notification.NotificationWnd.DoMove` | gui/notification.cpp:233-253 | one step on each axis, cut off at the target |
| `Notification.MoveCounts` | gui/notification.cpp:233-253 | a step never passes the target, takes exactly one off the number of steps left, and none are left iff the window is in place |
| `Notification.NotificationMgr.CalculatePositions` | gui/notification.cpp:165-182 | every window gets the target of its slot; the result says whether any has to move |
| `Notification.NotificationMgr.DoNotify` | gui/notification.cpp:66-81 | only incoming calls add a window, below the screen, and start the timer if needed |
| `Notification.NotificationMgr.KillWnd` | gui/notification.cpp:83-98 | the window is taken out if it is there and the others get new slots |
| `Notification.NotificationMgr.OnTimer` | gui/notification.cpp:184-196 | every window moves once and the timer stops iff none needs to move any more |
| `Notification.TimerStopsAfter` | gui/notification.cpp:184-196 | with no window added or removed the timer runs for exactly the largest per-axis ceiling of distance over step, at least once, and then all are at their targets |
| `Notification.RunsKeepInv` | gui/notification.cpp:66-196 | over every run, a stopped timer means that every window is at its target, and the targets are the slots of one screen |
| `Notification.NotifiedWindow` | gui/notification.cpp:66-81 | an incoming call adds a window below the screen behind the others, which stay where they are, and gives all of them their places; any other call changes nothing |
| `Notification.KilledWindow` | gui/notification.cpp:83-98 | that window alone goes, the others keep position and order and get new places; an unknown window changes nothing |
| `Notification.RestingWindowsAreDisjoint` | gui/notification.cpp:165-182 | at rest no two windows overlap and the column has no gaps |
| `FileLog.Logger.constructor` | gui/log/filelog.cpp:35-44 | an existing log is rotated away, otherwise an empty one is created |
| `FileLog.Logger.RotateFiles` | gui/log/filelog.cpp:66-81 | the descending renames in place equal a simultaneous shift by one, for every set of files and every file count |
| `FileLog.Logger.DoLogRecord` | gui/log/filelog.cpp:97-103 | the line is appended, and the files are rotated when the log is larger than the limit |
| `FileLog.RotatedGapFree` | gui/log/filelog.cpp:71-77 | archives 1..k become 1..min(k+1, count), each with the text of its predecessor |
| `FileLog.RotateKeepsInv` | gui/log/filelog.cpp:66-81 | a rotation loses no text except the oldest of a full set of archives |
| `FileLog.LogKeepsLatestText` | gui/log/filelog.cpp:35-103 | over every run from an empty directory: archives are gap-free with at most the file count, and their text, oldest first, with the log is a suffix of everything logged, all of it while rotations do not exceed the file count |
| `FileLog.RecordEffect` | gui/log/filelog.cpp:97-103 | a line stays in the current log if that is then within the limit; otherwise it is the last of the log that becomes the first archive |
| `FileLog.RestartEffect` | gui/log/filelog.cpp:35-44 | a new session starts an empty log and keeps the last one as the first archive |
| `FileLog.LogWithinSize` | gui/log/filelog.cpp:97-103 | over every run the current log is within the limit |

## Left out

- CallRuns.AbsenceMeansNeverConnected: failure-free runs only, and rows inserted during the run; rows of earlier sessions carry no history.
- CallRuns.OutgoingResultIsLastDecisive: the same restriction.
- CallClocks.StoredTimes: the same restriction.
- TapiStatuses.MissedCallIsListed: the same restriction.
- MainApps.RunKeepsInv: failure-free runs only, because a failure after the key assignment (gui/journal/journalmodel.cpp:241) rolls the counter back and lets a key be used again.
- MainApps.MainApp.OnNewCall: without the notification window that the handler opens; the windows are modelled by themselves in `Notification.dfy`.
- MainApps.MainApp.OnResolverResponse: without the caller's picture, which is not stored in the journal.
- JournalStore.IdsFollowInsertionOrder: orders the ids of committed inserts; an entry keyed by a failed one is later updated, not inserted.
- JournalStore.CachedCountsAreListLengths: covers the four filters that do not read the clock; `Today`, `This month` and `This week` go stale by themselves.
- JournalStore.JournalModel.UpdateFilters: without the three filters that read the clock.
- JournalStore.JournalModel.SetNameAndNumberFilter: without the three filters that read the clock.
- JournalStore.JournalModel.SelectFilter: the indexes of the three filters that read the clock are not in the model's list.
- JournalStore.JournalModel.PurgeEntries: ages are compared on one clock; the original compares UTC with stored local time.
- JournalRules.AgeRuleKeepsIff: the same single clock.
- JournalRules.ListedMeans: without the three filters that read the clock.
- JournalStore.JournalModel.GetEntries: the rows arrive in the order of the engine, which is a parameter; sort orders are not modelled.
- CallLookups.AnswerTimeDoesNotMatter: takes the absence of a second answer as a hypothesis; `ResolverLoop.AnswerMayComeAnyTime` derives it.
- ResolverLoop.AnswerMayComeAnyTime: one thread issues lookups, as in the original, and handlers meet no database failure.
- TapiLines.OnTafEvent: one listener, the application.
- CallPipeline.DrainedQueueMeansKnownCalls: handles are unique while alive.
- ResolverWorker.StepKeepsInv: the flag `m_bTerminate` is read and written sequentially consistently; `TestDestroy` is taken to be false.
- ResolverList.RunsKeepInv: each list operation is one atomic step; the re-entry of its mutex is not modelled.
- ResolverList.ResolverModel.DoMoveDown: not for the last entry, where the original steps past the end of its list; the button is disabled there (gui/resolverpage.cpp:351-355).
- ResolverList.ResolverModel.DoDelete: not for an index outside the list, where the original dereferences the end of its list; the page passes a selected row.
- ResolverList.LoadKeepsInv: rows without a type, which the original skips, are not modelled; the model never writes one.
- ResolverList.ReloadUpToTies: every book is available at the reload; which books are depends on parsing stored names as GUIDs.
- FritzStream.AtoiReadsDec: numbers within the range of int; the overflow of `atoi` is not modelled.
- FritzStream.FritzMonitor.OnNewCall: one listener, the application.
- FritzStream.FritzMonitor.Monitor: sockets, waiting for a connection and the retry delay are represented by the events of each connection only.
- CsvReader.ContactIntactIff: for texts without the NUL character, at which the reader stops; the choice of a field for each column in the import dialog is not modelled.
- CsvFormats.ReadsAnyFormat: for separators and quote characters that differ from each other, newline and NUL, and texts without the quote character.
- CsvReader.LastLineIsRowIff: the same restriction.
- CallExamples.BoxCallWithoutDuration: all events in one environment, without a failure or a purge.
- CallExamples.EmptyNameIsReached: the same restriction.
- AddressBook.SaveStoresExactly: assumes that stored keys of the contact's phones are distinct and belong to the contact, which `ContactRoundTrip.LoadedIsOwned` and `ContactRoundTrip.EditsKeepGood` establish for loaded, new and edited contacts.
- Notification.RestingWindowsAreDisjoint: the overlap of windows of fixed size 320 by 100; the screen is a parameter of each call.
- FileLog.LogKeepsLatestText: renames succeed and nobody else touches the directory.
- wxWidgets windows, painting, menus, preferences dialogs and the column choices of the import control: user interface.
- The SQL engine: tables are maps, transactions commit or roll back as a parameter says; SQL text, quoting and column affinity are not modelled, and LIKE is an open function.
- libphonenumber, geocoding, and the answers of books and web pages: open functions.
- Widths of integers (keys and counters are unbounded) and memory; the one conversion that matters, int to unsigned for Fritz!Box call ids, is modelled.
- Character encodings and the translation of line ends in streams.
- Pictures of callers in entries and notification windows, and the listeners of the journal.
- Registration and removal of listeners of call providers.
- The toolkit's event queue, which is a sequence here.
- `CJournalListCtrl::OnCtxReverseLookup` (gui/journalpage.cpp:313-332), which writes back a snapshot that may be stale.
- The unqueued `CResolverModel::resolve` for reverse lookups, which runs the same loop over the resolvers.
- `CContact::operator=(const CContact&)`, filters and sort orders of address books, and failing list queries.
- gui/csv/csvfile.cpp, an unfinished second reader, and plugin_ab_psql, the same save with keys from server-side sequences.
- The vendored build tooling under tools and site_scons.
