/** `CJournalModel` (gui/journal/journalmodel.cpp): the table of calls, the counter that
    hands out its ids, the filters with their cached counts, and the purge.

    `Store` is the value of the model; the class at the end updates it in place. The SQL
    engine appears as the operations it performs on the table. */
module JournalStore {
  import opened Common
  import opened JournalEntries

  datatype Prefs = Prefs(byAge: bool, maxAge: int, byCount: bool, maxCount: int)

  /** How the transaction of one save ends. An insert that fails may do so before or after
      the new key has been given to the entry. */
  datatype TxOutcome = Commits | FailsBeforeKey | FailsAfterKey

  /** The filters whose count query fails. */
  datatype Counting = AllCounted | Without(failing: set<int>)
  {
    predicate Misses(i: int) {
      Without? && i in failing
    }
  }

  /** What one call of the model meets: the clock in milliseconds, the preferences, and
      which database operations succeed. */
  datatype Env = Env(now: int, prefs: Prefs, dbOk: bool, tx: TxOutcome, purgeOk: bool, counting: Counting)
  {
    predicate FailureFree() {
      dbOk && tx.Commits? && counting == AllCounted
    }
  }

  /** The filters whose condition does not read the clock, in the order of the model's list. */
  datatype FilterKind = Incoming | Outgoing | CallsInAbsence | AllCalls
  const FILTERS: seq<FilterKind> := [Incoming, Outgoing, CallsInAbsence, AllCalls]

  /** The name and the number searched for; an empty text does not restrict. */
  datatype Search = Search(name: string, number: string)

  /** The engine's text match, left open. */
  type Like = (string, string) -> bool

  datatype Store = Store(calls: map<int, Row>, nextId: int, search: Search, counts: seq<nat>, current: int)

  predicate InFilter(kind: FilterKind, r: Row) {
    match kind
    case Incoming => r.jtype == JIncoming
    case Outgoing => r.jtype == JOutgoing
    case CallsInAbsence => r.jtype == JIncoming && r.result == JrNotReached
    case AllCalls => true
  }

  predicate InSearch(like: Like, s: Search, r: Row) {
    && (s.name != "" ==> like(r.cln, s.name) || like(r.cdn, s.name))
    && (s.number != "" ==> like(r.clnr, s.number) || like(r.cdnr, s.number))
  }

  function Selected(like: Like, calls: map<int, Row>, kind: FilterKind, s: Search): set<int> {
    set id | id in calls && InFilter(kind, calls[id]) && InSearch(like, s, calls[id])
  }

  /** The counts as they are queried; a query that fails leaves zero. */
  function Counts(like: Like, calls: map<int, Row>, s: Search, counting: Counting): seq<nat> {
    seq(|FILTERS|, i requires 0 <= i < |FILTERS| =>
      if counting.Misses(i) then 0 else |Selected(like, calls, FILTERS[i], s)|)
  }

  // ----- The purge -----

  predicate TooOld(r: Row, now: int, maxAge: int) {
    r.tm1.Some? && now - r.tm1.value * 1000 > maxAge * 86_400_000
  }

  /** `select id from calls order by id desc limit m`: an id is among the first m exactly
      when fewer than m ids are larger. A negative limit does not limit. */
  function Newest(ids: set<int>, limit: int): set<int> {
    if limit < 0 then ids else set id | id in ids && |Above(ids, id)| < limit
  }

  function Above(ids: set<int>, id: int): set<int> {
    set x | x in ids && x > id
  }

  function AfterAgeRule(calls: map<int, Row>, p: Prefs, now: int): map<int, Row> {
    if p.byAge then map id | id in calls && !TooOld(calls[id], now, p.maxAge) :: calls[id] else calls
  }

  function AfterCountRule(calls: map<int, Row>, p: Prefs): map<int, Row> {
    if p.byCount then map id | id in Newest(calls.Keys, p.maxCount) && id in calls :: calls[id] else calls
  }

  function Purged(calls: map<int, Row>, env: Env): map<int, Row> {
    if env.dbOk && env.purgeOk then AfterCountRule(AfterAgeRule(calls, env.prefs, env.now), env.prefs) else calls
  }

  /** Taking the largest id off the set takes one off the limit. */
  lemma NewestStep(ids: set<int>, m: int, limit: int)
    requires limit > 0 && m in ids && forall x :: x in ids ==> x <= m
    ensures Newest(ids, limit) == {m} + Newest(ids - {m}, limit - 1)
  {
    var rest := ids - {m};
    assert Above(ids, m) == {};
    forall id | id in rest ensures |Above(ids, id)| == |Above(rest, id)| + 1 {
      assert Above(ids, id) == Above(rest, id) + {m};
      assert m !in Above(rest, id);
    }
  }

  lemma OneMore(kept: set<int>, m: int)
    requires m !in kept
    ensures |{m} + kept| == 1 + |kept|
  {
  }

  lemma {:induction false} NewestCount(ids: set<int>, limit: nat)
    ensures |Newest(ids, limit)| == Min(|ids|, limit)
    decreases limit
  {
    if limit == 0 || ids == {} {
      assert Newest(ids, limit) == {};
    } else {
      var m := MaxExists(ids);
      var rest := ids - {m};
      NewestStep(ids, m, limit);
      NewestCount(rest, limit - 1);
      OneMore(Newest(rest, limit - 1), m);
      OneMore(rest, m);
      assert ids == {m} + rest;
    }
  }

  /** No dropped id is larger than a kept one: a larger id has fewer ids above it. */
  lemma NewestAreLarger(ids: set<int>, limit: nat, k: int, d: int)
    requires k in Newest(ids, limit) && d in ids && d !in Newest(ids, limit)
    ensures k > d
  {
    if k < d {
      var above := Above(ids, d);
      assert d !in above && {d} + above <= Above(ids, k);
      OneMore(above, d);
      Subset({d} + above, Above(ids, k));
    }
  }

  lemma Subset(a: set<int>, b: set<int>)
    requires a <= b
    ensures |a| <= |b|
  {
    assert b == a + (b - a);
    assert |b| == |a| + |b - a|;
  }

  /** The purge by count keeps exactly the most recent min(n, limit) of n rows: ids grow
      with insertion, so the newest rows are those with the largest ids. */
  lemma NewestAreTheLargest(ids: set<int>, limit: nat)
    ensures Newest(ids, limit) <= ids
    ensures |Newest(ids, limit)| == Min(|ids|, limit)
    ensures forall k, d :: k in Newest(ids, limit) && d in ids && d !in Newest(ids, limit) ==> k > d
  {
    NewestCount(ids, limit);
    forall k, d | k in Newest(ids, limit) && d in ids && d !in Newest(ids, limit) ensures k > d {
      NewestAreLarger(ids, limit, k, d);
    }
  }

  /** A purge by age and by count, on the whole table. */
  lemma PurgeKeepsNewestSurvivors(calls: map<int, Row>, env: Env)
    requires env.dbOk && env.purgeOk && env.prefs.byCount && env.prefs.maxCount >= 0
    ensures var survivors := AfterAgeRule(calls, env.prefs, env.now);
            var kept := Purged(calls, env);
            && |kept| == Min(|survivors|, env.prefs.maxCount)
            && (forall id :: id in kept ==> id in survivors && kept[id] == calls[id])
            && (forall k, d :: k in kept && d in survivors && d !in kept ==> k > d)
  {
    var survivors := AfterAgeRule(calls, env.prefs, env.now);
    var newest := Newest(survivors.Keys, env.prefs.maxCount);
    NewestAreTheLargest(survivors.Keys, env.prefs.maxCount);
    assert Purged(calls, env) == AfterCountRule(survivors, env.prefs);
    assert AfterCountRule(survivors, env.prefs).Keys == newest;
    assert |survivors.Keys| == |survivors|;
    assert |Purged(calls, env).Keys| == |Purged(calls, env)|;
  }

  /** A purge only removes rows. */
  lemma PurgeOnlyRemoves(calls: map<int, Row>, env: Env)
    ensures forall id :: id in Purged(calls, env) ==> id in calls && Purged(calls, env)[id] == calls[id]
  {
  }

  // ----- Saving and searching -----

  /** `insertUpdateEntry` on values: the store and the entry afterwards. */
  function InsertUpdate(like: Like, s: Store, e: Entry, env: Env): (Store, Entry) {
    if !e.dirty then (s, e)
    else if !env.dbOk then (s, e.(dirty := false))
    else if e.dbKey == 0 then Insert(like, s, e, env)
    else if env.tx.Commits? then (Recount(like, s.(calls := Updated(s.calls, e)), env.counting), e.(dirty := false))
    else (s, e)
  }

  function Insert(like: Like, s: Store, e: Entry, env: Env): (Store, Entry) {
    match env.tx
    case FailsBeforeKey => (s, e)
    case FailsAfterKey => (s, e.SetDbKey(s.nextId))
    case Commits =>
      var e' := e.(dbKey := s.nextId, dirty := false);
      var calls := Purged(s.calls[s.nextId := e'.ToRow()], env);
      (Recount(like, s.(calls := calls, nextId := s.nextId + 1), env.counting), e')
  }

  /** The `update` statement changes nothing when the row has been purged. */
  function Updated(calls: map<int, Row>, e: Entry): map<int, Row> {
    if e.dbKey in calls then calls[e.dbKey := e.ToRow()] else calls
  }

  function Recount(like: Like, s: Store, counting: Counting): Store {
    s.(counts := Counts(like, s.calls, s.search, counting))
  }

  /** Everything a client can ask of the model that may change it. */
  datatype Op =
    | Save(e: Entry, env: Env)
    | SetSearch(search: Search, dbOk: bool, counting: Counting)
    | SelectFilter(idx: int)
    | DisableFilter

  function Apply(like: Like, s: Store, op: Op): Store {
    match op
    case Save(e, env) => InsertUpdate(like, s, e, env).0
    case SetSearch(search, dbOk, counting) =>
      if dbOk then Recount(like, s.(search := search), counting) else s.(search := search)
    case SelectFilter(idx) => if 0 <= idx < |FILTERS| then s.(current := idx) else s
    case DisableFilter => s.(current := -1)
  }

  function ApplyAll(like: Like, s: Store, ops: seq<Op>): Store {
    if ops == [] then s else Apply(like, ApplyAll(like, s, ops[..|ops| - 1]), ops[|ops| - 1])
  }

  /** The rows that `getEntries` lists. */
  function Listed(like: Like, s: Store): set<int> {
    if 0 <= s.current < |FILTERS| then Selected(like, s.calls, FILTERS[s.current], s.search)
    else Selected(like, s.calls, AllCalls, s.search)
  }

  ghost predicate CountsExact(like: Like, s: Store) {
    s.counts == Counts(like, s.calls, s.search, AllCounted)
  }

  /** The cached count of filter i is the number of its rows. */
  ghost predicate CountExact(like: Like, s: Store, i: nat)
    requires i < |FILTERS|
  {
    |s.counts| == |FILTERS| && s.counts[i] == |Selected(like, s.calls, FILTERS[i], s.search)|
  }

  /** The count of filter i can be taken whenever the operation calls for it. */
  predicate Countable(op: Op, i: nat) {
    match op
    case Save(_, env) => !env.counting.Misses(i)
    case SetSearch(_, dbOk, counting) => dbOk && !counting.Misses(i)
    case _ => true
  }

  /** A recount with failing queries is exact for just those filters whose query works, or
      that have no rows. */
  lemma RecountExactIff(like: Like, s: Store, counting: Counting, i: nat)
    requires i < |FILTERS|
    ensures CountExact(like, Recount(like, s, counting), i)
            <==> !counting.Misses(i) || Selected(like, s.calls, FILTERS[i], s.search) == {}
  {
  }

  lemma ApplyKeepsCount(like: Like, s: Store, op: Op, i: nat)
    requires i < |FILTERS| && CountExact(like, s, i) && Countable(op, i)
    ensures CountExact(like, Apply(like, s, op), i)
  {
  }

  /** After any run of saves, purges, searches and filter choices, with failing transactions
      anywhere, each cached count is the number of rows that would be listed if its filter
      were selected, as long as its own count queries work. */
  lemma {:induction false} CachedCountsAreListLengths(like: Like, s: Store, ops: seq<Op>, i: nat)
    requires i < |FILTERS| && CountExact(like, s, i) && forall op :: op in ops ==> Countable(op, i)
    ensures var t := ApplyAll(like, s, ops);
            CountExact(like, t, i) && t.counts[i] == |Listed(like, t.(current := i))|
  {
    if ops != [] {
      var front := ops[..|ops| - 1];
      CachedCountsAreListLengths(like, s, front, i);
      ApplyKeepsCount(like, ApplyAll(like, s, front), ops[|ops| - 1], i);
    }
  }

  // ----- One successful save -----

  /** The entry agrees with its row, if the row is there, or is marked to be written. */
  ghost predicate RowMatches(s: Store, e: Entry) {
    e.dbKey in s.calls && !e.dirty ==> s.calls[e.dbKey] == e.ToRow()
  }

  /** A save without a database failure leaves a clean entry with a key of its own, a row
      equal to it unless purged, and no other row changed. */
  lemma SaveFacts(like: Like, s: Store, e: Entry, env: Env)
    requires IdsBelowCounter(s) && CountsExact(like, s) && env.FailureFree()
    requires RowMatches(s, e) && (e.dbKey == 0 ==> e.dirty) && 0 <= e.dbKey < s.nextId
    ensures var (t, f) := InsertUpdate(like, s, e, env);
            && IdsBelowCounter(t) && CountsExact(like, t) && RowMatches(t, f)
            && f == e.(dirty := false, dbKey := if e.dbKey == 0 then s.nextId else e.dbKey)
            && t.nextId == (if e.dbKey == 0 then s.nextId + 1 else s.nextId)
            && t.search == s.search && t.current == s.current
            && (forall id :: id in t.calls && id != f.dbKey ==> id in s.calls && t.calls[id] == s.calls[id])
            && (e.dbKey != 0 ==> t.calls == if e.dbKey in s.calls then s.calls[e.dbKey := e.ToRow()] else s.calls)
  {
    if e.dbKey == 0 {
      var f := e.(dbKey := s.nextId, dirty := false);
      PurgeOnlyRemoves(s.calls[s.nextId := f.ToRow()], env);
    } else if e.dbKey in s.calls && !e.dirty {
      assert s.calls[e.dbKey := e.ToRow()] == s.calls;
    }
  }

  // ----- Ids -----

  /** Every stored id has been handed out by the counter. */
  ghost predicate IdsBelowCounter(s: Store) {
    s.nextId >= 1 && forall id :: id in s.calls ==> 1 <= id < s.nextId
  }

  /** The ids that a run of operations inserts, in insertion order. */
  function Inserted(like: Like, s: Store, ops: seq<Op>): seq<int> {
    if ops == [] then [] else
    var front := ops[..|ops| - 1];
    var before := ApplyAll(like, s, front);
    Inserted(like, s, front) + InsertedBy(before, ops[|ops| - 1])
  }

  function InsertedBy(s: Store, op: Op): seq<int> {
    if op.Save? && op.e.dirty && op.env.dbOk && op.e.dbKey == 0 && op.env.tx.Commits? then [s.nextId] else []
  }

  predicate Increasing(ids: seq<int>) {
    forall i, j :: 0 <= i < j < |ids| ==> ids[i] < ids[j]
  }

  lemma StepIds(like: Like, s: Store, op: Op)
    requires IdsBelowCounter(s)
    ensures var t := Apply(like, s, op);
            && IdsBelowCounter(t)
            && t.nextId == (if InsertedBy(s, op) == [] then s.nextId else s.nextId + 1)
            && (forall id :: id in t.calls ==> id in s.calls || id in InsertedBy(s, op))
  {
    if op.Save? {
      PurgeOnlyRemoves(s.calls[s.nextId := op.e.(dbKey := s.nextId, dirty := false).ToRow()], op.env);
    }
  }

  lemma IncreasingMore(ids: seq<int>, low: int, next: int)
    requires Increasing(ids) && low <= next && forall i :: 0 <= i < |ids| ==> low <= ids[i] < next
    ensures Increasing(ids + [next]) && forall i :: 0 <= i < |ids| + 1 ==> low <= (ids + [next])[i] < next + 1
  {
  }

  /** Ids strictly increase with insertion order, whatever is purged in between, and lie
      above every id that was there before the run. */
  lemma {:induction false} IdsFollowInsertionOrder(like: Like, s: Store, ops: seq<Op>)
    requires IdsBelowCounter(s)
    ensures var t := ApplyAll(like, s, ops);
            IdsBelowCounter(t) && t.nextId >= s.nextId
    ensures var ids := Inserted(like, s, ops);
            Increasing(ids) && forall i :: 0 <= i < |ids| ==> s.nextId <= ids[i] < ApplyAll(like, s, ops).nextId
    ensures forall id :: id in ApplyAll(like, s, ops).calls ==> id in s.calls || id in Inserted(like, s, ops)
  {
    if ops != [] {
      var front, op := ops[..|ops| - 1], ops[|ops| - 1];
      IdsFollowInsertionOrder(like, s, front);
      var before, earlier := ApplyAll(like, s, front), Inserted(like, s, front);
      StepIds(like, before, op);
      IncreasingMore(earlier, s.nextId, before.nextId);
      assert Inserted(like, s, ops) == earlier + InsertedBy(before, op);
      assert earlier + [] == earlier;
    }
  }

  // ----- The model itself -----

  class JournalModel {
    const like: Like
    var calls: map<int, Row>
    var nextId: int
    var search: Search
    var counts: seq<nat>
    var current: int

    function Val(): Store
      reads this
    {
      Store(calls, nextId, search, counts, current)
    }

    /** Opens the model on the tables of an existing database. */
    constructor (like: Like, calls: map<int, Row>, nextId: int, dbOk: bool, counting: Counting)
      ensures this.like == like
      ensures var start := Store(calls, nextId, Search("", ""), seq(|FILTERS|, _ => 0), -1);
              Val() == if dbOk then Recount(like, start, counting) else start
    {
      this.like, this.calls, this.nextId := like, calls, nextId;
      search, counts, current := Search("", ""), seq(|FILTERS|, _ => 0), -1;
      new;
      UpdateFilters(dbOk, counting);
    }

    /** Each filter's row count is queried and stored, one filter after the other. */
    method UpdateFilters(dbOk: bool, counting: Counting)
      requires |counts| == |FILTERS|
      modifies this`counts
      ensures Val() == if dbOk then Recount(like, old(Val()), counting) else old(Val())
    {
      if !dbOk {
        return;
      }
      for i := 0 to |FILTERS|
        invariant |counts| == |FILTERS|
        invariant forall j :: 0 <= j < i ==> counts[j] == Counts(like, calls, search, counting)[j]
      {
        var count := 0;
        if !counting.Misses(i) {
          count := |Selected(like, calls, FILTERS[i], search)|;
        }
        counts := counts[i := count];
      }
      assert counts == Counts(like, calls, search, counting);
    }

    method SetNameAndNumberFilter(name: string, number: string, dbOk: bool, counting: Counting)
      requires |counts| == |FILTERS|
      modifies this`search, this`counts
      ensures Val() == Apply(like, old(Val()), SetSearch(Search(name, number), dbOk, counting))
    {
      search := Search(name, number);
      UpdateFilters(dbOk, counting);
    }

    method SelectFilter(idx: int)
      modifies this`current
      ensures Val() == Apply(like, old(Val()), Op.SelectFilter(idx))
    {
      if 0 <= idx < |FILTERS| {
        current := idx;
      }
    }

    method DisableFilter()
      modifies this`current
      ensures Val() == Apply(like, old(Val()), Op.DisableFilter)
    {
      current := -1;
    }

    /** Both rules run in one transaction. */
    method PurgeEntries(env: Env)
      modifies this`calls
      ensures calls == Purged(old(calls), env)
    {
      if !(env.prefs.byAge || env.prefs.byCount) || !env.dbOk {
        return;
      }
      var snapshot := calls;
      if env.prefs.byAge {
        calls := map id | id in calls && !TooOld(calls[id], env.now, env.prefs.maxAge) :: calls[id];
      }
      if env.prefs.byCount {
        var keep := Newest(calls.Keys, env.prefs.maxCount);
        calls := map id | id in keep && id in calls :: calls[id];
      }
      if !env.purgeOk {
        calls := snapshot;
      }
    }

    method InsertUpdateEntry(j: JournalEntry, env: Env)
      requires |counts| == |FILTERS|
      modifies this, j
      ensures (Val(), j.Val()) == InsertUpdate(like, old(Val()), old(j.Val()), env)
      ensures |counts| == |FILTERS|
    {
      if j.dirty {
        if env.dbOk {
          var dbkey := j.dbKey;
          var purge := false;
          var snapshot, snapshotId := calls, nextId;
          if env.tx.FailsBeforeKey? {
            return;
          }
          if dbkey == 0 {
            dbkey := nextId;
            nextId := dbkey + 1;
            j.SetDbKey(dbkey);
            calls := calls[dbkey := j.Val().ToRow()];
            purge := true;
          } else if dbkey in calls {
            calls := calls[dbkey := j.Val().ToRow()];
          }
          if env.tx.FailsAfterKey? {
            calls, nextId := snapshot, snapshotId;
            return;
          }
          j.dirty := false;
          if purge {
            PurgeEntries(env);
          }
          UpdateFilters(true, env.counting);
        } else {
          j.dirty := false;
        }
      }
    }

    /** Fills a fresh entry from the row with this key, if there is one. */
    method GetEntry(key: int, e: JournalEntry, env: Env) returns (found: bool)
      modifies e
      ensures found <==> env.dbOk && key in calls
      ensures found ==>
                var was, row := old(e.Val()), EntryOfRow(key, calls[key]);
                e.Val() == row.(pid := was.pid, cid := was.cid,
                                resolvingCaller := was.resolvingCaller, resolvingCalled := was.resolvingCalled,
                                progress := row.progress.(state := was.progress.state))
      ensures !found ==> e.Val() == old(e.Val())
    {
      found := env.dbOk && key in calls;
      if found {
        var r := calls[key];
        e.SetDbKey(key);
        e.jtype := r.jtype;
        e.SetResult(r.result);
        e.duration := r.dur;
        e.SetCreation(Millis(r.tm1));
        e.begin := Millis(r.tm2);
        e.SetCallerAddress(r.clnr);
        e.SetCallerName(r.cln);
        e.SetCalledAddress(r.cdnr);
        e.SetCalledName(r.cdn);
        e.dirty := false;
      }
    }

    /** Lists the selected rows in the order in which the engine delivers them; with a closed
        database the list stays what it was. */
    method GetEntries(before: seq<Entry>, fetched: seq<int>, dbOk: bool) returns (list: seq<Entry>)
      requires forall i, j :: 0 <= i < j < |fetched| ==> fetched[i] != fetched[j]
      requires (set id | id in fetched) == Listed(like, Val())
      ensures !dbOk ==> list == before
      ensures dbOk ==> |list| == |fetched| == |Listed(like, Val())|
      ensures dbOk ==> forall i :: 0 <= i < |list| ==>
                fetched[i] in calls && list[i] == EntryOfRow(fetched[i], calls[fetched[i]])
      ensures dbOk && 0 <= current < |FILTERS| && CountExact(like, Val(), current) ==> |list| == counts[current]
    {
      list := before;
      if !dbOk {
        return;
      }
      list := [];
      for i := 0 to |fetched|
        invariant |list| == i
        invariant forall k :: 0 <= k < i ==> fetched[k] in calls && list[k] == EntryOfRow(fetched[k], calls[fetched[k]])
      {
        assert fetched[i] in Listed(like, Val());
        list := list + [EntryOfRow(fetched[i], calls[fetched[i]])];
      }
      DistinctLength(fetched);
    }
  }

  lemma {:induction false} DistinctLength(ids: seq<int>)
    requires forall i, j :: 0 <= i < j < |ids| ==> ids[i] != ids[j]
    ensures |set id | id in ids| == |ids|
  {
    if ids != [] {
      var front, last := ids[..|ids| - 1], ids[|ids| - 1];
      DistinctLength(front);
      assert (set id | id in ids) == (set id | id in front) + {last};
    }
  }
}
