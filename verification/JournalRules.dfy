/** What the journal keeps, lists and refuses, told from the rows, the clock and the
    preferences alone. */
module JournalRules {
  import opened Common
  import opened JournalEntries
  import opened JournalStore

  // ----- The purge by age -----

  /** The milliseconds between the call and now. */
  function AgeOf(r: Row, now: int): int
    requires r.tm1.Some?
  {
    now - 1000 * r.tm1.value
  }

  const DAY := 86_400_000

  predicate OnlyByAge(env: Env) {
    env.dbOk && env.purgeOk && env.prefs.byAge && !env.prefs.byCount
  }

  /** With the age rule alone a purge that commits keeps just the rows that are at most the
      maximum age old, and those without a time. */
  lemma AgeRuleKeepsIff(calls: map<int, Row>, env: Env, id: int)
    requires OnlyByAge(env)
    ensures id in Purged(calls, env) <==>
              id in calls && (calls[id].tm1.Some? ==> AgeOf(calls[id], env.now) <= env.prefs.maxAge * DAY)
    ensures id in Purged(calls, env) ==> Purged(calls, env)[id] == calls[id]
  {
  }

  /** A row of exactly the maximum age stays, one that is a second older goes, and no row is
      kept while a later one is dropped. */
  lemma AgeRuleAtTheEdge(calls: map<int, Row>, env: Env, edge: int, older: int)
    requires OnlyByAge(env) && edge in calls && older in calls
    requires calls[edge].tm1.Some? && AgeOf(calls[edge], env.now) == env.prefs.maxAge * DAY
    requires calls[older].tm1 == Some(calls[edge].tm1.value - 1)
    ensures edge in Purged(calls, env) && older !in Purged(calls, env)
    ensures forall kept, other :: kept in Purged(calls, env) && other in calls
              && calls[kept].tm1.Some? && calls[other].tm1.Some? && calls[other].tm1.value >= calls[kept].tm1.value
              ==> other in Purged(calls, env)
  {
    AgeRuleKeepsIff(calls, env, edge);
    AgeRuleKeepsIff(calls, env, older);
    forall kept, other | kept in Purged(calls, env) && other in calls
              && calls[kept].tm1.Some? && calls[other].tm1.Some? && calls[other].tm1.value >= calls[kept].tm1.value
      ensures other in Purged(calls, env)
    {
      AgeRuleKeepsIff(calls, env, kept);
      AgeRuleKeepsIff(calls, env, other);
    }
  }

  /** Both rules together: of the rows that are young enough, those stay that have fewer than
      the maximum count of young rows with larger ids. */
  lemma BothRulesKeepIff(calls: map<int, Row>, env: Env, id: int)
    requires env.dbOk && env.purgeOk && env.prefs.byAge && env.prefs.byCount && env.prefs.maxCount >= 0
    ensures id in Purged(calls, env) <==>
              && id in calls && (calls[id].tm1.Some? ==> AgeOf(calls[id], env.now) <= env.prefs.maxAge * DAY)
              && |set x | x in calls && x > id
                     && (calls[x].tm1.Some? ==> AgeOf(calls[x], env.now) <= env.prefs.maxAge * DAY)|
                 < env.prefs.maxCount
  {
    var young := AfterAgeRule(calls, env.prefs, env.now);
    assert Above(young.Keys, id) == set x | x in calls && x > id
             && (calls[x].tm1.Some? ==> AgeOf(calls[x], env.now) <= env.prefs.maxAge * DAY);
  }

  /** Nothing is purged without a rule, by a purge that fails, or with a closed database. */
  lemma NothingPurged(calls: map<int, Row>, env: Env)
    requires !env.dbOk || !env.purgeOk || (!env.prefs.byAge && (!env.prefs.byCount || env.prefs.maxCount < 0))
    ensures Purged(calls, env) == calls
  {
  }

  /** The row of a new call carries the second of the clock, rounded down. */
  lemma NewRowTime(pid: nat, cid: nat, t: JType, s: JState, now: int)
    ensures var r := FreshEntry(pid, cid, t, now).SetState(s, now).ToRow();
            r.tm1.Some? && 1000 * r.tm1.value <= now < 1000 * (r.tm1.value + 1)
  {
  }

  /** A call that has just been saved survives the purge of its own save if and only if its
      fraction of a second is within the maximum age and at least one row may stay. */
  lemma NewCallSurvivesIff(like: Like, s: Store, e: Entry, env: Env)
    requires IdsBelowCounter(s) && env.FailureFree() && env.purgeOk && e.dirty && e.dbKey == 0
    requires e.creation == Some(env.now)
    ensures var (t, f) := InsertUpdate(like, s, e, env);
            && f.dbKey == s.nextId && !f.dirty
            && (s.nextId in t.calls <==>
                  && (env.prefs.byAge ==> env.now % 1000 <= env.prefs.maxAge * DAY)
                  && (env.prefs.byCount ==> env.prefs.maxCount != 0))
            && (s.nextId in t.calls ==> t.calls[s.nextId] == e.ToRow())
  {
    var id, f := s.nextId, e.(dbKey := s.nextId, dirty := false);
    var calls := s.calls[id := f.ToRow()];
    assert f.ToRow() == e.ToRow() && AgeOf(f.ToRow(), env.now) == env.now % 1000;
    var young := AfterAgeRule(calls, env.prefs, env.now);
    assert Above(young.Keys, id) == {};
  }

  /** So it survives whenever the maximum age is a day or more and the maximum count is not
      zero. */
  lemma NewCallSurvives(like: Like, s: Store, e: Entry, env: Env)
    requires IdsBelowCounter(s) && env.FailureFree() && env.purgeOk && e.dirty && e.dbKey == 0
    requires e.creation == Some(env.now)
    requires (env.prefs.byAge ==> env.prefs.maxAge >= 1) && (env.prefs.byCount ==> env.prefs.maxCount >= 1)
    ensures var t := InsertUpdate(like, s, e, env).0; s.nextId in t.calls && t.calls[s.nextId] == e.ToRow()
  {
    NewCallSurvivesIff(like, s, e, env);
  }

  // ----- Saves that do nothing -----

  /** A transaction that fails changes no row, id, count or search, and the entry stays marked;
      with a closed database, or a clean entry, nothing is written either. */
  lemma FailedSaveChangesNothing(like: Like, s: Store, e: Entry, env: Env)
    requires !e.dirty || !env.dbOk || !env.tx.Commits?
    ensures var (t, f) := InsertUpdate(like, s, e, env);
            && t == s && f.ToRow() == e.ToRow()
            && (f.dirty <==> e.dirty && env.dbOk)
            && f.dbKey == (if e.dirty && env.dbOk && e.dbKey == 0 && env.tx.FailsAfterKey? then s.nextId else e.dbKey)
  {
  }

  // ----- Filters and search -----

  /** The rows listed under each filter, by what is in them. */
  lemma ListedMeans(like: Like, s: Store, id: int)
    requires id in s.calls && s.search == Search("", "")
    ensures var r := s.calls[id];
            && (id in Listed(like, s.(current := 0)) <==> r.jtype == JIncoming)
            && (id in Listed(like, s.(current := 1)) <==> r.jtype == JOutgoing)
            && (id in Listed(like, s.(current := 2)) <==> r.jtype == JIncoming && r.result == JrNotReached)
            && id in Listed(like, s.(current := 3)) && id in Listed(like, s.(current := -1))
  {
  }

  /** A name is searched among callers and called alike, and so is a number; both restrict
      together, and together with the filter. */
  lemma SearchMeans(like: Like, s: Store, id: int, name: string, number: string)
    requires id in s.calls
    ensures var r, l := s.calls[id], (n, m) => Listed(like, s.(search := Search(n, m)));
            && (name != "" ==>
                  (id in l(name, "") <==> id in l("", "") && (like(r.cln, name) || like(r.cdn, name))))
            && (number != "" ==>
                  (id in l("", number) <==> id in l("", "") && (like(r.clnr, number) || like(r.cdnr, number))))
            && (id in l(name, number) <==> id in l(name, "") && id in l("", number))
  {
  }

  /** A new search takes the place of the old one, even while it cannot be counted. */
  lemma SearchReplaced(like: Like, s: Store, search: Search, dbOk: bool, counting: Counting)
    ensures var t := Apply(like, s, SetSearch(search, dbOk, counting));
            && t.search == search && t.calls == s.calls && t.current == s.current && t.nextId == s.nextId
            && (dbOk && counting == AllCounted ==>
                  |t.counts| == 4 && t.counts[2] == |Listed(like, t.(current := 2))|
                  && t.counts[3] == |Listed(like, t.(current := -1))|)
            && (!dbOk ==> t.counts == s.counts)
  {
  }

  /** Choosing a filter of the list and giving it up again. */
  lemma ChosenFilter(like: Like, s: Store, idx: int)
    ensures var t := Apply(like, s, SelectFilter(idx));
            && (0 <= idx < 4 ==> Listed(like, t) == Listed(like, s.(current := idx)))
            && (!(0 <= idx < 4) ==> t == s)
            && Listed(like, Apply(like, t, DisableFilter)) == Listed(like, s.(current := 3))
            && t.calls == s.calls && t.counts == s.counts && t.search == s.search
  {
  }
}
