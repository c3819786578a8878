/** Whose row the statuses of a call end up in. Providers may reuse a call id; a NEW_CALL whose
    id is still active gets a row of its own, but no entry. */
module CallReuse {
  import opened CallTypes
  import opened JournalEntries
  import opened JournalStore
  import opened MainApps
  import opened CallRuns
  import opened CallLookups
  import opened CallOrigins

  /** One more event: the statuses posted for id k, up to the first TCALL_IDLE. */
  function PostTo(posted: (seq<CallStatus>, bool), ev: AppEvent, k: Key): (seq<CallStatus>, bool) {
    if posted.1 || !ev.CallStatusUpdate? || Key(ev.pid, ev.cid) != k then posted
    else if ev.status == Idle then (posted.0, true)
    else (posted.0 + [ev.status], false)
  }

  /** The statuses that providers post for id k in these steps, and whether TCALL_IDLE came. */
  function Posted(steps: seq<Timed>, k: Key): (seq<CallStatus>, bool) {
    if steps == [] then ([], false) else PostTo(Posted(steps[..|steps| - 1], k), steps[|steps| - 1].ev, k)
  }

  /** An active entry stays active under its key until TCALL_IDLE. */
  lemma StaysActive(cfg: Config, a: App, ev: AppEvent, env: Env, k: Key)
    requires Inv(cfg, a) && env.FailureFree() && k in a.active
    requires !(ev.CallStatusUpdate? && Key(ev.pid, ev.cid) == k && ev.status == Idle)
    ensures var b := Step(cfg, a, ev, env); k in b.active && b.active[k].dbKey == a.active[k].dbKey
  {
    match ev
    case NewCall(_, _, _, _) =>
      NewCallEffect(cfg, a, ev, env);
    case CallStatusUpdate(pid, cid, status) =>
      if Key(pid, cid) in a.active && status != Idle {
        StatusEffect(cfg, a, Key(pid, cid), status, env);
      }
    case CallInfoUpdate(pid, cid, info) =>
      if Key(pid, cid) in a.active {
        InfoEffect(cfg, a, Key(pid, cid), info, env);
        MergeKeepsKey(cfg, a.active[Key(pid, cid)], info);
      }
    case ResolverResponse(key, data, sn) =>
      ResponseEffect(cfg, a, key, data, sn, env);
      NameSets(a.active[k], key, data, sn);
  }

  /** No active entry has the database key id, and none will get it. */
  ghost predicate NoEntry(a: App, id: int) {
    id < a.store.nextId && forall k :: k in a.active ==> a.active[k].dbKey != id
  }

  lemma NoEntryStays(cfg: Config, a: App, ev: AppEvent, env: Env, id: int)
    requires Inv(cfg, a) && env.FailureFree() && NoEntry(a, id)
    ensures NoEntry(Step(cfg, a, ev, env), id) && DeliveredBy(a, ev, id) == []
  {
    StepKeeps(cfg, a, ev, env);
    var b := Step(cfg, a, ev, env);
    forall k | k in b.active ensures b.active[k].dbKey != id {
      if b.active[k].dbKey < a.store.nextId {
        assert EntryKept(a, b, k);
      }
    }
  }

  /** One event, for a call that is active under k with the key id: its status is delivered,
      and TCALL_IDLE ends its entry. */
  lemma OneStatus(cfg: Config, a: App, ev: AppEvent, env: Env, k: Key)
    requires Inv(cfg, a) && env.FailureFree() && k in a.active
    ensures var b, id := Step(cfg, a, ev, env), a.active[k].dbKey;
            var (d, ended) := PostTo(([], false), ev, k);
            && DeliveredBy(a, ev, id) == d
            && (if ended then NoEntry(b, id) else k in b.active && b.active[k].dbKey == id)
  {
    var b, id := Step(cfg, a, ev, env), a.active[k].dbKey;
    assert EntryOk(a.store, k, a.active[k]);
    if ev.CallStatusUpdate? && Key(ev.pid, ev.cid) == k && ev.status == Idle {
      assert b.active == a.active - {k};
    } else {
      StaysActive(cfg, a, ev, env, k);
    }
  }

  lemma PostedMore(posted: (seq<CallStatus>, bool), ev: AppEvent, k: Key)
    requires !posted.1
    ensures PostTo(posted, ev, k) == (posted.0 + PostTo(([], false), ev, k).0, PostTo(([], false), ev, k).1)
  {
    assert posted.0 + [] == posted.0;
    if ev.CallStatusUpdate? {
      assert [] + [ev.status] == [ev.status];
    }
  }

  lemma LastStep(p: seq<Timed>, q: seq<Timed>)
    requires q != []
    ensures var pq := p + q; pq[..|pq| - 1] == p + q[..|q| - 1] && pq[|pq| - 1] == q[|q| - 1]
  {
  }

  /** What the state after `front` and `q` is like for the entry that was active under k. */
  ghost predicate StillDelivered(cfg: Config, a: App, front: seq<Timed>, q: seq<Timed>, k: Key, id: int) {
    var b := Run(cfg, a, front + q);
    var (d, ended) := Posted(q, k);
    && Delivered(cfg, a, front + q, id) == Delivered(cfg, a, front, id) + d
    && (if ended then NoEntry(b, id) else k in b.active && b.active[k].dbKey == id)
  }

  /** The statuses posted for an active id go to the row of the call that is active under it,
      up to TCALL_IDLE. */
  lemma {:induction false} StatusesGoToActive(cfg: Config, a: App, front: seq<Timed>, q: seq<Timed>, k: Key)
    requires Started(cfg, a) && FailureFree(front) && FailureFree(q) && k in Run(cfg, a, front).active
    ensures StillDelivered(cfg, a, front, q, k, Run(cfg, a, front).active[k].dbKey)
  {
    var id := Run(cfg, a, front).active[k].dbKey;
    if q == [] {
      NothingYet(cfg, a, front, k);
    } else {
      var init, last := q[..|q| - 1], q[|q| - 1];
      assert q == init + [last];
      StatusesGoToActive(cfg, a, front, init, k);
      OneStatusFurther(cfg, a, front, init, last, k, id);
    }
  }

  lemma NothingYet(cfg: Config, a: App, front: seq<Timed>, k: Key)
    requires k in Run(cfg, a, front).active
    ensures StillDelivered(cfg, a, front, [], k, Run(cfg, a, front).active[k].dbKey)
  {
    var d := Delivered(cfg, a, front, Run(cfg, a, front).active[k].dbKey);
    assert front + [] == front && d + [] == d;
  }

  lemma OneStatusFurther(cfg: Config, a: App, front: seq<Timed>, q: seq<Timed>, t: Timed, k: Key, id: int)
    requires Started(cfg, a) && FailureFree(front) && FailureFree(q) && t.env.FailureFree()
    requires StillDelivered(cfg, a, front, q, k, id)
    ensures StillDelivered(cfg, a, front, q + [t], k, id)
  {
    var b := Run(cfg, a, front + q);
    var (d, ended) := Posted(q, k);
    LastStep(front, q + [t]);
    assert (q + [t])[..|q|] == q;
    RunKeepsInv(cfg, a, front + q);
    if ended {
      NoEntryStays(cfg, b, t.ev, t.env, id);
    } else {
      OneStatus(cfg, b, t.ev, t.env, k);
      PostedMore((d, ended), t.ev, k);
    }
    var was, more := Delivered(cfg, a, front, id), DeliveredBy(b, t.ev, id);
    assert (was + d) + more == was + (d + more) && d + [] == d;
  }

  lemma {:induction false} NothingGoesToNoEntry(cfg: Config, a: App, front: seq<Timed>, q: seq<Timed>, id: int)
    requires Started(cfg, a) && FailureFree(front) && FailureFree(q) && NoEntry(Run(cfg, a, front), id)
    ensures NoEntry(Run(cfg, a, front + q), id)
    ensures Delivered(cfg, a, front + q, id) == Delivered(cfg, a, front, id)
  {
    if q == [] {
      assert front + q == front;
    } else {
      var last := q[|q| - 1];
      NothingGoesToNoEntry(cfg, a, front, q[..|q| - 1], id);
      LastStep(front, q);
      RunKeepsInv(cfg, a, front + q[..|q| - 1]);
      NoEntryStays(cfg, Run(cfg, a, front + q[..|q| - 1]), last.ev, last.env, id);
      assert Delivered(cfg, a, front, id) + [] == Delivered(cfg, a, front, id);
    }
  }

  /** After a NEW_CALL: it has an entry exactly if its id was not active, and has been given
      its first status. */
  lemma AfterNewCall(cfg: Config, a: App, p: seq<Timed>, t: Timed)
    requires Started(cfg, a) && FailureFree(p) && t.env.FailureFree() && t.ev.NewCall?
    ensures var before, after := Run(cfg, a, p), Run(cfg, a, p + [t]);
            var k, id := Key(t.ev.pid, t.ev.cid), before.store.nextId;
            && Delivered(cfg, a, p + [t], id) == [t.ev.status]
            && (if k in before.active then NoEntry(after, id) && after.active == before.active
                else k in after.active && after.active[k].dbKey == id)
  {
    var before := Run(cfg, a, p);
    assert (p + [t])[..|p|] == p;
    RunKeepsInv(cfg, a, p);
    OriginOfActive(cfg, a, p, before.store.nextId);
    NewCallEffect(cfg, before, t.ev, t.env);
    forall k | k in before.active ensures before.active[k].dbKey < before.store.nextId {
      assert EntryOk(before.store, k, before.active[k]);
    }
    assert [] + [t.ev.status] == [t.ev.status];
  }

  /** All statuses posted for a call, from its NEW_CALL to its TCALL_IDLE. */
  function OwnStatuses(t: Timed, q: seq<Timed>): seq<CallStatus>
    requires t.ev.NewCall?
  {
    [t.ev.status] + Posted(q, Key(t.ev.pid, t.ev.cid)).0
  }

  /** The row of a call has been given all statuses posted for the call if and only if its id
      was not active at its NEW_CALL, or none were posted afterwards. With an active id it has
      been given the first one only, and the others have gone to the row of the older call. */
  lemma RowHasOwnStatusesIff(cfg: Config, a: App, p: seq<Timed>, t: Timed, q: seq<Timed>)
    requires Started(cfg, a) && FailureFree(p) && t.env.FailureFree() && FailureFree(q) && t.ev.NewCall?
    ensures var before := Run(cfg, a, p);
            var k, id, all := Key(t.ev.pid, t.ev.cid), before.store.nextId, p + [t] + q;
            && (Delivered(cfg, a, all, id) == OwnStatuses(t, q) <==> k !in before.active || Posted(q, k).0 == [])
            && (k in before.active ==>
                  && Delivered(cfg, a, all, id) == [t.ev.status]
                  && Delivered(cfg, a, all, before.active[k].dbKey)
                     == Delivered(cfg, a, p + [t], before.active[k].dbKey) + Posted(q, k).0)
  {
    var before, front := Run(cfg, a, p), p + [t];
    var k, id := Key(t.ev.pid, t.ev.cid), before.store.nextId;
    AfterNewCall(cfg, a, p, t);
    if k in before.active {
      NothingGoesToNoEntry(cfg, a, front, q, id);
    }
    StatusesGoToActive(cfg, a, front, q, k);
  }

  /** So the stored result is the verdict on the statuses posted for the call itself whenever
      its id was not active, and otherwise the verdict on its first status alone. */
  lemma ResultOfOwnCall(cfg: Config, a: App, p: seq<Timed>, t: Timed, q: seq<Timed>)
    requires Started(cfg, a) && FailureFree(p) && t.env.FailureFree() && FailureFree(q) && t.ev.NewCall?
    requires Run(cfg, a, p).store.nextId in Run(cfg, a, p + [t] + q).store.calls
    ensures var before := Run(cfg, a, p);
            var r := Run(cfg, a, p + [t] + q).store.calls[before.store.nextId];
            r.result == Verdict(r.jtype, if Key(t.ev.pid, t.ev.cid) in before.active then [t.ev.status]
                                         else OwnStatuses(t, q))
  {
    var id := Run(cfg, a, p).store.nextId;
    RowHasOwnStatusesIff(cfg, a, p, t, q);
    assert FailureFree(p + [t] + q);
    NumbersNeverChange(cfg, a, p);
    RowHistory(cfg, a, p + [t] + q, id);
  }
}
