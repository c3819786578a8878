/** In what order the operations leave the resolvers, told by index from the list before. */
module ResolverOrder {
  import opened ResolverList

  /** What a resolver is, apart from its place in the list. */
  function Bare(r: Resolver): Resolver {
    r.(position := 0, dirty := false)
  }

  function Bares(list: seq<Resolver>): seq<Resolver> {
    seq(|list|, i requires 0 <= i < |list| => Bare(list[i]))
  }

  /** A save moves nothing. */
  lemma SaveKeepsOrder(m: Model, db: Db)
    ensures Bares(SaveAll(m, db).list) == Bares(m.list)
  {
    SaveMarks(m, |m.list|, db);
  }

  lemma RenumberKeepsOrder(list: seq<Resolver>)
    ensures Bares(Renumber(list)) == Bares(list)
  {
  }

  /** A list whose positions are its indices already is left as it is, so that nothing is
      written again. */
  lemma RenumberedStays(list: seq<Resolver>)
    requires forall i :: 0 <= i < |list| ==> list[i].position == i
    ensures Renumber(list) == list
  {
  }

  /** The whole list is as it was, but for these two places, which have been exchanged. */
  ghost predicate Exchanged(a: seq<Resolver>, b: seq<Resolver>, i: nat, j: nat) {
    && |b| == |a| && i < |a| && j < |a|
    && b[i] == a[j] && b[j] == a[i] && forall k :: 0 <= k < |a| && k != i && k != j ==> b[k] == a[k]
  }

  /** Moving up exchanges the entry with the one in front of it; the first one, and an index
      outside the list, do not move. */
  lemma MovedUp(m: Model, idx: nat, db: Db)
    ensures var t := Apply(m, MoveUp(idx), db);
            if 0 < idx < |m.list| then Exchanged(Bares(m.list), Bares(t.list), idx - 1, idx) else t == m
  {
    if 0 < idx < |m.list| {
      var swapped := Swap(m.list, idx - 1, idx);
      RenumberKeepsOrder(swapped);
      SaveKeepsOrder(m.(list := Renumber(swapped)), db);
      assert Exchanged(Bares(m.list), Bares(swapped), idx - 1, idx);
    }
  }

  lemma MovedDown(m: Model, idx: nat, db: Db)
    requires idx + 1 < |m.list|
    ensures Exchanged(Bares(m.list), Bares(Apply(m, MoveDown(idx), db).list), idx, idx + 1)
  {
    var swapped := Swap(m.list, idx, idx + 1);
    RenumberKeepsOrder(swapped);
    SaveKeepsOrder(m.(list := Renumber(swapped)), db);
    assert Exchanged(Bares(m.list), Bares(swapped), idx, idx + 1);
  }

  /** Moving down again restores the order. */
  lemma UpAndDownRestores(m: Model, idx: nat, db1: Db, db2: Db)
    requires 0 < idx < |m.list|
    ensures Bares(Apply(Apply(m, MoveUp(idx), db1), MoveDown(idx - 1), db2).list) == Bares(m.list)
  {
    MovedUp(m, idx, db1);
    MovedDown(Apply(m, MoveUp(idx), db1), idx - 1, db2);
  }

  /** A new resolver comes first, or last; a known name changes nothing. */
  lemma PrependedIsFirst(m: Model, r: Resolver, db: Db)
    ensures var t := Apply(m, Prepend(r), db);
            if exists i :: 0 <= i < |m.list| && m.list[i].name == r.name then t == m
            else Bares(t.list) == [Bare(r)] + Bares(m.list)
  {
    if !HasEntry(m.list, r.name) {
      RenumberKeepsOrder([r] + m.list);
      SaveKeepsOrder(m.(list := Renumber([r] + m.list)), db);
      assert Bares([r] + m.list) == [Bare(r)] + Bares(m.list);
    }
  }

  lemma AppendedIsLast(m: Model, r: Resolver, db: Db)
    ensures var t := Apply(m, Append(r), db);
            if exists i :: 0 <= i < |m.list| && m.list[i].name == r.name then t == m
            else Bares(t.list) == Bares(m.list) + [Bare(r)]
  {
    if !HasEntry(m.list, r.name) {
      var last := r.SetPosition(MaxPosition(m.list));
      SaveKeepsOrder(m.(list := m.list + [last]), db);
      assert Bares(m.list + [last]) == Bares(m.list) + [Bare(r)];
    }
  }

  /** A toggle turns one flag over and touches nothing else. */
  lemma ToggledOne(m: Model, idx: nat, db: Db)
    ensures var t := Apply(m, Toggle(idx), db);
            if idx < |m.list| then
              Bares(t.list) == Bares(m.list)[idx := Bare(m.list[idx]).(enabled := !m.list[idx].enabled)]
            else t == m
  {
    if idx < |m.list| {
      var list := m.list[idx := m.list[idx].Enable(!m.list[idx].enabled)];
      SaveKeepsOrder(m.(list := list), db);
      assert Bares(list) == Bares(m.list)[idx := Bare(m.list[idx]).(enabled := !m.list[idx].enabled)];
    }
  }

  /** Twice is as never, once is not. */
  lemma ToggledTwice(m: Model, idx: nat, db1: Db, db2: Db)
    requires idx < |m.list|
    ensures var once := Apply(m, Toggle(idx), db1);
            var twice := Apply(once, Toggle(idx), db2);
            Bares(once.list) != Bares(m.list) && Bares(twice.list) == Bares(m.list)
  {
    ToggledOne(m, idx, db1);
    var once := Apply(m, Toggle(idx), db1);
    ToggledOne(once, idx, db2);
    assert |Bares(once.list)| == |Bares(m.list)|;
    assert Bares(once.list)[idx].enabled != Bares(m.list)[idx].enabled;
    assert Bare(once.list[idx]) == Bares(once.list)[idx];
  }

  /** A deletion takes out one resolver and its row, and leaves all others in their order and
      all other rows; if it fails nothing has changed. */
  lemma DeletedOne(m: Model, idx: nat, db: Db)
    requires idx < |m.list|
    ensures var t := Apply(m, Delete(idx), db);
            if db.ok && m.list[idx].name !in db.fails then
              && |t.list| == |m.list| - 1
              && (forall i :: 0 <= i < idx ==> t.list[i] == m.list[i])
              && (forall i :: idx < i < |m.list| ==> t.list[i - 1] == m.list[i])
              && m.list[idx].name !in t.table
              && (forall name :: name != m.list[idx].name ==>
                    (name in t.table <==> name in m.table) && (name in m.table ==> t.table[name] == m.table[name]))
            else t == m
  {
  }
}
