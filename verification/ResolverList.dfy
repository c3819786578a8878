/** The list of resolvers and its table (gui/resolver/resolvermodel.cpp, resolver.cpp).

    The list is kept in the order in which sources are queried. Every operation renumbers
    or appends, and then saves the entries marked dirty, each in a transaction of its own
    that may fail. `Model` is the value; the classes at the end work in place. */
module ResolverList {
  import opened Common

  datatype Kind = AddressBook | OnlineRegex

  /** One resolver. `v1` and `v2` are the URL and the expression of an online resolver and
      empty for an address book. `available` is false for a book that is not loaded. */
  datatype Resolver = Resolver(name: string, kind: Kind, position: int, enabled: bool, dirty: bool,
                               v1: string, v2: string, available: bool)
  {
    function Enable(val: bool): Resolver {
      this.(dirty := dirty || enabled != val, enabled := val)
    }

    function SetPosition(val: int): Resolver {
      this.(dirty := dirty || position != val, position := val)
    }

    function ToRow(): Row {
      Row(kind, position, enabled, v1, v2)
    }
  }

  datatype Row = Row(kind: Kind, position: int, enabled: bool, v1: string, v2: string)

  datatype Model = Model(list: seq<Resolver>, table: map<string, Row>)

  /** What the database does during one operation: whether it is open, and the names whose
      transaction fails. */
  datatype Db = Db(ok: bool, fails: set<string>)

  predicate HasEntry(list: seq<Resolver>, name: string) {
    exists i :: 0 <= i < |list| && list[i].name == name
  }

  // ----- Saving -----

  predicate Saves(r: Resolver, db: Db) {
    db.ok && r.dirty && r.name !in db.fails
  }

  /** The row written for r: an address book leaves the two text columns as they are. */
  function Written(r: Resolver, table: map<string, Row>): Row {
    if r.kind == AddressBook then
      if r.name in table then Row(r.kind, r.position, r.enabled, table[r.name].v1, table[r.name].v2)
      else Row(r.kind, r.position, r.enabled, "", "")
    else Row(r.kind, r.position, r.enabled, r.v1, r.v2)
  }

  /** `saveEntries`, entry by entry. */
  function Save(m: Model, n: nat, db: Db): Model
    requires n <= |m.list|
  {
    if n == 0 then m else
    var p := Save(m, n - 1, db);
    if n - 1 < |p.list| && Saves(p.list[n - 1], db) then
      var r := p.list[n - 1];
      Model(p.list[n - 1 := r.(dirty := false)], p.table[r.name := Written(r, p.table)])
    else p
  }

  function SaveAll(m: Model, db: Db): Model {
    Save(m, |m.list|, db)
  }

  /** Positions become the indices. */
  function Renumber(list: seq<Resolver>): seq<Resolver> {
    seq(|list|, i requires 0 <= i < |list| => list[i].SetPosition(i))
  }

  function MaxPosition(list: seq<Resolver>): int {
    if list == [] then 0 else Max(MaxPosition(list[..|list| - 1]), list[|list| - 1].position)
  }

  datatype Op =
    | Prepend(r: Resolver) | Append(r: Resolver)
    | MoveUp(idx: nat) | MoveDown(idx: nat)
    | Toggle(idx: nat) | Delete(idx: nat)

  /** What the callers guarantee: new entries are fresh objects, and the buttons for moving
      down and deleting are enabled only for a row that allows it. */
  predicate Allowed(m: Model, op: Op) {
    match op
    case Prepend(r) => FreshResolver(r)
    case Append(r) => FreshResolver(r)
    case MoveDown(idx) => idx < |m.list| ==> idx + 1 < |m.list|
    case Delete(idx) => idx < |m.list|
    case _ => true
  }

  predicate FreshResolver(r: Resolver) {
    r.dirty && r.position == 0 && (r.kind == AddressBook ==> r.v1 == "" && r.v2 == "")
  }

  function Swap(list: seq<Resolver>, i: nat, j: nat): seq<Resolver>
    requires i < |list| && j < |list|
  {
    list[i := list[j]][j := list[i]]
  }

  function Apply(m: Model, op: Op, db: Db): Model {
    match op
    case Prepend(r) =>
      if HasEntry(m.list, r.name) then m else SaveAll(m.(list := Renumber([r] + m.list)), db)
    case Append(r) =>
      if HasEntry(m.list, r.name) then m
      else SaveAll(m.(list := m.list + [r.SetPosition(MaxPosition(m.list))]), db)
    case MoveUp(idx) =>
      if 0 < idx < |m.list| then SaveAll(m.(list := Renumber(Swap(m.list, idx - 1, idx))), db) else m
    case MoveDown(idx) =>
      if idx + 1 < |m.list| then SaveAll(m.(list := Renumber(Swap(m.list, idx, idx + 1))), db) else m
    case Toggle(idx) =>
      if idx < |m.list| then SaveAll(m.(list := m.list[idx := m.list[idx].Enable(!m.list[idx].enabled)]), db) else m
    case Delete(idx) =>
      if idx < |m.list| && db.ok && m.list[idx].name !in db.fails then
        Model(Without(m.list, idx), m.table - {m.list[idx].name})
      else m
  }

  // ----- The invariant -----

  ghost predicate Distinct(list: seq<Resolver>) {
    forall i, j :: 0 <= i < j < |list| ==> list[i].name != list[j].name
  }

  ghost predicate Sorted(list: seq<Resolver>) {
    forall i, j :: 0 <= i < j < |list| ==> list[i].position <= list[j].position
  }

  /** A clean, available resolver has its row; a book has no texts, in the list or the table. */
  ghost predicate Mirrored(r: Resolver, table: map<string, Row>) {
    && (!r.dirty && r.available ==> r.name in table && table[r.name] == r.ToRow())
    && (r.kind == AddressBook ==>
          r.v1 == "" && r.v2 == "" && (r.name in table ==> table[r.name].v1 == "" && table[r.name].v2 == ""))
  }

  ghost predicate Mirrors(m: Model) {
    && Distinct(m.list)
    && (forall i :: 0 <= i < |m.list| ==> Mirrored(m.list[i], m.table))
    && (forall name :: name in m.table ==> HasEntry(m.list, name))
  }

  /** Positions start at zero or later and never decrease. */
  ghost predicate Ordered(list: seq<Resolver>) {
    Sorted(list) && forall i :: 0 <= i < |list| ==> list[i].position >= 0
  }

  ghost predicate Inv(m: Model) {
    Mirrors(m) && Ordered(m.list)
  }

  /** Saving any prefix keeps the mirror, whatever transactions fail. */
  lemma {:induction false} SaveKeepsMirror(m: Model, n: nat, db: Db)
    requires Mirrors(m) && n <= |m.list|
    ensures Mirrors(Save(m, n, db)) && |Save(m, n, db).list| == |m.list|
  {
    if n != 0 {
      SaveKeepsMirror(m, n - 1, db);
      var p := Save(m, n - 1, db);
      OneRowSaved(p, n - 1);
    }
  }

  /** A save touches nothing but the dirty marks, and leaves marked exactly those entries
      that it did not get to or could not write. */
  lemma {:induction false} SaveMarks(m: Model, n: nat, db: Db)
    requires n <= |m.list|
    ensures var p := Save(m, n, db).list;
            |p| == |m.list| && forall i :: 0 <= i < |p| ==>
              p[i] == if i < n && Saves(m.list[i], db) then m.list[i].(dirty := false) else m.list[i]
  {
    if n != 0 {
      SaveMarks(m, n - 1, db);
    }
  }

  /** What a complete save leaves: an entry that was marked is clean and its row has its place
      and its flag, unless the database was closed or its transaction failed; then, and for
      an entry that was clean, entry and row are as before. */
  lemma SaveReaches(m: Model, db: Db, i: nat)
    requires Distinct(m.list) && i < |m.list|
    ensures var r, t := m.list[i], SaveAll(m, db);
            && |t.list| == |m.list|
            && (r.dirty && db.ok && r.name !in db.fails ==>
                  && t.list[i] == r.(dirty := false) && r.name in t.table
                  && t.table[r.name].position == r.position && t.table[r.name].enabled == r.enabled)
            && (!(r.dirty && db.ok && r.name !in db.fails) ==>
                  && t.list[i] == r && (r.name in t.table <==> r.name in m.table)
                  && (r.name in m.table ==> t.table[r.name] == m.table[r.name]))
  {
    SaveMarks(m, |m.list|, db);
    SaveReachesRow(m, |m.list|, db, i);
  }

  lemma {:induction false} SaveReachesRow(m: Model, n: nat, db: Db, i: nat)
    requires Distinct(m.list) && i < |m.list| && n <= |m.list|
    ensures var r, t := m.list[i], Save(m, n, db).table;
            && (i < n && Saves(r, db) ==>
                  r.name in t && t[r.name].position == r.position && t[r.name].enabled == r.enabled)
            && (!(i < n && Saves(r, db)) ==>
                  && (r.name in t <==> r.name in m.table)
                  && (r.name in m.table ==> t[r.name] == m.table[r.name]))
  {
    if n != 0 {
      SaveReachesRow(m, n - 1, db, i);
      SaveMarks(m, n - 1, db);
    }
  }

  /** The text columns of a row survive the saves of address books under its name. */
  lemma {:induction false} BooksKeepColumns(m: Model, n: nat, db: Db, name: string)
    requires n <= |m.list| && name in m.table
    requires forall i :: 0 <= i < |m.list| && m.list[i].name == name ==> m.list[i].kind == AddressBook
    ensures var t := Save(m, n, db).table;
            name in t && t[name].v1 == m.table[name].v1 && t[name].v2 == m.table[name].v2
  {
    if n != 0 {
      BooksKeepColumns(m, n - 1, db, name);
      SaveMarks(m, n - 1, db);
    }
  }

  lemma OneRowSaved(p: Model, i: nat)
    requires Mirrors(p) && i < |p.list|
    ensures var r := p.list[i];
            Mirrors(Model(p.list[i := r.(dirty := false)], p.table[r.name := Written(r, p.table)]))
  {
    var r := p.list[i];
    var q := Model(p.list[i := r.(dirty := false)], p.table[r.name := Written(r, p.table)]);
    forall j | 0 <= j < |q.list| ensures Mirrored(q.list[j], q.table) {
      assert Mirrored(p.list[j], p.table);
    }
    forall name | name in q.table ensures HasEntry(q.list, name) {
      if name == r.name {
        assert q.list[i].name == name;
      } else {
        var j :| 0 <= j < |p.list| && p.list[j].name == name;
        assert q.list[j].name == name;
      }
    }
  }

  lemma SaveAllKeepsInv(m: Model, db: Db)
    requires Inv(m)
    ensures Inv(SaveAll(m, db))
  {
    SaveKeepsMirror(m, |m.list|, db);
    SaveMarks(m, |m.list|, db);
  }

  /** The mirror survives a change of the list that keeps the names and marks each entry
      that no longer equals its row. */
  ghost predicate Relisted(a: seq<Resolver>, b: seq<Resolver>) {
    && Distinct(b)
    && (forall i :: 0 <= i < |b| ==> From(a, b[i]))
    && (forall i :: 0 <= i < |a| ==> HasEntry(b, a[i].name))
  }

  /** Entry r comes from an entry of `a`, unchanged or marked, or is fresh and unknown to `a`. */
  ghost predicate From(a: seq<Resolver>, r: Resolver) {
    || (exists i :: 0 <= i < |a| && a[i].name == r.name && a[i].kind == r.kind && a[i].v1 == r.v1 && a[i].v2 == r.v2
                 && a[i].available == r.available && (r.dirty || r == a[i]))
    || (r.dirty && !HasEntry(a, r.name) && (r.kind == AddressBook ==> r.v1 == "" && r.v2 == ""))
  }

  lemma RelistedKeepsMirror(m: Model, list: seq<Resolver>)
    requires Mirrors(m) && Relisted(m.list, list)
    ensures Mirrors(m.(list := list))
  {
    forall i | 0 <= i < |list| ensures Mirrored(list[i], m.table) {
      var r := list[i];
      if k :| 0 <= k < |m.list| && m.list[k].name == r.name && m.list[k].kind == r.kind && m.list[k].v1 == r.v1
              && m.list[k].v2 == r.v2 && m.list[k].available == r.available && (r.dirty || r == m.list[k]) {
        assert Mirrored(m.list[k], m.table);
      } else {
        assert From(m.list, r) && r.name !in m.table;
      }
    }
    forall name | name in m.table ensures HasEntry(list, name) {
      var k :| 0 <= k < |m.list| && m.list[k].name == name;
    }
  }

  lemma RenumberRelists(a: seq<Resolver>, b: seq<Resolver>)
    requires Relisted(a, b)
    ensures Relisted(a, Renumber(b)) && Ordered(Renumber(b))
    ensures forall i :: 0 <= i < |b| ==> Renumber(b)[i].position == i
  {
    var c := Renumber(b);
    forall i | 0 <= i < |c| ensures From(a, c[i]) {
      assert From(a, b[i]);
    }
    forall i | 0 <= i < |a| ensures HasEntry(c, a[i].name) {
      assert HasEntry(b, a[i].name);
      var j :| 0 <= j < |b| && b[j].name == a[i].name;
      assert c[j].name == a[i].name;
    }
  }

  lemma SwapRelists(a: seq<Resolver>, i: nat, j: nat)
    requires Distinct(a) && i < |a| && j < |a|
    ensures Relisted(a, Swap(a, i, j))
  {
    var b := Swap(a, i, j);
    forall k | 0 <= k < |b| ensures From(a, b[k]) {
      var src := if k == i then j else if k == j then i else k;
      assert a[src] == b[k];
    }
    forall k | 0 <= k < |a| ensures HasEntry(b, a[k].name) {
      var dst := if k == i then j else if k == j then i else k;
      assert b[dst] == a[k];
    }
  }

  lemma {:induction false} MaxPositionBounds(list: seq<Resolver>)
    requires Ordered(list)
    ensures MaxPosition(list) == if list == [] then 0 else list[|list| - 1].position
  {
    if list != [] {
      MaxPositionBounds(list[..|list| - 1]);
    }
  }

  lemma PrependRelists(a: seq<Resolver>, r: Resolver)
    requires Distinct(a) && !HasEntry(a, r.name) && FreshResolver(r)
    ensures Relisted(a, [r] + a)
  {
    var list := [r] + a;
    forall i | 0 <= i < |a| ensures HasEntry(list, a[i].name) {
      assert list[i + 1] == a[i];
    }
    forall i | 0 <= i < |list| ensures From(a, list[i]) {
      if i > 0 {
        assert a[i - 1] == list[i];
      }
    }
  }

  lemma PrependKeepsInv(m: Model, r: Resolver, db: Db)
    requires Inv(m) && FreshResolver(r)
    ensures Inv(Apply(m, Prepend(r), db))
  {
    if !HasEntry(m.list, r.name) {
      PrependRelists(m.list, r);
      RenumberRelists(m.list, [r] + m.list);
      RelistedAndSaved(m, Renumber([r] + m.list), db);
    }
  }

  lemma AppendRelists(a: seq<Resolver>, r: Resolver)
    requires Distinct(a) && !HasEntry(a, r.name) && r.dirty && (r.kind == AddressBook ==> r.v1 == "" && r.v2 == "")
    ensures Relisted(a, a + [r])
  {
    var list := a + [r];
    forall i | 0 <= i < |a| ensures HasEntry(list, a[i].name) {
      assert list[i] == a[i];
    }
    forall i | 0 <= i < |list| ensures From(a, list[i]) {
      if i < |a| {
        assert a[i] == list[i];
      }
    }
  }

  /** A new list that keeps the mirror and is in order makes a valid model, saved or not. */
  lemma RelistedAndSaved(m: Model, list: seq<Resolver>, db: Db)
    requires Inv(m) && Relisted(m.list, list) && Ordered(list)
    ensures Inv(SaveAll(m.(list := list), db))
  {
    RelistedKeepsMirror(m, list);
    SaveAllKeepsInv(m.(list := list), db);
  }

  lemma AppendKeepsInv(m: Model, r: Resolver, db: Db)
    requires Inv(m) && FreshResolver(r)
    ensures Inv(Apply(m, Append(r), db))
  {
    if !HasEntry(m.list, r.name) {
      MaxPositionBounds(m.list);
      var placed := r.SetPosition(MaxPosition(m.list));
      AppendRelists(m.list, placed);
      AppendOrdered(m.list, placed);
      RelistedAndSaved(m, m.list + [placed], db);
    }
  }

  lemma AppendOrdered(a: seq<Resolver>, r: Resolver)
    requires Ordered(a) && r.position == if a == [] then 0 else a[|a| - 1].position
    ensures Ordered(a + [r])
  {
  }

  lemma MoveKeepsInv(m: Model, i: nat, j: nat, db: Db)
    requires Inv(m) && i < |m.list| && j < |m.list|
    ensures Inv(SaveAll(m.(list := Renumber(Swap(m.list, i, j))), db))
  {
    SwapRelists(m.list, i, j);
    RenumberRelists(m.list, Swap(m.list, i, j));
    RelistedAndSaved(m, Renumber(Swap(m.list, i, j)), db);
  }

  lemma ToggleRelists(a: seq<Resolver>, idx: nat)
    requires Distinct(a) && idx < |a|
    ensures Relisted(a, a[idx := a[idx].Enable(!a[idx].enabled)])
    ensures Ordered(a) ==> Ordered(a[idx := a[idx].Enable(!a[idx].enabled)])
  {
    var list := a[idx := a[idx].Enable(!a[idx].enabled)];
    forall i | 0 <= i < |list| ensures From(a, list[i]) && HasEntry(list, a[i].name) {
      assert a[i].name == list[i].name;
    }
  }

  lemma ToggleKeepsInv(m: Model, idx: nat, db: Db)
    requires Inv(m) && idx < |m.list|
    ensures Inv(Apply(m, Toggle(idx), db))
  {
    var list := m.list[idx := m.list[idx].Enable(!m.list[idx].enabled)];
    ToggleRelists(m.list, idx);
    RelistedAndSaved(m, list, db);
  }

  function Without(list: seq<Resolver>, idx: nat): seq<Resolver>
    requires idx < |list|
  {
    list[..idx] + list[idx + 1..]
  }

  lemma WithoutEntries(list: seq<Resolver>, idx: nat)
    requires Distinct(list) && idx < |list|
    ensures Distinct(Without(list, idx)) && (Sorted(list) ==> Sorted(Without(list, idx)))
    ensures forall r :: r in Without(list, idx) <==> r in list && r.name != list[idx].name
  {
    var rest := Without(list, idx);
    assert forall i :: 0 <= i < |rest| ==> rest[i] == list[if i < idx then i else i + 1];
    forall r | r in list && r.name != list[idx].name ensures r in rest {
      var k :| 0 <= k < |list| && list[k] == r;
      assert rest[if k < idx then k else k - 1] == r;
    }
  }

  lemma DeleteKeepsInv(m: Model, idx: nat, db: Db)
    requires Inv(m) && idx < |m.list|
    ensures Inv(Apply(m, Delete(idx), db))
  {
    if db.ok && m.list[idx].name !in db.fails {
      var gone := m.list[idx].name;
      var list, table := Without(m.list, idx), m.table - {gone};
      WithoutEntries(m.list, idx);
      forall r | r in list ensures Mirrored(r, table) && r.position >= 0 {
        assert Mirrored(r, m.table);
      }
      forall name | name in table ensures HasEntry(list, name) {
        var k :| 0 <= k < |m.list| && m.list[k].name == name;
        assert m.list[k] in list;
      }
      assert Inv(Model(list, table));
    }
  }

  lemma ApplyKeepsInv(m: Model, op: Op, db: Db)
    requires Inv(m) && Allowed(m, op)
    ensures Inv(Apply(m, op, db))
  {
    match op
    case Prepend(r) => PrependKeepsInv(m, r, db);
    case Append(r) => AppendKeepsInv(m, r, db);
    case MoveUp(idx) => if 0 < idx < |m.list| { MoveKeepsInv(m, idx - 1, idx, db); }
    case MoveDown(idx) => if idx + 1 < |m.list| { MoveKeepsInv(m, idx, idx + 1, db); }
    case Toggle(idx) => if idx < |m.list| { ToggleKeepsInv(m, idx, db); }
    case Delete(idx) => if idx < |m.list| { DeleteKeepsInv(m, idx, db); }
  }

  datatype Timed = Timed(op: Op, db: Db)

  ghost predicate Leads(m: Model, ops: seq<Timed>, t: Model)
    decreases |ops|
  {
    if ops == [] then m == t
    else Allowed(m, ops[0].op) && Leads(Apply(m, ops[0].op, ops[0].db), ops[1..], t)
  }

  /** Across any sequence of operations with arbitrary failures of single transactions: every
      clean, available resolver has a row equal to it, every row belongs to a resolver in the
      list, names are distinct and positions never decrease along the list. */
  lemma {:induction false} RunsKeepInv(m: Model, ops: seq<Timed>, t: Model)
    requires Inv(m) && Leads(m, ops, t)
    ensures Inv(t)
    decreases |ops|
  {
    if ops != [] {
      ApplyKeepsInv(m, ops[0].op, ops[0].db);
      RunsKeepInv(Apply(m, ops[0].op, ops[0].db), ops[1..], t);
    }
  }

  // ----- Reloading -----

  /** The resolver that `loadResolvers` builds from a row; a book that is not loaded comes up
      disabled. */
  function Loaded(name: string, row: Row, books: set<string>): Resolver {
    var available := row.kind == OnlineRegex || name in books;
    Resolver(name, row.kind, row.position, row.enabled && available, false, row.v1, row.v2, available)
  }

  /** A list that the query `order by pos` may deliver: one entry per row, sorted, with ties in
      any order. */
  ghost predicate IsLoad(table: map<string, Row>, books: set<string>, list: seq<Resolver>) {
    && Distinct(list) && Sorted(list)
    && (forall i :: 0 <= i < |list| ==>
          list[i].name in table && list[i] == Loaded(list[i].name, table[list[i].name], books))
    && (forall name :: name in table ==> HasEntry(list, name))
  }

  /** A loaded entry has what its row says, but is enabled only if it can be asked at all. */
  lemma LoadedMeans(table: map<string, Row>, books: set<string>, list: seq<Resolver>, i: nat)
    requires IsLoad(table, books, list) && i < |list|
    ensures var r := list[i];
            && r.name in table && !r.dirty && r.position == table[r.name].position && r.kind == table[r.name].kind
            && (r.enabled <==> table[r.name].enabled && (r.kind == AddressBook ==> r.name in books))
  {
  }

  /** Whatever the order of ties, a load of a table that mirrors nothing else is itself a
      valid model. */
  lemma LoadKeepsInv(table: map<string, Row>, books: set<string>, list: seq<Resolver>)
    requires IsLoad(table, books, list)
    requires forall name :: name in table ==> table[name].position >= 0
    requires forall name :: name in table && table[name].kind == AddressBook ==>
               table[name].v1 == "" && table[name].v2 == ""
    ensures Inv(Model(list, table))
  {
  }

  /** Everything has been written, and every source is there to be loaded again. */
  ghost predicate Settled(m: Model, books: set<string>) {
    forall i :: 0 <= i < |m.list| ==>
      !m.list[i].dirty && m.list[i].available && (m.list[i].kind == AddressBook ==> m.list[i].name in books)
  }

  lemma LoadedEqualsEntry(m: Model, books: set<string>, i: nat)
    requires Inv(m) && Settled(m, books) && i < |m.list|
    ensures m.list[i].name in m.table && Loaded(m.list[i].name, m.table[m.list[i].name], books) == m.list[i]
  {
    assert Mirrored(m.list[i], m.table);
  }

  /** The list itself is one of the possible loads of its table. */
  lemma ListIsALoad(m: Model, books: set<string>)
    requires Inv(m) && Settled(m, books)
    ensures IsLoad(m.table, books, m.list)
  {
    forall i | 0 <= i < |m.list|
      ensures m.list[i].name in m.table && m.list[i] == Loaded(m.list[i].name, m.table[m.list[i].name], books)
    {
      LoadedEqualsEntry(m, books, i);
    }
  }

  /** Two loads hold the same entries. */
  lemma LoadsHaveSameEntries(table: map<string, Row>, books: set<string>, a: seq<Resolver>, b: seq<Resolver>)
    requires IsLoad(table, books, a) && IsLoad(table, books, b)
    ensures forall i :: 0 <= i < |a| ==> a[i] in b
    ensures multiset(a) == multiset(b)
  {
    forall i | 0 <= i < |a| ensures a[i] in b {
      assert HasEntry(b, a[i].name);
      var j :| 0 <= j < |b| && b[j].name == a[i].name;
      assert b[j] == a[i];
    }
    forall i | 0 <= i < |b| ensures b[i] in a {
      assert HasEntry(a, b[i].name);
      var j :| 0 <= j < |a| && a[j].name == b[i].name;
      assert a[j] == b[i];
    }
    DistinctMultiset(a);
    DistinctMultiset(b);
    forall r: Resolver ensures multiset(a)[r] == multiset(b)[r] {
      assert r in a <==> r in multiset(a);
      assert r in b <==> r in multiset(b);
    }
  }

  lemma {:induction false} DistinctMultiset(a: seq<Resolver>)
    requires Distinct(a)
    ensures forall r :: r in multiset(a) ==> multiset(a)[r] == 1
  {
    if a != [] {
      var n := |a| - 1;
      DistinctMultiset(a[..n]);
      assert a == a[..n] + [a[n]];
      assert a[n] !in a[..n];
      assert a[n] !in multiset(a[..n]);
    }
  }

  lemma RemoveOne(a: seq<Resolver>, j: nat)
    requires j < |a|
    ensures multiset(Without(a, j)) == multiset(a) - multiset{a[j]}
  {
    assert a == a[..j] + [a[j]] + a[j + 1..];
  }

  /** Taking out an entry of the highest position leaves the other positions in place. */
  lemma WithoutHighest(a: seq<Resolver>, j: nat)
    requires Sorted(a) && j < |a| && a[j].position == a[|a| - 1].position
    ensures var rest := Without(a, j);
            |rest| == |a| - 1 && Sorted(rest) && forall i :: 0 <= i < |rest| ==> rest[i].position == a[i].position
  {
    var rest := Without(a, j);
    assert forall i :: 0 <= i < |rest| ==> rest[i] == a[if i < j then i else i + 1];
    assert forall i :: j <= i < |a| ==> a[i].position == a[j].position;
  }

  lemma HighestIsShared(a: seq<Resolver>, b: seq<Resolver>) returns (j: nat)
    requires Sorted(a) && Sorted(b) && multiset(a) == multiset(b) && a != [] && b != []
    ensures j < |b| && b[j] == a[|a| - 1] && a[|a| - 1].position == b[|b| - 1].position
  {
    assert a[|a| - 1] in multiset(b) && b[|b| - 1] in multiset(a);
    j :| 0 <= j < |b| && b[j] == a[|a| - 1];
    var i :| 0 <= i < |a| && a[i] == b[|b| - 1];
    assert a[i].position <= a[|a| - 1].position && b[j].position <= b[|b| - 1].position;
  }

  /** Sorted lists with the same entries agree on every position. */
  lemma {:induction false} SamePositions(a: seq<Resolver>, b: seq<Resolver>)
    requires Sorted(a) && Sorted(b) && multiset(a) == multiset(b)
    ensures |a| == |b| && forall i :: 0 <= i < |a| ==> a[i].position == b[i].position
    decreases |a|
  {
    SameSize(a, b);
    if a != [] {
      var n := |a| - 1;
      var j := HighestIsShared(a, b);
      RemoveOne(a, n);
      RemoveOne(b, j);
      WithoutHighest(a, n);
      WithoutHighest(b, j);
      SamePositions(Without(a, n), Without(b, j));
      PositionsExtend(a, b, Without(a, n), Without(b, j));
    }
  }

  lemma SameSize(a: seq<Resolver>, b: seq<Resolver>)
    requires multiset(a) == multiset(b)
    ensures |a| == |b|
  {
    assert |multiset(a)| == |a| && |multiset(b)| == |b|;
  }

  lemma PositionsExtend(a: seq<Resolver>, b: seq<Resolver>, a': seq<Resolver>, b': seq<Resolver>)
    requires |a| == |b| > 0 && |a'| == |b'| == |a| - 1 && a[|a| - 1].position == b[|a| - 1].position
    requires forall i :: 0 <= i < |a'| ==> a'[i].position == a[i].position
    requires forall i :: 0 <= i < |b'| ==> b'[i].position == b[i].position
    requires forall i :: 0 <= i < |a'| ==> a'[i].position == b'[i].position
    ensures forall i :: 0 <= i < |a| ==> a[i].position == b[i].position
  {
    forall i | 0 <= i < |a| ensures a[i].position == b[i].position {
      if i < |a'| {
        assert a'[i].position == b'[i].position;
      }
    }
  }

  ghost predicate StrictlySorted(list: seq<Resolver>) {
    forall i, j :: 0 <= i < j < |list| ==> list[i].position < list[j].position
  }

  /** After complete saves, any reload holds the same entries with the same positions in the
      same order: only entries of equal position can change places. */
  lemma ReloadUpToTies(m: Model, books: set<string>, list: seq<Resolver>)
    requires Inv(m) && Settled(m, books) && IsLoad(m.table, books, list)
    ensures multiset(list) == multiset(m.list)
    ensures |list| == |m.list| && forall i :: 0 <= i < |list| ==> list[i].position == m.list[i].position
  {
    ListIsALoad(m, books);
    LoadsHaveSameEntries(m.table, books, list, m.list);
    SamePositions(list, m.list);
  }

  lemma StrictPositionsDecide(a: seq<Resolver>, b: seq<Resolver>)
    requires StrictlySorted(b) && |a| == |b| && (forall i :: 0 <= i < |a| ==> a[i] in b)
    requires forall i :: 0 <= i < |a| ==> a[i].position == b[i].position
    ensures a == b
  {
    forall i | 0 <= i < |a| ensures a[i] == b[i] {
      var k :| 0 <= k < |b| && b[k] == a[i];
      assert b[k].position == b[i].position;
    }
  }

  lemma NoTiesMeansExact(m: Model, books: set<string>, list: seq<Resolver>)
    requires Inv(m) && Settled(m, books) && IsLoad(m.table, books, list) && StrictlySorted(m.list)
    ensures list == m.list
  {
    ListIsALoad(m, books);
    LoadsHaveSameEntries(m.table, books, list, m.list);
    SamePositions(list, m.list);
    StrictPositionsDecide(list, m.list);
  }

  lemma SwapTie(list: seq<Resolver>, i: nat)
    requires Distinct(list) && Sorted(list) && i + 1 < |list| && list[i].position == list[i + 1].position
    ensures var swapped := Swap(list, i, i + 1);
            && Distinct(swapped) && Sorted(swapped) && swapped != list
            && (forall r :: r in list <==> r in swapped)
  {
    var swapped := Swap(list, i, i + 1);
    assert list[i].name != list[i + 1].name;
    assert forall k :: 0 <= k < |list| ==> swapped[k] == list[if k == i then i + 1 else if k == i + 1 then i else k];
    assert forall k :: 0 <= k < |list| ==> list[k] == swapped[if k == i then i + 1 else if k == i + 1 then i else k];
  }

  lemma TieCanSwap(m: Model, books: set<string>, i: nat)
    requires Inv(m) && Settled(m, books) && i + 1 < |m.list| && m.list[i].position == m.list[i + 1].position
    ensures IsLoad(m.table, books, Swap(m.list, i, i + 1)) && Swap(m.list, i, i + 1) != m.list
  {
    ListIsALoad(m, books);
    SwapTie(m.list, i);
    LoadOfSameEntries(m.table, books, m.list, Swap(m.list, i, i + 1));
  }

  lemma LoadOfSameEntries(table: map<string, Row>, books: set<string>, a: seq<Resolver>, b: seq<Resolver>)
    requires IsLoad(table, books, a) && Distinct(b) && Sorted(b) && forall r :: r in a <==> r in b
    ensures IsLoad(table, books, b)
  {
    forall i | 0 <= i < |b| ensures b[i].name in table && b[i] == Loaded(b[i].name, table[b[i].name], books) {
      assert b[i] in a;
    }
    forall name | name in table ensures HasEntry(b, name) {
      var k :| 0 <= k < |a| && a[k].name == name;
      assert a[k] in b;
    }
  }

  lemma TieIsAdjacent(list: seq<Resolver>) returns (i: nat)
    requires Sorted(list) && !StrictlySorted(list)
    ensures i + 1 < |list| && list[i].position == list[i + 1].position
  {
    var k, j :| 0 <= k < j < |list| && list[k].position >= list[j].position;
    i := k;
    assert list[i].position <= list[i + 1].position <= list[j].position;
  }

  /** A reload is sure to restore the list itself if and only if no two positions are equal. */
  lemma ReloadExactIffNoTies(m: Model, books: set<string>)
    requires Inv(m) && Settled(m, books)
    ensures (forall list :: IsLoad(m.table, books, list) ==> list == m.list) <==> StrictlySorted(m.list)
  {
    if StrictlySorted(m.list) {
      forall list | IsLoad(m.table, books, list) ensures list == m.list {
        NoTiesMeansExact(m, books, list);
      }
    } else {
      var i := TieIsAdjacent(m.list);
      TieCanSwap(m, books, i);
    }
  }

  /** Appending is what creates ties: the new entry shares the position of the last one. The
      other ordering operations remove them all. */
  lemma AppendTies(m: Model, r: Resolver, db: Db)
    requires Inv(m) && FreshResolver(r) && m.list != [] && !HasEntry(m.list, r.name)
    ensures var t := Apply(m, Append(r), db).list;
            |t| == |m.list| + 1 && t[|t| - 1].position == t[|t| - 2].position && !StrictlySorted(t)
  {
    MaxPositionBounds(m.list);
    var list := m.list + [r.SetPosition(MaxPosition(m.list))];
    SaveMarks(m.(list := list), |list|, db);
  }

  lemma ReorderingRemovesTies(m: Model, op: Op, db: Db)
    requires Inv(m) && Allowed(m, op)
    requires match op
             case Prepend(r) => !HasEntry(m.list, r.name)
             case MoveUp(idx) => 0 < idx < |m.list|
             case MoveDown(idx) => idx + 1 < |m.list|
             case _ => false
    ensures StrictlySorted(Apply(m, op, db).list)
  {
    var list := match op
      case Prepend(r) => [r] + m.list
      case MoveUp(idx) => Swap(m.list, idx - 1, idx)
      case MoveDown(idx) => Swap(m.list, idx, idx + 1)
      case _ => m.list;
    SaveMarks(m.(list := Renumber(list)), |list|, db);
  }

  // ----- The objects -----

  class ResolverObject {
    var name: string
    const kind: Kind
    var position: int
    var enabled: bool
    var dirty: bool
    var v1: string
    var v2: string
    const available: bool

    function Val(): Resolver
      reads this
    {
      Resolver(name, kind, position, enabled, dirty, v1, v2, available)
    }

    constructor (name: string, kind: Kind, v1: string, v2: string, available: bool)
      ensures Val() == Resolver(name, kind, 0, false, true, v1, v2, available)
    {
      this.name, this.kind, this.v1, this.v2, this.available := name, kind, v1, v2, available;
      position, enabled, dirty := 0, false, true;
    }

    method Enable(val: bool)
      modifies this
      ensures Val() == old(Val()).Enable(val)
    {
      dirty := dirty || enabled != val;
      enabled := val;
    }

    method SetPosition(val: int)
      modifies this
      ensures Val() == old(Val()).SetPosition(val)
    {
      dirty := dirty || position != val;
      position := val;
    }
  }

  function Vals(list: seq<ResolverObject>): (vals: seq<Resolver>)
    reads list
  {
    seq(|list|, i requires 0 <= i < |list| reads list => list[i].Val())
  }

  class ResolverModel {
    var list: seq<ResolverObject>
    var table: map<string, Row>

    ghost predicate Valid()
      reads this
    {
      forall i, j :: 0 <= i < j < |list| ==> list[i] != list[j]
    }

    function Val(): Model
      reads this, list
    {
      Model(Vals(list), table)
    }

    constructor ()
      ensures Valid() && Val() == Model([], map[])
    {
      list, table := [], map[];
    }

    method HasName(name: string) returns (found: bool)
      ensures found <==> HasEntry(Vals(list), name)
    {
      found := false;
      for i := 0 to |list|
        invariant forall j :: 0 <= j < i ==> list[j].name != name
      {
        if list[i].name == name {
          assert Vals(list)[i].name == name;
          return true;
        }
      }
    }

    method DoSave(db: Db)
      requires Valid()
      modifies this`table, list
      ensures Valid() && Val() == SaveAll(old(Val()), db)
    {
      if !db.ok {
        SaveClosed(Val(), |list|, db);
        return;
      }
      ghost var was := Val();
      for i := 0 to |list|
        invariant Val() == Save(was, i, db)
      {
        SaveOne(list[i], i, db.fails);
        SaveUnfold(was, i, db);
      }
    }

    method SaveOne(r: ResolverObject, i: nat, fails: set<string>)
      requires Valid() && i < |list| && list[i] == r
      modifies this`table, r
      ensures Valid()
      ensures var p := old(Val());
              Val() == if p.list[i].dirty && p.list[i].name !in fails
                       then Model(p.list[i := p.list[i].(dirty := false)],
                                  p.table[p.list[i].name := Written(p.list[i], p.table)])
                       else p
    {
      ghost var p := Val();
      if r.dirty {
        if r.name !in fails {
          SaveRow(r);
          r.dirty := false;
          assert Vals(list) == p.list[i := p.list[i].(dirty := false)];
        }
      }
    }

    /** The transaction of one entry, when it commits. */
    method SaveRow(r: ResolverObject)
      modifies this`table
      ensures table == old(table)[r.name := Written(r.Val(), old(table))]
    {
      if r.name !in table {
        if r.kind == AddressBook {
          table := table[r.name := Row(r.kind, r.position, r.enabled, "", "")];
        } else {
          table := table[r.name := Row(r.kind, r.position, r.enabled, r.v1, r.v2)];
        }
      } else {
        var row := table[r.name].(kind := r.kind, position := r.position, enabled := r.enabled);
        if r.kind == OnlineRegex {
          row := row.(v1 := r.v1, v2 := r.v2);
        }
        table := table[r.name := row];
      }
    }

    method DoRenumber()
      requires Valid()
      modifies list
      ensures Vals(list) == Renumber(old(Vals(list)))
    {
      ghost var was := Vals(list);
      for pos := 0 to |list|
        invariant forall k :: 0 <= k < pos ==> list[k].Val() == was[k].SetPosition(k)
        invariant forall k :: pos <= k < |list| ==> list[k].Val() == was[k]
      {
        list[pos].SetPosition(pos);
      }
    }

    method PrependEntry(r: ResolverObject, db: Db) returns (added: bool)
      requires Valid() && r !in list
      modifies this, list, r
      ensures Valid() && Val() == Apply(old(Val()), Prepend(old(r.Val())), db)
      ensures added <==> !HasEntry(old(Val()).list, old(r.name))
    {
      var known := HasName(r.name);
      if known {
        return false;
      }
      ghost var was := Val();
      list := [r] + list;
      assert Vals(list) == [r.Val()] + was.list;
      DoRenumber();
      DoSave(db);
      added := true;
    }

    method AppendEntry(r: ResolverObject, db: Db) returns (added: bool)
      requires Valid() && r !in list
      modifies this, list, r
      ensures Valid() && Val() == Apply(old(Val()), Append(old(r.Val())), db)
      ensures added <==> !HasEntry(old(Val()).list, old(r.name))
    {
      var known := HasName(r.name);
      if known {
        return false;
      }
      ghost var was := Val();
      var pos := 0;
      for i := 0 to |list|
        invariant pos == MaxPosition(was.list[..i])
      {
        assert was.list[..i + 1][..i] == was.list[..i];
        if list[i].position > pos {
          pos := list[i].position;
        }
      }
      assert was.list[..|list|] == was.list;
      r.SetPosition(pos);
      list := list + [r];
      assert Vals(list) == was.list + [r.Val()];
      DoSave(db);
      added := true;
    }

    /** The entry is inserted before its predecessor and then erased from its old place. */
    method DoMoveUp(idx: nat, db: Db) returns (moved: bool)
      requires Valid()
      modifies this, list
      ensures Valid() && Val() == Apply(old(Val()), MoveUp(idx), db)
      ensures moved <==> 0 < idx < |old(list)|
    {
      moved := false;
      if idx < |list| {
        if idx != 0 {
          ghost var was := list;
          var newpos := idx - 1;
          list := list[..newpos] + [list[idx]] + list[newpos..];
          list := list[..idx + 1] + list[idx + 2..];
          assert list == was[newpos := was[idx]][idx := was[newpos]];
          assert Vals(list) == Swap(old(Vals(list)), idx - 1, idx);
          DoRenumber();
          DoSave(db);
          moved := true;
        }
      }
    }

    method DoMoveDown(idx: nat, db: Db) returns (moved: bool)
      requires Valid() && (idx < |list| ==> idx + 1 < |list|)
      modifies this, list
      ensures Valid() && Val() == Apply(old(Val()), MoveDown(idx), db)
      ensures moved <==> idx < |old(list)|
    {
      moved := false;
      if idx < |list| {
        ghost var was := list;
        var newpos := idx + 2;
        list := list[..newpos] + [list[idx]] + list[newpos..];
        list := list[..idx] + list[idx + 1..];
        assert list == was[idx := was[idx + 1]][idx + 1 := was[idx]];
        assert Vals(list) == Swap(old(Vals(list)), idx, idx + 1);
        DoRenumber();
        DoSave(db);
        moved := true;
      }
    }

    method DoToggle(idx: nat, db: Db) returns (toggled: bool)
      requires Valid()
      modifies this, list
      ensures Valid() && Val() == Apply(old(Val()), Toggle(idx), db)
      ensures toggled <==> idx < |list|
    {
      toggled := false;
      if idx < |list| {
        ghost var was := Vals(list);
        list[idx].Enable(!list[idx].enabled);
        assert Vals(list) == was[idx := was[idx].Enable(!was[idx].enabled)];
        DoSave(db);
        toggled := true;
      }
    }

    method DoDelete(idx: nat, db: Db) returns (deleted: bool)
      requires Valid() && idx < |list|
      modifies this
      ensures Valid() && Val() == Apply(old(Val()), Delete(idx), db)
      ensures deleted <==> db.ok && old(list[idx].name) !in db.fails
    {
      deleted := false;
      if !db.ok {
        return;
      }
      if list[idx].name !in db.fails {
        ghost var was := Vals(list);
        table := table - {list[idx].name};
        list := list[..idx] + list[idx + 1..];
        assert Vals(list) == Without(was, idx);
        deleted := true;
      }
    }
  }

  lemma SaveUnfold(m: Model, i: nat, db: Db)
    requires i < |m.list|
    ensures var p := Save(m, i, db);
            Save(m, i + 1, db) == if i < |p.list| && Saves(p.list[i], db)
              then Model(p.list[i := p.list[i].(dirty := false)],
                         p.table[p.list[i].name := Written(p.list[i], p.table)])
              else p
  {
  }

  lemma {:induction false} SaveClosed(m: Model, n: nat, db: Db)
    requires n <= |m.list| && !db.ok
    ensures Save(m, n, db) == m
  {
    if n != 0 {
      SaveClosed(m, n - 1, db);
    }
  }
}
