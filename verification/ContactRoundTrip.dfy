/** From the table to the dialog and back: a contact is loaded, edited, saved and listed. */
module ContactRoundTrip {
  import opened Texts
  import opened AddressBook
  import opened ContactDialog

  /** The contact that the unfiltered list query builds for a key; the engine orders the
      phones. */
  ghost predicate Loads(b: Book, key: int, c: Contact) {
    key in b.contacts && c == Contact(key, false, b.contacts[key], c.phones) && LoadsPhones(b, key, c.phones)
  }

  /** A list that the dialog may leave: stored keys are rows of the contact and used once, and
      numbers are trimmed. */
  ghost predicate GoodList(b: Book, key: int, ps: seq<Phone>) {
    OwnsPhones(b, key, ps) && DistinctKeys(ps) && TrimmedNumbers(ps)
  }

  /** A loaded contact owns its keys and is fresh. */
  lemma LoadedIsOwned(b: Book, key: int, c: Contact)
    requires Inv(b) && Loads(b, key, c)
    ensures Owns(b, c) && GoodList(b, key, c.phones) && FreshlyLoaded(c)
  {
    forall i | 0 <= i < |c.phones|
      ensures c.phones[i].key in RowsOf(b, key) && Trimmed(c.phones[i].number) && !c.phones[i].dirty
    {
      assert c.phones[i].key in Keys(c.phones);
      TrimIsTrimmed(b.numbers[c.phones[i].key].canonical);
    }
  }

  lemma EditKeepsGood(b: Book, key: int, ps: seq<Phone>, e: Edit)
    requires GoodList(b, key, ps) && Allowed(ps, e)
    ensures GoodList(b, key, ApplyEdit(ps, e))
  {
    if e.AddItem? {
      TrimIsTrimmed(e.placeholder);
    } else if e.DeleteItem? {
      if e.row < |ps| {
        WithoutRow(b, key, ps, e.row);
      }
    } else {
      EditMarksOrKeeps(ps, e);
    }
  }

  lemma WithoutRow(b: Book, key: int, ps: seq<Phone>, row: nat)
    requires GoodList(b, key, ps) && row < |ps|
    ensures GoodList(b, key, ps[..row] + ps[row + 1..])
  {
    var qs := ps[..row] + ps[row + 1..];
    assert forall i :: 0 <= i < |qs| ==> qs[i] == ps[if i < row then i else i + 1];
  }

  lemma {:induction false} EditsKeepGood(b: Book, key: int, ps: seq<Phone>, edits: seq<Edit>, qs: seq<Phone>)
    requires GoodList(b, key, ps) && Leads(ps, edits, qs)
    ensures GoodList(b, key, qs)
    decreases |edits|
  {
    if edits != [] {
      EditKeepsGood(b, key, ps, edits[0]);
      EditsKeepGood(b, key, ApplyEdit(ps, edits[0]), edits[1..], qs);
    }
  }

  // ----- Lists with the same phones -----

  lemma {:induction false} OnceEach(ps: seq<Phone>)
    requires forall i, j :: 0 <= i < j < |ps| ==> ps[i].key != ps[j].key
    ensures forall p :: multiset(ps)[p] == if p in ps then 1 else 0
  {
    if ps != [] {
      var front, last := ps[..|ps| - 1], ps[|ps| - 1];
      OnceEach(front);
      assert ps == front + [last];
      assert last !in front;
    }
  }

  lemma SameMultiset(b: Book, key: int, ps: seq<Phone>, qs: seq<Phone>)
    requires LoadsPhones(b, key, ps) && LoadsPhones(b, key, qs)
    ensures multiset(ps) == multiset(qs)
  {
    OnceEach(ps);
    OnceEach(qs);
    LoadsHaveSamePhones(b, key, ps, qs);
    forall p ensures multiset(ps)[p] == multiset(qs)[p] {
      assert p in ps <==> p in qs;
    }
  }

  /** What the user sees of a list: types, numbers and notes, in order. */
  function Visible(ps: seq<Phone>): seq<Phone> {
    seq(|ps|, i requires 0 <= i < |ps| => ps[i].(key := 0, dirty := false))
  }

  /** A list of the saved phones `saved`, in some order. */
  ghost predicate Shows(l: Contact, d: Details, ps: seq<Phone>, saved: seq<Phone>) {
    l.details == d && multiset(l.phones) == multiset(saved) && Visible(saved) == Visible(ps)
  }

  /** The tables after `insertUpdateEntry`, which skips a contact that is not dirty. */
  ghost function AfterSave(b: Book, c: Contact): Book {
    if CountsAsDirty(c) && Transaction(b, c).Some? then Transaction(b, c).value.0 else b
  }

  lemma SavedShows(b: Book, key: int, c: Contact, l: Contact) returns (saved: seq<Phone>)
    requires Inv(b) && Owns(b, c) && GoodList(b, c.key, c.phones)
    requires key == if c.key == 0 then b.nextContact else c.key
    requires Transaction(b, c).Some? && Loads(Transaction(b, c).value.0, key, l)
    ensures Shows(l, c.details, c.phones, saved)
  {
    SaveStoresExactly(b, c);
    SavedPhonesAreListed(b, c);
    saved := Transaction(b, c).value.1.phones;
    SameMultiset(Transaction(b, c).value.0, key, l.phones, saved);
    assert Visible(saved) == Visible(c.phones);
  }

  /** A contact is loaded, edited in any way in the dialog, assigned back and saved, or not
      saved because nothing is dirty. Whatever list is loaded then shows the texts and the
      phones that the dialog showed, in some order, and all other contacts as before. */
  lemma EditedIsListed(b: Book, key: int, c: Contact, edits: seq<Edit>, ps: seq<Phone>, d: Details, l: Contact)
    requires Inv(b) && Loads(b, key, c) && Leads(c.phones, edits, ps)
    requires Loads(AfterSave(b, Assign(c, d, ps)), key, l)
    ensures exists saved :: Shows(l, d, ps, saved)
    ensures Inv(AfterSave(b, Assign(c, d, ps)))
    ensures forall other, x :: other != key ==>
              (Loads(AfterSave(b, Assign(c, d, ps)), other, x) <==> Loads(b, other, x))
  {
    var e := Assign(c, d, ps);
    LoadedIsOwned(b, key, c);
    EditsKeepGood(b, key, c.phones, edits, ps);
    NoEditIsSkipped(c, edits, ps, d);
    SaveStoresExactly(b, e);
    var b' := AfterSave(b, e);
    if CountsAsDirty(e) {
      var saved := SavedShows(b, key, e, l);
      forall other, x | other != key ensures Loads(b', other, x) <==> Loads(b, other, x) {
        SameLoads(b, b', other, x);
      }
    } else {
      SameMultiset(b, key, l.phones, ps);
      assert Shows(l, d, ps, ps);
    }
  }

  /** A phone that is deleted in the dialog is gone from the table after the save, and every
      other phone of the contact, and every row of another contact, is still there. */
  lemma DeletedPhoneIsGone(b: Book, key: int, c: Contact, row: nat)
    requires Inv(b) && Loads(b, key, c) && row < |c.phones|
    ensures var b' := AfterSave(b, Assign(c, c.details, ApplyEdit(c.phones, DeleteItem(row))));
            && c.phones[row].key !in b'.numbers
            && (forall i :: 0 <= i < |c.phones| && i != row ==>
                  c.phones[i].key in b'.numbers && b'.numbers[c.phones[i].key] == RowOf(c.phones[i], key))
            && (forall id :: id in b.numbers && b.numbers[id].cref != key ==>
                  id in b'.numbers && b'.numbers[id] == b.numbers[id])
  {
    var ps := ApplyEdit(c.phones, DeleteItem(row));
    var b', saved := DeletionStores(b, key, c, row);
    DeletedRow(c.phones, row);
    OtherPhones(c, ps, row);
    OneOwner(b, b', key, saved.phones, c.phones[row].key);
    OtherPhonesStay(b', key, c, ps, saved, row);
    ForeignRowsStay(b, b', key);
  }

  lemma DeletionStores(b: Book, key: int, c: Contact, row: nat) returns (b': Book, saved: Contact)
    requires Inv(b) && Loads(b, key, c) && row < |c.phones|
    ensures var ps := ApplyEdit(c.phones, DeleteItem(row));
            && b' == AfterSave(b, Assign(c, c.details, ps))
            && |saved.phones| == |ps| && Keys(saved.phones) == Keys(ps)
            && (forall i :: 0 <= i < |ps| ==> saved.phones[i] == ps[i].(dirty := false))
    ensures forall i, j :: 0 <= i < j < |saved.phones| ==> saved.phones[i].key != saved.phones[j].key
    ensures RowsOf(b', key) == PhoneRows(saved.phones, key) && RowsOf(b', key).Keys == Keys(saved.phones)
    ensures OthersKept(b, b', key) && c.phones[row].key in RowsOf(b, key)
  {
    var e := Assign(c, c.details, ApplyEdit(c.phones, DeleteItem(row)));
    OwnedAfterDeletion(b, key, c, row);
    SaveStoresExactly(b, e);
    b', saved := Transaction(b, e).value.0, Transaction(b, e).value.1;
    SavedKeys(b, e, b', saved);
  }

  lemma OwnedAfterDeletion(b: Book, key: int, c: Contact, row: nat)
    requires Inv(b) && Loads(b, key, c) && row < |c.phones|
    ensures var ps := ApplyEdit(c.phones, DeleteItem(row));
            var e := Assign(c, c.details, ps);
            && Owns(b, e) && e.phones == ps && e.key == key != 0 && CountsAsDirty(e)
    ensures var ps := ApplyEdit(c.phones, DeleteItem(row));
            && DistinctKeys(ps) && (forall i :: 0 <= i < |ps| ==> ps[i].key != 0)
            && (forall i, j :: 0 <= i < j < |ps| ==> ps[i].key != ps[j].key)
    ensures c.phones[row].key in RowsOf(b, key)
  {
    LoadedIsOwned(b, key, c);
    LoadedKeys(b, key, c);
    EditKeepsGood(b, key, c.phones, DeleteItem(row));
    DeletedRow(c.phones, row);
  }

  lemma LoadedKeys(b: Book, key: int, c: Contact)
    requires Inv(b) && Loads(b, key, c)
    ensures key != 0 && forall i :: 0 <= i < |c.phones| ==> c.phones[i].key != 0 && c.phones[i].key in RowsOf(b, key)
  {
    forall i | 0 <= i < |c.phones| ensures c.phones[i].key != 0 && c.phones[i].key in RowsOf(b, key) {
      assert c.phones[i].key in Keys(c.phones);
    }
  }

  lemma SavedKeys(b: Book, c: Contact, b': Book, c': Contact)
    requires ExactlyStored(b, c, b', c') && c.key != 0
    requires forall i :: 0 <= i < |c.phones| ==> c.phones[i].key != 0
    ensures Keys(c'.phones) == Keys(c.phones) && RowsOf(b', c.key).Keys == Keys(c'.phones)
  {
    assert PhoneRows(c'.phones, c.key).Keys == Keys(c'.phones);
    forall i | 0 <= i < |c.phones| ensures c'.phones[i].key == c.phones[i].key {
    }
    SameKeys(c.phones, c'.phones);
  }

  lemma SameKeys(ps: seq<Phone>, qs: seq<Phone>)
    requires |ps| == |qs| && forall i :: 0 <= i < |ps| ==> qs[i].key == ps[i].key
    ensures Keys(ps) == Keys(qs)
  {
    forall i | 0 <= i < |ps| ensures ps[i].key in Keys(qs) && qs[i].key in Keys(ps) {
      assert qs[i].key == ps[i].key;
    }
  }

  lemma OtherPhones(c: Contact, ps: seq<Phone>, row: nat)
    requires row < |c.phones| && ps == ApplyEdit(c.phones, DeleteItem(row))
    requires forall i, j :: 0 <= i < j < |c.phones| ==> c.phones[i].key != c.phones[j].key
    ensures c.phones[row].key !in Keys(ps)
    ensures forall i :: 0 <= i < |c.phones| && i != row ==> ps[if i < row then i else i - 1] == c.phones[i]
  {
  }

  lemma OtherPhonesStay(b': Book, key: int, c: Contact, ps: seq<Phone>, saved: Contact, row: nat)
    requires row < |c.phones| && |ps| == |c.phones| - 1 == |saved.phones|
    requires forall i :: 0 <= i < |c.phones| && i != row ==> ps[if i < row then i else i - 1] == c.phones[i]
    requires forall i :: 0 <= i < |ps| ==> saved.phones[i] == ps[i].(dirty := false)
    requires forall i, j :: 0 <= i < j < |saved.phones| ==> saved.phones[i].key != saved.phones[j].key
    requires RowsOf(b', key) == PhoneRows(saved.phones, key)
    ensures forall i :: 0 <= i < |c.phones| && i != row ==>
              c.phones[i].key in b'.numbers && b'.numbers[c.phones[i].key] == RowOf(c.phones[i], key)
  {
    forall i | 0 <= i < |c.phones| && i != row
      ensures c.phones[i].key in b'.numbers && b'.numbers[c.phones[i].key] == RowOf(c.phones[i], key)
    {
      RowOfListed(b', key, saved.phones, if i < row then i else i - 1);
    }
  }

  lemma ForeignRowsStay(b: Book, b': Book, key: int)
    requires OthersKept(b, b', key)
    ensures forall id :: id in b.numbers && b.numbers[id].cref != key ==>
              id in b'.numbers && b'.numbers[id] == b.numbers[id]
  {
    forall id | id in b.numbers && b.numbers[id].cref != key
      ensures id in b'.numbers && b'.numbers[id] == b.numbers[id]
    {
      var other := b.numbers[id].cref;
      assert id in RowsOf(b, other) && RowsOf(b', other) == RowsOf(b, other);
      assert RowsOf(b', other)[id] == b.numbers[id];
    }
  }

  /** A key of the contact that is no longer listed is in no row at all. */
  lemma OneOwner(b: Book, b': Book, key: int, ps: seq<Phone>, id: int)
    requires id in RowsOf(b, key) && id !in Keys(ps) && RowsOf(b', key).Keys == Keys(ps) && OthersKept(b, b', key)
    ensures id !in b'.numbers
  {
    forall other ensures id !in RowsOf(b', other) {
      if other == key {
        assert id !in RowsOf(b', key).Keys;
      } else {
        assert RowsOf(b', other) == RowsOf(b, other);
      }
    }
    InSomeRows(b', id);
  }

  lemma InSomeRows(b: Book, id: int)
    ensures id in b.numbers ==> exists other :: id in RowsOf(b, other)
  {
    if id in b.numbers {
      assert id in RowsOf(b, b.numbers[id].cref);
    }
  }

  // ----- A new contact -----

  /** The contact that the page makes for the dialog. */
  const NEW_CONTACT := Contact(0, false, Details("", "", "", "", "", "", "", "", ""), [])

  /** A new contact is edited in the dialog and saved. If anything was entered it is stored
      under the next key, its list shows what the dialog showed, and all other contacts are as
      before; if nothing was entered nothing is stored. */
  lemma AddedIsListed(b: Book, edits: seq<Edit>, ps: seq<Phone>, d: Details)
    requires Inv(b) && Leads([], edits, ps)
    ensures var e := Assign(NEW_CONTACT, d, ps);
            var b' := AfterSave(b, e);
            if d == NEW_CONTACT.details && ps == [] then b' == b
            else
              && Inv(b') && b.nextContact in b'.contacts && b.nextContact !in b.contacts
              && (forall l :: Loads(b', b.nextContact, l) ==> exists saved :: Shows(l, d, ps, saved))
              && (forall other, x :: other != b.nextContact ==> (Loads(b', other, x) <==> Loads(b, other, x)))
  {
    var e := Assign(NEW_CONTACT, d, ps);
    EditsKeepGood(b, 0, [], edits, ps);
    NoEditIsSkipped(NEW_CONTACT, edits, ps, d);
    if d != NEW_CONTACT.details || ps != [] {
      SaveStoresExactly(b, e);
      var b' := AfterSave(b, e);
      forall l | Loads(b', b.nextContact, l) ensures exists saved :: Shows(l, d, ps, saved) {
        var saved := SavedShows(b, b.nextContact, e, l);
      }
      forall other, x | other != b.nextContact ensures Loads(b', other, x) <==> Loads(b, other, x) {
        SameLoads(b, b', other, x);
      }
    }
  }

  lemma SameLoads(b: Book, b': Book, key: int, c: Contact)
    requires RowsOf(b', key) == RowsOf(b, key)
    requires key in b'.contacts <==> key in b.contacts
    requires key in b.contacts ==> b'.contacts[key] == b.contacts[key]
    ensures Loads(b', key, c) <==> Loads(b, key, c)
  {
    forall id | id in RowsOf(b, key) ensures id in b'.numbers && b'.numbers[id] == b.numbers[id] {
      assert RowsOf(b', key)[id] == RowsOf(b, key)[id];
    }
    forall i | 0 <= i < |c.phones| ensures c.phones[i].key in Keys(c.phones) {
    }
  }
}
