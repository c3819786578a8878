/** Saving a contact again after a save that failed. The failed save has rolled the tables
    back, but the contact in memory keeps the keys it was given on the way. */
module SaveRetry {
  import opened Common
  import opened AddressBook

  // ----- On the restored tables -----

  /** No key is handed out before statement f: it is the first, or the contact and all phones
      in front of it have been stored before. */
  predicate NoKeyHandedOut(c: Contact, f: nat) {
    f == 0 || (c.key != 0 && forall i :: 0 <= i < f - 1 && i < |c.phones| ==> c.phones[i].key != 0)
  }

  ghost predicate SameButDirty(ps: seq<Phone>, qs: seq<Phone>) {
    |qs| == |ps| && forall i :: 0 <= i < |ps| ==> qs[i] == ps[i].(dirty := qs[i].dirty)
  }

  /** The marks of the phones play no part in a save. */
  lemma {:induction false} MarksPlayNoPart(b: Book, contact: int, ps: seq<Phone>, qs: seq<Phone>)
    requires SameButDirty(ps, qs)
    ensures StorePhones(b, contact, qs) == StorePhones(b, contact, ps)
    decreases |ps|
  {
    if ps != [] {
      MarksPlayNoPart(b, contact, ps[..|ps| - 1], qs[..|qs| - 1]);
    }
  }

  /** What the phone loop has made of the front of the list when it fails. */
  lemma FrontStored(b: Book, contact: int, ps: seq<Phone>, n: nat)
    requires Inv(b) && contact in b.contacts && DistinctKeys(ps) && OwnsPhones(b, contact, ps) && n <= |ps|
    ensures StorePhones(b, contact, ps[..n]).Some?
    ensures var (b', qs) := StorePhones(b, contact, ps[..n]).value; Stored(b, b', contact, ps[..n], qs)
  {
    StorePhonesWorks(b, contact, ps[..n]);
  }

  /** The contact left behind: its key, its phones in front of f stored, the others as they were. */
  lemma LeftBehindIs(b: Book, c: Contact, f: nat)
    requires Inv(b) && Owns(b, c) && DistinctKeys(c.phones) && 1 <= f <= |c.phones| + 1
    ensures LeftBehind(b, c, f).Some?
    ensures var c' := LeftBehind(b, c, f).value;
            && c'.key == (if c.key == 0 then b.nextContact else c.key) && c'.dirty && c'.details == c.details
            && |c'.phones| == |c.phones|
            && (forall i :: 0 <= i < |c.phones| ==>
                  if i < f - 1 then
                    c'.phones[i] == c.phones[i].(key := c'.phones[i].key, dirty := false)
                    && (if c.phones[i].key == 0 then c'.phones[i].key >= b.nextNumber
                        else c'.phones[i].key == c.phones[i].key)
                  else c'.phones[i] == c.phones[i])
  {
    StoreDetailsWorks(b, c);
    var (b1, key) := StoreDetails(b, c).value;
    FrontStored(b1, key, c.phones, f - 1);
    FrontAndRest(StorePhones(b1, key, c.phones[..f - 1]).value.1, c.phones, f - 1);
  }

  lemma FrontAndRest(qs: seq<Phone>, ps: seq<Phone>, n: nat)
    requires |qs| == n <= |ps|
    ensures |qs + ps[n..]| == |ps|
    ensures forall i :: 0 <= i < |ps| ==> (qs + ps[n..])[i] == if i < n then qs[i] else ps[i]
  {
  }

  /** Where no key is handed out, the save that is repeated is the first save. */
  lemma RetryIsFirstSave(b: Book, c: Contact, f: nat)
    requires Inv(b) && Owns(b, c) && DistinctKeys(c.phones) && f <= |c.phones| + 1 && NoKeyHandedOut(c, f)
    ensures LeftBehind(b, c, f).Some? && Transaction(b, LeftBehind(b, c, f).value) == Transaction(b, c)
  {
    if f > 0 {
      LeftBehindIs(b, c, f);
      var c' := LeftBehind(b, c, f).value;
      assert SameButDirty(c.phones, c'.phones);
      var (b1, key) := StoreDetails(b, c).value;
      MarksPlayNoPart(b1, key, c.phones, c'.phones);
    }
  }

  /** A row that the phone loop creates is that of the last phone with its key, and the first
      phone with that key had none before. */
  ghost predicate CreatedBy(b': Book, contact: int, ps: seq<Phone>, qs: seq<Phone>, id: int, first: nat, last: nat) {
    && |qs| == |ps| && first <= last < |ps|
    && ps[first].key == 0 && qs[first].key == id
    && qs[last].key == id && id in b'.numbers && b'.numbers[id] == RowOf(qs[last], contact)
  }

  lemma {:induction false} NewRowsAreOfNewPhones(b: Book, contact: int, ps: seq<Phone>, id: int)
    returns (first: nat, last: nat)
    requires StorePhones(b, contact, ps).Some?
    requires id in StorePhones(b, contact, ps).value.0.numbers && id !in b.numbers
    ensures var (b', qs) := StorePhones(b, contact, ps).value; CreatedBy(b', contact, ps, qs, id, first, last)
  {
    var n := |ps| - 1;
    var (b', qs) := StorePhones(b, contact, ps).value;
    SameLength(b, contact, ps);
    if ps == [] {
      assert false;
    } else {
      var (b1, qs1) := StorePhones(b, contact, ps[..n]).value;
      SameLength(b, contact, ps[..n]);
      if id !in b1.numbers {
        first, last := n, n;
      } else {
        first, last := NewRowsAreOfNewPhones(b, contact, ps[..n], id);
        assert qs[first] == qs1[first] && qs[last] == qs1[last];
        if qs[n].key == id {
          last := n;
        }
      }
    }
  }

  lemma {:induction false} SameLength(b: Book, contact: int, ps: seq<Phone>)
    requires StorePhones(b, contact, ps).Some?
    ensures var qs := StorePhones(b, contact, ps).value.1;
            |qs| == |ps| && forall i :: 0 <= i < |ps| && ps[i].key != 0 ==> qs[i].key == ps[i].key
  {
    if ps != [] {
      SameLength(b, contact, ps[..|ps| - 1]);
    }
  }

  lemma {:induction false} KnownContactStores(b: Book, contact: int, ps: seq<Phone>)
    requires Inv(b) && contact in b.contacts
    ensures StorePhones(b, contact, ps).Some?
    ensures !AnyDirty(StorePhones(b, contact, ps).value.1)
  {
    if ps != [] {
      KnownContactStores(b, contact, ps[..|ps| - 1]);
      StorePhonesKeepInv(b, contact, ps[..|ps| - 1]);
    }
  }

  /** A phone that was given a key is not stored by the retry: no row has its key, or a later
      phone has been given the same key and fills that row. */
  lemma KeyedPhoneIsLost(b: Book, contact: int, ps: seq<Phone>, i: nat)
    requires StorePhones(b, contact, ps).Some? && i < |ps| && ps[i].key !in b.numbers
    requires forall j :: 0 <= j <= i ==> ps[j].key != 0
    ensures var (b', qs) := StorePhones(b, contact, ps).value;
            && |qs| == |ps| && qs[i].key == ps[i].key
            && (qs[i].key in b'.numbers ==>
                  exists j :: i < j < |qs| && qs[j].key == qs[i].key && b'.numbers[qs[i].key] == RowOf(qs[j], contact))
  {
    SameLength(b, contact, ps);
    var (b', qs) := StorePhones(b, contact, ps).value;
    if qs[i].key in b'.numbers {
      var first, last := NewRowsAreOfNewPhones(b, contact, ps, ps[i].key);
      assert i < last;
    }
  }

  /** The phone has no row, or the row with its key is that of another phone. */
  ghost predicate LostPhone(b: Book, c: Contact, i: nat)
    requires i < |c.phones|
  {
    var id := c.phones[i].key;
    id in b.numbers ==>
      exists j :: i < j < |c.phones| && c.phones[j].key == id && b.numbers[id] == RowOf(c.phones[j], c.key)
  }

  lemma LostMeansNotStored(b: Book, c: Contact, i: nat)
    requires Transaction(b, c).Some? && c.key != 0
    requires var c' := Transaction(b, c).value.1; i < |c'.phones| && LostPhone(Transaction(b, c).value.0, c', i)
    ensures !StoresExactly(b, c)
  {
    var (b', c') := Transaction(b, c).value;
    if StoresExactly(b, c) {
      RowOfListed(b', c.key, c'.phones, i);
    }
  }

  /** A known contact with a phone that the failed save had keyed: the retry succeeds, writes
      the contact's texts and leaves nothing marked, but the phone has no row of its own. */
  lemma RetryLosesPhone(b: Book, c: Contact, f: nat, i: nat)
    requires Inv(b) && Owns(b, c) && DistinctKeys(c.phones) && f <= |c.phones| + 1
    requires c.key != 0 && i < f - 1 && i < |c.phones| && c.phones[i].key == 0
    ensures LeftBehind(b, c, f).Some? && Transaction(b, LeftBehind(b, c, f).value).Some?
    ensures var (b', c') := Transaction(b, LeftBehind(b, c, f).value).value;
            && b'.contacts == b.contacts[c.key := c.details]
            && !c'.dirty && !AnyDirty(c'.phones) && |c'.phones| == |c.phones| && LostPhone(b', c', i)
    ensures !StoresExactly(b, LeftBehind(b, c, f).value)
  {
    LeftBehindIs(b, c, f);
    var c1 := LeftBehind(b, c, f).value;
    var (b1, key) := StoreDetails(b, c1).value;
    assert Inv(b1) && key == c.key;
    KnownContactStores(b1, key, c1.phones);
    StorePhonesKeepInv(b1, key, c1.phones);
    KeyedPhoneIsLost(b1, key, c1.phones, i);
    var (b2, qs) := StorePhones(b1, key, c1.phones).value;
    var (b', c') := Transaction(b, c1).value;
    assert qs[i].key in Keys(qs);
    assert LostPhone(b2, c', i) && (qs[i].key in b2.numbers ==> b'.numbers[qs[i].key] == b2.numbers[qs[i].key]);
    LostMeansNotStored(b, c1, i);
  }

  lemma {:induction false} NoContactNoRows(b: Book, contact: int, ps: seq<Phone>)
    requires Inv(b) && contact !in b.contacts
    requires StorePhones(b, contact, ps).Some?
    ensures forall i :: 0 <= i < |ps| ==> ps[i].key != 0
    ensures var (b', qs) := StorePhones(b, contact, ps).value;
            b'.contacts == b.contacts && b'.numbers.Keys == b.numbers.Keys
            && forall id :: id in b.numbers ==> b'.numbers[id].cref == b.numbers[id].cref
  {
    if ps != [] {
      NoContactNoRows(b, contact, ps[..|ps| - 1]);
    }
  }

  /** A new contact that the failed save had keyed: the update finds no row, and a phone
      without a key violates the reference. */
  lemma RetryStoresNothing(b: Book, c: Contact)
    requires Inv(b) && c.key != 0 && c.key !in b.contacts
    ensures Transaction(b, c).Some? ==>
              var b' := Transaction(b, c).value.0;
              b'.contacts == b.contacts && RowsOf(b', c.key) == map[]
    ensures (exists i :: 0 <= i < |c.phones| && c.phones[i].key == 0) ==> Transaction(b, c).None?
  {
    if Transaction(b, c).Some? {
      NoContactNoRows(b, c.key, c.phones);
    }
  }

  /** The retry on the restored tables stores the contact if and only if the failed save had
      not handed out a key before it failed at f. Then it does what the first save would have
      done. */
  lemma RetryStoresExactlyIff(b: Book, c: Contact, f: nat)
    requires Inv(b) && Owns(b, c) && DistinctKeys(c.phones) && f <= |c.phones| + 1
    ensures LeftBehind(b, c, f).Some?
    ensures StoresExactly(b, LeftBehind(b, c, f).value) <==> NoKeyHandedOut(c, f)
    ensures NoKeyHandedOut(c, f) ==> Transaction(b, LeftBehind(b, c, f).value) == Transaction(b, c)
  {
    if NoKeyHandedOut(c, f) {
      RetryIsFirstSave(b, c, f);
      if f > 0 {
        LeftBehindIs(b, c, f);
      }
      SaveStoresExactly(b, LeftBehind(b, c, f).value);
    } else {
      LeftBehindIs(b, c, f);
      if c.key == 0 {
        RetryStoresNothing(b, LeftBehind(b, c, f).value);
      } else {
        var i :| 0 <= i < f - 1 && i < |c.phones| && c.phones[i].key == 0;
        RetryLosesPhone(b, c, f, i);
      }
    }
  }

  /** Before the save it cannot be known where it will fail. The retry is sure to store the
      contact, wherever the save fails, if and only if the contact and all its phones have
      been stored before. */
  lemma RetrySureIff(b: Book, c: Contact)
    requires Inv(b) && Owns(b, c) && DistinctKeys(c.phones)
    ensures (forall f: nat :: f <= |c.phones| + 1 ==>
               LeftBehind(b, c, f).Some? && StoresExactly(b, LeftBehind(b, c, f).value))
            <==> c.key != 0 && forall i :: 0 <= i < |c.phones| ==> c.phones[i].key != 0
  {
    forall f: nat | f <= |c.phones| + 1
      ensures LeftBehind(b, c, f).Some? && (StoresExactly(b, LeftBehind(b, c, f).value) <==> NoKeyHandedOut(c, f))
    {
      RetryStoresExactlyIff(b, c, f);
    }
    var last := |c.phones| + 1;
    assert NoKeyHandedOut(c, last) <==> c.key != 0 && forall i :: 0 <= i < |c.phones| ==> c.phones[i].key != 0;
  }

  // ----- After other saves -----

  lemma {:induction false} UpdatedRow(b: Book, contact: int, ps: seq<Phone>, id: int)
    requires StorePhones(b, contact, ps).Some? && id in b.numbers
    ensures var b' := StorePhones(b, contact, ps).value.0;
            && id in b'.numbers && b'.numbers[id].cref == b.numbers[id].cref
            && (forall i :: 0 <= i < |ps| && ps[i].key == id && id != 0 && DistinctKeys(ps) ==>
                  b'.numbers[id] == RowOf(ps[i], b.numbers[id].cref))
  {
    if ps != [] {
      UpdatedRow(b, contact, ps[..|ps| - 1], id);
    }
  }

  /** When a key of a rolled-back save has meanwhile gone to a phone of another contact, the
      retry overwrites that phone. */
  lemma RetryOverwritesForeignPhone(b: Book, c: Contact, i: nat, other: int)
    requires Inv(b) && DistinctKeys(c.phones) && Transaction(b, c).Some? && other != c.key
    requires i < |c.phones| && c.phones[i].key in RowsOf(b, other)
    ensures var b' := Transaction(b, c).value.0;
            var id := c.phones[i].key;
            id in RowsOf(b', other) && RowsOf(b', other)[id] == RowOf(c.phones[i], other)
  {
    var (b1, key) := StoreDetails(b, c).value;
    assert key != other;
    UpdatedRow(b1, key, c.phones, c.phones[i].key);
  }

  /** When the key of the contact itself has meanwhile gone to another contact, the retry
      replaces that contact's texts and deletes all its numbers but those whose keys the
      retried contact carries. */
  lemma RetryReplacesForeignContact(b: Book, c: Contact)
    requires Inv(b) && c.key != 0 && c.key in b.contacts
    ensures Transaction(b, c).Some?
    ensures var (b', c') := Transaction(b, c).value;
            b'.contacts == b.contacts[c.key := c.details] && RowsOf(b', c.key).Keys <= Keys(c'.phones)
  {
    var (b1, key) := StoreDetails(b, c).value;
    assert Inv(b1);
    KnownContactStores(b1, key, c.phones);
    StorePhonesKeepInv(b1, key, c.phones);
  }

  // ----- Examples -----

  const EMPTY := Book(map[], map[], 1, 1)

  function Named(name: string): Details {
    Details(name, "", "", "", name, "", "", "", "")
  }

  function Ring(number: string): Phone {
    Phone(0, 0, number, "", true)
  }

  function NewContact(name: string, phones: seq<Phone>): Contact {
    Contact(0, true, Named(name), phones)
  }

  /** A transaction on a list of one phone, or none. */
  lemma StoreOne(b: Book, contact: int, p: Phone)
    ensures StorePhones(b, contact, [p])
            == match StorePhone(b, contact, p)
               case None => None
               case Some((b', q)) => Some((b', [q]))
    ensures Keys([p]) == {p.key} && Keys([]) == {}
  {
    assert [p][..0] == [];
    if StorePhone(b, contact, p).Some? {
      var q := StorePhone(b, contact, p).value.1;
      assert [] + [q] == [q];
    }
    assert [p][0] == p;
  }

  /** A new contact without phones, whose save fails at the commit: saving it again stores
      nothing. */
  lemma AnnIsNotStored()
    ensures var ann := NewContact("Ann", []);
            && LeftBehind(EMPTY, ann, 1) == Some(ann.(key := 1))
            && Apply(EMPTY, Save(ann.(key := 1), true)) == EMPTY
  {
    var ann := NewContact("Ann", []);
    assert ann.phones[..0] == [] && [] + ann.phones[0..] == [];
    assert DeleteOthers(EMPTY, 1, {}).numbers == map[];
    StoreOne(EMPTY, 1, Ring(""));
  }

  /** If Bob is stored in between, Ann's retry replaces Bob and deletes his number. */
  lemma AnnReplacesBob()
    ensures var bob := NewContact("Bob", [Ring("8")]);
            var b := Apply(EMPTY, Save(bob, true));
            && b == Book(map[1 := Named("Bob")], map[1 := Number(1, 0, "8", "")], 2, 2)
            && Apply(b, Save(NewContact("Ann", []).(key := 1), true)) == Book(map[1 := Named("Ann")], map[], 2, 2)
  {
    var bob := NewContact("Bob", [Ring("8")]);
    var b1 := Book(map[1 := Named("Bob")], map[], 2, 1);
    assert StoreDetails(EMPTY, bob) == Some((b1, 1));
    StoreOne(b1, 1, Ring("8"));
    var q := Ring("8").(key := 1, dirty := false);
    StoreOne(b1, 1, q);
    var b2 := Book(map[1 := Named("Bob")], map[1 := Number(1, 0, "8", "")], 2, 2);
    assert StorePhones(b1, 1, bob.phones) == Some((b2, [q]));
    assert DeleteOthers(b2, 1, {1}).numbers == b2.numbers;
    assert Apply(EMPTY, Save(bob, true)) == b2;
    var c := b2.(contacts := map[1 := Named("Ann")]);
    assert b2.contacts[1 := Named("Ann")] == c.contacts;
    assert StoreDetails(b2, NewContact("Ann", []).(key := 1)) == Some((c, 1));
    assert DeleteOthers(c, 1, {}).numbers == map[];
  }

  const ANN_AND_BOB := Book(map[1 := Named("Ann"), 2 := Named("Bob")], map[], 3, 1)
  const BOB_HAS_8 := ANN_AND_BOB.(numbers := map[1 := Number(2, 0, "8", "")], nextNumber := 2)
  const BOB_HAS_7 := ANN_AND_BOB.(numbers := map[1 := Number(2, 0, "7", "")], nextNumber := 2)

  /** Ann and Bob are stored. Ann's new number 7 fails at the commit, Bob's new number 8 gets
      the same key, and Ann's retry makes it 7. */
  lemma AnnOverwritesBobsNumber()
    ensures var ann := Contact(1, false, Named("Ann"), [Ring("7")]);
            var left := Contact(1, true, Named("Ann"), [Ring("7").(key := 1, dirty := false)]);
            && LeftBehind(ANN_AND_BOB, ann, 2) == Some(left)
            && Apply(ANN_AND_BOB, Save(Contact(2, false, Named("Bob"), [Ring("8")]), true)) == BOB_HAS_8
            && Apply(BOB_HAS_8, Save(left, true)) == BOB_HAS_7
  {
    AnnLeavesKeyOne();
    BobTakesKeyOne();
    var p := Ring("7").(key := 1, dirty := false);
    KnownDetails(BOB_HAS_8, Contact(1, true, Named("Ann"), [p]));
    StoreOne(BOB_HAS_8, 1, p);
    assert BOB_HAS_8.numbers[1 := Number(2, 0, "7", "")] == BOB_HAS_7.numbers;
    assert DeleteOthers(BOB_HAS_7, 1, {1}).numbers == BOB_HAS_7.numbers;
  }

  lemma AnnLeavesKeyOne()
    ensures LeftBehind(ANN_AND_BOB, Contact(1, false, Named("Ann"), [Ring("7")]), 2)
            == Some(Contact(1, true, Named("Ann"), [Ring("7").(key := 1, dirty := false)]))
  {
    var ann := Contact(1, false, Named("Ann"), [Ring("7")]);
    assert ann.phones[..1] == [Ring("7")] && ann.phones[1..] == [];
    KnownDetails(ANN_AND_BOB, ann);
    StoreOne(ANN_AND_BOB, 1, Ring("7"));
    var q := Ring("7").(key := 1, dirty := false);
    assert [q] + [] == [q];
  }

  lemma BobTakesKeyOne()
    ensures Apply(ANN_AND_BOB, Save(Contact(2, false, Named("Bob"), [Ring("8")]), true)) == BOB_HAS_8
  {
    KnownDetails(ANN_AND_BOB, Contact(2, false, Named("Bob"), [Ring("8")]));
    StoreOne(ANN_AND_BOB, 2, Ring("8"));
    StoreOne(ANN_AND_BOB, 2, Ring("8").(key := 1, dirty := false));
    assert ANN_AND_BOB.numbers[1 := Number(2, 0, "8", "")] == BOB_HAS_8.numbers;
    assert DeleteOthers(BOB_HAS_8, 2, {1}).numbers == BOB_HAS_8.numbers;
  }

  lemma KnownDetails(b: Book, c: Contact)
    requires c.key != 0 && c.key in b.contacts && b.contacts[c.key] == c.details
    ensures StoreDetails(b, c) == Some((b, c.key))
  {
    assert b.contacts[c.key := c.details] == b.contacts;
  }
}
