/** The SQLite address book (plugin_ab_sqlite/sqlite_ab.cpp): contacts and their phone
    numbers in two tables, keys from two counters, and a save that upserts every phone and
    then deletes the rows that are no longer listed, all in one transaction.

    `Book` is the value of the database; the class at the end runs the statements in place. */
module AddressBook {
  import opened Common
  import opened Texts

  /** The text columns of a contact. */
  datatype Details = Details(fn: string, mn: string, ln: string, nn: string, sn: string, title: string,
                             organization: string, email: string, image: string)

  /** A phone as the contact carries it; key 0 means that it has not been stored. */
  datatype Phone = Phone(key: int, ptype: int, number: string, note: string, dirty: bool)

  datatype Number = Number(cref: int, ptype: int, canonical: string, note: string)

  datatype Book = Book(contacts: map<int, Details>, numbers: map<int, Number>, nextContact: int, nextNumber: int)

  /** A contact in memory. */
  datatype Contact = Contact(key: int, dirty: bool, details: Details, phones: seq<Phone>)

  predicate AnyDirty(ps: seq<Phone>) {
    exists i :: 0 <= i < |ps| && ps[i].dirty
  }

  function RowOf(p: Phone, contact: int): Number {
    Number(contact, p.ptype, p.number, p.note)
  }

  // ----- Saving, statement by statement -----

  /** A statement number at which the database fails; `None` for no failure. */
  type Fault = Option<nat>

  /** One phone: insert with a fresh key, or update by key. `None` when the insert violates
      the foreign key. */
  function StorePhone(b: Book, contact: int, p: Phone): Option<(Book, Phone)> {
    if p.key == 0 then
      if contact !in b.contacts || b.nextNumber in b.numbers then None
      else
        var q := p.(key := b.nextNumber, dirty := false);
        Some((b.(numbers := b.numbers[q.key := RowOf(q, contact)], nextNumber := b.nextNumber + 1), q))
    else
      // the update writes type, number and note, not the reference
      var numbers := if p.key in b.numbers
                     then b.numbers[p.key := RowOf(p, b.numbers[p.key].cref)] else b.numbers;
      Some((b.(numbers := numbers), p.(dirty := false)))
  }

  function StorePhones(b: Book, contact: int, ps: seq<Phone>): Option<(Book, seq<Phone>)> {
    if ps == [] then Some((b, [])) else
    match StorePhones(b, contact, ps[..|ps| - 1])
    case None => None
    case Some((b', qs)) =>
      match StorePhone(b', contact, ps[|ps| - 1])
      case None => None
      case Some((b'', q)) => Some((b'', qs + [q]))
  }

  function Keys(ps: seq<Phone>): set<int> {
    set i | 0 <= i < |ps| :: ps[i].key
  }

  function DeleteOthers(b: Book, contact: int, keep: set<int>): Book {
    b.(numbers := map id | id in b.numbers && !(b.numbers[id].cref == contact && id !in keep) :: b.numbers[id])
  }

  /** The contact row: a new contact takes the next key, a known one is updated if present. */
  function StoreDetails(b: Book, c: Contact): Option<(Book, int)> {
    if c.key == 0 then
      if b.nextContact in b.contacts then None
      else
        var b' := b.(contacts := b.contacts[b.nextContact := c.details], nextContact := b.nextContact + 1);
        Some((b', b.nextContact))
    else
      Some((b.(contacts := if c.key in b.contacts then b.contacts[c.key := c.details] else b.contacts), c.key))
  }

  /** The whole transaction, when no statement fails for reasons of its own. */
  function Transaction(b: Book, c: Contact): Option<(Book, Contact)> {
    match StoreDetails(b, c)
    case None => None
    case Some((b1, key)) =>
      match StorePhones(b1, key, c.phones)
      case None => None
      case Some((b2, phones)) =>
        Some((DeleteOthers(b2, key, Keys(phones)), Contact(key, false, c.details, phones)))
  }

  // ----- The invariant -----

  ghost predicate Inv(b: Book) {
    && b.nextContact >= 1 && b.nextNumber >= 1
    && (forall id :: id in b.contacts ==> 1 <= id < b.nextContact)
    && (forall id :: id in b.numbers ==> 1 <= id < b.nextNumber && b.numbers[id].cref in b.contacts)
  }

  ghost predicate DistinctKeys(ps: seq<Phone>) {
    forall i, j :: 0 <= i < j < |ps| && ps[i].key != 0 ==> ps[i].key != ps[j].key
  }

  /** Every stored phone of the contact is one of its rows. */
  ghost predicate Owns(b: Book, c: Contact) {
    (c.key != 0 ==> c.key in b.contacts) && OwnsPhones(b, c.key, c.phones)
  }

  /** What the phone loop has done after a part of the list. */
  ghost predicate Stored(b: Book, b': Book, contact: int, ps: seq<Phone>, qs: seq<Phone>) {
    && Inv(b') && b'.contacts == b.contacts && b'.nextContact == b.nextContact && b'.nextNumber >= b.nextNumber
    && PhonesKeyed(b, b', ps, qs) && RowsWritten(b', contact, qs) && OtherRowsKept(b, b', qs)
  }

  /** Every phone has a key, new ones from the counter, and no two share one. */
  ghost predicate PhonesKeyed(b: Book, b': Book, ps: seq<Phone>, qs: seq<Phone>) {
    && |qs| == |ps|
    && (forall i :: 0 <= i < |qs| ==>
          && qs[i] == ps[i].(key := qs[i].key, dirty := false)
          && (if ps[i].key == 0 then b.nextNumber <= qs[i].key < b'.nextNumber else qs[i].key == ps[i].key))
    && (forall i, j :: 0 <= i < j < |qs| ==> qs[i].key != qs[j].key)
  }

  ghost predicate RowsWritten(b': Book, contact: int, qs: seq<Phone>) {
    forall i :: 0 <= i < |qs| ==> qs[i].key in b'.numbers && b'.numbers[qs[i].key] == RowOf(qs[i], contact)
  }

  /** Rows of no phone of the list are as before, and no row has changed its contact. */
  ghost predicate OtherRowsKept(b: Book, b': Book, qs: seq<Phone>) {
    && (forall id :: id in b'.numbers && id !in Keys(qs) ==> id in b.numbers && b'.numbers[id] == b.numbers[id])
    && (forall id :: id in b.numbers ==> id in b'.numbers && b'.numbers[id].cref == b.numbers[id].cref)
  }

  /** The stored keys of the list belong to rows of the contact. */
  ghost predicate OwnsPhones(b: Book, contact: int, ps: seq<Phone>) {
    forall i :: 0 <= i < |ps| && ps[i].key != 0 ==> ps[i].key in b.numbers && b.numbers[ps[i].key].cref == contact
  }

  /** The phone after `ps`: its own key is known to the table, and is no other phone's. */
  ghost predicate NextPhone(b: Book, contact: int, ps: seq<Phone>, p: Phone) {
    && (p.key != 0 ==> p.key in b.numbers && b.numbers[p.key].cref == contact)
    && (forall i :: 0 <= i < |ps| && ps[i].key != 0 ==> ps[i].key in b.numbers && ps[i].key != p.key)
  }

  lemma StoreNewPhone(b: Book, b1: Book, contact: int, ps: seq<Phone>, qs: seq<Phone>, p: Phone)
    requires Inv(b) && contact in b.contacts && Stored(b, b1, contact, ps, qs)
    requires NextPhone(b, contact, ps, p) && p.key == 0
    ensures StorePhone(b1, contact, p).Some?
    ensures var (b2, q) := StorePhone(b1, contact, p).value;
            && Inv(b2) && b2.contacts == b.contacts && b2.nextContact == b.nextContact
            && b2.nextNumber == b1.nextNumber + 1 && q == p.(key := b1.nextNumber, dirty := false)
            && b2.numbers == b1.numbers[q.key := RowOf(q, contact)] && q.key !in b1.numbers
            && (forall i :: 0 <= i < |qs| ==> qs[i].key != q.key)
  {
    assert b1.nextNumber !in b1.numbers;
  }

  lemma StoreKnownPhone(b: Book, b1: Book, contact: int, ps: seq<Phone>, qs: seq<Phone>, p: Phone)
    requires Inv(b) && contact in b.contacts && Stored(b, b1, contact, ps, qs)
    requires NextPhone(b, contact, ps, p) && p.key != 0
    ensures StorePhone(b1, contact, p).Some?
    ensures var (b2, q) := StorePhone(b1, contact, p).value;
            && Inv(b2) && b2.contacts == b.contacts && b2.nextContact == b.nextContact
            && b2.nextNumber == b1.nextNumber && q == p.(dirty := false)
            && b2.numbers == b1.numbers[q.key := RowOf(q, contact)] && q.key in b1.numbers
            && b1.numbers[q.key].cref == contact
            && (forall i :: 0 <= i < |qs| ==> qs[i].key != q.key)
  {
    forall i | 0 <= i < |qs| ensures qs[i].key != p.key {
      assert ps[i].key != p.key;
    }
  }

  lemma OneMoreKeyed(b: Book, b1: Book, b2: Book, ps: seq<Phone>, qs: seq<Phone>, p: Phone, q: Phone)
    requires PhonesKeyed(b, b1, ps, qs) && b2.nextNumber >= b1.nextNumber
    requires q == p.(key := q.key, dirty := false)
    requires if p.key == 0 then b.nextNumber <= q.key < b2.nextNumber else q.key == p.key
    requires forall i :: 0 <= i < |qs| ==> qs[i].key != q.key
    ensures PhonesKeyed(b, b2, ps + [p], qs + [q])
  {
    var all := qs + [q];
    forall i, j | 0 <= i < j < |all| ensures all[i].key != all[j].key {
      assert all[i] == qs[i];
    }
  }

  lemma OneMoreWritten(b1: Book, b2: Book, contact: int, qs: seq<Phone>, q: Phone)
    requires RowsWritten(b1, contact, qs) && b2.numbers == b1.numbers[q.key := RowOf(q, contact)]
    requires forall i :: 0 <= i < |qs| ==> qs[i].key != q.key
    ensures RowsWritten(b2, contact, qs + [q])
  {
  }

  lemma OneMoreKept(b: Book, b1: Book, b2: Book, contact: int, qs: seq<Phone>, q: Phone)
    requires OtherRowsKept(b, b1, qs) && b2.numbers == b1.numbers[q.key := RowOf(q, contact)]
    requires q.key in b.numbers ==> b.numbers[q.key].cref == contact
    ensures OtherRowsKept(b, b2, qs + [q])
  {
    KeysMore(qs, q);
  }

  lemma StorePhoneStep(b: Book, b1: Book, contact: int, ps: seq<Phone>, qs: seq<Phone>, p: Phone)
    requires Inv(b) && contact in b.contacts && Stored(b, b1, contact, ps, qs) && NextPhone(b, contact, ps, p)
    ensures StorePhone(b1, contact, p).Some?
    ensures var (b2, q) := StorePhone(b1, contact, p).value; Stored(b, b2, contact, ps + [p], qs + [q])
  {
    if p.key == 0 {
      StoreNewPhone(b, b1, contact, ps, qs, p);
    } else {
      StoreKnownPhone(b, b1, contact, ps, qs, p);
    }
    var (b2, q) := StorePhone(b1, contact, p).value;
    OneMoreKeyed(b, b1, b2, ps, qs, p, q);
    OneMoreWritten(b1, b2, contact, qs, q);
    OneMoreKept(b, b1, b2, contact, qs, q);
  }

  lemma KeysMore(qs: seq<Phone>, q: Phone)
    ensures Keys(qs + [q]) == Keys(qs) + {q.key}
  {
    var all := qs + [q];
    assert all[|qs|] == q;
    forall i | 0 <= i < |qs| ensures qs[i].key in Keys(all) {
      assert all[i] == qs[i];
    }
  }

  lemma {:induction false} StorePhonesWorks(b: Book, contact: int, ps: seq<Phone>)
    requires Inv(b) && contact in b.contacts && DistinctKeys(ps) && OwnsPhones(b, contact, ps)
    ensures StorePhones(b, contact, ps).Some?
    ensures var (b', qs) := StorePhones(b, contact, ps).value; Stored(b, b', contact, ps, qs)
  {
    if ps != [] {
      var front, last := ps[..|ps| - 1], ps[|ps| - 1];
      StorePhonesWorks(b, contact, front);
      var (b1, qs) := StorePhones(b, contact, front).value;
      assert front + [last] == ps;
      assert NextPhone(b, contact, front, last);
      StorePhoneStep(b, b1, contact, front, qs, last);
    }
  }

  /** The rows of one contact. */
  function RowsOf(b: Book, contact: int): map<int, Number> {
    map id | id in b.numbers && b.numbers[id].cref == contact :: b.numbers[id]
  }

  /** The rows that a list of stored phones stands for. */
  function PhoneRows(ps: seq<Phone>, contact: int): map<int, Number>
    requires forall i, j :: 0 <= i < j < |ps| ==> ps[i].key != ps[j].key
  {
    map id | id in Keys(ps) :: RowOf(ps[IndexOf(ps, id)], contact)
  }

  function IndexOf(ps: seq<Phone>, id: int): (i: nat)
    requires id in Keys(ps)
    ensures i < |ps| && ps[i].key == id
  {
    if ps[0].key == id then 0 else
    assert id in Keys(ps[1..]) by {
      var i :| 0 <= i < |ps| && ps[i].key == id;
      assert ps[1..][i - 1].key == id;
    }
    1 + IndexOf(ps[1..], id)
  }

  /** The contact as stored: every phone has its key, and no two share one. */
  ghost predicate Saved(c: Contact, c': Contact, key: int) {
    && c' == Contact(key, false, c.details, c'.phones) && |c'.phones| == |c.phones|
    && (forall i :: 0 <= i < |c.phones| ==> c'.phones[i] == c.phones[i].(key := c'.phones[i].key, dirty := false))
    && (forall i :: 0 <= i < |c.phones| && c.phones[i].key != 0 ==> c'.phones[i].key == c.phones[i].key)
    && (forall i, j :: 0 <= i < j < |c'.phones| ==> c'.phones[i].key != c'.phones[j].key)
  }

  lemma StoreDetailsWorks(b: Book, c: Contact)
    requires Inv(b) && (c.key != 0 ==> c.key in b.contacts)
    ensures StoreDetails(b, c).Some?
    ensures var (b1, key) := StoreDetails(b, c).value;
            && Inv(b1) && key == (if c.key == 0 then b.nextContact else c.key)
            && b1.contacts == b.contacts[key := c.details]
            && b1.numbers == b.numbers && b1.nextNumber == b.nextNumber
  {
  }

  /** The phone loop and the deletion leave exactly the listed rows. */
  lemma DeleteLeavesTheList(b: Book, b': Book, contact: int, ps: seq<Phone>, qs: seq<Phone>)
    requires Stored(b, b', contact, ps, qs)
    requires OwnsPhones(b, contact, ps)
    ensures var d := DeleteOthers(b', contact, Keys(qs));
            && Inv(d) && RowsOf(d, contact) == PhoneRows(qs, contact)
            && OthersKept(b, d, contact)
  {
    var d := DeleteOthers(b', contact, Keys(qs));
    forall id | id in Keys(qs) ensures id in d.numbers && d.numbers[id] == RowOf(qs[IndexOf(qs, id)], contact) {
    }
    assert RowsOf(d, contact) == PhoneRows(qs, contact);
    forall other | other != contact ensures RowsOf(d, other) == RowsOf(b, other) {
      OthersUntouched(b, b', contact, ps, qs, other);
    }
  }

  lemma OthersUntouched(b: Book, b': Book, contact: int, ps: seq<Phone>, qs: seq<Phone>, other: int)
    requires Stored(b, b', contact, ps, qs) && other != contact
    requires OwnsPhones(b, contact, ps)
    ensures RowsOf(DeleteOthers(b', contact, Keys(qs)), other) == RowsOf(b, other)
  {
    var d := DeleteOthers(b', contact, Keys(qs));
    forall id | id in Keys(qs) ensures id in b'.numbers && b'.numbers[id].cref == contact {
      var i := IndexOf(qs, id);
      assert b'.numbers[id] == RowOf(qs[i], contact);
    }
    assert forall id :: id in RowsOf(b, other) ==> id in b'.numbers && b'.numbers[id].cref == other && id !in Keys(qs);
    assert forall id :: id in RowsOf(d, other) ==> id !in Keys(qs) && id in b.numbers && b.numbers[id] == d.numbers[id];
  }

  /** What a save is for: the contact's `numbers` rows are exactly its phone list, the rows of
      all other contacts are untouched, every reference is valid and both counters lie above
      all ids in use. */
  ghost predicate StoresExactly(b: Book, c: Contact) {
    Transaction(b, c).Some? && ExactlyStored(b, c, Transaction(b, c).value.0, Transaction(b, c).value.1)
  }

  ghost predicate ExactlyStored(b: Book, c: Contact, b': Book, c': Contact) {
    var key := if c.key == 0 then b.nextContact else c.key;
    && Saved(c, c', key) && Inv(b')
    && b'.contacts == b.contacts[key := c.details]
    && RowsOf(b', key) == PhoneRows(c'.phones, key)
    && OthersKept(b, b', key)
  }

  ghost predicate OthersKept(b: Book, b': Book, key: int) {
    forall other :: other != key ==> RowsOf(b', other) == RowsOf(b, other)
  }

  /** A save of a contact that owns its keys does just that. */
  lemma SaveStoresExactly(b: Book, c: Contact)
    requires Inv(b) && Owns(b, c) && DistinctKeys(c.phones)
    ensures StoresExactly(b, c)
  {
    StoreDetailsWorks(b, c);
    var (b1, key) := StoreDetails(b, c).value;
    StillOwned(b, b1, c, key);
    StorePhonesWorks(b1, key, c.phones);
    var (b2, phones) := StorePhones(b1, key, c.phones).value;
    StoredIsExact(b, b1, b2, key, c, phones);
    TransactionOf(b, c, b1, key, b2, phones);
  }

  lemma TransactionOf(b: Book, c: Contact, b1: Book, key: int, b2: Book, phones: seq<Phone>)
    requires StoreDetails(b, c) == Some((b1, key)) && StorePhones(b1, key, c.phones) == Some((b2, phones))
    ensures Transaction(b, c) == Some((DeleteOthers(b2, key, Keys(phones)), Contact(key, false, c.details, phones)))
  {
  }

  lemma StoredIsExact(b: Book, b1: Book, b2: Book, key: int, c: Contact, phones: seq<Phone>)
    requires key == (if c.key == 0 then b.nextContact else c.key)
    requires b1.contacts == b.contacts[key := c.details] && b1.numbers == b.numbers
    requires Stored(b1, b2, key, c.phones, phones) && OwnsPhones(b1, key, c.phones)
    ensures ExactlyStored(b, c, DeleteOthers(b2, key, Keys(phones)), Contact(key, false, c.details, phones))
  {
    DeleteLeavesTheList(b1, b2, key, c.phones, phones);
    SameRows(b1, b);
    StoredIsSaved(b1, b2, key, c, phones);
  }

  lemma StillOwned(b: Book, b1: Book, c: Contact, key: int)
    requires Inv(b) && Owns(b, c) && b1.numbers == b.numbers && (c.key != 0 ==> key == c.key)
    ensures OwnsPhones(b1, key, c.phones)
  {
  }

  lemma StoredIsSaved(b: Book, b': Book, key: int, c: Contact, phones: seq<Phone>)
    requires Stored(b, b', key, c.phones, phones)
    ensures Saved(c, Contact(key, false, c.details, phones), key)
  {
  }

  lemma SameRows(a: Book, b: Book)
    requires a.numbers == b.numbers
    ensures forall contact :: RowsOf(a, contact) == RowsOf(b, contact)
  {
  }

  /** The phone that the list query builds from a row; the setter trims the number. */
  function PhoneOf(id: int, r: Number): Phone {
    Phone(id, r.ptype, Trim(r.canonical), r.note, false)
  }

  /** The phones that the query for one contact's numbers may deliver, in any order. */
  ghost predicate LoadsPhones(b: Book, key: int, ps: seq<Phone>) {
    && (forall i, j :: 0 <= i < j < |ps| ==> ps[i].key != ps[j].key)
    && Keys(ps) == RowsOf(b, key).Keys
    && forall i :: 0 <= i < |ps| ==> ps[i].key in b.numbers && ps[i] == PhoneOf(ps[i].key, b.numbers[ps[i].key])
  }

  /** Numbers are trimmed wherever they are set. */
  ghost predicate TrimmedNumbers(ps: seq<Phone>) {
    forall i :: 0 <= i < |ps| ==> Trimmed(ps[i].number)
  }

  lemma RowOfListed(b: Book, key: int, ps: seq<Phone>, i: nat)
    requires i < |ps| && (forall i, j :: 0 <= i < j < |ps| ==> ps[i].key != ps[j].key)
    requires RowsOf(b, key) == PhoneRows(ps, key)
    ensures ps[i].key in b.numbers && b.numbers[ps[i].key] == RowOf(ps[i], key)
  {
    var id := ps[i].key;
    assert id in Keys(ps) && IndexOf(ps, id) == i;
    assert id in RowsOf(b, key) && RowsOf(b, key)[id] == RowOf(ps[i], key);
  }

  lemma ListedPhone(b: Book, key: int, p: Phone)
    requires p.key in b.numbers && b.numbers[p.key] == RowOf(p, key) && Trimmed(p.number) && !p.dirty
    ensures PhoneOf(p.key, b.numbers[p.key]) == p
  {
    TrimIsTrimmed(p.number);
  }

  /** Listing the contact after the save gives back its phones, each once. */
  lemma SavedPhonesAreListed(b: Book, c: Contact)
    requires Inv(b) && Owns(b, c) && DistinctKeys(c.phones) && TrimmedNumbers(c.phones)
    ensures Transaction(b, c).Some?
    ensures var (b', c') := Transaction(b, c).value; LoadsPhones(b', c'.key, c'.phones)
  {
    SaveStoresExactly(b, c);
    var (b', c') := Transaction(b, c).value;
    assert PhoneRows(c'.phones, c'.key).Keys == Keys(c'.phones);
    forall i | 0 <= i < |c'.phones|
      ensures c'.phones[i].key in b'.numbers
      ensures c'.phones[i] == PhoneOf(c'.phones[i].key, b'.numbers[c'.phones[i].key])
    {
      RowOfListed(b', c'.key, c'.phones, i);
      ListedPhone(b', c'.key, c'.phones[i]);
    }
  }

  /** Two such lists hold the same phones. */
  lemma LoadsHaveSamePhones(b: Book, key: int, ps: seq<Phone>, qs: seq<Phone>)
    requires LoadsPhones(b, key, ps) && LoadsPhones(b, key, qs)
    ensures forall p :: p in ps <==> p in qs
  {
    forall p | p in ps ensures p in qs {
      SamePhone(b, key, ps, qs, p);
    }
    forall p | p in qs ensures p in ps {
      SamePhone(b, key, qs, ps, p);
    }
  }

  lemma SamePhone(b: Book, key: int, ps: seq<Phone>, qs: seq<Phone>, p: Phone)
    requires LoadsPhones(b, key, ps) && LoadsPhones(b, key, qs) && p in ps
    ensures p in qs
  {
    assert p.key in Keys(ps) && p.key in Keys(qs);
    assert qs[IndexOf(qs, p.key)] == p;
  }

  // ----- Runs -----

  /** Removing a contact takes its numbers with it. */
  function Delete(b: Book, key: int): Book {
    if key == 0 then b
    else b.(contacts := b.contacts - {key},
            numbers := map id | id in b.numbers && !(key in b.contacts && b.numbers[id].cref == key) :: b.numbers[id])
  }

  datatype Op = Save(c: Contact, ok: bool) | Remove(key: int, ok: bool)

  /** An operation that fails is rolled back; a save also fails where a constraint does. */
  function Apply(b: Book, op: Op): Book {
    match op
    case Save(c, ok) => if ok && Transaction(b, c).Some? then Transaction(b, c).value.0 else b
    case Remove(key, ok) => if ok then Delete(b, key) else b
  }

  /** A removal takes that contact and its numbers, and nothing else; a key that is not there,
      or the zero of a contact never stored, takes nothing, and so does a removal that fails. */
  lemma RemovedContact(b: Book, key: int, ok: bool)
    requires Inv(b)
    ensures var d := Apply(b, Remove(key, ok));
            && (forall id :: id in d.contacts <==> id in b.contacts && (ok ==> id != key))
            && (forall id :: id in d.contacts ==> d.contacts[id] == b.contacts[id])
            && (forall id :: id in d.numbers <==> id in b.numbers && (ok ==> b.numbers[id].cref != key))
            && (forall id :: id in d.numbers ==> d.numbers[id] == b.numbers[id])
            && d.nextContact == b.nextContact && d.nextNumber == b.nextNumber
  {
  }

  /** A save that fails changes nothing; any other stores the contact, if it owns its keys. */
  lemma SavedContact(b: Book, c: Contact, ok: bool)
    requires Inv(b) && Owns(b, c) && DistinctKeys(c.phones)
    ensures ok ==> exists c' :: ExactlyStored(b, c, Apply(b, Save(c, ok)), c')
    ensures !ok ==> Apply(b, Save(c, ok)) == b
  {
    SaveStoresExactly(b, c);
    if ok {
      assert ExactlyStored(b, c, Apply(b, Save(c, ok)), Transaction(b, c).value.1);
    }
  }

  function ApplyAll(b: Book, ops: seq<Op>): Book {
    if ops == [] then b else Apply(ApplyAll(b, ops[..|ops| - 1]), ops[|ops| - 1])
  }

  lemma {:induction false} StorePhonesKeepInv(b: Book, contact: int, ps: seq<Phone>)
    requires Inv(b)
    ensures StorePhones(b, contact, ps).Some? ==> Inv(StorePhones(b, contact, ps).value.0)
    ensures StorePhones(b, contact, ps).Some? ==> StorePhones(b, contact, ps).value.0.contacts == b.contacts
  {
    if ps != [] {
      StorePhonesKeepInv(b, contact, ps[..|ps| - 1]);
    }
  }

  lemma ApplyKeepsInv(b: Book, op: Op)
    requires Inv(b)
    ensures Inv(Apply(b, op))
  {
    if op.Save? && op.ok && Transaction(b, op.c).Some? {
      var (b1, key) := StoreDetails(b, op.c).value;
      assert Inv(b1);
      StorePhonesKeepInv(b1, key, op.c.phones);
    }
  }

  /** Whatever is saved or removed, with failures anywhere and with no assumption on the
      contacts: references stay valid and the counters stay above the ids in use. */
  lemma {:induction false} RunsKeepInv(b: Book, ops: seq<Op>)
    requires Inv(b)
    ensures Inv(ApplyAll(b, ops))
  {
    if ops != [] {
      RunsKeepInv(b, ops[..|ops| - 1]);
      ApplyKeepsInv(ApplyAll(b, ops[..|ops| - 1]), ops[|ops| - 1]);
    }
  }

  // ----- A save that failed -----

  /** The contact that a save failing at statement f leaves in memory. Statement 0 stands for
      the contact's own, i + 1 for those of phone i, and the last one for the deletion and the
      commit. The tables are rolled back; keys handed out and marks cleared before f are not.
      `None` where a constraint stops the save earlier. */
  function LeftBehind(b: Book, c: Contact, f: nat): Option<Contact> {
    if f == 0 then Some(c.(dirty := true))
    else if f > |c.phones| + 1 || StoreDetails(b, c).None? then None
    else
      var (b1, key) := StoreDetails(b, c).value;
      match StorePhones(b1, key, c.phones[..f - 1])
      case None => None
      case Some((_, qs)) => Some(Contact(key, true, c.details, qs + c.phones[f - 1..]))
  }

  // ----- The database object -----

  class ContactObject {
    var key: int
    var dirty: bool
    var details: Details
    var phones: seq<Phone>

    function Val(): Contact
      reads this
    {
      Contact(key, dirty, details, phones)
    }

    constructor (c: Contact)
      ensures Val() == c
    {
      key, dirty, details, phones := c.key, c.dirty, c.details, c.phones;
    }

    /** `isDirty`: a dirty phone makes the contact dirty. */
    method IsDirty() returns (d: bool)
      modifies this`dirty
      ensures d <==> old(dirty) || AnyDirty(phones)
      ensures dirty == d
    {
      d := dirty;
      if !d {
        for i := 0 to |phones|
          invariant !d && !dirty && forall k :: 0 <= k < i ==> !phones[k].dirty
        {
          if phones[i].dirty {
            assert AnyDirty(phones);
            dirty := true;
            return true;
          }
        }
      }
    }
  }

  class Database {
    var contacts: map<int, Details>
    var numbers: map<int, Number>
    var nextContact: int
    var nextNumber: int

    function Val(): Book
      reads this
    {
      Book(contacts, numbers, nextContact, nextNumber)
    }

    constructor ()
      ensures Val() == Book(map[], map[], 1, 1) && Inv(Val())
    {
      contacts, numbers, nextContact, nextNumber := map[], map[], 1, 1;
    }

    /** The contact row. A fault stops the method before the statement takes effect. */
    method SaveDetails(c: ContactObject, fault: bool) returns (ok: bool)
      modifies this, c`key
      ensures ok <==> !fault && StoreDetails(old(Val()), old(c.Val())).Some?
      ensures ok ==> Some((Val(), c.key)) == StoreDetails(old(Val()), old(c.Val()))
      ensures !ok ==> c.key == old(c.key)
    {
      ok := false;
      if fault {
        return;
      }
      if c.key == 0 {
        var key := nextContact;
        if key in contacts {
          return;
        }
        nextContact := key + 1;
        contacts := contacts[key := c.details];
        c.key := key;
      } else if c.key in contacts {
        contacts := contacts[c.key := c.details];
      }
      ok := true;
    }

    /** One phone of the list, by index. */
    method SavePhone(c: ContactObject, pidx: nat, fault: bool) returns (ok: bool)
      requires pidx < |c.phones|
      modifies this, c`phones
      ensures ok <==> !fault && StorePhone(old(Val()), c.key, old(c.phones)[pidx]).Some?
      ensures |c.phones| == |old(c.phones)|
      ensures ok ==> Some((Val(), c.phones[pidx])) == StorePhone(old(Val()), c.key, old(c.phones)[pidx])
      ensures ok ==> c.phones == old(c.phones)[pidx := c.phones[pidx]]
      ensures !ok ==> c.phones == old(c.phones)
    {
      ok := false;
      if fault {
        return;
      }
      var p := c.phones[pidx];
      var phonekey := p.key;
      if phonekey == 0 {
        phonekey := nextNumber;
        if c.key !in contacts || phonekey in numbers {
          return;
        }
        nextNumber := phonekey + 1;
        numbers := numbers[phonekey := Number(c.key, p.ptype, p.number, p.note)];
      } else if phonekey in numbers {
        numbers := numbers[phonekey := Number(numbers[phonekey].cref, p.ptype, p.number, p.note)];
      }
      c.phones := c.phones[pidx := p.(key := phonekey, dirty := false)];
      ok := true;
    }

    /** The loop over the phone list; `n` phones were stored before a failure. */
    method SavePhones(c: ContactObject, fault: Fault) returns (ok: bool, ghost n: nat)
      modifies this, c`phones
      ensures ok ==> StorePhones(old(Val()), c.key, old(c.phones)) == Some((Val(), c.phones))
      ensures !ok ==> n < |old(c.phones)| && StorePhones(old(Val()), c.key, old(c.phones)[..n]).Some?
      ensures !ok ==> c.phones == StorePhones(old(Val()), c.key, old(c.phones)[..n]).value.1 + old(c.phones)[n..]
      ensures !ok ==> fault == Some(n + 1) || StorePhones(old(Val()), c.key, old(c.phones)).None?
      ensures ok ==> fault.None? || fault.value == 0 || fault.value > |old(c.phones)|
    {
      ghost var b, ps := Val(), c.phones;
      n := 0;
      ok := true;
      for pidx := 0 to |c.phones|
        invariant n == pidx && |c.phones| == |ps| && c.phones[pidx..] == ps[pidx..]
        invariant StorePhones(b, c.key, ps[..pidx]) == Some((Val(), c.phones[..pidx]))
        invariant fault.None? || fault.value == 0 || fault.value > pidx
      {
        ghost var was := c.phones;
        SameAt(was, ps, pidx);
        ok := SavePhone(c, pidx, fault == Some(pidx + 1));
        PhonesPrefix(b, c.key, ps, pidx);
        if !ok {
          if fault != Some(pidx + 1) {
            PhonesFailOn(b, c.key, ps, pidx + 1);
          }
          return;
        }
        OneMoreFront(was, c.phones, ps, pidx);
        n := n + 1;
      }
      WholeLists(c.phones, ps);
    }

    /** All statements of the transaction, without the rollback; `f` is the one that failed. */
    method RunStatements(c: ContactObject, fault: Fault) returns (ok: bool, ghost f: nat)
      requires c.dirty
      modifies this, c
      ensures ok ==> Some((Val(), c.Val().(dirty := false))) == Transaction(old(Val()), old(c.Val()))
      ensures !ok ==> LeftBehind(old(Val()), old(c.Val()), f) == Some(c.Val())
      ensures !ok ==> FailedAt(fault, f, |old(c.phones)|) || Transaction(old(Val()), old(c.Val())).None?
      ensures ok ==> fault.None?
    {
      ghost var b0, c0 := Val(), c.Val();
      f := 0;
      ok := SaveDetails(c, fault == Some(0));
      if !ok {
        return;
      }
      ghost var n;
      ok, n := SavePhones(c, fault);
      if ok {
        ghost var phones := c0.phones;
        assert phones[..|phones|] == phones && c.phones + phones[|phones|..] == c.phones;
        numbers := DeleteOthers(Val(), c.key, Keys(c.phones)).numbers;
        ok := fault.None?;
        f := |phones| + 1;
      } else {
        f := n + 1;
      }
    }

    /** `insertUpdateEntry`. A failure of any kind rolls the tables back, but not what has
        already been written into the contact. */
    method InsertUpdateEntry(c: ContactObject, isOk: bool, fault: Fault) returns (stored: bool)
      modifies this, c
      ensures stored ==> Some((Val(), c.Val())) == Transaction(old(Val()), old(c.Val()))
      ensures !stored ==> Val() == old(Val())
      ensures var d := old(c.dirty) || AnyDirty(old(c.phones));
              && (!d || !isOk ==> !stored && c.Val() == old(c.Val()).(dirty := false))
              && (d && isOk ==> (stored <==> fault.None? && Transaction(old(Val()), old(c.Val())).Some?))
              && (d && isOk && !stored ==> exists f ::
                    LeftBehind(old(Val()), old(c.Val()), f) == Some(c.Val())
                    && (FailedAt(fault, f, |old(c.phones)|) || Transaction(old(Val()), old(c.Val())).None?))
    {
      stored := false;
      var dirty := c.IsDirty();
      if !dirty {
        return;
      }
      if !isOk {
        c.dirty := false;
        return;
      }
      ghost var b0, c0, marked := Val(), old(c.Val()), c.Val();
      MarkIsNotStored(b0, c0);
      var snapshot := Val();
      ghost var f;
      stored, f := RunStatements(c, fault);
      if stored {
        c.dirty := false;
      } else {
        Restore(snapshot);
        assert LeftBehind(b0, c0, f) == LeftBehind(b0, marked, f);
      }
    }

    method Restore(b: Book)
      modifies this
      ensures Val() == b
    {
      contacts, numbers, nextContact, nextNumber := b.contacts, b.numbers, b.nextContact, b.nextNumber;
    }

    /** `deleteEntry`, with the cascade of the foreign key. */
    method DeleteEntry(key: int, fault: bool)
      modifies this
      ensures Val() == Apply(old(Val()), Remove(key, !fault))
    {
      if key != 0 {
        if fault {
          return;
        }
        if key in contacts {
          numbers := map id | id in numbers && numbers[id].cref != key :: numbers[id];
        }
        contacts := contacts - {key};
      }
    }
  }

  // ----- Steps of the save -----

  lemma SameAt(was: seq<Phone>, ps: seq<Phone>, i: nat)
    requires i < |ps| == |was| && was[i..] == ps[i..]
    ensures was[i] == ps[i]
  {
    assert was[i..][0] == ps[i..][0];
  }

  lemma OneMoreFront(was: seq<Phone>, now: seq<Phone>, ps: seq<Phone>, i: nat)
    requires i < |ps| == |was| && was[i..] == ps[i..] && |now| == |was| && now == was[i := now[i]]
    ensures now[..i + 1] == was[..i] + [now[i]] && now[i + 1..] == ps[i + 1..]
  {
    assert now[i + 1..] == was[i..][1..];
    assert ps[i + 1..] == ps[i..][1..];
  }

  lemma WholeLists(now: seq<Phone>, ps: seq<Phone>)
    requires |now| == |ps|
    ensures now[..|ps|] == now && ps[..|ps|] == ps
  {
  }

  lemma PhonesPrefix(b: Book, contact: int, ps: seq<Phone>, i: nat)
    requires i < |ps|
    ensures StorePhones(b, contact, ps[..i + 1])
            == match StorePhones(b, contact, ps[..i])
               case None => None
               case Some((b', qs)) =>
                 match StorePhone(b', contact, ps[i])
                 case None => None
                 case Some((b'', q)) => Some((b'', qs + [q]))
  {
    assert ps[..i + 1][..i] == ps[..i];
  }

  lemma {:induction false} PhonesFailOn(b: Book, contact: int, ps: seq<Phone>, i: nat)
    requires i <= |ps| && StorePhones(b, contact, ps[..i]).None?
    ensures StorePhones(b, contact, ps).None?
    decreases |ps| - i
  {
    if i == |ps| {
      assert ps[..i] == ps;
    } else {
      PhonesPrefix(b, contact, ps, i);
      PhonesFailOn(b, contact, ps, i + 1);
    }
  }

  /** The statement that a fault hits; faults beyond the phones hit the end of the save. */
  predicate FailedAt(fault: Fault, f: nat, phones: nat) {
    fault.Some? && f == if fault.value <= phones then fault.value else phones + 1
  }

  lemma MarkIsNotStored(b: Book, c: Contact)
    ensures Transaction(b, c.(dirty := true)) == Transaction(b, c)
    ensures forall f: nat :: LeftBehind(b, c.(dirty := true), f) == LeftBehind(b, c, f)
  {
  }
}
