/** Editing a contact (gui/contactdlg.cpp, shared/src/contact.cpp): the dialog works on a copy
    of the contact; on OK the copy is assigned back, and the save is skipped unless the
    contact counts as dirty. */
module ContactDialog {
  import opened Texts
  import opened AddressBook

  // ----- Edits -----

  function SetType(p: Phone, t: int): Phone {
    p.(dirty := p.dirty || p.ptype != t, ptype := t)
  }

  /** The comparison is with the text as given, the stored text is trimmed. */
  function SetNumber(p: Phone, s: string): Phone {
    p.(dirty := p.dirty || p.number != s, number := Trim(s))
  }

  function SetNote(p: Phone, s: string): Phone {
    p.(dirty := p.dirty || p.note != s, note := s)
  }

  function NewPhone(placeholder: string): Phone {
    SetNumber(Phone(0, 0, "", "", true), placeholder)
  }

  datatype Edit =
    | AddItem(placeholder: string)
    | DeleteItem(row: nat)
    | EditType(row: nat, t: int)
    | EditNumber(row: nat, s: string)
    | EditNote(row: nat, s: string)

  /** The grid offers cells of existing rows only; deleting checks the row itself. */
  predicate Allowed(ps: seq<Phone>, e: Edit) {
    e.AddItem? || e.DeleteItem? || e.row < |ps|
  }

  function ApplyEdit(ps: seq<Phone>, e: Edit): seq<Phone>
    requires Allowed(ps, e)
  {
    match e
    case AddItem(placeholder) => ps + [NewPhone(placeholder)]
    case DeleteItem(row) => if row < |ps| then ps[..row] + ps[row + 1..] else ps
    case EditType(row, t) => ps[row := SetType(ps[row], t)]
    case EditNumber(row, s) => ps[row := SetNumber(ps[row], s)]
    case EditNote(row, s) => ps[row := SetNote(ps[row], s)]
  }

  /** Deleting takes out the row and moves those behind it up by one; outside the list it does
      nothing. */
  lemma DeletedRow(ps: seq<Phone>, row: nat)
    ensures var qs := ApplyEdit(ps, DeleteItem(row));
            if row < |ps| then
              && |qs| == |ps| - 1
              && (forall i :: 0 <= i < row ==> qs[i] == ps[i])
              && (forall i :: row < i < |ps| ==> qs[i - 1] == ps[i])
            else qs == ps
  {
  }

  /** A new phone comes behind the others, with the trimmed placeholder and marked. */
  lemma AddedRow(ps: seq<Phone>, placeholder: string)
    ensures var qs := ApplyEdit(ps, AddItem(placeholder));
            && |qs| == |ps| + 1 && (forall i :: 0 <= i < |ps| ==> qs[i] == ps[i])
            && qs[|ps|] == Phone(0, 0, Trim(placeholder), "", true)
  {
  }

  /** Editing a cell changes that column of that row, and nothing else but its mark: it is set
      when the value differs. */
  lemma EditedCell(ps: seq<Phone>, e: Edit)
    requires Allowed(ps, e) && !e.AddItem? && !e.DeleteItem?
    ensures var qs := ApplyEdit(ps, e);
            var was, now := ps[e.row], qs[e.row];
            && |qs| == |ps| && (forall i :: 0 <= i < |ps| && i != e.row ==> qs[i] == ps[i])
            && now.key == was.key
            && now.ptype == (if e.EditType? then e.t else was.ptype)
            && now.number == (if e.EditNumber? then Trim(e.s) else was.number)
            && now.note == (if e.EditNote? then e.s else was.note)
            && (now.dirty <==> was.dirty || (e.EditType? && e.t != was.ptype)
                               || (e.EditNumber? && e.s != was.number) || (e.EditNote? && e.s != was.note))
  {
  }

  ghost predicate Leads(ps: seq<Phone>, edits: seq<Edit>, qs: seq<Phone>)
    decreases |edits|
  {
    if edits == [] then ps == qs
    else Allowed(ps, edits[0]) && Leads(ApplyEdit(ps, edits[0]), edits[1..], qs)
  }

  /** The assignment of the dialog's data to the contact. */
  function Assign(c: Contact, d: Details, ps: seq<Phone>): Contact {
    c.(dirty := c.dirty || c.details != d || |c.phones| != |ps|, details := d, phones := ps)
  }

  predicate CountsAsDirty(c: Contact) {
    c.dirty || AnyDirty(c.phones)
  }

  /** A contact as the list query delivers it. */
  ghost predicate FreshlyLoaded(c: Contact) {
    !c.dirty && forall i :: 0 <= i < |c.phones| ==> !c.phones[i].dirty && Trimmed(c.phones[i].number)
  }

  // ----- Clean phones are original phones -----

  /** src gives, for every clean phone of ps, its index in the original list; the indices of
      the clean phones increase. */
  ghost predicate Traces(orig: seq<Phone>, ps: seq<Phone>, src: seq<nat>) {
    && |src| == |ps|
    && (forall i :: 0 <= i < |ps| ==> Trimmed(ps[i].number))
    && (forall i :: 0 <= i < |ps| && !ps[i].dirty ==> src[i] < |orig| && ps[i] == orig[src[i]])
    && (forall i, j :: 0 <= i < j < |ps| && !ps[i].dirty && !ps[j].dirty ==> src[i] < src[j])
  }

  /** An edit of one cell marks the phone or leaves it as it was. */
  lemma EditMarksOrKeeps(ps: seq<Phone>, e: Edit)
    requires Allowed(ps, e) && !e.AddItem? && !e.DeleteItem? && Trimmed(ps[e.row].number)
    ensures var p := ApplyEdit(ps, e)[e.row]; Trimmed(p.number) && (p.dirty || p == ps[e.row])
  {
    if e.EditNumber? {
      TrimIsTrimmed(e.s);
    }
  }

  lemma DeleteTraces(orig: seq<Phone>, ps: seq<Phone>, src: seq<nat>, row: nat)
    requires Traces(orig, ps, src) && row < |ps|
    ensures Traces(orig, ps[..row] + ps[row + 1..], src[..row] + src[row + 1..])
  {
    var qs, src' := ps[..row] + ps[row + 1..], src[..row] + src[row + 1..];
    forall i | 0 <= i < |qs|
      ensures qs[i] == ps[if i < row then i else i + 1] && src'[i] == src[if i < row then i else i + 1]
    {
    }
  }

  lemma CellTraces(orig: seq<Phone>, ps: seq<Phone>, src: seq<nat>, row: nat, p: Phone)
    requires Traces(orig, ps, src) && row < |ps| && Trimmed(p.number) && (p.dirty || p == ps[row])
    ensures Traces(orig, ps[row := p], src)
  {
  }

  lemma EditTraces(orig: seq<Phone>, ps: seq<Phone>, src: seq<nat>, e: Edit) returns (src': seq<nat>)
    requires Traces(orig, ps, src) && Allowed(ps, e)
    ensures Traces(orig, ApplyEdit(ps, e), src')
  {
    if e.AddItem? {
      TrimIsTrimmed(e.placeholder);
      src' := src + [0];
    } else if e.DeleteItem? {
      src' := if e.row < |ps| then src[..e.row] + src[e.row + 1..] else src;
      if e.row < |ps| {
        DeleteTraces(orig, ps, src, e.row);
      }
    } else {
      EditMarksOrKeeps(ps, e);
      CellTraces(orig, ps, src, e.row, ApplyEdit(ps, e)[e.row]);
      src' := src;
    }
  }

  lemma {:induction false} EditsTrace(orig: seq<Phone>, ps: seq<Phone>, src: seq<nat>, edits: seq<Edit>, qs: seq<Phone>)
    returns (src': seq<nat>)
    requires Traces(orig, ps, src) && Leads(ps, edits, qs)
    ensures Traces(orig, qs, src')
    decreases |edits|
  {
    if edits == [] {
      src' := src;
    } else {
      var next := EditTraces(orig, ps, src, edits[0]);
      src' := EditsTrace(orig, ApplyEdit(ps, edits[0]), next, edits[1..], qs);
    }
  }

  /** Increasing indices into a list of their own length are the identity. */
  lemma {:induction false} IncreasingIsIdentity(src: seq<nat>, n: nat)
    requires |src| == n && (forall i :: 0 <= i < n ==> src[i] < n)
    requires forall i, j :: 0 <= i < j < n ==> src[i] < src[j]
    ensures forall i :: 0 <= i < n ==> src[i] == i
  {
    if n > 0 {
      if n > 1 {
        assert src[n - 2] < src[n - 1];
      }
      LastIsHighest(src, n);
      IncreasingIsIdentity(src[..n - 1], n - 1);
    }
  }

  lemma {:induction false} LastIsHighest(src: seq<nat>, n: nat)
    requires 0 < n == |src| && forall i, j :: 0 <= i < j < n ==> src[i] < src[j]
    ensures src[n - 1] >= n - 1
  {
    if n > 1 {
      LastIsHighest(src[..n - 1], n - 1);
    }
  }

  /** A list of the original length without a dirty phone is the original list. */
  lemma CleanSameLengthIsOriginal(orig: seq<Phone>, ps: seq<Phone>, src: seq<nat>)
    requires Traces(orig, ps, src) && |ps| == |orig| && !AnyDirty(ps)
    ensures ps == orig
  {
    assert forall i :: 0 <= i < |ps| ==> !ps[i].dirty;
    IncreasingIsIdentity(src, |orig|);
  }

  /** After any edits, additions and deletions on a freshly loaded contact: if the contact does
      not count as dirty, then nothing differs from what was loaded. So a save that is
      skipped loses no edit. */
  lemma NoEditIsSkipped(c: Contact, edits: seq<Edit>, ps: seq<Phone>, d: Details)
    requires FreshlyLoaded(c) && Leads(c.phones, edits, ps)
    ensures !CountsAsDirty(Assign(c, d, ps)) ==> Assign(c, d, ps) == c
    ensures d != c.details || ps != c.phones ==> CountsAsDirty(Assign(c, d, ps))
  {
    var identity: seq<nat> := seq(|c.phones|, i requires 0 <= i => i);
    assert Traces(c.phones, c.phones, identity);
    var src := EditsTrace(c.phones, c.phones, identity, edits, ps);
    if |ps| == |c.phones| && !AnyDirty(ps) {
      CleanSameLengthIsOriginal(c.phones, ps, src);
    }
  }

  // ----- The objects -----

  /** `CPhoneNumberModel`, over the dialog's copy of the phone list. */
  class PhoneNumberModel {
    var phones: seq<Phone>

    constructor (phones: seq<Phone>)
      ensures this.phones == phones
    {
      this.phones := phones;
    }

    method DoAddItem(placeholder: string)
      modifies this
      ensures phones == ApplyEdit(old(phones), AddItem(placeholder))
    {
      var phone := Phone(0, 0, "", "", true);
      phone := SetNumber(phone, placeholder);
      phones := phones + [phone];
    }

    method DoDeleteItem(row: nat)
      modifies this
      ensures phones == ApplyEdit(old(phones), DeleteItem(row))
      ensures row < |old(phones)| ==>
                && |phones| == |old(phones)| - 1
                && (forall i :: 0 <= i < row ==> phones[i] == old(phones)[i])
                && (forall i :: row < i < |old(phones)| ==> phones[i - 1] == old(phones)[i])
      ensures row >= |old(phones)| ==> phones == old(phones)
    {
      if row < |phones| {
        phones := phones[..row] + phones[row + 1..];
      }
    }

    method SetValueByRow(e: Edit)
      requires Allowed(phones, e) && !e.AddItem? && !e.DeleteItem?
      modifies this
      ensures phones == ApplyEdit(old(phones), e)
    {
      match e
      case EditType(row, t) => phones := phones[row := SetType(phones[row], t)];
      case EditNumber(row, s) => phones := phones[row := SetNumber(phones[row], s)];
      case EditNote(row, s) => phones := phones[row := SetNote(phones[row], s)];
    }
  }

  /** `CContact::operator=(const CContactDialogData&)`: setter by setter, then the list. */
  method GetData(c: ContactObject, d: Details, phones: seq<Phone>)
    modifies c
    ensures c.Val() == Assign(old(c.Val()), d, phones)
  {
    var was := c.details;
    c.dirty := c.dirty || was.fn != d.fn;
    c.dirty := c.dirty || was.mn != d.mn;
    c.dirty := c.dirty || was.ln != d.ln;
    c.dirty := c.dirty || was.nn != d.nn;
    c.dirty := c.dirty || was.sn != d.sn;
    c.dirty := c.dirty || was.title != d.title;
    c.dirty := c.dirty || was.organization != d.organization;
    c.dirty := c.dirty || was.email != d.email;
    c.dirty := c.dirty || was.image != d.image;
    c.details := d;
    c.dirty := c.dirty || |c.phones| != |phones|;
    var list: seq<Phone> := [];
    for i := 0 to |phones|
      invariant list == phones[..i]
    {
      list := list + [phones[i]];
    }
    c.phones := list;
  }
}
