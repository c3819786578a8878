/** The rotating log (gui/log/filelog.cpp). File number 0 is the current log, file i the
    archive with extension i; a missing number is a missing file. */
module FileLog {
  import opened Common

  type Files = map<nat, string>

  // ----- Rotation -----

  /** Renaming replaces the target; renaming a file to itself changes nothing. */
  function Rename(f: Files, a: nat, b: nat): Files {
    if a !in f || a == b then f else (f - {a})[b := f[a]]
  }

  /** What a rotation leaves under number j: the current log is started afresh, every archive
      up to `count` is its predecessor, and the oldest is overwritten. A hole in front of the
      last number leaves that file where it is. */
  predicate Has(f: Files, count: nat, j: nat) {
    if j == 0 then true
    else if count < 2 || j > count then j in f
    else j - 1 in f || (j == count && j in f)
  }

  function Content(f: Files, count: nat, j: nat): string
    requires Has(f, count, j)
  {
    if j == 0 then ""
    else if count < 2 || j > count then f[j]
    else if j - 1 in f then f[j - 1]
    else f[j]
  }

  /** All files at once after a rotation. */
  function Rotated(f: Files, count: nat): Files {
    var numbers := {0} + f.Keys + (set i | i in f :: i + 1);
    map j | j in numbers && Has(f, count, j) :: Content(f, count, j)
  }

  // ----- Runs -----

  /** `logged` is everything ever written, `rotations` how often files were rotated. */
  datatype Log = Log(files: Files, logged: string, rotations: nat)

  datatype Event = Record(line: string) | Restart

  predicate Started(l: Log) {
    0 in l.files
  }

  function Rotate(l: Log, count: nat): Log {
    l.(files := Rotated(l.files, count), rotations := l.rotations + 1)
  }

  /** A record is appended, and the files are rotated when the log has grown too large; a new
      session rotates away the log of the last one. */
  function Apply(l: Log, e: Event, size: nat, count: nat): Log
    requires Started(l)
  {
    match e
    case Record(line) =>
      var m := l.(files := l.files[0 := l.files[0] + line], logged := l.logged + line);
      if |m.files[0]| > size then Rotate(m, count) else m
    case Restart => Rotate(l, count)
  }

  lemma RotatedIsStarted(f: Files, count: nat)
    ensures 0 in Rotated(f, count) && Rotated(f, count)[0] == ""
  {
  }

  function ApplyAll(l: Log, es: seq<Event>, size: nat, count: nat): (m: Log)
    requires Started(l)
    ensures Started(m)
  {
    if es == [] then l else
    var e := es[|es| - 1];
    RotatedIsStarted(ApplyAll(l, es[..|es| - 1], size, count).files, count);
    Apply(ApplyAll(l, es[..|es| - 1], size, count), e, size, count)
  }

  /** The log as it is first opened in an empty directory. */
  const Fresh := Log(map[0 := ""], "", 0)

  /** Files 0 to k exist, and no others. */
  ghost predicate GapFree(f: Files, k: nat) {
    forall j: nat :: j in f <==> j <= k
  }

  /** The text of the archives from number n down, followed by the current log. */
  function TextFrom(f: Files, n: nat): string
    requires forall j: nat :: j <= n ==> j in f
  {
    if n == 0 then f[0] else f[n] + TextFrom(f, n - 1)
  }

  ghost predicate IsSuffix(a: string, b: string) {
    exists front :: b == front + a
  }

  /** The largest number of archives that rotation can make. */
  function Limit(count: nat): nat {
    if count < 2 then 0 else count
  }

  ghost predicate Inv(l: Log, count: nat) {
    var k := Min(l.rotations, Limit(count));
    && GapFree(l.files, k)
    && IsSuffix(TextFrom(l.files, k), l.logged)
    && (l.rotations <= Limit(count) ==> TextFrom(l.files, k) == l.logged)
  }

  lemma {:induction false} ShiftedText(f: Files, g: Files, n: nat)
    requires forall j: nat :: j <= n ==> j in f
    requires forall j: nat :: j <= n + 1 ==> j in g
    requires g[0] == "" && forall j: nat :: 1 <= j <= n + 1 ==> g[j] == f[j - 1]
    ensures TextFrom(g, n + 1) == TextFrom(f, n)
  {
    if n == 0 {
      assert TextFrom(g, 0) == "" && g[1] == f[0] && f[0] + "" == f[0];
    } else {
      assert g[n + 1] == f[n];
      ShiftedText(f, g, n - 1);
    }
  }

  lemma {:induction false} GrownText(f: Files, line: string, n: nat)
    requires forall j: nat :: j <= n ==> j in f
    ensures TextFrom(f[0 := f[0] + line], n) == TextFrom(f, n) + line
  {
    if n != 0 {
      GrownText(f, line, n - 1);
      assert f[n] + (TextFrom(f, n - 1) + line) == (f[n] + TextFrom(f, n - 1)) + line;
    }
  }

  lemma RotatedGapFree(f: Files, count: nat, k: nat)
    requires GapFree(f, k) && k <= Limit(count)
    ensures GapFree(Rotated(f, count), Min(k + 1, Limit(count)))
    ensures count >= 2 ==> forall j: nat :: 1 <= j <= Min(k + 1, count) ==>
              j - 1 in f && j in Rotated(f, count) && Rotated(f, count)[j] == f[j - 1]
  {
    var g := Rotated(f, count);
    forall j: nat ensures j in g <==> Has(f, count, j) {
      if j > 0 && j - 1 in f {
        assert j - 1 + 1 == j;
      }
    }
    if count >= 2 {
      forall j: nat | 1 <= j <= Min(k + 1, count) ensures g[j] == f[j - 1] {
        assert j - 1 in f && j in g;
      }
    }
  }

  /** Rotation keeps the text, except that a full set of archives loses its oldest. */
  lemma RotateKeepsInv(l: Log, count: nat)
    requires Inv(l, count)
    ensures Inv(Rotate(l, count), count)
  {
    var k := Min(l.rotations, Limit(count));
    var g := Rotated(l.files, count);
    RotatedGapFree(l.files, count, k);
    if count < 2 {
      assert TextFrom(g, 0) == "" && l.logged == l.logged + "";
    } else if k < count {
      ShiftedText(l.files, g, k);
    } else {
      ShiftedText(l.files, g, k - 1);
      OldestDropped(l.files, l.logged, k);
    }
  }

  lemma OldestDropped(f: Files, logged: string, k: nat)
    requires k > 0 && (forall j: nat :: j <= k ==> j in f) && IsSuffix(TextFrom(f, k), logged)
    ensures IsSuffix(TextFrom(f, k - 1), logged)
  {
    var front :| logged == front + TextFrom(f, k);
    assert logged == (front + f[k]) + TextFrom(f, k - 1);
  }

  lemma GrowKeepsInv(l: Log, line: string, count: nat)
    requires Inv(l, count)
    ensures Inv(l.(files := l.files[0 := l.files[0] + line], logged := l.logged + line), count)
  {
    var k := Min(l.rotations, Limit(count));
    GrownText(l.files, line, k);
    var front :| l.logged == front + TextFrom(l.files, k);
    assert l.logged + line == front + (TextFrom(l.files, k) + line);
  }

  /** Over every run of records and restarts: the archives are numbered without gaps up to
      the smaller of the rotations made and the file count; their text, oldest first,
      followed by the current log, is a suffix of everything logged, and is all of it as long
      as no more rotations were made than there are files. */
  lemma {:induction false} LogKeepsLatestText(es: seq<Event>, size: nat, count: nat)
    ensures Inv(ApplyAll(Fresh, es, size, count), count)
  {
    if es == [] {
      assert TextFrom(Fresh.files, 0) == "" && "" == "" + "";
    } else {
      var l := ApplyAll(Fresh, es[..|es| - 1], size, count);
      LogKeepsLatestText(es[..|es| - 1], size, count);
      match es[|es| - 1]
      case Record(line) =>
        GrowKeepsInv(l, line, count);
        RotateKeepsInv(l.(files := l.files[0 := l.files[0] + line], logged := l.logged + line), count);
      case Restart =>
        RotateKeepsInv(l, count);
    }
  }

  /** A record stays in the current log as long as that fits, and otherwise is its last: the
      log is rotated once and started afresh. */
  lemma RecordEffect(l: Log, line: string, size: nat, count: nat)
    requires Started(l)
    ensures var m := Apply(l, Record(line), size, count);
            && m.logged == l.logged + line
            && (if |l.files[0]| + |line| <= size
                then m.files == l.files[0 := l.files[0] + line] && m.rotations == l.rotations
                else m.rotations == l.rotations + 1 && 0 in m.files && m.files[0] == "")
            && (count >= 2 && |l.files[0]| + |line| > size ==> 1 in m.files && m.files[1] == l.files[0] + line)
  {
    var f := l.files[0 := l.files[0] + line];
    RotatedIsStarted(f, count);
    if count >= 2 {
      assert 0 + 1 == 1 && 0 in f;
    }
  }

  /** A new session starts a log of its own and keeps the last one as the first archive. */
  lemma RestartEffect(l: Log, size: nat, count: nat)
    requires Started(l)
    ensures var m := Apply(l, Restart, size, count);
            && m.logged == l.logged && m.rotations == l.rotations + 1 && 0 in m.files && m.files[0] == ""
            && (count >= 2 ==> 1 in m.files && m.files[1] == l.files[0])
  {
    RotatedIsStarted(l.files, count);
    if count >= 2 {
      assert 0 + 1 == 1 && 0 in l.files;
    }
  }

  /** So after every record the current log is within the limit. */
  lemma {:induction false} LogWithinSize(es: seq<Event>, size: nat, count: nat)
    ensures |ApplyAll(Fresh, es, size, count).files[0]| <= size
  {
    if es != [] {
      var l := ApplyAll(Fresh, es[..|es| - 1], size, count);
      LogWithinSize(es[..|es| - 1], size, count);
      match es[|es| - 1]
      case Record(line) => RecordEffect(l, line, size, count);
      case Restart => RotatedIsStarted(l.files, count);
    }
  }

  // ----- The logger -----

  class Logger {
    const size: nat
    const count: nat
    var files: Files

    /** Opens the log over an existing directory. */
    constructor (existing: Files, size: nat, count: nat)
      ensures this.size == size && this.count == count
      ensures files == if 0 in existing then Rotated(existing, count) else existing[0 := ""]
    {
      this.size, this.count, files := size, count, existing;
      new;
      if 0 in files {
        RotateFiles();
      }
      OpenFile();
      assert 0 in existing ==> files == Rotated(existing, count);
    }

    /** Creates the current log, empty. */
    method OpenFile()
      modifies this
      ensures files == old(files)[0 := ""]
    {
      files := files[0 := ""];
    }

    /** `rotateFiles`: a descending loop of renames, in place. It equals the simultaneous
        shift, whatever files there are. */
    method RotateFiles()
      requires 0 in files
      modifies this
      ensures files == Rotated(old(files), count)
    {
      ghost var was := files;
      var first: nat := 0;
      var i := count;
      while i > 1
        invariant i <= count && (count < 2 ==> i == count) && (count >= 2 ==> i >= 1)
        invariant first == if i < count then i else 0
        invariant PartlyShifted(was, files, count, i)
        decreases i
      {
        RenameStep(was, files, count, i);
        files := Rename(files, i - 1, i);
        first := i - 1;
        i := i - 1;
      }
      LastRename(was, files, count);
      files := Rename(files, 0, first);
      OpenFile();
    }

    /** `DoLogRecord`. */
    method DoLogRecord(line: string)
      requires 0 in files
      modifies this
      ensures 0 in files
      ensures forall l: Log :: l.files == old(files) ==> files == Apply(l, Record(line), size, count).files
    {
      files := files[0 := files[0] + line];
      if |files[0]| > size {
        RotateFiles();
        RotatedIsStarted(old(files)[0 := old(files)[0] + line], count);
      }
    }
  }

  // ----- Steps of the renaming loop -----

  /** Numbers above i have been shifted, number i itself has been moved away, and those below
      are as they were. */
  ghost predicate PartlyShifted(was: Files, now: Files, count: nat, i: nat) {
    forall j: nat :: ShiftedAt(was, now, count, i, j)
  }

  ghost predicate ShiftedAt(was: Files, now: Files, count: nat, i: nat, j: nat) {
    if i < count && i < j <= count then
      (j in now <==> Has(was, count, j)) && (j in now ==> now[j] == Content(was, count, j))
    else if i < count && j == i then j !in now
    else (j in now <==> j in was) && (j in now ==> now[j] == was[j])
  }

  lemma RenameStep(was: Files, now: Files, count: nat, i: nat)
    requires PartlyShifted(was, now, count, i) && 1 < i <= count
    ensures PartlyShifted(was, Rename(now, i - 1, i), count, i - 1)
  {
    var next, k := Rename(now, i - 1, i), i - 1;
    assert ShiftedAt(was, now, count, i, k);
    forall j: nat ensures ShiftedAt(was, next, count, k, j) {
      assert ShiftedAt(was, now, count, i, j);
    }
  }

  lemma LastRename(was: Files, now: Files, count: nat)
    requires 0 in was && PartlyShifted(was, now, count, if count < 2 then count else 1)
    ensures Rename(now, 0, if count < 2 then 0 else 1)[0 := ""] == Rotated(was, count)
  {
    var i := if count < 2 then count else 1;
    var end := Rename(now, 0, if count < 2 then 0 else 1)[0 := ""];
    assert ShiftedAt(was, now, count, i, 0) && ShiftedAt(was, now, count, i, 1);
    forall j: nat ensures j in end <==> j in Rotated(was, count) {
      assert ShiftedAt(was, now, count, i, j);
    }
    forall j: nat | j in end ensures end[j] == Rotated(was, count)[j] {
      assert ShiftedAt(was, now, count, i, j);
    }
  }
}
