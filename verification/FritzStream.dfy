/** The Fritz!Box call monitor (plugin_cp_fritz/cpf_monitor.cpp): a byte stream that arrives
    in arbitrary pieces is cut into lines, and each line into fields. */
module FritzStream {
  import opened Common
  import opened CallTypes
  import opened Decimal

  // ----- Finding and cutting -----

  /** The first position of c, or the length where there is none. */
  function Find(s: string, c: char): (p: nat)
    ensures p <= |s| && (p < |s| ==> s[p] == c) && forall i :: 0 <= i < p ==> s[i] != c
  {
    if s == "" || s[0] == c then 0 else 1 + Find(s[1..], c)
  }

  /** The messages of a stream and the unfinished rest. */
  function Frame(s: string): (seq<string>, string)
    decreases |s|
  {
    var p := Find(s, '\n');
    if p == |s| then ([], s) else
    var (msgs, rest) := Frame(s[p + 1..]);
    ([s[..p]] + msgs, rest)
  }

  function Unframe(msgs: seq<string>): string {
    if msgs == [] then "" else msgs[0] + "\n" + Unframe(msgs[1..])
  }

  predicate Clean(s: string, c: char) {
    forall i :: 0 <= i < |s| ==> s[i] != c
  }

  /** A cut of the stream at its newlines, by what it has to be rather than how it is found. */
  ghost predicate IsFraming(s: string, msgs: seq<string>, rest: string) {
    && s == Unframe(msgs) + rest
    && (forall i :: 0 <= i < |msgs| ==> Clean(msgs[i], '\n'))
    && Clean(rest, '\n')
  }

  /** Messages and rest together are the whole stream: no byte is lost. */
  lemma {:induction false} FrameLosesNothing(s: string)
    ensures IsFraming(s, Frame(s).0, Frame(s).1)
    decreases |s|
  {
    var p := Find(s, '\n');
    if p < |s| {
      var tail := s[p + 1..];
      FrameLosesNothing(tail);
      FrameFirst(s, p);
      FramingGrows(s[..p], tail, Frame(tail).0, Frame(tail).1);
    }
  }

  lemma FrameFirst(s: string, p: nat)
    requires p == Find(s, '\n') && p < |s|
    ensures s == s[..p] + "\n" + s[p + 1..] && Clean(s[..p], '\n')
    ensures Frame(s) == ([s[..p]] + Frame(s[p + 1..]).0, Frame(s[p + 1..]).1)
  {
    CutAt(s, p, '\n');
  }

  lemma CutAt(s: string, p: nat, c: char)
    requires p < |s| && s[p] == c
    ensures s == s[..p] + [c] + s[p + 1..]
  {
  }

  lemma FramingGrows(first: string, tail: string, msgs: seq<string>, rest: string)
    requires IsFraming(tail, msgs, rest) && Clean(first, '\n')
    ensures IsFraming(first + "\n" + tail, [first] + msgs, rest)
  {
    assert ([first] + msgs)[1..] == msgs;
    Assoc(first + "\n", Unframe(msgs), rest);
  }

  lemma FindClean(a: string, c: char, b: string)
    requires Clean(a, c)
    ensures Find(a + [c] + b, c) == |a|
  {
    var s := a + [c] + b;
    assert s[|a|] == c;
    assert forall i :: 0 <= i < |a| ==> s[i] == a[i];
  }

  /** There is only one such cut. */
  lemma {:induction false} FramingIsUnique(s: string, msgs: seq<string>, rest: string)
    requires IsFraming(s, msgs, rest)
    ensures Frame(s) == (msgs, rest)
    decreases |msgs|
  {
    if msgs == [] {
      assert s == rest;
    } else {
      var tail := Unframe(msgs[1..]) + rest;
      assert s == msgs[0] + ['\n'] + tail;
      FindClean(msgs[0], '\n', tail);
      assert s[..|msgs[0]|] == msgs[0] && s[|msgs[0]| + 1..] == tail;
      FramingIsUnique(tail, msgs[1..], rest);
      assert msgs == [msgs[0]] + msgs[1..];
    }
  }

  lemma {:induction false} UnframeAppend(a: seq<string>, b: seq<string>)
    ensures Unframe(a + b) == Unframe(a) + Unframe(b)
  {
    if a == [] {
      assert a + b == b;
    } else {
      UnframeAppend(a[1..], b);
      assert (a + b)[1..] == a[1..] + b;
      assert (a + b)[0] == a[0];
    }
  }

  lemma FramingsJoin(a: string, b: string, msgs: seq<string>, rest: string, more: seq<string>, rest': string)
    requires IsFraming(a, msgs, rest) && IsFraming(rest + b, more, rest')
    ensures IsFraming(a + b, msgs + more, rest')
  {
    UnframeAppend(msgs, more);
    var u, v := Unframe(msgs), Unframe(more);
    assert (u + rest) + b == u + (rest + b);
    assert u + (v + rest') == (u + v) + rest';
  }

  /** Cutting what is there, keeping the rest and going on with it gives the cut of the
      whole. */
  lemma FrameAppend(a: string, b: string)
    ensures var (msgs, rest) := Frame(a);
            var (more, rest') := Frame(rest + b);
            Frame(a + b) == (msgs + more, rest')
  {
    var (msgs, rest) := Frame(a);
    var (more, rest') := Frame(rest + b);
    FrameLosesNothing(a);
    FrameLosesNothing(rest + b);
    FramingsJoin(a, b, msgs, rest, more, rest');
    FramingIsUnique(a + b, msgs + more, rest');
  }

  // ----- Fields -----

  function Split(s: string): seq<string>
    decreases |s|
  {
    var p := Find(s, ';');
    if p == |s| then [s] else [s[..p]] + Split(s[p + 1..])
  }

  /** The tokenizer keeps empty fields, but an empty message has none. */
  function Tokens(msg: string): seq<string> {
    if msg == "" then [] else Split(msg)
  }

  function Join(fields: seq<string>): string {
    if fields == [] then "" else if |fields| == 1 then fields[0] else fields[0] + ";" + Join(fields[1..])
  }

  /** Splitting undoes joining. */
  lemma {:induction false} SplitJoin(fields: seq<string>)
    requires fields != [] && forall i :: 0 <= i < |fields| ==> Clean(fields[i], ';')
    ensures Split(Join(fields)) == fields
  {
    var s := Join(fields);
    if |fields| == 1 {
      assert s == fields[0];
    } else {
      var tail := Join(fields[1..]);
      assert s == fields[0] + [';'] + tail;
      FindClean(fields[0], ';', tail);
      assert s[..|fields[0]|] == fields[0] && s[|fields[0]| + 1..] == tail;
      SplitJoin(fields[1..]);
    }
  }

  // ----- Numbers -----

  predicate IsSpace(c: char) {
    c == ' ' || c == '\t' || c == '\n' || c == '\r' || c == 11 as char || c == 12 as char
  }

  /** The value of the digits at the front of s, after `acc`. */
  function DigitsValue(s: string, acc: nat): nat {
    if s == "" || !IsDigit(s[0]) then acc else DigitsValue(s[1..], acc * 10 + (s[0] as int - '0' as int))
  }

  /** `atoi`, for values within the range of int. */
  function Atoi(s: string): int {
    if s == "" then 0
    else if IsSpace(s[0]) then Atoi(s[1..])
    else if s[0] == '-' then (var v: int := DigitsValue(s[1..], 0); -v)
    else if s[0] == '+' then DigitsValue(s[1..], 0)
    else DigitsValue(s, 0)
  }

  function DecInt(n: int): string {
    if n < 0 then "-" + Dec(-n) else Dec(n)
  }

  lemma {:induction false} DigitsAppend(s: string, d: nat, acc: nat)
    requires d < 10 && forall i :: 0 <= i < |s| ==> IsDigit(s[i])
    ensures DigitsValue(s + [Digit(d)], acc) == DigitsValue(s, acc) * 10 + d
  {
    if s == "" {
      assert (s + [Digit(d)])[1..] == "";
    } else {
      assert (s + [Digit(d)])[1..] == s[1..] + [Digit(d)];
      DigitsAppend(s[1..], d, acc * 10 + (s[0] as int - '0' as int));
    }
  }

  lemma {:induction false} DecValue(n: nat)
    ensures DigitsValue(Dec(n), 0) == n
  {
    DecIsDigits(n);
    if n < 10 {
      assert Dec(n)[1..] == "";
    } else {
      DecValue(n / 10);
      DecIsDigits(n / 10);
      DigitsAppend(Dec(n / 10), n % 10, 0);
    }
  }

  /** Reading back a printed number. */
  lemma AtoiReadsDec(n: int)
    ensures Atoi(DecInt(n)) == n
    ensures Clean(DecInt(n), ';') && Clean(DecInt(n), '\n')
  {
    DecValue(if n < 0 then -n else n);
    DecIsDigits(if n < 0 then -n else n);
    if n < 0 {
      assert DecInt(n)[1..] == Dec(-n);
    }
  }

  lemma {:induction false} DigitsStop(s: string, rest: string, acc: nat)
    requires (forall i :: 0 <= i < |s| ==> IsDigit(s[i])) && (rest != "" ==> !IsDigit(rest[0]))
    ensures DigitsValue(s + rest, acc) == DigitsValue(s, acc)
  {
    if s == "" {
      assert s + rest == rest;
    } else {
      assert (s + rest)[1..] == s[1..] + rest;
      DigitsStop(s[1..], rest, acc * 10 + (s[0] as int - '0' as int));
    }
  }

  /** White space in front of a number, its sign, and whatever stands behind its digits. */
  lemma {:induction false} AtoiReads(blanks: string, sign: string, n: nat, rest: string)
    requires forall i :: 0 <= i < |blanks| ==> IsSpace(blanks[i])
    requires sign in {"", "+", "-"} && (rest != "" ==> !IsDigit(rest[0]))
    ensures var value: int := n;
            Atoi(blanks + (sign + (Dec(n) + rest))) == if sign == "-" then -value else value
  {
    var tail := sign + (Dec(n) + rest);
    if blanks == "" {
      assert blanks + tail == tail;
      DecIsDigits(n);
      DecValue(n);
      DigitsStop(Dec(n), rest, 0);
      if sign == "" {
        assert tail == Dec(n) + rest;
      } else {
        assert tail[1..] == Dec(n) + rest;
      }
    } else {
      assert (blanks + tail)[1..] == blanks[1..] + tail;
      AtoiReads(blanks[1..], sign, n, rest);
    }
  }

  /** A text without a number at its front reads as zero. */
  lemma AtoiOfNoNumber(s: string)
    requires s == "" || (!IsSpace(s[0]) && !IsDigit(s[0]) && s[0] != '-' && s[0] != '+')
    ensures Atoi(s) == 0
  {
  }

  // ----- Messages -----

  const UINT_SIZE := 0x1_0000_0000

  /** An int passed where an unsigned is expected. */
  function ToUnsigned(n: int): nat {
    n % UINT_SIZE
  }

  /** An id in range is kept, a negative one comes out above all of those that fit an int, and
      two ids are taken for the same exactly if they are a multiple of 2^32 apart. */
  lemma UnsignedIds(a: int, b: int)
    ensures 0 <= a < UINT_SIZE ==> ToUnsigned(a) == a
    ensures -0x8000_0000 <= a < 0 ==> ToUnsigned(a) == a + 0x1_0000_0000
    ensures ToUnsigned(a) == ToUnsigned(b) <==> exists k: int :: a - b == k * 0x1_0000_0000
  {
    if ToUnsigned(a) == ToUnsigned(b) {
      assert a - b == (a / UINT_SIZE - b / UINT_SIZE) * 0x1_0000_0000;
    }
    forall k: int | a - b == k * 0x1_0000_0000 ensures ToUnsigned(a) == ToUnsigned(b) {
      assert a == b + k * UINT_SIZE;
    }
  }

  /** What one line does: the events it posts to the one listener. */
  function Dispatch(msg: string): seq<AppEvent> {
    var tokens := Tokens(msg);
    if |tokens| < 2 then [] else
    var cmd, args := tokens[1], tokens[2..Min(|tokens|, 7)];
    if cmd == "CALL" && |args| >= 4 then Announce(Atoi(args[0]), TypeOutgoing, Dialing, args[2], args[3])
    else if cmd == "RING" && |args| >= 3 then Announce(Atoi(args[0]), TypeIncoming, Offering, args[1], args[2])
    else if cmd == "CONNECT" && |args| >= 1 then [CallStatusUpdate(FRITZ_PID, ToUnsigned(Atoi(args[0])), Connected)]
    else if cmd == "DISCONNECT" && |args| >= 2 then [CallStatusUpdate(FRITZ_PID, ToUnsigned(Atoi(args[0])), Idle)]
    else []
  }

  function Announce(id: int, t: CallType, status: CallStatus, caller: string, called: string): seq<AppEvent> {
    [NewCall(FRITZ_PID, ToUnsigned(id), t, status),
     CallInfoUpdate(FRITZ_PID, ToUnsigned(id), CallInfo(called, caller, "", ""))]
  }

  function DispatchAll(msgs: seq<string>): seq<AppEvent> {
    if msgs == [] then [] else Dispatch(msgs[0]) + DispatchAll(msgs[1..])
  }

  lemma {:induction false} DispatchAppend(a: seq<string>, b: seq<string>)
    ensures DispatchAll(a + b) == DispatchAll(a) + DispatchAll(b)
  {
    if a == [] {
      assert a + b == b;
    } else {
      DispatchAppend(a[1..], b);
      assert (a + b)[1..] == a[1..] + b && (a + b)[0] == a[0];
    }
  }

  /** The four messages that the box is documented to send. */
  datatype BoxMessage =
    | Call(date: string, id: int, ext: string, caller: string, called: string, line: string)
    | Ring(date: string, id: int, caller: string, called: string)
    | Connect(date: string, id: int, ext: string, number: string)
    | Disconnect(date: string, id: int, seconds: int)

  /** The fields of a message in its documented form; a closing ';' is an empty last field. */
  function Fields(m: BoxMessage): seq<string> {
    match m
    case Call(date, id, ext, caller, called, line) => [date, "CALL", DecInt(id), ext, caller, called, line]
    case Ring(date, id, caller, called) => [date, "RING", DecInt(id), caller, called, ""]
    case Connect(date, id, ext, number) => [date, "CONNECT", DecInt(id), ext, number, ""]
    case Disconnect(date, id, seconds) => [date, "DISCONNECT", DecInt(id), DecInt(seconds), ""]
  }

  function Print(m: BoxMessage): string {
    Join(Fields(m))
  }

  /** What each message means to the application. */
  function Meaning(m: BoxMessage): seq<AppEvent> {
    var cid := ToUnsigned(m.id);
    match m
    case Call(_, _, _, caller, called, _) =>
      [NewCall(FRITZ_PID, cid, TypeOutgoing, Dialing), CallInfoUpdate(FRITZ_PID, cid, CallInfo(called, caller, "", ""))]
    case Ring(_, _, caller, called) =>
      [NewCall(FRITZ_PID, cid, TypeIncoming, Offering),
       CallInfoUpdate(FRITZ_PID, cid, CallInfo(called, caller, "", ""))]
    case Connect(_, _, _, _) => [CallStatusUpdate(FRITZ_PID, cid, Connected)]
    case Disconnect(_, _, _) => [CallStatusUpdate(FRITZ_PID, cid, Idle)]
  }

  predicate CleanText(s: string) {
    Clean(s, ';') && Clean(s, '\n')
  }

  /** What the sender observes: texts without ';' and newline. */
  predicate TextsClean(m: BoxMessage) {
    match m
    case Call(date, _, ext, caller, called, line) =>
      CleanText(date) && CleanText(ext) && CleanText(caller) && CleanText(called) && CleanText(line)
    case Ring(date, _, caller, called) => CleanText(date) && CleanText(caller) && CleanText(called)
    case Connect(date, _, ext, number) => CleanText(date) && CleanText(ext) && CleanText(number)
    case Disconnect(date, _, _) => CleanText(date)
  }

  lemma FieldsAreClean(m: BoxMessage)
    requires TextsClean(m)
    ensures forall i :: 0 <= i < |Fields(m)| ==> CleanText(Fields(m)[i])
  {
    AtoiReadsDec(m.id);
    assert CleanText("CALL") && CleanText("RING") && CleanText("CONNECT") && CleanText("DISCONNECT") && CleanText("");
    if m.Disconnect? {
      AtoiReadsDec(m.seconds);
    }
  }

  lemma {:induction false} JoinClean(fields: seq<string>, c: char)
    requires c != ';' && forall i :: 0 <= i < |fields| ==> Clean(fields[i], c)
    ensures Clean(Join(fields), c)
  {
    if |fields| > 1 {
      JoinClean(fields[1..], c);
    }
  }

  /** Handling a printed message posts exactly the events that it means, for every id and
      every text; and its line contains no newline. */
  lemma PrintThenDispatch(m: BoxMessage)
    requires TextsClean(m)
    ensures Dispatch(Print(m)) == Meaning(m)
    ensures Clean(Print(m), '\n')
  {
    AtoiReadsDec(m.id);
    PrintIsTokens(m);
  }

  lemma PrintIsTokens(m: BoxMessage)
    requires TextsClean(m)
    ensures Tokens(Print(m)) == Fields(m) && Clean(Print(m), '\n')
  {
    FieldsAreClean(m);
    SplitJoin(Fields(m));
    JoinClean(Fields(m), '\n');
    assert Print(m) != "";
  }

  /** How many fields a line must have before anything is posted for it. */
  function Needed(cmd: string): Option<nat> {
    if cmd == "CALL" then Some(6)
    else if cmd == "RING" then Some(5)
    else if cmd == "CONNECT" then Some(3)
    else if cmd == "DISCONNECT" then Some(4)
    else None
  }

  /** A line posts something exactly if it has a known command and all the fields needed for it. */
  lemma PostsIffEnough(msg: string)
    ensures var tokens := Tokens(msg);
            Dispatch(msg) != []
            <==> |tokens| >= 2 && Needed(tokens[1]).Some? && |tokens| >= Needed(tokens[1]).value
  {
  }

  /** Fields behind the needed ones, and the date in front, make no difference. */
  lemma OnlyNeededMatter(a: string, b: string, needed: nat)
    requires 3 <= needed <= |Tokens(a)| && needed <= |Tokens(b)| && Needed(Tokens(a)[1]) == Some(needed)
    requires Tokens(a)[1..needed] == Tokens(b)[1..needed]
    ensures Dispatch(a) == Dispatch(b)
  {
    forall i | 1 <= i < needed ensures Tokens(a)[i] == Tokens(b)[i] {
      assert Tokens(a)[i] == Tokens(a)[1..needed][i - 1];
    }
    assert Tokens(a)[1] == Tokens(b)[1] && Tokens(a)[2] == Tokens(b)[2];
  }

  function Sent(ms: seq<BoxMessage>): string {
    if ms == [] then "" else Print(ms[0]) + "\n" + Sent(ms[1..])
  }

  function Meanings(ms: seq<BoxMessage>): seq<AppEvent> {
    if ms == [] then [] else Meaning(ms[0]) + Meanings(ms[1..])
  }

  function Lines(ms: seq<BoxMessage>): seq<string> {
    seq(|ms|, i requires 0 <= i < |ms| => Print(ms[i]))
  }

  lemma {:induction false} SentLines(ms: seq<BoxMessage>)
    requires forall m :: m in ms ==> TextsClean(m)
    ensures Sent(ms) == Unframe(Lines(ms)) && DispatchAll(Lines(ms)) == Meanings(ms)
  {
    if ms != [] {
      SentLines(ms[1..]);
      assert Lines(ms)[1..] == Lines(ms[1..]);
      PrintThenDispatch(ms[0]);
    }
  }

  // ----- The monitor -----

  /** What one wait on the socket brings. */
  datatype Event = Received(buf: string) | Timeout | ClosedByBox | RecvError | SelectError

  predicate Ends(e: Event) {
    e.ClosedByBox? || e.RecvError? || e.SelectError?
  }

  /** The bytes of one connection, up to its end, and whether it ended. */
  function Stream(es: seq<Event>): (string, bool) {
    if es == [] then ("", false)
    else if Ends(es[0]) then ("", true)
    else
      var (s, ended) := Stream(es[1..]);
      (if es[0].Received? then es[0].buf + s else s, ended)
  }

  /** The messages of a sequence of connections, each cut on its own. A connection that does
      not end is the last: the monitor has been told to stop. */
  function Handled(connections: seq<seq<Event>>): seq<string> {
    if connections == [] then [] else
    var (s, ended) := Stream(connections[0]);
    Frame(s).0 + (if ended then Handled(connections[1..]) else [])
  }

  /** How many lines have fully arrived with the first n bytes. */
  function Arrived(lines: seq<string>, n: nat): (k: nat)
    ensures k <= |lines|
  {
    if lines == [] || n < |lines[0]| + 1 then 0 else 1 + Arrived(lines[1..], n - |lines[0]| - 1)
  }

  /** These are the lines that end within the n bytes, and no more. */
  lemma {:induction false} ArrivedFits(lines: seq<string>, n: nat)
    ensures |Unframe(lines[..Arrived(lines, n)])| <= n
    ensures Arrived(lines, n) < |lines| ==> n < |Unframe(lines[..Arrived(lines, n) + 1])|
  {
    if lines == [] {
    } else if n < |lines[0]| + 1 {
      assert lines[..1][1..] == [];
    } else {
      var rest := n - |lines[0]| - 1;
      var k := Arrived(lines[1..], rest);
      ArrivedFits(lines[1..], rest);
      UnframeFirst(lines, k + 1);
      if k < |lines[1..]| {
        UnframeFirst(lines, k + 2);
      }
    }
  }

  lemma UnframeFirst(lines: seq<string>, k: nat)
    requires 1 <= k <= |lines|
    ensures lines[..k] == [lines[0]] + lines[1..][..k - 1]
    ensures Unframe(lines[..k]) == lines[0] + "\n" + Unframe(lines[1..][..k - 1])
  {
    assert lines[..k][1..] == lines[1..][..k - 1];
  }

  /** s is framed into the first k lines and a begun one. */
  ghost predicate BreaksAt(lines: seq<string>, s: string, k: nat) {
    k <= |lines| && |Unframe(lines[..k])| <= |s| && IsFraming(s, lines[..k], s[|Unframe(lines[..k])|..])
  }

  lemma BreaksInFirst(lines: seq<string>, s: string)
    requires Clean(s, '\n')
    ensures BreaksAt(lines, s, 0)
  {
    assert lines[..0] == [];
    assert s[0..] == s && "" + s == s;
  }

  lemma BreaksLater(lines: seq<string>, s: string, k: nat)
    requires lines != [] && |s| > |lines[0]| && Clean(lines[0], '\n')
    requires s == lines[0] + "\n" + s[|lines[0]| + 1..]
    requires BreaksAt(lines[1..], s[|lines[0]| + 1..], k)
    ensures BreaksAt(lines, s, k + 1)
  {
    var tail, front := s[|lines[0]| + 1..], lines[1..][..k];
    UnframeFirst(lines, k + 1);
    FramingGrows(lines[0], tail, front, tail[|Unframe(front)|..]);
    DropTwice(s, |lines[0]| + 1, |Unframe(front)|);
  }

  lemma DropTwice(s: string, a: nat, b: nat)
    requires a + b <= |s|
    ensures s[a..][b..] == s[a + b..]
  {
  }

  /** A part of what is sent is framed into the lines that have arrived and the begun one. */
  lemma {:induction false} PrefixFraming(lines: seq<string>, s: string)
    requires (forall i :: 0 <= i < |lines| ==> Clean(lines[i], '\n')) && s <= Unframe(lines)
    ensures BreaksAt(lines, s, Arrived(lines, |s|))
  {
    if lines == [] {
      BreaksInFirst(lines, s);
    } else if |s| <= |lines[0]| {
      PrefixOfLine(lines[0], Unframe(lines[1..]), s);
      BreaksInFirst(lines, s);
    } else {
      PrefixBehindLine(lines[0], Unframe(lines[1..]), s);
      PrefixFraming(lines[1..], s[|lines[0]| + 1..]);
      BreaksLater(lines, s, Arrived(lines[1..], |s| - |lines[0]| - 1));
    }
  }

  lemma PrefixOfLine(line: string, more: string, s: string)
    requires s <= line + "\n" + more && |s| <= |line| && Clean(line, '\n')
    ensures Clean(s, '\n')
  {
    forall i | 0 <= i < |s| ensures s[i] == line[i] {
      assert s[i] == (line + "\n" + more)[i];
    }
  }

  lemma PrefixBehindLine(line: string, more: string, s: string)
    requires s <= line + "\n" + more && |s| > |line|
    ensures s == line + "\n" + s[|line| + 1..] && s[|line| + 1..] <= more
  {
    var all := line + "\n" + more;
    assert all[..|line| + 1] == line + "\n" && all[|line| + 1..] == more;
    assert s == all[..|s|];
    assert s[..|line| + 1] == all[..|line| + 1];
    assert s[|line| + 1..] == all[|line| + 1..][..|s| - |line| - 1];
  }

  /** From the box to the event queue: whatever messages the box sends on a connection,
      however the network cuts and delays their bytes and wherever it breaks off, the monitor
      posts the meanings of the messages that have fully arrived, in order, and holds back
      only what it has of the next one. */
  lemma SentIsUnderstood(ms: seq<BoxMessage>, es: seq<Event>)
    requires forall m :: m in ms ==> TextsClean(m)
    requires Stream(es).0 <= Sent(ms)
    ensures var s := Stream(es).0;
            var k := Arrived(Lines(ms), |s|);
            && DispatchAll(Handled([es])) == Meanings(ms[..k])
            && s == Sent(ms[..k]) + Frame(s).1
            && (s == Sent(ms) ==> k == |ms| && Frame(s).1 == "")
  {
    var s := Stream(es).0;
    var k := Arrived(Lines(ms), |s|);
    LinesAreClean(ms);
    SentLines(ms);
    PrefixFrames(Lines(ms), s);
    FrontLines(ms, k);
    SentLines(ms[..k]);
    OneConnection(es);
  }

  lemma LinesAreClean(ms: seq<BoxMessage>)
    requires forall m :: m in ms ==> TextsClean(m)
    ensures forall i :: 0 <= i < |ms| ==> Clean(Lines(ms)[i], '\n')
  {
    forall i | 0 <= i < |ms| ensures Clean(Lines(ms)[i], '\n') {
      PrintThenDispatch(ms[i]);
    }
  }

  lemma FrontLines(ms: seq<BoxMessage>, k: nat)
    requires k <= |ms|
    ensures Lines(ms[..k]) == Lines(ms)[..k]
  {
  }

  lemma PrefixFrames(lines: seq<string>, s: string)
    requires (forall i :: 0 <= i < |lines| ==> Clean(lines[i], '\n')) && s <= Unframe(lines)
    ensures var k := Arrived(lines, |s|);
            && Frame(s).0 == lines[..k] && s == Unframe(lines[..k]) + Frame(s).1
            && (s == Unframe(lines) ==> k == |lines| && Frame(s).1 == "")
  {
    var k := Arrived(lines, |s|);
    PrefixFraming(lines, s);
    FramingIsUnique(s, lines[..k], s[|Unframe(lines[..k])|..]);
    if s == Unframe(lines) {
      AllArrived(lines);
    }
  }

  lemma {:induction false} AllArrived(lines: seq<string>)
    ensures Arrived(lines, |Unframe(lines)|) == |lines| && lines[..|lines|] == lines
  {
    if lines != [] {
      AllArrived(lines[1..]);
    }
  }

  /** The bytes received, in order. */
  function Bytes(es: seq<Event>): string {
    if es == [] then ""
    else Bytes(es[..|es| - 1]) + (if es[|es| - 1].Received? then es[|es| - 1].buf else "")
  }

  predicate Quiet(es: seq<Event>) {
    forall i :: 0 <= i < |es| ==> es[i].Received? || es[i].Timeout?
  }

  lemma {:induction false} BytesFirst(es: seq<Event>)
    requires es != []
    ensures Bytes(es) == (if es[0].Received? then es[0].buf else "") + Bytes(es[1..])
  {
    if |es| > 1 {
      var n := |es| - 1;
      BytesFirst(es[..n]);
      assert es[..n][1..] == es[1..][..n - 1];
    }
  }

  /** The first event that is neither data nor a timeout ends the connection, whatever it is
      and whatever would follow; until then every byte counts, in order. */
  lemma {:induction false} StreamIsBytes(es: seq<Event>, rest: seq<Event>)
    requires Quiet(es)
    ensures Stream(es) == (Bytes(es), false)
    ensures rest != [] && !rest[0].Received? && !rest[0].Timeout? ==> Stream(es + rest) == (Bytes(es), true)
  {
    if es == [] {
      assert es + rest == rest;
    } else {
      BytesFirst(es);
      StreamIsBytes(es[1..], rest);
      assert (es + rest)[1..] == es[1..] + rest;
      assert "" + Bytes(es[1..]) == Bytes(es[1..]);
    }
  }

  /** Connections that have ended leave nothing to those after them; one that has not is the
      last. */
  lemma {:induction false} ConnectionsAreApart(a: seq<seq<Event>>, b: seq<seq<Event>>)
    ensures (forall es :: es in a ==> Stream(es).1) ==> Handled(a + b) == Handled(a) + Handled(b)
    ensures (exists es :: es in a && !Stream(es).1) ==> Handled(a + b) == Handled(a)
  {
    if a == [] {
      assert a + b == b;
    } else {
      ConnectionsAreApart(a[1..], b);
      HandledFirst(a, b);
      if !Stream(a[0]).1 {
        assert a[0] in a;
      }
    }
  }

  lemma HandledFirst(a: seq<seq<Event>>, b: seq<seq<Event>>)
    requires a != []
    ensures (forall es :: es in a <==> es == a[0] || es in a[1..])
    ensures var here := Frame(Stream(a[0]).0).0;
            if Stream(a[0]).1 then
              && Handled(a + b) == here + Handled(a[1..] + b)
              && (Handled(a[1..] + b) == Handled(a[1..]) + Handled(b) ==> Handled(a + b) == Handled(a) + Handled(b))
            else Handled(a + b) == here == Handled(a)
  {
    var here := Frame(Stream(a[0]).0).0;
    assert (a + b)[1..] == a[1..] + b && here + [] == here;
    Assoc(here, Handled(a[1..]), Handled(b));
  }

  lemma OneConnection(es: seq<Event>)
    ensures Handled([es]) == Frame(Stream(es).0).0
  {
    assert [es][1..] == [];
    assert Frame(Stream(es).0).0 + [] == Frame(Stream(es).0).0;
  }

  class FritzMonitor {
    const queue: EventQueue

    constructor (queue: EventQueue)
      ensures this.queue == queue
    {
      this.queue := queue;
    }

    /** `handleFritzMessage`: the first two tokens are the date and the command, up to five
        more are arguments. */
    method HandleFritzMessage(msg: string)
      modifies queue
      ensures queue.events == old(queue.events) + Dispatch(msg)
    {
      var tokens := Tokens(msg);
      var it := 0;
      if it == |tokens| {
        return;
      }
      it := it + 1;
      if it == |tokens| {
        return;
      }
      var cmd := tokens[it];
      it := it + 1;
      var args := new string[5](_ => "");
      var argc := 0;
      while argc < 5 && it != |tokens|
        invariant 0 <= argc <= 5 && it == argc + 2 <= |tokens|
        invariant args[..argc] == tokens[2..it]
        invariant queue.events == old(queue.events)
      {
        args[argc] := tokens[it];
        it, argc := it + 1, argc + 1;
      }
      assert args[..argc] == tokens[2..Min(|tokens|, 7)];
      assert forall i :: 0 <= i < argc ==> args[i] == tokens[2..Min(|tokens|, 7)][i];
      if cmd == "CALL" && argc >= 4 {
        OnNewCall(Atoi(args[0]), TypeOutgoing, Dialing, args[2], args[3]);
      } else if cmd == "RING" && argc >= 3 {
        OnNewCall(Atoi(args[0]), TypeIncoming, Offering, args[1], args[2]);
      } else if cmd == "CONNECT" && argc >= 1 {
        queue.Post(CallStatusUpdate(FRITZ_PID, ToUnsigned(Atoi(args[0])), Connected));
      } else if cmd == "DISCONNECT" && argc >= 2 {
        queue.Post(CallStatusUpdate(FRITZ_PID, ToUnsigned(Atoi(args[0])), Idle));
      }
    }

    /** `OnNewInCall` and `OnNewOutCall`. */
    method OnNewCall(cid: int, t: CallType, status: CallStatus, caller: string, called: string)
      modifies queue
      ensures queue.events == old(queue.events) + Announce(cid, t, status, caller, called)
    {
      queue.Post(NewCall(FRITZ_PID, ToUnsigned(cid), t, status));
      queue.Post(CallInfoUpdate(FRITZ_PID, ToUnsigned(cid), CallInfo(called, caller, "", "")));
    }

    /** One piece of data: every line that it completes is handled, the rest is kept. */
    method Receive(line: string, buf: string) returns (rest: string)
      modifies queue
      ensures rest == Frame(line + buf).1
      ensures queue.events == old(queue.events) + DispatchAll(Frame(line + buf).0)
    {
      ghost var all := line + buf;
      rest := line + buf;
      var pos := Find(rest, '\n');
      ghost var done: seq<string> := [];
      assert done + Frame(rest).0 == Frame(rest).0;
      while pos != |rest|
        invariant pos == Find(rest, '\n')
        invariant Frame(all).0 == done + Frame(rest).0 && Frame(all).1 == Frame(rest).1
        invariant queue.events == old(queue.events) + DispatchAll(done)
        decreases |rest|
      {
        var cmd := rest[..pos];
        HandleFritzMessage(cmd);
        HandledOneMore(old(queue.events), done, rest, pos);
        done := done + [cmd];
        rest := rest[pos + 1..];
        pos := Find(rest, '\n');
      }
      assert done + [] == done;
    }

    /** One connection, from its first byte to its end or to the order to stop. */
    method Serve(es: seq<Event>, line: string) returns (ended: bool, rest: string)
      requires line == ""
      modifies queue
      ensures ended == Stream(es).1 && (ended ==> rest == "")
      ensures queue.events == old(queue.events) + DispatchAll(Frame(Stream(es).0).0)
    {
      ended, rest := false, line;
      ghost var seen := "";
      StreamStart(es);
      for i := 0 to |es|
        invariant !ended && rest == Frame(seen).1
        invariant queue.events == old(queue.events) + DispatchAll(Frame(seen).0)
        invariant StreamFrom(es, i, seen)
      {
        var e := es[i];
        StreamStep(es, i, seen);
        if e.Received? {
          SeenOneMore(old(queue.events), seen, e.buf);
          rest := Receive(rest, e.buf);
          seen := seen + e.buf;
        } else if !e.Timeout? {
          rest := "";
          ended := true;
          return;
        }
      }
      StreamEnd(es, seen);
    }

    /** The whole life of the monitor: for every way the streams are cut into pieces, with
        any timeouts between, the handled messages are the newline-terminated segments of
        each connection's stream, and no piece of one is joined to another's. */
    method Monitor(connections: seq<seq<Event>>)
      modifies queue
      ensures queue.events == old(queue.events) + DispatchAll(Handled(connections))
    {
      var line := "";
      ghost var done: seq<string> := [];
      HandledStart(connections);
      for c := 0 to |connections|
        invariant line == ""
        invariant queue.events == old(queue.events) + DispatchAll(done)
        invariant HandledFrom(connections, c, done)
      {
        var ended;
        ended, line := Serve(connections[c], line);
        ghost var here := Frame(Stream(connections[c]).0).0;
        DispatchMore(old(queue.events), done, here);
        HandledStep(connections, c, done);
        done := done + here;
        if !ended {
          return;
        }
      }
      HandledEnd(connections, done);
    }
  }

  // ----- Steps of the loops above -----

  ghost predicate StreamFrom(es: seq<Event>, i: nat, seen: string)
    requires i <= |es|
  {
    Stream(es).0 == seen + Stream(es[i..]).0 && Stream(es).1 == Stream(es[i..]).1
  }

  lemma StreamStart(es: seq<Event>)
    ensures StreamFrom(es, 0, "")
  {
    assert es[0..] == es;
  }

  lemma StreamStep(es: seq<Event>, i: nat, seen: string)
    requires i < |es| && StreamFrom(es, i, seen)
    ensures Ends(es[i]) ==> Stream(es) == (seen, true)
    ensures es[i].Received? ==> StreamFrom(es, i + 1, seen + es[i].buf)
    ensures es[i].Timeout? ==> StreamFrom(es, i + 1, seen)
  {
    assert es[i..][0] == es[i] && es[i..][1..] == es[i + 1..];
    if es[i].Received? {
      assert seen + (es[i].buf + Stream(es[i + 1..]).0) == (seen + es[i].buf) + Stream(es[i + 1..]).0;
    } else {
      assert seen + "" == seen;
    }
  }

  lemma StreamEnd(es: seq<Event>, seen: string)
    requires StreamFrom(es, |es|, seen)
    ensures Stream(es) == (seen, false)
  {
    assert es[|es|..] == [] && seen + "" == seen;
  }

  ghost predicate HandledFrom(cs: seq<seq<Event>>, c: nat, done: seq<string>)
    requires c <= |cs|
  {
    Handled(cs) == done + Handled(cs[c..])
  }

  lemma HandledStart(cs: seq<seq<Event>>)
    ensures HandledFrom(cs, 0, [])
  {
    assert cs[0..] == cs;
  }

  lemma HandledStep(cs: seq<seq<Event>>, c: nat, done: seq<string>)
    requires c < |cs| && HandledFrom(cs, c, done)
    ensures var (s, ended) := Stream(cs[c]);
            if ended then HandledFrom(cs, c + 1, done + Frame(s).0) else Handled(cs) == done + Frame(s).0
  {
    assert cs[c..][0] == cs[c] && cs[c..][1..] == cs[c + 1..];
    var here, later := Frame(Stream(cs[c]).0).0, Handled(cs[c + 1..]);
    assert done + (here + later) == (done + here) + later;
    assert here + [] == here;
  }

  lemma HandledEnd(cs: seq<seq<Event>>, done: seq<string>)
    requires HandledFrom(cs, |cs|, done)
    ensures Handled(cs) == done
  {
    assert cs[|cs|..] == [] && done + [] == done;
  }

  lemma DispatchMore(before: seq<AppEvent>, done: seq<string>, more: seq<string>)
    ensures (before + DispatchAll(done)) + DispatchAll(more) == before + DispatchAll(done + more)
  {
    DispatchAppend(done, more);
  }

  lemma HandledOneMore(before: seq<AppEvent>, done: seq<string>, rest: string, pos: nat)
    requires pos == Find(rest, '\n') && pos < |rest|
    ensures before + DispatchAll(done) + Dispatch(rest[..pos]) == before + DispatchAll(done + [rest[..pos]])
    ensures done + Frame(rest).0 == (done + [rest[..pos]]) + Frame(rest[pos + 1..]).0
    ensures Frame(rest).1 == Frame(rest[pos + 1..]).1
  {
    var cmd, later := rest[..pos], Frame(rest[pos + 1..]).0;
    DispatchOne(cmd);
    DispatchMore(before, done, [cmd]);
    assert Frame(rest).0 == [cmd] + later;
    Assoc(done, [cmd], later);
  }

  lemma DispatchOne(cmd: string)
    ensures DispatchAll([cmd]) == Dispatch(cmd)
  {
    assert [cmd][1..] == [];
    assert Dispatch(cmd) + [] == Dispatch(cmd);
  }

  lemma SeenOneMore(before: seq<AppEvent>, seen: string, buf: string)
    ensures Frame(seen + buf).1 == Frame(Frame(seen).1 + buf).1
    ensures before + DispatchAll(Frame(seen).0) + DispatchAll(Frame(Frame(seen).1 + buf).0)
            == before + DispatchAll(Frame(seen + buf).0)
  {
    FrameAppend(seen, buf);
    var msgs, more := Frame(seen).0, Frame(Frame(seen).1 + buf).0;
    DispatchAppend(msgs, more);
    Assoc(before, DispatchAll(msgs), DispatchAll(more));
  }
}
