/** Exactly which command lists are accepted, and what each of them asks for. */
module PushSyntax {
  import opened Prelude
  import opened ByteText
  import opened PktLine
  import opened PushHead

  // ---------------------------------------------------------------- one command

  /** An object id in lower-case hexadecimal: SHA-1 or SHA-256. */
  ghost predicate ObjectName(b: Bytes) {
    (|b| == 40 || |b| == 64) && forall c :: c in b ==> 48 <= c <= 57 || 97 <= c <= 102
  }

  /** A full ref name: under "refs/", without spaces, and without two dots in a row. */
  ghost predicate FullName(b: Bytes) {
    && |b| >= 5 && b[..5] == [0x72, 0x65, 0x66, 0x73, 0x2f] && SPACE !in b
    && forall i, j :: 0 <= i < |b| && 0 <= j < |b| && b[i] == b[j] == 0x2e ==> j != i + 1
  }

  ghost predicate Asks(line: Bytes, u: RefUpdate) {
    && ObjectName(u.before) && ObjectName(u.after) && FullName(u.ref)
    && line == u.before + [SPACE] + (u.after + [SPACE] + u.ref)
  }

  lemma {:induction false} SplitParts(b: Bytes, sep: Byte)
    ensures var r := Split(b, sep);
            && (forall i :: 0 <= i < |r| ==> sep !in r[i])
            && (|r| == 1 ==> r == [b])
            && (|r| > 1 ==> sep in b && b == r[0] + [sep] + Partition(b, sep).1 && r[1..] == Split(Partition(b, sep).1, sep))
    decreases |b|
  {
    var (head, tail) := Partition(b, sep);
    if sep in b {
      SplitParts(tail, sep);
      var r := Split(b, sep);
      assert r == [head] + Split(tail, sep);
      forall i | 0 <= i < |r| ensures sep !in r[i] {
        if i > 0 { assert r[i] == Split(tail, sep)[i - 1]; }
      }
    }
  }

  lemma SplitBack(b: Bytes, sep: Byte)
    requires |Split(b, sep)| == 3
    ensures var r := Split(b, sep);
            b == r[0] + [sep] + (r[1] + [sep] + r[2]) && sep !in r[0] && sep !in r[1] && sep !in r[2]
  {
    SplitParts(b, sep);
    var r := Split(b, sep);
    var tail := Partition(b, sep).1;
    SplitParts(tail, sep);
    var last := Partition(tail, sep).1;
    SplitParts(last, sep);
    hide Split, Partition;
    assert r[1..] == Split(tail, sep) && Split(tail, sep)[1..] == Split(last, sep);
    assert Split(last, sep) == [last];
    assert r[1] == Split(tail, sep)[0] && r[2] == Split(tail, sep)[1] == Split(last, sep)[0];
  }

  lemma IdsAre(b: Bytes)
    ensures ObjectId(b) <==> ObjectName(b)
    ensures ObjectName(b) ==> SPACE !in b
  {
    if ObjectName(b) {
      forall i | 0 <= i < |b| ensures 0x30 <= b[i] <= 0x39 || 0x61 <= b[i] <= 0x66 {
        assert b[i] in b;
      }
    }
  }

  lemma NamesAre(b: Bytes)
    requires SPACE !in b
    ensures Ascii("refs/") <= b && !HasDots(b) <==> FullName(b)
  {
    assert Ascii("refs/") == [0x72, 0x65, 0x66, 0x73, 0x2f];
    if i :| 0 <= i < |b| - 1 && b[i] == 0x2e && b[i + 1] == 0x2e { assert b[i] == b[i + 1] == 0x2e; }
  }

  /** A command is read as an update exactly if it is two object ids and a full ref name, with one space between them. */
  lemma UpdateExactly(line: Bytes, u: RefUpdate)
    ensures ParseUpdate(line) == Some(u) <==> Asks(line, u)
  {
    hide Split, ObjectId, ObjectName, HasDots, FullName, Ascii;
    if ParseUpdate(line) == Some(u) {
      SplitBack(line, SPACE);
      IdsAre(u.before);
      IdsAre(u.after);
      NamesAre(u.ref);
    }
    if Asks(line, u) {
      IdsAre(u.before);
      IdsAre(u.after);
      NameHasNoSpace(u.ref);
      NamesAre(u.ref);
      SplitThree(u.before, u.after, u.ref);
    }
  }

  lemma NameHasNoSpace(b: Bytes)
    ensures FullName(b) ==> SPACE !in b
  {
  }

  // ---------------------------------------------------------------- the list

  /** The lines up to the first flush, without their line ends, shallow lines left out. */
  ghost function Told(packets: seq<Packet>): seq<Bytes> {
    if packets == [] || packets[0].None? then []
    else
      var line := RStrip(packets[0].value, NEWLINE);
      if Ascii("shallow ") <= line then Told(packets[1..]) else [line] + Told(packets[1..])
  }

  // The command of a line: on the first line, what stands before the capabilities.
  ghost function CommandOf(line: Bytes, first: bool): Bytes {
    if first && 0 in line then Partition(line, 0).0 else line
  }

  ghost predicate Certified(line: Bytes) {
    Ascii("push-cert") <= line
  }

  ghost predicate Fine(line: Bytes, first: bool) {
    !Certified(line) && exists u :: Asks(CommandOf(line, first), u)
  }

  /** The first line that cannot be carried out. */
  ghost predicate FirstBad(lines: seq<Bytes>, first: bool, i: int) {
    && 0 <= i < |lines| && !Fine(lines[i], first && i == 0)
    && forall j :: 0 <= j < i ==> Fine(lines[j], first && j == 0)
  }

  ghost predicate AllFine(lines: seq<Bytes>, first: bool) {
    forall i :: 0 <= i < |lines| ==> Fine(lines[i], first && i == 0)
  }

  // Each line asks for its update; the first may name capabilities.
  ghost predicate ReadsAs(lines: seq<Bytes>, first: bool, updates: seq<RefUpdate>, before: set<Bytes>, capabilities: set<Bytes>) {
    && |updates| == |lines|
    && (forall i :: 0 <= i < |lines| ==> Asks(CommandOf(lines[i], first && i == 0), updates[i]))
    && capabilities == if first && lines != [] && 0 in lines[0] then Words(Partition(lines[0], 0).1) else before
  }

  lemma FineExactly(line: Bytes, first: bool)
    ensures Fine(line, first) <==> !Certified(line) && ParseUpdate(CommandOf(line, first)).Some?
    ensures ParseUpdate(CommandOf(line, first)).Some? ==>
              Asks(CommandOf(line, first), ParseUpdate(CommandOf(line, first)).value)
  {
    hide ParseUpdate, Asks, CommandOf;
    var c := CommandOf(line, first);
    if ParseUpdate(c).Some? { UpdateExactly(c, ParseUpdate(c).value); }
    forall u | Asks(c, u) ensures ParseUpdate(c) == Some(u) { UpdateExactly(c, u); }
  }

  // What the loop makes of the lines that are left, after `updates`.
  ghost predicate Outcome(lines: seq<Bytes>, updates: seq<RefUpdate>, capabilities: set<Bytes>, r: Head) {
    match r
    case Head(all, known) =>
      && AllFine(lines, updates == []) && |all| >= |updates| && all[..|updates|] == updates
      && ReadsAs(lines, updates == [], all[|updates|..], capabilities, known)
    case Malformed(code) =>
      exists i :: FirstBad(lines, updates == [], i) && code == if Certified(lines[i]) then PushCertUnsupported else InvalidPushCommand
    case Incomplete => false
  }

  lemma OutcomeNone(updates: seq<RefUpdate>, capabilities: set<Bytes>)
    ensures Outcome([], updates, capabilities, Head(updates, capabilities))
  {
    assert updates[..|updates|] == updates && updates[|updates|..] == [];
  }

  lemma OutcomeBad(line: Bytes, rest: seq<Bytes>, updates: seq<RefUpdate>, capabilities: set<Bytes>)
    requires !Fine(line, updates == [])
    ensures Outcome([line] + rest, updates, capabilities,
                    Malformed(if Certified(line) then PushCertUnsupported else InvalidPushCommand))
  {
    hide Fine, Certified;
    assert FirstBad([line] + rest, updates == [], 0);
  }

  lemma OutcomeMore(line: Bytes, rest: seq<Bytes>, updates: seq<RefUpdate>, u: RefUpdate, before: set<Bytes>,
                    known: set<Bytes>, r: Head)
    requires Fine(line, updates == []) && Asks(CommandOf(line, updates == []), u)
    requires known == if updates == [] && 0 in line then Words(Partition(line, 0).1) else before
    requires Outcome(rest, updates + [u], known, r)
    ensures Outcome([line] + rest, updates, before, r)
  {
    hide Fine, Asks, CommandOf, Words, Partition, Certified;
    var lines := [line] + rest;
    match r
    case Head(all, _) =>
      assert all[..|updates|] == all[..|updates| + 1][..|updates|] == updates;
      assert all[|updates|..][1..] == all[|updates| + 1..] && all[|updates|] == all[..|updates| + 1][|updates|] == u;
      forall i | 0 <= i < |lines| ensures Fine(lines[i], updates == [] && i == 0) {
        if i > 0 { assert lines[i] == rest[i - 1]; }
      }
      forall i | 0 <= i < |lines| ensures Asks(CommandOf(lines[i], updates == [] && i == 0), all[|updates|..][i]) {
        if i > 0 { assert lines[i] == rest[i - 1]; }
      }
    case Malformed(_) =>
      var i :| FirstBad(rest, false, i) && r.code == if Certified(rest[i]) then PushCertUnsupported else InvalidPushCommand;
      forall j | 0 <= j < i + 1 ensures Fine(lines[j], updates == [] && j == 0) {
        if j > 0 { assert lines[j] == rest[j - 1]; }
      }
      assert FirstBad(lines, updates == [], i + 1);
  }

  lemma {:induction false} CommandsExactly(packets: seq<Packet>, updates: seq<RefUpdate>, capabilities: set<Bytes>)
    ensures Outcome(Told(packets), updates, capabilities, Commands(packets, updates, capabilities))
    decreases |packets|
  {
    hide Outcome, RStrip, ParseUpdate, Partition, Words, Ascii, Asks, Fine;
    if packets == [] || packets[0].None? {
      OutcomeNone(updates, capabilities);
    } else {
      var line := RStrip(packets[0].value, NEWLINE);
      if Ascii("shallow ") <= line {
        CommandsExactly(packets[1..], updates, capabilities);
      } else {
        var first := updates == [];
        FineExactly(line, first);
        if Fine(line, first) {
          var u := ParseUpdate(CommandOf(line, first)).value;
          var known := if first && 0 in line then Words(Partition(line, 0).1) else capabilities;
          CommandsExactly(packets[1..], updates + [u], known);
          OutcomeMore(line, Told(packets[1..]), updates, u, capabilities, known, Commands(packets[1..], updates + [u], known));
        } else {
          OutcomeBad(line, Told(packets[1..]), updates, capabilities);
        }
      }
    }
  }

  /**
   * What is made of the bytes so far. Too many packets, a broken packet and an unfinished list are told apart; a finished
   * list is accepted exactly if every line but the shallow ones asks for an update, and there is one unless the list is a
   * lone flush; the first line at fault decides the error.
   */
  lemma HeadExactly(plain: Bytes)
    ensures match ReadPackets(plain, Some(10000))
            case NeedMore => ParseHead(plain) == Incomplete
            case TooMany => ParseHead(plain) == Malformed(TooManyCommands)
            case BadLength => ParseHead(plain) == Malformed(InvalidPktLine)
            case NotHex => ParseHead(plain) == Malformed(InvalidPktLine)
            case Lines(packets, _) =>
              var lines := Told(packets);
              match ParseHead(plain)
              case Head(updates, capabilities) =>
                && AllFine(lines, true) && ReadsAs(lines, true, updates, {}, capabilities)
                && (lines != [] || packets == [] || packets[0] == None)
              case Malformed(code) =>
                || (lines == [] && packets != [] && packets[0].Some? && code == InvalidPushCommand)
                || exists i :: FirstBad(lines, true, i) &&
                               code == if Certified(lines[i]) then PushCertUnsupported else InvalidPushCommand
              case Incomplete => false
  {
    var lines := ReadPackets(plain, Some(MAX_PACKETS));
    if lines.Lines? {
      CommandsExactly(lines.packets, [], {});
      hide Told, Commands, AllFine, ReadsAs, FirstBad, Certified, ReadPackets;
      var head := Commands(lines.packets, [], {});
      if head.Head? {
        assert head.updates[0..] == head.updates;
        ReadsLength(Told(lines.packets), true, head.updates, {}, head.capabilities);
      }
    }
  }

  lemma ReadsLength(lines: seq<Bytes>, first: bool, updates: seq<RefUpdate>, before: set<Bytes>, capabilities: set<Bytes>)
    ensures ReadsAs(lines, first, updates, before, capabilities) ==> |updates| == |lines|
  {
  }

  /** A push of more than 10000 packets is refused for that, whatever they hold. */
  lemma TooManyRefused(payloads: seq<Bytes>, rest: Bytes)
    requires |payloads| > 10000 && forall p :: p in payloads ==> Fits(p)
    ensures ParseHead(Frame(payloads) + rest) == Malformed(TooManyCommands)
  {
    hide Frame, Fits, ReadFrom;
    ReadTooMany([], payloads, rest, [], 10000);
    assert [] + (Frame(payloads) + rest) == Frame(payloads) + rest;
  }
}
