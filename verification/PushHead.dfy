/** The command list at the head of a push, read from a body that arrives in chunks. */
module PushHead {
  import opened Prelude
  import opened ByteText
  import opened PktLine

  const MAX_HEAD := 4 * 1024 * 1024
  const MAX_PACKETS: nat := 10000

  datatype Code = InvalidPktLine | TooManyCommands | PushCertUnsupported | InvalidPushCommand | PushHeadTooLarge

  // Names stay byte strings: decoding happens only for display.
  datatype RefUpdate = RefUpdate(before: Bytes, after: Bytes, ref: Bytes)

  datatype Head = Head(updates: seq<RefUpdate>, capabilities: set<Bytes>) | Incomplete | Malformed(code: Code)

  // ---------------------------------------------------------------- one command

  predicate ObjectId(b: Bytes) {
    (|b| == 40 || |b| == 64) && forall i :: 0 <= i < |b| ==> 0x30 <= b[i] <= 0x39 || 0x61 <= b[i] <= 0x66
  }

  predicate HasDots(b: Bytes) {
    exists i :: 0 <= i < |b| - 1 && b[i] == 0x2e && b[i + 1] == 0x2e
  }

  function ParseUpdate(line: Bytes): (r: Option<RefUpdate>) {
    var fields := Split(line, SPACE);
    if |fields| != 3 || !ObjectId(fields[0]) || !ObjectId(fields[1]) then None
    else if !(Ascii("refs/") <= fields[2]) || HasDots(fields[2]) then None
    else Some(RefUpdate(fields[0], fields[1], fields[2]))
  }

  /** The rest of the command list, up to the first flush or delimiter. */
  function Commands(packets: seq<Packet>, updates: seq<RefUpdate>, capabilities: set<Bytes>): (r: Head) {
    if packets == [] || packets[0].None? then Head(updates, capabilities)
    else
      var line := RStrip(packets[0].value, NEWLINE);
      if Ascii("shallow ") <= line then Commands(packets[1..], updates, capabilities)
      else if Ascii("push-cert") <= line then Malformed(PushCertUnsupported)
      else
        var first := updates == [] && 0 in line;
        var command := if first then Partition(line, 0).0 else line;
        var known := if first then Words(Partition(line, 0).1) else capabilities;
        match ParseUpdate(command)
        case None => Malformed(InvalidPushCommand)
        case Some(u) => Commands(packets[1..], updates + [u], known)
  }

  function ParseHead(plain: Bytes): (r: Head) {
    match ReadPackets(plain, Some(MAX_PACKETS))
    case NeedMore => Incomplete
    case TooMany => Malformed(TooManyCommands)
    case BadLength => Malformed(InvalidPktLine)
    case NotHex => Malformed(InvalidPktLine)
    case Lines(packets, _) =>
      var head := Commands(packets, [], {});
      if head.Head? && head.updates == [] && packets != [] && packets[0].Some? then Malformed(InvalidPushCommand)
      else head
  }

  /** `parse_receive_pack_commands`: the loop over the packets. */
  method ParseReceivePackCommands(plain: Bytes) returns (r: Head)
    ensures r == ParseHead(plain)
  {
    var lines := ReadPktLines(plain, Some(MAX_PACKETS));
    if lines.NeedMore? { return Incomplete; }
    if lines.TooMany? { return Malformed(TooManyCommands); }
    if !lines.Lines? { return Malformed(InvalidPktLine); }
    var packets := lines.packets;
    var updates: seq<RefUpdate>, capabilities: set<Bytes> := [], {};
    var i := 0;
    while i < |packets| && packets[i].Some?
      invariant 0 <= i <= |packets|
      invariant Commands(packets, [], {}) == Commands(packets[i..], updates, capabilities)
    {
      var line := RStrip(packets[i].value, NEWLINE);
      i := i + 1;
      if Ascii("shallow ") <= line { continue; }
      if Ascii("push-cert") <= line { return Malformed(PushCertUnsupported); }
      if updates == [] && 0 in line {
        var parts := Partition(line, 0);
        line, capabilities := parts.0, Words(parts.1);
      }
      var update := ParseUpdate(line);
      if update.None? { return Malformed(InvalidPushCommand); }
      updates := updates + [update.value];
    }
    if updates == [] && packets != [] && packets[0].Some? { return Malformed(InvalidPushCommand); }
    return Head(updates, capabilities);
  }

  // ---------------------------------------------------------------- chunk by chunk

  /** What `PushHead.feed` answers once `plain` is what has arrived so far. */
  function Fed(plain: Bytes): (r: Head) {
    var head := ParseHead(plain);
    if head.Incomplete? && |plain| > MAX_HEAD then Malformed(PushHeadTooLarge) else head
  }

  class PushHead {
    var plain: Bytes

    constructor ()
      ensures plain == []
    {
      plain := [];
    }

    method Feed(chunk: Bytes) returns (r: Head)
      modifies this
      ensures plain == old(plain) + chunk
      ensures r == Fed(plain)
    {
      plain := plain + chunk;
      r := ParseReceivePackCommands(plain);
      if r.Incomplete? && |plain| > MAX_HEAD { return Malformed(PushHeadTooLarge); }
    }
  }

  datatype Verdict = Accepted(updates: seq<RefUpdate>, capabilities: set<Bytes>) | Refused(code: Code)

  /** The verdict on the chunks still to come, after `plain`. */
  function Drive(chunks: seq<Bytes>, plain: Bytes): (r: Verdict) {
    if chunks == [] then Refused(InvalidPushCommand)
    else
      var grown := plain + chunks[0];
      match Fed(grown)
      case Head(updates, capabilities) => Accepted(updates, capabilities)
      case Malformed(code) => Refused(code)
      case Incomplete => Drive(chunks[1..], grown)
  }

  function HeadVerdict(chunks: seq<Bytes>): (r: Verdict) {
    Drive(chunks, [])
  }

  /** `_push_head`: feed chunks until the head is complete, keeping them to forward ahead of the rest. */
  method ReadHead(chunks: seq<Bytes>) returns (verdict: Verdict, forward: seq<Bytes>)
    ensures verdict == HeadVerdict(chunks)
    ensures verdict.Accepted? ==> Flatten(forward) == Flatten(chunks)
    ensures verdict.Refused? ==> forward == []
  {
    var head := new PushHead();
    var buffered: seq<Bytes> := [];
    var i := 0;
    while i < |chunks|
      invariant 0 <= i <= |chunks|
      invariant buffered == chunks[..i]
      invariant HeadVerdict(chunks) == Drive(chunks[i..], head.plain)
    {
      buffered := buffered + [chunks[i]];
      var parsed := head.Feed(chunks[i]);
      i := i + 1;
      if parsed.Malformed? { return Refused(parsed.code), []; }
      if parsed.Head? {
        FlattenAppend(buffered, chunks[i..]);
        assert chunks == buffered + chunks[i..];
        return Accepted(parsed.updates, parsed.capabilities), buffered + chunks[i..];
      }
    }
    return Refused(InvalidPushCommand), [];
  }

  // ---------------------------------------------------------------- how a body is cut does not matter

  function VerdictOf(head: Head): (r: Verdict) {
    match head
    case Head(updates, capabilities) => Accepted(updates, capabilities)
    case Malformed(code) => Refused(code)
    case Incomplete => Refused(InvalidPushCommand)
  }

  lemma ParseStable(plain: Bytes, rest: Bytes)
    requires !ParseHead(plain).Incomplete?
    ensures ParseHead(plain + rest) == ParseHead(plain)
  {
    CommandsComplete(plain);
    ReadStable(plain, rest, 0, [], Some(MAX_PACKETS));
  }

  lemma {:induction false} CommandsNeverWait(packets: seq<Packet>, updates: seq<RefUpdate>, capabilities: set<Bytes>)
    ensures !Commands(packets, updates, capabilities).Incomplete?
    ensures Commands(packets, updates, capabilities) != Malformed(PushHeadTooLarge)
    decreases |packets|
  {
    hide RStrip, ParseUpdate, Partition, Words, Ascii;
    if packets != [] && packets[0].Some? {
      var line := RStrip(packets[0].value, NEWLINE);
      var first := updates == [] && 0 in line;
      var command := if first then Partition(line, 0).0 else line;
      var known := if first then Words(Partition(line, 0).1) else capabilities;
      CommandsNeverWait(packets[1..], updates, capabilities);
      if ParseUpdate(command).Some? {
        CommandsNeverWait(packets[1..], updates + [ParseUpdate(command).value], known);
      }
    }
  }

  lemma CommandsComplete(plain: Bytes)
    ensures ParseHead(plain).Incomplete? <==> ReadPackets(plain, Some(MAX_PACKETS)) == NeedMore
    ensures ParseHead(plain) != Malformed(PushHeadTooLarge)
  {
    var lines := ReadPackets(plain, Some(MAX_PACKETS));
    if lines.Lines? { CommandsNeverWait(lines.packets, [], {}); }
  }

  /** The command list is complete, or seen to be malformed, within the first `k` bytes. */
  ghost predicate DecidedWithin(body: Bytes, k: nat) {
    k <= |body| && !ParseHead(body[..k]).Incomplete?
  }

  lemma DecidedLater(body: Bytes, k: nat, n: nat)
    requires DecidedWithin(body, k) && k <= n <= |body|
    ensures ParseHead(body[..n]) == ParseHead(body[..k])
  {
    ParseStable(body[..k], body[k..n]);
    assert body[..k] + body[k..n] == body[..n];
  }

  lemma {:induction false} DriveDecides(chunks: seq<Bytes>, plain: Bytes, body: Bytes, k: nat)
    requires body == plain + Flatten(chunks)
    requires ParseHead(plain).Incomplete? && DecidedWithin(body, k) && k <= MAX_HEAD + 1
    ensures Drive(chunks, plain) == VerdictOf(ParseHead(body))
    decreases |chunks|
  {
    assert chunks == [] ==> body == plain;
    assert body[..|body|] == body;
    DecidedLater(body, k, |body|);
    if chunks != [] {
      var grown := plain + chunks[0];
      assert body == grown + Flatten(chunks[1..]);
      assert body[..|grown|] == grown;
      if ParseHead(grown).Incomplete? {
        if k <= |grown| { DecidedLater(body, k, |grown|); }
        DriveDecides(chunks[1..], grown, body, k);
      } else {
        DecidedLater(body, |grown|, |body|);
      }
    }
  }

  lemma {:induction false} DriveUndecided(chunks: seq<Bytes>, plain: Bytes, body: Bytes)
    requires body == plain + Flatten(chunks)
    requires forall k: nat :: k <= |body| ==> !DecidedWithin(body, k)
    requires |plain| <= MAX_HEAD
    ensures Drive(chunks, plain) ==
            Refused(if |body| > MAX_HEAD then PushHeadTooLarge else InvalidPushCommand)
    decreases |chunks|
  {
    if chunks == [] {
      assert body == plain;
    } else {
      var grown := plain + chunks[0];
      assert body == grown + Flatten(chunks[1..]);
      assert body[..|grown|] == grown;
      assert !DecidedWithin(body, |grown|);
      if |grown| <= MAX_HEAD { DriveUndecided(chunks[1..], grown, body); }
    }
  }

  lemma FlattenOne(body: Bytes)
    ensures Flatten([body]) == body
  {
  }

  lemma EmptyIsIncomplete()
    ensures ParseHead([]).Incomplete?
  {
  }

  // ---------------------------------------------------------------- pieces of bounded size

  ghost predicate Small(chunks: seq<Bytes>, size: nat) {
    forall c :: c in chunks ==> |c| <= size
  }

  /** Wherever a body is cut into pieces of at most `size` bytes, the verdict is the same. */
  ghost predicate CutsAgree(body: Bytes, size: nat) {
    forall a, b :: Flatten(a) == body && Flatten(b) == body && Small(a, size) && Small(b, size) ==>
      HeadVerdict(a) == HeadVerdict(b)
  }

  ghost predicate FirstDecided(body: Bytes, k: nat) {
    DecidedWithin(body, k) && forall j: nat :: j < k ==> !DecidedWithin(body, j)
  }

  /** The head ends beyond the limit, but within one piece of it. */
  ghost predicate Straddles(body: Bytes, size: nat) {
    exists k: nat :: MAX_HEAD + 1 < k <= MAX_HEAD + size && FirstDecided(body, k)
  }

  ghost predicate InTime(body: Bytes) {
    exists k: nat :: k <= MAX_HEAD + 1 && DecidedWithin(body, k)
  }

  /** The verdict that does not depend on the cut. */
  ghost function VerdictOn(body: Bytes): Verdict {
    if InTime(body) then VerdictOf(ParseHead(body))
    else Refused(if |body| > MAX_HEAD then PushHeadTooLarge else InvalidPushCommand)
  }

  lemma {:induction false} FirstExists(body: Bytes, k: nat) returns (first: nat)
    requires DecidedWithin(body, k)
    ensures first <= k && FirstDecided(body, first)
  {
    if j: nat :| j < k && DecidedWithin(body, j) {
      first := FirstExists(body, j);
    } else {
      first := k;
    }
  }

  // Undecided as far as one piece beyond the limit: refused, however it is cut.
  lemma {:induction false} DriveTooLate(chunks: seq<Bytes>, plain: Bytes, body: Bytes, size: nat)
    requires body == plain + Flatten(chunks) && Small(chunks, size) && |plain| <= MAX_HEAD < |body|
    requires forall j: nat :: j <= MAX_HEAD + size ==> !DecidedWithin(body, j)
    ensures Drive(chunks, plain) == Refused(PushHeadTooLarge)
    decreases |chunks|
  {
    hide ParseHead;
    assert chunks == [] ==> body == plain;
    if chunks != [] {
      var grown := plain + chunks[0];
      assert chunks[0] in chunks;
      assert body == grown + Flatten(chunks[1..]);
      assert body[..|grown|] == grown;
      assert !DecidedWithin(body, |grown|);
      if |grown| <= MAX_HEAD { DriveTooLate(chunks[1..], grown, body, size); }
    }
  }

  /** Every small cut of a body that does not straddle the limit gives the one verdict on it. */
  lemma SmallCutsAgree(body: Bytes, chunks: seq<Bytes>, size: nat)
    requires !Straddles(body, size) && Flatten(chunks) == body && Small(chunks, size)
    ensures HeadVerdict(chunks) == VerdictOn(body)
  {
    EmptyIsIncomplete();
    hide ParseHead;
    assert [] + body == body;
    if InTime(body) {
      var k: nat :| k <= MAX_HEAD + 1 && DecidedWithin(body, k);
      DriveDecides(chunks, [], body, k);
    } else if k: nat :| DecidedWithin(body, k) {
      var first := FirstExists(body, k);
      assert first > MAX_HEAD + size;
      DriveTooLate(chunks, [], body, size);
    } else {
      DriveUndecided(chunks, [], body);
    }
  }

  // ---------------------------------------------------------------- and a body that straddles it

  /** A cut with a boundary at the limit and the next one at `end`. */
  function CutAt(body: Bytes, size: nat, end: nat): (r: seq<Bytes>)
    requires size > 0 && MAX_HEAD < end <= |body|
  {
    Pieces(body[..MAX_HEAD], size) + ([body[MAX_HEAD..end]] + Pieces(body[end..], size))
  }

  lemma CutAtIsCut(body: Bytes, size: nat, end: nat)
    requires size > 0 && MAX_HEAD < end <= |body| && end <= MAX_HEAD + size
    ensures Flatten(CutAt(body, size, end)) == body && Small(CutAt(body, size, end), size)
  {
    var a, m, b := Pieces(body[..MAX_HEAD], size), body[MAX_HEAD..end], Pieces(body[end..], size);
    hide Pieces;
    FlattenAppend(a, [m] + b);
    FlattenAppend([m], b);
    FlattenOne(m);
    assert body == body[..MAX_HEAD] + (m + body[end..]);
  }

  // Pieces that decide nothing and stay within the limit are only buffered.
  lemma {:induction false} DriveOn(a: seq<Bytes>, b: seq<Bytes>, plain: Bytes)
    requires |plain + Flatten(a)| <= MAX_HEAD
    requires forall j: nat :: j <= |Flatten(a)| ==> ParseHead(plain + Flatten(a)[..j]).Incomplete?
    ensures Drive(a + b, plain) == Drive(b, plain + Flatten(a))
    decreases |a|
  {
    hide ParseHead;
    if a == [] {
      assert a + b == b && plain + Flatten(a) == plain;
    } else {
      var grown, tail := plain + a[0], Flatten(a[1..]);
      assert Flatten(a)[..|a[0]|] == a[0];
      assert ParseHead(grown).Incomplete?;
      forall j: nat | j <= |tail| ensures ParseHead(grown + tail[..j]).Incomplete? {
        assert Flatten(a)[..|a[0]| + j] == a[0] + tail[..j];
        assert grown + tail[..j] == plain + (a[0] + tail[..j]);
      }
      assert grown + tail == plain + Flatten(a);
      DriveOn(a[1..], b, grown);
      assert (a + b)[1..] == a[1..] + b;
    }
  }

  /** Past the limit, the verdict is the parser's if the piece reaches the end of the head, and "too large" if not. */
  lemma CutAtVerdict(body: Bytes, size: nat, end: nat, k: nat)
    requires size > 0 && MAX_HEAD < end <= |body| && MAX_HEAD + 1 < k && FirstDecided(body, k)
    ensures HeadVerdict(CutAt(body, size, end)) ==
            if end < k then Refused(PushHeadTooLarge) else VerdictOf(ParseHead(body))
  {
    hide ParseHead, Pieces;
    var a, m, b := Pieces(body[..MAX_HEAD], size), body[MAX_HEAD..end], Pieces(body[end..], size);
    forall j: nat | j <= |Flatten(a)| ensures ParseHead([] + Flatten(a)[..j]).Incomplete? {
      assert [] + Flatten(a)[..j] == body[..j];
      assert !DecidedWithin(body, j);
    }
    assert [] + Flatten(a) == body[..MAX_HEAD];
    DriveOn(a, [m] + b, []);
    assert body[..MAX_HEAD] + m == body[..end];
    assert body[..|body|] == body;
    if end < k {
      assert !DecidedWithin(body, end);
    } else {
      DecidedLater(body, k, end);
      DecidedLater(body, k, |body|);
    }
  }

  // The verdict of the parser is never "too large".
  lemma LateCutDiffers(body: Bytes, size: nat, k: nat)
    requires size > 0 && MAX_HEAD + 1 < k <= MAX_HEAD + size && FirstDecided(body, k)
    ensures Flatten(CutAt(body, size, MAX_HEAD + 1)) == Flatten(CutAt(body, size, k)) == body
    ensures Small(CutAt(body, size, MAX_HEAD + 1), size) && Small(CutAt(body, size, k), size)
    ensures HeadVerdict(CutAt(body, size, MAX_HEAD + 1)) != HeadVerdict(CutAt(body, size, k))
  {
    CommandsComplete(body);
    assert body[..|body|] == body;
    DecidedLater(body, k, |body|);
    hide ParseHead, CutAt;
    CutAtIsCut(body, size, MAX_HEAD + 1);
    CutAtIsCut(body, size, k);
    CutAtVerdict(body, size, MAX_HEAD + 1, k);
    CutAtVerdict(body, size, k, k);
  }

  /**
   * For every bound on the size of a piece: all ways of cutting a body into such pieces give the same
   * updates, capabilities or error if and only if the head does not end more than one byte and at most
   * one piece beyond MAX_HEAD.
   */
  lemma CutsAgreeExactly(body: Bytes, size: nat)
    requires size > 0
    ensures CutsAgree(body, size) <==> !Straddles(body, size)
  {
    hide HeadVerdict, FirstDecided, Small;
    if Straddles(body, size) {
      var k: nat :| MAX_HEAD + 1 < k <= MAX_HEAD + size && FirstDecided(body, k);
      DecidedIsLong(body, k);
      LateCutDiffers(body, size, k);
    } else {
      forall a, b | Flatten(a) == body && Flatten(b) == body && Small(a, size) && Small(b, size)
        ensures HeadVerdict(a) == HeadVerdict(b)
      {
        SmallCutsAgree(body, a, size);
        SmallCutsAgree(body, b, size);
      }
    }
  }

  lemma DecidedIsLong(body: Bytes, k: nat)
    requires FirstDecided(body, k)
    ensures k <= |body|
  {
  }
}
