/** One push through the gateway: its body is read, its head is judged, and its bytes are sent on. */
module PushRelay {
  import opened Prelude
  import opened ByteText
  import opened P = PushHead
  import opened PktLine
  import C = PushCommands
  import H = HttpBody

  datatype Relay =
    | NotOpened(refusal: H.Refusal)
    | Unreadable(error: H.Error)
    | Denied(code: Code)
    | Broken(updates: seq<RefUpdate>, capabilities: set<Bytes>, sent: Bytes, error: H.Error)
    | Sent(updates: seq<RefUpdate>, capabilities: set<Bytes>, sent: Bytes)

  /** What a reader makes of a request body. */
  function Received(data: Bytes, chunked: bool, length: int, limit: nat): (o: H.Outcome)
    requires chunked || length >= 0
  {
    if chunked then H.Chunked(data, 0, 0, limit) else H.Fixed(data, 0, length, 0, limit)
  }

  // ---------------------------------------------------------------- sending

  function Framed(chunked: bool, block: Bytes): (r: Bytes) {
    if chunked && block != [] then H.ChunkOf(block) else block
  }

  /** What `upstream` has sent after these blocks, before the end of the body. */
  function Sending(chunked: bool, blocks: seq<Bytes>): (r: Bytes) {
    if blocks == [] then [] else Framed(chunked, blocks[0]) + Sending(chunked, blocks[1..])
  }

  function Ending(chunked: bool): (r: Bytes) {
    if chunked then H.LAST_CHUNK else []
  }

  lemma {:induction false} SendingMore(chunked: bool, blocks: seq<Bytes>, b: Bytes)
    ensures Sending(chunked, blocks + [b]) == Sending(chunked, blocks) + Framed(chunked, b)
  {
    hide Framed;
    if blocks == [] {
      assert blocks + [b] == [b] && [b][1..] == [];
    } else {
      SendingMore(chunked, blocks[1..], b);
      assert (blocks + [b])[1..] == blocks[1..] + [b];
      Regroup(Framed(chunked, blocks[0]), Sending(chunked, blocks[1..]), Framed(chunked, b));
    }
  }

  lemma {:induction false} SendingAll(blocks: seq<Bytes>)
    ensures Sending(true, blocks) + H.LAST_CHUNK == H.Encode(blocks)
  {
    hide H.ChunkOf, H.LAST_CHUNK;
    if blocks != [] {
      SendingAll(blocks[1..]);
      Regroup(Framed(true, blocks[0]), Sending(true, blocks[1..]), H.LAST_CHUNK);
    }
  }

  lemma {:induction false} SendingPlain(blocks: seq<Bytes>)
    ensures Sending(false, blocks) == Flatten(blocks)
  {
    if blocks != [] { SendingPlain(blocks[1..]); }
  }

  // ---------------------------------------------------------------- what the server makes of it

  ghost predicate AllFit(blocks: seq<Bytes>) {
    forall b :: b in blocks ==> H.SizeFits(b)
  }

  lemma {:induction false} DigitsGrow(m: nat, n: nat)
    requires m <= n
    ensures |HexText(m)| <= |HexText(n)|
  {
    if m >= 16 { DigitsGrow(m / 16, n / 16); }
  }

  lemma ShorterFits(b: Bytes, data: Bytes)
    requires |b| <= |data| && H.SizeFits(data)
    ensures H.SizeFits(b)
  {
    DigitsGrow(|b|, |data|);
  }

  lemma PieceFits(b: Bytes)
    requires |b| <= H.CHUNK
    ensures H.SizeFits(b)
  {
    DigitsGrow(|b|, H.CHUNK);
    assert |HexText(H.CHUNK)| <= 5;
  }

  /** A complete body arrives as it was, and the server reads no byte beyond it. */
  lemma SentArrives(chunked: bool, blocks: seq<Bytes>, limit: nat)
    requires AllFit(blocks) && |Flatten(blocks)| <= limit
    ensures var sent := Sending(chunked, blocks) + Ending(chunked);
            Received(sent, chunked, |Flatten(blocks)|, limit) == H.Done(Flatten(blocks), |sent|)
  {
    hide H.Chunked, H.Fixed, H.SizeFits, Sending;
    var sent := Sending(chunked, blocks) + Ending(chunked);
    if chunked {
      SendingAll(blocks);
      hide H.LAST_CHUNK;
      assert sent[0..0 + |sent|] == sent;
      H.ChunkedRoundTrip(sent, 0, blocks, 0, limit);
    } else {
      SendingPlain(blocks);
      assert sent == Flatten(blocks) && sent[0..0 + |sent|] == sent;
      H.FixedExactly(sent, 0, |sent|, 0, limit);
    }
  }

  // A chunked body without its last chunk.
  lemma {:induction false} ChunksBreakOff(data: Bytes, pos: nat, blocks: seq<Bytes>, total: nat, limit: nat)
    requires H.At(data, pos, Sending(true, blocks)) && pos + |Sending(true, blocks)| == |data|
    requires AllFit(blocks) && total + |Flatten(blocks)| <= limit
    ensures H.Chunked(data, pos, total, limit) == H.Failed(Flatten(blocks), H.ShortRequest)
    decreases |blocks|
  {
    hide H.Chunked, H.SizeFits, H.ChunkOf, H.At, H.Prepend, Sending, Flatten;
    SendingFirst(blocks);
    if blocks == [] {
      NothingLeft(data, pos, total, limit);
    } else {
      var block, tail := blocks[0], blocks[1..];
      H.AtParts(data, pos, Framed(true, block), Sending(true, tail));
      assert block in blocks;
      if block == [] {
        ChunksBreakOff(data, pos, tail, total, limit);
      } else {
        H.WholeChunk(data, pos, block, total, limit);
        ChunksBreakOff(data, pos + |H.ChunkOf(block)|, tail, total + |block|, limit);
        PrependFailed(block, Flatten(tail));
      }
    }
  }

  lemma SendingFirst(blocks: seq<Bytes>)
    ensures blocks == [] ==> Sending(true, blocks) == [] && Flatten(blocks) == []
    ensures blocks != [] ==> Sending(true, blocks) == Framed(true, blocks[0]) + Sending(true, blocks[1..])
    ensures blocks != [] ==> Flatten(blocks) == blocks[0] + Flatten(blocks[1..])
    ensures blocks != [] && blocks[0] == [] ==> Flatten(blocks) == Flatten(blocks[1..])
  {
  }

  lemma PrependFailed(a: Bytes, b: Bytes)
    ensures H.Prepend(a, H.Failed(b, H.ShortRequest)) == H.Failed(a + b, H.ShortRequest)
  {
  }

  lemma NothingLeft(data: Bytes, pos: nat, total: nat, limit: nat)
    requires pos == |data|
    ensures H.Chunked(data, pos, total, limit) == H.Failed([], H.ShortRequest)
  {
  }

  /** A body that breaks off never looks complete: the server gets the bytes so far and a short request. */
  lemma BrokenIsSeen(chunked: bool, blocks: seq<Bytes>, length: nat, limit: nat)
    requires chunked ==> AllFit(blocks) && |Flatten(blocks)| <= limit
    requires !chunked ==> |Flatten(blocks)| < length <= limit
    ensures Received(Sending(chunked, blocks), chunked, length, limit) == H.Failed(Flatten(blocks), H.ShortRequest)
  {
    hide H.Chunked, H.Fixed, H.SizeFits, Sending;
    var sent := Sending(chunked, blocks);
    assert sent[0..0 + |sent|] == sent;
    if chunked {
      ChunksBreakOff(sent, 0, blocks, 0, limit);
    } else {
      SendingPlain(blocks);
      H.FixedExactly(sent, 0, length, 0, limit);
    }
  }

  // ---------------------------------------------------------------- judging the head

  /** The pieces a reader yields, from their concatenation. */
  ghost predicate CutOf(cut: seq<Bytes>, o: H.Outcome) {
    Flatten(cut) == o.out && (o.Done? ==> Small(cut, H.CHUNK))
  }

  // After `read`, whose bytes are `plain`, the head is still open.
  ghost predicate Waits(read: seq<Bytes>, plain: Bytes) {
    plain == Flatten(read) && forall rest :: HeadVerdict(read + rest) == Drive(rest, plain)
  }

  ghost predicate Settled(read: seq<Bytes>, verdict: Verdict) {
    forall rest :: HeadVerdict(read + rest) == verdict
  }

  lemma WaitsFirst()
    ensures Waits([], [])
  {
    hide Drive;
    forall rest ensures HeadVerdict([] + rest) == Drive(rest, []) {
      assert [] + rest == rest;
    }
  }

  lemma WaitsAtEnd(read: seq<Bytes>, plain: Bytes)
    requires Waits(read, plain)
    ensures HeadVerdict(read) == Refused(InvalidPushCommand)
  {
    assert read + [] == read;
    assert Drive([], plain) == Refused(InvalidPushCommand);
  }

  lemma DriveFirst(c: Bytes, rest: seq<Bytes>, plain: Bytes)
    ensures Drive([c] + rest, plain) ==
            if Fed(plain + c).Incomplete? then Drive(rest, plain + c) else VerdictOf(Fed(plain + c))
  {
    hide Fed;
    assert ([c] + rest)[1..] == rest;
  }

  lemma Waited(read: seq<Bytes>, plain: Bytes, c: Bytes)
    requires Waits(read, plain)
    ensures if Fed(plain + c).Incomplete? then Waits(read + [c], plain + c)
            else Settled(read + [c], VerdictOf(Fed(plain + c)))
  {
    hide Fed, Drive, HeadVerdict, VerdictOf;
    FlattenMore(read, c);
    var grown := plain + c;
    forall rest
      ensures HeadVerdict(read + [c] + rest) ==
              if Fed(grown).Incomplete? then Drive(rest, grown) else VerdictOf(Fed(grown))
    {
      assert read + [c] + rest == read + ([c] + rest);
      DriveFirst(c, rest, plain);
    }
  }

  lemma SettledMore(read: seq<Bytes>, verdict: Verdict, more: seq<Bytes>)
    requires Settled(read, verdict)
    ensures HeadVerdict(read + more) == verdict
  {
  }

  lemma FlattenMore(read: seq<Bytes>, c: Bytes)
    ensures Flatten(read + [c]) == Flatten(read) + c
  {
    FlattenAppend(read, [c]);
    FlattenOne(c);
  }

  lemma CutMore(read: seq<Bytes>, rest: H.Outcome, o: H.Outcome)
    requires o == H.Prepend(Flatten(read), rest) && (o.Done? ==> Small(read, H.CHUNK))
    ensures CutOf(read + Pieces(rest.out, H.CHUNK), o)
  {
    FlattenAppend(read, Pieces(rest.out, H.CHUNK));
  }

  // ---------------------------------------------------------------- the relay

  // What has been read of a body that yields `whole` in all.
  ghost predicate ReadSoFar(body: H.Body, read: seq<Bytes>, whole: H.Outcome)
    reads body
  {
    && body.Valid()
    && whole == H.Prepend(Flatten(read), body.Rest())
    && (whole.Done? ==> Small(read, H.CHUNK))
    && forall b :: b in read ==> |b| <= |body.data|
  }

  datatype Step = More(piece: Bytes) | Over | Lost(error: H.Error)

  /** The next piece, with the account of what has been read. */
  method ReadOn(body: H.Body, ghost read: seq<Bytes>, ghost whole: H.Outcome) returns (r: Step)
    requires ReadSoFar(body, read, whole) && !body.finished
    modifies body
    ensures body.Valid()
    ensures r.More? ==> !body.finished && body.pos > old(body.pos) && ReadSoFar(body, read + [r.piece], whole)
    ensures r.Over? ==> whole.Done? && whole.out == Flatten(read)
    ensures r.Lost? ==> whole == H.Failed(Flatten(read), r.error)
  {
    hide H.Chunked, H.InChunk, H.Fixed, H.ToEnd;
    var item := body.Next();
    match item
    case Piece(piece) =>
      FlattenMore(read, piece);
      H.PrependTwice(Flatten(read), piece, body.Rest());
      return More(piece);
    case End =>
      H.PrependEnds(Flatten(read), body.pos, H.ShortRequest);
      return Over;
    case Problem(e) =>
      H.PrependEnds(Flatten(read), body.pos, e);
      return Lost(e);
  }

  datatype Judged = Known(verdict: Verdict) | Failing(error: H.Error)

  /** `_push_head` on the reader: feed pieces until the head is decided. */
  method JudgeHead(body: H.Body, ghost whole: H.Outcome) returns (r: Judged, buffered: seq<Bytes>, ghost cut: seq<Bytes>)
    requires body.Valid() && !body.finished && whole == body.Rest()
    modifies body
    ensures CutOf(cut, whole)
    ensures r.Known? && r.verdict.Accepted? ==>
              !body.finished && ReadSoFar(body, buffered, whole) && Settled(buffered, r.verdict)
    ensures r.Known? ==> HeadVerdict(cut) == r.verdict
    ensures r.Failing? ==> whole.Failed? && whole.error == r.error && HeadVerdict(cut).Refused?
  {
    hide H.Body.Rest, H.Prepend, Fed, Drive, HeadVerdict, VerdictOf;
    var head := new P.PushHead();
    buffered := [];
    H.PrependNothing(whole);
    WaitsFirst();
    while true
      invariant !body.finished && ReadSoFar(body, buffered, whole) && Waits(buffered, head.plain)
      decreases |body.data| - body.pos
    {
      var step := ReadOn(body, buffered, whole);
      if !step.More? {
        WaitsAtEnd(buffered, head.plain);
        cut := buffered;
        r := if step.Over? then Known(Refused(InvalidPushCommand)) else Failing(step.error);
        return;
      }
      Waited(buffered, head.plain, step.piece);
      buffered := buffered + [step.piece];
      var parsed := head.Feed(step.piece);
      if !parsed.Incomplete? {
        r := Known(if parsed.Malformed? then Refused(parsed.code) else Accepted(parsed.updates, parsed.capabilities));
        Decision(parsed);
        CutMore(buffered, body.Rest(), whole);
        cut := buffered + Pieces(body.Rest().out, H.CHUNK);
        SettledMore(buffered, r.verdict, Pieces(body.Rest().out, H.CHUNK));
        return;
      }
    }
  }

  lemma Decision(head: Head)
    requires !head.Incomplete?
    ensures VerdictOf(head) == if head.Malformed? then Refused(head.code) else Accepted(head.updates, head.capabilities)
  {
  }

  method SendBuffered(chunked: bool, blocks: seq<Bytes>) returns (sent: Bytes)
    ensures sent == Sending(chunked, blocks)
  {
    hide Framed, Sending;
    SendingNone(chunked);
    sent := [];
    for i := 0 to |blocks|
      invariant sent == Sending(chunked, blocks[..i])
    {
      SendingMore(chunked, blocks[..i], blocks[i]);
      assert blocks[..i + 1] == blocks[..i] + [blocks[i]];
      sent := sent + Framed(chunked, blocks[i]);
    }
    assert blocks[..|blocks|] == blocks;
  }

  lemma SendingNone(chunked: bool)
    ensures Sending(chunked, []) == []
  {
  }

  /** `upstream` on the buffered pieces and what is left of the body. */
  method SendBody(body: H.Body, buffered: seq<Bytes>, ghost whole: H.Outcome)
    returns (sent: Bytes, error: Option<H.Error>, ghost blocks: seq<Bytes>)
    requires !body.finished && ReadSoFar(body, buffered, whole)
    modifies body
    ensures buffered <= blocks && CutOf(blocks, whole) && forall b :: b in blocks ==> |b| <= |body.data|
    ensures error.None? ==> whole.Done? && sent == Sending(body.chunked, blocks) + Ending(body.chunked)
    ensures error.Some? ==> whole.Failed? && whole.error == error.value && sent == Sending(body.chunked, blocks)
  {
    hide H.Body.Rest, H.Prepend, Framed, Sending, Ending;
    sent := SendBuffered(body.chunked, buffered);
    blocks := buffered;
    while true
      invariant !body.finished && buffered <= blocks && ReadSoFar(body, blocks, whole)
      invariant sent == Sending(body.chunked, blocks)
      decreases |body.data| - body.pos
    {
      var step := ReadOn(body, blocks, whole);
      match step
      case More(piece) =>
        SendingMore(body.chunked, blocks, piece);
        blocks := blocks + [piece];
        sent := sent + Framed(body.chunked, piece);
      case Over =>
        sent := sent + Ending(body.chunked);
        return sent, None, blocks;
      case Lost(e) =>
        return sent, Some(e), blocks;
    }
  }

  predicate Opens(chunked: bool, length: int, limit: nat) {
    chunked || 0 <= length <= limit
  }

  /** A head that is accepted is relayed to the end of the body, and no other push is. */
  ghost predicate Obeys(verdict: Verdict, whole: H.Outcome, r: Relay) {
    match verdict
    case Accepted(updates, capabilities) =>
      if whole.Done? then r.Sent? && r == Sent(updates, capabilities, r.sent)
      else r.Broken? && r == Broken(updates, capabilities, r.sent, whole.error)
    case Refused(code) =>
      r == Denied(code) || (whole.Failed? && r == Unreadable(whole.error))
  }

  /** What the server gets: all of the body, or what came before the error and a short request. */
  ghost predicate Arrives(data: Bytes, chunked: bool, length: int, limit: nat, r: Relay)
    requires Opens(chunked, length, limit)
  {
    var whole := Received(data, chunked, length, limit);
    && (r.Sent? ==> Received(r.sent, chunked, length, limit) == H.Done(whole.out, |r.sent|))
    && (r.Broken? && (!chunked || H.SizeFits(data)) ==>
          Received(r.sent, chunked, length, limit) == H.Failed(whole.out, H.ShortRequest))
  }

  ghost predicate Relayed(data: Bytes, chunked: bool, length: int, limit: nat, r: Relay) {
    if !Opens(chunked, length, limit) then
      r == NotOpened(if length < 0 then H.InvalidContentLength else H.RequestTooLarge)
    else
      var whole := Received(data, chunked, length, limit);
      && Arrives(data, chunked, length, limit, r)
      && exists cut :: CutOf(cut, whole) && Obeys(HeadVerdict(cut), whole, r)
  }

  lemma OutFits(data: Bytes, chunked: bool, length: int, limit: nat)
    requires Opens(chunked, length, limit)
    ensures var whole := Received(data, chunked, length, limit);
            && |whole.out| <= limit
            && (!chunked ==> if whole.Done? then |whole.out| == length else |whole.out| < length)
  {
    if chunked {
      H.ChunkedWithinLimit(data, 0, 0, limit);
    } else {
      hide H.Fixed;
      H.FixedExactly(data, 0, length, 0, limit);
    }
  }

  lemma WholeArrives(data: Bytes, chunked: bool, length: int, limit: nat, blocks: seq<Bytes>, r: Relay)
    requires Opens(chunked, length, limit) && CutOf(blocks, Received(data, chunked, length, limit))
    requires forall b :: b in blocks ==> |b| <= |data|
    requires r.Sent? ==> Received(data, chunked, length, limit).Done?
    requires r.Sent? ==> r.sent == Sending(chunked, blocks) + Ending(chunked)
    requires r.Broken? ==> Received(data, chunked, length, limit).Failed? && r.sent == Sending(chunked, blocks)
    ensures Arrives(data, chunked, length, limit, r)
  {
    hide Received, Sending, Ending, H.SizeFits;
    OutFits(data, chunked, length, limit);
    if r.Sent? {
      forall b | b in blocks ensures H.SizeFits(b) { PieceFits(b); }
      SentArrives(chunked, blocks, limit);
      SameLength(r.sent, chunked, length, |Flatten(blocks)|, limit);
    } else if r.Broken? && (!chunked || H.SizeFits(data)) {
      if chunked {
        forall b | b in blocks ensures H.SizeFits(b) { ShorterFits(b, data); }
        BrokenIsSeen(true, blocks, 0, limit);
        SameLength(r.sent, true, length, 0, limit);
      } else {
        BrokenIsSeen(false, blocks, length, limit);
      }
    }
  }

  // A chunked body has no length.
  lemma SameLength(sent: Bytes, chunked: bool, a: int, b: nat, limit: nat)
    requires chunked || a == b
    ensures Received(sent, chunked, a, limit) == Received(sent, chunked, b, limit)
  {
  }

  /** A push whose updates are all allowed, from its request to what is sent on. */
  method RelayPush(data: Bytes, chunked: bool, length: int, limit: nat) returns (r: Relay)
    ensures Relayed(data, chunked, length, limit, r)
  {
    hide H.Body.Rest, H.Chunked, H.Fixed, H.SizeFits, HeadVerdict, Sending, Ending;
    var body, refusal := H.OpenBody(data, chunked, length, limit);
    if body == null { return NotOpened(refusal.value); }
    ghost var whole := Received(data, chunked, length, limit);
    var judged, buffered, cut := JudgeHead(body, whole);
    match judged
    case Failing(error) =>
      r := Unreadable(error);
      assert Obeys(HeadVerdict(cut), whole, r);
    case Known(Refused(code)) =>
      r := Denied(code);
      assert Obeys(HeadVerdict(cut), whole, r);
    case Known(Accepted(updates, capabilities)) =>
      var sent, error, blocks := SendBody(body, buffered, whole);
      r := if error.None? then Sent(updates, capabilities, sent) else Broken(updates, capabilities, sent, error.value);
      assert blocks == buffered + blocks[|buffered|..];
      SettledMore(buffered, judged.verdict, blocks[|buffered|..]);
      WholeArrives(data, chunked, length, limit, blocks, r);
      assert Obeys(HeadVerdict(blocks), whole, r);
  }

  // ---------------------------------------------------------------- end to end

  /** Where the verdict does not hang on the cut, it alone decides what becomes of a readable push. */
  lemma RelayFollowsVerdict(data: Bytes, chunked: bool, length: int, limit: nat, r: Relay)
    requires Opens(chunked, length, limit) && Relayed(data, chunked, length, limit, r)
    requires var whole := Received(data, chunked, length, limit); whole.Done? && !Straddles(whole.out, H.CHUNK)
    ensures var whole := Received(data, chunked, length, limit); Obeys(VerdictOn(whole.out), whole, r)
  {
    hide Received, HeadVerdict, Straddles, VerdictOn, Obeys, Arrives;
    var whole := Received(data, chunked, length, limit);
    var cut :| CutOf(cut, whole) && Obeys(HeadVerdict(cut), whole, r);
    SmallCutsAgree(whole.out, cut, H.CHUNK);
  }

  /**
   * A well-formed push, framed either way, whose list ends in time: it is sent on with the updates and
   * capabilities it was printed from, and the server reads the same list and the same pack.
   */
  lemma PushArrives(
    shallows: seq<Bytes>, updates: seq<RefUpdate>, words: seq<Bytes>, pack: Bytes,
    data: Bytes, chunked: bool, length: int, limit: nat, r: Relay)
    requires C.Sound(shallows, updates, words) && |Frame(C.Payloads(shallows, updates, words))| <= MAX_HEAD + 1
    requires Opens(chunked, length, limit) && Relayed(data, chunked, length, limit, r)
    requires var o := Received(data, chunked, length, limit);
             o.Done? && o.out == Frame(C.Payloads(shallows, updates, words)) + pack
    ensures r.Sent? && r.updates == updates && r.capabilities == (set w | w in words)
    ensures var o := Received(r.sent, chunked, length, limit);
            && o == H.Done(Frame(C.Payloads(shallows, updates, words)) + pack, |r.sent|)
            && ParseHead(o.out) == Head(updates, set w | w in words)
  {
    hide Received, HeadVerdict, C.Sound, C.Payloads, Frame, ParseHead;
    var whole := Received(data, chunked, length, limit);
    var cut :| CutOf(cut, whole) && Obeys(HeadVerdict(cut), whole, r);
    C.PushVerdict(shallows, updates, words, pack, cut, H.CHUNK);
    C.HeadRoundTrip(shallows, updates, words, pack);
  }
}
