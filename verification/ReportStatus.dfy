/**
 * The result of a push (gitprotocol-pack, "Report Status"), printed for a rejected push and read
 * back from the server, plain or multiplexed over side-band frames.
 */
module ReportStatus {
  import opened Prelude
  import opened ByteText
  import opened PktLine

  const SIDE_BAND_64K: Bytes := Ascii("side-band-64k")
  const SIDE_BAND: Bytes := Ascii("side-band")
  const OTHER_REF: Bytes := Ascii("gateway: another ref in this push was rejected")
  const NG: Bytes := [0x6e, 0x67]
  const OK: Bytes := [0x6f, 0x6b]
  const UNPACK: Bytes := Ascii("unpack ok") + [NEWLINE]

  predicate Multiplexed(capabilities: set<Bytes>) {
    SIDE_BAND_64K in capabilities || SIDE_BAND in capabilities
  }

  // ---------------------------------------------------------------- printing

  // An absent or empty reason stands for a ref that was not rejected itself.
  function Text(reason: Option<Bytes>): (r: Bytes) {
    if reason.Some? && reason.value != [] then reason.value else OTHER_REF
  }

  function Line(ref: Bytes, text: Bytes): (r: Bytes) {
    NG + [SPACE] + ref + [SPACE] + text + [NEWLINE]
  }

  /** The payloads of the report: one line per ref after the unpack line (`zip` stops at the shorter list). */
  function ReportLines(refs: seq<Bytes>, reasons: seq<Option<Bytes>>): (r: seq<Bytes>) {
    if refs == [] || reasons == [] then []
    else [Line(refs[0], Text(reasons[0]))] + ReportLines(refs[1..], reasons[1..])
  }

  function Report(refs: seq<Bytes>, reasons: seq<Option<Bytes>>): (r: Bytes) {
    Frame([UNPACK] + ReportLines(refs, reasons))
  }

  function FirstReason(reasons: seq<Option<Bytes>>): (r: Bytes) {
    if reasons == [] then []
    else if reasons[0].Some? && reasons[0].value != [] then reasons[0].value
    else FirstReason(reasons[1..])
  }

  // One side-band frame: a band number and its payload.
  datatype Band = Band(band: Byte, payload: Bytes)

  function BandPackets(frames: seq<Band>): (r: seq<Bytes>)
    ensures |r| == |frames|
    ensures forall i :: 0 <= i < |r| ==> r[i] == [frames[i].band] + frames[i].payload
  {
    seq(|frames|, i requires 0 <= i < |frames| => [frames[i].band] + frames[i].payload)
  }

  function ReportFrames(report: Bytes, message: Bytes, size: nat): (r: seq<Band>)
    requires size > 0
  {
    var pieces := Pieces(report, size);
    [Band(2, message)] + seq(|pieces|, i requires 0 <= i < |pieces| => Band(1, pieces[i]))
  }

  function FrameSize(capabilities: set<Bytes>): nat {
    if SIDE_BAND_64K in capabilities then 65515 else 995
  }

  /** `receive_pack_rejection`. */
  function Rejection(refs: seq<Bytes>, reasons: seq<Option<Bytes>>, capabilities: set<Bytes>): (r: Bytes) {
    var report := Report(refs, reasons);
    if Multiplexed(capabilities) then
      Frame(BandPackets(ReportFrames(report, FirstReason(reasons) + [NEWLINE], FrameSize(capabilities))))
    else report
  }

  // ---------------------------------------------------------------- reading

  /** The bytes of band 1, up to the first flush or broken frame; None when a length is not a number. */
  function Demux(data: Bytes, offset: nat, inner: Bytes): (r: Option<Bytes>)
    requires offset <= |data|
    decreases |data| - offset
  {
    if offset + 4 > |data| then Some(inner)
    else
      match PyHex(data[offset..offset + 4])
      case None => None
      case Some(length) =>
        if length < 5 || offset + length > |data| then Some(inner)
        else Demux(data, offset + length,
                   if data[offset + 4] == 1 then inner + data[offset + 5..offset + length] else inner)
  }

  function StripStart(b: Bytes): (r: Bytes) {
    if b != [] && White(b[0]) then StripStart(b[1..]) else b
  }

  function StripEnd(b: Bytes): (r: Bytes) {
    if b != [] && White(b[|b| - 1]) then StripEnd(b[..|b| - 1]) else b
  }

  /** `str.strip`. */
  function StripWhite(b: Bytes): (r: Bytes) {
    StripEnd(StripStart(b))
  }

  function NoteStatus(packet: Packet, result: map<Bytes, Bytes>): (r: map<Bytes, Bytes>) {
    if packet.None? then result
    else
      var (kind, rest) := Partition(RStrip(packet.value, NEWLINE), SPACE);
      if kind == OK then result[rest := OK]
      else if kind == NG then
        var (ref, reason) := Partition(rest, SPACE);
        result[ref := StripWhite(NG + [SPACE] + reason)]
      else result
  }

  function Statuses(packets: seq<Packet>, result: map<Bytes, Bytes>): (r: map<Bytes, Bytes>) {
    if packets == [] then result else Statuses(packets[1..], NoteStatus(packets[0], result))
  }

  function PlainStatus(data: Bytes): (r: map<Bytes, Bytes>) {
    match ReadPackets(data, None)
    case Lines(packets, _) => Statuses(packets, map[])
    case _ => map[]
  }

  /** `parse_report_status`. */
  function ParseReport(data: Bytes, capabilities: set<Bytes>): (r: map<Bytes, Bytes>) {
    if Multiplexed(capabilities) then
      match Demux(data, 0, [])
      case None => map[]
      case Some(inner) => PlainStatus(inner)
    else PlainStatus(data)
  }

  // ---------------------------------------------------------------- the loops of the program

  method PrintReport(refs: seq<Bytes>, reasons: seq<Option<Bytes>>) returns (report: Bytes)
    ensures report == Report(refs, reasons)
  {
    hide Pkt, Line, Text;
    report := Pkt(UNPACK);
    var i := 0;
    assert ([UNPACK] + ReportLines(refs, reasons))[1..] == ReportLines(refs, reasons);
    while i < |refs| && i < |reasons|
      invariant 0 <= i <= |refs| && i <= |reasons|
      invariant Report(refs, reasons) == report + Frame(ReportLines(refs[i..], reasons[i..]))
    {
      var line := Line(refs[i], Text(reasons[i]));
      NextLine(refs[i..], reasons[i..]);
      assert refs[i..][1..] == refs[i + 1..] && reasons[i..][1..] == reasons[i + 1..];
      Regroup(report, Pkt(line), Frame(ReportLines(refs[i + 1..], reasons[i + 1..])));
      report := report + Pkt(line);
      i := i + 1;
    }
    report := report + FLUSH;
  }

  lemma NextLine(refs: seq<Bytes>, reasons: seq<Option<Bytes>>)
    requires refs != [] && reasons != []
    ensures Frame(ReportLines(refs, reasons)) ==
            Pkt(Line(refs[0], Text(reasons[0]))) + Frame(ReportLines(refs[1..], reasons[1..]))
  {
  }

  ghost function Band1(pieces: seq<Bytes>): (r: seq<Bytes>)
    ensures |r| == |pieces|
    ensures forall i :: 0 <= i < |r| ==> r[i] == [1] + pieces[i]
  {
    seq(|pieces|, i requires 0 <= i < |pieces| => [1] + pieces[i])
  }

  lemma NextPacket(packets: seq<Bytes>)
    ensures packets == [] ==> Frame(packets) == FLUSH
    ensures packets != [] ==> Frame(packets) == Pkt(packets[0]) + Frame(packets[1..])
  {
  }

  method PrintFrames(report: Bytes, message: Bytes, size: nat) returns (framed: Bytes)
    requires size > 0
    ensures framed == Frame(BandPackets(ReportFrames(report, message, size)))
  {
    var pieces := Pieces(report, size);
    ghost var packets := BandPackets(ReportFrames(report, message, size));
    ghost var ones := Band1(pieces);
    assert packets[0] == [2] + message && packets[1..] == ones;
    hide Pkt, Frame, Band1, BandPackets, ReportFrames, Pieces;
    framed := Pkt([2] + message);
    NextPacket(packets);
    assert ones[0..] == ones;
    var i := 0;
    while i < |pieces|
      invariant 0 <= i <= |pieces|
      invariant Frame(packets) == framed + Frame(ones[i..])
    {
      NextPacket(ones[i..]);
      assert ones[i..][1..] == ones[i + 1..];
      Regroup(framed, Pkt([1] + pieces[i]), Frame(ones[i + 1..]));
      framed := framed + Pkt([1] + pieces[i]);
      i := i + 1;
    }
    NextPacket(ones[i..]);
    framed := framed + FLUSH;
  }

  method ReceivePackRejection(refs: seq<Bytes>, reasons: seq<Option<Bytes>>, capabilities: set<Bytes>)
    returns (r: Bytes)
    ensures r == Rejection(refs, reasons, capabilities)
  {
    r := PrintReport(refs, reasons);
    if Multiplexed(capabilities) {
      r := PrintFrames(r, FirstReason(reasons) + [NEWLINE], FrameSize(capabilities));
    }
  }

  method Demultiplex(data: Bytes) returns (r: Option<Bytes>)
    ensures r == Demux(data, 0, [])
  {
    var inner: Bytes, offset := [], 0;
    while offset + 4 <= |data|
      invariant 0 <= offset <= |data|
      invariant Demux(data, 0, []) == Demux(data, offset, inner)
    {
      var length := PyHex(data[offset..offset + 4]);
      if length.None? { return None; }
      if length.value == 0 { break; }
      if length.value < 5 || offset + length.value > |data| { break; }
      if data[offset + 4] == 1 { inner := inner + data[offset + 5..offset + length.value]; }
      offset := offset + length.value;
    }
    return Some(inner);
  }

  method ParseReportStatus(data: Bytes, capabilities: set<Bytes>) returns (result: map<Bytes, Bytes>)
    ensures result == ParseReport(data, capabilities)
  {
    hide Demux, NoteStatus, Multiplexed;
    var stream := data;
    if Multiplexed(capabilities) {
      var inner := Demultiplex(data);
      if inner.None? { return map[]; }
      stream := inner.value;
    }
    var lines := ReadPktLines(stream, None);
    hide ReadPackets;
    result := map[];
    if !lines.Lines? { return; }
    var i := 0;
    while i < |lines.packets|
      invariant 0 <= i <= |lines.packets|
      invariant Statuses(lines.packets, map[]) == Statuses(lines.packets[i..], result)
    {
      result := NoteStatus(lines.packets[i], result);
      i := i + 1;
    }
  }

  // ---------------------------------------------------------------- side-band frames

  function BandOne(frames: seq<Band>): (r: Bytes) {
    if frames == [] then [] else (if frames[0].band == 1 then frames[0].payload else []) + BandOne(frames[1..])
  }

  lemma DemuxStep(data: Bytes, offset: nat, length: nat, inner: Bytes)
    requires offset + length <= |data| && length >= 5 && PyHex(data[offset..offset + 4]) == Some(length)
    ensures Demux(data, offset, inner) ==
            Demux(data, offset + length,
                  if data[offset + 4] == 1 then inner + data[offset + 5..offset + length] else inner)
  {
  }

  lemma FrameSlices(before: Bytes, frame: Bytes, rest: Bytes)
    requires |frame| >= 5
    ensures var data, offset := before + frame + rest, |before|;
            && data[offset..offset + 4] == frame[..4]
            && data[offset + 4] == frame[4]
            && data[offset + 5..offset + |frame|] == frame[5..]
  {
  }

  lemma DemuxOne(before: Bytes, f: Band, rest: Bytes, inner: Bytes)
    requires Fits([f.band] + f.payload)
    ensures Demux(before + (Pkt([f.band] + f.payload) + rest), |before|, inner) ==
            Demux(before + Pkt([f.band] + f.payload) + rest, |before + Pkt([f.band] + f.payload)|,
                  if f.band == 1 then inner + f.payload else inner)
  {
    hide Pkt, PyHex, Demux;
    var packet := [f.band] + f.payload;
    PktParts(packet);
    var frame := Pkt(packet);
    assert frame[4] == packet[0] && frame[5..] == frame[4..][1..] == f.payload;
    Regroup(before, frame, rest);
    FrameSlices(before, frame, rest);
    DemuxStep(before + frame + rest, |before|, |frame|, inner);
  }

  lemma DemuxFlush(before: Bytes, rest: Bytes, inner: Bytes)
    ensures Demux(before + (FLUSH + rest), |before|, inner) == Some(inner)
  {
    FlushIsZero();
    hide PyHex;
    var data := before + (FLUSH + rest);
    assert data[|before|..|before| + 4] == FLUSH;
  }

  lemma {:induction false} DemuxAll(before: Bytes, frames: seq<Band>, inner: Bytes)
    requires forall f :: f in frames ==> Fits([f.band] + f.payload)
    ensures Demux(before + Frame(BandPackets(frames)), |before|, inner) == Some(inner + BandOne(frames))
    decreases |frames|
  {
    if frames == [] {
      DemuxFlush(before, [], inner);
      assert FLUSH + [] == FLUSH && inner + [] == inner;
    } else {
      var f, tail := frames[0], frames[1..];
      var packet := [f.band] + f.payload;
      assert BandPackets(frames)[1..] == BandPackets(tail);
      var grown := if f.band == 1 then inner + f.payload else inner;
      DemuxOne(before, f, Frame(BandPackets(tail)), inner);
      hide Demux;
      DemuxAll(before + Pkt(packet), tail, grown);
      assert grown + BandOne(tail) == inner + BandOne(frames);
    }
  }

  /**
   * However a report is cut into frames, and whatever other bands run between them, the reader sees
   * the statuses of the report itself.
   */
  lemma FramingIsInvisible(frames: seq<Band>, capabilities: set<Bytes>)
    requires Multiplexed(capabilities)
    requires forall f :: f in frames ==> Fits([f.band] + f.payload)
    ensures ParseReport(Frame(BandPackets(frames)), capabilities) == PlainStatus(BandOne(frames))
  {
    DemuxAll([], frames, []);
    assert [] + Frame(BandPackets(frames)) == Frame(BandPackets(frames)) && [] + BandOne(frames) == BandOne(frames);
  }

  lemma {:induction false} BandOneOfPieces(pieces: seq<Bytes>)
    ensures BandOne(seq(|pieces|, i requires 0 <= i < |pieces| => Band(1, pieces[i]))) == Flatten(pieces)
  {
    if pieces != [] {
      var frames := seq(|pieces|, i requires 0 <= i < |pieces| => Band(1, pieces[i]));
      var tail := pieces[1..];
      BandOneOfPieces(tail);
      assert frames[1..] == seq(|tail|, i requires 0 <= i < |tail| => Band(1, tail[i]));
    }
  }

  // ---------------------------------------------------------------- round trip

  /** What the rejected push should read back as; of two lines for one ref the later wins. */
  function Expected(refs: seq<Bytes>, reasons: seq<Option<Bytes>>, result: map<Bytes, Bytes>): (r: map<Bytes, Bytes>) {
    if refs == [] || reasons == [] then result
    else Expected(refs[1..], reasons[1..], result[refs[0] := StripWhite(NG + [SPACE] + Text(reasons[0]))])
  }

  lemma RStripLine(head: Bytes, text: Bytes)
    requires head != [] && head[|head| - 1] != NEWLINE
    ensures RStrip(head + text, NEWLINE) == head + RStrip(text, NEWLINE)
    decreases |text|
  {
    var whole := head + text;
    if text == [] {
      assert whole == head;
    } else if text[|text| - 1] == NEWLINE {
      RStripLine(head, text[..|text| - 1]);
      assert whole[..|whole| - 1] == head + text[..|text| - 1];
    }
  }

  lemma StripEndDropsNewlines(head: Bytes, text: Bytes)
    ensures StripEnd(head + RStrip(text, NEWLINE)) == StripEnd(head + text)
    decreases |text|
  {
    if text != [] && text[|text| - 1] == NEWLINE {
      var whole := head + text;
      StripEndDropsNewlines(head, text[..|text| - 1]);
      assert whole[..|whole| - 1] == head + text[..|text| - 1];
    }
  }

  lemma StripDropsNewlines(head: Bytes, text: Bytes)
    requires head != [] && !White(head[0])
    ensures StripWhite(head + RStrip(text, NEWLINE)) == StripWhite(head + text)
  {
    assert StripStart(head + text) == head + text;
    assert StripStart(head + RStrip(text, NEWLINE)) == head + RStrip(text, NEWLINE);
    StripEndDropsNewlines(head, text);
  }

  lemma LineHead(ref: Bytes, text: Bytes)
    ensures RStrip(Line(ref, text), NEWLINE) == NG + [SPACE] + (ref + [SPACE] + RStrip(text, NEWLINE))
  {
    var head := NG + [SPACE] + ref + [SPACE];
    Regroup(head, text, [NEWLINE]);
    RStripLine(head, text + [NEWLINE]);
    assert (text + [NEWLINE])[..|text|] == text;
    RegroupLine(NG + [SPACE], ref, RStrip(text, NEWLINE));
  }

  lemma RegroupLine(start: Bytes, ref: Bytes, text: Bytes)
    ensures start + ref + [SPACE] + text == start + (ref + [SPACE] + text)
  {
  }

  /** One printed line is noted as its ref's rejection. */
  lemma NoteLine(ref: Bytes, text: Bytes, result: map<Bytes, Bytes>)
    requires SPACE !in ref
    ensures NoteStatus(Some(Line(ref, text)), result) == result[ref := StripWhite(NG + [SPACE] + text)]
  {
    var kept := RStrip(text, NEWLINE);
    LineHead(ref, text);
    StripDropsNewlines(NG + [SPACE], text);
    hide RStrip, StripWhite, Line;
    PartitionAt(NG, SPACE, ref + [SPACE] + kept);
    PartitionAt(ref, SPACE, kept);
    hide Partition;
  }

  lemma NoteUnpack(result: map<Bytes, Bytes>)
    ensures NoteStatus(Some(UNPACK), result) == result
  {
  }

  lemma {:induction false} StatusesOfLines(refs: seq<Bytes>, reasons: seq<Option<Bytes>>, result: map<Bytes, Bytes>)
    requires forall r :: r in refs ==> SPACE !in r
    ensures Statuses(Somes(ReportLines(refs, reasons)) + [None], result) == Expected(refs, reasons, result)
    decreases |refs|
  {
    hide NoteStatus, Line, Text, StripWhite;
    var packets := Somes(ReportLines(refs, reasons)) + [None];
    if refs == [] || reasons == [] {
      assert packets == [None] && packets[1..] == [];
      NoteNone(result);
    } else {
      NoteLine(refs[0], Text(reasons[0]), result);
      var next := result[refs[0] := StripWhite(NG + [SPACE] + Text(reasons[0]))];
      StatusesOfLines(refs[1..], reasons[1..], next);
      assert packets[0] == Some(Line(refs[0], Text(reasons[0])));
      assert packets[1..] == Somes(ReportLines(refs[1..], reasons[1..])) + [None];
    }
  }

  lemma PlainRoundTrip(refs: seq<Bytes>, reasons: seq<Option<Bytes>>)
    requires forall r :: r in refs ==> SPACE !in r
    requires forall line :: line in ReportLines(refs, reasons) ==> Fits(line)
    ensures PlainStatus(Report(refs, reasons)) == Expected(refs, reasons, map[])
  {
    var lines := ReportLines(refs, reasons);
    var payloads := [UNPACK] + lines;
    hide ReportLines, Expected, NoteStatus, ReadFrom;
    ReadFrames([], payloads, [], [], None);
    assert [] + (Frame(payloads) + []) == Frame(payloads);
    hide Frame;
    var packets := [] + Somes(payloads) + [None];
    assert packets[0] == Some(UNPACK) && packets[1..] == Somes(lines) + [None];
    NoteUnpack(map[]);
    StatusesOfLines(refs, reasons, map[]);
  }

  // The message of band 2 is shorter than the line that carries the same reason.
  lemma {:induction false} MessageFits(refs: seq<Bytes>, reasons: seq<Option<Bytes>>)
    requires |refs| == |reasons|
    requires forall line :: line in ReportLines(refs, reasons) ==> Fits(line)
    ensures Fits([2] + (FirstReason(reasons) + [NEWLINE]))
  {
    if reasons != [] {
      assert Line(refs[0], Text(reasons[0])) in ReportLines(refs, reasons);
      assert forall line :: line in ReportLines(refs[1..], reasons[1..]) ==> line in ReportLines(refs, reasons);
      MessageFits(refs[1..], reasons[1..]);
    }
  }

  lemma SideBandReport(report: Bytes, message: Bytes, capabilities: set<Bytes>)
    requires Multiplexed(capabilities) && Fits([2] + message)
    ensures ParseReport(Frame(BandPackets(ReportFrames(report, message, FrameSize(capabilities)))), capabilities) ==
            PlainStatus(report)
  {
    hide PlainStatus, Frame;
    var size := FrameSize(capabilities);
    var frames, pieces := ReportFrames(report, message, size), Pieces(report, size);
    hide Pieces;
    BandOneOfPieces(pieces);
    assert frames[1..] == seq(|pieces|, i requires 0 <= i < |pieces| => Band(1, pieces[i]));
    assert BandOne(frames) == [] + Flatten(pieces) == report;
    forall f | f in frames ensures Fits([f.band] + f.payload) {
      assert f == frames[0] || f.payload in pieces;
    }
    FramingIsInvisible(frames, capabilities);
  }

  /**
   * Reading back the gateway's own rejection gives every ref its reason, plain, over side-band and
   * over side-band-64k, for space-free refs and lines that fit one packet.
   */
  lemma RejectionRoundTrip(refs: seq<Bytes>, reasons: seq<Option<Bytes>>, capabilities: set<Bytes>)
    requires |refs| == |reasons| && forall r :: r in refs ==> SPACE !in r
    requires forall line :: line in ReportLines(refs, reasons) ==> Fits(line)
    ensures ParseReport(Rejection(refs, reasons, capabilities), capabilities) == Expected(refs, reasons, map[])
  {
    PlainRoundTrip(refs, reasons);
    if Multiplexed(capabilities) {
      MessageFits(refs, reasons);
      hide PlainStatus, Expected, ReportLines, Report, FirstReason;
      SideBandReport(Report(refs, reasons), FirstReason(reasons) + [NEWLINE], capabilities);
    }
  }

  /** The text that stands for a missing reason. */
  lemma TextIs(reason: Option<Bytes>)
    ensures Text(reason) == match reason
              case Some(given) => if given == [] then Ascii("gateway: another ref in this push was rejected") else given
              case None => Ascii("gateway: another ref in this push was rejected")
  {
  }

  lemma StripNothing(text: Bytes)
    requires text != [] && !White(text[|text| - 1])
    ensures StripWhite(NG + [SPACE] + text) == NG + [SPACE] + text
  {
  }

  /** Distinct refs read back one by one; a reason without white space at its end comes back verbatim. */
  lemma {:induction false} ExpectedEach(refs: seq<Bytes>, reasons: seq<Option<Bytes>>, result: map<Bytes, Bytes>, i: nat)
    requires |refs| == |reasons| && i < |refs|
    requires forall j, k :: 0 <= j < k < |refs| ==> refs[j] != refs[k]
    ensures refs[i] in Expected(refs, reasons, result)
    ensures Expected(refs, reasons, result)[refs[i]] == StripWhite(NG + [SPACE] + Text(reasons[i]))
    ensures var text := Text(reasons[i]);
            text != [] && !White(text[|text| - 1]) ==>
              Expected(refs, reasons, result)[refs[i]] == NG + [SPACE] + text
    decreases |refs|
  {
    hide StripWhite, Text, White;
    var next := result[refs[0] := StripWhite(NG + [SPACE] + Text(reasons[0]))];
    if i == 0 {
      ExpectedKeeps(refs[1..], reasons[1..], next, refs[0]);
    } else {
      ExpectedEach(refs[1..], reasons[1..], next, i - 1);
    }
    var text := Text(reasons[i]);
    if text != [] && !White(text[|text| - 1]) { StripNothing(text); }
  }

  lemma {:induction false} ExpectedKeeps(refs: seq<Bytes>, reasons: seq<Option<Bytes>>, result: map<Bytes, Bytes>, ref: Bytes)
    requires ref !in refs && ref in result
    ensures ref in Expected(refs, reasons, result) && Expected(refs, reasons, result)[ref] == result[ref]
    decreases |refs|
  {
    hide StripWhite, Text;
    if refs != [] && reasons != [] {
      ExpectedKeeps(refs[1..], reasons[1..], result[refs[0] := StripWhite(NG + [SPACE] + Text(reasons[0]))], ref);
    }
  }

  // ---------------------------------------------------------------- what a server reports

  /** One ref of a report: taken, or refused with a reason. */
  datatype Status = Taken(ref: Bytes) | Refused(ref: Bytes, reason: Bytes)

  function StatusLine(s: Status): Bytes {
    match s
    case Taken(ref) => [0x6f, 0x6b, SPACE] + ref + [NEWLINE]
    case Refused(ref, reason) => [0x6e, 0x67, SPACE] + ref + [SPACE] + reason + [NEWLINE]
  }

  function StatusLines(ss: seq<Status>): (r: seq<Bytes>)
    ensures |r| == |ss| && forall i :: 0 <= i < |ss| ==> r[i] == StatusLine(ss[i])
  {
    seq(|ss|, i requires 0 <= i < |ss| => StatusLine(ss[i]))
  }

  /** Ref names hold neither blanks nor line ends. */
  ghost predicate PlainRef(ref: Bytes) {
    SPACE !in ref && NEWLINE !in ref
  }

  /** "ok", or "ng" and the reason without the white space around it. */
  ghost function Verdict(s: Status): Bytes {
    match s case Taken(_) => [0x6f, 0x6b] case Refused(_, reason) => StripWhite([0x6e, 0x67, SPACE] + reason)
  }

  // Of two lines for one ref the later wins.
  ghost function Verdicts(ss: seq<Status>, result: map<Bytes, Bytes>): map<Bytes, Bytes> {
    if ss == [] then result else Verdicts(ss[1..], result[ss[0].ref := Verdict(ss[0])])
  }

  lemma RStripPlain(ref: Bytes)
    requires NEWLINE !in ref
    ensures RStrip([0x6f, 0x6b, SPACE] + ref + [NEWLINE], NEWLINE) == [0x6f, 0x6b, SPACE] + ref
  {
    var line := [0x6f, 0x6b, SPACE] + ref;
    assert (line + [NEWLINE])[..|line|] == line;
    assert line[|line| - 1] != NEWLINE by { if ref != [] { assert line[|line| - 1] == ref[|ref| - 1]; } }
  }

  lemma NoteTaken(ref: Bytes, result: map<Bytes, Bytes>)
    requires PlainRef(ref)
    ensures NoteStatus(Some(StatusLine(Taken(ref))), result) == result[ref := [0x6f, 0x6b]]
  {
    RStripPlain(ref);
    assert [0x6f, 0x6b, SPACE] + ref == [0x6f, 0x6b] + [SPACE] + ref;
    PartitionAt([0x6f, 0x6b], SPACE, ref);
    hide Partition, RStrip;
  }

  lemma NoteRefused(ref: Bytes, reason: Bytes, result: map<Bytes, Bytes>)
    requires PlainRef(ref)
    ensures NoteStatus(Some(StatusLine(Refused(ref, reason))), result) ==
            result[ref := StripWhite([0x6e, 0x67, SPACE] + reason)]
  {
    assert StatusLine(Refused(ref, reason)) == Line(ref, reason);
    assert NG + [SPACE] == [0x6e, 0x67, SPACE];
    NoteLine(ref, reason, result);
    hide NoteStatus, StripWhite, Line;
  }

  lemma {:induction false} StatusesOf(ss: seq<Status>, result: map<Bytes, Bytes>)
    requires forall s :: s in ss ==> PlainRef(s.ref)
    ensures Statuses(Somes(StatusLines(ss)) + [None], result) == Verdicts(ss, result)
    decreases |ss|
  {
    hide NoteStatus, StatusLine, StripWhite, PlainRef;
    var packets := Somes(StatusLines(ss)) + [None];
    if ss == [] {
      assert packets == [None] && packets[1..] == [];
      NoteNone(result);
    } else {
      var next := result[ss[0].ref := Verdict(ss[0])];
      assert ss[0] in ss;
      match ss[0] {
        case Taken(ref) => NoteTaken(ref, result);
        case Refused(ref, reason) => NoteRefused(ref, reason, result);
      }
      StatusesOf(ss[1..], next);
      assert packets[0] == Some(StatusLine(ss[0]));
      assert packets[1..] == Somes(StatusLines(ss[1..])) + [None];
    }
  }

  lemma NoteNone(result: map<Bytes, Bytes>)
    ensures NoteStatus(None, result) == result
  {
  }

  lemma UnpackFits()
    ensures Fits(UNPACK)
  {
  }

  lemma StatusesUnpack(packets: seq<Packet>, lines: seq<Bytes>)
    requires packets == [] + Somes([UNPACK] + lines) + [None]
    ensures Statuses(packets, map[]) == Statuses(Somes(lines) + [None], map[])
  {
    hide NoteStatus;
    assert packets[0] == Some(UNPACK) && packets[1..] == Somes(lines) + [None];
    NoteUnpack(map[]);
  }

  lemma ServerRoundTrip(ss: seq<Status>)
    requires forall s :: s in ss ==> PlainRef(s.ref) && Fits(StatusLine(s))
    ensures PlainStatus(Frame([UNPACK] + StatusLines(ss))) == Verdicts(ss, map[])
  {
    hide Verdicts, NoteStatus, ReadFrom, StatusLine, PlainRef, Frame, Statuses;
    var payloads := [UNPACK] + StatusLines(ss);
    UnpackFits();
    ReadFrames([], payloads, [], [], None);
    assert [] + (Frame(payloads) + []) == Frame(payloads);
    var packets := [] + Somes(payloads) + [None];
    StatusesUnpack(packets, StatusLines(ss));
    StatusesOf(ss, map[]);
  }

  /**
   * What a server prints, "ok" lines and "ng" lines in any order, reads back as the verdict on each ref: plain, or over
   * side-band however the report is cut into frames and whatever other bands run between them.
   */
  lemma ServerReportReads(ss: seq<Status>, frames: seq<Band>, capabilities: set<Bytes>)
    requires forall s :: s in ss ==> PlainRef(s.ref) && Fits(StatusLine(s))
    requires forall f :: f in frames ==> Fits([f.band] + f.payload)
    requires BandOne(frames) == Frame([UNPACK] + StatusLines(ss))
    ensures ParseReport(if Multiplexed(capabilities) then Frame(BandPackets(frames)) else BandOne(frames), capabilities) ==
            Verdicts(ss, map[])
  {
    hide PlainRef, Frame, BandOne, PlainStatus, Verdicts, StatusLine;
    ServerRoundTrip(ss);
    if Multiplexed(capabilities) { FramingIsInvisible(frames, capabilities); }
  }

  /** Distinct refs read back one by one. */
  lemma {:induction false} VerdictsEach(ss: seq<Status>, result: map<Bytes, Bytes>, i: nat)
    requires i < |ss| && forall j, k :: 0 <= j < k < |ss| ==> ss[j].ref != ss[k].ref
    ensures ss[i].ref in Verdicts(ss, result) && Verdicts(ss, result)[ss[i].ref] == Verdict(ss[i])
    decreases |ss|
  {
    hide Verdict;
    var next := result[ss[0].ref := Verdict(ss[0])];
    if i == 0 {
      VerdictsKeep(ss[1..], next, ss[0].ref);
    } else {
      VerdictsEach(ss[1..], next, i - 1);
    }
  }

  lemma {:induction false} VerdictsKeep(ss: seq<Status>, result: map<Bytes, Bytes>, ref: Bytes)
    requires ref in result && forall i :: 0 <= i < |ss| ==> ss[i].ref != ref
    ensures ref in Verdicts(ss, result) && Verdicts(ss, result)[ref] == result[ref]
    decreases |ss|
  {
    hide Verdict;
    if ss != [] { VerdictsKeep(ss[1..], result[ss[0].ref := Verdict(ss[0])], ref); }
  }

  // ---------------------------------------------------------------- what a rejection looks like

  /** Some reason of the list is the first that is given and not empty. */
  ghost predicate FirstGiven(reasons: seq<Option<Bytes>>, i: int) {
    && 0 <= i < |reasons| && reasons[i].Some? && reasons[i].value != []
    && forall j :: 0 <= j < i ==> reasons[j] == None || reasons[j] == Some([])
  }

  lemma {:induction false} FirstReasonIs(reasons: seq<Option<Bytes>>) returns (i: int)
    ensures if FirstReason(reasons) == [] then forall j :: 0 <= j < |reasons| ==> reasons[j] == None || reasons[j] == Some([])
            else FirstGiven(reasons, i) && FirstReason(reasons) == reasons[i].value
  {
    i := 0;
    if reasons != [] && !(reasons[0].Some? && reasons[0].value != []) {
      i := FirstReasonIs(reasons[1..]);
      i := i + 1;
    }
  }

  /**
   * Over side-band a rejection is the reason for the person at the terminal in band 2, then the report in band 1, in
   * packets of at most 65520 bytes, or 1000 bytes if the client knows only the old form (gitprotocol-capabilities).
   */
  lemma RejectionFrames(refs: seq<Bytes>, reasons: seq<Option<Bytes>>, capabilities: set<Bytes>) returns (frames: seq<Band>)
    ensures Multiplexed(capabilities) <==> Ascii("side-band-64k") in capabilities || Ascii("side-band") in capabilities
    ensures !Multiplexed(capabilities) ==> Rejection(refs, reasons, capabilities) == Report(refs, reasons)
    ensures Multiplexed(capabilities) ==>
              && Rejection(refs, reasons, capabilities) == Frame(BandPackets(frames))
              && |frames| >= 1 && frames[0] == Band(2, FirstReason(reasons) + [NEWLINE])
              && BandOne(frames) == Report(refs, reasons)
              && (forall i :: 1 <= i < |frames| ==> frames[i].band == 1)
              && (forall i :: 1 <= i < |frames| ==>
                    4 + 1 + |frames[i].payload| <= if Ascii("side-band-64k") in capabilities then 65520 else 1000)
  {
    var report, size := Report(refs, reasons), FrameSize(capabilities);
    frames := ReportFrames(report, FirstReason(reasons) + [NEWLINE], size);
    var pieces := Pieces(report, size);
    hide Report, FirstReason, Frame, Pieces;
    BandOneOfPieces(pieces);
    assert frames[1..] == seq(|pieces|, i requires 0 <= i < |pieces| => Band(1, pieces[i]));
    assert BandOne(frames) == [] + Flatten(pieces) == report;
    forall i | 1 <= i < |frames| ensures frames[i].band == 1 && |frames[i].payload| <= size {
      assert frames[i].payload == pieces[i - 1] && pieces[i - 1] in pieces;
    }
  }
}
