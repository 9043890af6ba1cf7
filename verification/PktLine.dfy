/** Git's pkt-line framing (gitprotocol-common, "pkt-line Format"). */
module PktLine {
  import opened Prelude
  import opened ByteText

  // A packet's payload; None is a flush, delimiter or response-end packet.
  type Packet = Option<Bytes>

  datatype Lines = Lines(packets: seq<Packet>, offset: nat) | NeedMore | BadLength | NotHex | TooMany

  /** Packets from `offset` up to and including the first flush, after those already read. */
  function ReadFrom(data: Bytes, offset: nat, packets: seq<Packet>, limit: Option<nat>): (r: Lines)
    requires offset <= |data|
    decreases |data| - offset
  {
    if offset + 4 > |data| then NeedMore
    else
      match PyHex(data[offset..offset + 4])
      case None => NotHex
      case Some(length) =>
        if length == 0 then Lines(packets + [None], offset + 4)
        else if length == 1 || length == 2 then ReadFrom(data, offset + 4, packets + [None], limit)
        else if length < 4 then BadLength
        else if offset + length > |data| then NeedMore
        else
          var more := packets + [Some(data[offset + 4..offset + length])];
          if limit.Some? && |more| > limit.value then TooMany
          else ReadFrom(data, offset + length, more, limit)
  }

  function ReadPackets(data: Bytes, limit: Option<nat>): (r: Lines) {
    ReadFrom(data, 0, [], limit)
  }

  /** `read_pkt_lines`: a loop over the offset. */
  method ReadPktLines(data: Bytes, limit: Option<nat>) returns (r: Lines)
    ensures r == ReadPackets(data, limit)
  {
    hide PyHex;
    var packets: seq<Packet>, offset := [], 0;
    while true
      invariant 0 <= offset <= |data|
      invariant ReadPackets(data, limit) == ReadFrom(data, offset, packets, limit)
      decreases |data| - offset
    {
      if offset + 4 > |data| { return NeedMore; }
      var length := PyHex(data[offset..offset + 4]);
      if length.None? { return NotHex; }
      if length.value == 0 || length.value == 1 || length.value == 2 {
        packets := packets + [None];
        offset := offset + 4;
        if length.value == 0 { return Lines(packets, offset); }
        continue;
      }
      if length.value < 4 { return BadLength; }
      if offset + length.value > |data| { return NeedMore; }
      packets := packets + [Some(data[offset + 4..offset + length.value])];
      offset := offset + length.value;
      if limit.Some? && |packets| > limit.value { return TooMany; }
    }
  }

  /** A verdict reached on a prefix of the stream is the verdict on the stream. */
  lemma {:induction false} ReadStable(data: Bytes, rest: Bytes, offset: nat, packets: seq<Packet>, limit: Option<nat>)
    requires offset <= |data| && ReadFrom(data, offset, packets, limit) != NeedMore
    ensures ReadFrom(data + rest, offset, packets, limit) == ReadFrom(data, offset, packets, limit)
    decreases |data| - offset
  {
    var all := data + rest;
    assert all[offset..offset + 4] == data[offset..offset + 4];
    var length := PyHex(data[offset..offset + 4]);
    if length == Some(1) || length == Some(2) {
      ReadStable(data, rest, offset + 4, packets + [None], limit);
    } else if length.Some? && length.value >= 4 {
      var payload := data[offset + 4..offset + length.value];
      assert all[offset + 4..offset + length.value] == payload;
      var more := packets + [Some(payload)];
      if !(limit.Some? && |more| > limit.value) {
        ReadStable(data, rest, offset + length.value, more, limit);
      }
    }
  }

  /** `pkt`: one packet with its four-digit length. */
  function Pkt(data: Bytes): (r: Bytes) {
    Hex4(|data| + 4) + data
  }

  // A payload whose length still prints in four digits.
  predicate Fits(data: Bytes) {
    |data| + 4 < 0x1_0000
  }

  const FLUSH: Bytes := [0x30, 0x30, 0x30, 0x30]

  function Frame(payloads: seq<Bytes>): (r: Bytes) {
    if payloads == [] then FLUSH else Pkt(payloads[0]) + Frame(payloads[1..])
  }

  lemma FlushIsZero()
    ensures FLUSH == Hex4(0) && PyHex(FLUSH) == Some(0)
  {
  }

  lemma PktParts(data: Bytes)
    requires Fits(data)
    ensures |Pkt(data)| == |data| + 4
    ensures PyHex(Pkt(data)[..4]) == Some(|data| + 4)
    ensures Pkt(data)[4..] == data
  {
    Hex4Width(|data| + 4);
    HexRoundTrip(|data| + 4);
    assert Pkt(data)[..4] == Hex4(|data| + 4);
  }

  function Somes(payloads: seq<Bytes>): (r: seq<Packet>)
    ensures |r| == |payloads|
    ensures forall i :: 0 <= i < |r| ==> r[i] == Some(payloads[i])
  {
    seq(|payloads|, i requires 0 <= i < |payloads| => Some(payloads[i]))
  }

  // There is room for that many more packets.
  predicate Room(packets: seq<Packet>, more: nat, limit: Option<nat>) {
    limit.Some? ==> |packets| + more <= limit.value
  }

  // The reader takes one packet off the front.
  lemma ReadOne(before: Bytes, p: Bytes, rest: Bytes, packets: seq<Packet>, limit: Option<nat>)
    requires Fits(p) && Room(packets, 1, limit)
    ensures ReadFrom(before + (Pkt(p) + rest), |before|, packets, limit) ==
            ReadFrom(before + Pkt(p) + rest, |before + Pkt(p)|, packets + [Some(p)], limit)
  {
    PktParts(p);
    hide Pkt, PyHex;
    var data, offset := before + Pkt(p) + rest, |before|;
    Regroup(before, Pkt(p), rest);
    Slice(before, Pkt(p), rest, 0, 4);
    Slice(before, Pkt(p), rest, 4, 4 + |p|);
    assert data[offset..offset + 4] == Pkt(p)[..4];
    assert data[offset + 4..offset + (|p| + 4)] == p;
  }

  lemma ReadFlush(before: Bytes, rest: Bytes, packets: seq<Packet>, limit: Option<nat>)
    ensures ReadFrom(before + (FLUSH + rest), |before|, packets, limit) == Lines(packets + [None], |before| + 4)
  {
    FlushIsZero();
    hide PyHex;
    var data := before + (FLUSH + rest);
    assert data[|before|..|before| + 4] == FLUSH;
  }

  /** Reading printed packets gives their payloads back, up to and including the flush, whatever follows. */
  lemma {:induction false} ReadFrames(before: Bytes, payloads: seq<Bytes>, rest: Bytes, packets: seq<Packet>, limit: Option<nat>)
    requires (forall p :: p in payloads ==> Fits(p)) && Room(packets, |payloads|, limit)
    ensures ReadFrom(before + (Frame(payloads) + rest), |before|, packets, limit) ==
            Lines(packets + Somes(payloads) + [None], |before| + |Frame(payloads)|)
    decreases |payloads|
  {
    hide ReadFrom, Pkt, Fits;
    if payloads == [] {
      ReadFlush(before, rest, packets, limit);
      assert packets + Somes([]) + [None] == packets + [None];
    } else {
      var p, tail := payloads[0], payloads[1..];
      assert Frame(payloads) + rest == Pkt(p) + (Frame(tail) + rest);
      ReadOne(before, p, Frame(tail) + rest, packets, limit);
      ReadFrames(before + Pkt(p), tail, rest, packets + [Some(p)], limit);
      assert packets + [Some(p)] + Somes(tail) == packets + Somes(payloads);
    }
  }

  // A packet that is cut short is not decided.
  lemma ReadPart(before: Bytes, p: Bytes, n: nat, packets: seq<Packet>, limit: Option<nat>)
    requires Fits(p) && n < |Pkt(p)|
    ensures ReadFrom(before + Pkt(p)[..n], |before|, packets, limit) == NeedMore
  {
    PktParts(p);
    hide Pkt, PyHex;
    var data, offset := before + Pkt(p)[..n], |before|;
    if n >= 4 {
      assert data[offset..offset + 4] == Pkt(p)[..4];
    }
  }

  /** Nothing is decided before the flush: every proper prefix of printed packets asks for more. */
  lemma {:induction false} ReadCut(before: Bytes, payloads: seq<Bytes>, n: nat, packets: seq<Packet>, limit: Option<nat>)
    requires (forall p :: p in payloads ==> Fits(p)) && Room(packets, |payloads|, limit) && n < |Frame(payloads)|
    ensures ReadFrom(before + Frame(payloads)[..n], |before|, packets, limit) == NeedMore
    decreases |payloads|
  {
    if payloads != [] {
      var p, tail := payloads[0], payloads[1..];
      hide ReadFrom, Pkt;
      if n < |Pkt(p)| {
        assert Frame(payloads)[..n] == Pkt(p)[..n];
        ReadPart(before, p, n, packets, limit);
      } else {
        var m := n - |Pkt(p)|;
        assert Frame(payloads)[..n] == Pkt(p) + Frame(tail)[..m];
        ReadOne(before, p, Frame(tail)[..m], packets, limit);
        ReadCut(before + Pkt(p), tail, m, packets + [Some(p)], limit);
      }
    }
  }

  // The packet that goes over the limit ends the reading.
  lemma ReadOver(before: Bytes, p: Bytes, rest: Bytes, packets: seq<Packet>, limit: nat)
    requires Fits(p) && |packets| == limit
    ensures ReadFrom(before + (Pkt(p) + rest), |before|, packets, Some(limit)) == TooMany
  {
    hide ReadFrom, Pkt, PyHex;
    PktParts(p);
    var data, offset := before + Pkt(p) + rest, |before|;
    Regroup(before, Pkt(p), rest);
    Slice(before, Pkt(p), rest, 0, 4);
    assert data[offset..offset + 4] == Pkt(p)[..4];
    OverLimit(data, offset, packets, limit, |p| + 4);
  }

  lemma OverLimit(data: Bytes, offset: nat, packets: seq<Packet>, limit: nat, length: nat)
    requires offset + length <= |data| && length >= 4 && PyHex(data[offset..offset + 4]) == Some(length) && |packets| == limit
    ensures ReadFrom(data, offset, packets, Some(limit)) == TooMany
  {
    hide PyHex;
  }

  /** More packets than the limit are refused, whatever they hold and whatever follows. */
  lemma {:induction false} ReadTooMany(before: Bytes, payloads: seq<Bytes>, rest: Bytes, packets: seq<Packet>, limit: nat)
    requires forall p :: p in payloads ==> Fits(p)
    requires |packets| <= limit < |packets| + |payloads|
    ensures ReadFrom(before + (Frame(payloads) + rest), |before|, packets, Some(limit)) == TooMany
    decreases |payloads|
  {
    hide ReadFrom, Pkt, Fits;
    var p, tail := payloads[0], payloads[1..];
    assert Frame(payloads) + rest == Pkt(p) + (Frame(tail) + rest);
    if |packets| == limit {
      ReadOver(before, p, Frame(tail) + rest, packets, limit);
    } else {
      ReadOne(before, p, Frame(tail) + rest, packets, Some(limit));
      ReadTooMany(before + Pkt(p), tail, rest, packets + [Some(p)], limit);
    }
  }
}
