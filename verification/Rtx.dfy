/** Turning a received RTX packet back into the RTP packet it retransmits (section 4 of RFC 4588).
    The original sequence number sits in the first two payload bytes of the RTX packet. */
module Rtx {
  import opened Wrappers

  type Bytes = seq<uint8>

  // ---- RTP header fields ----

  predicate HasPadding(b: Bytes) requires |b| >= 12 { b[0] / 32 % 2 == 1 }

  predicate HasExtension(b: Bytes) requires |b| >= 12 { b[0] / 16 % 2 == 1 }

  function CsrcEnd(b: Bytes): (n: nat)
    requires |b| >= 12
    ensures 12 <= n <= 72
  {
    12 + 4 * (b[0] % 16)
  }

  /** The header is complete and the packet is small enough for 16-bit lengths. */
  predicate IsRtp(b: Bytes) {
    && 12 <= |b| < TWO_16
    && (HasExtension(b) ==> CsrcEnd(b) + 4 <= |b|)
    && HeaderLength(b) <= |b|
  }

  function HeaderLength(b: Bytes): (n: nat)
    requires |b| >= 12
    ensures n >= 12
  {
    var end := CsrcEnd(b);
    if HasExtension(b) && end + 4 <= |b| then end + 4 * (1 + 0x100 * (b[end + 2] as int) + (b[end + 3] as int)) else end
  }

  predicate Marker(b: Bytes) requires |b| >= 12 { b[1] >= 0x80 }

  function PayloadType(b: Bytes): (t: uint8)
    requires |b| >= 12
    ensures t < 0x80
  {
    b[1] % 0x80
  }

  function SequenceNumber(b: Bytes): uint16 requires |b| >= 12 { 0x100 * (b[2] as int) + (b[3] as int) }

  function Ssrc(b: Bytes): uint32
    requires |b| >= 12
  {
    0x100_0000 * (b[8] as int) + 0x1_0000 * (b[9] as int) + 0x100 * (b[10] as int) + (b[11] as int)
  }

  function Be16(x: uint16): (r: Bytes)
    ensures |r| == 2
  {
    [x / 0x100, x % 0x100]
  }

  function Be32(x: uint32): (r: Bytes)
    ensures |r| == 4
  {
    [x / 0x100_0000, x / 0x1_0000 % 0x100, x / 0x100 % 0x100, x % 0x100]
  }

  // ---- Encapsulation and its inverse ----

  /** The identity of the retransmission stream that carries a packet. */
  datatype RtxInfo = RtxInfo(payloadType: uint8, sequenceNumber: uint16, ssrc: uint32)

  /** The RTX packet for an original, as a sender makes it that keeps the original's padding: its own
      type, number and source, and the original sequence number in front of the original payload. */
  function Encapsulate(original: Bytes, info: RtxInfo): (r: Bytes)
    requires IsRtp(original) && info.payloadType < 0x80
    ensures |r| == |original| + 2
  {
    var h := HeaderLength(original);
    [original[0], (if Marker(original) then 0x80 else 0) + info.payloadType] + Be16(info.sequenceNumber)
    + original[4..8] + Be32(info.ssrc) + original[12..h]
    + original[2..4] + original[h..]
  }

  function PaddingLength(b: Bytes): nat
    requires |b| >= 12
  {
    if HasPadding(b) then b[|b| - 1] else 0
  }

  /** The packet that the receiver reconstructs; packets without an original sequence number are probes. */
  function Decapsulate(b: Bytes, payloadType: uint8, ssrc: uint32): (r: Option<(Bytes, RtxInfo)>)
    requires IsRtp(b) && payloadType < 0x80
    ensures r.Some? ==> |r.value.0| == |b| - 2
  {
    var h := HeaderLength(b);
    if |b| - h - PaddingLength(b) < 2 then None
    else
      Some(([b[0], (if Marker(b) then 0x80 else 0) + payloadType] + b[h..h + 2] + b[4..8] + Be32(ssrc) + b[12..h]
          + b[h + 2..],
            RtxInfo(PayloadType(b), SequenceNumber(b), Ssrc(b))))
  }

  lemma Be32OfSsrc(b: Bytes)
    requires |b| >= 12
    ensures Be32(Ssrc(b)) == b[8..12]
  {
    var x: int := Ssrc(b);
    NestedDivision(x);
    assert x / 0x100 == 0x1_0000 * (b[8] as int) + 0x100 * (b[9] as int) + (b[10] as int) && x % 0x100 == b[11];
    assert x / 0x1_0000 == 0x100 * (b[8] as int) + (b[9] as int);
  }

  lemma SsrcOfBe32(b: Bytes, x: uint32)
    requires |b| >= 12 && b[8..12] == Be32(x)
    ensures Ssrc(b) == x
  {
    BytesOfWord(x);
    hide Be32;
    assert b[8] == b[8..12][0] && b[9] == b[8..12][1] && b[10] == b[8..12][2] && b[11] == b[8..12][3];
  }

  lemma BytesOfWord(x: uint32)
    ensures var r := Be32(x);
            0x100_0000 * (r[0] as int) + 0x1_0000 * (r[1] as int) + 0x100 * (r[2] as int) + (r[3] as int) == x
  {
    var a: int := x / 0x100;
    var b := a / 0x100;
    NestedDivision(x);
    assert x == 0x100 * a + x % 0x100 && a == 0x100 * b + a % 0x100 && b == 0x100 * (b / 0x100) + b % 0x100;
  }

  lemma NestedDivision(x: nat)
    ensures x / 0x100 / 0x100 == x / 0x1_0000 && x / 0x1_0000 / 0x100 == x / 0x100_0000
  {
  }

  /** The encapsulated packet has the original's header apart from type, number and source. */
  lemma EncapsulateHeader(original: Bytes, info: RtxInfo)
    requires IsRtp(original) && info.payloadType < 0x80 && |original| + 2 < TWO_16
    ensures var r, h := Encapsulate(original, info), HeaderLength(original);
            && IsRtp(r) && HeaderLength(r) == h
            && r[0] == original[0] && Marker(r) == Marker(original) && r[4..8] == original[4..8]
            && r[12..h] == original[12..h]
            && r[h..h + 2] == original[2..4] && r[h + 2..] == original[h..]
            && PayloadType(r) == info.payloadType && SequenceNumber(r) == info.sequenceNumber && Ssrc(r) == info.ssrc
  {
    var r, h := Encapsulate(original, info), HeaderLength(original);
    assert r[8..12] == Be32(info.ssrc);
    SsrcOfBe32(r, info.ssrc);
    var end := CsrcEnd(original);
    assert r[12..h] == original[12..h];
    if HasExtension(original) {
      assert r[end + 2] == r[12..h][end - 10] == original[12..h][end - 10] == original[end + 2];
      assert r[end + 3] == r[12..h][end - 9] == original[12..h][end - 9] == original[end + 3];
    }
    assert r[h..h + 2] == original[2..4];
    assert r[h + 2..] == original[h..];
  }

  /** The padding count that the receiver sees does not reach back into the original sequence number. */
  predicate PaddingFits(original: Bytes)
    requires IsRtp(original)
  {
    var h := HeaderLength(original);
    HasPadding(original) ==> (if |original| > h then original[|original| - 1] else original[3]) <= |original| - h
  }

  /** From a sender that keeps the padding, the receiver gets back exactly the original bytes if and only
      if the padding count fits; otherwise it takes the packet for a probe and drops it. */
  lemma RoundTrip(original: Bytes, info: RtxInfo)
    requires IsRtp(original) && info.payloadType < 0x80 && |original| + 2 < TWO_16
    ensures var r := Decapsulate(Encapsulate(original, info), PayloadType(original), Ssrc(original));
            r == if PaddingFits(original) then Some((original, info)) else None
  {
    var e, h := Encapsulate(original, info), HeaderLength(original);
    EncapsulateHeader(original, info);
    Be32OfSsrc(original);
    hide Encapsulate, Be32, Be16, Ssrc, SequenceNumber, HeaderLength, CsrcEnd;
    assert e[|e| - 1] == if |original| > h then original[|original| - 1] else original[3] by {
      if |original| > h {
        assert e[|e| - 1] == e[h + 2..][|original| - h - 1];
      } else {
        assert e[|e| - 1] == e[h..h + 2][1];
      }
    }
    PartsOfOriginal(original, h);
  }

  /** An original whose padding count is larger than its payload is dropped. */
  lemma BadPaddingIsDropped(info: RtxInfo)
    requires info.payloadType < 0x80
    ensures var original := [0xA0, 0, 0, 1, 0, 0, 0, 0, 0, 0, 0, 0];
            && IsRtp(original) && !PaddingFits(original)
            && Decapsulate(Encapsulate(original, info), PayloadType(original), Ssrc(original)) == None
  {
    var original := [0xA0, 0, 0, 1, 0, 0, 0, 0, 0, 0, 0, 0];
    assert IsRtp(original) && !PaddingFits(original);
    RoundTrip(original, info);
  }

  // ---- The encapsulation of section 4 of RFC 4588 ----

  /** No padding, or up to 255 bytes of which the last is their number. */
  predicate IsPadding(pad: Bytes) {
    pad == [] || (|pad| <= 255 && pad[|pad| - 1] == |pad|)
  }

  /** The packet ends with the padding that its first byte announces. */
  predicate IsWellPadded(b: Bytes)
    requires IsRtp(b)
  {
    HasPadding(b) ==> HeaderLength(b) < |b| && 1 <= b[|b| - 1] <= |b| - HeaderLength(b)
  }

  function PayloadEnd(b: Bytes): (n: nat)
    requires IsRtp(b) && IsWellPadded(b)
    ensures HeaderLength(b) <= n <= |b|
  {
    |b| - PaddingLength(b)
  }

  function WithPaddingBit(first: uint8, on: bool): uint8 {
    first / 64 * 64 + (if on then 32 else 0) + first % 32
  }

  /** The sender takes the original's padding off and may add padding of its own. */
  function RfcEncapsulate(original: Bytes, info: RtxInfo, pad: Bytes): Bytes
    requires IsRtp(original) && IsWellPadded(original) && info.payloadType < 0x80
  {
    var h := HeaderLength(original);
    [WithPaddingBit(original[0], pad != []), (if Marker(original) then 0x80 else 0) + info.payloadType]
    + Be16(info.sequenceNumber) + original[4..8] + Be32(info.ssrc) + original[12..h]
    + original[2..4] + original[h..PayloadEnd(original)] + pad
  }

  /** The original with other padding. */
  function Repadded(original: Bytes, pad: Bytes): (r: Bytes)
    requires IsRtp(original) && IsWellPadded(original)
    ensures |r| == PayloadEnd(original) + |pad|
  {
    [WithPaddingBit(original[0], pad != [])] + original[1..PayloadEnd(original)] + pad
  }

  lemma PaddingBitIsAlone(first: uint8, on: bool)
    ensures var r := WithPaddingBit(first, on);
            && (r / 32 % 2 == 1 <==> on) && r / 16 % 2 == first / 16 % 2 && r % 16 == first % 16
            && (r == first <==> (first / 32 % 2 == 1 <==> on))
  {
    var high, bit, x, low := first / 64, first / 32 % 2, first / 16 % 2, first % 16;
    BitsMake(first);
    BitsOf(first, high, bit, x, low);
    BitsOf(WithPaddingBit(first, on), high, if on then 1 else 0, x, low);
  }

  lemma BitsMake(first: nat)
    ensures first == 64 * (first / 64) + 32 * (first / 32 % 2) + 16 * (first / 16 % 2) + first % 16
    ensures first % 32 == 16 * (first / 16 % 2) + first % 16
  {
    assert first / 16 / 2 == first / 32 && first / 32 / 2 == first / 64;
  }

  lemma BitsOf(r: nat, high: nat, o: nat, x: nat, low: nat)
    requires r == 64 * high + 32 * o + 16 * x + low && o < 2 && x < 2 && low < 16
    ensures r / 32 % 2 == o && r / 16 % 2 == x && r % 16 == low
  {
    assert r / 32 == 2 * high + o;
    assert r / 16 == 4 * high + 2 * o + x;
  }

  /** Two packets whose headers differ in the padding bit at most. */
  lemma SameHeader(r: Bytes, b: Bytes)
    requires IsRtp(b) && HeaderLength(b) <= |r| < TWO_16 && |r| >= 12
    requires r[0] / 16 % 2 == b[0] / 16 % 2 && r[0] % 16 == b[0] % 16
    requires forall i :: 1 <= i < HeaderLength(b) ==> r[i] == b[i]
    ensures IsRtp(r) && HeaderLength(r) == HeaderLength(b) && Marker(r) == Marker(b)
    ensures PayloadType(r) == PayloadType(b) && Ssrc(r) == Ssrc(b)
  {
    assert HasExtension(b) ==> CsrcEnd(b) + 4 <= HeaderLength(b);
  }

  lemma RepaddedHeader(original: Bytes, pad: Bytes)
    requires IsRtp(original) && IsWellPadded(original) && |original| + |pad| < TWO_16
    ensures var r, h := Repadded(original, pad), HeaderLength(original);
            && IsRtp(r) && HeaderLength(r) == h && Marker(r) == Marker(original)
            && PayloadType(r) == PayloadType(original) && Ssrc(r) == Ssrc(original)
            && r[2..4] == original[2..4] && r[4..8] == original[4..8] && r[12..h] == original[12..h]
            && r[h..] == original[h..PayloadEnd(original)] + pad
  {
    PaddingBitIsAlone(original[0], pad != []);
    var r, h, n := Repadded(original, pad), HeaderLength(original), PayloadEnd(original);
    hide WithPaddingBit, HeaderLength, PaddingLength, Marker, PayloadType, Ssrc, IsWellPadded, PayloadEnd;
    assert forall i :: 1 <= i < n ==> r[i] == original[i];
    SameHeader(r, original);
    hide IsRtp;
    assert r[h..n] == original[h..n] && r[n..] == pad;
    assert r[h..] == r[h..n] + r[n..];
  }

  /** The receiver gets back the original with its padding replaced by the sender's, whatever CSRCs and
      extension it has. */
  lemma RfcRoundTrip(original: Bytes, info: RtxInfo, pad: Bytes)
    requires IsRtp(original) && IsWellPadded(original) && IsPadding(pad)
    requires info.payloadType < 0x80 && |original| + |pad| + 2 < TWO_16
    ensures var b := RfcEncapsulate(original, info, pad);
            IsRtp(b) && Decapsulate(b, PayloadType(original), Ssrc(original)) == Some((Repadded(original, pad), info))
  {
    var r := Repadded(original, pad);
    RepaddedHeader(original, pad);
    RepaddedFits(original, pad);
    RfcIsEncapsulation(original, info, pad);
    hide Decapsulate, IsRtp, PaddingFits, HeaderLength, Repadded, RfcEncapsulate, Encapsulate, Ssrc, PayloadType,
         IsWellPadded;
    RoundTrip(r, info);
    EncapsulateHeader(r, info);
  }

  /** The sender's packet is the one that a sender which keeps padding makes of the repadded original. */
  lemma RfcIsEncapsulation(original: Bytes, info: RtxInfo, pad: Bytes)
    requires IsRtp(original) && IsWellPadded(original) && info.payloadType < 0x80 && |original| + |pad| < TWO_16
    requires IsRtp(Repadded(original, pad))
    ensures Encapsulate(Repadded(original, pad), info) == RfcEncapsulate(original, info, pad)
  {
    var r, h := Repadded(original, pad), HeaderLength(original);
    RepaddedHeader(original, pad);
    FirstOfRepadded(original, pad);
    hide IsRtp, HeaderLength, Be16, Be32, Marker, PayloadType, Ssrc, Repadded, IsWellPadded, PayloadEnd, WithPaddingBit;
    JoinsPadding(
      [r[0], (if Marker(r) then 0x80 else 0) + info.payloadType] + Be16(info.sequenceNumber)
      + r[4..8] + Be32(info.ssrc) + r[12..h] + r[2..4],
      original[h..PayloadEnd(original)], pad);
  }

  lemma FirstOfRepadded(original: Bytes, pad: Bytes)
    requires IsRtp(original) && IsWellPadded(original)
    ensures Repadded(original, pad)[0] == WithPaddingBit(original[0], pad != [])
  {
  }

  lemma JoinsPadding(front: Bytes, payload: Bytes, pad: Bytes)
    ensures front + (payload + pad) == front + payload + pad
  {
  }

  lemma RepaddedFits(original: Bytes, pad: Bytes)
    requires IsRtp(original) && IsWellPadded(original) && IsPadding(pad) && |original| + |pad| < TWO_16
    requires IsRtp(Repadded(original, pad)) && HeaderLength(Repadded(original, pad)) == HeaderLength(original)
    ensures PaddingFits(Repadded(original, pad))
  {
    var r := Repadded(original, pad);
    PaddingBitIsAlone(original[0], pad != []);
    hide WithPaddingBit, HeaderLength;
    if pad != [] {
      assert r[|r| - 1] == pad[|pad| - 1];
    }
  }

  /** So the receiver gets back exactly the original if and only if the sender's padding is the
      original's own. */
  lemma RepaddedIsOriginalIff(original: Bytes, pad: Bytes)
    requires IsRtp(original) && IsWellPadded(original) && IsPadding(pad)
    ensures Repadded(original, pad) == original <==> pad == original[PayloadEnd(original)..]
  {
    var r, n := Repadded(original, pad), PayloadEnd(original);
    PaddingBitIsAlone(original[0], pad != []);
    hide WithPaddingBit;
    assert r[n..] == pad;
    if pad == original[n..] {
      assert HasPadding(original) <==> pad != [];
      assert r == [original[0]] + original[1..n] + original[n..];
    }
  }

  lemma PartsOfOriginal(b: Bytes, h: nat)
    requires 12 <= h <= |b|
    ensures b ==
              [b[0], (if Marker(b) then 0x80 else 0) + PayloadType(b)] + b[2..4] + b[4..8] + b[8..12] + b[12..h]
                  + b[h..]
  {
  }

  /** The reconstructed packet has the received header apart from type, number and source. */
  lemma DecapsulateHeader(b: Bytes, payloadType: uint8, ssrc: uint32)
    requires IsRtp(b) && payloadType < 0x80 && Decapsulate(b, payloadType, ssrc).Some?
    ensures var r, h := Decapsulate(b, payloadType, ssrc).value.0, HeaderLength(b);
            && IsRtp(r) && HeaderLength(r) == h
            && r[0] == b[0] && Marker(r) == Marker(b) && r[2..4] == b[h..h + 2]
            && r[4..8] == b[4..8] && r[12..h] == b[12..h] && r[h..] == b[h + 2..]
  {
  }

  /** Encapsulation puts the parts of an RTX packet together. */
  lemma EncapsulateParts(original: Bytes, info: RtxInfo, b: Bytes, h: nat)
    requires IsRtp(original) && info.payloadType < 0x80 && HeaderLength(original) == h && 12 <= h <= |b| - 2
    requires original[0] == b[0] && Marker(original) == Marker(b) && original[2..4] == b[h..h + 2]
    requires original[4..8] == b[4..8] && original[12..h] == b[12..h] && original[h..] == b[h + 2..]
    requires info.payloadType == PayloadType(b) && Be16(info.sequenceNumber) == b[2..4] && Be32(info.ssrc) == b[8..12]
    ensures Encapsulate(original, info) ==
              [b[0], (if Marker(b) then 0x80 else 0) + PayloadType(b)] + b[2..4] + b[4..8] + b[8..12] + b[12..h]
                  + b[h..h + 2] + b[h + 2..]
  {
    hide IsRtp, HeaderLength, Marker, PayloadType, Be16, Be32;
  }

  lemma Be16OfSequenceNumber(b: Bytes)
    requires |b| >= 12
    ensures Be16(SequenceNumber(b)) == b[2..4]
  {
  }

  /** Nothing is lost either: the reconstructed packet and the reported stream identity determine the
      RTX packet that was received. */
  lemma RewriteIsReversible(b: Bytes, payloadType: uint8, ssrc: uint32)
    requires IsRtp(b) && payloadType < 0x80 && Decapsulate(b, payloadType, ssrc).Some?
    ensures var (original, info) := Decapsulate(b, payloadType, ssrc).value;
            IsRtp(original) && Encapsulate(original, info) == b
  {
    var h := HeaderLength(b);
    assert 12 <= h <= |b| - 2;
    hide IsRtp, Be32, Be16, Ssrc, SequenceNumber, HeaderLength, CsrcEnd, PaddingLength, Marker, PayloadType,
         Encapsulate;
    var (original, info) := Decapsulate(b, payloadType, ssrc).value;
    assert info == RtxInfo(PayloadType(b), SequenceNumber(b), Ssrc(b));
    hide Decapsulate;
    DecapsulateHeader(b, payloadType, ssrc);
    Be32OfSsrc(b);
    Be16OfSequenceNumber(b);
    EncapsulateParts(original, info, b, h);
    PartsOfOriginal(b, h);
    var front := [b[0], (if Marker(b) then 0x80 else 0) + PayloadType(b)] + b[2..4] + b[4..8] + b[8..12] + b[12..h];
    assert front + b[h..] == front + b[h..h + 2] + b[h + 2..];
  }

  // ---- In place ----

  /** The reconstructed packet, byte by byte. */
  lemma DecapsulateAt(b: Bytes, payloadType: uint8, ssrc: uint32, j: nat)
    requires IsRtp(b) && payloadType < 0x80 && Decapsulate(b, payloadType, ssrc).Some? && j < |b| - 2
    ensures var h := HeaderLength(b);
            Decapsulate(b, payloadType, ssrc).value.0[j] ==
              if j == 1 then (if Marker(b) then 0x80 else 0) + payloadType
              else if j == 2 || j == 3 then b[h + j - 2]
              else if 8 <= j < 12 then Be32(ssrc)[j - 8]
              else if j < h then b[j]
              else b[j + 2]
  {
  }

  method PatchHeader(b: array<uint8>, headerLength: nat, payloadType: uint8, ssrc: uint32)
    requires 12 <= b.Length && headerLength + 2 <= b.Length && payloadType < 0x80
    modifies b
    ensures forall j :: 12 <= j < b.Length ==> b[j] == old(b[j])
    ensures 12 <= headerLength ==> forall j :: 0 <= j < 12 ==>
              b[j] == if j == 1 then (if old(b[1]) >= 0x80 then 0x80 else 0) + payloadType
                      else if j == 2 || j == 3 then old(b[headerLength + j - 2])
                      else if 8 <= j < 12 then Be32(ssrc)[j - 8]
                      else old(b[j])
  {
    b[1] := (if b[1] >= 0x80 then 0x80 else 0) + payloadType;
    b[2] := b[headerLength];
    b[3] := b[headerLength + 1];
    b[8], b[9], b[10], b[11] := ssrc / 0x100_0000, ssrc / 0x1_0000 % 0x100, ssrc / 0x100 % 0x100, ssrc % 0x100;
  }

  /** Moves b[from + 2..to] down by two; source and destination overlap. */
  method ShiftDown(b: array<uint8>, from: nat, to: nat)
    requires from + 2 <= to <= b.Length
    modifies b
    ensures forall j :: 0 <= j < b.Length ==> b[j] == if from <= j < to - 2 then old(b[j + 2]) else old(b[j])
  {
    var k := from;
    while k < to - 2
      invariant from <= k <= to - 2
      invariant forall j :: 0 <= j < b.Length ==> b[j] == if from <= j < k then old(b[j + 2]) else old(b[j])
    {
      b[k] := b[k + 2];
      k := k + 1;
    }
  }

  /** The length that the header of a packet in a receive buffer announces, in 16-bit arithmetic. The
      extension is read from the buffer even where the packet is shorter. */
  function AnnouncedHeaderLength(b: Bytes): uint16
    requires |b| >= LARGEST_HEADER
  {
    var end := CsrcEnd(b);
    if HasExtension(b) then Wrap16(end + 4 * (1 + 0x100 * (b[end + 2] as int) + (b[end + 3] as int))) else end
  }

  /** Fifteen CSRCs and the fixed part of an extension; receive buffers are larger than that. */
  const LARGEST_HEADER := 76

  lemma AnnouncedIsHeaderLength(b: Bytes, i: nat)
    requires 12 <= i <= |b| && |b| >= LARGEST_HEADER && IsRtp(b[..i])
    ensures AnnouncedHeaderLength(b) == HeaderLength(b[..i])
  {
    assert b[..i][0] == b[0];
  }

  method MeasureHeader(b: array<uint8>, i: nat) returns (headerLength: uint16, paddingLength: nat)
    requires 12 <= i <= b.Length && b.Length >= LARGEST_HEADER
    ensures headerLength == AnnouncedHeaderLength(b[..]) && paddingLength == PaddingLength(b[..i])
  {
    headerLength := 12 + 4 * (b[0] % 16);
    if b[0] / 16 % 2 == 1 {
      headerLength := Wrap16(headerLength
          + 4 * (1 + 0x100 * (b[headerLength + 2] as int) + (b[headerLength + 3] as int)));
    }
    paddingLength := if b[0] / 32 % 2 == 1 then b[i - 1] else 0;
  }

  method ReadInfo(b: array<uint8>, i: nat) returns (info: RtxInfo)
    requires 12 <= i <= b.Length
    ensures info == RtxInfo(PayloadType(b[..i]), SequenceNumber(b[..i]), Ssrc(b[..i]))
  {
    info := RtxInfo(b[1] % 0x80, 0x100 * (b[2] as int) + (b[3] as int),
                    0x100_0000 * (b[8] as int) + 0x1_0000 * (b[9] as int) + 0x100 * (b[10] as int) + (b[11] as int));
  }

  /** Rewrites the first `i` bytes of the buffer in place: patches the header and shifts the payload
      down over the original sequence number with an overlapping copy. A packet that announces a header
      and padding which leave no room for a sequence number is dropped. */
  method Rewrite(b: array<uint8>, i: nat, payloadType: uint8, ssrc: uint32) returns (r: Option<(nat, RtxInfo)>)
    requires 12 <= i <= b.Length && b.Length >= LARGEST_HEADER && payloadType < 0x80
    modifies b
    ensures r.None? <==> i - old(AnnouncedHeaderLength(b[..])) - old(PaddingLength(b[..i])) < 2
    ensures r.None? ==> b[..] == old(b[..])
    ensures r.Some? ==> r.value.0 == i - 2 && (i >= 14 ==> b[i - 2..] == old(b[i - 2..]))
    ensures IsRtp(old(b[..i])) ==>
              match Decapsulate(old(b[..i]), payloadType, ssrc)
              case None => r == None
              case Some((packet, info)) => r == Some((i - 2, info)) && b[..i - 2] == packet
  {
    hide HeaderLength, AnnouncedHeaderLength, PaddingLength, SequenceNumber, Ssrc, PayloadType, Be32, IsRtp, Marker,
         Decapsulate;
    ghost var before, buffer := b[..i], b[..];
    var headerLength, paddingLength := MeasureHeader(b, i);
    if i - headerLength - paddingLength < 2 {
      DecapsulatesAsAnnounced(buffer, i, payloadType, ssrc);
      return None;
    }
    var info := ReadInfo(b, i);
    Reshape(b, i, headerLength, payloadType, ssrc);
    DecapsulatesAsAnnounced(buffer, i, payloadType, ssrc);
    if IsRtp(before) {
      Reshaped(buffer, i, payloadType, ssrc, b[..i - 2]);
    }
    return Some((i - 2, info));
  }

  /** Patches and shifts a packet whose header has a given length. */
  method Reshape(b: array<uint8>, i: nat, headerLength: nat, payloadType: uint8, ssrc: uint32)
    requires 12 <= i <= b.Length && headerLength + 2 <= i && payloadType < 0x80
    modifies b
    ensures i >= 14 ==> b[i - 2..] == old(b[i - 2..])
    ensures 12 <= headerLength ==>
              forall j :: 0 <= j < i - 2 ==> b[j] == ReshapedByte(old(b[..]), headerLength, payloadType, ssrc, j)
  {
    hide Be32;
    PatchHeader(b, headerLength, payloadType, ssrc);
    ShiftDown(b, headerLength, i);
  }

  function ReshapedByte(b: Bytes, headerLength: nat, payloadType: uint8, ssrc: uint32, j: nat): uint8
    requires 12 <= headerLength && headerLength + 2 <= |b| && j + 2 < |b| && payloadType < 0x80
  {
    if j == 1 then (if b[1] >= 0x80 then 0x80 else 0) + payloadType
    else if j == 2 || j == 3 then b[headerLength + j - 2]
    else if 8 <= j < 12 then Be32(ssrc)[j - 8]
    else if j < headerLength then b[j]
    else b[j + 2]
  }

  /** On a well-formed packet the announced lengths decide what is reconstructed. */
  lemma DecapsulatesAsAnnounced(b: Bytes, i: nat, payloadType: uint8, ssrc: uint32)
    requires 12 <= i <= |b| && |b| >= LARGEST_HEADER && payloadType < 0x80
    ensures IsRtp(b[..i]) ==>
              var r := Decapsulate(b[..i], payloadType, ssrc);
              && HeaderLength(b[..i]) == AnnouncedHeaderLength(b)
              && (r.None? <==> i - AnnouncedHeaderLength(b) - PaddingLength(b[..i]) < 2)
              && (r.Some? ==> r.value.1 == RtxInfo(PayloadType(b[..i]), SequenceNumber(b[..i]), Ssrc(b[..i])))
  {
    if IsRtp(b[..i]) {
      AnnouncedIsHeaderLength(b, i);
    }
    hide HeaderLength, AnnouncedHeaderLength, PaddingLength, SequenceNumber, Ssrc, PayloadType;
  }

  lemma Reshaped(b: Bytes, i: nat, payloadType: uint8, ssrc: uint32, packet: Bytes)
    requires 12 <= i <= |b| && |b| >= LARGEST_HEADER && payloadType < 0x80
    requires IsRtp(b[..i]) && Decapsulate(b[..i], payloadType, ssrc).Some? && |packet| == i - 2
    requires HeaderLength(b[..i]) + 2 <= i
    requires forall j :: 0 <= j < i - 2 ==> packet[j] == ReshapedByte(b, HeaderLength(b[..i]), payloadType, ssrc, j)
    ensures Decapsulate(b[..i], payloadType, ssrc).value.0 == packet
  {
    hide Decapsulate, HeaderLength, PaddingLength, Be32, IsRtp;
    forall j | 0 <= j < i - 2
      ensures Decapsulate(b[..i], payloadType, ssrc).value.0[j] == packet[j]
    {
      DecapsulateAt(b[..i], payloadType, ssrc, j);
    }
  }
}
