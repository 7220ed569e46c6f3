/** TURN over TCP: cutting a byte stream back into STUN messages and ChannelData messages. */
module TurnFraming {
  import opened Wrappers

  type Bytes = seq<uint8>

  const STUN_HEADER_SIZE := 20
  const CHANNEL_DATA_HEADER_SIZE := 4
  const MAGIC_COOKIE: Bytes := [0x21, 0x12, 0xA4, 0x42]

  function Uint16At(p: Bytes, i: nat): uint16
    requires i + 2 <= |p|
  {
    0x100 * (p[i] as int) + (p[i + 1] as int)
  }

  predicate HasCookie(p: Bytes) {
    |p| >= 8 && p[4..8] == MAGIC_COOKIE
  }

  /** The multiplexing test of the STUN library. */
  predicate IsMessage(p: Bytes) {
    |p| >= STUN_HEADER_SIZE && HasCookie(p)
  }

  predicate IsChannelNumber(n: uint16) { 0x4000 <= n <= 0x7FFF }

  datatype Consumed = Frame(size: nat) | Incomplete | Invalid

  /** The size of the frame at the front of the buffer, in 16-bit arithmetic as the source has it. */
  function ConsumeSingleTurnFrame(p: Bytes): (r: Consumed)
    ensures r.Frame? ==> r.size <= |p| && 9 <= |p|
  {
    if |p| < 9 then Incomplete
    else if IsMessage(p) then Complete(p, Wrap16(Uint16At(p, 2) + STUN_HEADER_SIZE))
    else if IsChannelNumber(Uint16At(p, 0)) then Complete(p, ChannelDataSize(Uint16At(p, 2)))
    else if |p| < STUN_HEADER_SIZE then Incomplete
    else Invalid
  }

  /** Header, body and padding. */
  function ChannelDataSize(size: uint16): uint16 {
    var overflow := Wrap16(size + 4) % 4;
    var padded := if overflow != 0 then Wrap16(Wrap16(size + 4) - overflow) else size;
    Wrap16(padded + CHANNEL_DATA_HEADER_SIZE)
  }

  function Complete(p: Bytes, size: uint16): Consumed {
    if |p| < size then Incomplete else Frame(size)
  }

  // ---- Well-formed frames ----

  /** Rounded up to a multiple of four. */
  function Padded(n: nat): nat { (n + 3) / 4 * 4 }

  predicate IsStunFrame(f: Bytes) {
    && STUN_HEADER_SIZE <= |f| < TWO_16 && f[0] < 0x40 && HasCookie(f)
    && Uint16At(f, 2) % 4 == 0 && |f| == STUN_HEADER_SIZE + Uint16At(f, 2)
  }

  /** A ChannelData message with the padding that section 11.5 of RFC 5766 asks for over TCP. */
  predicate IsChannelData(f: Bytes) {
    && CHANNEL_DATA_HEADER_SIZE <= |f| < TWO_16 && 0x40 <= f[0] <= 0x7F
    && |f| == CHANNEL_DATA_HEADER_SIZE + Padded(Uint16At(f, 2))
  }

  predicate WellFormed(f: Bytes) {
    IsStunFrame(f) || (IsChannelData(f) && !HasCookie(f))
  }

  ghost predicate AllWellFormed(fs: seq<Bytes>) {
    forall k :: 0 <= k < |fs| ==> WellFormed(fs[k])
  }

  function Concat(bs: seq<Bytes>): Bytes {
    if bs == [] then [] else bs[0] + Concat(bs[1..])
  }

  lemma PaddingIsRoundingUp(size: uint16)
    ensures ChannelDataSize(size) == CHANNEL_DATA_HEADER_SIZE + Padded(size) <==>
              CHANNEL_DATA_HEADER_SIZE + Padded(size) < TWO_16
  {
    hide Padded, ChannelDataSize;
    PaddedByRemainder(size);
    if size + 4 < TWO_16 {
      ShortChannelDataSize(size);
    } else {
      LongChannelDataSize(size);
    }
  }

  lemma PaddedByRemainder(n: nat)
    ensures Padded(n) == if n % 4 == 0 then n else n - n % 4 + 4
  {
    var q, r := n / 4, n % 4;
    assert (n + 3) / 4 == q + if r == 0 then 0 else 1;
  }

  lemma ShortChannelDataSize(size: uint16)
    requires size + 4 < TWO_16
    ensures ChannelDataSize(size) ==
              Wrap16(CHANNEL_DATA_HEADER_SIZE + if size % 4 == 0 then size else size - size % 4 + 4)
  {
    assert Wrap16(size + 4) == size + 4;
    assert (size + 4) % 4 == size % 4;
  }

  lemma LongChannelDataSize(size: uint16)
    requires size + 4 >= TWO_16
    ensures ChannelDataSize(size) == if size % 4 == 0 then 0 else 4
  {
    assert Wrap16(size + 4) == size - 65532 == size % 4;
  }

  /** What follows a complete well-formed frame does not make it look like another one. */
  lemma NoCookieAcross(f: Bytes, fs: seq<Bytes>, rest: Bytes)
    requires IsChannelData(f) && !HasCookie(f) && AllWellFormed(fs) && rest <= Concat(fs)
    ensures !HasCookie(f + rest)
  {
    if |f| >= 8 {
      assert (f + rest)[4..8] == f[4..8];
    } else if |f + rest| >= 8 {
      assert |f| == 4;
      assert (f + rest)[4..8] == rest[..4];
      var g := fs[0];
      assert WellFormed(g);
      assert rest[..4] == Concat(fs)[..4] == g[..4];
    }
  }

  lemma WholeFrameIsConsumed(f: Bytes, fs: seq<Bytes>, rest: Bytes)
    requires WellFormed(f) && AllWellFormed(fs) && rest <= Concat(fs) && |f + rest| >= 9
    ensures ConsumeSingleTurnFrame(f + rest) == Frame(|f|)
  {
    if IsStunFrame(f) {
      MessageFramedIff(f, rest);
    } else {
      NoCookieAcross(f, fs, rest);
      ChannelDataFramedIff(f, rest);
    }
    hide ConsumeSingleTurnFrame, IsStunFrame, IsChannelData, HasCookie;
  }

  lemma SameHeader(p: Bytes, f: Bytes)
    requires p <= f && |p| >= 4
    ensures Uint16At(p, 0) == Uint16At(f, 0) && Uint16At(p, 2) == Uint16At(f, 2) && p[0] == f[0]
  {
  }

  lemma PartOfFrameIsIncomplete(p: Bytes, f: Bytes)
    requires WellFormed(f) && p <= f && |p| < |f|
    ensures ConsumeSingleTurnFrame(p) == Incomplete
  {
    if |p| >= 9 {
      if IsStunFrame(f) {
        PartOfMessageIsIncomplete(p, f);
      } else {
        PartOfChannelDataIsIncomplete(p, f);
      }
    }
    hide IsStunFrame, IsChannelData, HasCookie;
  }

  lemma PartOfMessageIsIncomplete(p: Bytes, f: Bytes)
    requires IsStunFrame(f) && p <= f && 9 <= |p| < |f|
    ensures ConsumeSingleTurnFrame(p) == Incomplete
  {
    assert p[4..8] == f[4..8];
    assert Uint16At(f, 0) < 0x4000;
    SameHeader(p, f);
    hide Uint16At, ChannelDataSize;
  }

  lemma PartOfChannelDataIsIncomplete(p: Bytes, f: Bytes)
    requires IsChannelData(f) && !HasCookie(f) && p <= f && 9 <= |p| < |f|
    ensures ConsumeSingleTurnFrame(p) == Incomplete
  {
    assert p[4..8] == f[4..8];
    assert IsChannelNumber(Uint16At(f, 0));
    SameHeader(p, f);
    PaddingIsRoundingUp(Uint16At(f, 2));
    hide Padded, Uint16At, ChannelDataSize, IsChannelNumber;
  }

  /** On any part of a stream of well-formed frames, exactly the first frame is cut off, and nothing
      is withheld but an incomplete frame or fewer than nine bytes. */
  lemma FrontOfStream(buff: Bytes, fs: seq<Bytes>)
    requires AllWellFormed(fs) && buff <= Concat(fs)
    ensures ConsumeSingleTurnFrame(buff) ==
              if |buff| < 9 || fs == [] || |buff| < |fs[0]| then Incomplete else Frame(|fs[0]|)
    ensures ConsumeSingleTurnFrame(buff).Frame? ==> buff[..|fs[0]|] == fs[0] && buff[|fs[0]|..] <= Concat(fs[1..])
  {
    if fs != [] {
      var f, tail := fs[0], fs[1..];
      assert WellFormed(f);
      if |buff| < |f| {
        assert buff <= f;
        PartOfFrameIsIncomplete(buff, f);
      } else {
        var rest := buff[|f|..];
        assert Concat(fs)[|f|..] == Concat(tail);
        assert buff == f + rest && rest <= Concat(tail);
        if |buff| >= 9 {
          WholeFrameIsConsumed(f, tail, rest);
        }
      }
    }
  }

  // ---- Where the framing fails ----

  /** A ChannelData message is cut off correctly exactly when the four bytes after its header are not
      the magic cookie or fewer than twenty bytes are buffered. Those bytes belong to the body, unless
      the message is empty. */
  lemma ChannelDataFramedIff(f: Bytes, rest: Bytes)
    requires IsChannelData(f) && |f + rest| >= 9
    ensures ConsumeSingleTurnFrame(f + rest) == Frame(|f|) <==> !HasCookie(f + rest) || |f + rest| < STUN_HEADER_SIZE
    ensures |f| >= 8 ==> (HasCookie(f + rest) <==> HasCookie(f))
  {
    ConsumedByHeader(f, rest);
    PaddingIsRoundingUp(Uint16At(f, 2));
    hide Padded, Uint16At, ChannelDataSize;
    assert |f| >= 8 ==> (f + rest)[4..8] == f[4..8];
  }

  lemma ConsumedByHeader(f: Bytes, rest: Bytes)
    requires |f| >= 4 && |f + rest| >= 9
    ensures Uint16At(f + rest, 0) == Uint16At(f, 0) && Uint16At(f + rest, 2) == Uint16At(f, 2)
  {
  }

  /** A ChannelData message of sixteen bytes that begin with the cookie is taken for a STUN message. */
  lemma CookieInBodyIsMisread()
    ensures var f := [0x40, 0, 0, 16] + MAGIC_COOKIE + [0, 0, 0, 0, 0, 0, 0, 0, 0, 0, 0, 0];
            IsChannelData(f) && |f| == 20 && ConsumeSingleTurnFrame(f) == Incomplete
  {
    var f := [0x40, 0, 0, 16] + MAGIC_COOKIE + [0, 0, 0, 0, 0, 0, 0, 0, 0, 0, 0, 0];
    assert f[4..8] == MAGIC_COOKIE;
  }

  /** A complete STUN message is cut off correctly exactly when its size fits 16 bits. */
  lemma MessageFramedIff(f: Bytes, rest: Bytes)
    requires |f| >= STUN_HEADER_SIZE && HasCookie(f) && |f| == STUN_HEADER_SIZE + Uint16At(f, 2)
    ensures ConsumeSingleTurnFrame(f + rest) == Frame(|f|) <==> |f| < TWO_16
  {
  }

  /** A complete padded ChannelData message without a cookie is cut off correctly exactly when its size
      fits 16 bits. */
  lemma LongChannelDataFramedIff(f: Bytes, rest: Bytes)
    requires |f| >= 9 && 0x40 <= f[0] <= 0x7F && !HasCookie(f)
    requires |f| == CHANNEL_DATA_HEADER_SIZE + Padded(Uint16At(f, 2))
    ensures ConsumeSingleTurnFrame(f + rest) == Frame(|f|) <==> |f| < TWO_16
  {
    ConsumedByHeader(f, rest);
    PaddingIsRoundingUp(Uint16At(f, 2));
    assert IsChannelNumber(Uint16At(f, 0));
    hide Padded, Uint16At, ChannelDataSize;
    assert (f + rest)[4..8] == f[4..8];
  }

  /** At the first size that does not fit, 65516 bytes after the header, the frame gets size zero:
      reading it consumes nothing, so the reader never gets past it. */
  lemma OversizedMessageNeverConsumed(p: Bytes)
    requires IsMessage(p) && Uint16At(p, 2) == 65516
    ensures ConsumeSingleTurnFrame(p) == Frame(0)
  {
  }

  // ---- The connection ----

  datatype ReadError = InvalidFrame | EndOfStream

  class StunConn {
    var buff: Bytes
    var incoming: seq<Bytes>  // the chunks that the stream is still going to deliver
    const closing: Bytes      // the bytes that it delivers together with the error that ends it

    constructor (incoming: seq<Bytes>, closing: Bytes)
      ensures buff == [] && this.incoming == incoming && this.closing == closing
    {
      buff, this.incoming, this.closing := [], incoming, closing;
    }

    /** The bytes that are buffered or still to come, apart from those that come with the error. */
    ghost function Unread(): Bytes
      reads this
    {
      buff + Concat(incoming)
    }

    /** One read of the stream: at most as many bytes as the caller's buffer holds. */
    method ReadChunk(p: array<uint8>) returns (n: nat)
      requires p.Length > 0 && incoming != []
      modifies this`incoming, p
      ensures n <= p.Length && p[..n] + Concat(incoming) == old(Concat(incoming))
      ensures |incoming| < |old(incoming)| || (|incoming| == |old(incoming)| && |incoming[0]| < |old(incoming)[0]|)
    {
      var chunk := incoming[0];
      n := if |chunk| < p.Length then |chunk| else p.Length;
      forall i | 0 <= i < n {
        p[i] := chunk[i];
      }
      assert p[..n] == chunk[..n];
      ghost var tail := incoming[1..];
      if n == |chunk| {
        incoming := incoming[1..];
      } else {
        incoming := [chunk[n..]] + incoming[1..];
        assert incoming[1..] == tail;
      }
      assert chunk == chunk[..n] + chunk[n..];
    }

    /** Reads one frame into `p`. If `sent` is a list of well-formed frames whose stream is still
        arriving, in any chunks, then the result is its first frame; and if the stream ends first,
        only an incomplete frame or fewer than nine bytes stay behind. Bytes that come together with an
        error are dropped. With an empty `p` an incomplete frame is never completed. */
    method ReadFrom(p: array<uint8>, ghost sent: seq<Bytes>) returns (r: Result<nat, ReadError>, ghost frame: Bytes)
      requires p.Length > 0 || !ConsumeSingleTurnFrame(buff).Incomplete?
      modifies this, p
      ensures r.Ok? ==> |frame| == r.value && frame + Unread() == old(Unread())
      ensures r.Ok? ==> forall i :: 0 <= i < r.value && i < p.Length ==> p[i] == frame[i]
      ensures r.Err? ==> Unread() == old(Unread()) && (r.error == EndOfStream ==> incoming == [])
      ensures AllWellFormed(sent) && old(Unread()) <= Concat(sent) ==>
                && (r.Ok? ==> sent != [] && frame == sent[0] && Unread() <= Concat(sent[1..]))
                && (r.Err? ==> r.error == EndOfStream && (|buff| < 9 || sent == [] || |buff| < |sent[0]|))
      decreases |incoming|, if incoming == [] then 0 else |incoming[0]|
    {
      frame := [];
      var consumed := ConsumeSingleTurnFrame(buff);
      if AllWellFormed(sent) && Unread() <= Concat(sent) {
        assert buff == Unread()[..|buff|];
        FrontOfStream(buff, sent);
      }
      if consumed.Invalid? {
        return Err(InvalidFrame), [];
      }
      if consumed.Frame? {
        var n := consumed.size;
        frame := buff[..n];
        ghost var unread := Unread();
        forall i | 0 <= i < n && i < p.Length {
          p[i] := buff[i];
        }
        buff := buff[n..];
        assert frame + Unread() == unread
            by { assert frame + (buff + Concat(incoming)) == (frame + buff) + Concat(incoming); }
        if AllWellFormed(sent) && unread <= Concat(sent) {
          assert Unread() == unread[n..];
          assert Concat(sent)[n..] == Concat(sent[1..]);
        }
        return Ok(n), frame;
      }
      if incoming == [] {
        forall i | 0 <= i < |closing| && i < p.Length {
          p[i] := closing[i];
        }
        return Err(EndOfStream), [];
      }
      ghost var before := Unread();
      var n := ReadChunk(p);
      buff := buff + p[..n];
      assert Unread() == before;
      r, frame := ReadFrom(p, sent);
    }

    /** Reads until an error: every chunking of a stream of well-formed frames gives back a prefix of
        the frames, in order, and loses no byte except those that come together with the error. */
    method ReadAll(p: array<uint8>, ghost sent: seq<Bytes>) returns (ghost frames: seq<Bytes>, error: ReadError)
      requires p.Length > 0 && AllWellFormed(sent) && Unread() <= Concat(sent)
      modifies this, p
      ensures frames <= sent && error == EndOfStream && incoming == []
      ensures Concat(frames) + buff == old(Unread())
      ensures |buff| < 9 || |frames| == |sent| || |buff| < |sent[|frames|]|
    {
      hide Concat, WellFormed, ConsumeSingleTurnFrame;
      frames := [];
      ghost var rest := sent;
      ghost var all := Unread();
      ConcatOfNone();
      assert [] + all == all;
      while true
        invariant frames + rest == sent && AllWellFormed(rest)
        invariant Unread() <= Concat(rest) && Concat(frames) + Unread() == all
        decreases |rest|
      {
        var r, frame := ReadFrom(p, rest);
        if r.Err? {
          assert Unread() == buff;
          error := r.error;
          return;
        }
        FrameIsAccounted(frames, frame, Unread());
        frames := frames + [frame];
        rest := rest[1..];
      }
    }
  }

  lemma ConcatOfNone()
    ensures Concat([]) == []
  {
  }

  lemma FrameIsAccounted(frames: seq<Bytes>, frame: Bytes, unread: Bytes)
    ensures Concat(frames + [frame]) + unread == Concat(frames) + (frame + unread)
  {
    ConcatAppend(frames, frame);
    hide Concat;
    assert (Concat(frames) + frame) + unread == Concat(frames) + (frame + unread);
  }

  lemma {:induction false} ConcatAppend(bs: seq<Bytes>, b: Bytes)
    ensures Concat(bs + [b]) == Concat(bs) + b
  {
    if bs == [] {
      assert bs + [b] == [b] && [b][1..] == [];
    } else {
      assert (bs + [b])[1..] == bs[1..] + [b];
      ConcatAppend(bs[1..], b);
    }
  }
}
