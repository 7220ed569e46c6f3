/** The RTP clock of a local track: which RTP time each written sample gets, and what the
    packetizer is told about it.

    The conversions that the source does in floating point are inputs. */
module SampleClock {
  import opened Wrappers

  /** `handed` is the packetizer's clock: all samples skipped or packetized so far, modulo 2^32. */
  datatype Clock = Clock(bound: bool, lastTime: Option<int>, lastRtp: uint32, handed: uint32, sequence: uint16)

  /** A sample with the duration of itself and of the dropped ones before it, in clock samples and in
      wall-clock time. `start` is the random first time stamp drawn for it, `packets` the number of
      packets it is cut into. */
  datatype Sample = Sample(
    packetTime: uint32, wallTime: Option<int>, negative: bool, dropped: uint16,
    elapsed: uint32, elapsedTime: int, start: uint32, packets: nat)

  datatype SampleError = OutOfOrder | InvalidDuration

  datatype Outcome =
    NotBound | Rejected(error: SampleError) | Crashed | Written(samplesPerPacket: uint32, skipped: uint32)

  // ---- Division of a duration among packets ----

  lemma QuotientAndRemainder(a: nat, b: nat)
    requires b > 0
    ensures a / b * b == a - a % b
  {
  }

  lemma MultipleIsLarger(q: nat, b: nat)
    requires b > 0
    ensures q <= q * b
  {
  }

  /** The samples of each packet, the samples of the dropped packets together, and what is lost. */
  function PerPacket(elapsed: uint32, dropped: uint16): uint32 {
    QuotientAndRemainder(elapsed, dropped + 1);
    MultipleIsLarger(elapsed / (dropped + 1), dropped + 1);
    elapsed / (dropped + 1)
  }

  function OfDropped(elapsed: uint32, dropped: uint16): nat { PerPacket(elapsed, dropped) * dropped }

  function Lost(elapsed: uint32, dropped: uint16): nat { elapsed % (dropped + 1) }

  lemma DivisionIsExhaustive(elapsed: uint32, dropped: uint16)
    ensures OfDropped(elapsed, dropped) + PerPacket(elapsed, dropped) + Lost(elapsed, dropped) == elapsed
    ensures dropped == 0 ==> Lost(elapsed, dropped) == 0 && OfDropped(elapsed, dropped) == 0
  {
  }

  // ---- Specification ----

  /** Where a sample lies: the time it is counted from and its own time. */
  datatype Position = Position(base: uint32, baseTime: Option<int>, current: uint32)

  function Before(t: Option<int>, d: int): Option<int> {
    match t
    case None => None
    case Some(x) => Some(x - d)
  }

  function FirstBase(s: Sample): uint32 {
    if s.packetTime != 0 then Wrap32(s.packetTime - s.elapsed) else s.start
  }

  /** `rate` converts a span of wall-clock time into samples. A last RTP time of 0 means that nothing
      was written yet. */
  function Locate(c: Clock, s: Sample, rate: int -> uint32): Result<Position, SampleError> {
    if c.lastRtp == 0 then
      if s.negative then Err(InvalidDuration)
      else Ok(Position(FirstBase(s), Before(s.wallTime, s.elapsedTime), Wrap32(FirstBase(s) + s.elapsed)))
    else if s.packetTime != 0 then
      if Wrap32(s.packetTime - c.lastRtp) > TWO_31 then Err(OutOfOrder)
      else Ok(Position(c.lastRtp, c.lastTime, s.packetTime))
    else if s.wallTime.Some? && c.lastTime.Some? && s.wallTime.value < c.lastTime.value then Err(OutOfOrder)
    else
      var from := if s.wallTime.Some? && c.lastTime.None? then Before(s.wallTime, s.elapsedTime) else c.lastTime;
      var offset := if s.wallTime.Some? then rate(s.wallTime.value - from.value) else 0;
      var byDuration := s.wallTime.None? || Wrap32(c.lastRtp + offset) == 0;
      if s.negative && (byDuration || c.lastTime.None?) then Err(InvalidDuration)
      else Ok(Position(c.lastRtp, from, Wrap32(c.lastRtp + if byDuration then s.elapsed else offset)))
  }

  function Max(a: int, b: int): int { if a < b then b else a }

  /** A sample never takes less time than its duration; what it takes beyond is a gap to be skipped. */
  function Write(c: Clock, s: Sample, rate: int -> uint32): (Clock, Outcome) {
    if !c.bound then (c, NotBound)
    else
      match Locate(c, s, rate)
      case Err(e) => (c, Rejected(e))
      case Ok(p) =>
        if s.dropped == TWO_16 - 1 then
          (c.(lastRtp := p.base, lastTime := p.baseTime, sequence := Wrap16(c.sequence + s.dropped)), Crashed)
        else
          var moved := Max(Wrap32(p.current - p.base), s.elapsed);
          var skipped := moved - s.elapsed;
          (Clock(true, s.wallTime, Wrap32(p.base + moved),
                 Wrap32(c.handed + OfDropped(s.elapsed, s.dropped) + skipped + PerPacket(s.elapsed, s.dropped)),
                 Wrap16(c.sequence + s.dropped + s.packets)),
           Written(PerPacket(s.elapsed, s.dropped), skipped))
  }

  // ---- The track ----

  class LocalTrack {
    var bound: bool
    var lastTime: Option<int>
    var lastRtp: uint32
    var handed: uint32
    var sequence: uint16

    ghost function Current(): Clock
      reads this
    {
      Clock(bound, lastTime, lastRtp, handed, sequence)
    }

    /** Finds the time of a sample; for a first sample it places the clock. */
    method PlaceSample(s: Sample, rate: int -> uint32) returns (r: Result<uint32, SampleError>)
      modifies this`lastRtp, this`lastTime
      ensures match Locate(old(Current()), s, rate)
              case Err(e) => r == Err(e) && Current() == old(Current())
              case Ok(p) => r == Ok(p.current) && lastRtp == p.base && lastTime == p.baseTime
    {
      var current: uint32 := 0;
      if lastRtp == 0 {
        if s.negative { return Err(InvalidDuration); }
        if s.packetTime != 0 {
          lastRtp := Wrap32(s.packetTime - s.elapsed);
          current := s.packetTime;
        } else {
          lastRtp := s.start;
          current := Wrap32(lastRtp + s.elapsed);
        }
        lastTime := Before(s.wallTime, s.elapsedTime);
      } else if s.packetTime != 0 {
        if Wrap32(s.packetTime - lastRtp) > TWO_31 { return Err(OutOfOrder); }
        current := s.packetTime;
      } else if s.wallTime.Some? {
        if lastTime.Some? && s.wallTime.value < lastTime.value { return Err(OutOfOrder); }
        if lastTime.None? {
          if s.negative { return Err(InvalidDuration); }
          lastTime := Before(s.wallTime, s.elapsedTime);
        }
        current := Wrap32(lastRtp + rate(s.wallTime.value - lastTime.value));
      }
      if current == 0 {
        if s.negative { return Err(InvalidDuration); }
        current := Wrap32(lastRtp + s.elapsed);
      }
      return Ok(current);
    }

    /** Tells the packetizer about the dropped packets, the gap and the packet itself. */
    method HandOver(samples: uint32, dropped: uint16, skipped: uint32) returns (perPacket: uint32)
      requires samples + skipped < TWO_32
      modifies this`handed
      ensures perPacket == PerPacket(samples, dropped)
      ensures handed == Wrap32(old(handed) + OfDropped(samples, dropped) + skipped + perPacket)
    {
      DivisionIsExhaustive(samples, dropped);
      hide PerPacket, OfDropped, Lost, Wrap32;
      perPacket := PerPacket(samples, dropped);
      ghost var h: int, o := handed, OfDropped(samples, dropped);
      WrapIsIdentity(h);
      WrapIsIdentity(o);
      WrapAdds(h + o, skipped);
      WrapAdds(h + o + skipped, perPacket);
      if dropped > 0 { handed := Wrap32(handed + Wrap32(OfDropped(samples, dropped))); }
      if skipped != 0 { handed := Wrap32(handed + skipped); }
      handed := Wrap32(handed + perPacket);
    }

    method WriteSample(s: Sample, rate: int -> uint32) returns (r: Outcome)
      modifies this
      ensures (Current(), r) == Write(old(Current()), s, rate)
    {
      hide PerPacket, OfDropped, Locate, Wrap32;
      if !bound { return NotBound; }
      var placed := PlaceSample(s, rate);
      if placed.Err? { return Rejected(placed.error); }
      var current := placed.value;
      var samples := Wrap32(current - lastRtp);
      WrapAdds(current - lastRtp, lastRtp);
      WrapIsIdentity(current);
      var skipped: uint32 := 0;
      if samples < s.elapsed {
        samples := s.elapsed;
        current := Wrap32(lastRtp + s.elapsed);
      } else if samples > s.elapsed {
        skipped := samples - s.elapsed;
        samples := s.elapsed;
      }
      SequenceAdds(sequence + s.dropped, s.packets);
      SkipSequenceNumbers(s.dropped);
      if Wrap16(s.dropped + 1) == 0 { return Crashed; }
      var perPacket := HandOver(samples, s.dropped, skipped);
      sequence := Wrap16(sequence + s.packets);
      lastTime := s.wallTime;
      lastRtp := current;
      return Written(perPacket, skipped);
    }

    method SkipSequenceNumbers(n: uint16)
      modifies this`sequence
      ensures sequence == Wrap16(old(sequence) + n)
    {
      for i := 0 to n
        invariant sequence == Wrap16(old(sequence) + i)
      {
        sequence := Wrap16(sequence + 1);
      }
    }
  }

  lemma SequenceAdds(a: int, b: int)
    ensures Wrap16(Wrap16(a) + b) == Wrap16(a + b)
  {
  }

  // ---- Accounting ----

  ghost predicate IsRun(states: seq<Clock>, samples: seq<Sample>, rate: int -> uint32) {
    && |states| == |samples| + 1
    && forall i :: 0 <= i < |samples| ==> states[i + 1] == Write(states[i], samples[i], rate).0
  }

  /** The samples that the division among dropped and sent packets loses. */
  function Remainder(c: Clock, s: Sample, rate: int -> uint32): nat {
    if Write(c, s, rate).1.Written? then Lost(s.elapsed, s.dropped) else 0
  }

  /** How far the first sample places the clock before it is counted. */
  function Jump(c: Clock, s: Sample, rate: int -> uint32): int {
    if c.bound && c.lastRtp == 0 && !s.negative then FirstBase(s) else 0
  }

  lemma WrapAdds(a: int, b: int)
    ensures Wrap32(Wrap32(a) + b) == Wrap32(a + b)
    ensures Wrap32(b - Wrap32(a)) == Wrap32(b - a)
  {
    assert a == TWO_32 * (a / TWO_32) + a % TWO_32;
    var k := a / TWO_32;
    Cancel(Wrap32(a) + b, k);
    Cancel(b - a, k);
  }

  lemma Cancel(x: int, k: int)
    ensures (x + TWO_32 * k) % TWO_32 == x % TWO_32
  {
  }

  /** Every call, whatever its outcome, hands the packetizer what the RTP time moved by, except for
      the division remainder and the first placement of the clock. */
  lemma StepAccounting(c: Clock, s: Sample, rate: int -> uint32)
    ensures var d := Write(c, s, rate).0;
            Wrap32(d.handed - c.handed) == Wrap32(d.lastRtp - c.lastRtp - Jump(c, s, rate) - Remainder(c, s, rate))
  {
    hide PerPacket, OfDropped, Lost, Wrap32;
    var (d, r) := Write(c, s, rate);
    if r.Written? {
      var p := Locate(c, s, rate).value;
      var moved := Max(Wrap32(p.current - p.base), s.elapsed);
      var lost, handed: int, base: int := Lost(s.elapsed, s.dropped), c.handed, p.base;
      DivisionIsExhaustive(s.elapsed, s.dropped);
      WrapAdds(handed + (moved - lost), -handed);
      WrapAdds(base + moved, -base - lost);
      assert base == c.lastRtp + Jump(c, s, rate);
    }
  }

  function Total(values: seq<int>): int {
    if values == [] then 0 else Total(values[..|values| - 1]) + values[|values| - 1]
  }

  function Jumps(states: seq<Clock>, samples: seq<Sample>, rate: int -> uint32): seq<int>
    requires |states| == |samples| + 1
  {
    seq(|samples|, i requires 0 <= i < |samples| => Jump(states[i], samples[i], rate))
  }

  function Remainders(states: seq<Clock>, samples: seq<Sample>, rate: int -> uint32): seq<int>
    requires |states| == |samples| + 1
  {
    seq(|samples|, i requires 0 <= i < |samples| => Remainder(states[i], samples[i], rate))
  }

  /** Over any run: samples handed over equal the movement of the last RTP time, minus the division
      remainders, minus the placements of the clock. */
  lemma {:induction false} RunAccounting(states: seq<Clock>, samples: seq<Sample>, rate: int -> uint32)
    requires IsRun(states, samples, rate)
    ensures Wrap32(states[|samples|].handed - states[0].handed) ==
              Wrap32(states[|samples|].lastRtp - states[0].lastRtp
                  - Total(Jumps(states, samples, rate)) - Total(Remainders(states, samples, rate)))
  {
    hide Write, Wrap32;
    var n := |samples|;
    if n > 0 {
      var states', samples' := states[..n], samples[..n - 1];
      RunAccounting(states', samples', rate);
      assert Jumps(states, samples, rate)[..n - 1] == Jumps(states', samples', rate);
      assert Remainders(states, samples, rate)[..n - 1] == Remainders(states', samples', rate);
      StepAccounting(states[n - 1], samples[n - 1], rate);
      var x, y := states[n - 1].handed - states[0].handed, states[n].handed - states[n - 1].handed;
      var j, r := Total(Jumps(states', samples', rate)), Total(Remainders(states', samples', rate));
      var u := states[n - 1].lastRtp - states[0].lastRtp - j - r;
      var v := states[n].lastRtp - states[n - 1].lastRtp - Jump(states[n - 1], samples[n - 1], rate)
          - Remainder(states[n - 1], samples[n - 1], rate);
      CongruenceAdds(x, u, y, v);
      assert x + y == states[n].handed - states[0].handed;
    }
  }

  lemma CongruenceAdds(x: int, u: int, y: int, v: int)
    requires Wrap32(x) == Wrap32(u) && Wrap32(y) == Wrap32(v)
    ensures Wrap32(x + y) == Wrap32(u + v)
  {
  }

  lemma {:induction false} TotalOfZeros(values: seq<int>)
    requires forall i :: 0 <= i < |values| ==> values[i] == 0
    ensures Total(values) == 0
  {
    if values != [] {
      TotalOfZeros(values[..|values| - 1]);
    }
  }

  /** While the last RTP time stays off the value 0, the samples handed over are the movement of the
      RTP time minus the remainders; without dropped packets they are exactly the movement. */
  lemma RunAccountingWithoutPlacement(states: seq<Clock>, samples: seq<Sample>, rate: int -> uint32)
    requires IsRun(states, samples, rate)
    requires forall i :: 0 <= i < |samples| ==> states[i].lastRtp != 0
    ensures Wrap32(states[|samples|].handed - states[0].handed) ==
              Wrap32(states[|samples|].lastRtp - states[0].lastRtp - Total(Remainders(states, samples, rate)))
    ensures (forall i :: 0 <= i < |samples| ==> samples[i].dropped == 0) ==>
              Wrap32(states[|samples|].handed - states[0].handed) ==
                  Wrap32(states[|samples|].lastRtp - states[0].lastRtp)
  {
    RunAccounting(states, samples, rate);
    TotalOfZeros(Jumps(states, samples, rate));
    if forall i :: 0 <= i < |samples| ==> samples[i].dropped == 0 {
      TotalOfZeros(Remainders(states, samples, rate));
    }
  }

  /** One written sample is fully accounted for by the movement of the RTP time if and only if the
      clock was not at 0 or is placed at 0. */
  lemma PlainAccountingIff(c: Clock, s: Sample, rate: int -> uint32)
    requires Write(c, s, rate).1.Written?
    ensures var d := Write(c, s, rate).0;
            Wrap32(d.handed - c.handed) == Wrap32(d.lastRtp - c.lastRtp - Remainder(c, s, rate))
            <==> c.lastRtp != 0 || FirstBase(s) == 0
  {
    StepAccounting(c, s, rate);
    assert c.bound && (c.lastRtp == 0 ==> !s.negative);
    hide Write, Remainder;
    var d := Write(c, s, rate).0;
    OffByLessThanAWrap(d.lastRtp - c.lastRtp - Remainder(c, s, rate), Jump(c, s, rate));
  }

  lemma OffByLessThanAWrap(v: int, j: uint32)
    ensures Wrap32(v - j) == Wrap32(v) <==> j == 0
  {
  }

  /** An RTP time that comes to rest on 0 is taken for a track that has not started: the next packet
      time re-places the clock and the packetizer falls behind it. */
  lemma LandingOnZeroLosesSamples(rate: int -> uint32)
    ensures var c := Clock(true, None, TWO_32 - 960, 0, 0);
            var d := Write(c, Sample(0, None, false, 0, 960, 0, TWO_31, 1), rate).0;
            var e := Write(d, Sample(5000, None, false, 0, 960, 0, TWO_31, 1), rate).0;
            d.lastRtp == 0 && e.lastRtp == 5000 && e.handed - d.handed == 960
  {
    LandOnZero(rate);
    LeaveZero(rate);
    hide Write;
  }

  lemma LandOnZero(rate: int -> uint32)
    ensures var c := Clock(true, None, TWO_32 - 960, 0, 0);
            Write(c, Sample(0, None, false, 0, 960, 0, TWO_31, 1), rate).0 == Clock(true, None, 0, 960, 1)
  {
    hide PerPacket, OfDropped, Lost;
    DivisionIsExhaustive(960, 0);
  }

  lemma LeaveZero(rate: int -> uint32)
    ensures var e := Write(Clock(true, None, 0, 960, 1), Sample(5000, None, false, 0, 960, 0, TWO_31, 1), rate).0;
            e.lastRtp == 5000 && e.handed == 1920
  {
    hide PerPacket, OfDropped, Lost;
    DivisionIsExhaustive(960, 0);
  }

  /** Accepted samples advance the RTP time by at least their duration, and the RTP time is the packet
      time whenever one is given and leaves room for the duration. */
  lemma AcceptedSamplesAdvance(c: Clock, s: Sample, rate: int -> uint32)
    requires Write(c, s, rate).1.Written?
    ensures var d := Write(c, s, rate).0;
            var base := if c.lastRtp == 0 then FirstBase(s) else c.lastRtp;
            && Wrap32(d.lastRtp - base) >= s.elapsed
            && (s.packetTime != 0 && Wrap32(s.packetTime - base) >= s.elapsed ==> d.lastRtp == s.packetTime)
  {
    hide PerPacket, OfDropped, Lost, Wrap32;
    var p := Locate(c, s, rate).value;
    var base: int := p.base;
    var moved := Max(Wrap32(p.current - p.base), s.elapsed);
    WrapAdds(base + moved, -base);
    WrapIsIdentity(moved);
    if s.packetTime != 0 {
      WrapAdds(s.packetTime - s.elapsed, s.elapsed);
      WrapIsIdentity(s.packetTime);
      WrapAdds(s.packetTime - base, base);
    }
  }

  lemma WrapIsIdentity(x: uint32)
    ensures Wrap32(x) == x
  {
  }
}
