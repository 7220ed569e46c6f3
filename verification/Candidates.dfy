/** ICE candidates, their priorities, and candidate pairs. */
module Candidates {
  import opened Wrappers

  datatype NetworkType = UDP4 | UDP6 | TCP4 | TCP6 {
    predicate IsTCP() { TCP4? || TCP6? }
  }

  datatype CandidateType = Host | ServerReflexive | PeerReflexive | Relay {
    function Preference(): uint16 {
      match this
      case Host => 126
      case PeerReflexive => 110
      case ServerReflexive => 100
      case Relay => 0
    }
  }

  datatype TcpType = Unspecified | Active | Passive | SimultaneousOpen

  datatype RelatedAddress = RelatedAddress(address: string, port: int)

  /** A transport address as the sockets report it. */
  datatype Addr = Addr(networkType: NetworkType, ip: string, port: int)

  /** The immutable part of a candidate: everything its constructor stores. */
  datatype Candidate = Candidate(
    networkType: NetworkType,
    candidateType: CandidateType,
    component: uint16,
    address: string,
    port: int,
    related: Option<RelatedAddress>,
    tcpType: TcpType,
    foundationOverride: string,
    priorityOverride: uint32)
  {
    /** Candidate equality ignores component, foundation and priority. */
    predicate Equal(other: Candidate) {
      && networkType == other.networkType
      && candidateType == other.candidateType
      && address == other.address
      && port == other.port
      && tcpType == other.tcpType
      && related == other.related
    }

    /** The address that packets for this candidate are sent to. */
    function Resolved(): Addr {
      Addr(networkType, address, port)
    }

    function LocalPreference(): uint16 {
      if networkType.IsTCP() then 0x2000 * DirectionPreference() + 8191 else 65535
    }

    function DirectionPreference(): (d: uint16)
      ensures d <= 6
    {
      match candidateType
      case Host | Relay => (
        match tcpType
        case Active => 6
        case Passive => 4
        case SimultaneousOpen => 2
        case Unspecified => 0)
      case PeerReflexive | ServerReflexive => (
        match tcpType
        case SimultaneousOpen => 6
        case Active => 4
        case Passive => 2
        case Unspecified => 0)
    }

    function TypePreference(tcpPriorityOffset: uint16): uint16 {
      var pref := candidateType.Preference();
      if pref == 0 then 0
      else if networkType.IsTCP() then Wrap16(pref - tcpPriorityOffset)
      else pref
    }

    /** The 32-bit candidate priority; every intermediate value wraps as in the source. */
    function Priority(tcpPriorityOffset: uint16): uint32 {
      if priorityOverride != 0 then priorityOverride
      else Wrap32(0x100_0000 * TypePreference(tcpPriorityOffset) + 0x100 * LocalPreference() + Wrap16(256 - component))
    }
  }

  const DEFAULT_TCP_PRIORITY_OFFSET: uint16 := 27

  /** No candidate has priority zero, whatever its component, its TCP offset and the wrap-around do.
      This is what makes zero usable as "no override". */
  lemma PriorityIsNeverZero(c: Candidate, tcpPriorityOffset: uint16)
    ensures c.Priority(tcpPriorityOffset) != 0
  {
    if c.priorityOverride == 0 {
      var type24 := 0x100_0000 * c.TypePreference(tcpPriorityOffset);
      var low := 0x100 * c.LocalPreference() + Wrap16(256 - c.component);
      if c.networkType.IsTCP() {
        assert 0 < low < 0x100_0000;
        LowPartSurvives(c.TypePreference(tcpPriorityOffset), low);
      } else {
        assert c.TypePreference(tcpPriorityOffset) <= 126;
        assert 0 < type24 + low < TWO_32;
      }
    }
  }

  /** The wrap-around never clears low 24 bits that are not zero. */
  lemma LowPartSurvives(t: nat, low: nat)
    requires 0 < low < 0x100_0000
    ensures Wrap32(0x100_0000 * t + low) != 0
  {
    var q, rest := t / 256, 0x100_0000 * (t % 256) + low;
    assert 0x100_0000 * t + low == TWO_32 * q + rest && 0 < rest < TWO_32;
  }

  /** The recommended priority range: legal components and TCP offsets give a 31-bit positive priority. */
  lemma PriorityIsLegal(c: Candidate, tcpPriorityOffset: uint16)
    requires c.priorityOverride == 0
    requires 1 <= c.component <= 256 && tcpPriorityOffset <= 100
    ensures 1 <= c.Priority(tcpPriorityOffset) < TWO_31
  {
  }

  function Min(x: int, y: int): int { if x < y then x else y }

  function Max(x: int, y: int): int { if x > y then x else y }

  /** Pair priority as the source computes it: the multiplier is 2^32 - 1. */
  function PairPriority(controlling: bool, local: uint32, remote: uint32): int {
    var g := if controlling then local else remote;
    var d := if controlling then remote else local;
    (TWO_32 - 1) * Min(g, d) + 2 * Max(g, d) + if g > d then 1 else 0
  }

  /** Pair priority as section 5.7.2 of RFC 5245 defines it, over unbounded integers. */
  function Rfc5245PairPriority(g: uint32, d: uint32): int {
    TWO_32 * Min(g, d) + 2 * Max(g, d) + if g > d then 1 else 0
  }

  /** The result always fits 64 bits, and for opposite roles it is the same from the two ends. */
  lemma PairPriorityFitsAndMirrors(controlling: bool, local: uint32, remote: uint32)
    ensures 0 <= PairPriority(controlling, local, remote) < TWO_64
    ensures PairPriority(controlling, local, remote) == PairPriority(!controlling, remote, local)
  {
  }

  /** Seen from its two ends, a pair has the same priority if and only if the two ends take it in opposite
      roles or the two candidates have the same priority. */
  lemma MirrorAgreesIff(here: bool, there: bool, local: uint32, remote: uint32)
    ensures PairPriority(here, local, remote) == PairPriority(there, remote, local) <==>
              here != there || local == remote
  {
  }

  /** On legal priorities the source orders pairs exactly as the RFC formula does. */
  lemma PairPriorityOrdersAsRfc(g1: uint32, d1: uint32, g2: uint32, d2: uint32)
    requires 1 <= g1 < TWO_31 && 1 <= d1 < TWO_31 && 1 <= g2 < TWO_31 && 1 <= d2 < TWO_31
    ensures PairPriority(true, g1, d1) < PairPriority(true, g2, d2)
       <==> Rfc5245PairPriority(g1, d1) < Rfc5245PairPriority(g2, d2)
    ensures PairPriority(true, g1, d1) == PairPriority(true, g2, d2)
       <==> Rfc5245PairPriority(g1, d1) == Rfc5245PairPriority(g2, d2)
  {
    OrdersAsRfcIff(g1, d1, g2, d2);
    hide PairPriority, Rfc5245PairPriority;
  }

  /** Over all 32-bit priorities the two formulas never order two pairs in opposite directions. */
  lemma PairPriorityNeverReversesRfc(g1: uint32, d1: uint32, g2: uint32, d2: uint32)
    requires Rfc5245PairPriority(g1, d1) < Rfc5245PairPriority(g2, d2)
    ensures PairPriority(true, g1, d1) <= PairPriority(true, g2, d2)
  {
  }

  /** The part of the pair priority beside the multiple of the smaller priority. */
  function PairRest(g: uint32, d: uint32): int {
    2 * Max(g, d) + if g > d then 1 else 0
  }

  /** The first pair's smaller priority is one less than the second's, and its rest makes up for that in
      one formula and not, or not as much, in the other. */
  predicate NearTie(g1: uint32, d1: uint32, g2: uint32, d2: uint32) {
    Min(g1, d1) + 1 == Min(g2, d2) && TWO_32 - 1 <= PairRest(g1, d1) - PairRest(g2, d2) <= TWO_32
  }

  predicate OrdersAsRfc(g1: uint32, d1: uint32, g2: uint32, d2: uint32) {
    && (PairPriority(true, g1, d1) < PairPriority(true, g2, d2) <==>
         Rfc5245PairPriority(g1, d1) < Rfc5245PairPriority(g2, d2))
    && (PairPriority(true, g1, d1) == PairPriority(true, g2, d2) <==>
         Rfc5245PairPriority(g1, d1) == Rfc5245PairPriority(g2, d2))
  }

  /** Over all 32-bit priorities, the source orders two pairs as the RFC formula does if and only if they
      are not nearly tied. */
  lemma OrdersAsRfcIff(g1: uint32, d1: uint32, g2: uint32, d2: uint32)
    ensures OrdersAsRfc(g1, d1, g2, d2) <==> !NearTie(g1, d1, g2, d2) && !NearTie(g2, d2, g1, d1)
  {
    var m1, m2 := Min(g1, d1), Min(g2, d2);
    assert PairPriority(true, g1, d1) == (TWO_32 - 1) * m1 + PairRest(g1, d1);
    assert PairPriority(true, g2, d2) == (TWO_32 - 1) * m2 + PairRest(g2, d2);
    if m1 <= m2 {
      SmallerMinimumIff(m1, m2, PairRest(g1, d1), PairRest(g2, d2));
    } else {
      SmallerMinimumIff(m2, m1, PairRest(g2, d2), PairRest(g1, d1));
    }
  }

  lemma SmallerMinimumIff(m1: int, m2: int, x1: int, x2: int)
    requires 0 <= m1 <= m2 && 2 * m2 <= x2 && x1 <= 2 * TWO_32 - 1
    ensures var p, r := (TWO_32 - 1) * (m1 - m2) + x1 - x2, TWO_32 * (m1 - m2) + x1 - x2;
            (p < 0 <==> r < 0) && (p == 0 <==> r == 0) <==> !(m1 + 1 == m2 && TWO_32 - 1 <= x1 - x2 <= TWO_32)
  {
    if m2 >= m1 + 2 {
      assert (TWO_32 - 1) * (m1 - m2) <= -2 * (TWO_32 - 1);
    }
  }

  /** Two pairs that tie in the RFC formula and not in the source. */
  lemma PairPriorityCanBreakRfcTies()
    ensures NearTie(1, TWO_31 + 2, 2, 2) && !OrdersAsRfc(1, TWO_31 + 2, 2, 2)
    ensures Rfc5245PairPriority(1, TWO_31 + 2) == Rfc5245PairPriority(2, 2)
  {
    OrdersAsRfcIff(1, TWO_31 + 2, 2, 2);
  }
}
