/** Reachable-state invariants of one ICE agent: connection state against selected pair, the
    checklist against the candidate sets, and pending transactions against the requests sent. */
module AgentInvariants {
  import opened Wrappers
  import opened Candidates
  import opened AgentSpec

  // ---- What sending checks does ----

  ghost predicate IdsIncrease(rs: seq<BindingRequest>) {
    forall i, j :: 0 <= i < j < |rs| ==> rs[i].id < rs[j].id
  }

  lemma {:induction false} FilterByAgeMembers(rs: seq<BindingRequest>, now: int)
    ensures forall r :: r in FilterByAge(rs, now) <==> r in rs && Fresh(now, r)
    ensures |FilterByAge(rs, now)| <= |rs|
  {
    if rs != [] {
      FilterByAgeMembers(rs[..|rs| - 1], now);
      assert rs == rs[..|rs| - 1] + [rs[|rs| - 1]];
    }
  }

  lemma IdsIncreaseSnoc(rs: seq<BindingRequest>, r: BindingRequest)
    ensures IdsIncrease(rs + [r]) <==> IdsIncrease(rs) && forall q :: q in rs ==> q.id < r.id
  {
    var all := rs + [r];
    assert forall k :: 0 <= k < |rs| ==> all[k] == rs[k];
    assert all[|rs|] == r;
  }

  lemma {:induction false} FilterByAgeKeepsOrder(rs: seq<BindingRequest>, now: int)
    requires IdsIncrease(rs)
    ensures IdsIncrease(FilterByAge(rs, now))
  {
    if rs != [] {
      var init, last := rs[..|rs| - 1], rs[|rs| - 1];
      assert rs == init + [last];
      IdsIncreaseSnoc(init, last);
      FilterByAgeKeepsOrder(init, now);
      FilterByAgeMembers(init, now);
      hide IdsIncrease;
      IdsIncreaseSnoc(FilterByAge(init, now), last);
    }
  }

  /** The pure filter: exactly the requests young enough, in their order. */
  lemma FilterByAgeKeepsExactlyFresh(rs: seq<BindingRequest>, now: int)
    ensures forall r :: r in FilterByAge(rs, now) <==> r in rs && Fresh(now, r)
    ensures IdsIncrease(rs) ==> IdsIncrease(FilterByAge(rs, now))
    ensures |FilterByAge(rs, now)| <= |rs|
  {
    FilterByAgeMembers(rs, now);
    if IdsIncrease(rs) {
      FilterByAgeKeepsOrder(rs, now);
    }
  }

  /** A pending entry describes a request that was really sent. */
  predicate Recorded(s: State, r: BindingRequest) {
    && r.id < |s.requests|
    && s.requests[r.id].dst == r.destination
    && s.requests[r.id].msg.Request?
    && s.requests[r.id].msg.useCandidate == r.useCandidate
  }

  ghost predicate PendingInv(s: State) {
    && IdsIncrease(s.pending)
    && (forall r :: r in s.pending ==> Recorded(s, r))
    && (forall k :: 0 <= k < |s.requests| ==> s.requests[k].msg.Request? && s.requests[k].msg.id == k)
  }

  lemma SendKeepsPendingInv(s: State, now: int, local: Candidate, remote: Candidate, useCandidate: bool)
    requires PendingInv(s)
    ensures PendingInv(SendBindingRequest(s, now, local, remote, useCandidate))
  {
    FilterByAgeKeepsExactlyFresh(s.pending, now);
    var r := SendBindingRequest(s, now, local, remote, useCandidate);
    var kept := FilterByAge(s.pending, now);
    assert forall k :: 0 <= k < |kept| ==> kept[k] in s.pending && Recorded(s, kept[k]);
    forall q | q in r.pending
      ensures Recorded(r, q)
    {
      if q in kept {
        assert Recorded(s, q);
      }
    }
  }

  predicate SentUnder(p: Packet, credential: Credential) { p.msg.Request? && p.msg.from == credential }

  /** Plain checks were sent: no pair changed its ends, its flags or whether it has succeeded. */
  ghost predicate Pinged(s: State, r: State) {
    && r == s.(checklist := r.checklist, pending := r.pending, requests := r.requests)
    && |r.checklist| == |s.checklist|
    && (forall k :: 0 <= k < |s.checklist| ==> SamePair(s.checklist[k], r.checklist[k]))
    && |s.requests| <= |r.requests|
    && r.requests[..|s.requests|] == s.requests
    && (forall k :: |s.requests| <= k < |r.requests| ==>
         SentUnder(r.requests[k], s.localCredential) && !r.requests[k].msg.useCandidate)
    && (forall q :: q in r.pending ==> q in s.pending || |s.requests| <= q.id)
    && (PendingInv(s) ==> PendingInv(r))
  }

  predicate SamePair(p: CandidatePair, q: CandidatePair) {
    && p.SameEnds(q)
    && p.nominated == q.nominated
    && p.nominateOnSuccess == q.nominateOnSuccess
    && (p.state == Succeeded <==> q.state == Succeeded)
  }

  lemma PingIsPinged(s: State, now: int, local: Candidate, remote: Candidate)
    ensures Pinged(s, Ping(s, now, local, remote))
  {
    FilterByAgeKeepsExactlyFresh(s.pending, now);
    if PendingInv(s) {
      SendKeepsPendingInv(s, now, local, remote, false);
    }
  }

  lemma PingedIsTransitive(s: State, t: State, u: State)
    requires Pinged(s, t) && Pinged(t, u)
    ensures Pinged(s, u)
  {
  }

  lemma PingOneIsPinged(s: State, now: int, i: nat)
    requires i < |s.checklist|
    ensures Pinged(s, PingOne(s, now, i))
  {
    hide PendingInv, Ping, Pinged;
    var p := s.checklist[i];
    var t := Ping(s, now, p.local, p.remote);
    PingIsPinged(s, now, p.local, p.remote);
    PingedIsReflexive(s);
    if p.state == Waiting || p.state == InProgress {
      PingedWithPair(s, s, i, p.(state := PairFailed));
      assert t.checklist == s.checklist by { PingKeepsChecklist(s, now, p.local, p.remote); }
      PingedWithPair(s, t, i, p.(state := InProgress, requestCount := Wrap16(p.requestCount + 1)));
    }
  }

  lemma PingedIsReflexive(s: State)
    ensures Pinged(s, s)
  {
  }

  lemma PingKeepsChecklist(s: State, now: int, local: Candidate, remote: Candidate)
    ensures Ping(s, now, local, remote).checklist == s.checklist
  {
  }

  lemma PingedWithPair(s: State, t: State, i: nat, p: CandidatePair)
    requires Pinged(s, t) && t.checklist == s.checklist && i < |s.checklist| && SamePair(s.checklist[i], p)
    ensures Pinged(s, t.(checklist := s.checklist[i := p]))
  {
  }

  lemma {:induction false} PingFirstIsPinged(s: State, now: int, n: nat)
    requires n <= |s.checklist|
    ensures Pinged(s, PingFirst(s, now, n))
  {
    hide Pinged, PingOne;
    if n == 0 {
      PingedIsReflexive(s);
    } else {
      PingFirstIsPinged(s, now, n - 1);
      var t := PingFirst(s, now, n - 1);
      PingOneIsPinged(t, now, n - 1);
      PingedIsTransitive(s, t, PingOne(t, now, n - 1));
    }
  }

  // ---- Connection state, selected pair and nomination ----

  /** A pair is selected exactly in the connected states, and it has succeeded and is nominated. */
  predicate ConnectionInv(s: State) {
    && s.WellFormed()
    && (s.selected.Some? <==> s.connectionState == Connected || s.connectionState == Disconnected)
    && (s.selected.Some? ==>
         s.checklist[s.selected.value].state == Succeeded && s.checklist[s.selected.value].nominated)
    && (!s.started <==> s.connectionState == New)
    && s.connectionState != Unknown
  }

  predicate UsesCandidate(p: Packet) { p.msg.Request? && p.msg.useCandidate }

  /** `p` travels between the two ends of the nominated pair. */
  predicate BetweenNominated(s: State, p: Packet) {
    s.nominated.Some? && p.src == s.nominated.value.0.Resolved() && p.dst == s.nominated.value.1.Resolved()
  }

  /** Outstanding USE-CANDIDATE requests travel between the ends of the one nominated pair. */
  ghost predicate NominationInv(s: State) {
    && (forall k :: 0 <= k < |s.requests| && UsesCandidate(s.requests[k]) ==> s.isControlling)
    && (forall q :: q in s.pending && q.useCandidate ==> q.id < |s.requests| && BetweenNominated(s, s.requests[q.id]))
    && (s.nominated.Some? ==> s.isControlling)
    && (s.isControlling && s.selected.Some? ==> s.nominated.Some?)
    && (s.isControlling && s.connectionState == Failed ==>
          s.pending == [] && forall k :: 0 <= k < |s.checklist| ==> s.checklist[k].state != Succeeded)
    && (!s.started ==> s.requests == [] && !s.isControlling)
  }

  ghost predicate CoreInv(s: State) {
    ConnectionInv(s) && PendingInv(s) && NominationInv(s)
  }

  /** The candidate sets and the ends of all pairs are as before. */
  ghost predicate SamePairs(s: State, r: State) {
    && r.localCandidates == s.localCandidates && r.remoteCandidates == s.remoteCandidates
    && |r.checklist| == |s.checklist|
    && forall k :: 0 <= k < |s.checklist| ==> s.checklist[k].SameEnds(r.checklist[k])
  }

  predicate Released(s: State) {
    s.checklist == [] && s.localCandidates == map[] && s.remoteCandidates == map[]
  }

  lemma PingedKeepsCoreInv(s: State, r: State)
    requires CoreInv(s) && Pinged(s, r) && s.started
    requires s.isControlling ==> s.connectionState != Failed
    ensures CoreInv(r) && SamePairs(s, r)
  {
  }

  lemma ValidateKeepsCoreInv(s: State, sinceReceived: nat)
    requires CoreInv(s) && s.started
    ensures var r := ValidateSelectedPair(s, sinceReceived); CoreInv(r) && (SamePairs(s, r) || Released(r))
  {
  }

  lemma KeepAliveKeepsCoreInv(s: State, clock: Clock)
    requires CoreInv(s) && s.started
    ensures var r := ValidateAndKeepAlive(s, clock); CoreInv(r) && (SamePairs(s, r) || Released(r))
  {
    ValidateKeepsCoreInv(s, clock.sinceReceived);
    var t := ValidateSelectedPair(s, clock.sinceReceived);
    if t.selected.Some? {
      var p := t.checklist[t.selected.value];
      PingIsPinged(t, clock.now, p.local, p.remote);
      hide ValidateSelectedPair, Ping;
      PingedKeepsCoreInv(t, Ping(t, clock.now, p.local, p.remote));
    }
  }

  lemma PingAllKeepsCoreInv(s: State, now: int)
    requires CoreInv(s) && s.started && s.connectionState != Failed
    ensures CoreInv(PingAllCandidates(s, now)) && SamePairs(s, PingAllCandidates(s, now))
  {
    PingFirstIsPinged(s, now, |s.checklist|);
    PingedKeepsCoreInv(s, PingFirst(s, now, |s.checklist|));
  }

  /** Sending a USE-CANDIDATE request on the nominated pair. */
  lemma NominateKeepsCoreInv(s: State, now: int)
    requires CoreInv(s) && s.started && s.isControlling && s.nominated.Some? && s.connectionState != Failed
    ensures var r := NominatePair(s, now, s.nominated.value.0, s.nominated.value.1); CoreInv(r) && SamePairs(s, r)
  {
    SendKeepsPendingInv(s, now, s.nominated.value.0, s.nominated.value.1, true);
    FilterByAgeMembers(s.pending, now);
    hide FilterByAge;
    var r := NominatePair(s, now, s.nominated.value.0, s.nominated.value.1);
    assert r.requests[..|s.requests|] == s.requests;
  }

  /** The first nomination of a generation: no earlier request of the generation used a candidate. */
  lemma FirstNominationKeepsCoreInv(s: State, now: int, i: nat, flag: bool)
    requires CoreInv(s) && s.started && s.isControlling && s.nominated.None? && s.selected.None?
    requires s.connectionState != Failed
    requires i < |s.checklist|
    ensures var p := s.checklist[i];
            var t := s.(checklist := s.checklist[i := p.(nominated := flag)], nominated := Some((p.local, p.remote)));
            var r := NominatePair(t, now, p.local, p.remote);
            CoreInv(r) && SamePairs(s, r)
  {
    var p := s.checklist[i];
    var t := s.(checklist := s.checklist[i := p.(nominated := flag)], nominated := Some((p.local, p.remote)));
    assert CoreInv(t) by {
      assert forall r :: r in t.pending ==> Recorded(s, r);
    }
    NominateKeepsCoreInv(t, now);
  }

  lemma ContactControllingKeepsCoreInv(s: State, clock: Clock)
    requires CoreInv(s) && s.started && s.isControlling && s.connectionState != Failed
    ensures var r := ContactCandidatesControlling(s, clock); CoreInv(r) && (SamePairs(s, r) || Released(r))
  {
    KeepAliveKeepsCoreInv(s, clock);
    PingAllKeepsCoreInv(s, clock.now);
    var best := BestValid(s);
    if s.nominated.Some? {
      NominateKeepsCoreInv(s, clock.now);
    } else if s.selected.None? && best.Some? {
      FirstNominationKeepsCoreInv(s, clock.now, best.value, true);
    }
    hide CoreInv, SamePairs, Released, ValidateAndKeepAlive, PingAllCandidates, NominatePair, BestValid,
         State.Nominatable;
  }

  lemma ContactControlledKeepsCoreInv(s: State, clock: Clock)
    requires CoreInv(s) && s.started && !s.isControlling && s.connectionState != Failed
    ensures var r := ContactCandidatesControlled(s, clock); CoreInv(r) && (SamePairs(s, r) || Released(r))
  {
    ValidateKeepsCoreInv(s, clock.sinceReceived);
    KeepAliveKeepsCoreInv(s, clock);
    PingAllKeepsCoreInv(s, clock.now);
    hide CoreInv, SamePairs, Released, ValidateSelectedPair, ValidateAndKeepAlive, PingAllCandidates;
  }

  /** Changes of the two contact timers do not matter to the invariants. */
  lemma TimersKeepCoreInv(s: State, since: int, last: ConnectionState)
    requires CoreInv(s)
    ensures var r := s.(checkingSince := since, lastContactState := last); CoreInv(r) && SamePairs(s, r)
  {
  }

  lemma FailKeepsCoreInv(s: State)
    requires CoreInv(s) && s.started && s.connectionState != Failed
    ensures var r := UpdateConnectionState(s, Failed); CoreInv(r) && Released(r)
  {
  }

  lemma SamePairsIsTransitive(s: State, t: State, u: State)
    ensures SamePairs(s, t) && SamePairs(t, u) ==> SamePairs(s, u)
  {
  }

  lemma ContactKeepsCoreInv(s: State, clock: Clock)
    requires CoreInv(s) && s.started
    ensures var r := Contact(s, clock); CoreInv(r) && (SamePairs(s, r) || Released(r))
  {
    assert s.WellFormed();
    hide CoreInv, SamePairs, UpdateConnectionState, ContactCandidatesControlling, ContactCandidatesControlled;
    var t := if s.connectionState == Checking && s.lastContactState != Checking then s.(checkingSince := clock.now)
      else s;
    TimersKeepCoreInv(s, t.checkingSince, t.lastContactState);
    var u := t;
    if s.connectionState != Failed {
      if s.connectionState == Checking
          && clock.now - t.checkingSince > s.config.disconnectedTimeout + s.config.failedTimeout {
        u := UpdateConnectionState(t, Failed);
        FailKeepsCoreInv(t);
      } else if s.isControlling {
        u := ContactCandidatesControlling(t, clock);
        ContactControllingKeepsCoreInv(t, clock);
      } else {
        u := ContactCandidatesControlled(t, clock);
        ContactControlledKeepsCoreInv(t, clock);
      }
      SamePairsIsTransitive(s, t, u);
    }
    assert Contact(s, clock) == u.(lastContactState := u.connectionState);
    TimersKeepCoreInv(u, u.checkingSince, u.connectionState);
    SamePairsIsTransitive(s, u, Contact(s, clock));
  }

  // ---- Inbound messages ----

  /** The pairs are as before, except that one pair may have been appended. */
  ghost predicate SamePairsPlus(s: State, r: State, local: Candidate, remote: Candidate) {
    SamePairs(s, r) || (FindPair(s.checklist, local, remote).None? && SamePairs(AddPair(s, local, remote), r))
  }

  lemma AddPairKeepsCoreInv(s: State, local: Candidate, remote: Candidate)
    requires CoreInv(s)
    ensures CoreInv(AddPair(s, local, remote))
  {
  }

  lemma RespondKeepsCoreInv(s: State, id: nat, local: Candidate, remote: Candidate)
    requires CoreInv(s)
    ensures var r := SendBindingSuccess(s, id, local, remote); CoreInv(r) && SamePairs(s, r)
  {
  }

  lemma RequestToControllingKeepsCoreInv(s: State, now: int, m: Message, local: Candidate, remote: Candidate)
    requires CoreInv(s) && s.started && s.isControlling && m.Request?
    ensures var r := RequestToControlling(s, now, m, local, remote); CoreInv(r) && SamePairsPlus(s, r, local, remote)
  {
    RespondKeepsCoreInv(s, m.id, local, remote);
    var t := SendBindingSuccess(s, m.id, local, remote);
    AddPairKeepsCoreInv(t, local, remote);
    var found := FindPair(t.checklist, local, remote);
    if found.Some? && t.checklist[found.value].state == Succeeded && t.nominated.None? && t.selected.None? {
      var p := t.checklist[found.value];
      FirstNominationKeepsCoreInv(t, now, found.value, p.nominated);
      assert t.checklist[found.value := p.(nominated := p.nominated)] == t.checklist;
    }
    hide CoreInv, NominatePair, BestAvailable, State.Nominatable;
  }

  lemma SelectKeepsCoreInv(s: State, i: nat)
    requires CoreInv(s) && s.started && i < |s.checklist| && s.checklist[i].state == Succeeded
    requires s.isControlling ==> s.nominated.Some? && s.connectionState != Failed
    ensures CoreInv(SetSelectedPair(s, i)) && SamePairs(s, SetSelectedPair(s, i))
  {
  }

  lemma SelectIfBetterKeepsCoreInv(s: State, i: nat)
    requires CoreInv(s) && s.started && !s.isControlling && i < |s.checklist| && s.checklist[i].state == Succeeded
    ensures CoreInv(SelectIfBetter(s, i)) && SamePairs(s, SelectIfBetter(s, i))
  {
    SelectKeepsCoreInv(s, i);
    hide CoreInv, SetSelectedPair, State.Priority;
  }

  lemma MarkForNominationKeepsCoreInv(s: State, i: nat)
    requires CoreInv(s) && i < |s.checklist|
    ensures var r := s.(checklist := s.checklist[i := s.checklist[i].(nominateOnSuccess := true)]);
            CoreInv(r) && SamePairs(s, r)
  {
  }

  /** A USE-CANDIDATE request on pair `i` selects it or marks it for nomination. */
  function UseCandidate(s: State, i: nat, use: bool): (r: State)
    requires s.WellFormed() && i < |s.checklist|
    ensures |r.checklist| == |s.checklist| && r.WellFormed()
  {
    if !use then s
    else if s.checklist[i].state == Succeeded then SelectIfBetter(s, i)
    else s.(checklist := s.checklist[i := s.checklist[i].(nominateOnSuccess := true)])
  }

  lemma UseCandidateKeepsCoreInv(s: State, i: nat, use: bool)
    requires CoreInv(s) && s.started && !s.isControlling && i < |s.checklist|
    ensures var r := UseCandidate(s, i, use); CoreInv(r) && SamePairs(s, r) && r.started && !r.isControlling
  {
    MarkForNominationKeepsCoreInv(s, i);
    if s.checklist[i].state == Succeeded {
      SelectIfBetterKeepsCoreInv(s, i);
    }
    hide CoreInv, State.Priority;
  }

  lemma RespondAndPingKeepsCoreInv(s: State, now: int, id: nat, local: Candidate, remote: Candidate)
    requires CoreInv(s) && s.started && !s.isControlling
    ensures var r := Ping(SendBindingSuccess(s, id, local, remote), now, local, remote); CoreInv(r) && SamePairs(s, r)
  {
    hide CoreInv, Ping, Pinged;
    RespondKeepsCoreInv(s, id, local, remote);
    var v := SendBindingSuccess(s, id, local, remote);
    PingIsPinged(v, now, local, remote);
    PingedKeepsCoreInv(v, Ping(v, now, local, remote));
    SamePairsIsTransitive(s, v, Ping(v, now, local, remote));
  }

  lemma RequestToControlledKeepsCoreInv(s: State, now: int, m: Message, local: Candidate, remote: Candidate)
    requires CoreInv(s) && s.started && !s.isControlling && m.Request?
    ensures var r := RequestToControlled(s, now, m, local, remote); CoreInv(r) && SamePairsPlus(s, r, local, remote)
  {
    assert s.WellFormed();
    hide CoreInv, SamePairs, SelectIfBetter, Ping, SendBindingSuccess, FindPair;
    var found := FindPair(s.checklist, local, remote);
    var t := if found.None? then AddPair(s, local, remote) else s;
    var i := if found.None? then |s.checklist| else found.value;
    AddPairKeepsCoreInv(s, local, remote);
    UseCandidateKeepsCoreInv(t, i, m.useCandidate);
    var u := UseCandidate(t, i, m.useCandidate);
    RespondAndPingKeepsCoreInv(u, now, m.id, local, remote);
    var r := Ping(SendBindingSuccess(u, m.id, local, remote), now, local, remote);
    assert r == RequestToControlled(s, now, m, local, remote);
    SamePairsIsTransitive(t, u, r);
  }

  /** Taking one transaction out leaves the others, and none with its ID. */
  lemma RemoveTransaction(rs: seq<BindingRequest>, k: nat)
    requires IdsIncrease(rs) && k < |rs|
    ensures var r := rs[..k] + rs[k + 1..];
            IdsIncrease(r) && forall q :: q in r <==> q in rs && q.id != rs[k].id
  {
  }

  lemma SmallerPendingKeepsCoreInv(s: State, rs: seq<BindingRequest>)
    requires CoreInv(s) && IdsIncrease(rs) && forall q :: q in rs ==> q in s.pending
    ensures CoreInv(s.(pending := rs)) && SamePairs(s, s.(pending := rs))
  {
    forall q | q in rs
      ensures Recorded(s.(pending := rs), q)
    {
      assert Recorded(s, q);
    }
    assert s.pending == [] ==> rs == [] by {
      if rs != [] {
        assert rs[0] in s.pending;
      }
    }
  }

  lemma TakePendingKeepsCoreInv(s: State, now: int, id: nat)
    requires CoreInv(s)
    ensures var (request, r) := TakePending(s, now, id);
            && r == s.(pending := r.pending)
            && CoreInv(r) && SamePairs(s, r)
            && (request.Some? ==> request.value in s.pending && Fresh(now, request.value) && request.value.id == id)
            && (forall q :: q in r.pending ==> q in s.pending && q.id != id)
  {
    FilterByAgeKeepsExactlyFresh(s.pending, now);
    var live := FilterByAge(s.pending, now);
    var found := FindRequest(live, id);
    if found.Some? {
      RemoveTransaction(live, found.value);
    }
    hide FilterByAge, FindRequest;
    SmallerPendingKeepsCoreInv(s, TakePending(s, now, id).1.pending);
  }

  lemma MarkSucceededKeepsCoreInv(s: State, i: nat)
    requires CoreInv(s) && i < |s.checklist| && (s.isControlling ==> s.connectionState != Failed)
    ensures CoreInv(MarkSucceeded(s, i)) && SamePairs(s, MarkSucceeded(s, i))
  {
  }

  lemma AcceptResponseKeepsCoreInv(s: State, i: nat, useCandidate: bool)
    requires CoreInv(s) && s.started && i < |s.checklist|
    requires s.isControlling ==> s.connectionState != Failed && (useCandidate ==> s.nominated.Some?)
    ensures CoreInv(AcceptResponse(s, i, useCandidate)) && SamePairs(s, AcceptResponse(s, i, useCandidate))
  {
    MarkSucceededKeepsCoreInv(s, i);
    var t := MarkSucceeded(s, i);
    if s.isControlling {
      if useCandidate {
        SelectKeepsCoreInv(t, i);
      }
    } else {
      SelectIfBetterKeepsCoreInv(t, i);
    }
    hide CoreInv, SetSelectedPair, SelectIfBetter;
  }

  lemma HandleSuccessKeepsCoreInv(s: State, now: int, m: Message, local: Candidate, src: Addr)
    requires CoreInv(s) && s.started && m.Success?
    ensures CoreInv(HandleSuccess(s, now, m, local, src)) && SamePairs(s, HandleSuccess(s, now, m, local, src))
  {
    TakePendingKeepsCoreInv(s, now, m.id);
    var (request, t) := TakePending(s, now, m.id);
    if request.Some? {
      assert Recorded(s, request.value);
    }
    var remote := FindRemoteCandidate(At(s.remoteCandidates, local.networkType), src);
    if remote.Some? && request.Some? {
      var found := FindPair(t.checklist, local, remote.value);
      if found.Some? {
        AcceptResponseKeepsCoreInv(t, found.value, request.value.useCandidate);
      }
    }
    hide CoreInv, AcceptResponse, TakePending;
  }

  /** The remote candidate that an inbound request is attributed to, and the state once it is known. */
  function Attribute(s: State, local: Candidate, src: Addr): (Candidate, State) {
    var known := FindRemoteCandidate(At(s.remoteCandidates, local.networkType), src);
    if known.Some? then (known.value, s)
    else (PeerReflexiveAt(src, local.component), AddRemoteCandidate(s, PeerReflexiveAt(src, local.component)))
  }

  lemma AddRemoteKeepsCoreInv(s: State, c: Candidate)
    requires CoreInv(s)
    ensures CoreInv(AddRemoteCandidate(s, c))
  {
  }

  lemma AddLocalKeepsCoreInv(s: State, c: Candidate)
    requires CoreInv(s)
    ensures CoreInv(AddLocalCandidate(s, c))
  {
  }

  lemma HandleRequestKeepsCoreInv(s: State, now: int, m: Message, local: Candidate, src: Addr)
    requires CoreInv(s) && s.started && m.Request?
    ensures var r := HandleRequest(s, now, m, local, src);
            var (remote, t) := Attribute(s, local, src);
            CoreInv(r) && (r == s || SamePairsPlus(t, r, local, remote))
  {
    var (remote, t) := Attribute(s, local, src);
    AddRemoteKeepsCoreInv(s, remote);
    if s.isControlling {
      RequestToControllingKeepsCoreInv(t, now, m, local, remote);
    } else {
      RequestToControlledKeepsCoreInv(t, now, m, local, remote);
    }
    hide CoreInv, SamePairsPlus, RequestToControlling, RequestToControlled;
  }

  lemma RestartKeepsCoreInv(s: State, now: int, credential: Credential)
    requires CoreInv(s)
    ensures CoreInv(Restart(s, now, credential)) && Released(Restart(s, now, credential))
  {
  }

  lemma StartKeepsCoreInv(s: State, now: int, controlling: bool, remote: Credential)
    requires CoreInv(s)
    ensures CoreInv(StartChecks(s, now, controlling, remote)) && SamePairs(s, StartChecks(s, now, controlling, remote))
  {
  }

  lemma StepKeepsCoreInv(s: State, e: Event)
    requires CoreInv(s) && Enabled(s, e)
    ensures CoreInv(Step(s, e))
  {
    match e {
      case StartEvent(now, controlling, remote) => StartKeepsCoreInv(s, now, controlling, remote);
      case RemoteCredentialsEvent(remote) =>
        assert forall r :: r in s.pending ==> Recorded(s, r);
      case AddLocalEvent(c) => AddLocalKeepsCoreInv(s, c);
      case AddRemoteEvent(c) => AddRemoteKeepsCoreInv(s, c);
      case ContactEvent(clock) => ContactKeepsCoreInv(s, clock);
      case InboundEvent(now, m, local, src) =>
        if m.Success? {
          HandleSuccessKeepsCoreInv(s, now, m, local, src);
        } else if m.Request? {
          HandleRequestKeepsCoreInv(s, now, m, local, src);
        }
      case RestartEvent(now, credential) => RestartKeepsCoreInv(s, now, credential);
    }
    hide StartChecks, AddLocalCandidate, AddRemoteCandidate, Contact, HandleSuccess, HandleRequest, Restart;
  }

  // ---- Candidate sets and checklist ----

  ghost predicate CandidateSetInv(m: CandidateSets) {
    forall n, i :: n in m && 0 <= i < |m[n]| ==>
      && m[n][i].networkType == n
      && forall j :: 0 <= j < i ==> !m[n][j].Equal(m[n][i])
  }

  predicate HasPair(ps: seq<CandidatePair>, local: Candidate, remote: Candidate) {
    exists k :: 0 <= k < |ps| && ps[k].local == local && ps[k].remote == remote
  }

  /** The pair joins two known candidates of one network. */
  predicate FromSets(locals: CandidateSets, remotes: CandidateSets, p: CandidatePair) {
    && p.local.networkType == p.remote.networkType
    && p.local in At(locals, p.local.networkType)
    && p.remote in At(remotes, p.remote.networkType)
  }

  ghost predicate PairsFromSets(s: State) {
    forall k :: 0 <= k < |s.checklist| ==> FromSets(s.localCandidates, s.remoteCandidates, s.checklist[k])
  }

  ghost predicate NoEqualPairs(ps: seq<CandidatePair>) {
    forall i, j :: 0 <= i < j < |ps| ==> !ps[i].Equal(ps[j])
  }

  /** Every local candidate is paired with every remote one of its network that can be paired. */
  ghost predicate AllPaired(s: State) {
    forall n, l, r ::
      l in At(s.localCandidates, n) && r in At(s.remoteCandidates, n) && r.tcpType != Passive ==>
          HasPair(s.checklist, l, r)
  }

  ghost predicate ChecklistInv(s: State) {
    && CandidateSetInv(s.localCandidates)
    && CandidateSetInv(s.remoteCandidates)
    && PairsFromSets(s)
    && NoEqualPairs(s.checklist)
    && AllPaired(s)
  }

  lemma SamePairsKeepChecklistInv(s: State, r: State)
    requires ChecklistInv(s) && SamePairs(s, r)
    ensures ChecklistInv(r)
  {
  }

  lemma ExtendedSetInv(m: CandidateSets, c: Candidate)
    requires CandidateSetInv(m) && !Contains(At(m, c.networkType), c)
    ensures CandidateSetInv(m[c.networkType := At(m, c.networkType) + [c]])
    ensures forall n, x :: x in At(m, n) ==> x in At(m[c.networkType := At(m, c.networkType) + [c]], n)
  {
  }

  /** Appending pairs that are new among themselves and differ from all the old ones. */
  lemma AppendDistinctPairs(ps: seq<CandidatePair>, qs: seq<CandidatePair>)
    requires NoEqualPairs(ps) && NoEqualPairs(qs)
    requires forall i, j :: 0 <= i < |ps| && 0 <= j < |qs| ==> !ps[i].Equal(qs[j])
    ensures NoEqualPairs(ps + qs)
  {
  }

  lemma MorePairs(ps: seq<CandidatePair>, qs: seq<CandidatePair>, l: Candidate, r: Candidate)
    requires HasPair(ps, l, r) || HasPair(qs, l, r)
    ensures HasPair(ps + qs, l, r)
  {
    if HasPair(ps, l, r) {
      var k :| 0 <= k < |ps| && ps[k].local == l && ps[k].remote == r;
      assert (ps + qs)[k] == ps[k];
    } else {
      var k :| 0 <= k < |qs| && qs[k].local == l && qs[k].remote == r;
      assert (ps + qs)[|ps| + k] == qs[k];
    }
  }

  lemma NotInOldPairs(s: State, c: Candidate, k: nat)
    requires PairsFromSets(s) && k < |s.checklist|
    ensures !Contains(At(s.localCandidates, c.networkType), c) ==> !s.checklist[k].local.Equal(c)
    ensures !Contains(At(s.remoteCandidates, c.networkType), c) ==> !s.checklist[k].remote.Equal(c)
  {
  }

  lemma AddLocalKeepsAllPaired(s: State, c: Candidate)
    requires AllPaired(s)
    ensures AllPaired(AddLocalCandidate(s, c))
  {
    if !Contains(At(s.localCandidates, c.networkType), c) {
      var r := AddLocalCandidate(s, c);
      var remotes := At(s.remoteCandidates, c.networkType);
      var added := PairsWithRemotes(s.isControlling, c, remotes);
      forall n, l, q | l in At(r.localCandidates, n) && q in At(r.remoteCandidates, n) && q.tcpType != Passive
        ensures HasPair(r.checklist, l, q)
      {
        if l !in At(s.localCandidates, n) {
          var k :| 0 <= k < |remotes| && remotes[k] == q;
          assert added[k] == NewPair(s.isControlling, c, q);
        }
        hide HasPair;
        MorePairs(s.checklist, added, l, q);
      }
    }
  }

  lemma AddRemoteKeepsAllPaired(s: State, c: Candidate)
    requires AllPaired(s)
    ensures AllPaired(AddRemoteCandidate(s, c))
  {
    if !Contains(At(s.remoteCandidates, c.networkType), c) {
      var r := AddRemoteCandidate(s, c);
      var locals := At(s.localCandidates, c.networkType);
      var added := if c.tcpType == Passive then [] else PairsWithLocals(s.isControlling, locals, c);
      forall n, l, q | l in At(r.localCandidates, n) && q in At(r.remoteCandidates, n) && q.tcpType != Passive
        ensures HasPair(r.checklist, l, q)
      {
        if q !in At(s.remoteCandidates, n) {
          var k :| 0 <= k < |locals| && locals[k] == l;
          assert added[k] == NewPair(s.isControlling, l, c);
        }
        hide HasPair;
        MorePairs(s.checklist, added, l, q);
      }
    }
  }

  lemma AddLocalKeepsChecklistInv(s: State, c: Candidate)
    requires ChecklistInv(s)
    ensures ChecklistInv(AddLocalCandidate(s, c))
  {
    if !Contains(At(s.localCandidates, c.networkType), c) {
      var r := AddLocalCandidate(s, c);
      var remotes := At(s.remoteCandidates, c.networkType);
      var added := PairsWithRemotes(s.isControlling, c, remotes);
      ExtendedSetInv(s.localCandidates, c);
      hide Candidate.Equal, Contains;
      forall i, j | 0 <= i < |s.checklist| && 0 <= j < |added|
        ensures !s.checklist[i].Equal(added[j])
      {
        NotInOldPairs(s, c, i);
      }
      assert NoEqualPairs(added) by {
        assert forall i, j :: 0 <= i < j < |added| ==> !remotes[i].Equal(remotes[j]);
      }
      AppendDistinctPairs(s.checklist, added);
      assert forall k :: 0 <= k < |added| ==> FromSets(r.localCandidates, r.remoteCandidates, added[k]);
      assert forall k :: 0 <= k < |s.checklist| ==> FromSets(s.localCandidates, s.remoteCandidates, s.checklist[k]);
      AddLocalKeepsAllPaired(s, c);
    }
  }

  lemma AddRemoteKeepsChecklistInv(s: State, c: Candidate)
    requires ChecklistInv(s)
    ensures ChecklistInv(AddRemoteCandidate(s, c))
  {
    if !Contains(At(s.remoteCandidates, c.networkType), c) {
      var r := AddRemoteCandidate(s, c);
      var locals := At(s.localCandidates, c.networkType);
      var added := if c.tcpType == Passive then [] else PairsWithLocals(s.isControlling, locals, c);
      ExtendedSetInv(s.remoteCandidates, c);
      hide Candidate.Equal, Contains;
      forall i, j | 0 <= i < |s.checklist| && 0 <= j < |added|
        ensures !s.checklist[i].Equal(added[j])
      {
        NotInOldPairs(s, c, i);
      }
      assert NoEqualPairs(added) by {
        assert forall i, j :: 0 <= i < j < |added| ==> !locals[i].Equal(locals[j]);
      }
      AppendDistinctPairs(s.checklist, added);
      assert forall k :: 0 <= k < |added| ==> FromSets(r.localCandidates, r.remoteCandidates, added[k]);
      assert forall k :: 0 <= k < |s.checklist| ==> FromSets(s.localCandidates, s.remoteCandidates, s.checklist[k]);
      AddRemoteKeepsAllPaired(s, c);
    }
  }

  lemma AddPairKeepsAllPaired(s: State, local: Candidate, remote: Candidate)
    requires AllPaired(s)
    ensures AllPaired(AddPair(s, local, remote))
  {
    forall n, l, q | l in At(s.localCandidates, n) && q in At(s.remoteCandidates, n) && q.tcpType != Passive
      ensures HasPair(AddPair(s, local, remote).checklist, l, q)
    {
      hide HasPair;
      MorePairs(s.checklist, [NewPair(s.isControlling, local, remote)], l, q);
    }
  }

  lemma SinglePairDiffers(p: CandidatePair)
    ensures NoEqualPairs([p])
  {
  }

  lemma NetworkOfRemote(s: State, local: Candidate, remote: Candidate)
    requires CandidateSetInv(s.remoteCandidates) && remote in At(s.remoteCandidates, local.networkType)
    ensures remote.networkType == local.networkType
  {
  }

  /** A pair added on an inbound request joins known candidates and is not a duplicate. */
  lemma AddPairKeepsChecklistInv(s: State, local: Candidate, remote: Candidate)
    requires ChecklistInv(s) && FindPair(s.checklist, local, remote).None?
    requires local in At(s.localCandidates, local.networkType) && remote in At(s.remoteCandidates, local.networkType)
    ensures ChecklistInv(AddPair(s, local, remote))
  {
    hide Candidate.Equal, AllPaired, NoEqualPairs, CandidateSetInv;
    AddPairKeepsAllPaired(s, local, remote);
    var pair := NewPair(s.isControlling, local, remote);
    assert forall k :: 0 <= k < |s.checklist| ==> !s.checklist[k].Equal(pair) by {
      assert forall k :: 0 <= k < |s.checklist| ==> !Matches(s.checklist[k], local, remote);
    }
    hide FindPair;
    SinglePairDiffers(pair);
    AppendDistinctPairs(s.checklist, [pair]);
    assert FromSets(s.localCandidates, s.remoteCandidates, pair) by { NetworkOfRemote(s, local, remote); }
  }

  /** An unknown source address becomes a new peer-reflexive remote candidate: nothing known is Equal to it. */
  lemma AttributedIsKnown(s: State, local: Candidate, src: Addr)
    requires ChecklistInv(s) && src.networkType == local.networkType
    ensures var (remote, t) := Attribute(s, local, src);
            && remote in At(t.remoteCandidates, local.networkType)
            && t.localCandidates == s.localCandidates
            && remote.Resolved() == src
  {
  }

  lemma InboundKeepsChecklistInv(s: State, now: int, m: Message, local: Candidate, src: Addr)
    requires ChecklistInv(s) && CoreInv(s) && Enabled(s, InboundEvent(now, m, local, src))
    ensures ChecklistInv(Inbound(s, now, m, local, src))
  {
    if m.Success? {
      HandleSuccessKeepsCoreInv(s, now, m, local, src);
      SamePairsKeepChecklistInv(s, HandleSuccess(s, now, m, local, src));
    } else if m.Request? {
      HandleRequestKeepsCoreInv(s, now, m, local, src);
      AttributedIsKnown(s, local, src);
      var r := HandleRequest(s, now, m, local, src);
      var (remote, t) := Attribute(s, local, src);
      AddRemoteKeepsChecklistInv(s, remote);
      hide HandleRequest, HandleSuccess, ChecklistInv, AddRemoteCandidate;
      if r != s {
        if SamePairs(t, r) {
          SamePairsKeepChecklistInv(t, r);
        } else {
          AddPairKeepsChecklistInv(t, local, remote);
          SamePairsKeepChecklistInv(AddPair(t, local, remote), r);
        }
      }
    }
    hide HandleRequest, HandleSuccess, ChecklistInv;
  }

  lemma CredentialsKeepPairs(s: State, remote: Credential)
    ensures SamePairs(s, SetRemoteCredentials(s, remote))
  {
  }

  lemma ReleasedKeepsChecklistInv(s: State)
    requires Released(s)
    ensures ChecklistInv(s)
  {
  }

  lemma StepKeepsChecklistInv(s: State, e: Event)
    requires ChecklistInv(s) && CoreInv(s) && Enabled(s, e)
    ensures ChecklistInv(Step(s, e))
  {
    assert s.WellFormed();
    hide Contact, Inbound, AddLocalCandidate, AddRemoteCandidate, StartChecks, SetRemoteCredentials, Restart,
         ChecklistInv, CoreInv, SamePairs, Released;
    match e {
      case AddLocalEvent(c) => AddLocalKeepsChecklistInv(s, c);
      case AddRemoteEvent(c) => AddRemoteKeepsChecklistInv(s, c);
      case ContactEvent(clock) =>
        ContactKeepsCoreInv(s, clock);
        var r := Contact(s, clock);
        if SamePairs(s, r) {
          SamePairsKeepChecklistInv(s, r);
        } else {
          ReleasedKeepsChecklistInv(r);
        }
      case InboundEvent(now, m, local, src) => InboundKeepsChecklistInv(s, now, m, local, src);
      case RestartEvent(now, credential) =>
        RestartKeepsCoreInv(s, now, credential);
        ReleasedKeepsChecklistInv(Step(s, e));
      case StartEvent(now, controlling, remote) =>
        StartKeepsCoreInv(s, now, controlling, remote);
        SamePairsKeepChecklistInv(s, Step(s, e));
      case RemoteCredentialsEvent(remote) =>
        CredentialsKeepPairs(s, remote);
        SamePairsKeepChecklistInv(s, Step(s, e));
    }
  }

  /** On a pairable remote candidate, the lookup of an inbound message never misses. */
  lemma FindPairNeverMisses(s: State, local: Candidate, remote: Candidate)
    requires ChecklistInv(s) && remote.tcpType != Passive
    requires local in At(s.localCandidates, local.networkType) && remote in At(s.remoteCandidates, local.networkType)
    ensures FindPair(s.checklist, local, remote).Some?
  {
    assert HasPair(s.checklist, local, remote);
    var k :| 0 <= k < |s.checklist| && s.checklist[k].local == local && s.checklist[k].remote == remote;
    assert Matches(s.checklist[k], local, remote);
  }
}
