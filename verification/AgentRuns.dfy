/** Whole-run theorems about one ICE agent: the reachable-state invariants, the life of a
    transaction, and the monotonicity of nomination and selection within a generation. */
module AgentRuns {
  import opened Wrappers
  import opened Candidates
  import opened AgentSpec
  import opened AgentInvariants

  // ---- Reachable states ----

  /** A run of a new agent. */
  ghost predicate AgentRun(run: seq<State>, events: seq<Event>, config: Config, credential: Credential) {
    && IsRun(run, events)
    && run[0] == NewAgent(config, credential)
  }

  lemma NewAgentInvariants(config: Config, credential: Credential)
    ensures CoreInv(NewAgent(config, credential)) && ChecklistInv(NewAgent(config, credential))
  {
  }

  lemma {:induction false} RunKeepsInvariants(
    run: seq<State>, events: seq<Event>, config: Config, credential: Credential, n: nat)
    requires AgentRun(run, events, config, credential) && n < |run|
    ensures CoreInv(run[n]) && ChecklistInv(run[n])
  {
    hide Step, CoreInv, ChecklistInv, NewAgent;
    if n == 0 {
      NewAgentInvariants(config, credential);
    } else {
      RunKeepsInvariants(run, events, config, credential, n - 1);
      var s, e := run[n - 1], events[n - 1];
      assert run[n - 1 + 1] == Step(s, e);
      StepKeepsCoreInv(s, e);
      StepKeepsChecklistInv(s, e);
    }
  }

  /** In every reachable state a pair is selected exactly when the agent is connected or disconnected,
      and that pair is in the checklist, has succeeded and is nominated. */
  lemma SelectedExactlyWhenConnected(
    run: seq<State>, events: seq<Event>, config: Config, credential: Credential, n: nat)
    requires AgentRun(run, events, config, credential) && n < |run|
    ensures run[n].selected.Some? <==> run[n].connectionState in {Connected, Disconnected}
    ensures run[n].selected.Some? ==>
              && run[n].selected.value < |run[n].checklist|
              && run[n].checklist[run[n].selected.value].state == Succeeded
              && run[n].checklist[run[n].selected.value].nominated
  {
    RunKeepsInvariants(run, events, config, credential, n);
  }

  /** In every reachable state the checklist has no two Equal pairs and pairs up every local candidate
      with every pairable remote candidate of its network. */
  lemma ChecklistIsTheCrossProduct(run: seq<State>, events: seq<Event>, config: Config, credential: Credential, n: nat)
    requires AgentRun(run, events, config, credential) && n < |run|
    ensures var ps := run[n].checklist; forall i, j :: 0 <= i < j < |ps| ==> !ps[i].Equal(ps[j])
    ensures forall t, l, r ::
              l in At(run[n].localCandidates, t) && r in At(run[n].remoteCandidates, t) && r.tcpType != Passive ==>
              HasPair(run[n].checklist, l, r)
    ensures forall k :: 0 <= k < |run[n].checklist| ==>
              FromSets(run[n].localCandidates, run[n].remoteCandidates, run[n].checklist[k])
  {
    RunKeepsInvariants(run, events, config, credential, n);
    hide CoreInv;
  }

  // ---- How one step may change the agent ----

  /** The request log only grows, new USE-CANDIDATE requests are for the nominated pair, and every new
      pending entry is for a request sent in this step. */
  ghost predicate LogGrows(s: State, r: State) {
    && |s.requests| <= |r.requests|
    && r.requests[..|s.requests|] == s.requests
    && (forall k :: |s.requests| <= k < |r.requests| ==>
          && SentUnder(r.requests[k], s.localCredential)
          && (UsesCandidate(r.requests[k]) ==> BetweenNominated(r, r.requests[k])))
    && (forall q :: q in r.pending ==> q in s.pending || |s.requests| <= q.id)
  }

  /** Pairs keep their ends and their role, none becomes valid, and new ones have the agent's role; or
      everything was released by a failure. */
  ghost predicate NoNewSuccess(s: State, r: State) {
    || (Released(r) && r.selected.None? && r.connectionState == Failed)
    || (|s.checklist| <= |r.checklist|
        && (forall k :: 0 <= k < |s.checklist| ==>
             && s.checklist[k].SameEnds(r.checklist[k])
             && (r.checklist[k].state == Succeeded ==> s.checklist[k].state == Succeeded))
        && (forall k :: |s.checklist| <= k < |r.checklist| ==>
             r.checklist[k].state != Succeeded && r.checklist[k].controlling == s.isControlling))
  }

  /** A selected pair stays selected or is dropped; only the controlled agent may move on, and never down. */
  predicate SelectionMoves(s: State, r: State) {
    && (s.selected.Some? && r.selected.None? ==> r.connectionState == Failed)
    && (s.WellFormed() && r.WellFormed() && s.selected.Some? && r.selected.Some? && r.selected != s.selected ==>
          !s.isControlling && s.Priority(s.checklist[s.selected.value]) <= s.Priority(r.checklist[r.selected.value]))
  }

  ghost predicate Evolves(s: State, r: State) {
    && r.config == s.config && r.isControlling == s.isControlling && r.started == s.started
    && r.localCredential == s.localCredential
    && LogGrows(s, r)
    && NoNewSuccess(s, r)
    && (s.nominated.Some? ==> r.nominated == s.nominated)
    && SelectionMoves(s, r)
  }

  /** What a timer contact leaves alone. */
  predicate Untouched(s: State, r: State) {
    && r.responses == s.responses
    && r.remoteCredential == s.remoteCredential
    && (s.selected.None? ==> r.selected.None?)
  }

  lemma SendEvolves(s: State, now: int, local: Candidate, remote: Candidate, useCandidate: bool)
    requires useCandidate ==> s.nominated == Some((local, remote))
    ensures Evolves(s, SendBindingRequest(s, now, local, remote, useCandidate))
    ensures Untouched(s, SendBindingRequest(s, now, local, remote, useCandidate))
    ensures SendBindingRequest(s, now, local, remote, useCandidate).checklist == s.checklist
    ensures SendBindingRequest(s, now, local, remote, useCandidate).selected == s.selected
  {
    FilterByAgeKeepsExactlyFresh(s.pending, now);
    hide FilterByAge, State.Priority;
  }

  lemma PingedEvolves(s: State, r: State)
    requires Pinged(s, r)
    ensures Evolves(s, r) && Untouched(s, r)
  {
  }

  lemma ValidateEvolves(s: State, sinceReceived: nat)
    requires s.WellFormed()
    ensures Evolves(s, ValidateSelectedPair(s, sinceReceived)) && Untouched(s, ValidateSelectedPair(s, sinceReceived))
  {
    hide State.Priority;
  }

  lemma ValidateAndKeepAliveEvolves(s: State, clock: Clock)
    requires s.WellFormed()
    ensures Evolves(s, ValidateSelectedPair(s, clock.sinceReceived))
    ensures Untouched(s, ValidateSelectedPair(s, clock.sinceReceived))
    ensures Evolves(s, ValidateAndKeepAlive(s, clock)) && Untouched(s, ValidateAndKeepAlive(s, clock))
  {
    ValidateEvolves(s, clock.sinceReceived);
    var t := ValidateSelectedPair(s, clock.sinceReceived);
    if t.selected.Some? {
      var p := t.checklist[t.selected.value];
      SendEvolves(t, clock.now, p.local, p.remote, false);
      SameSelectionThen(s, t, Ping(t, clock.now, p.local, p.remote));
    }
    hide SendBindingRequest, ValidateSelectedPair, Evolves;
  }

  lemma NominateEvolves(s: State, now: int, i: nat, p: CandidatePair)
    requires s.nominated.None? && i < |s.checklist| && s.selected.None?
    requires p.SameEnds(s.checklist[i]) && p.state == s.checklist[i].state
    ensures var t := s.(checklist := s.checklist[i := p], nominated := Some((p.local, p.remote)));
            Evolves(s, NominatePair(t, now, p.local, p.remote)) && Untouched(s, NominatePair(t, now, p.local, p.remote))
  {
    var t := s.(checklist := s.checklist[i := p], nominated := Some((p.local, p.remote)));
    SendEvolves(t, now, p.local, p.remote, true);
    hide FilterByAge, State.Priority;
  }

  lemma TimersEvolve(s: State, r: State, since: int, last: ConnectionState)
    requires Evolves(s, r)
    ensures Evolves(s, r.(checkingSince := since, lastContactState := last))
    ensures Evolves(s.(checkingSince := since, lastContactState := last), r)
  {
  }

  lemma FailEvolves(s: State)
    ensures s.connectionState != Failed ==> Evolves(s, UpdateConnectionState(s, Failed))
    ensures Untouched(s, UpdateConnectionState(s, Failed))
    ensures Evolves(s, s)
  {
  }

  lemma ContactEvolves(s: State, clock: Clock)
    requires s.WellFormed()
    ensures Evolves(s, Contact(s, clock)) && Untouched(s, Contact(s, clock))
  {
    var t := if s.connectionState == Checking && s.lastContactState != Checking then s.(checkingSince := clock.now)
      else s;
    FailEvolves(t);
    ContactCandidatesEvolves(t, clock);
    hide ContactCandidates, UpdateConnectionState, Evolves;
    var u :=
      if s.connectionState == Failed then s
      else if s.connectionState == Checking
          && clock.now - t.checkingSince > s.config.disconnectedTimeout + s.config.failedTimeout
      then UpdateConnectionState(t, Failed)
      else ContactCandidates(t, clock);
    TimersEvolve(t, u, s.checkingSince, s.lastContactState);
    assert s == t.(checkingSince := s.checkingSince, lastContactState := s.lastContactState);
    TimersEvolve(s, u, u.checkingSince, u.connectionState);
  }

  lemma ContactCandidatesEvolves(s: State, clock: Clock)
    requires s.WellFormed()
    ensures Evolves(s, ContactCandidates(s, clock)) && Untouched(s, ContactCandidates(s, clock))
  {
    ValidateAndKeepAliveEvolves(s, clock);
    PingFirstIsPinged(s, clock.now, |s.checklist|);
    PingedEvolves(s, PingFirst(s, clock.now, |s.checklist|));
    var best := BestValid(s);
    if s.nominated.Some? {
      SendEvolves(s, clock.now, s.nominated.value.0, s.nominated.value.1, true);
    } else if best.Some? && s.selected.None? {
      NominateEvolves(s, clock.now, best.value, s.checklist[best.value].(nominated := true));
    }
    hide Evolves, ValidateAndKeepAlive, ValidateSelectedPair, SendBindingRequest, BestValid, State.Nominatable;
  }

  lemma AddPairEvolves(s: State, local: Candidate, remote: Candidate)
    ensures Evolves(s, AddPair(s, local, remote)) && Evolves(s, s)
  {
  }

  lemma RespondEvolves(s: State, r: State, id: nat, local: Candidate, remote: Candidate)
    requires Evolves(SendBindingSuccess(s, id, local, remote), r)
    ensures Evolves(s, r)
  {
  }

  lemma RequestToControllingEvolves(s: State, now: int, m: Message, local: Candidate, remote: Candidate)
    requires s.WellFormed() && m.Request?
    ensures Evolves(s, RequestToControlling(s, now, m, local, remote))
  {
    var t := SendBindingSuccess(s, m.id, local, remote);
    var found := FindPair(t.checklist, local, remote);
    AddPairEvolves(t, local, remote);
    if found.Some? && t.nominated.None? && t.selected.None? {
      var p := t.checklist[found.value];
      NominateEvolves(t, now, found.value, p);
      assert t.checklist[found.value := p] == t.checklist;
    }
    hide Evolves, AddPair, NominatePair, FindPair, BestAvailable, State.Nominatable;
    RespondEvolves(s, RequestToControlling(s, now, m, local, remote), m.id, local, remote);
  }

  lemma SelectIfBetterEvolves(s: State, i: nat)
    requires s.WellFormed() && i < |s.checklist| && !s.isControlling
    ensures Evolves(s, SelectIfBetter(s, i)) && SelectIfBetter(s, i).WellFormed()
    ensures SelectIfBetter(s, i).pending == s.pending && SelectIfBetter(s, i).requests == s.requests
    ensures |SelectIfBetter(s, i).checklist| == |s.checklist|
  {
    hide PairPriority, Candidate.Priority;
  }

  lemma UseCandidateEvolves(s: State, i: nat, use: bool)
    requires s.WellFormed() && i < |s.checklist| && !s.isControlling
    ensures Evolves(s, UseCandidate(s, i, use))
  {
    SelectIfBetterEvolves(s, i);
    hide SelectIfBetter, PairPriority, Candidate.Priority;
  }

  lemma RespondAndPingEvolves(s: State, now: int, id: nat, local: Candidate, remote: Candidate)
    ensures var r := Ping(SendBindingSuccess(s, id, local, remote), now, local, remote);
            && Evolves(s, r) && r.checklist == s.checklist && r.selected == s.selected
            && r.connectionState == s.connectionState && r.localCandidates == s.localCandidates
            && r.remoteCandidates == s.remoteCandidates
  {
    SendEvolves(SendBindingSuccess(s, id, local, remote), now, local, remote, false);
    hide FilterByAge, State.Priority;
  }

  lemma RequestToControlledEvolves(s: State, now: int, m: Message, local: Candidate, remote: Candidate)
    requires s.WellFormed() && m.Request? && !s.isControlling
    ensures Evolves(s, RequestToControlled(s, now, m, local, remote))
  {
    var found := FindPair(s.checklist, local, remote);
    var t := if found.None? then AddPair(s, local, remote) else s;
    var i := if found.None? then |s.checklist| else found.value;
    assert Evolves(s, t) by { hide State.Priority, FindPair; }
    UseCandidateEvolves(t, i, m.useCandidate);
    var u := UseCandidate(t, i, m.useCandidate);
    EvolvesThen(s, t, u);
    RespondAndPingEvolves(u, now, m.id, local, remote);
    var r := Ping(SendBindingSuccess(u, m.id, local, remote), now, local, remote);
    assert r == RequestToControlled(s, now, m, local, remote)
        by { hide SelectIfBetter, Ping, SendBindingSuccess, Evolves, FindPair; }
    hide RequestToControlled, UseCandidate, Ping, SendBindingSuccess, FindPair, Evolves;
    SameSelectionThen(s, u, r);
  }

  lemma SameSelectionThen(s: State, t: State, u: State)
    requires Evolves(s, t) && Evolves(t, u) && u.selected == t.selected && u.checklist == t.checklist
    requires u.connectionState == t.connectionState && u.localCandidates == t.localCandidates
    requires u.remoteCandidates == t.remoteCandidates
    ensures Evolves(s, u)
  {
  }

  lemma AddRemoteEvolves(s: State, c: Candidate)
    requires s.WellFormed()
    ensures Evolves(s, AddRemoteCandidate(s, c)) && AddRemoteCandidate(s, c).WellFormed()
    ensures AddRemoteCandidate(s, c).selected == s.selected && s.checklist <= AddRemoteCandidate(s, c).checklist
  {
    hide State.Priority, Contains;
  }

  lemma AddLocalEvolves(s: State, c: Candidate)
    requires s.WellFormed()
    ensures Evolves(s, AddLocalCandidate(s, c))
  {
    hide State.Priority, Contains;
  }

  /** Evolving twice is evolving, when the first part neither fails nor selects. */
  lemma EvolvesThen(s: State, t: State, u: State)
    requires s.WellFormed() && Evolves(s, t) && Evolves(t, u)
    requires t.selected == s.selected && s.checklist <= t.checklist
    ensures Evolves(s, u)
  {
  }

  lemma HandleRequestEvolves(s: State, now: int, m: Message, local: Candidate, src: Addr)
    requires s.WellFormed() && m.Request?
    ensures Evolves(s, HandleRequest(s, now, m, local, src))
  {
    assert Evolves(s, s) by { hide State.Priority; }
    var (remote, t) := Attribute(s, local, src);
    AddRemoteEvolves(s, remote);
    if s.isControlling {
      RequestToControllingEvolves(t, now, m, local, remote);
      EvolvesThen(s, t, RequestToControlling(t, now, m, local, remote));
    } else {
      RequestToControlledEvolves(t, now, m, local, remote);
      EvolvesThen(s, t, RequestToControlled(t, now, m, local, remote));
    }
    hide Evolves, RequestToControlling, RequestToControlled;
  }

  // ---- The life of a transaction ----

  /** The transaction that a step takes out of the pending list because its response arrived. */
  function AcceptedTransaction(s: State, e: Event): Option<BindingRequest>
    requires s.WellFormed()
  {
    if e.InboundEvent? && e.m.Success? && e.m.signer == s.remoteCredential
       && FindRemoteCandidate(At(s.remoteCandidates, e.local.networkType), e.src).Some?
    then TakePending(s, e.now, e.m.id).0
    else None
  }

  /** The steps that leave the generation alone and accept no response. */
  predicate Ordinary(s: State, e: Event)
    requires s.WellFormed()
  {
    !e.StartEvent? && !e.RestartEvent? && AcceptedTransaction(s, e).None?
  }

  lemma CredentialsEvolve(s: State, remote: Credential)
    ensures Evolves(s, SetRemoteCredentials(s, remote)) && Evolves(s, s)
  {
  }

  lemma OrdinaryStepEvolves(s: State, e: Event)
    requires s.WellFormed() && Ordinary(s, e)
    ensures Evolves(s, Step(s, e))
  {
    hide Evolves, AddLocalCandidate, AddRemoteCandidate, Contact, HandleRequest, HandleSuccess, SetRemoteCredentials;
    CredentialsEvolve(s, if e.RemoteCredentialsEvent? then e.remote else 0);
    match e {
      case AddLocalEvent(c) => AddLocalEvolves(s, c);
      case AddRemoteEvent(c) => AddRemoteEvolves(s, c);
      case ContactEvent(clock) => ContactEvolves(s, clock);
      case InboundEvent(now, m, local, src) =>
        if m.Request? {
          HandleRequestEvolves(s, now, m, local, src);
        } else if m.Success? {
          RejectedResponseEvolves(s, now, m, local, src);
        }
      case RemoteCredentialsEvent(_) =>
    }
  }

  lemma RejectedResponseEvolves(s: State, now: int, m: Message, local: Candidate, src: Addr)
    requires s.WellFormed() && m.Success? && AcceptedTransaction(s, InboundEvent(now, m, local, src)).None?
    ensures Evolves(s, HandleSuccess(s, now, m, local, src))
  {
    FilterByAgeKeepsExactlyFresh(s.pending, now);
    hide FilterByAge, FindRequest, State.Priority;
  }

  /** The pair joins this local candidate with this remote address. */
  predicate Between(p: CandidatePair, local: Candidate, src: Addr) {
    p.local.Equal(local) && p.remote.Resolved() == src
  }

  /** What accepting the response to transaction `q` does to the pairs and the selection: at most one
      pair becomes valid, and it joins the receiving candidate with the address `q` was sent to. */
  ghost predicate ResponseEffect(s: State, r: State, q: BindingRequest, local: Candidate, src: Addr) {
    && r == s.(checklist := r.checklist, pending := r.pending, selected := r.selected,
         connectionState := r.connectionState)
    && SamePairs(s, r)
    && SelectionMoves(s, r)
    && (s.selected.Some? ==> r.selected.Some?)
    && (r.selected != s.selected ==> NewlySelected(s, r, q, local, src))
    && (forall k :: 0 <= k < |s.checklist| ==> ValidBy(s.checklist[k], r.checklist[k], q, local, src))
  }

  predicate NewlySelected(s: State, r: State, q: BindingRequest, local: Candidate, src: Addr) {
    && r.selected.Some? && r.selected.value < |r.checklist| == |s.checklist| && r.connectionState == Connected
    && Between(r.checklist[r.selected.value], local, src)
    && q.destination == src
    && if s.isControlling then s.selected.None? && q.useCandidate else s.checklist[r.selected.value].nominateOnSuccess
  }

  predicate ValidBy(before: CandidatePair, after: CandidatePair, q: BindingRequest, local: Candidate, src: Addr) {
    && after.nominateOnSuccess == before.nominateOnSuccess
    && (after.state != before.state ==> after.state == Succeeded && q.destination == src && Between(before, local, src))
  }

  lemma AcceptResponseEffect(s: State, i: nat, q: BindingRequest, local: Candidate, src: Addr)
    requires ConnectionInv(s) && i < |s.checklist|
    requires Between(s.checklist[i], local, src) && q.destination == src
    ensures ResponseEffect(s, AcceptResponse(s, i, q.useCandidate), q, local, src)
  {
    hide PairPriority, Candidate.Priority, Candidate.Equal;
  }

  lemma AcceptedResponse(s: State, now: int, m: Message, local: Candidate, src: Addr)
    requires CoreInv(s) && ChecklistInv(s) && s.started && m.Success?
    requires AcceptedTransaction(s, InboundEvent(now, m, local, src)).Some? && src.networkType == local.networkType
    ensures var q := TakePending(s, now, m.id).0.value; q in s.pending && q.id == m.id && Fresh(now, q)
    ensures forall p :: p in HandleSuccess(s, now, m, local, src).pending ==> p in s.pending && p.id != m.id
    ensures ResponseEffect(s, HandleSuccess(s, now, m, local, src), TakePending(s, now, m.id).0.value, local, src)
  {
    hide TakePending, FindPair, FindRemoteCandidate, AcceptResponse, PendingInv, NominationInv, ResponseEffect;
    TakePendingKeepsCoreInv(s, now, m.id);
    var (request, t) := TakePending(s, now, m.id);
    var q := request.value;
    var known := At(s.remoteCandidates, local.networkType);
    var remote := FindRemoteCandidate(known, src);
    assert remote.value.Resolved() == src by {
      var k :| 0 <= k < |known| && known[k] == remote.value;
    }
    hide ChecklistInv;
    var found := FindPair(t.checklist, local, remote.value);
    NoResponseEffect(t, q, local, src);
    if found.Some? && q.destination == src {
      assert Matches(t.checklist[found.value], local, remote.value);
      AcceptResponseEffect(t, found.value, q, local, src);
      AcceptedPending(t, found.value, q.useCandidate);
    }
    PendingDoesNotMatter(s, t, HandleSuccess(s, now, m, local, src), q, local, src);
  }

  lemma NoResponseEffect(s: State, q: BindingRequest, local: Candidate, src: Addr)
    ensures ResponseEffect(s, s, q, local, src)
  {
  }

  lemma PendingDoesNotMatter(s: State, t: State, r: State, q: BindingRequest, local: Candidate, src: Addr)
    requires t == s.(pending := t.pending) && ResponseEffect(t, r, q, local, src)
    ensures ResponseEffect(s, r, q, local, src)
  {
  }

  lemma AcceptedPending(s: State, i: nat, useCandidate: bool)
    requires s.WellFormed() && i < |s.checklist|
    ensures var r := AcceptResponse(s, i, useCandidate);
            && r.pending == s.pending && r.requests == s.requests && r.responses == s.responses
            && r.remoteCredential == s.remoteCredential
  {
  }

  /** A pair becomes valid only on a response that comes from the address its transaction was sent to,
      less than four seconds after it was sent, on that pair's own local candidate. */
  lemma ValidOnlyByTimelyResponse(s: State, e: Event, k: nat)
    requires CoreInv(s) && ChecklistInv(s) && Enabled(s, e)
    requires k < |s.checklist| && k < |Step(s, e).checklist|
    requires s.checklist[k].state != Succeeded && Step(s, e).checklist[k].state == Succeeded
    ensures e.InboundEvent? && e.m.Success?
    ensures exists q :: q in s.pending && q.id == e.m.id && q.destination == e.src && e.now - q.timestamp < 4000
                        && s.requests[q.id].dst == e.src
    ensures s.checklist[k].remote.Resolved() == e.src && s.checklist[k].local.Equal(e.local)
  {
    if Ordinary(s, e) {
      OrdinaryStepEvolves(s, e);
      hide Step, CoreInv, ChecklistInv;
      assert false;
    } else if e.InboundEvent? {
      AcceptedResponse(s, e.now, e.m, e.local, e.src);
      var q := AcceptedTransaction(s, e).value;
      assert Recorded(s, q);
      hide HandleSuccess, ChecklistInv, TakePending;
    }
    hide CoreInv, ChecklistInv;
  }

  /** The transaction has been sent and is no longer pending. */
  ghost predicate Spent(s: State, id: nat) {
    id < |s.requests| && forall q :: q in s.pending ==> q.id != id
  }

  lemma StepKeepsSpent(s: State, e: Event, id: nat)
    requires CoreInv(s) && ChecklistInv(s) && Enabled(s, e) && Spent(s, id)
    ensures Spent(Step(s, e), id)
    ensures AcceptedTransaction(s, e).Some? ==> AcceptedTransaction(s, e).value.id != id
  {
    if Ordinary(s, e) {
      OrdinaryStepEvolves(s, e);
      hide Step, CoreInv, ChecklistInv;
    } else if e.InboundEvent? {
      AcceptedResponse(s, e.now, e.m, e.local, e.src);
      hide HandleSuccess, TakePending;
    }
    hide CoreInv, ChecklistInv;
  }

  lemma {:induction false} SpentForever(
    run: seq<State>, events: seq<Event>, config: Config, credential: Credential, i: nat, j: nat, id: nat)
    requires AgentRun(run, events, config, credential) && i <= j < |run| && Spent(run[i], id)
    ensures Spent(run[j], id)
    decreases j - i
  {
    if i < j {
      RunKeepsInvariants(run, events, config, credential, i);
      StepKeepsSpent(run[i], events[i], id);
      assert run[i + 1] == Step(run[i], events[i]);
      hide Step, CoreInv, ChecklistInv;
      SpentForever(run, events, config, credential, i + 1, j, id);
    }
  }

  /** No transaction is accepted twice in a run, even across restarts and duplicated responses. */
  lemma NoTransactionAcceptedTwice(
    run: seq<State>, events: seq<Event>, config: Config, credential: Credential, i: nat, j: nat)
    requires AgentRun(run, events, config, credential) && i < j < |events|
    requires AcceptedTransaction(run[i], events[i]).Some? && AcceptedTransaction(run[j], events[j]).Some?
    ensures AcceptedTransaction(run[i], events[i]).value.id != AcceptedTransaction(run[j], events[j]).value.id
  {
    var q := AcceptedTransaction(run[i], events[i]).value;
    RunKeepsInvariants(run, events, config, credential, i);
    RunKeepsInvariants(run, events, config, credential, j);
    var e := events[i];
    AcceptedResponse(run[i], e.now, e.m, e.local, e.src);
    assert Recorded(run[i], q);
    assert run[i + 1] == Step(run[i], e);
    assert Step(run[i], e) == HandleSuccess(run[i], e.now, e.m, e.local, e.src)
        by { hide HandleSuccess, CoreInv, ChecklistInv; }
    hide Step, HandleSuccess, CoreInv, ChecklistInv, TakePending;
    SpentForever(run, events, config, credential, i + 1, j, q.id);
    StepKeepsSpent(run[j], events[j], q.id);
  }

  // ---- Nomination and selection within a generation ----

  /** No restart happens in the steps from `i` to `j`. */
  ghost predicate SameGeneration(events: seq<Event>, i: nat, j: nat)
    requires i <= j <= |events|
  {
    forall k :: i <= k < j ==> !events[k].RestartEvent?
  }

  /** A step within a generation: what happens to the nominated and the selected pair. */
  lemma StepWithinGeneration(s: State, e: Event)
    requires CoreInv(s) && ChecklistInv(s) && Enabled(s, e) && !e.RestartEvent?
    ensures var r := Step(s, e);
            && (s.nominated.Some? ==> r.nominated == s.nominated)
            && (s.started ==>
                 r.isControlling == s.isControlling && r.started && SelectionMoves(s, r) && r.config == s.config)
            && (s.selected.Some? && r.selected.Some? ==>
                 && |s.checklist| <= |r.checklist|
                 && s.checklist[s.selected.value].SameEnds(r.checklist[s.selected.value]))
  {
    if Ordinary(s, e) {
      OrdinaryStepEvolves(s, e);
      hide Step, PendingInv, ChecklistInv, State.Priority;
    } else if e.InboundEvent? {
      AcceptedResponse(s, e.now, e.m, e.local, e.src);
      hide HandleSuccess, TakePending, PendingInv, ChecklistInv, State.Priority;
    } else {
      hide PendingInv, ChecklistInv, State.Priority;
    }
  }

  /** The controlling agent nominates at most one pair in a generation. */
  lemma {:induction false} NominationIsFinal(
    run: seq<State>, events: seq<Event>, config: Config, credential: Credential, i: nat, j: nat)
    requires AgentRun(run, events, config, credential) && i <= j < |run| && SameGeneration(events, i, j)
    requires run[i].nominated.Some?
    ensures run[j].nominated == run[i].nominated
    decreases j - i
  {
    if i < j {
      RunKeepsInvariants(run, events, config, credential, i);
      StepWithinGeneration(run[i], events[i]);
      assert run[i + 1] == Step(run[i], events[i]);
      hide Step, CoreInv, ChecklistInv;
      NominationIsFinal(run, events, config, credential, i + 1, j);
    }
  }

  lemma StepSendsForNominated(s: State, e: Event)
    requires CoreInv(s) && ChecklistInv(s) && Enabled(s, e)
    ensures s.requests <= Step(s, e).requests
    ensures forall k :: |s.requests| <= k < |Step(s, e).requests| && UsesCandidate(Step(s, e).requests[k]) ==>
              BetweenNominated(Step(s, e), Step(s, e).requests[k])
  {
    if Ordinary(s, e) {
      OrdinaryStepEvolves(s, e);
      var r := Step(s, e);
      hide Step, CoreInv, ChecklistInv, State.Priority;
      assert r.requests[..|s.requests|] == s.requests;
    } else if e.InboundEvent? {
      AcceptedResponse(s, e.now, e.m, e.local, e.src);
      hide HandleSuccess, CoreInv, ChecklistInv, State.Priority;
    }
    hide CoreInv, ChecklistInv;
  }

  /** Every outstanding USE-CANDIDATE request goes to the remote end of the nominated pair. */
  lemma UseCandidateGoesToNominated(run: seq<State>, events: seq<Event>, config: Config, credential: Credential, n: nat)
    requires AgentRun(run, events, config, credential) && n < |run|
    ensures forall q :: q in run[n].pending && q.useCandidate ==>
              && run[n].nominated.Some? && q.destination == run[n].nominated.value.1.Resolved()
              && q.id < |run[n].requests| && BetweenNominated(run[n], run[n].requests[q.id])
  {
    RunKeepsInvariants(run, events, config, credential, n);
    hide ChecklistInv, ConnectionInv;
    assert forall q :: q in run[n].pending ==> Recorded(run[n], q);
  }

  /** Every USE-CANDIDATE request sent since the last restart travelled between the ends of the pair
      that is nominated now. */
  lemma {:induction false} GenerationUsesOneCandidate(
    run: seq<State>, events: seq<Event>, config: Config, credential: Credential, i: nat, n: nat)
    requires AgentRun(run, events, config, credential) && i <= n < |run| && SameGeneration(events, i, n)
    ensures run[i].requests <= run[n].requests
    ensures forall k :: |run[i].requests| <= k < |run[n].requests| && UsesCandidate(run[n].requests[k]) ==>
              BetweenNominated(run[n], run[n].requests[k])
    decreases n
  {
    hide Step, CoreInv, ChecklistInv, Enabled;
    if i < n {
      GenerationUsesOneCandidate(run, events, config, credential, i, n - 1);
      RunKeepsInvariants(run, events, config, credential, n - 1);
      assert run[n - 1 + 1] == Step(run[n - 1], events[n - 1]);
      StepSendsForNominated(run[n - 1], events[n - 1]);
      StepWithinGeneration(run[n - 1], events[n - 1]);
    }
  }

  /** A failed controlling agent stays failed until it is restarted, so it never selects again. */
  lemma ControllingFailureIsFinal(s: State, e: Event)
    requires CoreInv(s) && Enabled(s, e) && !e.RestartEvent?
    requires s.isControlling && s.connectionState == Failed
    ensures Step(s, e).connectionState == Failed && Step(s, e).selected.None? && Step(s, e).isControlling
  {
    assert s.pending == [];
    match e {
      case InboundEvent(now, m, local, src) =>
        if m.Request? {
          RequestKeepsConnectionState(Attribute(s, local, src).1, now, m, local, Attribute(s, local, src).0);
          hide RequestToControlling, RequestToControlled, FindRemoteCandidate, PendingInv;
        } else if m.Success? {
          hide AcceptResponse, FindRemoteCandidate, FindPair, PendingInv;
        }
      case _ =>
        hide PendingInv;
    }
  }

  lemma RequestKeepsConnectionState(s: State, now: int, m: Message, local: Candidate, remote: Candidate)
    requires m.Request?
    ensures var r := RequestToControlling(s, now, m, local, remote);
            r.connectionState == s.connectionState && r.selected == s.selected && r.isControlling == s.isControlling
  {
  }

  /** Later states of a controlling agent still select the pair that `s` selected, or have failed. */
  predicate HeldOrFailed(s: State, r: State)
    requires s.selected.Some? && s.selected.value < |s.checklist|
  {
    && r.isControlling
    && if r.connectionState == Failed then r.selected.None?
       else r.selected == s.selected && r.selected.value < |r.checklist|
            && s.checklist[s.selected.value].SameEnds(r.checklist[r.selected.value])
  }

  lemma StepKeepsHeldOrFailed(origin: State, s: State, e: Event)
    requires CoreInv(s) && ChecklistInv(s) && Enabled(s, e) && !e.RestartEvent?
    requires origin.selected.Some? && origin.selected.value < |origin.checklist| && HeldOrFailed(origin, s)
    ensures HeldOrFailed(origin, Step(s, e))
  {
    if s.connectionState == Failed {
      ControllingFailureIsFinal(s, e);
    } else {
      StepWithinGeneration(s, e);
      StepKeepsSelectionInv(s, e);
    }
    hide Step, PendingInv, ChecklistInv, State.Priority;
  }

  lemma StepKeepsSelectionInv(s: State, e: Event)
    requires CoreInv(s) && Enabled(s, e) && !e.RestartEvent?
    ensures ConnectionInv(Step(s, e))
  {
    StepKeepsCoreInv(s, e);
    hide Step, PendingInv, NominationInv;
  }

  /** The controlling agent's selected pair is never replaced within a generation. */
  lemma {:induction false} SelectedPairIsNeverReplaced(
    run: seq<State>, events: seq<Event>, config: Config, credential: Credential, i: nat, j: nat)
    requires AgentRun(run, events, config, credential) && i <= j < |run| && SameGeneration(events, i, j)
    requires run[i].isControlling && run[i].connectionState != Failed
    requires run[i].selected.Some? && run[i].selected.value < |run[i].checklist|
    ensures HeldOrFailed(run[i], run[j])
    decreases j
  {
    hide Step, CoreInv, ChecklistInv, Enabled;
    if i < j {
      SelectedPairIsNeverReplaced(run, events, config, credential, i, j - 1);
      RunKeepsInvariants(run, events, config, credential, j - 1);
      StepKeepsHeldOrFailed(run[i], run[j - 1], events[j - 1]);
      assert run[j - 1 + 1] == Step(run[j - 1], events[j - 1]);
    }
  }

  /** The priority of the pair that the agent has selected. */
  function SelectedPriority(s: State): int
    requires s.selected.Some? && s.selected.value < |s.checklist|
  {
    s.Priority(s.checklist[s.selected.value])
  }

  lemma StepKeepsSelectedPriority(s: State, e: Event)
    requires CoreInv(s) && ChecklistInv(s) && Enabled(s, e) && !e.RestartEvent? && !s.isControlling
    requires s.selected.Some? && Step(s, e).selected.Some?
    ensures Step(s, e).WellFormed() && !Step(s, e).isControlling
    ensures SelectedPriority(s) <= SelectedPriority(Step(s, e))
  {
    StepWithinGeneration(s, e);
    StepKeepsSelectionInv(s, e);
    hide Step, PendingInv, NominationInv, ChecklistInv, PairPriority, Candidate.Priority;
  }

  /** While a controlled agent stays connected, the priority of its selected pair never decreases. */
  lemma {:induction false} SelectedPriorityNeverDecreases(
    run: seq<State>, events: seq<Event>, config: Config, credential: Credential, i: nat, j: nat)
    requires AgentRun(run, events, config, credential) && i <= j < |run| && SameGeneration(events, i, j)
    requires !run[i].isControlling
    requires forall k :: i <= k <= j ==> run[k].selected.Some? && run[k].selected.value < |run[k].checklist|
    ensures SelectedPriority(run[i]) <= SelectedPriority(run[j]) && !run[j].isControlling
    decreases j
  {
    hide Step, CoreInv, ChecklistInv, SelectedPriority, Enabled;
    if i < j {
      SelectedPriorityNeverDecreases(run, events, config, credential, i, j - 1);
      RunKeepsInvariants(run, events, config, credential, j - 1);
      assert run[j - 1 + 1] == Step(run[j - 1], events[j - 1]);
      StepKeepsSelectedPriority(run[j - 1], events[j - 1]);
    }
  }
}
