/** When the transactions of an ICE agent were sent: every pending transaction goes back to the step
    that sent its request, and a pair only becomes valid within four seconds of that step. */
module AgentTimeliness {
  import opened Wrappers
  import opened Candidates
  import opened AgentSpec
  import opened AgentInvariants
  import opened AgentRuns

  /** The pending transactions of `r` are those of `s`, or were added at time `now` for new requests. */
  ghost predicate SentAt(s: State, r: State, now: int) {
    && |s.requests| <= |r.requests|
    && forall q :: q in r.pending ==> q in s.pending || (q.timestamp == now && |s.requests| <= q.id)
  }

  lemma SendIsTimed(s: State, now: int, local: Candidate, remote: Candidate, useCandidate: bool)
    ensures SentAt(s, SendBindingRequest(s, now, local, remote, useCandidate), now)
  {
    FilterByAgeMembers(s.pending, now);
    hide FilterByAge;
  }

  lemma SentAtIsTransitive(s: State, t: State, u: State, now: int)
    requires SentAt(s, t, now) && SentAt(t, u, now)
    ensures SentAt(s, u, now)
  {
  }

  lemma PingOneIsTimed(s: State, now: int, i: nat)
    requires i < |s.checklist|
    ensures SentAt(s, PingOne(s, now, i), now)
  {
    hide SendBindingRequest;
    SendIsTimed(s, now, s.checklist[i].local, s.checklist[i].remote, false);
  }

  lemma {:induction false} PingFirstIsTimed(s: State, now: int, n: nat)
    requires n <= |s.checklist|
    ensures SentAt(s, PingFirst(s, now, n), now)
  {
    if n > 0 {
      hide PingOne;
      PingFirstIsTimed(s, now, n - 1);
      PingOneIsTimed(PingFirst(s, now, n - 1), now, n - 1);
      SentAtIsTransitive(s, PingFirst(s, now, n - 1), PingFirst(s, now, n), now);
    }
  }

  lemma ValidateIsTimed(s: State, clock: Clock)
    requires s.WellFormed()
    ensures SentAt(s, ValidateSelectedPair(s, clock.sinceReceived), clock.now)
    ensures SentAt(s, ValidateAndKeepAlive(s, clock), clock.now)
  {
    hide SendBindingRequest;
    var t := ValidateSelectedPair(s, clock.sinceReceived);
    if t.selected.Some? {
      var p := t.checklist[t.selected.value];
      SendIsTimed(t, clock.now, p.local, p.remote, false);
    }
  }

  lemma ContactCandidatesIsTimed(s: State, clock: Clock)
    requires s.WellFormed()
    ensures SentAt(s, ContactCandidates(s, clock), clock.now)
  {
    hide SendBindingRequest, PingFirst, ValidateSelectedPair, ValidateAndKeepAlive, BestValid, State.Nominatable;
    ValidateIsTimed(s, clock);
    PingFirstIsTimed(s, clock.now, |s.checklist|);
    if s.nominated.Some? {
      SendIsTimed(s, clock.now, s.nominated.value.0, s.nominated.value.1, true);
    }
    if BestValid(s).Some? {
      var i := BestValid(s).value;
      var p := s.checklist[i];
      var t := s.(checklist := s.checklist[i := p.(nominated := true)], nominated := Some((p.local, p.remote)));
      SendIsTimed(t, clock.now, p.local, p.remote, true);
    }
  }

  lemma ContactIsTimed(s: State, clock: Clock)
    requires s.WellFormed()
    ensures SentAt(s, Contact(s, clock), clock.now)
  {
    hide ContactCandidates;
    var t := if s.connectionState == Checking && s.lastContactState != Checking then s.(checkingSince := clock.now)
      else s;
    ContactCandidatesIsTimed(t, clock);
  }

  lemma RequestToControllingIsTimed(s: State, now: int, m: Message, local: Candidate, remote: Candidate)
    requires m.Request?
    ensures SentAt(s, RequestToControlling(s, now, m, local, remote), now)
  {
    hide SendBindingRequest, BestAvailable, State.Nominatable, FindPair, Candidate.Equal;
    var t := SendBindingSuccess(s, m.id, local, remote);
    if FindPair(t.checklist, local, remote).Some? {
      var p := t.checklist[FindPair(t.checklist, local, remote).value];
      SendIsTimed(t.(nominated := Some((p.local, p.remote))), now, p.local, p.remote, true);
    }
  }

  lemma RequestToControlledIsTimed(s: State, now: int, m: Message, local: Candidate, remote: Candidate)
    requires s.WellFormed() && m.Request?
    ensures SentAt(s, RequestToControlled(s, now, m, local, remote), now)
  {
    hide SendBindingRequest, State.Priority, FindPair, Candidate.Equal;
    var found := FindPair(s.checklist, local, remote);
    var t := if found.None? then AddPair(s, local, remote) else s;
    var i := if found.None? then |s.checklist| else found.value;
    var u :=
      if !m.useCandidate then t
      else if t.checklist[i].state == Succeeded then SelectIfBetter(t, i)
      else t.(checklist := t.checklist[i := t.checklist[i].(nominateOnSuccess := true)]);
    SendIsTimed(SendBindingSuccess(u, m.id, local, remote), now, local, remote, false);
  }

  lemma HandleRequestIsTimed(s: State, now: int, m: Message, local: Candidate, src: Addr)
    requires s.WellFormed() && m.Request?
    ensures SentAt(s, HandleRequest(s, now, m, local, src), now)
  {
    hide RequestToControlling, RequestToControlled, FindRemoteCandidate, Contains;
    var known := FindRemoteCandidate(At(s.remoteCandidates, local.networkType), src);
    var remote := if known.Some? then known.value else PeerReflexiveAt(src, local.component);
    var t := if known.Some? then s else AddRemoteCandidate(s, remote);
    RequestToControllingIsTimed(t, now, m, local, remote);
    RequestToControlledIsTimed(t, now, m, local, remote);
  }

  lemma TakePendingIsTimed(s: State, now: int, id: nat)
    ensures var t := TakePending(s, now, id).1;
            t == s.(pending := t.pending) && forall q :: q in t.pending ==> q in s.pending
  {
    hide FilterByAge, FindRequest;
    FilterByAgeMembers(s.pending, now);
  }

  lemma HandleSuccessIsTimed(s: State, now: int, m: Message, local: Candidate, src: Addr)
    requires s.WellFormed() && m.Success?
    ensures SentAt(s, HandleSuccess(s, now, m, local, src), now)
  {
    hide FindPair, FindRemoteCandidate, TakePending, AcceptResponse;
    TakePendingIsTimed(s, now, m.id);
    var (request, t) := TakePending(s, now, m.id);
    var remote := FindRemoteCandidate(At(s.remoteCandidates, local.networkType), src);
    if remote.Some? && request.Some? && FindPair(t.checklist, local, remote.value).Some? {
      AcceptedPending(t, FindPair(t.checklist, local, remote.value).value, request.value.useCandidate);
    }
  }

  /** The time of an event that can send requests. */
  function TimeOf(e: Event): Option<int> {
    match e
    case ContactEvent(clock) => Some(clock.now)
    case InboundEvent(now, _, _, _) => Some(now)
    case _ => None
  }

  lemma StepIsTimed(s: State, e: Event)
    requires s.WellFormed()
    ensures TimeOf(e).Some? ==> SentAt(s, Step(s, e), TimeOf(e).value)
    ensures TimeOf(e).None? ==>
              |s.requests| <= |Step(s, e).requests| && forall q :: q in Step(s, e).pending ==> q in s.pending
  {
    hide Contact, HandleRequest, HandleSuccess, Contains;
    match e
    case ContactEvent(clock) => ContactIsTimed(s, clock);
    case InboundEvent(now, m, local, src) =>
      if m.Request? {
        HandleRequestIsTimed(s, now, m, local, src);
      } else if m.Success? {
        HandleSuccessIsTimed(s, now, m, local, src);
      }
    case _ =>
  }

  /** Step `j` of the run sent the request of transaction `q`, at the time that `q` records. */
  predicate SentInStep(run: seq<State>, events: seq<Event>, j: nat, q: BindingRequest)
    requires |run| == |events| + 1 && j < |events|
  {
    && |run[j].requests| <= q.id < |run[j + 1].requests|
    && run[j + 1].requests[q.id].dst == q.destination
    && TimeOf(events[j]) == Some(q.timestamp)
  }

  /** Every pending transaction goes back to an earlier step of the run. */
  lemma {:induction false} PendingWasSent(
    run: seq<State>, events: seq<Event>, config: Config, credential: Credential, n: nat, q: BindingRequest)
    requires AgentRun(run, events, config, credential) && n < |run| && q in run[n].pending
    ensures exists j :: 0 <= j < n && SentInStep(run, events, j, q)
  {
    hide Step, CoreInv, ChecklistInv;
    if n > 0 {
      var s, e := run[n - 1], events[n - 1];
      assert s.WellFormed() && run[n - 1 + 1] == Step(s, e);
      StepIsTimed(s, e);
      if q in s.pending {
        PendingWasSent(run, events, config, credential, n - 1, q);
      } else {
        RunKeepsInvariants(run, events, config, credential, n);
        RecordedWhenPending(run[n], q);
        assert SentInStep(run, events, n - 1, q);
      }
    }
  }

  lemma RecordedWhenPending(s: State, q: BindingRequest)
    requires CoreInv(s) && q in s.pending
    ensures Recorded(s, q)
  {
  }

  /** Over any run: a pair becomes valid only on a response to a request that an earlier step sent, to
      the very address that answers and less than four seconds ago, and the pair joins the two ends. */
  lemma PairsBecomeValidInTime(
    run: seq<State>, events: seq<Event>, config: Config, credential: Credential, n: nat, k: nat)
    requires AgentRun(run, events, config, credential) && n < |events|
    requires k < |run[n].checklist| && k < |run[n + 1].checklist|
    requires run[n].checklist[k].state != Succeeded && run[n + 1].checklist[k].state == Succeeded
    ensures events[n].InboundEvent? && events[n].m.Success?
    ensures run[n].checklist[k].remote.Resolved() == events[n].src && run[n].checklist[k].local.Equal(events[n].local)
    ensures exists j, q ::
              && 0 <= j < n && SentInStep(run, events, j, q)
              && q.id == events[n].m.id && q.destination == events[n].src
              && events[n].now - q.timestamp < 4000
  {
    hide Step, CoreInv, ChecklistInv;
    RunKeepsInvariants(run, events, config, credential, n);
    var s, e := run[n], events[n];
    assert run[n + 1] == Step(s, e);
    ValidOnlyByTimelyResponse(s, e, k);
    var q :| q in s.pending && q.id == e.m.id && q.destination == e.src && e.now - q.timestamp < 4000;
    PendingWasSent(run, events, config, credential, n, q);
  }

  /** A failed controlling agent stays failed, with nothing selected, until it is restarted. */
  lemma {:induction false} FailedStaysFailed(
    run: seq<State>, events: seq<Event>, config: Config, credential: Credential, i: nat, j: nat)
    requires AgentRun(run, events, config, credential) && i <= j < |run| && SameGeneration(events, i, j)
    requires run[i].isControlling && run[i].connectionState == Failed
    ensures run[j].isControlling && run[j].connectionState == Failed && run[j].selected.None?
    decreases j - i
  {
    hide Step, CoreInv, ChecklistInv;
    RunKeepsInvariants(run, events, config, credential, i);
    if i < j {
      ControllingFailureIsFinal(run[i], events[i]);
      assert run[i + 1] == Step(run[i], events[i]);
      FailedStaysFailed(run, events, config, credential, i + 1, j);
    } else {
      SelectedExactlyWhenConnected(run, events, config, credential, i);
    }
  }
}
