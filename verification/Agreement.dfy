/** Two ICE agents, one controlling and one controlled, over a network that may lose, reorder and
    duplicate packets and that anybody may write to, but that does not rewrite addresses: whenever
    both have selected a pair in one credential generation, the two pairs are mirror images. Either
    agent may fail and restart at any time, under any credential. */
module Agreement {
  import opened Wrappers
  import opened Candidates
  import opened AgentSpec
  import opened AgentInvariants
  import opened AgentRuns

  /** `a` is the controlling agent and `b` the controlled one. The network holds every packet either
      side has ever sent: delivering one does not remove it, and nothing forces a delivery. */
  datatype System = System(a: State, b: State)

  datatype Side = Controlling | Controlled

  predicate InNetwork(sender: State, m: Message, src: Addr, dst: Addr) {
    || (exists k :: 0 <= k < |sender.requests| && sender.requests[k] == Packet(src, dst, m))
    || (exists k :: 0 <= k < |sender.responses| && sender.responses[k] == Packet(src, dst, m))
  }

  /** The message names the credentials that the agent expects and does not claim its role. */
  predicate PassesChecks(me: State, m: Message) {
    && !RoleConflict(me, m)
    && match m
       case Request(_, to, from, _, _) => to == me.localCredential && from == me.remoteCredential
       case Success(_, signer) => signer == me.remoteCredential
       case Indication => false
  }

  /** What one side may do next: roles are fixed, and messages that pass the checks come from the peer,
      with the addresses it used. */
  ghost predicate Legal(me: State, peer: State, controlling: bool, e: Event) {
    && Enabled(me, e)
    && (e.StartEvent? ==> e.controlling == controlling)
    && (e.InboundEvent? && PassesChecks(me, e.m) ==> InNetwork(peer, e.m, e.src, e.local.Resolved()))
  }

  lemma FailedChecksChangeNothing(s: State, now: int, m: Message, local: Candidate, src: Addr)
    requires s.WellFormed() && !PassesChecks(s, m)
    ensures Inbound(s, now, m, local, src) == s
  {
    hide FindRemoteCandidate;
  }

  ghost predicate Next(s: System, side: Side, e: Event, r: System) {
    && s.a.WellFormed() && s.b.WellFormed()
    && match side
       case Controlling => Legal(s.a, s.b, true, e) && r == System(Step(s.a, e), s.b)
       case Controlled => Legal(s.b, s.a, false, e) && r == System(s.a, Step(s.b, e))
  }

  ghost predicate SystemRun(run: seq<System>, sides: seq<Side>, events: seq<Event>) {
    && |run| == |events| + 1 == |sides| + 1
    && (exists ca, cb, la, lb :: la != 0 && lb != 0 && run[0] == System(NewAgent(ca, la), NewAgent(cb, lb)))
    && forall k :: 0 <= k < |events| ==> Next(run[k], sides[k], events[k], run[k + 1])
  }

  // ---- Invariant ----

  /** The response goes back along the path of the request it answers. */
  predicate Answers(a: State, p: Packet) {
    && p.msg.Success? && p.msg.id < |a.requests|
    && p.src == a.requests[p.msg.id].dst && p.dst == a.requests[p.msg.id].src
  }

  /** Pair `k` of the controlled agent has been nominated, or will be when its check succeeds. */
  predicate Marked(s: State, k: nat)
    requires k < |s.checklist|
  {
    s.checklist[k].nominateOnSuccess || s.selected == Some(k)
  }

  /** The controlling agent asked for this pair in the generation known as `credential`. */
  ghost predicate AskedFor(a: State, credential: Credential, p: CandidatePair) {
    exists n :: 0 <= n < |a.requests| && Asks(a.requests[n], credential, p)
  }

  predicate Asks(q: Packet, credential: Credential, p: CandidatePair) {
    UsesCandidate(q) && q.msg.from == credential && q.src == p.remote.Resolved() && q.dst == p.local.Resolved()
  }

  predicate SelectedIsNominated(a: State) {
    a.selected.Some? ==>
      && a.selected.value < |a.checklist| && a.nominated.Some?
      && a.checklist[a.selected.value].local.Resolved() == a.nominated.value.0.Resolved()
      && a.checklist[a.selected.value].remote.Resolved() == a.nominated.value.1.Resolved()
  }

  ghost predicate AgentsInv(s: System) {
    && CoreInv(s.a) && ChecklistInv(s.a) && (s.a.started ==> s.a.isControlling)
    && CoreInv(s.b) && ChecklistInv(s.b) && !s.b.isControlling
  }

  ghost predicate AnswersInv(s: System) {
    forall k :: 0 <= k < |s.b.responses| ==> Answers(s.a, s.b.responses[k])
  }

  /** Nothing is ever sent under the empty credential, and responses are the only other traffic. */
  ghost predicate TrafficInv(a: State) {
    && a.localCredential != 0
    && (forall k :: 0 <= k < |a.requests| ==> !SentUnder(a.requests[k], 0))
    && (forall k :: 0 <= k < |a.responses| ==> a.responses[k].msg.Success?)
  }

  ghost predicate SystemInv(s: System) {
    AgentsInv(s) && TrafficInv(s.a) && AnswersInv(s) && SelectedIsNominated(s.a)
  }

  // ---- Steps of either agent ----

  lemma RequestLogGrows(s: State, e: Event)
    requires CoreInv(s) && ChecklistInv(s) && Enabled(s, e)
    ensures s.requests <= Step(s, e).requests
    ensures forall k :: |s.requests| <= k < |Step(s, e).requests| ==>
              SentUnder(Step(s, e).requests[k], s.localCredential)
    ensures !e.RestartEvent? ==> Step(s, e).localCredential == s.localCredential
  {
    if Ordinary(s, e) {
      OrdinaryStepEvolves(s, e);
      var r := Step(s, e);
      hide Step, CoreInv, ChecklistInv, State.Priority;
      assert r.requests[..|s.requests|] == s.requests;
    } else if e.InboundEvent? {
      AcceptedResponse(s, e.now, e.m, e.local, e.src);
      hide HandleSuccess, CoreInv, ChecklistInv, State.Priority;
    }
    hide CoreInv, ChecklistInv;
  }

  /** A step sends at most one response: to the request that it handles, back along its path. */
  predicate RespondsTo(s: State, r: State, e: Event) {
    || r.responses == s.responses
    || (e.InboundEvent? && e.m.Request?
         && r.responses == s.responses + [Packet(e.local.Resolved(), e.src, Success(e.m.id, s.localCredential))])
  }

  lemma RequestResponds(s: State, now: int, m: Message, local: Candidate, remote: Candidate)
    requires s.WellFormed() && m.Request?
    ensures RequestToControlling(s, now, m, local, remote).responses ==
              s.responses + [Packet(local.Resolved(), remote.Resolved(), Success(m.id, s.localCredential))]
    ensures RequestToControlled(s, now, m, local, remote).responses ==
              s.responses + [Packet(local.Resolved(), remote.Resolved(), Success(m.id, s.localCredential))]
  {
    hide FindPair, BestAvailable, FilterByAge, State.Nominatable, State.Priority;
  }

  lemma HandleRequestResponds(s: State, now: int, m: Message, local: Candidate, src: Addr)
    requires s.WellFormed() && ChecklistInv(s) && m.Request? && src.networkType == local.networkType
    ensures RespondsTo(s, HandleRequest(s, now, m, local, src), InboundEvent(now, m, local, src))
  {
    AttributedIsKnown(s, local, src);
    var (remote, t) := Attribute(s, local, src);
    assert t.WellFormed() && t.responses == s.responses && t.localCredential == s.localCredential by {
      hide ChecklistInv, FindRemoteCandidate, Contains;
    }
    RequestResponds(t, now, m, local, remote);
    hide ChecklistInv, RequestToControlling, RequestToControlled, FindRemoteCandidate;
  }

  lemma StepResponds(s: State, e: Event)
    requires CoreInv(s) && ChecklistInv(s) && Enabled(s, e)
    ensures RespondsTo(s, Step(s, e), e)
  {
    match e {
      case ContactEvent(clock) => ContactEvolves(s, clock);
      case InboundEvent(now, m, local, src) =>
        if m.Request? {
          HandleRequestResponds(s, now, m, local, src);
        } else if m.Success? {
          SuccessKeepsRest(s, now, m, local, src);
        }
      case _ =>
    }
    hide CoreInv, ChecklistInv, Contact, HandleRequest, HandleSuccess, Contains, Evolves;
  }

  lemma SuccessKeepsRest(s: State, now: int, m: Message, local: Candidate, src: Addr)
    requires s.WellFormed() && m.Success?
    ensures var r := HandleSuccess(s, now, m, local, src);
            r.responses == s.responses && r.remoteCredential == s.remoteCredential
  {
    var (request, t) := TakePending(s, now, m.id);
    assert t == s.(pending := t.pending) by { hide FilterByAge, FindRequest; }
    var remote := FindRemoteCandidate(At(s.remoteCandidates, local.networkType), src);
    if remote.Some? && request.Some? {
      var found := FindPair(t.checklist, local, remote.value);
      if found.Some? {
        AcceptedPending(t, found.value, request.value.useCandidate);
      }
    }
    hide TakePending, FindPair, FindRemoteCandidate, AcceptResponse;
  }

  // ---- How the controlled agent's marks arise ----

  /** The marked pairs of `r` are marked pairs of `s`, or join the two ends of the given path. */
  ghost predicate MarksFrom(s: State, r: State, asked: bool, local: Candidate, src: Addr) {
    forall k :: 0 <= k < |r.checklist| && Marked(r, k) ==>
      || (k < |s.checklist| && Marked(s, k) && s.checklist[k].SameEnds(r.checklist[k]))
      || (asked && Between(r.checklist[k], local, src))
  }

  lemma PingedMarks(s: State, r: State, local: Candidate, src: Addr)
    requires Pinged(s, r)
    ensures MarksFrom(s, r, false, local, src)
  {
  }

  lemma ValidateMarks(s: State, clock: Clock, local: Candidate, src: Addr)
    requires s.WellFormed()
    ensures MarksFrom(s, ValidateSelectedPair(s, clock.sinceReceived), false, local, src)
    ensures MarksFrom(s, ValidateAndKeepAlive(s, clock), false, local, src)
  {
  }

  lemma ContactMarks(s: State, clock: Clock, local: Candidate, src: Addr)
    requires s.WellFormed() && !s.isControlling
    ensures MarksFrom(s, Contact(s, clock), false, local, src)
  {
    hide PingFirst, ValidateSelectedPair, ValidateAndKeepAlive, Pinged;
    var t := if s.connectionState == Checking && s.lastContactState != Checking then s.(checkingSince := clock.now)
      else s;
    ValidateMarks(t, clock, local, src);
    PingFirstIsPinged(t, clock.now, |t.checklist|);
    PingedMarks(t, PingFirst(t, clock.now, |t.checklist|), local, src);
  }

  lemma SelectIfBetterMarks(s: State, i: nat, local: Candidate, src: Addr)
    requires s.WellFormed() && i < |s.checklist| && Between(s.checklist[i], local, src)
    ensures MarksFrom(s, SelectIfBetter(s, i), true, local, src)
  {
    hide State.Priority, Candidate.Equal;
  }

  lemma RequestMarks(s: State, now: int, m: Message, local: Candidate, remote: Candidate)
    requires s.WellFormed() && m.Request?
    ensures MarksFrom(s, RequestToControlled(s, now, m, local, remote), m.useCandidate, local, remote.Resolved())
  {
    hide FindPair, SelectIfBetter, FilterByAge;
    var found := FindPair(s.checklist, local, remote);
    var t := if found.None? then AddPair(s, local, remote) else s;
    var i := if found.None? then |s.checklist| else found.value;
    assert Matches(t.checklist[i], local, remote);
    assert Between(t.checklist[i], local, remote.Resolved());
    hide Candidate.Equal;
    SelectIfBetterMarks(t, i, local, remote.Resolved());
  }

  lemma HandleRequestMarks(s: State, now: int, m: Message, local: Candidate, src: Addr)
    requires s.WellFormed() && ChecklistInv(s) && m.Request? && src.networkType == local.networkType && !s.isControlling
    ensures var asked := m.useCandidate && m.from == s.remoteCredential;
            MarksFrom(s, HandleRequest(s, now, m, local, src), asked, local, src)
  {
    hide RequestToControlled, FindRemoteCandidate, Candidate.Equal;
    AttributedIsKnown(s, local, src);
    var (remote, t) := Attribute(s, local, src);
    AddRemoteEvolves(s, remote);
    assert forall k :: 0 <= k < |s.checklist| ==> t.checklist[k] == s.checklist[k];
    assert forall k :: |s.checklist| <= k < |t.checklist| ==> !Marked(t, k) by {
      hide ChecklistInv, FindRemoteCandidate, Contains, Evolves;
    }
    RequestMarks(t, now, m, local, remote);
  }

  lemma SuccessMarks(s: State, now: int, m: Message, local: Candidate, src: Addr)
    requires CoreInv(s) && ChecklistInv(s) && s.started && m.Success? && src.networkType == local.networkType
    requires !s.isControlling
    ensures MarksFrom(s, HandleSuccess(s, now, m, local, src), false, local, src)
  {
    if AcceptedTransaction(s, InboundEvent(now, m, local, src)).Some? {
      AcceptedResponse(s, now, m, local, src);
      hide HandleSuccess, CoreInv, ChecklistInv, State.Priority, Candidate.Equal, TakePending;
    } else {
      hide CoreInv, ChecklistInv, FilterByAge, FindRequest, FindRemoteCandidate;
    }
  }

  /** The USE-CANDIDATE requests that a controlled agent acts on. */
  predicate IsAsked(s: State, e: Event) {
    e.InboundEvent? && e.m.Request? && e.m.useCandidate && e.m.from == s.remoteCredential
  }

  lemma OtherStepMarks(s: State, e: Event, local: Candidate, src: Addr)
    requires s.WellFormed() && !e.ContactEvent? && !e.InboundEvent?
    ensures MarksFrom(s, Step(s, e), false, local, src)
  {
    hide Contact, Inbound, Contains;
  }

  lemma StepMarks(s: State, e: Event, local: Candidate, src: Addr)
    requires CoreInv(s) && ChecklistInv(s) && Enabled(s, e) && !s.isControlling
    requires e.InboundEvent? ==> e.local == local && e.src == src
    ensures MarksFrom(s, Step(s, e), IsAsked(s, e), local, src)
  {
    match e {
      case ContactEvent(clock) => ContactMarks(s, clock, local, src);
      case InboundEvent(now, m, _, _) =>
        InboundMarks(s, now, m, local, src);
      case _ => OtherStepMarks(s, e, local, src);
    }
    hide CoreInv, ChecklistInv, Contact, Inbound, MarksFrom, AddLocalCandidate, AddRemoteCandidate, StartChecks,
         Restart;
  }

  lemma InboundMarks(s: State, now: int, m: Message, local: Candidate, src: Addr)
    requires CoreInv(s) && ChecklistInv(s) && Enabled(s, InboundEvent(now, m, local, src)) && !s.isControlling
    ensures MarksFrom(s, Inbound(s, now, m, local, src), IsAsked(s, InboundEvent(now, m, local, src)), local, src)
  {
    if m.Request? {
      HandleRequestMarks(s, now, m, local, src);
    } else if m.Success? {
      SuccessMarks(s, now, m, local, src);
    }
    hide CoreInv, ChecklistInv, HandleRequest, HandleSuccess;
  }

  // ---- The two kinds of system step ----

  /** A response that the controlling agent accepts came back along the path of the nomination. */
  lemma AcceptedSelectionIsNominated(s: System, e: Event)
    requires SystemInv(s) && Legal(s.a, s.b, true, e) && s.a.isControlling && e.InboundEvent?
    requires AcceptedTransaction(s.a, e).Some?
    ensures SelectedIsNominated(HandleSuccess(s.a, e.now, e.m, e.local, e.src))
  {
    var q := AcceptedTransaction(s.a, e).value;
    AcceptedResponse(s.a, e.now, e.m, e.local, e.src);
    assert Recorded(s.a, q);
    var sent := s.a.requests[q.id];
    var r := HandleSuccess(s.a, e.now, e.m, e.local, e.src);
    hide HandleSuccess, TakePending, ChecklistInv, State.Priority, FindRemoteCandidate;
    assert sent.src == e.local.Resolved() && sent.dst == e.src by {
      assert forall k :: 0 <= k < |s.b.requests| ==> s.b.requests[k].msg.Request?;
      var k :| 0 <= k < |s.b.responses| && s.b.responses[k] == Packet(e.src, e.local.Resolved(), e.m);
      assert Answers(s.a, s.b.responses[k]);
    }
    if q.useCandidate {
      assert BetweenNominated(s.a, sent);
    }
  }

  lemma ControllingStepKeepsSelection(s: System, e: Event)
    requires SystemInv(s) && Legal(s.a, s.b, true, e)
    ensures SelectedIsNominated(Step(s.a, e))
  {
    if e.InboundEvent? && AcceptedTransaction(s.a, e).Some? {
      AcceptedSelectionIsNominated(s, e);
      hide HandleSuccess, CoreInv, ChecklistInv, TakePending, FindRemoteCandidate;
    } else if e.RestartEvent? {
      hide CoreInv, ChecklistInv;
    } else {
      StepWithinGeneration(s.a, e);
      StepKeepsSelectionInv(s.a, e);
      if Ordinary(s.a, e) {
        OrdinaryStepEvolves(s.a, e);
      }
      if s.a.selected.None? {
        SelectionAppearsOnlyByResponse(s.a, e);
      }
      hide Step, PendingInv, ChecklistInv, State.Priority, Evolves;
    }
  }

  /** Without an accepted response, a controlling agent selects nothing new. */
  lemma SelectionAppearsOnlyByResponse(s: State, e: Event)
    requires CoreInv(s) && Enabled(s, e) && (s.started ==> s.isControlling) && !e.RestartEvent?
    requires e.InboundEvent? ==> AcceptedTransaction(s, e).None?
    requires s.selected.None?
    ensures Step(s, e).selected.None?
  {
    match e {
      case ContactEvent(clock) => ContactEvolves(s, clock);
      case InboundEvent(now, m, local, src) =>
        if m.Request? {
          RequestKeepsConnectionState(Attribute(s, local, src).1, now, m, local, Attribute(s, local, src).0);
          hide RequestToControlling, RequestToControlled, FindRemoteCandidate, CoreInv, Contains;
        } else if m.Success? {
          hide AcceptResponse, FindRemoteCandidate, FindPair, FilterByAge, CoreInv;
        }
      case _ =>
        hide CoreInv, Contains;
    }
    hide CoreInv, Contact, Evolves;
  }

  lemma MoreRequestsKeepFacts(s: System, a: State)
    requires s.a.requests <= a.requests
    ensures AnswersInv(s) ==> AnswersInv(System(a, s.b))
    ensures forall c, p :: AskedFor(s.a, c, p) ==> AskedFor(a, c, p)
  {
  }

  lemma RoleIsKept(s: State, e: Event, controlling: bool)
    requires CoreInv(s) && ChecklistInv(s) && Enabled(s, e) && (e.StartEvent? ==> e.controlling == controlling)
    requires s.started ==> s.isControlling == controlling
    ensures Step(s, e).started ==> Step(s, e).isControlling == controlling
  {
    if Ordinary(s, e) {
      OrdinaryStepEvolves(s, e);
      hide Step, CoreInv, ChecklistInv, State.Priority;
    } else if e.InboundEvent? {
      AcceptedResponse(s, e.now, e.m, e.local, e.src);
      hide HandleSuccess, CoreInv, ChecklistInv, State.Priority;
    }
    hide CoreInv, ChecklistInv;
  }

  lemma RestartTakesCredential(s: State, e: Event)
    requires CoreInv(s) && Enabled(s, e) && e.RestartEvent?
    ensures Step(s, e).localCredential == e.credential != 0
  {
    hide CoreInv;
  }

  lemma StepKeepsTrafficInv(s: State, e: Event)
    requires CoreInv(s) && ChecklistInv(s) && Enabled(s, e) && TrafficInv(s)
    ensures TrafficInv(Step(s, e))
  {
    var r := Step(s, e);
    hide Step, CoreInv, ChecklistInv, Enabled;
    if e.RestartEvent? {
      RestartTakesCredential(s, e);
    }
    RequestLogGrows(s, e);
    StepResponds(s, e);
    forall k | 0 <= k < |r.requests| ensures !SentUnder(r.requests[k], 0) {
      assert k < |s.requests| ==> r.requests[k] == s.requests[k];
    }
  }

  lemma ControllingStepKeepsInv(s: System, e: Event)
    requires SystemInv(s) && Legal(s.a, s.b, true, e)
    ensures SystemInv(System(Step(s.a, e), s.b))
  {
    StepKeepsCoreInv(s.a, e);
    StepKeepsChecklistInv(s.a, e);
    RoleIsKept(s.a, e, true);
    ControllingStepKeepsSelection(s, e);
    StepKeepsTrafficInv(s.a, e);
    RequestLogGrows(s.a, e);
    MoreRequestsKeepFacts(s, Step(s.a, e));
    hide Step, CoreInv, ChecklistInv, TrafficInv, AnswersInv, SelectedIsNominated;
  }

  /** The packet that carried a request is the logged request with its ID. */
  lemma RequestIsLogged(a: State, m: Message, src: Addr, dst: Addr)
    requires PendingInv(a) && m.Request? && InNetwork(a, m, src, dst) && forall k :: 0 <= k < |a.responses| ==>
               a.responses[k].msg.Success?
    ensures m.id < |a.requests| && a.requests[m.id] == Packet(src, dst, m)
  {
  }

  lemma ControlledStepKeepsAnswers(s: System, e: Event)
    requires SystemInv(s) && Legal(s.b, s.a, false, e)
    ensures AnswersInv(System(s.a, Step(s.b, e)))
  {
    if e.InboundEvent? && !PassesChecks(s.b, e.m) {
      FailedChecksChangeNothing(s.b, e.now, e.m, e.local, e.src);
    } else {
      StepResponds(s.b, e);
      if e.InboundEvent? && e.m.Request? {
        RequestIsLogged(s.a, e.m, e.src, e.local.Resolved());
      }
      hide Step, CoreInv, ChecklistInv;
    }
  }

  lemma ControlledStepKeepsInv(s: System, e: Event)
    requires SystemInv(s) && Legal(s.b, s.a, false, e)
    ensures SystemInv(System(s.a, Step(s.b, e)))
  {
    StepKeepsCoreInv(s.b, e);
    StepKeepsChecklistInv(s.b, e);
    RoleIsKept(s.b, e, false);
    NotStartedIsControlled(Step(s.b, e));
    ControlledStepKeepsAnswers(s, e);
    hide Step, CoreInv, ChecklistInv, TrafficInv, AnswersInv, SelectedIsNominated;
  }

  lemma NotStartedIsControlled(s: State)
    requires CoreInv(s)
    ensures !s.started ==> !s.isControlling
  {
  }

  // ---- Runs ----

  lemma NewSystemInv(ca: Config, cb: Config, la: Credential, lb: Credential)
    requires la != 0
    ensures SystemInv(System(NewAgent(ca, la), NewAgent(cb, lb)))
  {
  }

  lemma {:induction false} SystemRunKeepsInv(run: seq<System>, sides: seq<Side>, events: seq<Event>, n: nat)
    requires SystemRun(run, sides, events) && n < |run|
    ensures SystemInv(run[n])
  {
    hide SystemInv, Step, Legal, NewAgent;
    if n == 0 {
      var ca, cb, la, lb :| la != 0 && lb != 0 && run[0] == System(NewAgent(ca, la), NewAgent(cb, lb));
      NewSystemInv(ca, cb, la, lb);
    } else {
      SystemRunKeepsInv(run, sides, events, n - 1);
      var s := run[n - 1];
      assert Next(s, sides[n - 1], events[n - 1], run[n - 1 + 1]);
      match sides[n - 1]
      case Controlling => ControllingStepKeepsInv(s, events[n - 1]);
      case Controlled => ControlledStepKeepsInv(s, events[n - 1]);
    }
  }

  // ---- Within a generation ----

  /** The agent on `side` is not restarted in the steps from `i` to `n`. */
  ghost predicate NoRestart(sides: seq<Side>, events: seq<Event>, side: Side, i: nat, n: nat)
    requires i <= n <= |events| == |sides|
  {
    forall k :: i <= k < n && sides[k] == side ==> !events[k].RestartEvent?
  }

  /** Every USE-CANDIDATE request that the controlling agent sent since its last restart travelled
      between the ends of the pair that it has nominated. */
  lemma {:induction false} ControllingUsesOneCandidate(
    run: seq<System>, sides: seq<Side>, events: seq<Event>, i: nat, n: nat)
    requires SystemRun(run, sides, events) && i <= n < |run| && NoRestart(sides, events, Controlling, i, n)
    ensures run[i].a.requests <= run[n].a.requests
    ensures forall k :: |run[i].a.requests| <= k < |run[n].a.requests| && UsesCandidate(run[n].a.requests[k]) ==>
              BetweenNominated(run[n].a, run[n].a.requests[k])
    ensures run[n].a.localCredential == run[i].a.localCredential
    decreases n
  {
    hide SystemInv, Step, CoreInv, ChecklistInv, Enabled, NewAgent;
    if i < n {
      ControllingUsesOneCandidate(run, sides, events, i, n - 1);
      SystemRunKeepsInv(run, sides, events, n - 1);
      AgentsKeepInv(run[n - 1]);
      var s, e := run[n - 1], events[n - 1];
      assert Next(s, sides[n - 1], e, run[n - 1 + 1]);
      if sides[n - 1] == Controlling {
        StepSendsForNominated(s.a, e);
        StepWithinGeneration(s.a, e);
        RequestLogGrows(s.a, e);
      }
    }
  }

  lemma AgentsKeepInv(s: System)
    requires SystemInv(s)
    ensures CoreInv(s.a) && ChecklistInv(s.a) && CoreInv(s.b) && ChecklistInv(s.b) && !s.b.isControlling
  {
  }

  /** A new mark of the controlled agent was asked for under the remote credential that it holds. */
  /** A USE-CANDIDATE request that reaches the controlled agent was sent by the controlling one. */
  lemma AskIsLogged(s: System, e: Event, p: CandidatePair)
    requires SystemInv(s) && Legal(s.b, s.a, false, e) && IsAsked(s.b, e) && PassesChecks(s.b, e.m)
    requires Between(p, e.local, e.src)
    ensures s.b.remoteCredential != 0 && AskedFor(s.a, s.b.remoteCredential, p)
  {
    hide ChecklistInv, AnswersInv, Enabled;
    RequestIsLogged(s.a, e.m, e.src, e.local.Resolved());
    hide CoreInv;
    assert !SentUnder(s.a.requests[e.m.id], 0);
    assert Asks(s.a.requests[e.m.id], s.b.remoteCredential, p);
  }

  lemma ControlledStepMarks(s: System, e: Event, k: nat)
    requires SystemInv(s) && Legal(s.b, s.a, false, e) && k < |Step(s.b, e).checklist| && Marked(Step(s.b, e), k)
    ensures !e.RestartEvent?
    ensures var p := Step(s.b, e).checklist[k];
            || (k < |s.b.checklist| && Marked(s.b, k) && s.b.checklist[k].SameEnds(p))
            || (s.b.remoteCredential != 0 && AskedFor(s.a, s.b.remoteCredential, p))
  {
    var r := Step(s.b, e);
    if e.InboundEvent? && !PassesChecks(s.b, e.m) {
      FailedChecksChangeNothing(s.b, e.now, e.m, e.local, e.src);
    } else {
      assert !e.RestartEvent? by { hide CoreInv, ChecklistInv; }
      var local := if e.InboundEvent? then e.local else Candidate(UDP4, Host, 0, "", 0, None, Unspecified, "", 0);
      var src := if e.InboundEvent? then e.src else local.Resolved();
      StepMarks(s.b, e, local, src);
      hide Step, CoreInv, ChecklistInv, AskedFor;
      if IsAsked(s.b, e) && Between(r.checklist[k], local, src) {
        AskIsLogged(s, e, r.checklist[k]);
      }
    }
  }

  lemma AskedForSameEnds(a: State, c: Credential, p: CandidatePair, q: CandidatePair)
    requires AskedFor(a, c, p) && p.SameEnds(q)
    ensures AskedFor(a, c, q)
  {
    var n :| 0 <= n < |a.requests| && Asks(a.requests[n], c, p);
    assert Asks(a.requests[n], c, q);
  }

  /** Every mark of the controlled agent was asked for under a remote credential that the agent has held
      since its last restart. */
  lemma {:induction false} MarksWereAsked(
    run: seq<System>, sides: seq<Side>, events: seq<Event>, n: nat, k: nat) returns (j: nat)
    requires SystemRun(run, sides, events) && n < |run| && k < |run[n].b.checklist| && Marked(run[n].b, k)
    ensures j <= n && NoRestart(sides, events, Controlled, j, n) && run[j].b.remoteCredential != 0
    ensures AskedFor(run[n].a, run[j].b.remoteCredential, run[n].b.checklist[k])
  {
    hide SystemInv, Step, CoreInv, ChecklistInv, Enabled, AskedFor;
    j := n;
    if n > 0 {
      SystemRunKeepsInv(run, sides, events, n - 1);
      var s, e := run[n - 1], events[n - 1];
      assert Next(s, sides[n - 1], e, run[n - 1 + 1]);
      match sides[n - 1]
      case Controlling =>
        j := MarksWereAsked(run, sides, events, n - 1, k);
        AgentsKeepInv(s);
        RequestLogGrows(s.a, e);
        MoreRequestsKeepFacts(s, run[n].a);
      case Controlled =>
        ControlledStepMarks(s, e, k);
        j := n - 1;
        if !(s.b.remoteCredential != 0 && AskedFor(s.a, s.b.remoteCredential, run[n].b.checklist[k])) {
          j := MarksWereAsked(run, sides, events, n - 1, k);
          AskedForSameEnds(s.a, run[j].b.remoteCredential, s.b.checklist[k], run[n].b.checklist[k]);
        }
    }
  }

  /** The two agents share a credential generation: what the controlling agent sent before step `i`, its
      last restart, was not sent under its present credential, and the controlled agent has held no
      other remote credential since its own last restart. */
  ghost predicate SharedGeneration(run: seq<System>, sides: seq<Side>, events: seq<Event>, i: nat, n: nat)
    requires |run| == |events| + 1 == |sides| + 1 && i <= n < |run|
  {
    var c := run[n].a.localCredential;
    && NoRestart(sides, events, Controlling, i, n)
    && (forall k :: 0 <= k < |run[i].a.requests| ==> !SentUnder(run[i].a.requests[k], c))
    && (forall j :: 0 <= j <= n && NoRestart(sides, events, Controlled, j, n) ==>
         run[j].b.remoteCredential == 0 || run[j].b.remoteCredential == c)
  }

  // ---- The theorem ----

  /** `q` is the same path as `p`, seen from the other end. */
  predicate Mirrors(p: CandidatePair, q: CandidatePair) {
    p.local.Resolved() == q.remote.Resolved() && p.remote.Resolved() == q.local.Resolved()
  }

  predicate NominatedMirror(a: State, p: CandidatePair) {
    && a.nominated.Some?
    && a.nominated.value.0.Resolved() == p.remote.Resolved()
    && a.nominated.value.1.Resolved() == p.local.Resolved()
  }

  /** The controlled agent only ever selects the pair that the controlling agent nominated, also
      before the controlling agent has selected it itself. */
  lemma ControlledSelectsOnlyTheNominatedPair(run: seq<System>, sides: seq<Side>, events: seq<Event>, i: nat, n: nat)
    requires SystemRun(run, sides, events) && i <= n < |run| && SharedGeneration(run, sides, events, i, n)
    requires run[n].b.selected.Some?
    ensures run[n].b.WellFormed()
    ensures NominatedMirror(run[n].a, run[n].b.checklist[run[n].b.selected.value])
  {
    SystemRunKeepsInv(run, sides, events, n);
    assert run[n].b.WellFormed();
    hide SystemInv, Next;
    var k := run[n].b.selected.value;
    var j := MarksWereAsked(run, sides, events, n, k);
    assert run[j].b.remoteCredential == run[n].a.localCredential;
    var m :| 0 <= m < |run[n].a.requests|
        && Asks(run[n].a.requests[m], run[n].a.localCredential, run[n].b.checklist[k]);
    ControllingUsesOneCandidate(run, sides, events, i, n);
    assert forall k :: 0 <= k < |run[i].a.requests| ==> run[i].a.requests[k] == run[n].a.requests[k];
    assert BetweenNominated(run[n].a, run[n].a.requests[m]);
  }

  /** In every run, whenever both agents have selected a pair and share a credential generation, the two
      pairs mirror each other. */
  lemma AgentsAgree(run: seq<System>, sides: seq<Side>, events: seq<Event>, i: nat, n: nat)
    requires SystemRun(run, sides, events) && i <= n < |run| && SharedGeneration(run, sides, events, i, n)
    requires run[n].a.selected.Some? && run[n].b.selected.Some?
    ensures run[n].a.WellFormed() && run[n].b.WellFormed()
    ensures Mirrors(run[n].a.checklist[run[n].a.selected.value], run[n].b.checklist[run[n].b.selected.value])
  {
    ControlledSelectsOnlyTheNominatedPair(run, sides, events, i, n);
    SystemRunKeepsInv(run, sides, events, n);
    hide CoreInv, ChecklistInv, AnswersInv, TrafficInv, Next;
  }

  lemma RestartEffect(s: State, e: Event)
    requires s.WellFormed() && e.RestartEvent?
    ensures Step(s, e).requests == s.requests && Step(s, e).localCredential == e.credential
  {
  }

  /** When each restart of the controlling agent uses a credential that it has sent nothing under, the
      controlling agent's half of a shared generation always holds. */
  lemma {:induction false} FreshRestartsSeparateGenerations(
    run: seq<System>, sides: seq<Side>, events: seq<Event>, n: nat) returns (i: nat)
    requires SystemRun(run, sides, events) && n < |run|
    requires forall k, m ::
               (&& 0 <= k < |events| && sides[k] == Controlling && events[k].RestartEvent?
                && 0 <= m < |run[k].a.requests|) ==>
               !SentUnder(run[k].a.requests[m], events[k].credential)
    ensures i <= n && NoRestart(sides, events, Controlling, i, n)
    ensures forall k :: 0 <= k < |run[i].a.requests| ==> !SentUnder(run[i].a.requests[k], run[n].a.localCredential)
  {
    hide SystemInv, CoreInv, ChecklistInv, Enabled, Step;
    i := n;
    if n == 0 {
      assert run[0].a.requests == [];
    } else {
      var s, e := run[n - 1], events[n - 1];
      assert Next(s, sides[n - 1], e, run[n - 1 + 1]);
      if sides[n - 1] == Controlling && e.RestartEvent? {
        RestartEffect(s.a, e);
      } else {
        i := FreshRestartsSeparateGenerations(run, sides, events, n - 1);
        SystemRunKeepsInv(run, sides, events, n - 1);
        AgentsKeepInv(s);
        if sides[n - 1] == Controlling {
          RequestLogGrows(s.a, e);
        }
      }
    }
  }
}
