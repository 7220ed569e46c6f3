/** The role that a candidate pair takes its priority in. A pair keeps the role that the agent had when
    the pair was made, and an agent that has not started yet takes itself for controlled. */
module PairRoles {
  import opened Wrappers
  import opened Candidates
  import opened AgentSpec
  import opened AgentInvariants
  import opened AgentRuns

  /** Pair `k` has been in the checklist since a moment before the agent was started. */
  ghost predicate MadeBeforeStart(run: seq<State>, n: nat, k: nat)
    requires n < |run|
  {
    exists i :: MadeBy(run, i, n, k)
  }

  predicate MadeBy(run: seq<State>, i: int, n: nat, k: nat)
    requires n < |run|
  {
    0 <= i <= n && !run[i].started && forall m :: i <= m <= n ==> k < |run[m].checklist|
  }

  /** What a step does to the role of pair `k`. */
  lemma StepKeepsRole(s: State, e: Event, k: nat)
    requires CoreInv(s) && ChecklistInv(s) && Enabled(s, e) && k < |Step(s, e).checklist|
    ensures var r := Step(s, e);
            if k < |s.checklist| then r.checklist[k].controlling == s.checklist[k].controlling
            else !e.StartEvent? && r.checklist[k].controlling == s.isControlling == r.isControlling
    ensures s.started ==> Step(s, e).started && Step(s, e).isControlling == s.isControlling
  {
    if Ordinary(s, e) {
      OrdinaryStepEvolves(s, e);
      hide Step, CoreInv, ChecklistInv, State.Priority;
    } else {
      ExtraordinaryStepKeepsRole(s, e);
      hide Step, CoreInv, ChecklistInv, State.Priority;
    }
  }

  /** The same for a start, a restart and the acceptance of a response, which make no pairs. */
  lemma ExtraordinaryStepKeepsRole(s: State, e: Event)
    requires CoreInv(s) && ChecklistInv(s) && Enabled(s, e) && !Ordinary(s, e)
    ensures var r := Step(s, e);
            && |r.checklist| <= |s.checklist|
            && (forall k :: 0 <= k < |r.checklist| ==> r.checklist[k].controlling == s.checklist[k].controlling)
            && (s.started ==> r.started && r.isControlling == s.isControlling)
  {
    hide CoreInv, ChecklistInv, State.Priority, HandleSuccess, Contact, HandleRequest, Contains;
    if e.InboundEvent? {
      AcceptedResponse(s, e.now, e.m, e.local, e.src);
    }
  }

  lemma OnlyStartStarts(s: State, e: Event)
    requires CoreInv(s) && ChecklistInv(s) && Enabled(s, e) && !s.started && !e.StartEvent?
    ensures !Step(s, e).started
  {
    if Ordinary(s, e) {
      OrdinaryStepEvolves(s, e);
      hide Step, CoreInv, ChecklistInv, State.Priority;
    } else {
      hide CoreInv, ChecklistInv;
    }
  }

  lemma NotStartedIsControlled(s: State)
    requires CoreInv(s) && !s.started
    ensures !s.isControlling
  {
  }

  /** The bookkeeping of `MadeBeforeStart` over one step. */
  lemma MadeBeforeStartStep(run: seq<State>, n: nat, k: nat)
    requires 0 < n < |run| && k < |run[n].checklist| && (run[n - 1].started ==> run[n].started)
    ensures MadeBeforeStart(run, n, k) <==>
              !run[n].started || (k < |run[n - 1].checklist| && MadeBeforeStart(run, n - 1, k))
  {
    if !run[n].started {
      assert MadeBy(run, n, n, k);
    } else {
      if MadeBeforeStart(run, n, k) {
        var i :| MadeBy(run, i, n, k);
        assert MadeBy(run, i, n - 1, k);
      }
      if k < |run[n - 1].checklist| && MadeBeforeStart(run, n - 1, k) {
        var i :| MadeBy(run, i, n - 1, k);
        assert MadeBy(run, i, n, k);
      }
    }
  }

  /** In every reachable state a pair is in the controlling role if and only if the agent is, and the pair
      was not made before the start. */
  lemma {:induction false} RoleOfPair(
    run: seq<State>, events: seq<Event>, config: Config, credential: Credential, n: nat, k: nat)
    requires AgentRun(run, events, config, credential) && n < |run| && k < |run[n].checklist|
    ensures run[n].checklist[k].controlling <==> run[n].isControlling && !MadeBeforeStart(run, n, k)
  {
    hide Step, CoreInv, ChecklistInv, Enabled, MadeBeforeStart;
    RunKeepsInvariants(run, events, config, credential, n);
    if n > 0 {
      var s, e := run[n - 1], events[n - 1];
      RunKeepsInvariants(run, events, config, credential, n - 1);
      assert run[n - 1 + 1] == Step(s, e);
      StepKeepsRole(s, e, k);
      MadeBeforeStartStep(run, n, k);
      if !run[n].started {
        NotStartedIsControlled(run[n]);
      }
      if !s.started {
        NotStartedIsControlled(s);
        if !e.StartEvent? {
          OnlyStartStarts(s, e);
        }
      }
      if k < |s.checklist| {
        RoleOfPair(run, events, config, credential, n - 1, k);
        if !s.started {
          MadeNow(run, n - 1, k);
        }
      }
    }
  }

  lemma MadeNow(run: seq<State>, n: nat, k: nat)
    requires n < |run| && !run[n].started && k < |run[n].checklist|
    ensures MadeBeforeStart(run, n, k)
  {
    assert MadeBy(run, n, n, k);
  }

  /** So the pair has the agent's role if and only if the agent is controlled or the pair was made after
      the start. */
  lemma RoleIsRightIff(
    run: seq<State>, events: seq<Event>, config: Config, credential: Credential, n: nat, k: nat)
    requires AgentRun(run, events, config, credential) && n < |run| && k < |run[n].checklist|
    ensures run[n].checklist[k].controlling == run[n].isControlling <==>
              !run[n].isControlling || !MadeBeforeStart(run, n, k)
  {
    RoleOfPair(run, events, config, credential, n, k);
  }

  function LocalPriority(s: State, p: CandidatePair): uint32 { p.local.Priority(s.config.tcpPriorityOffset) }

  function RemotePriority(p: CandidatePair): uint32 { p.remote.Priority(DEFAULT_TCP_PRIORITY_OFFSET) }

  /** A controlling agent and its controlled peer, each at a moment of a run of its own, give one pair the
      same priority if and only if the controlling agent made it after the start or its two candidates
      have the same priority. */
  lemma EndsAgreeOnPriorityIff(
    run: seq<State>, events: seq<Event>, config: Config, credential: Credential, n: nat, k: nat,
    run': seq<State>, events': seq<Event>, config': Config, credential': Credential, n': nat, k': nat)
    requires AgentRun(run, events, config, credential) && n < |run| && k < |run[n].checklist|
    requires AgentRun(run', events', config', credential') && n' < |run'| && k' < |run'[n'].checklist|
    requires run[n].isControlling && !run'[n'].isControlling
    requires LocalPriority(run[n], run[n].checklist[k]) == RemotePriority(run'[n'].checklist[k'])
    requires RemotePriority(run[n].checklist[k]) == LocalPriority(run'[n'], run'[n'].checklist[k'])
    ensures run[n].Priority(run[n].checklist[k]) == run'[n'].Priority(run'[n'].checklist[k']) <==>
              !MadeBeforeStart(run, n, k)
                  || LocalPriority(run[n], run[n].checklist[k]) == RemotePriority(run[n].checklist[k])
  {
    RoleOfPair(run, events, config, credential, n, k);
    RoleOfPair(run', events', config', credential', n', k');
    var p, q := run[n].checklist[k], run'[n'].checklist[k'];
    MirrorAgreesIff(p.controlling, q.controlling, LocalPriority(run[n], p), RemotePriority(p));
    hide PairPriority, Candidate.Priority, MadeBeforeStart, AgentRun;
  }

  /** Candidates that are known before the start make a pair in the wrong role on a controlling agent. */
  lemma EarlyPairHasWrongRole(
    config: Config, local: Candidate, remote: Candidate) returns (run: seq<State>, events: seq<Event>)
    requires local.networkType == remote.networkType && remote.tcpType == Unspecified
    ensures AgentRun(run, events, config, 1)
    ensures var s := run[|events|]; s.isControlling && |s.checklist| == 1 && !s.checklist[0].controlling
  {
    events := [AddLocalEvent(local), AddRemoteEvent(remote), StartEvent(0, true, 2)];
    var s0 := NewAgent(config, 1);
    var s1 := Step(s0, events[0]);
    var s2 := Step(s1, events[1]);
    run := [s0, s1, s2, Step(s2, events[2])];
  }
}
