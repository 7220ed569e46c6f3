/** A run in which the two agents connect: each knows one candidate of either side, the controlling agent
    checks and nominates their pair, and both select it. It shows that the theorem about agreement speaks
    of something, for every configuration and every two candidates of one network. */
module AgreementExample {
  import opened Wrappers
  import opened Candidates
  import opened AgentSpec
  import opened AgentInvariants
  import opened AgentRuns
  import opened Agreement

  /** The controlling agent's candidate is `ca` and its credential 1; the controlled agent's are `cb` and 2. */
  datatype Setting = Setting(config: Config, ca: Candidate, cb: Candidate)
  {
    predicate Valid() {
      && !config.lite
      && ca.networkType == cb.networkType && ca.tcpType == Unspecified && cb.tcpType == Unspecified
    }

    /** Late enough for a nomination. */
    function Time(): int {
      config.AcceptanceWait(ca.candidateType) + config.AcceptanceWait(cb.candidateType) + 1
    }

    function Check(): Message { Request(0, 2, 1, false, true) }
    function CheckBack(): Message { Request(0, 1, 2, false, false) }
    function Nomination(): Message { Request(1, 2, 1, true, true) }

    // ---- The controlling agent ----

    function A0(): State { NewAgent(config, 1) }
    function A1(): State { A0().(localCandidates := map[ca.networkType := [ca]]) }
    function A2(): State {
      A1().(remoteCandidates := map[ca.networkType := [cb]], checklist := [NewPair(false, ca, cb)])
    }
    function A3(): State {
      A2().(started := true, isControlling := true, connectionState := Checking, remoteCredential := 2)
    }
    function A4(): State {
      A3().(lastContactState := Checking,
            checklist := [NewPair(false, ca, cb).(state := InProgress, requestCount := 1)],
            pending := [BindingRequest(0, 0, cb.Resolved(), false)],
            requests := [Packet(ca.Resolved(), cb.Resolved(), Check())])
    }
    function A5(): State {
      A4().(checklist := [NewPair(false, ca, cb).(state := Succeeded, requestCount := 1)], pending := [])
    }
    function A6(): State {
      A5().(nominated := Some((ca, cb)),
            pending := [BindingRequest(Time(), 1, cb.Resolved(), true)],
            requests := [Packet(ca.Resolved(), cb.Resolved(), Check()),
                Packet(ca.Resolved(), cb.Resolved(), Nomination())],
            responses := [Packet(ca.Resolved(), cb.Resolved(), Success(0, 1))])
    }
    function A7(): State {
      A6().(checklist := [NewPair(false, ca, cb).(state := Succeeded, requestCount := 1, nominated := true)],
            selected := Some(0), connectionState := Connected, pending := [])
    }

    // ---- The controlled agent ----

    function B0(): State { NewAgent(config, 2) }
    function B1(): State { B0().(localCandidates := map[ca.networkType := [cb]]) }
    function B2(): State {
      B1().(remoteCandidates := map[ca.networkType := [ca]], checklist := [NewPair(false, cb, ca)])
    }
    function B3(): State { B2().(started := true, connectionState := Checking, remoteCredential := 1) }
    function B4(): State {
      B3().(pending := [BindingRequest(Time(), 0, ca.Resolved(), false)],
            requests := [Packet(cb.Resolved(), ca.Resolved(), CheckBack())],
            responses := [Packet(cb.Resolved(), ca.Resolved(), Success(0, 2))])
    }
    function B5(): State { B4().(checklist := [NewPair(false, cb, ca).(state := Succeeded)], pending := []) }
    function B6(): State {
      B5().(checklist := [NewPair(false, cb, ca).(state := Succeeded, nominated := true)],
            selected := Some(0), connectionState := Connected,
            pending := [BindingRequest(Time(), 1, ca.Resolved(), false)],
            requests := [Packet(cb.Resolved(), ca.Resolved(), CheckBack()),
                         Packet(cb.Resolved(), ca.Resolved(), Request(1, 1, 2, false, false))],
            responses := [Packet(cb.Resolved(), ca.Resolved(), Success(0, 2)),
                          Packet(cb.Resolved(), ca.Resolved(), Success(1, 2))])
    }
  }

  // ---- The steps of each agent ----

  /** A new agent learns of one local and one remote candidate. */
  lemma LearnCandidates(config: Config, credential: Credential, local: Candidate, remote: Candidate)
    requires local.networkType == remote.networkType && remote.tcpType == Unspecified
    ensures var s := NewAgent(config, credential);
            var t := s.(localCandidates := map[local.networkType := [local]]);
            && Step(s, AddLocalEvent(local)) == t
            && Step(t, AddRemoteEvent(remote)) ==
               t.(remoteCandidates := map[local.networkType := [remote]], checklist := [NewPair(false, local, remote)])
  {
    assert [] + [local] == [local] && [] + [remote] == [remote];
    assert PairsWithRemotes(false, local, []) == [];
    assert PairsWithLocals(false, [local], remote) == [NewPair(false, local, remote)];
    assert [] + PairsWithRemotes(false, local, []) == [];
    assert [] + PairsWithLocals(false, [local], remote) == [NewPair(false, local, remote)];
  }

  lemma StartBoth(x: Setting)
    ensures Step(x.A2(), StartEvent(0, true, 2)) == x.A3() && Step(x.B2(), StartEvent(0, false, 1)) == x.B3()
  {
  }

  lemma SendFirstCheck(x: Setting)
    ensures Step(x.A3(), ContactEvent(Clock(0, 0, 0))) == x.A4()
  {
    var s := x.A3();
    assert BestPairFrom(s, IsValidPair, 1) == BestPairFrom(s, IsValidPair, 0) == None;
    assert PingFirst(s, 0, 1) == PingOne(PingFirst(s, 0, 0), 0, 0) == PingOne(s, 0, 0);
    assert FilterByAge([], 0) == [];
  }

  lemma OnlyRemote(c: Candidate)
    ensures FindRemoteCandidate([c], c.Resolved()) == Some(c)
  {
    assert IsAt([c][0], c.Resolved());
  }

  lemma OnlyPair(p: CandidatePair)
    ensures FindPair([p], p.local, p.remote) == Some(0)
  {
    assert Matches([p][0], p.local, p.remote);
  }

  lemma OnlyPending(r: BindingRequest, now: int)
    requires Fresh(now, r)
    ensures FilterByAge([r], now) == [r] && FindRequest([r], r.id) == Some(0) && FilterByAge([], now) == []
  {
    assert [r][..0] == [] && [r][0].id == r.id;
  }

  lemma CheckArrives(x: Setting)
    requires x.Valid()
    ensures Step(x.B3(), InboundEvent(x.Time(), x.Check(), x.cb, x.ca.Resolved())) == x.B4()
  {
    OnlyRemote(x.ca);
    OnlyPair(NewPair(false, x.cb, x.ca));
    hide FindRemoteCandidate, FindPair;
    assert FilterByAge([], x.Time()) == [];
  }

  lemma AnswerArrives(x: Setting)
    requires x.Valid()
    ensures Step(x.A4(), InboundEvent(0, Success(0, 2), x.ca, x.cb.Resolved())) == x.A5()
  {
    OnlyRemote(x.cb);
    OnlyPair(x.A4().checklist[0]);
    OnlyPending(x.A4().pending[0], 0);
    hide FindRemoteCandidate, FindPair, FilterByAge, FindRequest;
  }

  lemma OnlyAvailable(s: State)
    requires |s.checklist| == 1 && s.checklist[0].state != PairFailed
    ensures BestAvailable(s) == Some(0)
  {
    assert BestPairFrom(s, Available, 1) == Some(0) by { assert BestPairFrom(s, Available, 0) == None; }
  }

  lemma CheckBackArrives(x: Setting)
    requires x.Valid()
    ensures Step(x.A5(), InboundEvent(x.Time(), x.CheckBack(), x.ca, x.cb.Resolved())) == x.A6()
  {
    OnlyRemote(x.cb);
    OnlyPair(x.A5().checklist[0]);
    OnlyAvailable(SendBindingSuccess(x.A5(), 0, x.ca, x.cb));
    hide FindRemoteCandidate, FindPair, BestAvailable;
    assert FilterByAge([], x.Time()) == [];
  }

  lemma AnswerBackArrives(x: Setting)
    requires x.Valid()
    ensures Step(x.B4(), InboundEvent(x.Time(), Success(0, 1), x.cb, x.ca.Resolved())) == x.B5()
  {
    OnlyRemote(x.ca);
    OnlyPair(x.B4().checklist[0]);
    OnlyPending(x.B4().pending[0], x.Time());
    hide FindRemoteCandidate, FindPair, FilterByAge, FindRequest;
  }

  lemma NominationArrives(x: Setting)
    requires x.Valid()
    ensures Step(x.B5(), InboundEvent(x.Time(), x.Nomination(), x.cb, x.ca.Resolved())) == x.B6()
  {
    OnlyRemote(x.ca);
    OnlyPair(x.B5().checklist[0]);
    hide FindRemoteCandidate, FindPair, State.Priority;
    assert FilterByAge([], x.Time()) == [];
  }

  lemma NominationAnswered(x: Setting)
    requires x.Valid()
    ensures Step(x.A6(), InboundEvent(x.Time(), Success(1, 2), x.ca, x.cb.Resolved())) == x.A7()
  {
    OnlyRemote(x.cb);
    OnlyPair(x.A6().checklist[0]);
    OnlyPending(x.A6().pending[0], x.Time());
    hide FindRemoteCandidate, FindPair, FilterByAge, FindRequest;
  }

  // ---- The run ----

  /** A run without restarts, in which the controlled agent has no remote credential but 1, leads to `s`. */
  ghost predicate Reaches(s: System) {
    exists run, sides, events :: LeadsTo(run, sides, events, s)
  }

  ghost predicate LeadsTo(run: seq<System>, sides: seq<Side>, events: seq<Event>, s: System) {
    && SystemRun(run, sides, events) && run[|events|] == s
    && (forall k :: 0 <= k < |events| ==> !events[k].RestartEvent?)
    && (forall k :: 0 <= k < |run| ==> run[k].b.remoteCredential == 0 || run[k].b.remoteCredential == 1)
  }

  lemma ReachNew(x: Setting)
    ensures Reaches(System(x.A0(), x.B0()))
  {
    var run, sides: seq<Side>, events: seq<Event> := [System(x.A0(), x.B0())], [], [];
    assert LeadsTo(run, sides, events, run[0]);
  }

  lemma ReachNext(s: System, side: Side, e: Event, r: System)
    requires Reaches(s) && Next(s, side, e, r) && !e.RestartEvent?
    requires r.b.remoteCredential == 0 || r.b.remoteCredential == 1
    ensures Reaches(r)
  {
    hide Next;
    var run, sides, events :| LeadsTo(run, sides, events, s);
    var run', sides', events' := run + [r], sides + [side], events + [e];
    forall k | 0 <= k < |events'|
      ensures Next(run'[k], sides'[k], events'[k], run'[k + 1])
    {
      if k < |events| {
        assert Next(run[k], sides[k], events[k], run[k + 1]);
      }
    }
    assert run'[0] == run[0];
    assert LeadsTo(run', sides', events', r);
  }

  lemma ReachControllingStarted(x: Setting)
    requires x.Valid()
    ensures Reaches(System(x.A3(), x.B0()))
  {
    ReachNew(x);
    LearnCandidates(x.config, 1, x.ca, x.cb);
    StartBoth(x);
    hide Step, Reaches;
    ReachNext(System(x.A0(), x.B0()), Controlling, AddLocalEvent(x.ca), System(x.A1(), x.B0()));
    ReachNext(System(x.A1(), x.B0()), Controlling, AddRemoteEvent(x.cb), System(x.A2(), x.B0()));
    ReachNext(System(x.A2(), x.B0()), Controlling, StartEvent(0, true, 2), System(x.A3(), x.B0()));
  }

  lemma ReachBothStarted(x: Setting)
    requires x.Valid()
    ensures Reaches(System(x.A3(), x.B3()))
  {
    ReachControllingStarted(x);
    LearnCandidates(x.config, 2, x.cb, x.ca);
    StartBoth(x);
    hide Step, Reaches;
    ReachNext(System(x.A3(), x.B0()), Controlled, AddLocalEvent(x.cb), System(x.A3(), x.B1()));
    ReachNext(System(x.A3(), x.B1()), Controlled, AddRemoteEvent(x.ca), System(x.A3(), x.B2()));
    ReachNext(System(x.A3(), x.B2()), Controlled, StartEvent(0, false, 1), System(x.A3(), x.B3()));
  }

  /** A packet of the controlling agent arrives. */
  lemma ReachByDelivery(s: System, now: int, p: Packet, b: State, k: nat, x: Setting)
    requires Reaches(s) && s.a.WellFormed() && s.b.WellFormed()
    requires p.src == x.ca.Resolved() && p.dst == x.cb.Resolved() && x.Valid()
    requires s.b.started && s.b.localCandidates == map[x.ca.networkType := [x.cb]]
    requires (k < |s.a.requests| && s.a.requests[k] == p) || (k < |s.a.responses| && s.a.responses[k] == p)
    requires Step(s.b, InboundEvent(now, p.msg, x.cb, p.src)) == b && b.remoteCredential == 1
    ensures Reaches(System(s.a, b))
  {
    hide Step, Reaches;
    var e := InboundEvent(now, p.msg, x.cb, p.src);
    assert At(s.b.localCandidates, x.cb.networkType)[0] == x.cb;
    ReachNext(s, Controlled, e, System(s.a, b));
  }

  /** A packet of the controlled agent arrives. */
  lemma ReachByDeliveryBack(s: System, now: int, p: Packet, a: State, k: nat, x: Setting)
    requires Reaches(s) && s.a.WellFormed() && s.b.WellFormed()
    requires p.src == x.cb.Resolved() && p.dst == x.ca.Resolved() && x.Valid()
    requires s.a.started && s.a.localCandidates == map[x.ca.networkType := [x.ca]]
    requires (k < |s.b.requests| && s.b.requests[k] == p) || (k < |s.b.responses| && s.b.responses[k] == p)
    requires Step(s.a, InboundEvent(now, p.msg, x.ca, p.src)) == a && s.b.remoteCredential == 1
    ensures Reaches(System(a, s.b))
  {
    hide Step, Reaches;
    var e := InboundEvent(now, p.msg, x.ca, p.src);
    assert At(s.a.localCandidates, x.ca.networkType)[0] == x.ca;
    ReachNext(s, Controlling, e, System(a, s.b));
  }

  lemma ReachChecked(x: Setting)
    requires x.Valid()
    ensures Reaches(System(x.A5(), x.B4()))
  {
    ReachBothStarted(x);
    SendFirstCheck(x);
    CheckArrives(x);
    AnswerArrives(x);
    hide Step, Reaches;
    ReachNext(System(x.A3(), x.B3()), Controlling, ContactEvent(Clock(0, 0, 0)), System(x.A4(), x.B3()));
    ReachByDelivery(System(x.A4(), x.B3()), x.Time(), x.A4().requests[0], x.B4(), 0, x);
    ReachByDeliveryBack(System(x.A4(), x.B4()), 0, x.B4().responses[0], x.A5(), 0, x);
  }

  lemma ReachNominated(x: Setting)
    requires x.Valid()
    ensures Reaches(System(x.A6(), x.B5()))
  {
    ReachChecked(x);
    CheckBackArrives(x);
    AnswerBackArrives(x);
    hide Step, Reaches;
    ReachByDeliveryBack(System(x.A5(), x.B4()), x.Time(), x.B4().requests[0], x.A6(), 0, x);
    ReachByDelivery(System(x.A6(), x.B4()), x.Time(), x.A6().responses[0], x.B5(), 0, x);
  }

  lemma ReachSelected(x: Setting)
    requires x.Valid()
    ensures Reaches(System(x.A7(), x.B6()))
  {
    ReachNominated(x);
    NominationArrives(x);
    NominationAnswered(x);
    hide Step, Reaches;
    ReachByDelivery(System(x.A6(), x.B5()), x.Time(), x.A6().requests[1], x.B6(), 1, x);
    ReachByDeliveryBack(System(x.A6(), x.B6()), x.Time(), x.B6().responses[1], x.A7(), 1, x);
  }

  /** Some run ends with both agents having selected a pair in a shared generation, and the two pairs
      mirror each other. */
  lemma AgentsCanAgree(x: Setting) returns (run: seq<System>, sides: seq<Side>, events: seq<Event>)
    requires x.Valid()
    ensures SystemRun(run, sides, events) && SharedGeneration(run, sides, events, 0, |events|)
    ensures var s := run[|events|];
            && s.a.selected == Some(0) && s.b.selected == Some(0) && |s.a.checklist| == |s.b.checklist| == 1
            && Mirrors(s.a.checklist[0], s.b.checklist[0])
  {
    ReachSelected(x);
    hide Step, Next;
    run, sides, events :| LeadsTo(run, sides, events, System(x.A7(), x.B6()));
    AgentsAgree(run, sides, events, 0, |events|);
  }
}
