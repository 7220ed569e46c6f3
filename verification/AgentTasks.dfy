/** The ICE agent as the source writes it: an object whose tasks update its fields in place, with pairs
    shared between checklist, selected pair and nominated pair, and a buffer of pending requests that
    is compacted in place. Every task is proved to compute the corresponding function of module
    AgentSpec. */
module AgentTasks {
  import opened Wrappers
  import opened Candidates
  import opened PairTable
  import Spec = AgentSpec

  class Agent {
    const config: Spec.Config
    var started: bool
    var isControlling: bool
    var connectionState: Spec.ConnectionState
    var lastContactState: Spec.ConnectionState
    var checkingSince: int
    var startTime: int
    var localCredential: Spec.Credential
    var remoteCredential: Spec.Credential
    var localCandidates: Spec.CandidateSets
    var remoteCandidates: Spec.CandidateSets
    const table: Table  // checklist, selected pair and nominated pair
    var pending: array<Spec.BindingRequest>
    var pendingCount: nat
    var requests: seq<Spec.Packet>
    var responses: seq<Spec.Packet>

    ghost predicate Valid()
      reads this, table
    {
      pendingCount <= pending.Length && table.Valid()
    }

    ghost function State(): (s: Spec.State)
      requires Valid()
      reads this, table, table.checklist, pending
      ensures s.WellFormed()
    {
      Spec.State(config, started, isControlling, connectionState, lastContactState, checkingSince, startTime,
                 localCredential, remoteCredential, localCandidates, remoteCandidates,
                 table.Checklist(), table.Selected(), table.Nominated(),
                 pending[..pendingCount], requests, responses)
    }

    /** The agent's buffer and pairs are those it had, or new ones. */
    twostate predicate KeepsToItself()
      reads this, table
    {
      && (fresh(pending) || pending == old(pending))
      && (forall p :: p in table.checklist ==> p in old(table.checklist) || fresh(p))
    }

    constructor (config: Spec.Config, credential: Spec.Credential)
      ensures Valid() && fresh(pending) && fresh(table) && table.checklist == []
      ensures State() == Spec.NewAgent(config, credential)
    {
      this.config := config;
      started, isControlling := false, false;
      connectionState, lastContactState := Spec.New, Spec.Unknown;
      checkingSince, startTime := 0, 0;
      localCredential, remoteCredential := credential, 0;
      localCandidates, remoteCandidates := map[], map[];
      table := new Table();
      pending, pendingCount := new Spec.BindingRequest[0], 0;
      requests, responses := [], [];
    }

    // ---- Connection state and selected pair ----

    method UpdateConnectionState(newState: Spec.ConnectionState)
      requires Valid()
      modifies this, table
      ensures KeepsToItself()
      ensures Valid() && State() == Spec.UpdateConnectionState(old(State()), newState)
    {
      hide Table.Checklist, Table.Selected, Table.Nominated, Table.Valid, Values, Pair.Value, AllDiffer;
      if connectionState != newState {
        if newState == Spec.Failed {
          ReleaseAll();
        }
        connectionState := newState;
      }
    }

    method ReleaseAll()
      requires Valid()
      modifies this`pending, this`pendingCount, this`localCandidates, this`remoteCandidates, table`checklist,
               table`selected
      ensures Valid() && fresh(pending) && table.checklist == []
      ensures State() == Spec.ReleaseAll(old(State()))
    {
      hide Table.Checklist, Table.Selected, Table.Nominated, Table.Valid, Values, Pair.Value, AllDiffer;
      hide Spec.At, Spec.State.Priority;
      ghost var before := State();
      table.Release();
      localCandidates, remoteCandidates := map[], map[];
      pending, pendingCount := new Spec.BindingRequest[0], 0;
      ghost var after := State();
      assert after.pending == [] && after.checklist == [];
    }

    method SetSelectedPair(p: Pair, ghost i: nat)
      requires Valid() && i < |table.checklist| && table.checklist[i] == p
      modifies this`connectionState, table`selected, p`nominated
      ensures Valid() && State() == Spec.SetSelectedPair(old(State()), i)
    {
      hide Table.Checklist, Table.Selected, Table.Valid, Values, AllDiffer;
      hide Spec.At, Spec.State.Priority, Spec.ReleaseAll;
      table.Select(p, i);
      if connectionState != Spec.Connected {
        connectionState := Spec.Connected;
      }
    }

    method ValidateSelectedPair(sinceReceived: nat) returns (valid: bool)
      requires Valid()
      modifies this, table
      ensures KeepsToItself()
      ensures Valid() && State() == Spec.ValidateSelectedPair(old(State()), sinceReceived)
      ensures valid == (old(table.selected) != null)
    {
      hide Table.Checklist, Table.Selected, Table.Nominated, Table.Valid, Values, Pair.Value, AllDiffer;
      hide Spec.At, Spec.State.Priority, Spec.UpdateConnectionState;
      if table.selected == null {
        return false;
      }
      var toFailure := config.failedTimeout;
      if toFailure != 0 {
        toFailure := toFailure + config.disconnectedTimeout;
      }
      if toFailure != 0 && sinceReceived > toFailure {
        UpdateConnectionState(Spec.Failed);
      } else if config.disconnectedTimeout != 0 && sinceReceived > config.disconnectedTimeout {
        UpdateConnectionState(Spec.Disconnected);
      } else {
        UpdateConnectionState(Spec.Connected);
      }
      return true;
    }

    // ---- Pending transactions and outgoing messages ----

    /** Compacts the pending requests in place: the kept ones move to the front of the same buffer. */
    method InvalidatePendingBindingRequests(now: int)
      requires Valid()
      modifies this`pendingCount, pending
      ensures Valid() && pendingCount <= old(pendingCount)
      ensures pending[..pendingCount] == Spec.FilterByAge(old(pending[..pendingCount]), now)
    {
      ghost var before := pending[..pendingCount];
      var kept, i := 0, 0;
      while i < pendingCount
        invariant 0 <= kept <= i <= pendingCount == old(pendingCount) <= pending.Length
        invariant pending[..kept] == Spec.FilterByAge(before[..i], now)
        invariant pending[i..pendingCount] == before[i..]
      {
        assert before[..i + 1][..i] == before[..i];
        assert pending[i] == before[i] by { assert pending[i] == pending[i..pendingCount][0]; }
        assert pending[i + 1..pendingCount] == before[i + 1..] by {
          assert pending[i..pendingCount][1..] == before[i..][1..];
        }
        if Spec.Fresh(now, pending[i]) {
          pending[kept] := pending[i];
          kept := kept + 1;
        }
        i := i + 1;
      }
      assert before[..i] == before;
      pendingCount := kept;
    }

    /** Looks the transaction up among the live requests and takes it out by shifting the rest down. */
    method HandleInboundBindingSuccess(now: int, id: nat) returns (found: Option<Spec.BindingRequest>)
      requires Valid()
      modifies this`pendingCount, pending
      ensures Valid()
      ensures (found, State()) == Spec.TakePending(old(State()), now, id)
    {
      hide Table.Checklist, Table.Selected, Table.Nominated, Table.Valid, Values, Pair.Value, AllDiffer;
      hide Spec.FilterByAge, Spec.FindRequest, Spec.At, Spec.State.Priority;
      InvalidatePendingBindingRequests(now);
      ghost var live := pending[..pendingCount];
      var i := 0;
      while i < pendingCount
        invariant 0 <= i <= pendingCount == |live|
        invariant pending[..pendingCount] == live
        invariant forall k :: 0 <= k < i ==> live[k].id != id
      {
        if pending[i].id == id {
          found := Some(pending[i]);
          assert pending[..i] == live[..i] && pending[i + 1..pendingCount] == live[i + 1..];
          RemoveAt(i);
          FoundAt(live, id, i);
          return;
        }
        i := i + 1;
      }
      FoundNowhere(live, id);
      return None;
    }

    method RemoveAt(k: nat)
      requires Valid() && k < pendingCount
      modifies this`pendingCount, pending
      ensures Valid()
      ensures pending[..pendingCount] == old(pending[..k]) + old(pending[k + 1..pendingCount])
    {
      var i := k;
      while i + 1 < pendingCount
        invariant k <= i < pendingCount == old(pendingCount) <= pending.Length
        invariant forall j :: 0 <= j < k ==> pending[j] == old(pending[j])
        invariant forall j :: k <= j < i ==> pending[j] == old(pending[j + 1])
        invariant forall j :: i < j < pendingCount ==> pending[j] == old(pending[j])
      {
        pending[i] := pending[i + 1];
        i := i + 1;
      }
      pendingCount := pendingCount - 1;
    }

    /** Appends to the buffer, moving to a larger one when it is full. */
    method AppendPending(r: Spec.BindingRequest)
      requires Valid()
      modifies this`pending, this`pendingCount, pending
      ensures Valid() && (fresh(pending) || pending == old(pending))
      ensures pending[..pendingCount] == old(pending[..pendingCount]) + [r]
    {
      if pendingCount == pending.Length {
        var bigger := new Spec.BindingRequest[2 * pending.Length + 1];
        forall k | 0 <= k < pendingCount {
          bigger[k] := pending[k];
        }
        pending := bigger;
      }
      pending[pendingCount] := r;
      pendingCount := pendingCount + 1;
    }

    method SendBindingRequest(now: int, local: Candidate, remote: Candidate, useCandidate: bool)
      requires Valid()
      modifies this`pending, this`pendingCount, this`requests, pending
      ensures fresh(pending) || pending == old(pending)
      ensures Valid() && State() == Spec.SendBindingRequest(old(State()), now, local, remote, useCandidate)
    {
      hide Table.Checklist, Table.Selected, Table.Nominated, Table.Valid, Values, Pair.Value, AllDiffer;
      hide Spec.FilterByAge, Spec.At, Spec.State.Priority;
      ghost var before := State();
      var id := |requests|;
      InvalidatePendingBindingRequests(now);
      AppendPending(Spec.BindingRequest(now, id, remote.Resolved(), useCandidate));
      var message := Spec.Request(id, remoteCredential, localCredential, useCandidate, isControlling);
      requests := requests + [Spec.Packet(local.Resolved(), remote.Resolved(), message)];
      ghost var after := State();
      assert after.pending == Spec.FilterByAge(before.pending, now)
          + [Spec.BindingRequest(now, id, remote.Resolved(), useCandidate)];
    }

    method SendBindingSuccess(id: nat, local: Candidate, remote: Candidate)
      requires Valid()
      modifies this`responses
      ensures Valid() && State() == Spec.SendBindingSuccess(old(State()), id, local, remote)
    {
      hide Table.Checklist, Table.Selected, Table.Nominated, Table.Valid, Values, Pair.Value, AllDiffer;
      responses := responses + [Spec.Packet(local.Resolved(), remote.Resolved(), Spec.Success(id, localCredential))];
    }

    // ---- The checklist ----

    method PingAllCandidates(now: int)
      requires Valid()
      modifies this`pending, this`pendingCount, this`requests, pending, table.checklist
      ensures KeepsToItself()
      ensures Valid() && State() == Spec.PingAllCandidates(old(State()), now)
    {
      hide Table.Checklist, Table.Selected, Table.Nominated, Table.Valid, Values, Pair.Value, AllDiffer;
      hide Spec.PingOne;
      ghost var before := State();
      var i := 0;
      while i < |table.checklist|
        invariant 0 <= i <= |table.checklist| == |before.checklist| && table.checklist == old(table.checklist)
        invariant fresh(pending) || pending == old(pending)
        invariant Valid() && State() == Spec.PingFirst(before, now, i)
      {
        PingCandidate(now, table.checklist[i], i);
        i := i + 1;
      }
    }

    method PingCandidate(now: int, p: Pair, ghost i: nat)
      requires Valid() && i < |table.checklist| && table.checklist[i] == p
      modifies this`pending, this`pendingCount, this`requests, pending, p
      ensures fresh(pending) || pending == old(pending)
      ensures Valid() && State() == Spec.PingOne(old(State()), now, i)
    {
      hide Table.Checklist, Table.Selected, Table.Valid, Values, AllDiffer, Spec.At, Spec.State.Priority,
           Spec.SendBindingRequest, Spec.PingOne, CheckedOrFailed;
      PingOneInSteps(State(), now, i);
      if p.state == Spec.Waiting {
        SetPairState(p, i, Spec.InProgress);
      } else if p.state != Spec.InProgress {
        return;
      }
      CheckOrFail(now, p, i);
    }

    method CheckOrFail(now: int, p: Pair, ghost i: nat)
      requires Valid() && i < |table.checklist| && table.checklist[i] == p
      modifies this`pending, this`pendingCount, this`requests, pending, p
      ensures fresh(pending) || pending == old(pending)
      ensures Valid() && State() == CheckedOrFailed(old(State()), now, i)
    {
      hide Table.Checklist, Table.Selected, Table.Valid, Values, AllDiffer, Spec.At, Spec.State.Priority,
           Spec.SendBindingRequest;
      if p.requestCount > config.maxBindingRequests {
        SetPairState(p, i, Spec.PairFailed);
      } else {
        SendCheck(now, p, i);
      }
    }

    method SetPairState(p: Pair, ghost i: nat, state: Spec.PairState)
      requires Valid() && i < |table.checklist| && table.checklist[i] == p
      modifies p`state
      ensures Valid()
      ensures var s := old(State()); State() == s.(checklist := s.checklist[i := s.checklist[i].(state := state)])
    {
      hide Table.Checklist, Table.Selected, Table.Valid, Values, AllDiffer, Spec.At, Spec.State.Priority;
      table.SetState(p, i, state);
    }

    /** Sends a check on the pair and counts it. */
    method SendCheck(now: int, p: Pair, ghost i: nat)
      requires Valid() && i < |table.checklist| && table.checklist[i] == p
      modifies this`pending, this`pendingCount, this`requests, pending, p`requestCount
      ensures fresh(pending) || pending == old(pending)
      ensures Valid()
      ensures var s, v := old(State()), old(p.Value());
              State() == Spec.SendBindingRequest(s, now, v.local, v.remote, false)
                           .(checklist := s.checklist[i := v.(requestCount := Wrap16(v.requestCount + 1))])
    {
      hide Table.Checklist, Table.Selected, Table.Valid, Values, AllDiffer, Spec.At, Spec.State.Priority,
           Spec.FilterByAge;
      SendBindingRequest(now, p.local, p.remote, false);
      table.CountRequest(p, i);
    }

    function PairPriority(p: Pair): (n: int)
      requires Valid()
      reads this, table, table.checklist, pending, p
      ensures n == State().Priority(p.Value())
    {
      Candidates.PairPriority(p.controlling, p.local.Priority(config.tcpPriorityOffset),
          p.remote.Priority(DEFAULT_TCP_PRIORITY_OFFSET))
    }

    /** `best` is the pair at position `at`, if there is one. */
    ghost predicate IsAt(best: Pair?, at: Option<nat>)
      reads table
    {
      if at.Some? then at.value < |table.checklist| && best == table.checklist[at.value] else best == null
    }

    method GetBestAvailableCandidatePair() returns (best: Pair?, ghost at: Option<nat>)
      requires Valid()
      ensures at == Spec.BestAvailable(State()) && IsAt(best, Spec.BestAvailable(State()))
    {
      hide Candidates.PairPriority, Candidate.Priority;
      best, at := null, None;
      for i := 0 to |table.checklist|
        invariant at == Spec.BestPairFrom(State(), Spec.Available, i) && IsAt(best, at)
      {
        if table.checklist[i].state == Spec.PairFailed {
          continue;
        }
        if best == null || PairPriority(best) < PairPriority(table.checklist[i]) {
          best, at := table.checklist[i], Some(i);
        }
      }
    }

    method GetBestValidCandidatePair() returns (best: Pair?, ghost at: Option<nat>)
      requires Valid()
      ensures at == Spec.BestValid(State()) && IsAt(best, Spec.BestValid(State()))
    {
      hide Candidates.PairPriority, Candidate.Priority;
      best, at := null, None;
      for i := 0 to |table.checklist|
        invariant at == Spec.BestPairFrom(State(), Spec.IsValidPair, i) && IsAt(best, at)
      {
        if table.checklist[i].state != Spec.Succeeded {
          continue;
        }
        if best == null || PairPriority(best) < PairPriority(table.checklist[i]) {
          best, at := table.checklist[i], Some(i);
        }
      }
    }

    method AddPair(local: Candidate, remote: Candidate) returns (p: Pair)
      requires Valid()
      modifies table`checklist
      ensures fresh(p) && table.checklist == old(table.checklist) + [p]
      ensures Valid() && State() == Spec.AddPair(old(State()), local, remote)
    {
      hide Table.Checklist, Table.Selected, Table.Nominated, Table.Valid, Values, Pair.Value, AllDiffer;
      hide Spec.At, Spec.State.Priority;
      p := table.Add(isControlling, local, remote);
    }

    method AddCandidate(c: Candidate)
      requires Valid()
      modifies this`localCandidates, table`checklist
      ensures KeepsToItself()
      ensures Valid() && State() == Spec.AddLocalCandidate(old(State()), c)
    {
      hide Table.Checklist, Table.Selected, Table.Nominated, Table.Valid, Values, Pair.Value, AllDiffer;
      var known := Spec.At(localCandidates, c.networkType);
      var duplicate := IsDuplicate(known, c);
      if duplicate {
        return;
      }
      hide Spec.State.Priority, Spec.Contains, Candidate.Equal;
      ghost var before := State();
      var remotes := Spec.At(remoteCandidates, c.networkType);
      PairWithRemotes(c, remotes);
      localCandidates := localCandidates[c.networkType := known + [c]];
      assert State() == before.(localCandidates := localCandidates,
                                checklist := before.checklist + Spec.PairsWithRemotes(isControlling, c, remotes));
    }

    method PairWithRemotes(c: Candidate, remotes: seq<Candidate>)
      requires Valid()
      modifies table`checklist
      ensures Valid() && KeepsToItself()
      ensures table.Checklist() == old(table.Checklist()) + Spec.PairsWithRemotes(isControlling, c, remotes)
      ensures table.Selected() == old(table.Selected())
    {
      hide Table.Checklist, Table.Selected, Table.Nominated, Table.Valid, Values, Pair.Value, AllDiffer;
      ghost var before, all := table.Checklist(), Spec.PairsWithRemotes(isControlling, c, remotes);
      assert before + all[..0] == before;
      for i := 0 to |remotes|
        invariant Valid() && table.Checklist() == before + all[..i] && table.Selected() == old(table.Selected())
        invariant forall p :: p in table.checklist ==> p in old(table.checklist) || fresh(p)
      {
        var _ := table.Add(isControlling, c, remotes[i]);
        assert all[..i] + [all[i]] == all[..i + 1];
      }
      assert all[..|remotes|] == all;
    }

    method AddRemoteCandidate(c: Candidate)
      requires Valid()
      modifies this`remoteCandidates, table`checklist
      ensures KeepsToItself()
      ensures Valid() && State() == Spec.AddRemoteCandidate(old(State()), c)
    {
      hide Table.Checklist, Table.Selected, Table.Nominated, Table.Valid, Values, Pair.Value, AllDiffer;
      var known := Spec.At(remoteCandidates, c.networkType);
      var duplicate := IsDuplicate(known, c);
      if duplicate {
        return;
      }
      hide Spec.State.Priority, Spec.Contains, Candidate.Equal;
      ghost var before := State();
      ghost var more := [];
      if c.tcpType != Passive {
        var locals := Spec.At(localCandidates, c.networkType);
        PairWithLocals(locals, c);
        more := Spec.PairsWithLocals(isControlling, locals, c);
      } else {
        assert table.Checklist() == before.checklist + [];
      }
      remoteCandidates := remoteCandidates[c.networkType := known + [c]];
      assert State() == before.(remoteCandidates := remoteCandidates, checklist := before.checklist + more);
    }

    method PairWithLocals(locals: seq<Candidate>, c: Candidate)
      requires Valid()
      modifies table`checklist
      ensures Valid() && KeepsToItself()
      ensures table.Checklist() == old(table.Checklist()) + Spec.PairsWithLocals(isControlling, locals, c)
      ensures table.Selected() == old(table.Selected())
    {
      hide Table.Checklist, Table.Selected, Table.Nominated, Table.Valid, Values, Pair.Value, AllDiffer;
      ghost var before, all := table.Checklist(), Spec.PairsWithLocals(isControlling, locals, c);
      assert before + all[..0] == before;
      for i := 0 to |locals|
        invariant Valid() && table.Checklist() == before + all[..i] && table.Selected() == old(table.Selected())
        invariant forall p :: p in table.checklist ==> p in old(table.checklist) || fresh(p)
      {
        var _ := table.Add(isControlling, locals[i], c);
        assert all[..i] + [all[i]] == all[..i + 1];
      }
      assert all[..|locals|] == all;
    }

    static method IsDuplicate(known: seq<Candidate>, c: Candidate) returns (duplicate: bool)
      ensures duplicate <==> Spec.Contains(known, c)
    {
      for i := 0 to |known|
        invariant forall k :: 0 <= k < i ==> !known[k].Equal(c)
      {
        if known[i].Equal(c) {
          return true;
        }
      }
      return false;
    }

    // ---- Timer contact ----

    method CheckKeepalive(clock: Spec.Clock)
      requires Valid()
      modifies this`pending, this`pendingCount, this`requests, pending
      ensures fresh(pending) || pending == old(pending)
      ensures Valid() && State() == Spec.CheckKeepalive(old(State()), clock)
    {
      hide Table.Checklist, Table.Selected, Table.Valid, Values, AllDiffer;
      hide Spec.SendBindingRequest, Spec.At, Spec.State.Priority;
      var p := table.selected;
      if p == null {
        return;
      }
      if config.keepaliveInterval != 0
          && (clock.sinceSent > config.keepaliveInterval || clock.sinceReceived > config.keepaliveInterval) {
        SendBindingRequest(clock.now, p.local, p.remote, false);
      }
    }

    method ValidateAndKeepAlive(clock: Spec.Clock)
      requires Valid()
      modifies this, pending, table
      ensures KeepsToItself()
      ensures Valid() && State() == Spec.ValidateAndKeepAlive(old(State()), clock)
    {
      hide Table.Checklist, Table.Selected, Table.Nominated, Table.Valid, Values, Pair.Value, AllDiffer;
      hide Spec.SendBindingRequest, Spec.At, Spec.State.Priority, Spec.ValidateSelectedPair;
      var valid := ValidateSelectedPair(clock.sinceReceived);
      if valid {
        CheckKeepalive(clock);
      } else {
        NothingToValidate(old(State()), clock);
      }
    }

    method ContactCandidatesControlling(clock: Spec.Clock)
      requires Valid()
      modifies this, pending, table, table.checklist
      ensures KeepsToItself()
      ensures Valid() && State() == Spec.ContactCandidatesControlling(old(State()), clock)
    {
      hide Table.Checklist, Table.Selected, Table.Valid, Values, AllDiffer;
      hide Spec.SendBindingRequest, Spec.At, Spec.State.Priority, Spec.ValidateAndKeepAlive, Spec.PingAllCandidates,
           Spec.BestValid;
      if table.selected != null {
        ValidateAndKeepAlive(clock);
      } else if table.nominated != null {
        SendBindingRequest(clock.now, table.nominated.local, table.nominated.remote, true);
      } else {
        var p, at := GetBestValidCandidatePair();
        if p != null && IsNominatable(clock.now, p.local) && IsNominatable(clock.now, p.remote) {
          Nominate(clock.now, p, at.value, true);
          return;
        }
        PingAllCandidates(clock.now);
      }
    }

    /** Remembers the pair as the nominated one, flags it if asked to, and sends the request. */
    method Nominate(now: int, p: Pair, ghost i: nat, flag: bool)
      requires Valid() && i < |table.checklist| && table.checklist[i] == p
      modifies this`pending, this`pendingCount, this`requests, pending, table`nominated, p`nominated
      ensures fresh(pending) || pending == old(pending)
      ensures Valid()
      ensures var s, v := old(State()), old(p.Value());
              State() == Spec.NominatePair(
                s.(checklist := if flag then s.checklist[i := v.(nominated := true)] else s.checklist,
                    nominated := Some((v.local, v.remote))),
                now, v.local, v.remote)
    {
      hide Table.Checklist, Table.Selected, Table.Valid, Values, AllDiffer;
      hide Spec.SendBindingRequest, Spec.At, Spec.State.Priority;
      ghost var before := State();
      if flag {
        table.Flag(p, i);
      }
      table.Nominate(p);
      assert State() == before.(
          checklist :=
            if flag then before.checklist[i := before.checklist[i].(nominated := true)] else before.checklist,
          nominated := Some((p.local, p.remote)));
      SendBindingRequest(now, p.local, p.remote, true);
    }

    predicate IsNominatable(now: int, c: Candidate)
      reads this`startTime
    {
      now - startTime > config.AcceptanceWait(c.candidateType)
    }

    method ContactCandidatesControlled(clock: Spec.Clock)
      requires Valid()
      modifies this, pending, table, table.checklist
      ensures KeepsToItself()
      ensures Valid() && State() == Spec.ContactCandidatesControlled(old(State()), clock)
    {
      hide Table.Checklist, Table.Selected, Table.Nominated, Table.Valid, Values, Pair.Value, AllDiffer;
      hide Spec.SendBindingRequest, Spec.At, Spec.State.Priority, Spec.ValidateAndKeepAlive,
           Spec.ValidateSelectedPair, Spec.PingAllCandidates;
      if config.lite {
        var _ := ValidateSelectedPair(clock.sinceReceived);
      } else if table.selected != null {
        ValidateAndKeepAlive(clock);
      } else {
        PingAllCandidates(clock.now);
      }
    }

    /** Remembers when checking began, and says whether it has taken too long. */
    method CheckingTimedOut(now: int) returns (timedOut: bool)
      requires Valid()
      modifies this`checkingSince
      ensures var s := old(State());
              && Valid()
              && State() == s.(checkingSince := if s.connectionState == Spec.Checking
                   && s.lastContactState != Spec.Checking then now else s.checkingSince)
              && timedOut == (s.connectionState == Spec.Checking
                   && now - checkingSince > config.disconnectedTimeout + config.failedTimeout)
    {
      hide Table.Checklist, Table.Selected, Table.Nominated, Table.Valid, Values, Pair.Value, AllDiffer, Spec.At,
           Spec.State.Priority;
      if connectionState == Spec.Checking {
        if lastContactState != connectionState {
          checkingSince := now;
        }
        return now - checkingSince > config.disconnectedTimeout + config.failedTimeout;
      }
      return false;
    }

    /** One round of connectivity checks. */
    method Contact(clock: Spec.Clock)
      requires Valid()
      modifies this, pending, table, table.checklist
      ensures KeepsToItself()
      ensures Valid() && State() == Spec.Contact(old(State()), clock)
    {
      hide Table.Checklist, Table.Selected, Table.Nominated, Table.Valid, Values, Pair.Value, AllDiffer, Spec.At,
           Spec.State.Priority;
      hide Spec.ContactCandidatesControlling, Spec.ContactCandidatesControlled, Spec.UpdateConnectionState;
      var timedOut := CheckingTimedOut(clock.now);
      if timedOut {
        UpdateConnectionState(Spec.Failed);
      } else if connectionState != Spec.Failed {
        if isControlling {
          ContactCandidatesControlling(clock);
        } else {
          ContactCandidatesControlled(clock);
        }
      }
      RememberContactState();
    }

    method RememberContactState()
      requires Valid()
      modifies this`lastContactState
      ensures Valid() && State() == old(State()).(lastContactState := old(connectionState))
    {
      hide Table.Checklist, Table.Selected, Table.Nominated, Table.Valid, Values, Pair.Value, AllDiffer, Spec.At,
           Spec.State.Priority;
      lastContactState := connectionState;
    }

    // ---- Inbound messages ----

    method FindRemoteCandidate(n: NetworkType, addr: Addr) returns (found: Option<Candidate>)
      ensures found == Spec.FindRemoteCandidate(Spec.At(remoteCandidates, n), addr)
    {
      var known := Spec.At(remoteCandidates, n);
      for i := 0 to |known|
        invariant forall k :: 0 <= k < i ==> !Spec.IsAt(known[k], addr)
      {
        if known[i].address == addr.ip && known[i].port == addr.port {
          RemoteFoundAt(known, addr, i);
          return Some(known[i]);
        }
      }
      RemoteFoundNowhere(known, addr);
      return None;
    }

    method RequestToControlling(now: int, m: Spec.Message, local: Candidate, remote: Candidate)
      requires Valid() && m.Request?
      modifies this`responses, this`pending, this`pendingCount, this`requests, pending, table, table.checklist
      ensures KeepsToItself()
      ensures Valid() && State() == Spec.RequestToControlling(old(State()), now, m, local, remote)
    {
      hide Table.Checklist, Table.Selected, Table.Valid, Values, AllDiffer, Spec.At, Spec.State.Priority,
           Spec.FindPair, Spec.BestAvailable, Spec.NominatePair, Spec.SendBindingSuccess, Spec.AddPair,
           Spec.State.Nominatable, Candidate.Equal;
      SendBindingSuccess(m.id, local, remote);
      var p, found := table.Find(local, remote);
      if p == null {
        var _ := AddPair(local, remote);
        return;
      }
      if p.state == Spec.Succeeded && table.nominated == null && table.selected == null {
        NominateIfBest(now, p, found.value);
      }
    }

    method NominateIfBest(now: int, p: Pair, ghost i: nat)
      requires Valid() && i < |table.checklist| && table.checklist[i] == p
      modifies this`pending, this`pendingCount, this`requests, pending, table`nominated, p`nominated
      ensures fresh(pending) || pending == old(pending)
      ensures Valid()
      ensures var s, v := old(State()), old(p.Value());
              State() == match Spec.BestAvailable(s)
                         case None => s
                         case Some(b) =>
                           if s.checklist[b].Equal(v) && s.Nominatable(now, v.local) && s.Nominatable(now, v.remote)
                           then Spec.NominatePair(s.(nominated := Some((v.local, v.remote))), now, v.local, v.remote)
                           else s
    {
      hide Table.Checklist, Table.Selected, Table.Valid, Values, AllDiffer, Spec.At, Spec.State.Priority,
           Spec.BestAvailable, Spec.NominatePair, Candidate.Equal;
      var best, at := GetBestAvailableCandidatePair();
      if best != null && best.local.Equal(p.local) && best.remote.Equal(p.remote)
         && IsNominatable(now, p.local) && IsNominatable(now, p.remote) {
        Nominate(now, p, i, false);
      }
    }

    /** Takes the pair when nothing is selected, or when it is another pair of no lower priority. */
    method SelectIfBetter(p: Pair, ghost i: nat)
      requires Valid() && i < |table.checklist| && table.checklist[i] == p
      modifies this`connectionState, table`selected, p`nominated
      ensures Valid() && State() == Spec.SelectIfBetter(old(State()), i)
    {
      hide Table.Checklist, Table.Selected, Table.Valid, Values, AllDiffer;
      hide Spec.SetSelectedPair, Spec.At, Candidates.PairPriority, Candidate.Priority;
      table.SelectedIs(p, i);
      var s := table.selected;
      if s == null || (s != p && PairPriority(s) <= PairPriority(p)) {
        SetSelectedPair(p, i);
      }
    }

    /** A USE-CANDIDATE request selects a pair that has succeeded, and marks any other one. */
    method UseCandidate(p: Pair, ghost i: nat)
      requires Valid() && i < |table.checklist| && table.checklist[i] == p
      modifies this`connectionState, table`selected, p
      ensures Valid()
      ensures var s := old(State());
              State() == if s.checklist[i].state == Spec.Succeeded then Spec.SelectIfBetter(s, i)
                         else s.(checklist := s.checklist[i := s.checklist[i].(nominateOnSuccess := true)])
    {
      hide Table.Checklist, Table.Selected, Table.Valid, Values, AllDiffer, Spec.At, Spec.State.Priority,
           Spec.SelectIfBetter;
      if p.state == Spec.Succeeded {
        SelectIfBetter(p, i);
      } else {
        table.MarkForNomination(p, i);
      }
    }

    method RequestToControlled(now: int, m: Spec.Message, local: Candidate, remote: Candidate)
      requires Valid() && m.Request?
      modifies this`connectionState, this`responses, this`pending, this`pendingCount, this`requests, pending, table,
               table.checklist
      ensures KeepsToItself()
      ensures Valid() && State() == Spec.RequestToControlled(old(State()), now, m, local, remote)
    {
      hide Table.Checklist, Table.Selected, Table.Valid, Values, AllDiffer, Spec.At, Spec.State.Priority,
           Spec.FindPair, Spec.SelectIfBetter, Spec.SendBindingRequest, Spec.SendBindingSuccess, Candidate.Equal;
      var p, found := table.Find(local, remote);
      ghost var i := if found.None? then |table.checklist| else found.value;
      if p == null {
        p := AddPair(local, remote);
      }
      if m.useCandidate {
        UseCandidate(p, i);
      }
      SendBindingSuccess(m.id, local, remote);
      SendBindingRequest(now, local, remote, false);
    }

    /** The remote candidate at the address; an unknown one becomes peer-reflexive. */
    method Attribute(local: Candidate, src: Addr) returns (remote: Candidate)
      requires Valid()
      modifies this`remoteCandidates, table`checklist
      ensures KeepsToItself() && Valid()
      ensures var s := old(State());
              var known := Spec.FindRemoteCandidate(Spec.At(s.remoteCandidates, local.networkType), src);
              && remote == (if known.Some? then known.value else Spec.PeerReflexiveAt(src, local.component))
              && State() == if known.Some? then s else Spec.AddRemoteCandidate(s, remote)
    {
      hide Table.Checklist, Table.Selected, Table.Nominated, Table.Valid, Values, Pair.Value, AllDiffer,
           Spec.State.Priority, Spec.AddRemoteCandidate, Spec.FindRemoteCandidate, Spec.At;
      var known := FindRemoteCandidate(local.networkType, src);
      if known.Some? {
        return known.value;
      }
      remote := Spec.PeerReflexiveAt(src, local.component);
      AddRemoteCandidate(remote);
    }

    method HandleRequest(now: int, m: Spec.Message, local: Candidate, src: Addr)
      requires Valid() && m.Request?
      modifies this, pending, table, table.checklist
      ensures KeepsToItself()
      ensures Valid() && State() == Spec.HandleRequest(old(State()), now, m, local, src)
    {
      hide Table.Checklist, Table.Selected, Table.Nominated, Table.Valid, Values, Pair.Value, AllDiffer,
           Spec.State.Priority, Spec.RequestToControlling, Spec.RequestToControlled, Spec.AddRemoteCandidate,
           Spec.FindRemoteCandidate, Spec.At;
      if m.to != localCredential || m.from != remoteCredential {
        return;
      }
      var remote := Attribute(local, src);
      assert forall i :: 0 <= i < |table.checklist| ==>
          table.checklist[i] in old(table.checklist) || fresh(table.checklist[i]);
      if isControlling {
        RequestToControlling(now, m, local, remote);
      } else {
        RequestToControlled(now, m, local, remote);
      }
    }

    method HandleSuccess(now: int, m: Spec.Message, local: Candidate, src: Addr)
      requires Valid() && m.Success?
      modifies this`connectionState, this`pendingCount, pending, table`selected, table.checklist
      ensures Valid() && State() == Spec.HandleSuccess(old(State()), now, m, local, src)
    {
      hide Table.Checklist, Table.Selected, Table.Valid, Values, AllDiffer;
      hide Spec.FindPair, Spec.FindRemoteCandidate, Spec.TakePending, Spec.SelectIfBetter, Spec.SetSelectedPair,
           Spec.State.Priority, Candidate.Equal;
      if m.signer != remoteCredential {
        return;
      }
      var remote := FindRemoteCandidate(local.networkType, src);
      if remote.None? {
        return;
      }
      var request := HandleInboundBindingSuccess(now, m.id);
      if request.None? || request.value.destination != src {
        return;
      }
      var p, found := table.Find(local, remote.value);
      if p == null {
        return;
      }
      AcceptResponse(p, found.value, request.value.useCandidate);
    }

    /** The pair has succeeded, and may become the selected one. */
    method AcceptResponse(p: Pair, ghost i: nat, useCandidate: bool)
      requires Valid() && i < |table.checklist| && table.checklist[i] == p
      modifies this`connectionState, table`selected, p
      ensures Valid() && State() == Spec.AcceptResponse(old(State()), i, useCandidate)
    {
      hide Table.Checklist, Table.Selected, Table.Valid, Values, AllDiffer;
      hide Spec.SelectIfBetter, Spec.SetSelectedPair, Spec.At, Spec.State.Priority;
      ghost var before := State();
      table.SetState(p, i, Spec.Succeeded);
      assert State() == before.(checklist := before.checklist[i := before.checklist[i].(state := Spec.Succeeded)]);
      if isControlling {
        if useCandidate && table.selected == null {
          SetSelectedPair(p, i);
        }
      } else if p.nominateOnSuccess {
        SelectIfBetter(p, i);
      }
    }

    /** Processes one STUN message that arrived on `local` from `src`. */
    method HandleInbound(now: int, m: Spec.Message, local: Candidate, src: Addr)
      requires Valid()
      modifies this, pending, table, table.checklist
      ensures KeepsToItself()
      ensures Valid() && State() == Spec.Inbound(old(State()), now, m, local, src)
    {
      hide Table.Checklist, Table.Selected, Table.Nominated, Table.Valid, Values, Pair.Value, AllDiffer;
      hide Spec.HandleRequest, Spec.HandleSuccess;
      if m.Request? {
        if isControlling {
          if m.controlling || m.useCandidate {
            return;
          }
        } else if !m.controlling {
          return;
        }
        HandleRequest(now, m, local, src);
      } else if m.Success? {
        HandleSuccess(now, m, local, src);
      }
    }

    // ---- Start and restart ----

    /** The result says whether the checks were started: not twice, and not without credentials. */
    method StartConnectivityChecks(now: int, controlling: bool, remote: Spec.Credential) returns (ok: bool)
      requires Valid()
      modifies this`remoteCredential, this`isControlling, this`started, this`startTime, this`connectionState,
               table`nominated
      ensures ok <==> !old(started) && remote != 0
      ensures Valid() && State() == Spec.StartChecks(old(State()), now, controlling, remote)
    {
      hide Table.Checklist, Table.Selected, Table.Valid, Values, AllDiffer, Spec.At, Spec.State.Priority,
           Spec.ReleaseAll;
      if started || remote == 0 {
        return false;
      }
      isControlling, started, remoteCredential := controlling, true, remote;
      assert State() == old(State()).(isControlling := controlling, started := true, remoteCredential := remote);
      if controlling {
        StartControlling(now);
      }
      if connectionState != Spec.Checking {
        connectionState := Spec.Checking;
      }
      return true;
    }

    /** A controlling agent starts without a nominated pair. */
    method StartControlling(now: int)
      requires Valid()
      modifies this`startTime, table`nominated
      ensures Valid() && State() == old(State()).(startTime := now, nominated := None)
    {
      hide Table.Checklist, Table.Selected, Table.Valid, Values, AllDiffer, Spec.At, Spec.State.Priority;
      startTime := now;
      table.Nominate(null);
    }

    method SetRemoteCredentials(remote: Spec.Credential)
      requires Valid()
      modifies this`remoteCredential
      ensures Valid() && State() == Spec.SetRemoteCredentials(old(State()), remote)
    {
      hide Table.Checklist, Table.Selected, Table.Nominated, Table.Valid, Values, Pair.Value, AllDiffer;
      if remote != 0 {
        remoteCredential := remote;
      }
    }

    method Restart(now: int, credential: Spec.Credential)
      requires Valid()
      modifies this, table
      ensures KeepsToItself()
      ensures Valid() && State() == Spec.Restart(old(State()), now, credential)
    {
      hide Table.Checklist, Table.Selected, Table.Valid, Values, AllDiffer;
      hide Spec.At, Spec.State.Priority;
      ghost var before := State();
      localCredential, remoteCredential := credential, 0;
      assert State() == before.(localCredential := credential, remoteCredential := 0);
      ReleaseAll();
      ghost var t := State();
      if started && isControlling {
        StartControlling(now);
      }
      if connectionState != Spec.New {
        UpdateConnectionState(Spec.Checking);
      }
    }

    /** One task. */
    method Run(e: Spec.Event)
      requires Valid()
      modifies this, pending, table, table.checklist
      ensures KeepsToItself()
      ensures Valid() && State() == Spec.Step(old(State()), e)
    {
      hide Table.Checklist, Table.Selected, Table.Nominated, Table.Valid, Values, Pair.Value, AllDiffer;
      hide Spec.StartChecks, Spec.SetRemoteCredentials, Spec.AddLocalCandidate, Spec.AddRemoteCandidate, Spec.Contact,
           Spec.Inbound, Spec.Restart;
      match e {
        case StartEvent(now, controlling, remote) =>
          var _ := StartConnectivityChecks(now, controlling, remote);
        case RemoteCredentialsEvent(remote) => SetRemoteCredentials(remote);
        case AddLocalEvent(c) => AddCandidate(c);
        case AddRemoteEvent(c) =>
          if c.tcpType != Active {
            AddRemoteCandidate(c);
          }
        case ContactEvent(clock) => Contact(clock);
        case InboundEvent(now, m, local, src) => HandleInbound(now, m, local, src);
        case RestartEvent(now, credential) => Restart(now, credential);
      }
    }

    /** The task loop: the object goes through the states of the step machine, one task at a time. */
    method RunAll(events: seq<Spec.Event>) returns (ghost run: seq<Spec.State>)
      requires Valid()
      modifies this, pending, table, table.checklist
      ensures Valid() && |run| == |events| + 1 && run[0] == old(State()) && run[|events|] == State()
      ensures forall k :: 0 <= k < |events| ==> run[k].WellFormed() && run[k + 1] == Spec.Step(run[k], events[k])
    {
      hide Table.Checklist, Table.Selected, Table.Nominated, Table.Valid, Values, Pair.Value, AllDiffer;
      hide Spec.Step, State, Valid;
      run := [State()];
      for i := 0 to |events|
        invariant Valid() && KeepsToItself()
        invariant |run| == i + 1 && run[0] == old(State()) && run[i] == State()
        invariant forall k :: 0 <= k < i ==> run[k].WellFormed() && run[k + 1] == Spec.Step(run[k], events[k])
      {
        assert forall i :: 0 <= i < |table.checklist| ==>
            table.checklist[i] in old(table.checklist) || fresh(table.checklist[i]);
        Run(events[i]);
        run := run + [State()];
      }
    }
  }

  /** A pair in progress is checked again, or fails after too many checks. */
  ghost function CheckedOrFailed(s: Spec.State, now: int, i: nat): Spec.State
    requires i < |s.checklist|
  {
    var p := s.checklist[i];
    if p.requestCount > s.config.maxBindingRequests then s.(checklist := s.checklist[i := p.(state := Spec.PairFailed)])
    else Spec.SendBindingRequest(s, now, p.local, p.remote, false)
           .(checklist := s.checklist[i := p.(requestCount := Wrap16(p.requestCount + 1))])
  }

  lemma PingOneInSteps(s: Spec.State, now: int, i: nat)
    requires i < |s.checklist|
    ensures var p := s.checklist[i];
            Spec.PingOne(s, now, i) ==
              if p.state == Spec.Waiting
                  then CheckedOrFailed(s.(checklist := s.checklist[i := p.(state := Spec.InProgress)]), now, i)
              else if p.state == Spec.InProgress then CheckedOrFailed(s, now, i)
              else s
  {
    hide Spec.SendBindingRequest;
    var p := s.checklist[i];
    var ps := s.checklist[i := p.(state := Spec.InProgress)];
    SendIgnoresChecklist(s, ps, now, p.local, p.remote);
    assert p.state == Spec.InProgress ==> ps == s.checklist;
    assert ps[i := p.(state := Spec.PairFailed)] == s.checklist[i := p.(state := Spec.PairFailed)];
    var counted := p.(state := Spec.InProgress, requestCount := Wrap16(p.requestCount + 1));
    assert ps[i := counted] == s.checklist[i := counted];
  }

  lemma SendIgnoresChecklist(s: Spec.State, ps: seq<Spec.CandidatePair>, now: int, local: Candidate, remote: Candidate)
    ensures Spec.SendBindingRequest(s.(checklist := ps), now, local, remote, false) ==
              Spec.SendBindingRequest(s, now, local, remote, false).(checklist := ps)
  {
  }

  lemma NothingToValidate(s: Spec.State, clock: Spec.Clock)
    requires s.WellFormed() && s.selected.None?
    ensures Spec.ValidateAndKeepAlive(s, clock) == Spec.ValidateSelectedPair(s, clock.sinceReceived) == s
  {
  }

  // ---- A linear search finds what the recursive specification finds ----

  lemma {:induction false} FoundAt(rs: seq<Spec.BindingRequest>, id: nat, i: nat)
    requires i < |rs| && rs[i].id == id && forall k :: 0 <= k < i ==> rs[k].id != id
    ensures Spec.FindRequest(rs, id) == Some(i)
  {
  }

  lemma {:induction false} FoundNowhere(rs: seq<Spec.BindingRequest>, id: nat)
    requires forall k :: 0 <= k < |rs| ==> rs[k].id != id
    ensures Spec.FindRequest(rs, id) == None
  {
  }

  lemma {:induction false} RemoteFoundAt(cs: seq<Candidate>, addr: Addr, i: nat)
    requires i < |cs| && Spec.IsAt(cs[i], addr) && forall k :: 0 <= k < i ==> !Spec.IsAt(cs[k], addr)
    ensures Spec.FindRemoteCandidate(cs, addr) == Some(cs[i])
    decreases |cs|
  {
    if i < |cs| - 1 {
      RemoteFoundAt(cs[..|cs| - 1], addr, i);
    } else {
      RemoteFoundNowhere(cs[..i], addr);
    }
  }

  lemma {:induction false} RemoteFoundNowhere(cs: seq<Candidate>, addr: Addr)
    requires forall k :: 0 <= k < |cs| ==> !Spec.IsAt(cs[k], addr)
    ensures Spec.FindRemoteCandidate(cs, addr) == None
  {
  }
}
