/** The ICE agent as a step machine on values.

    Every task of the agent's task loop is one step. The imperative agent (module AgentTasks)
    is proved to compute exactly these functions; the theorems about runs are proved on them.

    Conventions:
    - A pair is identified by its position in the checklist, which only grows within a generation.
    - The transaction ID of a binding request is its position in the log of requests sent so far,
      so IDs are distinct.
    - Times are milliseconds. The current time and the time since the last packets on the selected
      pair are inputs of a step.
    - A credential stands for one ufrag/password pair; 0 is the empty one. */
module AgentSpec {
  import opened Wrappers
  import opened Candidates

  type Credential = nat

  datatype ConnectionState = Unknown | New | Checking | Connected | Disconnected | Failed

  datatype PairState = Waiting | InProgress | PairFailed | Succeeded

  datatype CandidatePair = CandidatePair(
    controlling: bool,
    local: Candidate,
    remote: Candidate,
    requestCount: uint16,
    state: PairState,
    nominated: bool,
    nominateOnSuccess: bool)
  {
    predicate SameEnds(other: CandidatePair) {
      controlling == other.controlling && local == other.local && remote == other.remote
    }

    predicate Equal(other: CandidatePair) {
      local.Equal(other.local) && remote.Equal(other.remote)
    }
  }

  function NewPair(controlling: bool, local: Candidate, remote: Candidate): CandidatePair {
    CandidatePair(controlling, local, remote, 0, Waiting, false, false)
  }

  datatype BindingRequest = BindingRequest(timestamp: int, id: nat, destination: Addr, useCandidate: bool)

  const MAX_BINDING_REQUEST_TIMEOUT: int := 4000

  /** STUN messages. A request names the credentials of both ends; a response is signed by its sender. */
  datatype Message =
    | Request(id: nat, to: Credential, from: Credential, useCandidate: bool, controlling: bool)
    | Success(id: nat, signer: Credential)
    | Indication

  datatype Packet = Packet(src: Addr, dst: Addr, msg: Message)

  datatype Config = Config(
    lite: bool,
    maxBindingRequests: uint16,
    hostWait: nat, srflxWait: nat, prflxWait: nat, relayWait: nat,
    tcpPriorityOffset: uint16,
    disconnectedTimeout: nat, failedTimeout: nat, keepaliveInterval: nat)
  {
    function AcceptanceWait(t: CandidateType): nat {
      match t
      case Host => hostWait
      case ServerReflexive => srflxWait
      case PeerReflexive => prflxWait
      case Relay => relayWait
    }
  }

  type CandidateSets = map<NetworkType, seq<Candidate>>

  function At(m: CandidateSets, n: NetworkType): seq<Candidate> {
    if n in m then m[n] else []
  }

  datatype State = State(
    config: Config,
    started: bool,
    isControlling: bool,
    connectionState: ConnectionState,
    lastContactState: ConnectionState,
    checkingSince: int,
    startTime: int,
    localCredential: Credential,
    remoteCredential: Credential,
    localCandidates: CandidateSets,
    remoteCandidates: CandidateSets,
    checklist: seq<CandidatePair>,
    selected: Option<nat>,
    nominated: Option<(Candidate, Candidate)>,
    pending: seq<BindingRequest>,
    requests: seq<Packet>,
    responses: seq<Packet>)
  {
    predicate WellFormed() {
      selected.Some? ==> selected.value < |checklist|
    }

    function Priority(p: CandidatePair): int {
      PairPriority(p.controlling, p.local.Priority(config.tcpPriorityOffset),
          p.remote.Priority(DEFAULT_TCP_PRIORITY_OFFSET))
    }

    predicate Nominatable(now: int, c: Candidate) {
      now - startTime > config.AcceptanceWait(c.candidateType)
    }
  }

  function NewAgent(config: Config, credential: Credential): State {
    State(config, false, false, New, Unknown, 0, 0, credential, 0, map[], map[], [], None, None, [], [], [])
  }

  // ---- Connection state and selected pair ----

  function ReleaseAll(s: State): State {
    s.(checklist := [], pending := [], selected := None, localCandidates := map[], remoteCandidates := map[])
  }

  function UpdateConnectionState(s: State, newState: ConnectionState): State {
    if s.connectionState == newState then s
    else (if newState == Failed then ReleaseAll(s) else s).(connectionState := newState)
  }

  function SetSelectedPair(s: State, i: nat): State
    requires i < |s.checklist|
  {
    UpdateConnectionState(
      s.(checklist := s.checklist[i := s.checklist[i].(nominated := true)], selected := Some(i)),
      Connected)
  }

  function ValidateSelectedPair(s: State, sinceReceived: nat): State {
    if s.selected.None? then s
    else
      var toFailure := if s.config.failedTimeout == 0 then 0 else s.config.failedTimeout + s.config.disconnectedTimeout;
      if toFailure != 0 && sinceReceived > toFailure then UpdateConnectionState(s, Failed)
      else if s.config.disconnectedTimeout != 0 && sinceReceived > s.config.disconnectedTimeout
          then UpdateConnectionState(s, Disconnected)
      else UpdateConnectionState(s, Connected)
  }

  // ---- Pending transactions and outgoing messages ----

  predicate Fresh(now: int, r: BindingRequest) {
    now - r.timestamp < MAX_BINDING_REQUEST_TIMEOUT
  }

  /** The requests young enough to still be answered, in order. */
  function FilterByAge(rs: seq<BindingRequest>, now: int): seq<BindingRequest> {
    if rs == [] then []
    else
      var rest := FilterByAge(rs[..|rs| - 1], now);
      if Fresh(now, rs[|rs| - 1]) then rest + [rs[|rs| - 1]] else rest
  }

  /** The first pending request with the given transaction ID. */
  function FindRequest(rs: seq<BindingRequest>, id: nat): (r: Option<nat>)
    ensures r.Some? ==> r.value < |rs| && rs[r.value].id == id
    ensures r.Some? ==> forall k :: 0 <= k < r.value ==> rs[k].id != id
    ensures r.None? ==> forall k :: 0 <= k < |rs| ==> rs[k].id != id
  {
    if rs == [] then None
    else
      match FindRequest(rs[..|rs| - 1], id)
      case Some(k) => Some(k)
      case None => if rs[|rs| - 1].id == id then Some(|rs| - 1) else None
  }

  function SendBindingRequest(s: State, now: int, local: Candidate, remote: Candidate, useCandidate: bool): State {
    var id := |s.requests|;
    var message := Request(id, s.remoteCredential, s.localCredential, useCandidate, s.isControlling);
    s.(pending := FilterByAge(s.pending, now) + [BindingRequest(now, id, remote.Resolved(), useCandidate)],
       requests := s.requests + [Packet(local.Resolved(), remote.Resolved(), message)])
  }

  function SendBindingSuccess(s: State, id: nat, local: Candidate, remote: Candidate): State {
    s.(responses := s.responses + [Packet(local.Resolved(), remote.Resolved(), Success(id, s.localCredential))])
  }

  function Ping(s: State, now: int, local: Candidate, remote: Candidate): State {
    SendBindingRequest(s, now, local, remote, false)
  }

  // ---- The checklist ----

  function PingOne(s: State, now: int, i: nat): (r: State)
    requires i < |s.checklist|
    ensures |r.checklist| == |s.checklist|
  {
    var p := s.checklist[i];
    if p.state != Waiting && p.state != InProgress then s
    else if p.requestCount > s.config.maxBindingRequests then
      s.(checklist := s.checklist[i := p.(state := PairFailed)])
    else
      var sent := Ping(s, now, p.local, p.remote);
      sent.(checklist := s.checklist[i := p.(state := InProgress, requestCount := Wrap16(p.requestCount + 1))])
  }

  /** Ping the pairs at positions below `n`, in order. */
  function PingFirst(s: State, now: int, n: nat): (r: State)
    requires n <= |s.checklist|
    ensures |r.checklist| == |s.checklist|
  {
    if n == 0 then s else PingOne(PingFirst(s, now, n - 1), now, n - 1)
  }

  function PingAllCandidates(s: State, now: int): State {
    PingFirst(s, now, |s.checklist|)
  }

  predicate Available(p: CandidatePair) { p.state != PairFailed }

  predicate IsValidPair(p: CandidatePair) { p.state == Succeeded }

  /** Position `b` holds the first pair of highest priority among those accepted below `n`. */
  ghost predicate IsBest(s: State, accept: CandidatePair -> bool, n: nat, b: Option<nat>)
    requires n <= |s.checklist|
  {
    match b
    case None => forall k :: 0 <= k < n ==> !accept(s.checklist[k])
    case Some(i) =>
      && i < n && accept(s.checklist[i])
      && (forall k :: 0 <= k < n && accept(s.checklist[k]) ==> s.Priority(s.checklist[k]) <= s.Priority(s.checklist[i]))
      && (forall k :: 0 <= k < i && accept(s.checklist[k]) ==> s.Priority(s.checklist[k]) < s.Priority(s.checklist[i]))
  }

  function BestPairFrom(s: State, accept: CandidatePair -> bool, n: nat): (b: Option<nat>)
    requires n <= |s.checklist|
    ensures b.Some? ==> b.value < n && accept(s.checklist[b.value])
  {
    if n == 0 then None
    else
      var b := BestPairFrom(s, accept, n - 1);
      if !accept(s.checklist[n - 1]) then b
      else if b.None? || s.Priority(s.checklist[b.value]) < s.Priority(s.checklist[n - 1]) then Some(n - 1)
      else b
  }

  lemma {:induction false} BestPairFromIsBest(s: State, accept: CandidatePair -> bool, n: nat)
    requires n <= |s.checklist|
    ensures IsBest(s, accept, n, BestPairFrom(s, accept, n))
  {
    hide State.Priority;
    if n > 0 {
      BestPairFromIsBest(s, accept, n - 1);
    }
  }

  function BestAvailable(s: State): (b: Option<nat>)
    ensures b.Some? ==> b.value < |s.checklist| && Available(s.checklist[b.value])
  {
    BestPairFrom(s, Available, |s.checklist|)
  }

  function BestValid(s: State): (b: Option<nat>)
    ensures b.Some? ==> b.value < |s.checklist| && IsValidPair(s.checklist[b.value])
  {
    BestPairFrom(s, IsValidPair, |s.checklist|)
  }

  predicate Matches(p: CandidatePair, local: Candidate, remote: Candidate) {
    p.local.Equal(local) && p.remote.Equal(remote)
  }

  function FindPair(ps: seq<CandidatePair>, local: Candidate, remote: Candidate): (r: Option<nat>)
    ensures r.Some? ==> r.value < |ps| && Matches(ps[r.value], local, remote)
    ensures r.Some? ==> forall k :: 0 <= k < r.value ==> !Matches(ps[k], local, remote)
    ensures r.None? ==> forall k :: 0 <= k < |ps| ==> !Matches(ps[k], local, remote)
  {
    if ps == [] then None
    else
      match FindPair(ps[..|ps| - 1], local, remote)
      case Some(k) => Some(k)
      case None => if Matches(ps[|ps| - 1], local, remote) then Some(|ps| - 1) else None
  }

  function AddPair(s: State, local: Candidate, remote: Candidate): State {
    s.(checklist := s.checklist + [NewPair(s.isControlling, local, remote)])
  }

  /** Is a candidate Equal to `c` among `cs`? */
  predicate Contains(cs: seq<Candidate>, c: Candidate) {
    exists k :: 0 <= k < |cs| && cs[k].Equal(c)
  }

  function PairsWithRemotes(controlling: bool, c: Candidate, rs: seq<Candidate>): (ps: seq<CandidatePair>)
    ensures |ps| == |rs| && forall k :: 0 <= k < |rs| ==> ps[k] == NewPair(controlling, c, rs[k])
  {
    seq(|rs|, k requires 0 <= k < |rs| => NewPair(controlling, c, rs[k]))
  }

  function PairsWithLocals(controlling: bool, ls: seq<Candidate>, c: Candidate): (ps: seq<CandidatePair>)
    ensures |ps| == |ls| && forall k :: 0 <= k < |ls| ==> ps[k] == NewPair(controlling, ls[k], c)
  {
    seq(|ls|, k requires 0 <= k < |ls| => NewPair(controlling, ls[k], c))
  }

  function AddLocalCandidate(s: State, c: Candidate): State {
    var known := At(s.localCandidates, c.networkType);
    if Contains(known, c) then s
    else
      s.(localCandidates := s.localCandidates[c.networkType := known + [c]],
         checklist := s.checklist + PairsWithRemotes(s.isControlling, c, At(s.remoteCandidates, c.networkType)))
  }

  function AddRemoteCandidate(s: State, c: Candidate): State {
    var known := At(s.remoteCandidates, c.networkType);
    if Contains(known, c) then s
    else
      s.(remoteCandidates := s.remoteCandidates[c.networkType := known + [c]],
         checklist := s.checklist +
           if c.tcpType == Passive then []
           else PairsWithLocals(s.isControlling, At(s.localCandidates, c.networkType), c))
  }

  // ---- Timer contact ----

  datatype Clock = Clock(now: int, sinceSent: nat, sinceReceived: nat)

  function CheckKeepalive(s: State, clock: Clock): State
    requires s.WellFormed()
  {
    if s.selected.None? then s
    else
      var p := s.checklist[s.selected.value];
      if s.config.keepaliveInterval != 0
          && (clock.sinceSent > s.config.keepaliveInterval || clock.sinceReceived > s.config.keepaliveInterval)
      then Ping(s, clock.now, p.local, p.remote)
      else s
  }

  function NominatePair(s: State, now: int, local: Candidate, remote: Candidate): State {
    SendBindingRequest(s, now, local, remote, true)
  }

  function ValidateAndKeepAlive(s: State, clock: Clock): State
    requires s.WellFormed()
  {
    CheckKeepalive(ValidateSelectedPair(s, clock.sinceReceived), clock)
  }

  function ContactCandidatesControlling(s: State, clock: Clock): State
    requires s.WellFormed()
  {
    if s.selected.Some? then ValidateAndKeepAlive(s, clock)
    else if s.nominated.Some? then NominatePair(s, clock.now, s.nominated.value.0, s.nominated.value.1)
    else
      match BestValid(s)
      case Some(i) =>
        var p := s.checklist[i];
        if s.Nominatable(clock.now, p.local) && s.Nominatable(clock.now, p.remote) then
          NominatePair(
            s.(checklist := s.checklist[i := p.(nominated := true)], nominated := Some((p.local, p.remote))),
            clock.now, p.local, p.remote)
        else PingAllCandidates(s, clock.now)
      case None => PingAllCandidates(s, clock.now)
  }

  function ContactCandidatesControlled(s: State, clock: Clock): State
    requires s.WellFormed()
  {
    if s.config.lite then ValidateSelectedPair(s, clock.sinceReceived)
    else if s.selected.Some? then ValidateAndKeepAlive(s, clock)
    else PingAllCandidates(s, clock.now)
  }

  function ContactCandidates(s: State, clock: Clock): State
    requires s.WellFormed()
  {
    if s.isControlling then ContactCandidatesControlling(s, clock) else ContactCandidatesControlled(s, clock)
  }

  function Contact(s: State, clock: Clock): State
    requires s.WellFormed()
  {
    var r :=
      if s.connectionState == Failed then s
      else if s.connectionState == Checking then
        var t := s.(checkingSince := if s.lastContactState != Checking then clock.now else s.checkingSince);
        if clock.now - t.checkingSince > s.config.disconnectedTimeout + s.config.failedTimeout
        then UpdateConnectionState(t, Failed)
        else ContactCandidates(t, clock)
      else ContactCandidates(s, clock);
    r.(lastContactState := r.connectionState)
  }

  // ---- Inbound messages ----

  predicate IsAt(c: Candidate, addr: Addr) {
    c.address == addr.ip && c.port == addr.port
  }

  function FindRemoteCandidate(cs: seq<Candidate>, addr: Addr): (r: Option<Candidate>)
    ensures r.Some? ==>
              exists k :: 0 <= k < |cs| && cs[k] == r.value && IsAt(r.value, addr)
                  && forall j :: 0 <= j < k ==> !IsAt(cs[j], addr)
    ensures r.None? ==> forall k :: 0 <= k < |cs| ==> !IsAt(cs[k], addr)
  {
    if cs == [] then None
    else
      match FindRemoteCandidate(cs[..|cs| - 1], addr)
      case Some(c) => Some(c)
      case None => if IsAt(cs[|cs| - 1], addr) then Some(cs[|cs| - 1]) else None
  }

  function PeerReflexiveAt(addr: Addr, component: uint16): Candidate {
    Candidate(addr.networkType, PeerReflexive, component, addr.ip, addr.port, Some(RelatedAddress("", 0)),
        Unspecified, "", 0)
  }

  function RequestToControlling(s: State, now: int, m: Message, local: Candidate, remote: Candidate): State
    requires m.Request?
  {
    var t := SendBindingSuccess(s, m.id, local, remote);
    match FindPair(t.checklist, local, remote)
    case None => AddPair(t, local, remote)
    case Some(i) =>
      var p := t.checklist[i];
      if p.state == Succeeded && t.nominated.None? && t.selected.None? then
        match BestAvailable(t)
        case None => t
        case Some(b) =>
          if t.checklist[b].Equal(p) && t.Nominatable(now, p.local) && t.Nominatable(now, p.remote) then
            NominatePair(t.(nominated := Some((p.local, p.remote))), now, p.local, p.remote)
          else t
      else t
  }

  /** The controlled agent switches when nothing is selected, or to another pair of no lower priority. */
  function SelectIfBetter(s: State, i: nat): State
    requires s.WellFormed() && i < |s.checklist|
  {
    if s.selected.None? || (s.selected.value != i
        && s.Priority(s.checklist[s.selected.value]) <= s.Priority(s.checklist[i]))
    then SetSelectedPair(s, i)
    else s
  }

  function RequestToControlled(s: State, now: int, m: Message, local: Candidate, remote: Candidate): State
    requires s.WellFormed() && m.Request?
  {
    var found := FindPair(s.checklist, local, remote);
    var t := if found.None? then AddPair(s, local, remote) else s;
    var i := if found.None? then |s.checklist| else found.value;
    var u :=
      if !m.useCandidate then t
      else if t.checklist[i].state == Succeeded then SelectIfBetter(t, i)
      else t.(checklist := t.checklist[i := t.checklist[i].(nominateOnSuccess := true)]);
    Ping(SendBindingSuccess(u, m.id, local, remote), now, local, remote)
  }

  function HandleRequest(s: State, now: int, m: Message, local: Candidate, src: Addr): State
    requires s.WellFormed() && m.Request?
  {
    if m.to != s.localCredential || m.from != s.remoteCredential then s
    else
      var known := FindRemoteCandidate(At(s.remoteCandidates, local.networkType), src);
      var remote := if known.Some? then known.value else PeerReflexiveAt(src, local.component);
      var t := if known.Some? then s else AddRemoteCandidate(s, remote);
      if s.isControlling then RequestToControlling(t, now, m, local, remote)
      else RequestToControlled(t, now, m, local, remote)
  }

  /** Drop the expired requests, then take the one with this ID out of the pending list. */
  function TakePending(s: State, now: int, id: nat): (r: (Option<BindingRequest>, State)) {
    var live := FilterByAge(s.pending, now);
    match FindRequest(live, id)
    case None => (None, s.(pending := live))
    case Some(k) => (Some(live[k]), s.(pending := live[..k] + live[k + 1..]))
  }

  function MarkSucceeded(s: State, i: nat): State
    requires i < |s.checklist|
  {
    s.(checklist := s.checklist[i := s.checklist[i].(state := Succeeded)])
  }

  /** What both roles do on a valid response on pair `i`. */
  function AcceptResponse(s: State, i: nat, useCandidate: bool): State
    requires s.WellFormed() && i < |s.checklist|
  {
    var t := MarkSucceeded(s, i);
    if s.isControlling then
      if useCandidate && t.selected.None? then SetSelectedPair(t, i) else t
    else
      if t.checklist[i].nominateOnSuccess then SelectIfBetter(t, i) else t
  }

  function HandleSuccess(s: State, now: int, m: Message, local: Candidate, src: Addr): State
    requires s.WellFormed() && m.Success?
  {
    var remote := FindRemoteCandidate(At(s.remoteCandidates, local.networkType), src);
    if m.signer != s.remoteCredential || remote.None? then s
    else
      var (request, t) := TakePending(s, now, m.id);
      if request.None? || request.value.destination != src then t
      else
        match FindPair(t.checklist, local, remote.value)
        case None => t
        case Some(i) => AcceptResponse(t, i, request.value.useCandidate)
  }

  /** Messages that claim the receiver's own role are dropped. */
  predicate RoleConflict(s: State, m: Message) {
    m.Request? && if s.isControlling then m.controlling || m.useCandidate else !m.controlling
  }

  function Inbound(s: State, now: int, m: Message, local: Candidate, src: Addr): State
    requires s.WellFormed()
  {
    if RoleConflict(s, m) then s
    else if m.Success? then HandleSuccess(s, now, m, local, src)
    else if m.Request? then HandleRequest(s, now, m, local, src)
    else s
  }

  // ---- Start and restart ----

  function SetRemoteCredentials(s: State, remote: Credential): State {
    if remote == 0 then s else s.(remoteCredential := remote)
  }

  function StartChecks(s: State, now: int, controlling: bool, remote: Credential): State {
    if s.started || remote == 0 then s
    else
      UpdateConnectionState(
        s.(remoteCredential := remote, isControlling := controlling, started := true,
           startTime := if controlling then now else s.startTime,
           nominated := if controlling then None else s.nominated),
        Checking)
  }

  function Restart(s: State, now: int, credential: Credential): State {
    var t := ReleaseAll(s.(localCredential := credential, remoteCredential := 0));
    var u := if t.started && t.isControlling then t.(startTime := now, nominated := None) else t;
    if u.connectionState != New then UpdateConnectionState(u, Checking) else u
  }

  // ---- Steps and runs ----

  datatype Event =
    | StartEvent(now: int, controlling: bool, remote: Credential)
    | RemoteCredentialsEvent(remote: Credential)
    | AddLocalEvent(c: Candidate)
    | AddRemoteEvent(c: Candidate)
    | ContactEvent(clock: Clock)
    | InboundEvent(now: int, m: Message, local: Candidate, src: Addr)
    | RestartEvent(now: int, credential: Credential)

  /** When the environment can cause the event: the timer and the sockets only run once checks have
      started, and a message arrives on a live local candidate from an address of the same network. */
  predicate Enabled(s: State, e: Event) {
    match e
    case ContactEvent(_) => s.started
    case InboundEvent(_, _, local, src) =>
      s.started && local in At(s.localCandidates, local.networkType) && src.networkType == local.networkType
    case RestartEvent(_, credential) => credential != 0
    case _ => true
  }

  function Step(s: State, e: Event): (r: State)
    requires s.WellFormed()
  {
    match e
    case StartEvent(now, controlling, remote) => StartChecks(s, now, controlling, remote)
    case RemoteCredentialsEvent(remote) => SetRemoteCredentials(s, remote)
    case AddLocalEvent(c) => AddLocalCandidate(s, c)
    case AddRemoteEvent(c) => if c.tcpType == Active then s else AddRemoteCandidate(s, c)
    case ContactEvent(clock) => Contact(s, clock)
    case InboundEvent(now, m, local, src) => Inbound(s, now, m, local, src)
    case RestartEvent(now, credential) => Restart(s, now, credential)
  }

  /** `run` is the sequence of states that the events produce from its first state. */
  ghost predicate IsRun(run: seq<State>, events: seq<Event>) {
    && |run| == |events| + 1
    && forall k :: 0 <= k < |events| ==>
         run[k].WellFormed() && Enabled(run[k], events[k]) && run[k + 1] == Step(run[k], events[k])
  }
}
