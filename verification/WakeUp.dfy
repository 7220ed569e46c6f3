/** The waiting/notify handshake of a muxed UDP connection, as interleaved steps: every step is one
    section under the connection's lock, or one operation on the notify channel (capacity one). */
module WakeUp {
  import opened Wrappers
  import opened PacketQueue

  /** Where a reader is: outside ReadFrom, about to take the lock, or blocked on the channels. */
  datatype ReaderState = Idle | Polling | Blocked

  /** `notifying` counts the writers that found the reader waiting and have not notified yet, and
      `delivered` are the packets that readers took out, including those too long for their buffers. */
  datatype State = State(
    q: Queue,
    token: bool,
    notifying: nat,
    readers: seq<ReaderState>,
    written: seq<Packet>,
    delivered: seq<Packet>)

  datatype Action =
    | Call(r: nat)
    | Poll(r: nat, capacity: nat)
    | Wake(r: nat)
    | SeeClosed(r: nat)
    | Write(p: Packet)
    | Notify
    | CloseConn

  function Init(readers: nat): State {
    State(Queue([], Open), false, 0, seq(readers, _ => Idle), [], [])
  }

  predicate Enabled(s: State, a: Action) {
    match a
    case Call(r) => r < |s.readers| && s.readers[r] == Idle
    case Poll(r, _) => r < |s.readers| && s.readers[r] == Polling
    case Wake(r) => r < |s.readers| && s.readers[r] == Blocked && s.token
    case SeeClosed(r) => r < |s.readers| && s.readers[r] == Blocked && s.q.state == Closed
    case Notify => s.notifying > 0
    case Write(_) | CloseConn => true
  }

  function AfterRead(s: State, r: nat, capacity: nat): State
    requires r < |s.readers|
  {
    var (q, outcome) := ReadSection(s.q, capacity);
    match outcome
    case Got(_) | TooShort => s.(q := q, delivered := s.delivered + s.q.packets[..1], readers := s.readers[r := Idle])
    case EndOfFile => s.(q := q, readers := s.readers[r := Idle])
    case Parked => s.(q := q, readers := s.readers[r := Blocked])
  }

  function AfterWrite(s: State, p: Packet): State {
    var (q, outcome) := WriteSection(s.q, p);
    match outcome
    case Err(_) => s.(q := q)
    case Ok(wake) => s.(q := q, written := s.written + [p], notifying := s.notifying + if wake then 1 else 0)
  }

  function Step(s: State, a: Action): State
    requires Enabled(s, a)
  {
    match a
    case Call(r) => s.(readers := s.readers[r := Polling])
    case Poll(r, capacity) => AfterRead(s, r, capacity)
    case Wake(r) => s.(token := false, readers := s.readers[r := Polling])
    case SeeClosed(r) => s.(readers := s.readers[r := Idle])
    case Write(p) => AfterWrite(s, p)
    case Notify => s.(notifying := s.notifying - 1, token := true)
    case CloseConn => s.(q := CloseSection(s.q))
  }

  /** The state after the actions, if each of them is possible in turn. */
  function Run(s: State, actions: seq<Action>): (r: Option<State>)
    ensures r.Some? ==> |r.value.readers| == |s.readers|
    decreases |actions|
  {
    if actions == [] then Some(s)
    else if Enabled(s, actions[0]) then Run(Step(s, actions[0]), actions[1..])
    else None
  }

  lemma RunFirst(s: State, a: Action, rest: seq<Action>)
    requires Enabled(s, a)
    ensures Run(s, [a] + rest) == Run(Step(s, a), rest)
  {
  }

  // ---- First in, first out ----

  ghost predicate QueueInv(s: State) {
    if s.q.state == Closed then s.q.packets == [] && s.delivered <= s.written
    else s.delivered + s.q.packets == s.written
  }

  lemma {:induction false} RunKeepsQueueInv(s: State, actions: seq<Action>)
    requires QueueInv(s) && Run(s, actions).Some?
    ensures QueueInv(Run(s, actions).value)
    decreases |actions|
  {
    if actions != [] {
      assert s.q.packets != [] ==> s.delivered + s.q.packets[..1] + s.q.packets[1..] == s.delivered + s.q.packets;
      RunKeepsQueueInv(Step(s, actions[0]), actions[1..]);
    }
  }

  /** Under every interleaving of any number of readers and writers, the packets come out in the
      order in which they went in; until the connection is closed, none is missing. */
  lemma DeliveredInOrder(readers: nat, actions: seq<Action>)
    requires Run(Init(readers), actions).Some?
    ensures var s := Run(Init(readers), actions).value;
            s.delivered <= s.written && (s.q.state != Closed ==> s.delivered + s.q.packets == s.written)
  {
    RunKeepsQueueInv(Init(readers), actions);
  }

  // ---- No lost wake-up ----

  /** A blocked reader with work to do is going to be woken. */
  predicate WillWake(s: State) {
    s.token || s.notifying > 0 || s.q.state == Closed
  }

  predicate WakeUpInv(s: State) {
    && |s.readers| == 1
    && (s.readers[0] == Blocked ==> s.q == Queue([], Waiting) || WillWake(s))
  }

  lemma {:induction false} RunKeepsWakeUpInv(s: State, actions: seq<Action>)
    requires WakeUpInv(s) && Run(s, actions).Some?
    ensures WakeUpInv(Run(s, actions).value)
    decreases |actions|
  {
    if actions != [] {
      RunKeepsWakeUpInv(Step(s, actions[0]), actions[1..]);
    }
  }

  /** With a single reader no wake-up is lost: if it is blocked and the queue is not empty, then a
      token is there, a writer is about to send one, or the connection is closed. */
  lemma NoLostWakeUp(actions: seq<Action>)
    requires Run(Init(1), actions).Some?
    ensures var s := Run(Init(1), actions).value;
            s.readers[0] == Blocked && s.q.packets != [] ==> WillWake(s)
  {
    RunKeepsWakeUpInv(Init(1), actions);
  }

  /** The steps of the reader and of writers that have written already. */
  predicate IsPending(a: Action) {
    a == Notify || a == Wake(0) || (a.Poll? && a.r == 0)
  }

  /** A bound on those steps. */
  function Remaining(s: State): nat
    requires |s.readers| == 1
  {
    3 * s.notifying + (if s.token then 2 else 0) + if s.readers[0] == Polling then 1 else 0
  }

  ghost predicate AtRest(s: State) {
    forall a :: IsPending(a) ==> !Enabled(s, a)
  }

  /** The reader of `s` is still to be served in `t`, or has got the oldest packet. */
  predicate ServedOrWaiting(s: State, t: State)
    requires |s.readers| == |t.readers| == 1 && s.q.packets != []
  {
    if t.readers[0] == Idle then t.delivered == s.delivered + s.q.packets[..1]
    else t.delivered == s.delivered && t.q == s.q && (t.readers[0] == Blocked ==> WillWake(t))
  }

  /** Under every schedule of the steps that are pending, without further writes, a reader blocked on a
      non-empty open queue gets the oldest packet: no schedule is longer than the bound, and one that
      cannot go on has served the reader. */
  lemma {:induction false} EveryScheduleServesReader(s: State, t: State, actions: seq<Action>)
    requires |s.readers| == |t.readers| == 1 && s.q.packets != [] && s.q.state != Closed && ServedOrWaiting(s, t)
    requires (forall k :: 0 <= k < |actions| ==> IsPending(actions[k])) && Run(t, actions).Some?
    ensures var u := Run(t, actions).value;
            && |actions| + Remaining(u) <= Remaining(t)
            && ServedOrWaiting(s, u)
            && (AtRest(u) ==> u.readers[0] == Idle && u.delivered == s.delivered + [s.q.packets[0]])
    decreases |actions|
  {
    if actions == [] {
      if t.readers[0] != Idle {
        var next := if t.readers[0] == Polling then Poll(0, 0) else if t.token then Wake(0) else Notify;
        assert IsPending(next) && Enabled(t, next);
      }
    } else {
      EveryScheduleServesReader(s, Step(t, actions[0]), actions[1..]);
    }
  }

  /** In particular from any reachable state with such a reader. */
  lemma BlockedReaderGetsOldest(before: seq<Action>, actions: seq<Action>)
    requires Run(Init(1), before).Some?
    requires var s := Run(Init(1), before).value;
             && s.readers[0] == Blocked && s.q.packets != [] && s.q.state != Closed
             && (forall k :: 0 <= k < |actions| ==> IsPending(actions[k])) && Run(s, actions).Some?
    ensures var s := Run(Init(1), before).value;
            var t := Run(s, actions).value;
            && |actions| + Remaining(t) <= Remaining(s)
            && (AtRest(t) ==> t.readers[0] == Idle && t.delivered == s.delivered + [s.q.packets[0]])
  {
    NoLostWakeUp(before);
    var s := Run(Init(1), before).value;
    EveryScheduleServesReader(s, s, actions);
  }

  /** Two or more readers can lose a wake-up: both block, two packets arrive, only the first of
      them notifies, and one reader takes one packet and leaves. */
  lemma TwoReadersCanLoseWakeUp(readers: nat, p: Packet) returns (actions: seq<Action>)
    requires readers >= 2 && |p.data| <= RECEIVE_MTU
    ensures Run(Init(readers), actions).Some?
    ensures var s := Run(Init(readers), actions).value;
            s.readers[1] == Blocked && s.q.packets != [] && !WillWake(s)
  {
    var s := Init(readers);
    var blocked := s.(q := Queue([], Waiting), readers := s.readers[0 := Blocked][1 := Blocked]);
    var tail := [Write(p)] + ([Write(p)] + ([Notify] + ([Wake(0)] + ([Poll(0, RECEIVE_MTU)] + []))));
    var t1 := Step(blocked, Write(p));
    var t2 := Step(t1, Write(p));
    var t3 := Step(t2, Notify);
    var t4 := Step(t3, Wake(0));
    assert Run(blocked, tail) == Some(Step(t4, Poll(0, RECEIVE_MTU))) by {
      RunFirst(t4, Poll(0, RECEIVE_MTU), []);
      RunFirst(t3, Wake(0), [Poll(0, RECEIVE_MTU)] + []);
      RunFirst(t2, Notify, [Wake(0)] + ([Poll(0, RECEIVE_MTU)] + []));
      RunFirst(t1, Write(p), [Notify] + ([Wake(0)] + ([Poll(0, RECEIVE_MTU)] + [])));
      RunFirst(blocked, Write(p), [Write(p)] + ([Notify] + ([Wake(0)] + ([Poll(0, RECEIVE_MTU)] + []))));
    }
    var more := BlockReader(Block(s, 0), 1, tail);
    assert Block(Block(s, 0), 1) == blocked;
    actions := BlockReader(s, 0, more);
  }

  /** The state once an idle reader has found the queue empty. */
  function Block(s: State, r: nat): State
    requires r < |s.readers|
  {
    s.(q := s.q.(state := Waiting), readers := s.readers[r := Blocked])
  }

  lemma BlockReader(s: State, r: nat, rest: seq<Action>) returns (actions: seq<Action>)
    requires r < |s.readers| && s.readers[r] == Idle && s.q.packets == [] && s.q.state != Closed
    ensures Run(s, actions) == Run(Block(s, r), rest)
  {
    actions := [Call(r)] + ([Poll(r, RECEIVE_MTU)] + rest);
    var t := Step(s, Call(r));
    RunFirst(t, Poll(r, RECEIVE_MTU), rest);
    RunFirst(s, Call(r), [Poll(r, RECEIVE_MTU)] + rest);
    assert t.readers[r := Blocked] == s.readers[r := Blocked];
  }
}
