/** The notifier of the ICE agent's event handlers: three queues behind one lock and one `running`
    flag, with enqueuers and notification loops interleaved at the granularity of the lock. */
module HandlerNotifier {
  import opened Wrappers

  datatype Kind = ConnectionState | CandidateFound | PairSelected

  // ---- Lock sections ----

  datatype Shared<T> = Shared(running: bool, states: seq<T>, candidates: seq<T>, pairs: seq<T>)
  {
    function Of(k: Kind): seq<T> {
      match k
      case ConnectionState => states
      case CandidateFound => candidates
      case PairSelected => pairs
    }

    function With(k: Kind, queue: seq<T>): Shared<T> {
      match k
      case ConnectionState => this.(states := queue)
      case CandidateFound => this.(candidates := queue)
      case PairSelected => this.(pairs := queue)
    }
  }

  /** The result says whether a notification loop of this kind is started. */
  function EnqueueSection<T>(q: Shared<T>, k: Kind, x: T): (Shared<T>, bool) {
    (q.With(k, q.Of(k) + [x]).(running := true), !q.running)
  }

  /** One turn of a notification loop: the next notification, or the end of the loop. */
  function TurnSection<T>(q: Shared<T>, k: Kind): (Shared<T>, Option<T>) {
    if q.Of(k) == [] then (q.(running := false), None) else (q.With(k, q.Of(k)[1..]), Some(q.Of(k)[0]))
  }

  class Notifier<T(==)> {
    var running: bool
    var connectionStates: seq<T>
    var candidates: seq<T>
    var selectedCandidatePairs: seq<T>

    ghost function Protected(): Shared<T>
      reads this
    {
      Shared(running, connectionStates, candidates, selectedCandidatePairs)
    }

    constructor ()
      ensures Protected() == Shared(false, [], [], [])
    {
      running, connectionStates, candidates, selectedCandidatePairs := false, [], [], [];
    }

    method Enqueue(k: Kind, x: T) returns (start: bool)
      modifies this
      ensures (Protected(), start) == EnqueueSection(old(Protected()), k, x)
    {
      match k {
        case ConnectionState => connectionStates := connectionStates + [x];
        case CandidateFound => candidates := candidates + [x];
        case PairSelected => selectedCandidatePairs := selectedCandidatePairs + [x];
      }
      start := !running;
      if start { running := true; }
    }

    method Turn(k: Kind) returns (x: Option<T>)
      modifies this
      ensures (Protected(), x) == TurnSection(old(Protected()), k)
    {
      var queue := match k
        case ConnectionState => connectionStates
        case CandidateFound => candidates
        case PairSelected => selectedCandidatePairs;
      if |queue| == 0 {
        running := false;
        return None;
      }
      match k {
        case ConnectionState => connectionStates := queue[1..];
        case CandidateFound => candidates := queue[1..];
        case PairSelected => selectedCandidatePairs := queue[1..];
      }
      return Some(queue[0]);
    }
  }

  // ---- Threads ----

  /** A notification loop, at its top or inside the handler. */
  datatype Loop<T> = AtTop(kind: Kind) | Calling(kind: Kind, x: T)

  datatype Event<T> = Event(kind: Kind, x: T)

  datatype State<T> = State(q: Shared<T>, loops: seq<Loop<T>>, delivered: seq<Event<T>>, enqueued: seq<Event<T>>)

  datatype Step<T> = Enqueue(k: Kind, x: T) | Turn(i: nat) | Return(i: nat)

  predicate Enabled<T>(s: State<T>, step: Step<T>) {
    match step
    case Enqueue(_, _) => true
    case Turn(i) => i < |s.loops| && s.loops[i].AtTop?
    case Return(i) => i < |s.loops| && s.loops[i].Calling?
  }

  function Next<T>(s: State<T>, step: Step<T>): State<T>
    requires Enabled(s, step)
  {
    match step
    case Enqueue(k, x) =>
      var (q, start) := EnqueueSection(s.q, k, x);
      s.(q := q, enqueued := s.enqueued + [Event(k, x)], loops := if start then s.loops + [AtTop(k)] else s.loops)
    case Turn(i) =>
      var k := s.loops[i].kind;
      var (q, x) := TurnSection(s.q, k);
      s.(q := q, loops := if x.Some? then s.loops[i := Calling(k, x.value)] else s.loops[..i] + s.loops[i + 1..])
    case Return(i) =>
      s.(delivered := s.delivered + [Event(s.loops[i].kind, s.loops[i].x)],
          loops := s.loops[i := AtTop(s.loops[i].kind)])
  }

  function Initial<T>(): State<T> {
    State(Shared(false, [], [], []), [], [], [])
  }

  ghost predicate IsRun<T>(states: seq<State<T>>, steps: seq<Step<T>>) {
    && |states| == |steps| + 1
    && forall i :: 0 <= i < |steps| ==> Enabled(states[i], steps[i]) && states[i + 1] == Next(states[i], steps[i])
  }

  // ---- Order ----

  /** The events of one kind. */
  function OfKind<T>(events: seq<Event<T>>, k: Kind): seq<T> {
    if events == [] then []
    else
      var last := events[|events| - 1];
      OfKind(events[..|events| - 1], k) + if last.kind == k then [last.x] else []
  }

  lemma OfKindSnoc<T>(events: seq<Event<T>>, e: Event<T>, k: Kind)
    ensures OfKind(events + [e], k) == OfKind(events, k) + if e.kind == k then [e.x] else []
  {
  }

  function InFlight<T>(loops: seq<Loop<T>>, k: Kind): seq<T> {
    if loops == [] then []
    else (if loops[0].Calling? && loops[0].kind == k then [loops[0].x] else []) + InFlight(loops[1..], k)
  }

  ghost predicate InOrder<T>(s: State<T>, k: Kind) {
    OfKind(s.delivered, k) + InFlight(s.loops, k) + s.q.Of(k) == OfKind(s.enqueued, k)
  }

  ghost predicate Inv<T>(s: State<T>) {
    && |s.loops| == (if s.q.running then 1 else 0)
    && forall k :: InOrder(s, k)
  }

  lemma InFlightOfOne<T>(loops: seq<Loop<T>>, k: Kind)
    requires |loops| <= 1
    ensures InFlight(loops, k) == if loops != [] && loops[0].Calling? && loops[0].kind == k then [loops[0].x] else []
  {
  }

  lemma EnqueueKeepsOrder<T>(s: State<T>, kind: Kind, x: T, k: Kind)
    requires |s.loops| == (if s.q.running then 1 else 0) && InOrder(s, k)
    ensures InOrder(Next(s, Enqueue(kind, x)), k)
  {
    hide InFlight, OfKind;
    var t := Next(s, Enqueue(kind, x));
    OfKindSnoc(s.enqueued, Event(kind, x), k);
    InFlightOfOne(s.loops, k);
    InFlightOfOne(t.loops, k);
    assert InFlight(t.loops, k) == InFlight(s.loops, k);
    if kind == k {
      var df := OfKind(s.delivered, k) + InFlight(s.loops, k);
      assert t.q.Of(k) == s.q.Of(k) + [x];
      assert df + (s.q.Of(k) + [x]) == df + s.q.Of(k) + [x];
    } else {
      assert t.q.Of(k) == s.q.Of(k);
    }
  }

  lemma TurnKeepsOrder<T>(s: State<T>, k: Kind)
    requires |s.loops| == 1 && s.loops[0].AtTop? && InOrder(s, k)
    ensures InOrder(Next(s, Turn(0)), k)
  {
    hide InFlight, OfKind;
    var t := Next(s, Turn(0));
    InFlightOfOne(s.loops, k);
    InFlightOfOne(t.loops, k);
    var q := s.q.Of(k);
    TurnMovesOne(s.q, s.loops[0].kind, k);
    assert t.loops == if s.q.Of(s.loops[0].kind) == [] then []
      else [Calling(s.loops[0].kind, s.q.Of(s.loops[0].kind)[0])];
    hide Shared.Of, TurnSection, Next;
    assert t.delivered == s.delivered && t.enqueued == s.enqueued;
    if s.loops[0].kind == k && q != [] {
      TakeFromFront(OfKind(s.delivered, k), q);
    }
  }

  lemma TurnMovesOne<T>(q: Shared<T>, kind: Kind, k: Kind)
    ensures TurnSection(q, kind).0.Of(k) == if kind == k && q.Of(k) != [] then q.Of(k)[1..] else q.Of(k)
  {
  }

  lemma TakeFromFront<T>(d: seq<T>, q: seq<T>)
    requires q != []
    ensures d + [] + q == d + [q[0]] + q[1..]
  {
  }

  lemma ReturnKeepsOrder<T>(s: State<T>, k: Kind)
    requires |s.loops| == 1 && s.loops[0].Calling? && InOrder(s, k)
    ensures InOrder(Next(s, Return(0)), k)
  {
    hide InFlight, OfKind;
    var t := Next(s, Return(0));
    InFlightOfOne(s.loops, k);
    InFlightOfOne(t.loops, k);
    OfKindSnoc(s.delivered, Event(s.loops[0].kind, s.loops[0].x), k);
    assert OfKind(t.delivered, k) + [] == OfKind(s.delivered, k) + InFlight(s.loops, k);
  }

  lemma StepKeepsInv<T>(s: State<T>, step: Step<T>)
    requires Inv(s) && Enabled(s, step)
    ensures Inv(Next(s, step))
  {
    forall k
      ensures InOrder(Next(s, step), k)
    {
      assert InOrder(s, k);
      match step
      case Enqueue(kind, x) => EnqueueKeepsOrder(s, kind, x, k);
      case Turn(_) => TurnKeepsOrder(s, k);
      case Return(_) => ReturnKeepsOrder(s, k);
    }
  }

  /** In every run at most one handler is called at a time, and for each kind the delivered, current
      and queued notifications are all the enqueued ones in order. */
  lemma {:induction false} SerialAndInOrder<T>(states: seq<State<T>>, steps: seq<Step<T>>, i: nat)
    requires IsRun(states, steps) && states[0] == Initial() && i < |states|
    ensures Inv(states[i])
  {
    if i > 0 {
      SerialAndInOrder(states, steps, i - 1);
      StepKeepsInv(states[i - 1], steps[i - 1]);
    } else {
      forall k: Kind
        ensures InOrder(states[0], k)
      {
      }
    }
  }

  // ---- Stranded notifications ----

  /** A notification waits and no loop of its kind is running. */
  ghost predicate Stranded<T>(s: State<T>, k: Kind) {
    s.q.Of(k) != [] && forall i :: 0 <= i < |s.loops| ==> s.loops[i].kind != k
  }

  ghost predicate NoneStranded<T>(s: State<T>) {
    forall k :: !Stranded(s, k)
  }

  /** An enqueuer strands its notification exactly when a loop of another kind is running. */
  lemma EnqueueStrandsIff<T>(s: State<T>, k: Kind, x: T)
    requires Inv(s) && NoneStranded(s)
    ensures NoneStranded(Next(s, Enqueue(k, x))) <==> !(s.q.running && s.loops[0].kind != k)
  {
    var t := Next(s, Enqueue(k, x));
    assert t.q.Of(k) == s.q.Of(k) + [x];
    forall k' | k' != k
      ensures !Stranded(t, k')
    {
      assert !Stranded(s, k') && t.q.Of(k') == s.q.Of(k');
    }
    if s.q.running && s.loops[0].kind != k {
      assert Stranded(t, k);
    } else {
      assert t.loops[0].kind == k;
      assert !Stranded(t, k);
    }
  }

  lemma LoopStepKeepsNoneStranded<T>(s: State<T>, step: Step<T>)
    requires Inv(s) && NoneStranded(s) && Enabled(s, step) && !step.Enqueue?
    ensures NoneStranded(Next(s, step))
  {
    var t := Next(s, step);
    forall k
      ensures !Stranded(t, k)
    {
      assert !Stranded(s, k);
      assert s.q.Of(k) != [] ==> s.loops[0].kind == k;
      assert t.loops != [] ==> t.loops[0].kind == s.loops[0].kind;
    }
  }

  /** A notifier that is used for one kind only, as each of the agent's three is, strands nothing:
      whenever its queue is non-empty, a loop is running. */
  lemma {:induction false} SingleKindNeverStrands<T>(states: seq<State<T>>, steps: seq<Step<T>>, kind: Kind, i: nat)
    requires IsRun(states, steps) && states[0] == Initial() && i < |states|
    requires forall j :: 0 <= j < |steps| && steps[j].Enqueue? ==> steps[j].k == kind
    ensures Inv(states[i]) && NoneStranded(states[i])
    ensures forall j :: 0 <= j < |states[i].loops| ==> states[i].loops[j].kind == kind
    ensures states[i].q.Of(kind) != [] ==> states[i].q.running
  {
    SerialAndInOrder(states, steps, i);
    if i > 0 {
      SingleKindNeverStrands(states, steps, kind, i - 1);
      var s, step := states[i - 1], steps[i - 1];
      if step.Enqueue? {
        EnqueueStrandsIff(s, kind, step.x);
      } else {
        LoopStepKeepsNoneStranded(s, step);
      }
    }
    assert !Stranded(states[i], kind);
  }

  /** One notifier for two kinds: a connection state that arrives while a candidate is being handled
      is still waiting when every thread has come to rest. */
  lemma MixedKindsCanStrand<T>(x: T, y: T)
    ensures var s0 := Initial();
            var s1 := Next(s0, Enqueue(CandidateFound, x));
            var s2 := Next(s1, Enqueue(ConnectionState, y));
            var s3 := Next(s2, Turn(0));
            var s4 := Next(s3, Return(0));
            var s5 := Next(s4, Turn(0));
            s5.loops == [] && !s5.q.running && s5.q.Of(ConnectionState) == [y]
  {
  }

  // ---- Progress ----

  function Remaining<T>(s: State<T>): nat {
    2 * |s.q.states| + 2 * |s.q.candidates| + 2 * |s.q.pairs|
        + (if s.loops == [] then 0 else if s.loops[0].AtTop? then 1 else 2)
  }

  ghost predicate Idle<T(!new)>(s: State<T>) {
    forall step :: Enabled(s, step) ==> step.Enqueue?
  }

  function LoopStep<T>(s: State<T>): (step: Step<T>)
    requires s.loops != []
    ensures Enabled(s, step) && !step.Enqueue?
  {
    if s.loops[0].AtTop? then Turn(0) else Return(0)
  }

  lemma IdleMeansDelivered<T(!new)>(s: State<T>, k: Kind)
    requires Inv(s) && NoneStranded(s) && Idle(s)
    ensures OfKind(s.delivered, k) == OfKind(s.enqueued, k)
  {
    if s.loops != [] {
      var step := LoopStep(s);
      assert false;
    }
    assert !Stranded(s, k) && InOrder(s, k);
    assert OfKind(s.delivered, k) + [] + [] == OfKind(s.enqueued, k);
  }

  /** When nothing is stranded and nothing more is enqueued, the loops come to rest after a bounded
      number of steps, and then every notification has been delivered in order. */
  lemma {:induction false} EverythingIsDelivered<T(!new)>(states: seq<State<T>>, steps: seq<Step<T>>)
    requires IsRun(states, steps) && Inv(states[0]) && NoneStranded(states[0])
    requires forall i :: 0 <= i < |steps| ==> !steps[i].Enqueue?
    ensures var s := states[|steps|];
            && Inv(s) && NoneStranded(s)
            && |steps| + Remaining(s) <= Remaining(states[0])
            && s.enqueued == states[0].enqueued
            && (Idle(s) ==> forall k :: OfKind(s.delivered, k) == OfKind(states[0].enqueued, k))
  {
    var n := |steps|;
    if n > 0 {
      EverythingIsDelivered(states[..n], steps[..n - 1]);
      StepKeepsInv(states[n - 1], steps[n - 1]);
      LoopStepKeepsNoneStranded(states[n - 1], steps[n - 1]);
    }
    if Idle(states[n]) {
      forall k: Kind
        ensures OfKind(states[n].delivered, k) == OfKind(states[n].enqueued, k)
      {
        IdleMeansDelivered(states[n], k);
      }
    }
  }
}
