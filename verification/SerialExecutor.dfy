/** The operations queue: enqueuers and runners interleaved at the granularity of its lock. */
module SerialExecutor {
  import opened Wrappers

  // ---- Lock sections ----

  /** What the lock protects. */
  datatype Shared<T> = Shared(busy: bool, ops: seq<T>)

  /** Appends an operation; the result says whether a runner must be started. */
  function EnqueueSection<T>(q: Shared<T>, op: T): (Shared<T>, bool) {
    (Shared(true, q.ops + [op]), !q.busy)
  }

  function PopSection<T>(q: Shared<T>): (Shared<T>, Option<T>) {
    if q.ops == [] then (q, None) else (q.(ops := q.ops[1..]), Some(q.ops[0]))
  }

  /** The end of a runner; the result says whether another one takes over. */
  function ExitSection<T>(q: Shared<T>): (Shared<T>, bool) {
    if q.ops == [] then (q.(busy := false), false) else (q, true)
  }

  class Operations<T(==)> {
    var busy: bool
    var ops: seq<T>

    ghost function Protected(): Shared<T>
      reads this
    {
      Shared(busy, ops)
    }

    constructor ()
      ensures Protected() == Shared(false, [])
    {
      busy, ops := false, [];
    }

    /** A missing operation is ignored. */
    method Enqueue(op: Option<T>) returns (start: bool)
      modifies this
      ensures op.Some? ==> (Protected(), start) == EnqueueSection(old(Protected()), op.value)
      ensures op.None? ==> Protected() == old(Protected()) && !start
    {
      if op.None? { return false; }
      var running := busy;
      ops := ops + [op.value];
      busy := true;
      return !running;
    }

    method Pop() returns (op: Option<T>)
      modifies this`ops
      ensures (Protected(), op) == PopSection(old(Protected()))
    {
      if |ops| == 0 { return None; }
      op := Some(ops[0]);
      ops := ops[1..];
    }

    method Exit() returns (again: bool)
      modifies this`busy
      ensures (Protected(), again) == ExitSection(old(Protected()))
    {
      if |ops| == 0 {
        busy := false;
        return false;
      }
      return true;
    }
  }

  // ---- Threads ----

  /** Where a runner is: before taking an operation, inside one, or past its loop. */
  datatype Runner<T> = AtPop | Running(op: T) | AtExit

  /** `starters` counts the enqueuers that have left the lock and not started their runner yet. */
  datatype State<T> = State(q: Shared<T>, starters: nat, runners: seq<Runner<T>>, executed: seq<T>, enqueued: seq<T>)

  datatype Step<T> =
    | Enqueue(op: T)
    | Start
    | Pop(i: nat)
    | Return(i: nat)
    | Panic(i: nat)
    | Exit(i: nat)

  predicate Enabled<T>(s: State<T>, step: Step<T>) {
    match step
    case Enqueue(_) => true
    case Start => s.starters > 0
    case Pop(i) => i < |s.runners| && s.runners[i].AtPop?
    case Return(i) => i < |s.runners| && s.runners[i].Running?
    case Panic(i) => i < |s.runners| && s.runners[i].Running?
    case Exit(i) => i < |s.runners| && s.runners[i].AtExit?
  }

  function Next<T>(s: State<T>, step: Step<T>): State<T>
    requires Enabled(s, step)
  {
    match step
    case Enqueue(op) =>
      var (q, start) := EnqueueSection(s.q, op);
      s.(q := q, enqueued := s.enqueued + [op], starters := if start then s.starters + 1 else s.starters)
    case Start => s.(starters := s.starters - 1, runners := s.runners + [AtPop])
    case Pop(i) =>
      var (q, op) := PopSection(s.q);
      s.(q := q, runners := s.runners[i := if op.Some? then Running(op.value) else AtExit])
    case Return(i) => s.(executed := s.executed + [s.runners[i].op], runners := s.runners[i := AtPop])
    case Panic(i) => s.(executed := s.executed + [s.runners[i].op], runners := s.runners[i := AtExit])
    case Exit(i) =>
      var (q, again) := ExitSection(s.q);
      s.(q := q, runners := if again then s.runners[i := AtPop] else s.runners[..i] + s.runners[i + 1..])
  }

  function Initial<T>(): State<T> {
    State(Shared(false, []), 0, [], [], [])
  }

  ghost predicate IsRun<T>(states: seq<State<T>>, steps: seq<Step<T>>) {
    && |states| == |steps| + 1
    && forall i :: 0 <= i < |steps| ==> Enabled(states[i], steps[i]) && states[i + 1] == Next(states[i], steps[i])
  }

  // ---- Safety ----

  function InFlight<T>(runners: seq<Runner<T>>): seq<T> {
    if runners == [] then [] else (if runners[0].Running? then [runners[0].op] else []) + InFlight(runners[1..])
  }

  ghost predicate Inv<T>(s: State<T>) {
    && s.starters + |s.runners| == (if s.q.busy then 1 else 0)
    && (s.q.ops != [] ==> s.q.busy)
    && s.executed + InFlight(s.runners) + s.q.ops == s.enqueued
  }

  lemma StepKeepsInv<T>(s: State<T>, step: Step<T>)
    requires Inv(s) && Enabled(s, step)
    ensures Inv(Next(s, step))
  {
  }

  /** At every moment of every run at most one runner exists or is about to, a non-empty queue has
      one, and executed, running and queued operations are all the enqueued ones in order. */
  lemma {:induction false} SerialAndInOrder<T>(states: seq<State<T>>, steps: seq<Step<T>>, i: nat)
    requires IsRun(states, steps) && states[0] == Initial() && i < |states|
    ensures Inv(states[i])
  {
    if i > 0 {
      SerialAndInOrder(states, steps, i - 1);
      StepKeepsInv(states[i - 1], steps[i - 1]);
    }
  }

  // ---- Progress ----

  function Weight<T>(r: Runner<T>, queued: bool): nat {
    match r
    case AtPop => 2
    case Running(_) => 4
    case AtExit => if queued then 3 else 1
  }

  function TotalWeight<T>(runners: seq<Runner<T>>, queued: bool): nat {
    if runners == [] then 0 else Weight(runners[0], queued) + TotalWeight(runners[1..], queued)
  }

  /** A bound on the steps that remain when nothing more is enqueued. */
  function Remaining<T>(s: State<T>): nat {
    3 * |s.q.ops| + 3 * s.starters + TotalWeight(s.runners, s.q.ops != [])
  }

  lemma ThreadStepsAreBounded<T>(s: State<T>, step: Step<T>)
    requires Inv(s) && Enabled(s, step) && !step.Enqueue?
    ensures Remaining(Next(s, step)) < Remaining(s)
  {
    var t := Next(s, step);
    if s.runners != [] {
      assert s.runners == [s.runners[0]];
      assert TotalWeight(s.runners, s.q.ops != []) == Weight(s.runners[0], s.q.ops != []);
    }
    if t.runners != [] {
      assert t.runners == [t.runners[0]] by { StepKeepsInv(s, step); }
      assert TotalWeight(t.runners, t.q.ops != []) == Weight(t.runners[0], t.q.ops != []);
    }
  }

  /** The step that the one thread of a busy queue can take. */
  function ThreadStep<T>(s: State<T>): (step: Step<T>)
    requires Inv(s) && s.q.busy
    ensures Enabled(s, step) && !step.Enqueue?
  {
    if s.runners == [] then Start
    else match s.runners[0] case AtPop => Pop(0) case Running(_) => Return(0) case AtExit => Exit(0)
  }

  /** Nothing happens any more unless something is enqueued. */
  ghost predicate Idle<T(!new)>(s: State<T>) {
    forall step :: Enabled(s, step) ==> step.Enqueue?
  }

  /** The threads stop exactly when the queue is not busy, and then everything has been executed. */
  lemma IdleIffNotBusy<T(!new)>(s: State<T>)
    requires Inv(s)
    ensures Idle(s) <==> !s.q.busy
    ensures Idle(s) ==> s.executed == s.enqueued
  {
    if s.q.busy {
      var step := ThreadStep(s);
    } else {
      assert s.executed + [] + [] == s.enqueued;
    }
  }

  /** From any reachable state, with nothing more enqueued, no run of the threads is longer than the
      bound, and one that cannot go on has executed every operation in the order of enqueuing. */
  lemma {:induction false} EverythingIsExecuted<T(!new)>(states: seq<State<T>>, steps: seq<Step<T>>)
    requires IsRun(states, steps) && Inv(states[0])
    requires forall i :: 0 <= i < |steps| ==> !steps[i].Enqueue?
    ensures Inv(states[|steps|]) && |steps| + Remaining(states[|steps|]) <= Remaining(states[0])
    ensures states[|steps|].enqueued == states[0].enqueued
    ensures Idle(states[|steps|]) ==> states[|steps|].executed == states[0].enqueued
  {
    var n := |steps|;
    if n > 0 {
      EverythingIsExecuted(states[..n], steps[..n - 1]);
      StepKeepsInv(states[n - 1], steps[n - 1]);
      ThreadStepsAreBounded(states[n - 1], steps[n - 1]);
    }
    IdleIffNotBusy(states[n]);
  }
}
