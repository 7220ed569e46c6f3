/** Where the buffer holders of a muxed connection are while they move: in the pool, in the queue, or in
    the hands of a writer or a reader that is outside the lock. Steps are the lock sections of the
    connection and single operations outside of it. */
module HolderTransit {
  import opened Wrappers
  import opened PacketQueue

  /** A holder in transit: taken by a writer and perhaps filled, unlinked by a reader that is going to copy
      `packet` out of it, or about to go back. */
  datatype Hand =
    | Writing(holder: nat, filled: Option<Packet>)
    | Reading(holder: nat, packet: Packet)
    | Returning(holder: nat)

  /** `contents` is what the holders' buffers hold, and `q` what the queue stands for. */
  datatype State = State(
    made: nat, pool: set<nat>, queue: seq<nat>, hands: seq<Hand>, contents: map<nat, Packet>, q: Queue)

  datatype Step =
    | TakeNew
    | TakePooled(holder: nat)
    | Fill(i: nat, packet: Packet)
    | Link(i: nat)
    | Unlink(capacity: nat)
    | GiveBack(i: nat)
    | Close

  predicate Enabled(s: State, step: Step) {
    match step
    case TakeNew | Unlink(_) | Close => true
    case TakePooled(h) => h in s.pool
    case Fill(i, _) => i < |s.hands| && s.hands[i].Writing?
    case Link(i) => i < |s.hands| && s.hands[i].Writing? && s.hands[i].filled.Some?
    case GiveBack(i) => i < |s.hands| && !s.hands[i].Writing?
  }

  function LetGo(hands: seq<Hand>, i: nat): seq<Hand>
    requires i < |hands|
  {
    hands[..i] + hands[i + 1..]
  }

  function Linked(s: State, i: nat): State
    requires i < |s.hands| && s.hands[i].Writing? && s.hands[i].filled.Some?
  {
    var (q, r) := WriteSection(s.q, s.hands[i].filled.value);
    if r.Ok? then s.(q := q, queue := s.queue + [s.hands[i].holder], hands := LetGo(s.hands, i))
    else s.(hands := s.hands[i := Returning(s.hands[i].holder)])
  }

  function Unlinked(s: State, capacity: nat): State {
    var (q, _) := ReadSection(s.q, capacity);
    if s.q.packets == [] || s.queue == [] then s.(q := q)
    else s.(q := q, queue := s.queue[1..], hands := s.hands + [Reading(s.queue[0], s.q.packets[0])])
  }

  function Next(s: State, step: Step): State
    requires Enabled(s, step)
  {
    match step
    case TakeNew => s.(made := s.made + 1, hands := s.hands + [Writing(s.made, None)])
    case TakePooled(h) => s.(pool := s.pool - {h}, hands := s.hands + [Writing(h, None)])
    case Fill(i, packet) =>
      s.(hands := s.hands[i := Writing(s.hands[i].holder, Some(packet))],
          contents := s.contents[s.hands[i].holder := packet])
    case Link(i) => Linked(s, i)
    case Unlink(capacity) => Unlinked(s, capacity)
    case GiveBack(i) => s.(pool := s.pool + {s.hands[i].holder}, hands := LetGo(s.hands, i))
    case Close => s.(q := CloseSection(s.q), queue := [], pool := s.pool + (set h | h in s.queue))
  }

  const INITIAL := State(0, {}, [], [], map[], Queue([], Open))

  ghost predicate IsRun(run: seq<State>, steps: seq<Step>) {
    && |run| == |steps| + 1 && run[0] == INITIAL
    && forall i :: 0 <= i < |steps| ==> Enabled(run[i], steps[i]) && run[i + 1] == Next(run[i], steps[i])
  }

  // ---- One place for every holder ----

  ghost predicate QueueIsApart(s: State) {
    && (forall i, j :: 0 <= i < j < |s.queue| ==> s.queue[i] != s.queue[j])
    && (forall i :: 0 <= i < |s.queue| ==> s.queue[i] < s.made && s.queue[i] !in s.pool)
  }

  ghost predicate HandsAreApart(s: State) {
    && (forall i, j :: 0 <= i < j < |s.hands| ==> s.hands[i].holder != s.hands[j].holder)
    && (forall i :: 0 <= i < |s.hands| ==>
          s.hands[i].holder < s.made && s.hands[i].holder !in s.pool && s.hands[i].holder !in s.queue)
  }

  /** Every holder is in the pool, at one place of the queue, or in one pair of hands. */
  ghost predicate OnePlace(s: State) {
    && (forall h :: h in s.pool ==> h < s.made)
    && QueueIsApart(s) && HandsAreApart(s)
  }

  predicate Holds(s: State, holder: nat, packet: Packet) {
    holder in s.contents && s.contents[holder] == packet
  }

  /** The buffers hold what their owners think: the queued packets, what a writer has filled in, and what a
      reader is going to copy. */
  ghost predicate BuffersAreRight(s: State) {
    && |s.queue| == |s.q.packets|
    && (forall i :: 0 <= i < |s.queue| ==> Holds(s, s.queue[i], s.q.packets[i]))
    && (forall i :: 0 <= i < |s.hands| ==>
          match s.hands[i]
          case Writing(h, filled) => filled.Some? ==> Holds(s, h, filled.value)
          case Reading(h, packet) => Holds(s, h, packet)
          case Returning(_) => true)
  }

  lemma LetGoAt(hands: seq<Hand>, i: nat)
    requires i < |hands|
    ensures |LetGo(hands, i)| == |hands| - 1
    ensures forall k :: 0 <= k < |hands| - 1 ==> LetGo(hands, i)[k] == hands[if k < i then k else k + 1]
  {
  }

  lemma LinkKeepsOnePlace(s: State, i: nat)
    requires OnePlace(s) && Enabled(s, Link(i))
    ensures OnePlace(Next(s, Link(i)))
  {
    LetGoAt(s.hands, i);
    hide LetGo;
  }

  lemma GiveBackKeepsOnePlace(s: State, i: nat)
    requires OnePlace(s) && Enabled(s, GiveBack(i))
    ensures OnePlace(Next(s, GiveBack(i)))
  {
    LetGoAt(s.hands, i);
    hide LetGo;
  }

  lemma UnlinkKeepsOnePlace(s: State, capacity: nat)
    requires OnePlace(s)
    ensures OnePlace(Next(s, Unlink(capacity)))
  {
  }

  lemma CloseKeepsOnePlace(s: State)
    requires OnePlace(s)
    ensures OnePlace(Next(s, Close))
  {
  }

  lemma StepKeepsOnePlace(s: State, step: Step)
    requires OnePlace(s) && Enabled(s, step)
    ensures OnePlace(Next(s, step))
  {
    match step
    case Link(i) =>
      LinkKeepsOnePlace(s, i);
      hide OnePlace, Next;
    case Unlink(capacity) =>
      UnlinkKeepsOnePlace(s, capacity);
      hide OnePlace, Next;
    case GiveBack(i) =>
      GiveBackKeepsOnePlace(s, i);
      hide OnePlace, Next;
    case Close =>
      CloseKeepsOnePlace(s);
      hide OnePlace, Next;
    case TakeNew | TakePooled(_) | Fill(_, _) =>
  }

  lemma FillKeepsBuffers(s: State, i: nat, packet: Packet)
    requires OnePlace(s) && BuffersAreRight(s) && Enabled(s, Fill(i, packet))
    ensures BuffersAreRight(Next(s, Fill(i, packet)))
  {
    var t := Next(s, Fill(i, packet));
    assert forall h, p :: Holds(s, h, p) && h != s.hands[i].holder ==> Holds(t, h, p);
  }

  lemma LinkKeepsBuffers(s: State, i: nat)
    requires OnePlace(s) && BuffersAreRight(s) && Enabled(s, Link(i))
    ensures BuffersAreRight(Next(s, Link(i)))
  {
    LetGoAt(s.hands, i);
    hide LetGo, OnePlace;
    var t := Next(s, Link(i));
    assert forall h, p :: Holds(s, h, p) ==> Holds(t, h, p);
  }

  lemma UnlinkKeepsBuffers(s: State, capacity: nat)
    requires BuffersAreRight(s)
    ensures BuffersAreRight(Next(s, Unlink(capacity)))
  {
    var t := Next(s, Unlink(capacity));
    assert forall h, p :: Holds(s, h, p) ==> Holds(t, h, p);
  }

  lemma GiveBackKeepsBuffers(s: State, i: nat)
    requires BuffersAreRight(s) && Enabled(s, GiveBack(i))
    ensures BuffersAreRight(Next(s, GiveBack(i)))
  {
    LetGoAt(s.hands, i);
    hide LetGo;
    var t := Next(s, GiveBack(i));
    assert forall h, p :: Holds(s, h, p) ==> Holds(t, h, p);
  }

  lemma StepKeepsBuffers(s: State, step: Step)
    requires OnePlace(s) && BuffersAreRight(s) && Enabled(s, step)
    ensures BuffersAreRight(Next(s, step))
  {
    match step
    case Fill(i, packet) => FillKeepsBuffers(s, i, packet);
    case Link(i) => LinkKeepsBuffers(s, i);
    case Unlink(capacity) => UnlinkKeepsBuffers(s, capacity);
    case GiveBack(i) => GiveBackKeepsBuffers(s, i);
    case _ =>
      hide OnePlace;
      var t := Next(s, step);
      assert forall h, p :: Holds(s, h, p) ==> Holds(t, h, p);
  }

  /** In every run, under every interleaving of writers and readers that handle holders outside the lock,
      every holder is in one place only, and every buffer holds what its owner put there or took out of the
      queue: no writer fills a buffer that is queued or being copied. */
  lemma {:induction false} NoHolderIsShared(run: seq<State>, steps: seq<Step>, n: nat)
    requires IsRun(run, steps) && n < |run|
    ensures OnePlace(run[n]) && BuffersAreRight(run[n])
  {
    hide Next, Enabled;
    if n > 0 {
      NoHolderIsShared(run, steps, n - 1);
      hide OnePlace, BuffersAreRight;
      StepKeepsOnePlace(run[n - 1], steps[n - 1]);
      StepKeepsBuffers(run[n - 1], steps[n - 1]);
    }
  }
}
