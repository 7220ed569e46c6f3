/** Registration and removal in the UDP mux under all interleavings of writers and removals, at the
    granularity of the connection locks and the index lock. A write that finds an address missing
    lists it on its connection and only then enters it into the index; this module says exactly when
    the lists and the index nevertheless agree. */
module MuxRegistration {
  import opened Wrappers
  import opened PacketQueue
  import opened MuxAddresses

  datatype Key = Key(ufrag: string, isIPv6: bool)

  /** In the tables, taken out of them, or taken out and with its addresses deleted from the index. */
  datatype Stage = InTables | Taken | Cleared

  datatype Entry = Entry(key: Key, stage: Stage, addresses: seq<UdpAddr>)

  /** A write of connection `conn` that registers `addr`. */
  datatype Registration = Registration(conn: nat, addr: UdpAddr)

  /** `checked` holds the writes that have found their address missing, `flying` those that have listed
      it and not entered it into the index yet. */
  datatype State = State(
    open: bool, conns: seq<Entry>, index: map<UdpAddr, nat>,
    checked: multiset<Registration>, flying: multiset<Registration>)

  datatype Step =
    | Create(key: Key)
    | Check(conn: nat, addr: UdpAddr)
    | List(conn: nat, addr: UdpAddr)
    | Index(conn: nat, addr: UdpAddr)
    | Take(ufrag: string)
    | Clear(conn: nat)
    | Close

  predicate IsRegistered(s: State, key: Key) {
    exists c :: 0 <= c < |s.conns| && s.conns[c].key == key && s.conns[c].stage == InTables
  }

  predicate Enabled(s: State, step: Step) {
    match step
    case Check(c, a) => c < |s.conns|
    case List(c, a) => c < |s.conns| && Registration(c, a) in s.checked
    case Index(c, a) => c < |s.conns| && Registration(c, a) in s.flying
    case Clear(c) => c < |s.conns| && s.conns[c].stage == Taken
    case _ => true
  }

  function WithAddresses(s: State, c: nat, addresses: seq<UdpAddr>): State
    requires c < |s.conns|
  {
    s.(conns := s.conns[c := s.conns[c].(addresses := addresses)])
  }

  /** The connection that has the address in the index forgets it. */
  function Evicted(s: State, a: UdpAddr): (r: State)
    ensures |r.conns| == |s.conns|
  {
    if a in s.index && s.index[a] < |s.conns|
        then WithAddresses(s, s.index[a], Without(s.conns[s.index[a]].addresses, a)) else s
  }

  function TakenOut(conns: seq<Entry>, ufrag: string): (r: seq<Entry>)
    ensures |r| == |conns|
  {
    seq(|conns|, i requires 0 <= i < |conns| =>
      if conns[i].key.ufrag == ufrag && conns[i].stage == InTables then conns[i].(stage := Taken) else conns[i])
  }

  function Next(s: State, step: Step): State
    requires Enabled(s, step)
  {
    match step
    case Create(key) =>
      if !s.open || IsRegistered(s, key) then s else s.(conns := s.conns + [Entry(key, InTables, [])])
    case Check(c, a) =>
      if a in s.conns[c].addresses then s else s.(checked := s.checked + multiset{Registration(c, a)})
    case List(c, a) =>
      WithAddresses(s, c, s.conns[c].addresses + [a])
        .(checked := s.checked - multiset{Registration(c, a)}, flying := s.flying + multiset{Registration(c, a)})
    case Index(c, a) =>
      var t := s.(flying := s.flying - multiset{Registration(c, a)});
      if !s.open then t else Evicted(t, a).(index := s.index[a := c])
    case Take(ufrag) => s.(conns := TakenOut(s.conns, ufrag))
    case Clear(c) =>
      s.(index := s.index - (set a | a in s.conns[c].addresses), conns := s.conns[c := s.conns[c].(stage := Cleared)])
    case Close => s.(open := false)
  }

  const INITIAL := State(true, [], map[], multiset{}, multiset{})

  ghost predicate IsRun(run: seq<State>, steps: seq<Step>) {
    && |run| == |steps| + 1 && run[0] == INITIAL
    && forall i :: 0 <= i < |steps| ==> Enabled(run[i], steps[i]) && run[i + 1] == Next(run[i], steps[i])
  }

  // ---- Agreement of lists and index ----

  ghost predicate InBounds(s: State) {
    && (forall a :: a in s.index ==> s.index[a] < |s.conns|)
    && (forall r :: r in s.checked || r in s.flying ==> r.conn < |s.conns|)
  }

  /** Whatever the index says, and whatever is being registered, is listed. */
  ghost predicate Sound(s: State) {
    && InBounds(s)
    && (forall a :: a in s.index ==> a in s.conns[s.index[a]].addresses)
    && (forall r :: r in s.flying ==> r.addr in s.conns[r.conn].addresses)
  }

  predicate OwnsOrRegisters(s: State, c: nat, a: UdpAddr) {
    (a in s.index && s.index[a] == c) || Registration(c, a) in s.flying
  }

  /** What a connection lists is in the index, or is being registered, until the connection is removed. */
  ghost predicate Complete(s: State) {
    forall c, a :: 0 <= c < |s.conns| && s.conns[c].stage != Cleared && a in s.conns[c].addresses ==>
        OwnsOrRegisters(s, c, a)
  }

  ghost predicate Agrees(s: State) { Sound(s) && Complete(s) }

  /** The address belongs to a connection that is registering it once more. */
  predicate Overlaps(s: State, a: UdpAddr) {
    a in s.index && Registration(s.index[a], a) in s.flying
  }

  /** The connection is registering an address that belongs to another one, which stays. */
  ghost predicate FliesOver(s: State, c: nat) {
    exists a :: Registration(c, a) in s.flying && BelongsToAnother(s, c, a)
  }

  predicate BelongsToAnother(s: State, c: nat, a: UdpAddr) {
    && a in s.index && s.index[a] != c && s.index[a] < |s.conns|
    && s.conns[s.index[a]].stage != Cleared && !Overlaps(s, a)
  }

  /** The steps that go wrong: entering an address whose owner is registering it once more, and removing
      a connection in the middle of its registration of an address that belongs to another one. */
  ghost predicate Breaks(s: State, step: Step) {
    match step
    case Index(_, a) => s.open && Overlaps(s, a)
    case Clear(c) => FliesOver(s, c)
    case _ => false
  }

  lemma IndexEffect(s: State, c: nat, a: UdpAddr)
    requires InBounds(s) && s.open && Enabled(s, Index(c, a))
    ensures var t := Next(s, Index(c, a));
            && t.index == s.index[a := c] && t.checked == s.checked
            && t.flying == s.flying - multiset{Registration(c, a)}
            && |t.conns| == |s.conns|
            && (forall d :: 0 <= d < |s.conns| ==> t.conns[d].stage == s.conns[d].stage)
            && (forall d, b :: 0 <= d < |s.conns| ==>
                  (b in t.conns[d].addresses <==>
                      b in s.conns[d].addresses && !(b == a && a in s.index && s.index[a] == d)))
  {
    hide Without;
  }

  lemma IndexAgreesIff(s: State, c: nat, a: UdpAddr)
    requires Agrees(s) && s.open && Enabled(s, Index(c, a))
    ensures Agrees(Next(s, Index(c, a))) <==> !Overlaps(s, a)
  {
    hide Next;
    var t := Next(s, Index(c, a));
    IndexEffect(s, c, a);
    if Overlaps(s, a) {
      var e := s.index[a];
      assert a !in t.conns[e].addresses;
      assert if e == c then t.index[a] == e else Registration(e, a) in t.flying;
    } else {
      IndexKeepsSound(s, c, a);
      hide Sound;
      forall d, b | 0 <= d < |t.conns| && t.conns[d].stage != Cleared && b in t.conns[d].addresses
        ensures OwnsOrRegisters(t, d, b)
      {
        assert b in s.conns[d].addresses;
        assert OwnsOrRegisters(s, d, b);
      }
    }
  }

  lemma IndexKeepsSound(s: State, c: nat, a: UdpAddr)
    requires Sound(s) && s.open && Enabled(s, Index(c, a)) && !Overlaps(s, a)
    ensures Sound(Next(s, Index(c, a)))
  {
    hide Next;
    IndexEffect(s, c, a);
  }

  lemma ClearKeepsSound(s: State, c: nat)
    requires Sound(s) && Enabled(s, Clear(c))
    ensures Sound(Next(s, Clear(c)))
  {
  }

  lemma ClearAgreesIff(s: State, c: nat)
    requires Agrees(s) && Enabled(s, Clear(c))
    ensures Agrees(Next(s, Clear(c))) <==> !FliesOver(s, c)
  {
    var t := Next(s, Clear(c));
    ClearKeepsSound(s, c);
    if FliesOver(s, c) {
      var a :| Registration(c, a) in s.flying && BelongsToAnother(s, c, a);
      var d := s.index[a];
      assert a in t.conns[d].addresses && !OwnsOrRegisters(t, d, a);
    } else {
      hide Sound;
      forall d, b | 0 <= d < |t.conns| && t.conns[d].stage != Cleared && b in t.conns[d].addresses
        ensures OwnsOrRegisters(t, d, b)
      {
        assert OwnsOrRegisters(s, d, b);
        if b in s.conns[c].addresses && b in s.index && s.index[b] == d {
          assert OwnsOrRegisters(s, c, b);
          assert !BelongsToAnother(s, c, b);
        }
      }
    }
  }

  lemma ListKeepsSound(s: State, c: nat, a: UdpAddr)
    requires Sound(s) && Enabled(s, List(c, a))
    ensures Sound(Next(s, List(c, a)))
  {
  }

  lemma ListAgrees(s: State, c: nat, a: UdpAddr)
    requires Agrees(s) && Enabled(s, List(c, a))
    ensures Agrees(Next(s, List(c, a)))
  {
    ListKeepsSound(s, c, a);
    hide Sound;
    var t := Next(s, List(c, a));
    forall d, b | 0 <= d < |t.conns| && t.conns[d].stage != Cleared && b in t.conns[d].addresses
      ensures OwnsOrRegisters(t, d, b)
    {
      if Registration(d, b) != Registration(c, a) {
        assert b in s.conns[d].addresses && OwnsOrRegisters(s, d, b);
      }
    }
  }

  /** The steps that touch neither addresses nor the index nor the registrations under way. */
  predicate IsQuiet(step: Step) {
    step.Create? || step.Check? || step.Take? || step.Close?
  }

  lemma QuietStepEffect(s: State, step: Step)
    requires IsQuiet(step) && Enabled(s, step)
    ensures var t := Next(s, step);
            && t.index == s.index && t.flying == s.flying && |s.conns| <= |t.conns|
            && (forall c :: 0 <= c < |s.conns| ==>
                  t.conns[c].addresses == s.conns[c].addresses
                      && (t.conns[c].stage == Cleared <==> s.conns[c].stage == Cleared))
            && (forall c :: |s.conns| <= c < |t.conns| ==> t.conns[c].addresses == [])
            && t.checked == if step.Check? && step.addr !in s.conns[step.conn].addresses
                 then s.checked + multiset{Registration(step.conn, step.addr)} else s.checked
  {
    hide IsRegistered;
  }

  lemma QuietStepAgrees(s: State, step: Step)
    requires IsQuiet(step) && Enabled(s, step)
    ensures Sound(s) ==> Sound(Next(s, step))
    ensures Agrees(s) ==> Agrees(Next(s, step))
  {
    hide Next;
    if Sound(s) {
      QuietStepEffect(s, step);
      var t := Next(s, step);
      if Complete(s) {
        forall d, b | 0 <= d < |t.conns| && t.conns[d].stage != Cleared && b in t.conns[d].addresses
          ensures OwnsOrRegisters(t, d, b)
        {
          assert OwnsOrRegisters(s, d, b);
        }
      }
    }
  }

  /** While the mux is open, a step keeps lists and index in agreement if and only if it is not one of the
      two that go wrong. */
  lemma StepAgreesIff(s: State, step: Step)
    requires Agrees(s) && s.open && Enabled(s, step)
    ensures Agrees(Next(s, step)) <==> !Breaks(s, step)
  {
    match step
    case Index(c, a) => IndexAgreesIff(s, c, a);
    case Clear(c) => ClearAgreesIff(s, c);
    case List(c, a) => ListAgrees(s, c, a);
    case _ => QuietStepAgrees(s, step);
  }

  /** Over any run of an open mux, lists and index have agreed all along if and only if no step went
      wrong. */
  lemma {:induction false} RunAgreesIff(run: seq<State>, steps: seq<Step>, n: nat)
    requires IsRun(run, steps) && n < |run| && run[n].open
    ensures (forall i :: 0 <= i <= n ==> Agrees(run[i])) <==> (forall i :: 0 <= i < n ==> !Breaks(run[i], steps[i]))
  {
    hide Agrees, Next, Breaks, Enabled;
    if n == 0 {
      InitialAgrees();
    } else {
      assert run[n - 1 + 1] == Next(run[n - 1], steps[n - 1]);
      OpenBefore(run[n - 1], steps[n - 1]);
      RunAgreesIff(run, steps, n - 1);
      if Agrees(run[n - 1]) {
        StepAgreesIff(run[n - 1], steps[n - 1]);
      }
    }
  }

  lemma InitialAgrees()
    ensures Agrees(INITIAL)
  {
  }

  lemma OpenBefore(s: State, step: Step)
    requires Enabled(s, step) && Next(s, step).open
    ensures s.open
  {
  }

  // ---- Entries of removed connections ----

  /** The index sends no address to a connection whose removal is complete. */
  ghost predicate NamesNoRemoved(s: State) {
    forall a :: a in s.index ==> s.index[a] < |s.conns| && s.conns[s.index[a]].stage != Cleared
  }

  /** A registration that was under way when its connection was removed enters its address afterwards. */
  predicate ComesLate(s: State, step: Step) {
    step.Index? && s.open && step.conn < |s.conns| && s.conns[step.conn].stage == Cleared
  }

  lemma IndexNamesIff(s: State, c: nat, a: UdpAddr)
    requires Sound(s) && NamesNoRemoved(s) && s.open && Enabled(s, Index(c, a))
    ensures NamesNoRemoved(Next(s, Index(c, a))) <==> s.conns[c].stage != Cleared
  {
    hide Next;
    IndexEffect(s, c, a);
    var t := Next(s, Index(c, a));
    assert t.index[a] == c;
  }

  lemma ClearNamesNoRemoved(s: State, c: nat)
    requires Sound(s) && NamesNoRemoved(s) && Enabled(s, Clear(c))
    ensures NamesNoRemoved(Next(s, Clear(c)))
  {
  }

  /** While the index says only what is listed, a step leaves it naming no removed connection if and only
      if it does not come late. */
  lemma StepNamesIff(s: State, step: Step)
    requires Sound(s) && NamesNoRemoved(s) && s.open && Enabled(s, step)
    ensures NamesNoRemoved(Next(s, step)) <==> !ComesLate(s, step)
  {
    match step
    case Index(c, a) => IndexNamesIff(s, c, a);
    case Clear(c) => ClearNamesNoRemoved(s, c);
    case List(c, a) =>
    case _ =>
      QuietStepEffect(s, step);
      hide Next;
  }

  /** Lists and index agree, and the index names no removed connection. */
  ghost predicate InOrder(s: State) { Agrees(s) && NamesNoRemoved(s) }

  /** Over any run of an open mux, lists and index have agreed all along and no entry of a removed
      connection was left, if and only if no step went wrong and none came late. */
  lemma {:induction false} RunInOrderIff(run: seq<State>, steps: seq<Step>, n: nat)
    requires IsRun(run, steps) && n < |run| && run[n].open
    ensures (forall i :: 0 <= i <= n ==> InOrder(run[i])) <==>
              (forall i :: 0 <= i < n ==> !Breaks(run[i], steps[i]) && !ComesLate(run[i], steps[i]))
  {
    hide Agrees, NamesNoRemoved, Next, Breaks, ComesLate, Enabled;
    if n == 0 {
      InitialInOrder();
    } else {
      assert run[n - 1 + 1] == Next(run[n - 1], steps[n - 1]);
      OpenBefore(run[n - 1], steps[n - 1]);
      RunInOrderIff(run, steps, n - 1);
      if InOrder(run[n - 1]) {
        StepAgreesIff(run[n - 1], steps[n - 1]);
        AgreesIsSound(run[n - 1]);
        StepNamesIff(run[n - 1], steps[n - 1]);
      }
    }
  }

  lemma InitialInOrder()
    ensures InOrder(INITIAL)
  {
  }

  lemma AgreesIsSound(s: State)
    requires Agrees(s)
    ensures Sound(s)
  {
  }

  /** The index sends the address to a connection whose removal has run to the end. */
  predicate NamesRemoved(s: State, a: UdpAddr) {
    a in s.index && s.index[a] < |s.conns| && s.conns[s.index[a]].stage == Cleared
  }

  /** The step enters the address once more, or is the removal of a connection that lists it. */
  predicate Touches(s: State, step: Step, a: UdpAddr) {
    || (step.Index? && step.addr == a)
    || (step.Clear? && step.conn < |s.conns| && a in s.conns[step.conn].addresses)
  }

  /** An entry of a removed connection stays as long as no step touches its address. */
  lemma RemovedEntryStays(s: State, step: Step, a: UdpAddr)
    requires Enabled(s, step) && NamesRemoved(s, a)
    requires !Touches(s, step, a)
    ensures NamesRemoved(Next(s, step), a) && Next(s, step).index[a] == s.index[a]
  {
    hide Without;
    if IsQuiet(step) {
      QuietStepEffect(s, step);
      hide Next;
    }
  }

  /** So over the rest of any run. */
  lemma {:induction false} RemovedEntryStaysOverRun(run: seq<State>, steps: seq<Step>, a: UdpAddr, i: nat, n: nat)
    requires IsRun(run, steps) && i <= n < |run|
    requires NamesRemoved(run[i], a)
    requires forall k :: i <= k < n ==> !Touches(run[k], steps[k], a)
    ensures NamesRemoved(run[n], a) && run[n].index[a] == run[i].index[a]
  {
    hide Next, Enabled, Touches;
    if i < n {
      RemovedEntryStaysOverRun(run, steps, a, i, n - 1);
      assert run[n - 1 + 1] == Next(run[n - 1], steps[n - 1]);
      RemovedEntryStays(run[n - 1], steps[n - 1], a);
    }
  }

  /** A removal deletes an entry exactly when it belongs to the removed connection, or when that
      connection is in the middle of registering its address. */
  lemma ClearDeletesIff(s: State, c: nat, a: UdpAddr)
    requires Agrees(s) && Enabled(s, Clear(c)) && a in s.index
    ensures a !in Next(s, Clear(c)).index <==> s.index[a] == c || Registration(c, a) in s.flying
  {
    if a in s.conns[c].addresses {
      assert OwnsOrRegisters(s, c, a);
    }
  }

  // ---- Registrations that do not overlap ----

  /** A connection only starts to register an address when it is not registering it already. */
  ghost predicate NoOverlap(run: seq<State>, steps: seq<Step>)
    requires |run| == |steps| + 1
  {
    forall i :: 0 <= i < |steps| && steps[i].Check? ==> NotRegistering(run[i], steps[i].conn, steps[i].addr)
  }

  predicate NotRegistering(s: State, c: nat, a: UdpAddr) {
    Registration(c, a) !in s.checked && Registration(c, a) !in s.flying
  }

  /** At most one registration of an address on a connection, and none while the connection has it. */
  ghost predicate Separate(s: State) {
    && Sound(s)
    && (forall r :: s.checked[r] + s.flying[r] <= 1)
    && (forall r :: r in s.checked ==> r.addr !in s.conns[r.conn].addresses)
    && (forall r :: r in s.flying ==> !(r.addr in s.index && s.index[r.addr] == r.conn))
  }

  lemma IndexKeepsSeparate(s: State, c: nat, a: UdpAddr)
    requires Separate(s) && s.open && Enabled(s, Index(c, a))
    ensures Separate(Next(s, Index(c, a)))
  {
    hide Next;
    var t := Next(s, Index(c, a));
    assert InBounds(s);
    IndexEffect(s, c, a);
    IndexKeepsSound(s, c, a);
    hide Sound;
    forall r | r in t.flying
      ensures !(r.addr in t.index && t.index[r.addr] == r.conn)
    {
      assert s.flying[r] >= 1 && s.flying[Registration(c, a)] == 1;
    }
  }

  lemma ListKeepsSeparate(s: State, c: nat, a: UdpAddr)
    requires Separate(s) && Enabled(s, List(c, a))
    ensures Separate(Next(s, List(c, a)))
  {
    ListKeepsSound(s, c, a);
    var t := Next(s, List(c, a));
    var one := Registration(c, a);
    assert s.checked[one] == 1 && s.flying[one] == 0;
    forall r | r in t.checked
      ensures r.addr !in t.conns[r.conn].addresses
    {
      assert r != one && r in s.checked;
    }
  }

  lemma QuietStepKeepsSeparate(s: State, step: Step)
    requires Separate(s) && IsQuiet(step) && Enabled(s, step)
    requires step.Check? ==> NotRegistering(s, step.conn, step.addr)
    ensures Separate(Next(s, step))
  {
    hide Next;
    QuietStepEffect(s, step);
    QuietStepAgrees(s, step);
  }

  lemma StepKeepsSeparate(s: State, step: Step)
    requires Separate(s) && Enabled(s, step)
    requires step.Check? ==> NotRegistering(s, step.conn, step.addr)
    ensures Separate(Next(s, step))
  {
    match step
    case Index(c, a) =>
      if s.open {
        IndexKeepsSeparate(s, c, a);
      }
    case List(c, a) => ListKeepsSeparate(s, c, a);
    case Clear(c) => ClearKeepsSeparate(s, c);
    case _ => QuietStepKeepsSeparate(s, step);
  }

  lemma ClearKeepsSeparate(s: State, c: nat)
    requires Separate(s) && Enabled(s, Clear(c))
    ensures Separate(Next(s, Clear(c)))
  {
    ClearKeepsSound(s, c);
  }

  lemma {:induction false} RunStaysSeparate(run: seq<State>, steps: seq<Step>, n: nat)
    requires IsRun(run, steps) && NoOverlap(run, steps) && n < |run|
    ensures Separate(run[n])
  {
    if n > 0 {
      RunStaysSeparate(run, steps, n - 1);
      StepKeepsSeparate(run[n - 1], steps[n - 1]);
    }
  }

  /** Then the only steps that break the agreement are removals that hit a connection which is registering
      an address of another one. */
  lemma SeparateStepBreaksIff(run: seq<State>, steps: seq<Step>, n: nat)
    requires IsRun(run, steps) && NoOverlap(run, steps) && n < |steps|
    ensures Sound(run[n])
    ensures Breaks(run[n], steps[n]) <==> steps[n].Clear? && FliesOver(run[n], steps[n].conn)
  {
    RunStaysSeparate(run, steps, n);
  }

  // ---- The two failures ----

  ghost predicate Reachable(s: State) {
    exists run, steps :: IsRun(run, steps) && run[|steps|] == s
  }

  lemma Reach(s: State, step: Step, t: State)
    requires Reachable(s) && Enabled(s, step)
    requires var n := Next(s, step);
             n.open == t.open && n.conns == t.conns && n.index == t.index && n.checked == t.checked
                 && n.flying == t.flying
    ensures Reachable(t)
  {
    assert Next(s, step) == t;
    hide Next, Enabled;
    var run, steps :| IsRun(run, steps) && run[|steps|] == s;
    var run', steps' := run + [t], steps + [step];
    assert IsRun(run', steps') by {
      forall i | 0 <= i < |steps'|
        ensures Enabled(run'[i], steps'[i]) && run'[i + 1] == Next(run'[i], steps'[i])
      {
        if i < |steps| {
          assert Enabled(run[i], steps[i]) && run[i + 1] == Next(run[i], steps[i]);
        }
      }
    }
    assert run'[|steps'|] == t;
  }

  lemma ReachInitial()
    ensures Reachable(INITIAL)
  {
    var run, steps: seq<Step> := [INITIAL], [];
    assert IsRun(run, steps) && run[|steps|] == INITIAL;
  }

  const NOBODY: multiset<Registration> := multiset{}

  /** A mux with two connections, of which the second may have the address. */
  function TwoConns(stage: Stage, listed: seq<UdpAddr>, taken: seq<UdpAddr>, index: map<UdpAddr, nat>,
                    checked: multiset<Registration>, flying: multiset<Registration>): State {
    State(true, [Entry(Key("first", false), stage, listed), Entry(Key("second", false), InTables, taken)], index,
        checked, flying)
  }

  lemma ReachTwoConns()
    ensures Reachable(TwoConns(InTables, [], [], map[], NOBODY, NOBODY))
  {
    ReachInitial();
    hide Reachable;
    var s := State(true, [Entry(Key("first", false), InTables, [])], map[], NOBODY, NOBODY);
    Reach(INITIAL, Create(Key("first", false)), s);
    assert "first"[0] != "second"[0];
    Reach(s, Create(Key("second", false)), TwoConns(InTables, [], [], map[], NOBODY, NOBODY));
  }

  lemma ReachSecondOwns(a: UdpAddr)
    ensures Reachable(TwoConns(InTables, [], [a], map[a := 1], NOBODY, NOBODY))
  {
    ReachTwoConns();
    hide Reachable;
    var one := multiset{Registration(1, a)};
    var s, t, u := TwoConns(InTables, [], [], map[], NOBODY, NOBODY), TwoConns(InTables, [], [], map[], one, NOBODY),
        TwoConns(InTables, [], [a], map[], NOBODY, one);
    Reach(s, Check(1, a), t);
    assert [] + [a] == [a];
    Reach(t, List(1, a), u);
    Reach(u, Index(1, a), TwoConns(InTables, [], [a], map[a := 1], NOBODY, NOBODY));
  }

  lemma ReachFirstFlies(a: UdpAddr)
    ensures Reachable(TwoConns(InTables, [a], [a], map[a := 1], NOBODY, multiset{Registration(0, a)}))
  {
    ReachSecondOwns(a);
    hide Reachable;
    var one := multiset{Registration(0, a)};
    var s, t := TwoConns(InTables, [], [a], map[a := 1], NOBODY, NOBODY),
        TwoConns(InTables, [], [a], map[a := 1], one, NOBODY);
    Reach(s, Check(0, a), t);
    assert [] + [a] == [a];
    Reach(t, List(0, a), TwoConns(InTables, [a], [a], map[a := 1], NOBODY, one));
  }

  /** A removal can take away the entry of a connection that stays: it hits the first connection between
      the two halves of its registration. */
  lemma RemovalCanEvictAnother(a: UdpAddr)
    ensures var s := TwoConns(Taken, [a], [a], map[a := 1], NOBODY, multiset{Registration(0, a)});
            Reachable(s) && Breaks(s, Clear(0)) && a !in Next(s, Clear(0)).index
  {
    ReachFirstFlies(a);
    var s := TwoConns(InTables, [a], [a], map[a := 1], NOBODY, multiset{Registration(0, a)});
    hide Reachable;
    assert "first"[0] != "second"[0];
    var t := TwoConns(Taken, [a], [a], map[a := 1], NOBODY, multiset{Registration(0, a)});
    Reach(s, Take("first"), t);
    assert BelongsToAnother(t, 0, a);
  }

  /** A mux with one connection. */
  function OneConn(
    stage: Stage, listed: seq<UdpAddr>, index: map<UdpAddr, nat>, checked: multiset<Registration>,
    flying: multiset<Registration>): State {
    State(true, [Entry(Key("first", false), stage, listed)], index, checked, flying)
  }

  lemma ReachTwoChecks(a: UdpAddr)
    ensures Reachable(OneConn(InTables, [], map[], multiset{Registration(0, a), Registration(0, a)}, NOBODY))
  {
    ReachInitial();
    hide Reachable;
    var r := Registration(0, a);
    Reach(INITIAL, Create(Key("first", false)), OneConn(InTables, [], map[], NOBODY, NOBODY));
    Reach(OneConn(InTables, [], map[], NOBODY, NOBODY), Check(0, a), OneConn(InTables, [], map[], multiset{r}, NOBODY));
    Reach(
      OneConn(InTables, [], map[], multiset{r}, NOBODY), Check(0, a),
      OneConn(InTables, [], map[], multiset{r, r}, NOBODY));
  }

  /** Two first writes of one connection to one address can overlap: the second one removes the address
      from the connection's own list, so that no removal will find the entry. */
  lemma WritesCanOverlap(a: UdpAddr)
    ensures var s := OneConn(InTables, [a, a], map[a := 0], NOBODY, multiset{Registration(0, a)});
            && Reachable(s) && Breaks(s, Index(0, a))
            && var t := Next(s, Index(0, a)); t.index == map[a := 0] && t.conns[0].addresses == []
  {
    ReachTwoChecks(a);
    hide Reachable;
    var r := Registration(0, a);
    assert [] + [a] == [a] && [a] + [a] == [a, a];
    var s, t := OneConn(InTables, [a], map[], multiset{r}, multiset{r}),
        OneConn(InTables, [a], map[a := 0], multiset{r}, NOBODY);
    Reach(OneConn(InTables, [], map[], multiset{r, r}, NOBODY), List(0, a), s);
    Reach(s, Index(0, a), t);
    Reach(t, List(0, a), OneConn(InTables, [a, a], map[a := 0], NOBODY, multiset{r}));
    WithoutBoth(a);
  }

  lemma ReachTakenFlies(a: UdpAddr)
    ensures Reachable(OneConn(Taken, [a], map[], NOBODY, multiset{Registration(0, a)}))
  {
    ReachInitial();
    hide Reachable;
    var r := Registration(0, a);
    assert [] + [a] == [a];
    var s := OneConn(InTables, [], map[], NOBODY, NOBODY);
    var t := OneConn(InTables, [], map[], multiset{r}, NOBODY);
    var u := OneConn(InTables, [a], map[], NOBODY, multiset{r});
    Reach(INITIAL, Create(Key("first", false)), s);
    Reach(s, Check(0, a), t);
    Reach(t, List(0, a), u);
    Reach(u, Take("first"), OneConn(Taken, [a], map[], NOBODY, multiset{r}));
  }

  /** A registration can come late: the removal of its connection runs to the end between its two halves,
      and the index then sends the address to a removed connection. */
  lemma RegistrationCanComeLate(a: UdpAddr)
    ensures var s := OneConn(Cleared, [a], map[], NOBODY, multiset{Registration(0, a)});
            && Reachable(s) && ComesLate(s, Index(0, a)) && !Breaks(s, Index(0, a)) && InOrder(s)
            && var t := Next(s, Index(0, a)); t.index == map[a := 0] && t.conns[0].stage == Cleared && Agrees(t)
  {
    ReachTakenFlies(a);
    hide Reachable;
    var r := Registration(0, a);
    var s := OneConn(Cleared, [a], map[], NOBODY, multiset{r});
    Reach(OneConn(Taken, [a], map[], NOBODY, multiset{r}), Clear(0), s);
    assert Agrees(s);
    IndexAgreesIff(s, 0, a);
  }

  lemma WithoutBoth(a: UdpAddr)
    ensures Without([a, a], a) == []
  {
    assert [a, a][..1] == [a] && [a][..0] == [];
    assert Without([a], a) == Without([], a) == [];
  }
}
