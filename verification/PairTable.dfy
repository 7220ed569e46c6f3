/** The candidate pairs of an agent as the source shares them: objects that the checklist, the selected
    pair and the nominated pair refer to. The specification names a pair by its position in the
    checklist, and the nominated pair, which may outlive the checklist, by its two ends. */
module PairTable {
  import opened Wrappers
  import opened Candidates
  import Spec = AgentSpec

  class Pair {
    const controlling: bool
    const local: Candidate
    const remote: Candidate
    var requestCount: uint16
    var state: Spec.PairState
    var nominated: bool
    var nominateOnSuccess: bool

    constructor (controlling: bool, local: Candidate, remote: Candidate)
      ensures Value() == Spec.NewPair(controlling, local, remote)
    {
      this.controlling, this.local, this.remote := controlling, local, remote;
      requestCount, state, nominated, nominateOnSuccess := 0, Spec.Waiting, false, false;
    }

    function Value(): Spec.CandidatePair
      reads this
    {
      Spec.CandidatePair(controlling, local, remote, requestCount, state, nominated, nominateOnSuccess)
    }
  }

  ghost function Values(ps: seq<Pair>): (vs: seq<Spec.CandidatePair>)
    reads ps
    ensures |vs| == |ps| && forall i :: 0 <= i < |ps| ==> vs[i] == ps[i].Value()
  {
    if ps == [] then [] else Values(ps[..|ps| - 1]) + [ps[|ps| - 1].Value()]
  }

  ghost predicate AllDiffer(ps: seq<Pair>) {
    forall i, j :: 0 <= i < j < |ps| ==> ps[i] != ps[j]
  }

  class Table {
    var checklist: seq<Pair>
    var selected: Pair?
    var nominated: Pair?

    ghost predicate Valid()
      reads this
    {
      AllDiffer(checklist) && (selected != null ==> selected in checklist)
    }

    ghost function Checklist(): (vs: seq<Spec.CandidatePair>)
      reads this, checklist
      ensures |vs| == |checklist| && forall i :: 0 <= i < |checklist| ==> vs[i] == checklist[i].Value()
    {
      Values(checklist)
    }

    /** The position of the selected pair. */
    ghost function Selected(): (r: Option<nat>)
      requires Valid()
      reads this
      ensures r.Some? <==> selected != null
      ensures r.Some? ==> r.value < |checklist| && checklist[r.value] == selected
    {
      if selected == null then None
      else
        var i: nat :| i < |checklist| && checklist[i] == selected;
        Some(i)
    }

    function Nominated(): (r: Option<(Candidate, Candidate)>)
      reads this
      ensures if nominated == null then r == None else r == Some((nominated.local, nominated.remote))
    {
      if nominated == null then None else Some((nominated.local, nominated.remote))
    }

    constructor ()
      ensures Valid() && checklist == [] && Checklist() == [] && Selected() == None && Nominated() == None
    {
      checklist, selected, nominated := [], null, null;
    }

    /** Appends a new pair. */
    method Add(controlling: bool, local: Candidate, remote: Candidate) returns (p: Pair)
      requires Valid()
      modifies this`checklist
      ensures Valid() && fresh(p) && checklist == old(checklist) + [p]
      ensures Checklist() == old(Checklist()) + [Spec.NewPair(controlling, local, remote)]
      ensures Selected() == old(Selected()) && Nominated() == old(Nominated())
    {
      p := new Pair(controlling, local, remote);
      checklist := checklist + [p];
      assert checklist[..|checklist| - 1] == old(checklist);
      SamePosition(old(Selected()));
    }

    lemma SamePosition(was: Option<nat>)
      requires Valid()
      requires was.Some? <==> selected != null
      requires was.Some? ==> was.value < |checklist| && checklist[was.value] == selected
      ensures Selected() == was
    {
    }

    /** Comparing pairs compares positions. */
    lemma SelectedIs(p: Pair, i: nat)
      requires Valid() && i < |checklist| && checklist[i] == p
      ensures selected == p <==> Selected() == Some(i)
    {
    }

    /** The first pair with Equal ends. */
    method Find(local: Candidate, remote: Candidate) returns (p: Pair?, ghost found: Option<nat>)
      ensures found == Spec.FindPair(Checklist(), local, remote)
      ensures match Spec.FindPair(Checklist(), local, remote)
              case None => p == null
              case Some(i) => i < |checklist| && p == checklist[i]
    {
      for i := 0 to |checklist|
        invariant forall k :: 0 <= k < i ==> !Spec.Matches(Checklist()[k], local, remote)
      {
        if checklist[i].local.Equal(local) && checklist[i].remote.Equal(remote) {
          PairFoundAt(Checklist(), local, remote, i);
          return checklist[i], Some(i);
        }
      }
      PairFoundNowhere(Checklist(), local, remote);
      return null, None;
    }

    /** Only the pair at position `i` differs from what was there before. */
    lemma Changed(before: seq<Spec.CandidatePair>, i: nat)
      requires |before| == |checklist| && i < |checklist|
      requires forall k :: 0 <= k < |checklist| && k != i ==> checklist[k].Value() == before[k]
      ensures Checklist() == before[i := checklist[i].Value()]
    {
    }

    method SetState(p: Pair, ghost i: nat, state: Spec.PairState)
      requires Valid() && i < |checklist| && checklist[i] == p
      modifies p`state
      ensures Valid() && Checklist() == old(Checklist())[i := old(p.Value()).(state := state)]
      ensures Selected() == old(Selected()) && Nominated() == old(Nominated())
    {
      ghost var before := Checklist();
      p.state := state;
      Changed(before, i);
    }

    method CountRequest(p: Pair, ghost i: nat)
      requires Valid() && i < |checklist| && checklist[i] == p
      modifies p`requestCount
      ensures Valid()
      ensures Checklist() == old(Checklist())[i := old(p.Value()).(requestCount := Wrap16(old(p.requestCount) + 1))]
      ensures Selected() == old(Selected()) && Nominated() == old(Nominated())
    {
      ghost var before := Checklist();
      p.requestCount := Wrap16(p.requestCount + 1);
      Changed(before, i);
    }

    method MarkForNomination(p: Pair, ghost i: nat)
      requires Valid() && i < |checklist| && checklist[i] == p
      modifies p`nominateOnSuccess
      ensures Valid() && Checklist() == old(Checklist())[i := old(p.Value()).(nominateOnSuccess := true)]
      ensures Selected() == old(Selected()) && Nominated() == old(Nominated())
    {
      ghost var before := Checklist();
      p.nominateOnSuccess := true;
      Changed(before, i);
    }

    method Flag(p: Pair, ghost i: nat)
      requires Valid() && i < |checklist| && checklist[i] == p
      modifies p`nominated
      ensures Valid() && Checklist() == old(Checklist())[i := old(p.Value()).(nominated := true)]
      ensures Selected() == old(Selected()) && Nominated() == old(Nominated())
    {
      ghost var before := Checklist();
      p.nominated := true;
      Changed(before, i);
    }

    /** The pair is nominated and becomes the selected one. */
    method Select(p: Pair, ghost i: nat)
      requires Valid() && i < |checklist| && checklist[i] == p
      modifies this`selected, p`nominated
      ensures Valid() && Checklist() == old(Checklist())[i := old(p.Value()).(nominated := true)]
      ensures Selected() == Some(i) && Nominated() == old(Nominated())
    {
      Flag(p, i);
      selected := p;
      SamePosition(Some(i));
    }

    /** Drops all pairs; the nominated one is still remembered. */
    method Release()
      modifies this`checklist, this`selected
      ensures Valid() && checklist == [] && Checklist() == [] && Selected() == None && Nominated() == old(Nominated())
    {
      checklist, selected := [], null;
    }

    /** Remembers a pair as the nominated one, or forgets it. */
    method Nominate(p: Pair?)
      requires Valid()
      modifies this`nominated
      ensures Valid() && nominated == p && Checklist() == old(Checklist()) && Selected() == old(Selected())
    {
      nominated := p;
    }
  }

  // ---- A linear search finds what the recursive specification finds ----

  lemma {:induction false} PairFoundAt(ps: seq<Spec.CandidatePair>, local: Candidate, remote: Candidate, i: nat)
    requires i < |ps| && Spec.Matches(ps[i], local, remote) && forall k :: 0 <= k < i ==>
               !Spec.Matches(ps[k], local, remote)
    ensures Spec.FindPair(ps, local, remote) == Some(i)
  {
  }

  lemma {:induction false} PairFoundNowhere(ps: seq<Spec.CandidatePair>, local: Candidate, remote: Candidate)
    requires forall k :: 0 <= k < |ps| ==> !Spec.Matches(ps[k], local, remote)
    ensures Spec.FindPair(ps, local, remote) == None
  {
  }
}
