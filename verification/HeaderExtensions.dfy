/** RTP header extensions: registration, negotiation of their ids, and the choice of ids to offer. */
module HeaderExtensions {
  import opened Wrappers

  datatype Kind = Audio | Video | OtherKind

  datatype Direction = SendRecv | SendOnly | RecvOnly | Inactive

  datatype HeaderExtension = HeaderExtension(uri: string, isAudio: bool, isVideo: bool, directions: seq<Direction>)

  /** The registered extensions and the negotiated ids. */
  datatype Extensions = Extensions(locals: seq<HeaderExtension>, negotiated: map<int, HeaderExtension>)

  ghost predicate UrisDiffer(locals: seq<HeaderExtension>) {
    forall i, j :: 0 <= i < j < |locals| ==> locals[i].uri != locals[j].uri
  }

  /** The last extension with a given URI. */
  function IndexOf(locals: seq<HeaderExtension>, uri: string): (r: Option<nat>)
    ensures r.Some? ==> r.value < |locals| && locals[r.value].uri == uri
    ensures r.None? ==> forall k :: 0 <= k < |locals| ==> locals[k].uri != uri
  {
    if locals == [] then None
    else if locals[|locals| - 1].uri == uri then Some(|locals| - 1)
    else IndexOf(locals[..|locals| - 1], uri)
  }

  // ---- Registration ----

  function Allowed(directions: seq<Direction>): seq<Direction> {
    if directions == [] then [RecvOnly, SendOnly] else directions
  }

  predicate DirectionsAreValid(directions: seq<Direction>) {
    forall k :: 0 <= k < |directions| ==> directions[k] in {RecvOnly, SendOnly}
  }

  function WithKind(e: HeaderExtension, kind: Kind): HeaderExtension {
    match kind
    case Audio => e.(isAudio := true)
    case Video => e.(isVideo := true)
    case OtherKind => e
  }

  function Registered(
    locals: seq<HeaderExtension>, uri: string, kind: Kind, directions: seq<Direction>): seq<HeaderExtension> {
    match IndexOf(locals, uri)
    case None => locals + [WithKind(HeaderExtension(uri, false, false, directions), kind)]
    case Some(i) => locals[i := WithKind(locals[i].(directions := directions), kind)]
  }

  /** Registration keeps the URIs distinct and the other extensions as they are; a URI that was
      registered keeps its place and the kinds it had. */
  lemma RegisterKeepsUrisDistinct(locals: seq<HeaderExtension>, uri: string, kind: Kind, directions: seq<Direction>)
    requires UrisDiffer(locals)
    ensures var after := Registered(locals, uri, kind, directions);
            && UrisDiffer(after)
            && |locals| <= |after|
            && (forall k :: 0 <= k < |locals| ==>
                  && after[k].uri == locals[k].uri
                  && (locals[k].isAudio ==> after[k].isAudio) && (locals[k].isVideo ==> after[k].isVideo)
                  && (locals[k].uri != uri ==> after[k] == locals[k]))
            && IndexOf(after, uri).Some?
            && var e := after[IndexOf(after, uri).value];
               e.directions == directions && (kind == Audio ==> e.isAudio) && (kind == Video ==> e.isVideo)
  {
  }

  // ---- Negotiation ----

  /** `h` with the kind marked, if the local extension supports it. */
  function Marked(h: HeaderExtension, l: HeaderExtension, kind: Kind): HeaderExtension {
    if l.isAudio && kind == Audio then h.(isAudio := true)
    else if l.isVideo && kind == Video then h.(isVideo := true)
    else h
  }

  function Existing(s: Extensions, id: int, l: HeaderExtension): HeaderExtension {
    if id in s.negotiated then s.negotiated[id] else HeaderExtension(l.uri, false, false, l.directions)
  }

  /** The remote side uses `id` for `uri` in a section of a kind. */
  function Updated(s: Extensions, id: int, uri: string, kind: Kind): Extensions {
    match IndexOf(s.locals, uri)
    case None => s
    case Some(i) => s.(negotiated := s.negotiated[id := Marked(Existing(s, id, s.locals[i]), s.locals[i], kind)])
  }

  /** All extensions of a section, in the order in which they are visited. */
  function UpdatedAll(s: Extensions, list: seq<(string, int)>, kind: Kind): Extensions {
    if list == [] then s
    else
      var last := list[|list| - 1];
      Updated(UpdatedAll(s, list[..|list| - 1], kind), last.1, last.0, kind)
  }

  ghost predicate ExtensionsInv(s: Extensions) {
    && UrisDiffer(s.locals)
    && forall id :: id in s.negotiated ==> IndexOf(s.locals, s.negotiated[id].uri).Some?
  }

  /** A negotiated id keeps its URI and its directions, and kinds are only ever added. */
  ghost predicate IdsKeepTheirUris(s: Extensions, t: Extensions) {
    forall id :: id in s.negotiated ==>
      && id in t.negotiated
      && t.negotiated[id].uri == s.negotiated[id].uri
      && t.negotiated[id].directions == s.negotiated[id].directions
      && (s.negotiated[id].isAudio ==> t.negotiated[id].isAudio)
      && (s.negotiated[id].isVideo ==> t.negotiated[id].isVideo)
  }

  lemma IndexOfAny(locals: seq<HeaderExtension>, k: nat)
    requires k < |locals|
    ensures IndexOf(locals, locals[k].uri).Some?
  {
  }

  lemma RegisterKeepsExtensionsInv(s: Extensions, uri: string, kind: Kind, directions: seq<Direction>)
    requires ExtensionsInv(s)
    ensures ExtensionsInv(s.(locals := Registered(s.locals, uri, kind, directions)))
  {
    var t := s.(locals := Registered(s.locals, uri, kind, directions));
    RegisterKeepsUrisDistinct(s.locals, uri, kind, directions);
    forall id | id in t.negotiated
      ensures IndexOf(t.locals, t.negotiated[id].uri).Some?
    {
      var k := IndexOf(s.locals, s.negotiated[id].uri).value;
      IndexOfAny(t.locals, k);
    }
  }

  lemma {:induction false} UpdatesKeepIds(s: Extensions, list: seq<(string, int)>, kind: Kind)
    requires ExtensionsInv(s)
    ensures ExtensionsInv(UpdatedAll(s, list, kind))
    ensures IdsKeepTheirUris(s, UpdatedAll(s, list, kind))
    ensures UpdatedAll(s, list, kind).locals == s.locals
  {
    if list != [] {
      UpdatesKeepIds(s, list[..|list| - 1], kind);
    }
  }

  /** The order in which a section's extensions are visited only matters between equal ids. */
  lemma UpdatesOfDifferentIdsCommute(s: Extensions, id1: int, uri1: string, id2: int, uri2: string, kind: Kind)
    requires id1 != id2
    ensures Updated(Updated(s, id1, uri1, kind), id2, uri2, kind) ==
              Updated(Updated(s, id2, uri2, kind), id1, uri1, kind)
  {
    if IndexOf(s.locals, uri1).Some? && IndexOf(s.locals, uri2).Some? {
      var l1, l2 := s.locals[IndexOf(s.locals, uri1).value], s.locals[IndexOf(s.locals, uri2).value];
      var h1, h2 := Marked(Existing(s, id1, l1), l1, kind), Marked(Existing(s, id2, l2), l2, kind);
      assert s.negotiated[id1 := h1][id2 := h2] == s.negotiated[id2 := h2][id1 := h1];
    }
  }

  // ---- Kinds of negotiated ids ----

  predicate SupportsKind(e: HeaderExtension, kind: Kind) {
    (kind == Audio && e.isAudio) || (kind == Video && e.isVideo)
  }

  /** No id is negotiated for a kind that its URI was not registered for. */
  ghost predicate KindsAreRegistered(s: Extensions) {
    forall id, kind :: id in s.negotiated && SupportsKind(s.negotiated[id], kind) ==>
      exists k :: 0 <= k < |s.locals| && s.locals[k].uri == s.negotiated[id].uri && SupportsKind(s.locals[k], kind)
  }

  /** The id already stands for another URI, which was not registered for this kind although the
      announced URI was. */
  ghost predicate Misattributes(s: Extensions, id: int, uri: string, kind: Kind) {
    && id in s.negotiated && s.negotiated[id].uri != uri
    && (exists k :: 0 <= k < |s.locals| && s.locals[k].uri == uri && SupportsKind(s.locals[k], kind))
    && (forall k :: 0 <= k < |s.locals| && s.locals[k].uri == s.negotiated[id].uri ==> !SupportsKind(s.locals[k], kind))
  }

  lemma IndexOfUnique(locals: seq<HeaderExtension>, k: nat)
    requires UrisDiffer(locals) && k < |locals|
    ensures IndexOf(locals, locals[k].uri) == Some(k)
  {
  }

  /** A remote description turns on a kind for the wrong URI exactly when it reuses an id for a
      second URI that, unlike the first, was registered for that kind. */
  lemma UpdateKeepsKindsIff(s: Extensions, id: int, uri: string, kind: Kind)
    requires ExtensionsInv(s) && KindsAreRegistered(s)
    ensures KindsAreRegistered(Updated(s, id, uri, kind)) <==> !Misattributes(s, id, uri, kind)
  {
    var t := Updated(s, id, uri, kind);
    if IndexOf(s.locals, uri).Some? {
      var i := IndexOf(s.locals, uri).value;
      var l := s.locals[i];
      if Misattributes(s, id, uri, kind) {
        var k :| 0 <= k < |s.locals| && s.locals[k].uri == uri && SupportsKind(s.locals[k], kind);
        IndexOfUnique(s.locals, k);
        assert SupportsKind(t.negotiated[id], kind);
      } else {
        forall id', kind' | id' in t.negotiated && SupportsKind(t.negotiated[id'], kind')
          ensures exists k :: 0 <= k < |s.locals| && s.locals[k].uri == t.negotiated[id'].uri
                    && SupportsKind(s.locals[k], kind')
        {
          if id' in s.negotiated && SupportsKind(s.negotiated[id'], kind') {
            assert t.negotiated[id'].uri == s.negotiated[id'].uri;
          } else {
            assert id' == id && kind' == kind && SupportsKind(l, kind) && l.uri == uri;
          }
        }
      }
    } else {
      assert forall k :: 0 <= k < |s.locals| ==> s.locals[k].uri != uri;
    }
  }

  /** Two extensions, one for audio and one for video, and a remote side that uses id 1 for both:
      the audio extension ends up negotiated for video. */
  lemma ReusedIdChangesKind()
    ensures var audio, video := HeaderExtension("a", true, false, [SendOnly]),
              HeaderExtension("v", false, true, [SendOnly]);
            var s := Updated(Extensions([audio, video], map[]), 1, "a", Audio);
            ExtensionsInv(s) && KindsAreRegistered(s)
                && Updated(s, 1, "v", Video).negotiated == map[1 := audio.(isVideo := true)]
  {
    var audio, video := HeaderExtension("a", true, false, [SendOnly]), HeaderExtension("v", false, true, [SendOnly]);
    var locals := [audio, video];
    assert "a"[0] != "v"[0];
    assert IndexOf(locals, "v") == Some(1);
    assert locals[..1] == [audio];
    assert IndexOf(locals, "a") == Some(0);
    var s := Updated(Extensions(locals, map[]), 1, "a", Audio);
    assert s.negotiated == map[1 := audio];
    assert SupportsKind(locals[0], Audio);
  }

  // ---- Offered parameters ----

  datatype Parameter = Parameter(id: int, uri: string)

  predicate Applies(e: HeaderExtension, kind: Kind, directions: seq<Direction>) {
    && (exists d :: d in directions && d in e.directions)
    && SupportsKind(e, kind)
  }

  /** `ps` lists, once each, the entries of `m` that apply to the kind and the directions. */
  ghost predicate Lists(ps: seq<Parameter>, m: map<int, HeaderExtension>, kind: Kind, directions: seq<Direction>) {
    && (forall i, j :: 0 <= i < j < |ps| ==> ps[i].id != ps[j].id)
    && (forall i :: 0 <= i < |ps| ==>
         ps[i].id in m && ps[i].uri == m[ps[i].id].uri && Applies(m[ps[i].id], kind, directions))
    && (forall id :: id in m && Applies(m[id], kind, directions) ==> Parameter(id, m[id].uri) in ps)
  }

  ghost predicate IsNegotiated(s: Extensions, uri: string) {
    exists id :: id in s.negotiated && s.negotiated[id].uri == uri
  }

  ghost predicate OneIdPerUri<Id(!new)>(m: map<Id, HeaderExtension>) {
    forall id, id' :: id in m && id' in m && m[id].uri == m[id'].uri ==> id == id'
  }

  /** An assignment of ids to the first `n` registered extensions that agrees with what is negotiated
      and leaves out an extension only when all fourteen one-byte ids are in use. */
  ghost predicate IsAssignment(s: Extensions, m: map<int, HeaderExtension>, n: nat)
    requires n <= |s.locals|
  {
    && (forall id :: id in m ==> m[id] in s.locals[..n])
    && OneIdPerUri(m)
    && (forall id :: id in m && id in s.negotiated ==> s.negotiated[id].uri == m[id].uri)
    && (forall id :: id in m && id !in s.negotiated ==> 1 <= id <= 14 && !IsNegotiated(s, m[id].uri))
    && (forall k :: 0 <= k < n ==> HasId(s, m, s.locals[k]))
  }

  /** The extension has an id, or it has none negotiated and there is none left. */
  ghost predicate HasId(s: Extensions, m: map<int, HeaderExtension>, e: HeaderExtension) {
    (exists id :: id in m && m[id] == e)
        || (!IsNegotiated(s, e.uri) && forall id :: 1 <= id <= 14 ==> id in m || id in s.negotiated)
  }

  /** The parameters offered for a kind that is not negotiated yet: distinct ids, distinct URIs, a
      negotiated id only for its own URI, and otherwise an id of the one-byte form. */
  lemma OfferedParametersAreDistinct(
    s: Extensions, m: map<int, HeaderExtension>, ps: seq<Parameter>, kind: Kind, directions: seq<Direction>)
    requires ExtensionsInv(s) && IsAssignment(s, m, |s.locals|) && Lists(ps, m, kind, directions)
    ensures forall i, j :: 0 <= i < j < |ps| ==> ps[i].id != ps[j].id && ps[i].uri != ps[j].uri
    ensures forall p :: p in ps ==>
              if p.id in s.negotiated then s.negotiated[p.id].uri == p.uri
              else 1 <= p.id <= 14 && !IsNegotiated(s, p.uri)
    ensures forall p :: p in ps ==> exists e :: e in s.locals && e.uri == p.uri && Applies(e, kind, directions)
  {
  }

  /** At most one id for each extension of a list. */
  lemma {:induction false} AtMostOneIdEach<Id(
    !new)>(ids: set<Id>, m: map<Id, HeaderExtension>, list: seq<HeaderExtension>)
    requires forall id :: id in ids ==> id in m && m[id] in list
    requires OneIdPerUri(m)
    ensures |ids| <= |list|
  {
    if list == [] {
      assert ids == {};
    } else {
      var rest, last := list[..|list| - 1], list[|list| - 1];
      assert list == rest + [last];
      if id :| id in ids && m[id] == last {
        AtMostOneIdEach(ids - {id}, m, rest);
      } else {
        AtMostOneIdEach(ids, m, rest);
      }
    }
  }

  lemma {:induction false} RangeTakesRoom(taken: set<int>, n: nat)
    requires forall id :: 1 <= id <= n ==> id in taken
    ensures |taken| >= n
  {
    if n > 0 {
      RangeTakesRoom(taken - {n}, n - 1);
    }
  }

  lemma {:induction false} UnassignedMeansFewerIds(m: map<int, HeaderExtension>, locals: seq<HeaderExtension>, k: nat)
    requires k < |locals|
    requires forall id :: id in m ==> m[id] in locals && m[id] != locals[k]
    requires OneIdPerUri(m)
    ensures |m.Keys| < |locals|
  {
    var others := locals[..k] + locals[k + 1..];
    forall id | id in m
      ensures m[id] in others
    {
      var i :| 0 <= i < |locals| && locals[i] == m[id];
      assert m[id] == others[if i < k then i else i - 1];
    }
    AtMostOneIdEach(m.Keys, m, others);
  }

  /** With room for all of them, every registered extension that applies is offered. */
  lemma NothingIsLeftOut(
    s: Extensions, m: map<int, HeaderExtension>, ps: seq<Parameter>, kind: Kind, directions: seq<Direction>, k: nat)
    requires IsAssignment(s, m, |s.locals|) && Lists(ps, m, kind, directions)
    requires |s.locals| + |s.negotiated.Keys| <= 14
    requires k < |s.locals| && Applies(s.locals[k], kind, directions)
    ensures exists p :: p in ps && p.uri == s.locals[k].uri
  {
    var e := s.locals[k];
    assert HasId(s, m, e);
    if id :| id in m && m[id] == e {
      assert Parameter(id, m[id].uri) in ps;
    } else {
      hide Applies, Lists;
      assert forall id :: id in m ==> m[id] in s.locals;
      UnassignedMeansFewerIds(m, s.locals, k);
      RangeTakesRoom(m.Keys + s.negotiated.Keys, 14);
    }
  }
}
