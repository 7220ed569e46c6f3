/** A remote participant of a room: how each received description of the participant is reconciled
    with its track publications, and which events that fires. */
module RemoteTracks {
  import opened Wrappers

  // ---- Attributes ----

  /** Reading an absent key gives the empty string. */
  function Get(m: map<string, string>, k: string): string {
    if k in m then m[k] else ""
  }

  /** The changed and added attributes, and the deleted ones with an empty value. */
  function Changes(was: map<string, string>, cur: map<string, string>): map<string, string> {
    map k | k in was.Keys + cur.Keys && (if k in cur then Get(was, k) != cur[k] else true) :: Get(cur, k)
  }

  method AttributeChanges(was: map<string, string>, cur: map<string, string>) returns (diff: map<string, string>)
    ensures diff == Changes(was, cur)
  {
    diff := map[];
    var todo := cur.Keys;
    while todo != {}
      invariant todo <= cur.Keys
      invariant forall k :: k in diff <==> k in cur && k !in todo && Get(was, k) != cur[k]
      invariant forall k :: k in diff ==> diff[k] == cur[k]
      decreases todo
    {
      var k := AnyOf(todo);
      if Get(was, k) != cur[k] { diff := diff[k := cur[k]]; }
      todo := todo - {k};
    }
    todo := was.Keys;
    while todo != {}
      invariant todo <= was.Keys
      invariant forall k :: k in diff <==> if k in cur then Get(was, k) != cur[k] else k in was && k !in todo
      invariant forall k :: k in diff ==> diff[k] == Get(cur, k)
      decreases todo
    {
      var k := AnyOf(todo);
      if k !in cur { diff := diff[k := ""]; }
      todo := todo - {k};
    }
  }

  /** The attributes of a listener that stores non-empty values and deletes empty ones. */
  function Patch(was: map<string, string>, diff: map<string, string>): map<string, string> {
    map k | k in was.Keys + diff.Keys && (k in diff ==> diff[k] != "") :: if k in diff then diff[k] else was[k]
  }

  /** Reported and unreported attributes together determine every current value. */
  lemma ChangesDetermineValues(was: map<string, string>, cur: map<string, string>, k: string)
    ensures var diff := Changes(was, cur);
            Get(cur, k) == if k in diff then diff[k] else Get(was, k)
  {
  }

  /** A listener that applies the changes has the current attributes if and only if every attribute
      that is empty now was there and empty before. */
  lemma PatchRebuildsIff(was: map<string, string>, cur: map<string, string>)
    ensures Patch(was, Changes(was, cur)) == cur <==> forall k :: k in cur && cur[k] == "" ==> k in was && was[k] == ""
  {
  }

  /** An attribute that becomes empty is reported as one that is deleted, and one that appears with an
      empty value is not reported at all: the listener has it in neither case. */
  lemma EmptyAttributeIsLost(k: string, v: string)
    requires v != ""
    ensures Changes(map[k := v], map[k := ""]) == Changes(map[k := v], map[]) == map[k := ""]
    ensures Patch(map[k := v], map[k := ""]) == map[]
    ensures Changes(map[], map[k := ""]) == map[] && Patch(map[], map[]) == map[]
  {
  }

  // ---- The participant as a value ----

  datatype TrackType = AudioTrack | VideoTrack | OtherTrack

  datatype TrackKind = NoKind | AudioKind | VideoKind

  datatype TrackInfo = TrackInfo(sid: string, name: string, muted: bool, trackType: TrackType)

  datatype Publication = Publication(name: string, muted: bool, kind: TrackKind)

  datatype Who = Who(identity: string, sid: string, name: string)

  datatype Info = Info(version: nat, who: Who, metadata: string, attributes: map<string, string>,
      tracks: seq<TrackInfo>)

  datatype Event =
    | Published(sid: string)
    | Unpublished(sid: string)
    | Muted(sid: string)
    | Unmuted(sid: string)
    | MetadataChanged(was: string)
    | AttributesChanged(changes: map<string, string>)

  /** `audio` and `video` are the keys of the maps of audio and video publications. */
  datatype Participant = Participant(
    version: Option<nat>, who: Who, metadata: string, attributes: map<string, string>,
    tracks: map<string, Publication>, audio: set<string>, video: set<string>, events: multiset<Event>)

  const NOBODY := Who("", "", "")

  const JOINING := Participant(None, NOBODY, "", map[], map[], {}, {}, multiset{})

  function Refreshed(pub: Publication, ti: TrackInfo): Publication {
    Publication(ti.name, ti.muted,
                match ti.trackType
                case AudioTrack => AudioKind
                case VideoTrack => VideoKind
                case OtherTrack => pub.kind)
  }

  const BLANK := Publication("", false, NoKind)

  function Add(p: Participant, sid: string, pub: Publication): Participant {
    p.(tracks := p.tracks[sid := pub],
       audio := if pub.kind == AudioKind then p.audio + {sid} else p.audio,
       video := if pub.kind == VideoKind then p.video + {sid} else p.video)
  }

  /** One listed track: a new publication, or an update of the one that is there. */
  function Listed(p: Participant, ti: TrackInfo): Participant {
    if ti.sid !in p.tracks then Add(p, ti.sid, Refreshed(BLANK, ti))
    else
      var pub := p.tracks[ti.sid];
      p.(tracks := p.tracks[ti.sid := Refreshed(pub, ti)],
         events := if ti.muted == pub.muted then p.events
           else p.events + multiset{if ti.muted then Muted(ti.sid) else Unmuted(ti.sid)})
  }

  function ListedAll(p: Participant, infos: seq<TrackInfo>): Participant {
    if infos == [] then p else Listed(ListedAll(p, infos[..|infos| - 1]), infos[|infos| - 1])
  }

  function Sids(infos: seq<TrackInfo>): set<string> {
    set i | 0 <= i < |infos| :: infos[i].sid
  }

  function Announced(p: Participant, sids: set<string>): Participant {
    p.(events := p.events + multiset(set sid | sid in sids :: Published(sid)))
  }

  function OfKind(p: Participant, sids: set<string>, kind: TrackKind): set<string> {
    set sid | sid in sids && sid in p.tracks && p.tracks[sid].kind == kind
  }

  function Without(p: Participant, sids: set<string>): Participant {
    p.(tracks := p.tracks - sids,
       audio := p.audio - OfKind(p, sids, AudioKind),
       video := p.video - OfKind(p, sids, VideoKind),
       events := p.events + multiset(set sid | sid in sids :: Unpublished(sid)))
  }

  /** One publication less. */
  function Withdrawn(p: Participant, sid: string, send: bool): Participant
    requires sid in p.tracks
  {
    p.(tracks := p.tracks - {sid},
       audio := if p.tracks[sid].kind == AudioKind then p.audio - {sid} else p.audio,
       video := if p.tracks[sid].kind == VideoKind then p.video - {sid} else p.video,
       events := Fired(p.events, send, Unpublished(sid)))
  }

  function Fired(events: multiset<Event>, condition: bool, e: Event): multiset<Event> {
    if condition then events + multiset{e} else events
  }

  function WithInfo(p: Participant, info: Info): Participant {
    var changes := Changes(p.attributes, info.attributes);
    p.(version := Some(info.version), who := info.who, metadata := info.metadata, attributes := info.attributes,
       events := Fired(Fired(p.events, p.metadata != info.metadata, MetadataChanged(p.metadata)),
           changes != map[], AttributesChanged(changes)))
  }

  predicate IsStale(p: Participant, info: Info) {
    p.version.Some? && p.version.value > info.version
  }

  function Reconciled(p: Participant, infos: seq<TrackInfo>): Participant {
    var listed := Announced(ListedAll(p, infos), Sids(infos) - p.tracks.Keys);
    Without(listed, listed.tracks.Keys - Sids(infos))
  }

  /** A description is ignored if a later one has been seen. */
  function Updated(p: Participant, info: Info): Participant {
    if IsStale(p, info) then p else Reconciled(WithInfo(p, info), info.tracks)
  }

  // ---- The order of events ----

  function FiredInOrder(condition: bool, e: Event): seq<Event> {
    if condition then [e] else []
  }

  function InfoEvents(p: Participant, info: Info): seq<Event> {
    var changes := Changes(p.attributes, info.attributes);
    FiredInOrder(p.metadata != info.metadata, MetadataChanged(p.metadata))
        + FiredInOrder(changes != map[], AttributesChanged(changes))
  }

  /** The mute event of one listed track, if any. */
  function MuteEvent(p: Participant, ti: TrackInfo): seq<Event> {
    FiredInOrder(ti.sid in p.tracks && ti.muted != p.tracks[ti.sid].muted,
        if ti.muted then Muted(ti.sid) else Unmuted(ti.sid))
  }

  /** The mute events of a list, in the order of the list. */
  function MuteEvents(p: Participant, infos: seq<TrackInfo>): seq<Event> {
    if infos == [] then []
    else
      var rest := infos[..|infos| - 1];
      MuteEvents(p, rest) + MuteEvent(ListedAll(p, rest), infos[|infos| - 1])
  }

  // ---- The participant as an object ----

  class RemoteParticipant {
    var version: Option<nat>
    var who: Who
    var metadata: string
    var attributes: map<string, string>
    var tracks: map<string, Publication>
    var audioTracks: set<string>
    var videoTracks: set<string>
    ghost var log: seq<Event>  // the callbacks fired, oldest first

    ghost function State(): Participant
      reads this
    {
      Participant(version, who, metadata, attributes, tracks, audioTracks, videoTracks, multiset(log))
    }

    constructor (info: Info)
      ensures State() == Updated(JOINING, info)
    {
      version, who, metadata, attributes := None, NOBODY, "", map[];
      tracks, audioTracks, videoTracks, log := map[], {}, {}, [];
      new;
      var _, _ := UpdateInfo(info);
    }

    method UpdateBase(info: Info) returns (accepted: bool)
      modifies this
      ensures accepted <==> !IsStale(old(State()), info)
      ensures State() == if accepted then WithInfo(old(State()), info) else old(State())
      ensures log == if accepted then old(log) + InfoEvents(old(State()), info) else old(log)
    {
      hide Changes, Fired, FiredInOrder;
      if version.Some? && version.value > info.version { return false; }
      version, who := Some(info.version), info.who;
      var oldMetadata := metadata;
      metadata := info.metadata;
      var changes := AttributeChanges(attributes, info.attributes);
      attributes := info.attributes;
      FireBoth(oldMetadata != metadata, MetadataChanged(oldMetadata), changes != map[], AttributesChanged(changes));
      return true;
    }

    method FireBoth(first: bool, d: Event, second: bool, e: Event)
      modifies this`log
      ensures log == old(log) + (FiredInOrder(first, d) + FiredInOrder(second, e))
      ensures multiset(log) == Fired(Fired(multiset(old(log)), first, d), second, e)
    {
      hide Fired, FiredInOrder;
      FireIf(first, d);
      FireIf(second, e);
    }

    method FireIf(condition: bool, e: Event)
      modifies this`log
      ensures log == old(log) + FiredInOrder(condition, e) && multiset(log) == Fired(multiset(old(log)), condition, e)
    {
      if condition { log := log + [e]; }
    }

    method AddPublication(sid: string, pub: Publication)
      modifies this`tracks, this`audioTracks, this`videoTracks
      ensures State() == Add(old(State()), sid, pub)
    {
      tracks := tracks[sid := pub];
      match pub.kind
      case AudioKind => audioTracks := audioTracks + {sid};
      case VideoKind => videoTracks := videoTracks + {sid};
      case NoKind =>
    }

    method ListTrack(ti: TrackInfo) returns (isNew: bool)
      modifies this`tracks, this`audioTracks, this`videoTracks, this`log
      ensures State() == Listed(old(State()), ti)
      ensures isNew <==> ti.sid !in old(tracks)
      ensures log == old(log) + MuteEvent(old(State()), ti)
    {
      isNew := ti.sid !in tracks;
      if isNew {
        AddPublication(ti.sid, Refreshed(BLANK, ti));
      } else {
        var wasMuted := tracks[ti.sid].muted;
        tracks := tracks[ti.sid := Refreshed(tracks[ti.sid], ti)];
        if ti.muted != wasMuted {
          log := log + [if ti.muted then Muted(ti.sid) else Unmuted(ti.sid)];
        }
      }
    }

    /** An unknown track is left alone. */
    method UnpublishTrack(sid: string, sendUnpublish: bool)
      modifies this`tracks, this`audioTracks, this`videoTracks, this`log
      ensures State() == if sid in old(tracks) then Withdrawn(old(State()), sid, sendUnpublish) else old(State())
      ensures log == old(log) + FiredInOrder(sid in old(tracks) && sendUnpublish, Unpublished(sid))
    {
      if sid !in tracks { return; }
      match tracks[sid].kind {
        case AudioKind => audioTracks := audioTracks - {sid};
        case VideoKind => videoTracks := videoTracks - {sid};
        case NoKind =>
      }
      tracks := tracks - {sid};
      if sendUnpublish { log := log + [Unpublished(sid)]; }
    }

    /** Brings the publications in line with a description. `published` and `unpublished` are the events
        for new and for vanished tracks, which fire after the others. */
    method UpdateInfo(info: Info) returns (ghost published: seq<Event>, ghost unpublished: seq<Event>)
      modifies this
      ensures State() == Updated(old(State()), info)
      ensures IsStale(old(State()), info) ==> log == old(log)
      ensures !IsStale(old(State()), info) ==>
                log == old(log) + InfoEvents(old(State()), info)
                    + MuteEvents(WithInfo(old(State()), info), info.tracks) + published + unpublished
      ensures (forall e :: e in published ==> e.Published?) && (forall e :: e in unpublished ==> e.Unpublished?)
    {
      published, unpublished := [], [];
      var accepted := UpdateBase(info);
      if !accepted { return; }
      hide Changes, InfoEvents, Announced, Without, WithInfo, Listed, MuteEvent;
      var added, valid := ListTracks(info.tracks);
      published := AnnounceNew(added);
      unpublished := RemoveOthers(valid);
    }

    /** The listed sids, and those of them that are new. */
    method ListTracks(infos: seq<TrackInfo>) returns (added: set<string>, valid: set<string>)
      modifies this`tracks, this`audioTracks, this`videoTracks, this`log
      ensures State() == ListedAll(old(State()), infos)
      ensures valid == Sids(infos) && added == Sids(infos) - old(tracks).Keys
      ensures log == old(log) + MuteEvents(old(State()), infos)
    {
      hide ListedAll, MuteEvents, Listed, MuteEvent, Sids;
      ghost var base := State();
      valid, added := {}, {};
      NothingListedYet(base);
      for i := 0 to |infos|
        invariant State() == ListedAll(base, infos[..i]) && log == old(log) + MuteEvents(base, infos[..i])
        invariant valid == Sids(infos[..i]) && added == Sids(infos[..i]) - base.tracks.Keys
      {
        var isNew := ListTrack(infos[i]);
        if isNew { added := added + {infos[i].sid}; }
        valid := valid + {infos[i].sid};
        ListedSnoc(base, infos, i);
        SidsSnoc(infos, i);
        NewSidsSnoc(base, infos, i);
      }
      assert infos[..|infos|] == infos;
    }

    /** Fires an event for every new publication, in any order. */
    method AnnounceNew(sids: set<string>) returns (ghost fired: seq<Event>)
      modifies this`log
      ensures State() == Announced(old(State()), sids)
      ensures log == old(log) + fired && forall e :: e in fired ==> e.Published?
    {
      fired := [];
      var todo := sids;
      while todo != {}
        invariant todo <= sids
        invariant log == old(log) + fired && forall e :: e in fired ==> e.Published?
        invariant multiset(log) == multiset(old(log)) + multiset(set sid | sid in sids - todo :: Published(sid))
        decreases todo
      {
        var sid := AnyOf(todo);
        log := log + [Published(sid)];
        fired := fired + [Published(sid)];
        PublishedOneMore(sids - todo, sid);
        assert sids - (todo - {sid}) == (sids - todo) + {sid};
        todo := todo - {sid};
      }
      assert sids - {} == sids;
    }

    method RemoveOthers(valid: set<string>) returns (ghost fired: seq<Event>)
      modifies this`tracks, this`audioTracks, this`videoTracks, this`log
      ensures State() == Without(old(State()), old(tracks).Keys - valid)
      ensures log == old(log) + fired && forall e :: e in fired ==> e.Unpublished?
    {
      hide Without, Withdrawn;
      fired := [];
      var todo := tracks.Keys - valid;
      ghost var all := todo;
      ghost var p := State();
      WithoutNone(p);
      assert all - todo == {};
      while todo != {}
        invariant todo <= all
        invariant State() == Without(p, all - todo)
        invariant log == old(log) + fired && forall e :: e in fired ==> e.Unpublished?
        decreases todo
      {
        var sid := AnyOf(todo);
        WithoutOneMore(p, all - todo, sid);
        UnpublishTrack(sid, true);
        fired := fired + [Unpublished(sid)];
        assert all - (todo - {sid}) == (all - todo) + {sid};
        todo := todo - {sid};
      }
      assert all - {} == all;
    }
  }

  lemma NothingListedYet(p: Participant)
    ensures ListedAll(p, []) == p && MuteEvents(p, []) == [] && Sids([]) == {}
  {
  }

  lemma ListedSnoc(p: Participant, infos: seq<TrackInfo>, i: nat)
    requires i < |infos|
    ensures ListedAll(p, infos[..i + 1]) == Listed(ListedAll(p, infos[..i]), infos[i])
    ensures MuteEvents(p, infos[..i + 1]) == MuteEvents(p, infos[..i]) + MuteEvent(ListedAll(p, infos[..i]), infos[i])
  {
    assert infos[..i + 1][..i] == infos[..i];
  }

  lemma SidsSnoc(infos: seq<TrackInfo>, i: nat)
    requires i < |infos|
    ensures Sids(infos[..i + 1]) == Sids(infos[..i]) + {infos[i].sid}
  {
  }

  lemma {:induction false} ListedKeys(p: Participant, infos: seq<TrackInfo>)
    ensures ListedAll(p, infos).tracks.Keys == p.tracks.Keys + Sids(infos)
  {
    var n := |infos|;
    if n > 0 {
      ListedKeys(p, infos[..n - 1]);
      SidsSnoc(infos, n - 1);
      assert infos[..n] == infos;
    }
  }

  lemma NewSidsSnoc(p: Participant, infos: seq<TrackInfo>, i: nat)
    requires i < |infos|
    ensures Sids(infos[..i + 1]) - p.tracks.Keys ==
              if infos[i].sid in ListedAll(p, infos[..i]).tracks then Sids(infos[..i]) - p.tracks.Keys
              else Sids(infos[..i]) - p.tracks.Keys + {infos[i].sid}
  {
    hide ListedAll, Sids;
    SidsSnoc(infos, i);
    ListedKeys(p, infos[..i]);
  }

  lemma PublishedOneMore(sids: set<string>, sid: string)
    requires sid !in sids
    ensures multiset(set x | x in sids + {sid} :: Published(x)) ==
              multiset(set x | x in sids :: Published(x)) + multiset{Published(sid)}
  {
  }

  lemma UnpublishedOneMore(sids: set<string>, sid: string)
    requires sid !in sids
    ensures multiset(set x | x in sids + {sid} :: Unpublished(x)) ==
              multiset(set x | x in sids :: Unpublished(x)) + multiset{Unpublished(sid)}
  {
  }

  lemma WithoutNone(p: Participant)
    ensures Without(p, {}) == p
  {
  }

  lemma WithoutKinds(p: Participant, sids: set<string>, sid: string, kind: TrackKind)
    requires sid !in sids && sid in p.tracks
    ensures OfKind(p, sids + {sid}, kind) == OfKind(p, sids, kind) + if p.tracks[sid].kind == kind then {sid} else {}
  {
  }

  lemma WithoutOneMore(p: Participant, sids: set<string>, sid: string)
    requires sid !in sids && sid in p.tracks
    ensures sid in Without(p, sids).tracks
    ensures Without(p, sids + {sid}) == Withdrawn(Without(p, sids), sid, true)
  {
    var q, r := Without(p, sids), Withdrawn(Without(p, sids), sid, true);
    var t := Without(p, sids + {sid});
    assert t.events == r.events by { UnpublishedOneMore(sids, sid); }
    assert t.tracks == r.tracks by { assert p.tracks - sids - {sid} == p.tracks - (sids + {sid}); }
    WithoutKinds(p, sids, sid, AudioKind);
    WithoutKinds(p, sids, sid, VideoKind);
    hide OfKind;
    assert q.tracks[sid] == p.tracks[sid];
    MinusTwo(p.audio, OfKind(p, sids, AudioKind), sid);
    MinusTwo(p.video, OfKind(p, sids, VideoKind), sid);
  }

  lemma MinusTwo(a: set<string>, b: set<string>, sid: string)
    ensures a - (b + {sid}) == a - b - {sid} && b + {} == b
  {
  }

  // ---- Versions and listed tracks ----

  ghost predicate IsRun(states: seq<Participant>, infos: seq<Info>) {
    && |states| == |infos| + 1 && states[0] == JOINING
    && forall i :: 0 <= i < |infos| ==> states[i + 1] == Updated(states[i], infos[i])
  }

  /** The version of an accepted description is the stored one, and an ignored one changes nothing. */
  lemma UpdateVersion(p: Participant, info: Info)
    ensures IsStale(p, info) ==> Updated(p, info) == p
    ensures !IsStale(p, info) ==> Updated(p, info).version == Some(info.version)
  {
    if !IsStale(p, info) {
      ListedKeepsRest(WithInfo(p, info), info.tracks);
    }
  }

  lemma {:induction false} ListedKeepsRest(p: Participant, infos: seq<TrackInfo>)
    ensures var q := ListedAll(p, infos);
            q.version == p.version && q.metadata == p.metadata && q.attributes == p.attributes
  {
    if infos != [] {
      ListedKeepsRest(p, infos[..|infos| - 1]);
    }
  }

  /** The stored version never goes down. */
  lemma {:induction false} VersionNeverGoesDown(states: seq<Participant>, infos: seq<Info>, i: nat, j: nat)
    requires IsRun(states, infos) && i <= j < |states| && states[i].version.Some?
    ensures states[j].version.Some? && states[i].version.value <= states[j].version.value
    decreases j - i
  {
    if i < j {
      VersionNeverGoesDown(states, infos, i, j - 1);
      UpdateVersion(states[j - 1], infos[j - 1]);
    }
  }

  /** After an accepted description the publications are exactly the listed tracks. */
  lemma TracksAreListed(p: Participant, info: Info)
    requires !IsStale(p, info)
    ensures Updated(p, info).tracks.Keys == Sids(info.tracks)
  {
    ListedKeys(WithInfo(p, info), info.tracks);
  }

  // ---- Events ----

  /** Published minus unpublished events of every track: one if it is there, zero if not. */
  ghost predicate Balanced(p: Participant) {
    forall sid :: p.events[Published(sid)] == p.events[Unpublished(sid)] + if sid in p.tracks then 1 else 0
  }

  lemma {:induction false} ListedPublicationEvents(p: Participant, infos: seq<TrackInfo>, sid: string)
    ensures var q := ListedAll(p, infos);
            q.events[Published(sid)] == p.events[Published(sid)]
                && q.events[Unpublished(sid)] == p.events[Unpublished(sid)]
  {
    if infos != [] {
      ListedPublicationEvents(p, infos[..|infos| - 1], sid);
    }
  }

  lemma ReconcileKeepsBalance(p: Participant, infos: seq<TrackInfo>)
    requires Balanced(p)
    ensures Balanced(Reconciled(p, infos))
  {
    hide ListedAll;
    var q := Reconciled(p, infos);
    ListedKeys(p, infos);
    forall sid
      ensures q.events[Published(sid)] == q.events[Unpublished(sid)] + if sid in q.tracks then 1 else 0
    {
      ListedPublicationEvents(p, infos, sid);
    }
  }

  lemma InfoKeepsBalance(p: Participant, info: Info)
    requires Balanced(p)
    ensures Balanced(WithInfo(p, info))
  {
  }

  /** At every moment of every run, published and unpublished events agree with the publications. */
  lemma {:induction false} EventsAreBalanced(states: seq<Participant>, infos: seq<Info>, i: nat)
    requires IsRun(states, infos) && i < |states|
    ensures Balanced(states[i])
  {
    hide Reconciled, WithInfo;
    if i > 0 {
      EventsAreBalanced(states, infos, i - 1);
      var p, info := states[i - 1], infos[i - 1];
      if !IsStale(p, info) {
        InfoKeepsBalance(p, info);
        ReconcileKeepsBalance(WithInfo(p, info), info.tracks);
      }
    }
  }

  function Bit(b: bool): int { if b then 1 else 0 }

  function MuteBalance(p: Participant, sid: string): int {
    var muted: int, unmuted: int := p.events[Muted(sid)], p.events[Unmuted(sid)];
    muted - unmuted
  }

  lemma {:induction false} ListedMuteEvents(p: Participant, infos: seq<TrackInfo>, sid: string)
    requires sid in p.tracks
    ensures var q := ListedAll(p, infos);
            && sid in q.tracks
            && MuteBalance(q, sid) - MuteBalance(p, sid) == Bit(q.tracks[sid].muted) - Bit(p.tracks[sid].muted)
  {
    if infos != [] {
      ListedMuteEvents(p, infos[..|infos| - 1], sid);
    }
  }

  /** For a track that stays, muted minus unmuted events follow the change of its muted flag. */
  lemma MuteEventsFollowFlag(p: Participant, info: Info, sid: string)
    requires sid in p.tracks && sid in Updated(p, info).tracks
    ensures var q := Updated(p, info);
            MuteBalance(q, sid) - MuteBalance(p, sid) == Bit(q.tracks[sid].muted) - Bit(p.tracks[sid].muted)
  {
    if !IsStale(p, info) {
      ListedMuteEvents(WithInfo(p, info), info.tracks, sid);
    }
  }

  // ---- Audio and video ----

  ghost predicate KindsAgree(p: Participant) {
    p.audio == OfKind(p, p.tracks.Keys, AudioKind) && p.video == OfKind(p, p.tracks.Keys, VideoKind)
  }

  function KindOf(t: TrackType): TrackKind {
    match t case AudioTrack => AudioKind case VideoTrack => VideoKind case OtherTrack => NoKind
  }

  /** The kind that the first entry for a track gives it. */
  function FirstKind(infos: seq<TrackInfo>, sid: string): TrackKind {
    if infos == [] then NoKind
    else if sid in Sids(infos[..|infos| - 1]) then FirstKind(infos[..|infos| - 1], sid)
    else if infos[|infos| - 1].sid == sid then KindOf(infos[|infos| - 1].trackType)
    else NoKind
  }

  /** The last audio or video type listed for a track. */
  function LastKind(infos: seq<TrackInfo>, sid: string): TrackKind {
    if infos == [] then NoKind
    else
      var last := infos[|infos| - 1];
      if last.sid == sid && last.trackType != OtherTrack then KindOf(last.trackType)
      else LastKind(infos[..|infos| - 1], sid)
  }

  /** The kind under which a track is filed: the one it has, or the first one listed. */
  function FiledKind(p: Participant, infos: seq<TrackInfo>, sid: string): TrackKind {
    if sid in p.tracks then p.tracks[sid].kind else FirstKind(infos, sid)
  }

  function FinalKind(p: Participant, infos: seq<TrackInfo>, sid: string): TrackKind {
    if LastKind(infos, sid) != NoKind then LastKind(infos, sid) else FiledKind(p, infos, sid)
  }

  lemma {:induction false} UnlistedHasNoKind(infos: seq<TrackInfo>, sid: string)
    requires sid !in Sids(infos)
    ensures FirstKind(infos, sid) == NoKind && LastKind(infos, sid) == NoKind
  {
    var n := |infos|;
    if n > 0 {
      SidsSnoc(infos, n - 1);
      assert infos[..n] == infos;
      UnlistedHasNoKind(infos[..n - 1], sid);
    }
  }

  lemma ListedOneKind(p: Participant, ti: TrackInfo, sid: string)
    ensures var q := Listed(p, ti);
            if sid == ti.sid then
              && sid in q.tracks
              && q.tracks[sid].kind == (if ti.trackType != OtherTrack then KindOf(ti.trackType)
                   else if sid in p.tracks then p.tracks[sid].kind else NoKind)
              && (sid in q.audio <==> sid in p.audio || (sid !in p.tracks && KindOf(ti.trackType) == AudioKind))
              && (sid in q.video <==> sid in p.video || (sid !in p.tracks && KindOf(ti.trackType) == VideoKind))
            else
              && (sid in q.tracks <==> sid in p.tracks)
              && (sid in q.tracks ==> q.tracks[sid] == p.tracks[sid])
              && (sid in q.audio <==> sid in p.audio)
              && (sid in q.video <==> sid in p.video)
  {
  }

  lemma {:induction false} ListedKinds(p: Participant, infos: seq<TrackInfo>, sid: string)
    ensures var q := ListedAll(p, infos);
            && (sid in q.tracks <==> sid in p.tracks || sid in Sids(infos))
            && (sid in q.tracks ==> q.tracks[sid].kind == FinalKind(p, infos, sid))
            && (sid in q.audio <==> sid in p.audio || (sid !in p.tracks && FirstKind(infos, sid) == AudioKind))
            && (sid in q.video <==> sid in p.video || (sid !in p.tracks && FirstKind(infos, sid) == VideoKind))
  {
    hide Listed, Sids;
    var n := |infos|;
    if n == 0 {
      assert sid !in Sids([]) by { NothingListed(sid); }
    } else {
      var rest, last := infos[..n - 1], infos[n - 1];
      ListedKinds(p, rest, sid);
      ListedOneKind(ListedAll(p, rest), last, sid);
      SidsSnoc(infos, n - 1);
      assert infos[..n] == infos;
      if sid !in Sids(rest) {
        UnlistedHasNoKind(rest, sid);
      }
    }
  }

  lemma NothingListed(sid: string)
    ensures sid !in Sids([])
  {
  }

  /** Audio and video maps agree with the tracks after an accepted description if and only if it lists
      no track with a last type other than the kind under which the track is filed. */
  lemma KindsAgreeIff(p: Participant, info: Info)
    requires KindsAgree(p) && !IsStale(p, info)
    ensures KindsAgree(Updated(p, info)) <==>
              forall sid :: sid in Sids(info.tracks) ==>
                  LastKind(info.tracks, sid) in {NoKind, FiledKind(p, info.tracks, sid)}
  {
    hide Updated, Sids, LastKind, FirstKind;
    var q := Updated(p, info);
    forall sid
      ensures sid in Sids(info.tracks) ==>
                && (sid in q.audio <==> FiledKind(p, info.tracks, sid) == AudioKind)
                && (sid in q.video <==> FiledKind(p, info.tracks, sid) == VideoKind)
                && sid in q.tracks && q.tracks[sid].kind == FinalKind(p, info.tracks, sid)
      ensures sid !in Sids(info.tracks) ==> sid !in q.tracks && sid !in q.audio && sid !in q.video
    {
      FiledAfterUpdate(p, info, sid);
    }
    if KindsAgree(q) {
      forall sid | sid in Sids(info.tracks)
        ensures LastKind(info.tracks, sid) in {NoKind, FiledKind(p, info.tracks, sid)}
      {
        assert sid in q.audio <==> q.tracks[sid].kind == AudioKind;
        assert sid in q.video <==> q.tracks[sid].kind == VideoKind;
      }
    }
  }

  lemma FiledAfterUpdate(p: Participant, info: Info, sid: string)
    requires KindsAgree(p) && !IsStale(p, info)
    ensures var q := Updated(p, info);
            if sid in Sids(info.tracks) then
              && (sid in q.audio <==> FiledKind(p, info.tracks, sid) == AudioKind)
              && (sid in q.video <==> FiledKind(p, info.tracks, sid) == VideoKind)
              && sid in q.tracks && q.tracks[sid].kind == FinalKind(p, info.tracks, sid)
            else sid !in q.tracks && sid !in q.audio && sid !in q.video
  {
    ListedKinds(WithInfo(p, info), info.tracks, sid);
    if sid !in Sids(info.tracks) {
      UnlistedHasNoKind(info.tracks, sid);
    }
  }

  /** Every description gives a track the same type. */
  ghost predicate TypesAreFixed(infos: seq<Info>, typeOf: string -> TrackType) {
    forall i, k :: 0 <= i < |infos| && 0 <= k < |infos[i].tracks| ==>
        infos[i].tracks[k].trackType == typeOf(infos[i].tracks[k].sid)
  }

  lemma {:induction false} FixedKinds(infos: seq<TrackInfo>, typeOf: string -> TrackType, sid: string)
    requires forall k :: 0 <= k < |infos| ==> infos[k].trackType == typeOf(infos[k].sid)
    ensures sid in Sids(infos) ==>
              FirstKind(infos, sid) == KindOf(typeOf(sid)) && LastKind(infos, sid) == KindOf(typeOf(sid))
  {
    var n := |infos|;
    if n > 0 {
      FixedKinds(infos[..n - 1], typeOf, sid);
      SidsSnoc(infos, n - 1);
      assert infos[..n] == infos;
      if sid !in Sids(infos[..n - 1]) {
        UnlistedHasNoKind(infos[..n - 1], sid);
      }
    }
  }

  lemma JoiningAgrees()
    ensures KindsAgree(JOINING)
  {
  }

  /** In a run where no track changes its type, the audio and video maps always agree with the tracks. */
  lemma {:induction false} FixedTypesKeepKinds(
    states: seq<Participant>, infos: seq<Info>, typeOf: string -> TrackType, i: nat)
    requires IsRun(states, infos) && i < |states| && TypesAreFixed(infos, typeOf)
    ensures KindsAgree(states[i])
    ensures forall sid :: sid in states[i].tracks ==> states[i].tracks[sid].kind == KindOf(typeOf(sid))
  {
    hide Updated, Sids, LastKind, FirstKind, KindsAgree;
    if i == 0 {
      JoiningAgrees();
    } else {
      FixedTypesKeepKinds(states, infos, typeOf, i - 1);
      var p, info := states[i - 1], infos[i - 1];
      UpdateVersion(p, info);
      if !IsStale(p, info) {
        forall sid
          ensures sid in Sids(info.tracks) ==>
                    LastKind(info.tracks, sid) == FiledKind(p, info.tracks, sid) == KindOf(typeOf(sid))
        {
          FixedKinds(info.tracks, typeOf, sid);
        }
        KindsAgreeIff(p, info);
        forall sid | sid in states[i].tracks
          ensures states[i].tracks[sid].kind == KindOf(typeOf(sid))
        {
          FiledAfterUpdate(p, info, sid);
        }
      }
    }
  }

  lemma OneTrack(ti: TrackInfo)
    ensures Sids([ti]) == {ti.sid} && FirstKind([ti], ti.sid) == LastKind([ti], ti.sid) == KindOf(ti.trackType)
  {
    assert [ti][0] == ti && [ti][..0] == [];
    NothingListed(ti.sid);
  }

  /** A track that turns from audio into video stays among the audio tracks, even after it is gone. */
  lemma ChangedTypeLeavesTrace()
    ensures var p := Updated(JOINING, Info(1, NOBODY, "", map[], [TrackInfo("t", "", false, AudioTrack)]));
            var q := Updated(p, Info(2, NOBODY, "", map[], [TrackInfo("t", "", false, VideoTrack)]));
            var r := Updated(q, Info(3, NOBODY, "", map[], []));
            KindsAgree(p) && r.tracks.Keys == {} && "t" in r.audio
  {
    hide Sids, LastKind, FirstKind, KindsAgree, Reconciled;
    var one, two, three := Info(1, NOBODY, "", map[], [TrackInfo("t", "", false, AudioTrack)]),
        Info(2, NOBODY, "", map[], [TrackInfo("t", "", false, VideoTrack)]), Info(3, NOBODY, "", map[], []);
    var p := Updated(JOINING, one);
    var q := Updated(p, two);
    OneTrack(one.tracks[0]);
    OneTrack(two.tracks[0]);
    JoiningAgrees();
    KindsAgreeIff(JOINING, one);
    FiledAfterUpdate(JOINING, one, "t");
    UpdateVersion(JOINING, one);
    FiledAfterUpdate(p, two, "t");
    UpdateVersion(p, two);
    TracksAreListed(q, three);
    assert Sids([]) == {} by { NoSids(); }
    StaleAudioSurvives(WithInfo(q, three), "t");
  }

  lemma NoSids()
    ensures Sids([]) == {}
  {
  }

  lemma StaleAudioSurvives(p: Participant, sid: string)
    requires sid in p.tracks && p.tracks[sid].kind == VideoKind && sid in p.audio
    ensures sid in Reconciled(p, []).audio
  {
  }
}
