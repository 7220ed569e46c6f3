/** The media engine: its registered codecs and header extensions, and what remote descriptions
    make of them. */
module MediaEngine {
  import opened Wrappers
  import opened Codecs
  import opened HeaderExtensions

  // ---- The engine as a value ----

  /** The codecs of one kind. */
  datatype KindState = KindState(locals: seq<Codec>, negotiated: bool, codecs: seq<Codec>)

  datatype Engine = Engine(audio: KindState, video: KindState, extensions: Extensions)
  {
    function Of(kind: Kind): KindState
      requires kind != OtherKind
    {
      if kind == Audio then audio else video
    }

    function With(kind: Kind, k: KindState): Engine
      requires kind != OtherKind
    {
      if kind == Audio then this.(audio := k) else this.(video := k)
    }
  }

  /** A media section of a session description. The extensions come in the order in which the engine
      happens to visit them. */
  datatype Section = Section(kind: Kind, codecs: Result<seq<Codec>, CodecError>,
      extensions: Result<seq<(string, int)>, CodecError>)

  function UpdateSectionExtensions(e: Engine, s: Section): (Engine, Option<CodecError>) {
    if s.kind == OtherKind then (e, None)
    else
      match s.extensions
      case Err(x) => (e, Some(x))
      case Ok(list) => (e.(extensions := UpdatedAll(e.extensions, list, s.kind)), None)
  }

  function UpdateSection(f: Fmtp, e: Engine, s: Section): (Engine, Option<CodecError>) {
    if s.kind == OtherKind || e.Of(s.kind).negotiated then UpdateSectionExtensions(e, s)
    else
      var k := e.Of(s.kind).(negotiated := true);
      var accepted := match s.codecs case Err(x) => Err(x) case Ok(codecs) => Classify(f, k.locals, codecs);
      match accepted
      case Err(x) => (e.With(s.kind, k), Some(x))
      case Ok(a) =>
        if Chosen(a) == [] then (e.With(s.kind, k), None)
        else UpdateSectionExtensions(e.With(s.kind, k.(codecs := PushCodecs(k.codecs, Chosen(a)))), s)
  }

  /** Goes through the sections and stops at the first error, keeping what was done before it. */
  function UpdateFromRemote(f: Fmtp, e: Engine, sections: seq<Section>): (Engine, Option<CodecError>)
    decreases |sections|
  {
    if sections == [] then (e, None)
    else
      var (e', error) := UpdateSection(f, e, sections[0]);
      if error.Some? then (e', error) else UpdateFromRemote(f, e', sections[1..])
  }

  // ---- Runs ----

  datatype Step =
    | RegisterCodec(kind: Kind, codec: Codec)
    | RegisterExtension(uri: string, kind': Kind, directions: seq<Direction>)
    | RemoteDescription(sections: seq<Section>)

  function Apply(f: Fmtp, e: Engine, step: Step): Engine {
    match step
    case RegisterCodec(kind, codec) =>
      if kind == OtherKind then e else e.With(kind, e.Of(kind).(locals := AddCodec(e.Of(kind).locals, codec)))
    case RegisterExtension(uri, kind, directions) =>
      if DirectionsAreValid(Allowed(directions)) then
        e.(extensions := e.extensions.(locals := Registered(e.extensions.locals, uri, kind, Allowed(directions))))
      else e
    case RemoteDescription(sections) => UpdateFromRemote(f, e, sections).0
  }

  const EMPTY := Engine(KindState([], false, []), KindState([], false, []), Extensions([], map[]))

  ghost predicate IsRun(f: Fmtp, states: seq<Engine>, steps: seq<Step>) {
    && |states| == |steps| + 1 && states[0] == EMPTY
    && forall i :: 0 <= i < |steps| ==> states[i + 1] == Apply(f, states[i], steps[i])
  }

  /** A negotiated list holds no entry twice and is all exact or all partial matches against the
      codecs that were registered when it was made. */
  ghost predicate KindInv(f: Fmtp, k: KindState) {
    && (!k.negotiated ==> k.codecs == [])
    && EntriesDiffer(k.codecs)
    && exists n, quality :: 0 <= n <= |k.locals| && Uniform(f, k.locals[..n], k.codecs, quality)
  }

  ghost predicate EngineInv(f: Fmtp, e: Engine) {
    KindInv(f, e.audio) && KindInv(f, e.video) && ExtensionsInv(e.extensions)
  }

  /** What later states keep of an earlier one. */
  ghost predicate KindKept(k: KindState, k': KindState) {
    k.locals <= k'.locals && (k.negotiated ==> k'.negotiated && k'.codecs == k.codecs)
  }

  ghost predicate Kept(e: Engine, e': Engine) {
    KindKept(e.audio, e'.audio) && KindKept(e.video, e'.video) && IdsKeepTheirUris(e.extensions, e'.extensions)
  }

  lemma MoreLocalsKeepKindInv(f: Fmtp, k: KindState, c: Codec)
    requires KindInv(f, k)
    ensures KindInv(f, k.(locals := AddCodec(k.locals, c)))
  {
    var n, quality :| 0 <= n <= |k.locals| && Uniform(f, k.locals[..n], k.codecs, quality);
    assert AddCodec(k.locals, c)[..n] == k.locals[..n];
  }

  lemma NegotiationKeepsKindInv(f: Fmtp, k: KindState, codecs: seq<Codec>)
    requires KindInv(f, k) && !k.negotiated
    requires Classify(f, k.locals, codecs).Ok?
    ensures KindInv(f, k.(negotiated := true,
              codecs := PushCodecs(k.codecs, Chosen(Classify(f, k.locals, codecs).value))))
  {
    var a := Classify(f, k.locals, codecs).value;
    NegotiatedListIsUniform(f, k.locals, codecs);
    PushedEntries(Chosen(a));
    assert k.locals[..|k.locals|] == k.locals;
  }

  lemma SectionKeepsEngineInv(f: Fmtp, e: Engine, s: Section)
    requires EngineInv(f, e)
    ensures EngineInv(f, UpdateSection(f, e, s).0)
    ensures Kept(e, UpdateSection(f, e, s).0)
  {
    hide KindInv, Classify;
    if s.extensions.Ok? {
      UpdatesKeepIds(e.extensions, s.extensions.value, s.kind);
    }
    if s.kind != OtherKind && !e.Of(s.kind).negotiated {
      var k := e.Of(s.kind);
      assert KindInv(f, k.(negotiated := true)) by { FlagKeepsKindInv(f, k); }
      if s.codecs.Ok? && Classify(f, k.locals, s.codecs.value).Ok? {
        NegotiationKeepsKindInv(f, k, s.codecs.value);
      }
    }
  }

  lemma FlagKeepsKindInv(f: Fmtp, k: KindState)
    requires KindInv(f, k)
    ensures KindInv(f, k.(negotiated := true))
  {
  }

  lemma {:induction false} RemoteDescriptionKeepsEngineInv(f: Fmtp, e: Engine, sections: seq<Section>)
    requires EngineInv(f, e)
    ensures EngineInv(f, UpdateFromRemote(f, e, sections).0)
    ensures Kept(e, UpdateFromRemote(f, e, sections).0)
    decreases |sections|
  {
    if sections != [] {
      SectionKeepsEngineInv(f, e, sections[0]);
      hide UpdateSection, EngineInv;
      RemoteDescriptionKeepsEngineInv(f, UpdateSection(f, e, sections[0]).0, sections[1..]);
    }
  }

  lemma StepKeepsEngineInv(f: Fmtp, e: Engine, step: Step)
    requires EngineInv(f, e)
    ensures EngineInv(f, Apply(f, e, step)) && Kept(e, Apply(f, e, step))
  {
    match step
    case RegisterCodec(kind, codec) =>
      if kind != OtherKind {
        MoreLocalsKeepKindInv(f, e.Of(kind), codec);
      }
    case RegisterExtension(uri, kind, directions) =>
      RegisterKeepsExtensionsInv(e.extensions, uri, kind, Allowed(directions));
    case RemoteDescription(sections) =>
      RemoteDescriptionKeepsEngineInv(f, e, sections);
  }

  lemma {:induction false} RunKeepsEngineInv(f: Fmtp, states: seq<Engine>, steps: seq<Step>, i: nat)
    requires IsRun(f, states, steps) && i < |states|
    ensures EngineInv(f, states[i])
  {
    if i == 0 {
      assert Uniform(f, [][..0], [], Exact);
      assert KindInv(f, EMPTY.audio) && KindInv(f, EMPTY.video);
    } else {
      RunKeepsEngineInv(f, states, steps, i - 1);
      StepKeepsEngineInv(f, states[i - 1], steps[i - 1]);
    }
  }

  /** Once a kind is negotiated its codec list never changes, and a negotiated header-extension id
      never changes its URI, for the rest of the run. */
  lemma {:induction false} NegotiatedStaysNegotiated(f: Fmtp, states: seq<Engine>, steps: seq<Step>, i: nat, j: nat)
    requires IsRun(f, states, steps) && i <= j < |states|
    ensures Kept(states[i], states[j])
    decreases j - i
  {
    if i < j {
      NegotiatedStaysNegotiated(f, states, steps, i, j - 1);
      RunKeepsEngineInv(f, states, steps, j - 1);
      StepKeepsEngineInv(f, states[j - 1], steps[j - 1]);
    }
  }

  /** In every reachable state a negotiated codec with an associated payload type comes after a codec
      with that payload type, and the list of a kind is all exact or all partial. */
  lemma NegotiatedCodecsOfRun(f: Fmtp, states: seq<Engine>, steps: seq<Step>, i: nat, kind: Kind)
    requires IsRun(f, states, steps) && i < |states| && kind != OtherKind
    ensures var k := states[i].Of(kind);
            && (exists n, quality :: 0 <= n <= |k.locals| && Uniform(f, k.locals[..n], k.codecs, quality))
            && (forall a :: 0 <= a < |k.codecs| ==> AptOf(f, k.codecs[a]) != Malformed)
            && (forall a :: 0 <= a < |k.codecs| && AptOf(f, k.codecs[a]).Apt? ==>
                  exists b :: 0 <= b < a && k.codecs[b].payloadType == AptOf(f, k.codecs[a]).payloadType)
  {
    RunKeepsEngineInv(f, states, steps, i);
    var k := states[i].Of(kind);
    assert KindInv(f, k);
    var n, quality :| 0 <= n <= |k.locals| && Uniform(f, k.locals[..n], k.codecs, quality);
    forall a | 0 <= a < |k.codecs| && AptOf(f, k.codecs[a]) != Missing
      ensures AptOf(f, k.codecs[a]).Apt?
      ensures exists b :: 0 <= b < a && k.codecs[b].payloadType == AptOf(f, k.codecs[a]).payloadType
    {
      AptIsPreceded(f, k.locals[..n], k.codecs, quality, a);
    }
  }

  // ---- The engine as an object ----

  lemma OwnerAt(codecs: seq<Codec>, p: nat, i: nat)
    requires i < |codecs| && codecs[i].payloadType == p && forall j :: 0 <= j < i ==> codecs[j].payloadType != p
    ensures Owner(codecs, p) == Some(codecs[i])
  {
  }

  lemma {:induction false} ClassifyStopsAtError(f: Fmtp, locals: seq<Codec>, codecs: seq<Codec>, n: nat)
    requires n <= |codecs| && Classify(f, locals, codecs[..n]).Err?
    ensures Classify(f, locals, codecs) == Classify(f, locals, codecs[..n])
  {
    if n < |codecs| {
      var rest := codecs[..|codecs| - 1];
      assert rest[..n] == codecs[..n];
      ClassifyStopsAtError(f, locals, rest, n);
    } else {
      assert codecs[..n] == codecs;
    }
  }

  class Media {
    const fmtp: Fmtp
    var audioCodecs: seq<Codec>
    var videoCodecs: seq<Codec>
    var negotiatedAudio: bool
    var negotiatedVideo: bool
    var negotiatedAudioCodecs: seq<Codec>
    var negotiatedVideoCodecs: seq<Codec>
    var headerExtensions: seq<HeaderExtension>
    var negotiatedHeaderExtensions: map<int, HeaderExtension>

    ghost function State(): Engine
      reads this
    {
      Engine(KindState(audioCodecs, negotiatedAudio, negotiatedAudioCodecs),
             KindState(videoCodecs, negotiatedVideo, negotiatedVideoCodecs),
             Extensions(headerExtensions, negotiatedHeaderExtensions))
    }

    constructor (fmtp: Fmtp)
      ensures State() == EMPTY && this.fmtp == fmtp
    {
      this.fmtp := fmtp;
      audioCodecs, videoCodecs, negotiatedAudioCodecs, negotiatedVideoCodecs := [], [], [], [];
      negotiatedAudio, negotiatedVideo := false, false;
      headerExtensions, negotiatedHeaderExtensions := [], map[];
    }

    static method AddCodecTo(codecs: seq<Codec>, codec: Codec) returns (r: seq<Codec>)
      ensures r == AddCodec(codecs, codec)
    {
      for i := 0 to |codecs|
        invariant forall k :: 0 <= k < i ==> !SameEntry(codecs[k], codec)
      {
        if SameEntry(codecs[i], codec) { return codecs; }
      }
      return codecs + [codec];
    }

    method RegisterCodec(codec: Codec, kind: Kind) returns (ok: bool)
      modifies this
      ensures ok <==> kind != OtherKind
      ensures State() == Apply(fmtp, old(State()), Step.RegisterCodec(kind, codec))
    {
      match kind {
        case Audio => audioCodecs := AddCodecTo(audioCodecs, codec);
        case Video => videoCodecs := AddCodecTo(videoCodecs, codec);
        case OtherKind => return false;
      }
      return true;
    }

    method RegisterHeaderExtension(uri: string, kind: Kind, directions: seq<Direction>) returns (ok: bool)
      modifies this`headerExtensions
      ensures ok <==> DirectionsAreValid(Allowed(directions))
      ensures State() == Apply(fmtp, old(State()), RegisterExtension(uri, kind, directions))
    {
      var allowed := Allowed(directions);
      for i := 0 to |allowed|
        invariant DirectionsAreValid(allowed[..i])
      {
        if allowed[i] != RecvOnly && allowed[i] != SendOnly { return false; }
      }
      var index := -1;
      for i := 0 to |headerExtensions|
        invariant index == match IndexOf(headerExtensions[..i], uri) case None => -1 case Some(k) => k
      {
        assert headerExtensions[..i + 1][..i] == headerExtensions[..i];
        if uri == headerExtensions[i].uri { index := i; }
      }
      assert headerExtensions[..|headerExtensions|] == headerExtensions;
      if index == -1 {
        headerExtensions := headerExtensions + [HeaderExtension("", false, false, [])];
        index := |headerExtensions| - 1;
      }
      var e := headerExtensions[index];
      if kind == Audio { e := e.(isAudio := true); } else if kind == Video { e := e.(isVideo := true); }
      headerExtensions := headerExtensions[index := e.(uri := uri, directions := allowed)];
      return true;
    }

    method MatchRemoteCodec(
      remote: Codec, kind: Kind, exact: seq<Codec>, partial: seq<Codec>) returns (r: Result<Quality, CodecError>)
      requires kind != OtherKind
      ensures r == MatchRemote(fmtp, State().Of(kind).locals, remote, exact, partial)
    {
      var locals := if kind == Audio then audioCodecs else videoCodecs;
      match AptOf(fmtp, remote)
      case Missing => return Ok(FuzzySearch(fmtp, remote, locals).1);
      case Malformed => return Err(BadApt);
      case Apt(p) =>
        var aptMatch := NoMatch;
        var aptCodec := remote;
        var i := 0;
        while i < |exact| && aptMatch == NoMatch
          invariant 0 <= i <= |exact|
          invariant aptMatch == NoMatch ==> forall j :: 0 <= j < i ==> exact[j].payloadType != p
          invariant aptMatch != NoMatch ==> aptMatch == Exact && Owner(exact, p) == Some(aptCodec)
          decreases |exact| - i, if aptMatch == NoMatch then 1 else 0
        {
          if exact[i].payloadType == p {
            OwnerAt(exact, p, i);
            aptMatch, aptCodec := Exact, exact[i];
          }
          i := i + 1;
        }
        if aptMatch == NoMatch {
          assert Owner(exact, p) == None;
          i := 0;
          while i < |partial| && aptMatch == NoMatch
            invariant 0 <= i <= |partial|
            invariant aptMatch == NoMatch ==> forall j :: 0 <= j < i ==> partial[j].payloadType != p
            invariant aptMatch != NoMatch ==> aptMatch == Partial && Owner(partial, p) == Some(aptCodec)
          {
            if partial[i].payloadType == p {
              OwnerAt(partial, p, i);
              aptMatch, aptCodec := Partial, partial[i];
            }
            i := i + 1;
          }
        }
        if aptMatch == NoMatch {
          assert Owner(partial, p) == None;
          return Ok(NoMatch);
        }
        var toMatch := remote;
        var found := FuzzySearch(fmtp, aptCodec, locals);
        if found.1 == aptMatch { toMatch := WithApt(remote, p, found.0.value.payloadType); }
        var quality := FuzzySearch(fmtp, toMatch, locals).1;
        if quality == Exact && aptMatch == Partial { quality := Partial; }
        return Ok(quality);
    }

    method PushCodecsTo(codecs: seq<Codec>, kind: Kind)
      requires kind != OtherKind
      modifies this`negotiatedAudioCodecs, this`negotiatedVideoCodecs
      ensures State() ==
                old(State()).With(kind, old(State()).Of(kind).(codecs :=
                    PushCodecs(old(State()).Of(kind).codecs, codecs)))
    {
      for i := 0 to |codecs|
        invariant negotiatedAudioCodecs ==
                    if kind == Audio then PushCodecs(old(negotiatedAudioCodecs), codecs[..i])
                        else old(negotiatedAudioCodecs)
        invariant negotiatedVideoCodecs ==
                    if kind == Audio then old(negotiatedVideoCodecs)
                        else PushCodecs(old(negotiatedVideoCodecs), codecs[..i])
      {
        assert codecs[..i + 1][..i] == codecs[..i];
        if kind == Audio {
          negotiatedAudioCodecs := AddCodecTo(negotiatedAudioCodecs, codecs[i]);
        } else {
          negotiatedVideoCodecs := AddCodecTo(negotiatedVideoCodecs, codecs[i]);
        }
      }
      assert codecs[..|codecs|] == codecs;
    }

    method UpdateHeaderExtension(id: int, uri: string, kind: Kind)
      requires UrisDiffer(headerExtensions)
      modifies this`negotiatedHeaderExtensions
      ensures State().extensions == Updated(old(State()).extensions, id, uri, kind)
    {
      for i := 0 to |headerExtensions|
        invariant IndexOf(headerExtensions[..i], uri).None? ==>
                    negotiatedHeaderExtensions == old(negotiatedHeaderExtensions)
        invariant IndexOf(headerExtensions[..i], uri).Some? ==>
                    IndexOf(headerExtensions, uri).Some?
                        && State().extensions == Updated(old(State()).extensions, id, uri, kind)
      {
        assert headerExtensions[..i + 1][..i] == headerExtensions[..i];
        var l := headerExtensions[i];
        if l.uri == uri {
          IndexOfUnique(headerExtensions, i);
          var h := HeaderExtension(uri, false, false, l.directions);
          if id in negotiatedHeaderExtensions { h := negotiatedHeaderExtensions[id]; }
          if l.isAudio && kind == Audio { h := h.(isAudio := true); }
          else if l.isVideo && kind == Video { h := h.(isVideo := true); }
          negotiatedHeaderExtensions := negotiatedHeaderExtensions[id := h];
        }
      }
      assert headerExtensions[..|headerExtensions|] == headerExtensions;
    }

    method UpdateHeaderExtensions(section: Section) returns (error: Option<CodecError>)
      requires UrisDiffer(headerExtensions)
      modifies this`negotiatedHeaderExtensions
      ensures (State(), error) == UpdateSectionExtensions(old(State()), section)
    {
      if section.kind == OtherKind { return None; }
      match section.extensions
      case Err(x) => return Some(x);
      case Ok(list) =>
        for i := 0 to |list|
          invariant State().extensions == UpdatedAll(old(State()).extensions, list[..i], section.kind)
        {
          assert list[..i + 1][..i] == list[..i];
          UpdateHeaderExtension(list[i].1, list[i].0, section.kind);
        }
        assert list[..|list|] == list;
        return None;
    }

    method ClassifyCodecs(codecs: seq<Codec>, kind: Kind) returns (r: Result<Accepted, CodecError>)
      requires kind != OtherKind
      ensures r == Classify(fmtp, State().Of(kind).locals, codecs)
    {
      var exact, partial := [], [];
      ghost var locals := State().Of(kind).locals;
      for i := 0 to |codecs|
        invariant Classify(fmtp, locals, codecs[..i]) == Ok(Accepted(exact, partial))
      {
        assert codecs[..i + 1][..i] == codecs[..i];
        var m := MatchRemoteCodec(codecs[i], kind, exact, partial);
        match m
        case Err(x) =>
          ClassifyStopsAtError(fmtp, locals, codecs, i + 1);
          return Err(x);
        case Ok(quality) =>
          if quality == Exact { exact := exact + [codecs[i]]; }
          else if quality == Partial { partial := partial + [codecs[i]]; }
      }
      assert codecs[..|codecs|] == codecs;
      return Ok(Accepted(exact, partial));
    }

    method UpdateFromSection(section: Section) returns (error: Option<CodecError>)
      requires UrisDiffer(headerExtensions)
      modifies this
      ensures headerExtensions == old(headerExtensions)
      ensures (State(), error) == UpdateSection(fmtp, old(State()), section)
    {
      if !negotiatedAudio && section.kind == Audio { negotiatedAudio := true; }
      else if !negotiatedVideo && section.kind == Video { negotiatedVideo := true; }
      else {
        error := UpdateHeaderExtensions(section);
        return;
      }
      match section.codecs
      case Err(x) => return Some(x);
      case Ok(codecs) =>
        var r := ClassifyCodecs(codecs, section.kind);
        match r
        case Err(x) => return Some(x);
        case Ok(a) =>
          if |a.exact| > 0 { PushCodecsTo(a.exact, section.kind); }
          else if |a.partial| > 0 { PushCodecsTo(a.partial, section.kind); }
          else { return None; }
          error := UpdateHeaderExtensions(section);
    }

    method UpdateFromRemoteDescription(sections: seq<Section>) returns (error: Option<CodecError>)
      requires UrisDiffer(headerExtensions)
      modifies this
      ensures (State(), error) == UpdateFromRemote(fmtp, old(State()), sections)
    {
      for i := 0 to |sections|
        invariant headerExtensions == old(headerExtensions)
        invariant UpdateFromRemote(fmtp, old(State()), sections) == UpdateFromRemote(fmtp, State(), sections[i..])
      {
        assert sections[i..][0] == sections[i] && sections[i..][1..] == sections[i + 1..];
        error := UpdateFromSection(sections[i]);
        if error.Some? { return; }
      }
      return None;
    }

    /** Some id that the remote side uses for a URI; the map is visited in any order. */
    method NegotiatedId(uri: string) returns (found: Option<int>)
      ensures found.Some? ==>
                found.value in negotiatedHeaderExtensions && negotiatedHeaderExtensions[found.value].uri == uri
      ensures found.None? ==> !IsNegotiated(State().extensions, uri)
    {
      var todo := negotiatedHeaderExtensions.Keys;
      while todo != {}
        invariant todo <= negotiatedHeaderExtensions.Keys
        invariant forall id :: id in negotiatedHeaderExtensions && id !in todo ==>
                    negotiatedHeaderExtensions[id].uri != uri
        decreases todo
      {
        var id := AnyOf(todo);
        if negotiatedHeaderExtensions[id].uri == uri { return Some(id); }
        todo := todo - {id};
      }
      return None;
    }

    /** The first free id of the one-byte form. */
    method FreeId(ids: map<int, HeaderExtension>) returns (found: Option<int>)
      ensures found.Some? ==>
                1 <= found.value <= 14 && found.value !in ids && found.value !in negotiatedHeaderExtensions
      ensures found.None? ==> forall id :: 1 <= id <= 14 ==> id in ids || id in negotiatedHeaderExtensions
    {
      for id := 1 to 15
        invariant forall k :: 1 <= k < id ==> k in ids || k in negotiatedHeaderExtensions
      {
        if id !in ids && id !in negotiatedHeaderExtensions { return Some(id); }
      }
      return None;
    }

    method AssignIds() returns (ids: map<int, HeaderExtension>)
      requires UrisDiffer(headerExtensions)
      ensures IsAssignment(State().extensions, ids, |headerExtensions|)
    {
      ids := map[];
      ghost var s := State().extensions;
      for i := 0 to |headerExtensions|
        invariant IsAssignment(s, ids, i)
      {
        var e := headerExtensions[i];
        var id := NegotiatedId(e.uri);
        if id.None? { id := FreeId(ids); }
        ghost var before := ids;
        if id.Some? { ids := ids[id.value := e]; }
        AssignmentGrows(s, before, i, id);
      }
    }

    method ListParameters(
      m: map<int, HeaderExtension>, kind: Kind, directions: seq<Direction>) returns (ps: seq<Parameter>)
      ensures Lists(ps, m, kind, directions)
    {
      ps := [];
      var todo := m.Keys;
      while todo != {}
        invariant todo <= m.Keys
        invariant forall i, j :: 0 <= i < j < |ps| ==> ps[i].id != ps[j].id
        invariant forall i :: 0 <= i < |ps| ==>
                    ps[i].id in m && ps[i].id !in todo && ps[i].uri == m[ps[i].id].uri
                        && Applies(m[ps[i].id], kind, directions)
        invariant forall id :: id in m && id !in todo && Applies(m[id], kind, directions) ==>
                    Parameter(id, m[id].uri) in ps
        decreases todo
      {
        var id := AnyOf(todo);
        if Applies(m[id], kind, directions) { ps := ps + [Parameter(id, m[id].uri)]; }
        todo := todo - {id};
      }
    }

    /** The codecs and header extensions to offer: the negotiated ones, or else the registered ones
        under an assignment of ids. */
    method ParametersByKind(kind: Kind, directions: seq<Direction>) returns (codecs: seq<Codec>, ps: seq<Parameter>)
      requires ExtensionsInv(State().extensions)
      ensures kind == OtherKind ==> codecs == [] && ps == []
      ensures kind != OtherKind ==>
                codecs == if State().Of(kind).negotiated then State().Of(kind).codecs else State().Of(kind).locals
      ensures kind != OtherKind && State().Of(kind).negotiated ==>
                Lists(ps, negotiatedHeaderExtensions, kind, directions)
      ensures kind != OtherKind && !State().Of(kind).negotiated ==>
                && (exists m :: IsAssignment(State().extensions, m, |headerExtensions|)
                     && Lists(ps, m, kind, directions))
                && (forall i, j :: 0 <= i < j < |ps| ==> ps[i].id != ps[j].id && ps[i].uri != ps[j].uri)
    {
      codecs := [];
      if kind == Video {
        codecs := if negotiatedVideo then negotiatedVideoCodecs else videoCodecs;
      } else if kind == Audio {
        codecs := if negotiatedAudio then negotiatedAudioCodecs else audioCodecs;
      }
      if (negotiatedVideo && kind == Video) || (negotiatedAudio && kind == Audio) {
        ps := ListParameters(negotiatedHeaderExtensions, kind, directions);
      } else {
        var m := AssignIds();
        ps := ListParameters(m, kind, directions);
        OfferedParametersAreDistinct(State().extensions, m, ps, kind, directions);
        assert |ps| > 0 ==> Applies(m[ps[0].id], kind, directions);
      }
    }
  }

  /** One more extension gets the id found for it. */
  lemma AssignmentGrows(s: Extensions, m: map<int, HeaderExtension>, n: nat, id: Option<int>)
    requires UrisDiffer(s.locals) && n < |s.locals| && IsAssignment(s, m, n)
    requires id.Some? ==>
               if id.value in s.negotiated then s.negotiated[id.value].uri == s.locals[n].uri
               else 1 <= id.value <= 14 && id.value !in m && !IsNegotiated(s, s.locals[n].uri)
    requires id.None? ==> !IsNegotiated(s, s.locals[n].uri) && forall k :: 1 <= k <= 14 ==> k in m || k in s.negotiated
    ensures IsAssignment(s, if id.Some? then m[id.value := s.locals[n]] else m, n + 1)
  {
    var e := s.locals[n];
    var m' := if id.Some? then m[id.value := e] else m;
    assert s.locals[..n + 1] == s.locals[..n] + [e];
    assert forall k :: k in m ==> m[k].uri != e.uri;
    assert id.Some? ==> id.value !in m;
    forall k | 0 <= k < n + 1
      ensures HasId(s, m', s.locals[k])
    {
      if k < n {
        assert HasId(s, m, s.locals[k]);
        if i :| i in m && m[i] == s.locals[k] {
          assert i in m' && m'[i] == s.locals[k];
        }
      } else if id.Some? {
        assert m'[id.value] == e;
      }
    }
  }
}
