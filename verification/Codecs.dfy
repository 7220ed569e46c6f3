/** Codec negotiation: matching the codecs of a remote media section against the local ones.

    How two formats match and how the associated payload type is read are parameters. */
module Codecs {
  import opened Wrappers
  import opened Decimals

  datatype Format = Format(mimeType: string, line: string)

  datatype Codec = Codec(format: Format, payloadType: uint8)

  /** The decisions of the format-parameter package. */
  datatype Fmtp = Fmtp(
    matches: (Format, Format) -> bool,
    sameMime: (string, string) -> bool,
    apt: Format -> Option<string>)

  datatype Quality = NoMatch | Partial | Exact

  datatype CodecError = BadApt | BadMedia | BadExtensions

  // ---- Searching ----

  /** The first codec with a property. */
  function First(haystack: seq<Codec>, p: Codec -> bool): (r: Option<Codec>)
    ensures r.None? <==> forall k :: 0 <= k < |haystack| ==> !p(haystack[k])
    ensures r.Some? ==>
              exists k :: 0 <= k < |haystack| && haystack[k] == r.value && p(r.value)
                  && forall j :: 0 <= j < k ==> !p(haystack[j])
  {
    if haystack == [] then None
    else if p(haystack[0]) then Some(haystack[0])
    else
      var r := First(haystack[1..], p);
      assert haystack == [haystack[0]] + haystack[1..];
      assert r.Some? ==>
        exists k ::
          && 0 <= k < |haystack| && haystack[k] == r.value && p(r.value)
          && forall j :: 0 <= j < k ==> !p(haystack[j]) by {
        if r.Some? {
          var k :| 0 <= k < |haystack| - 1 && haystack[1..][k] == r.value && p(r.value)
              && forall j :: 0 <= j < k ==> !p(haystack[1..][j]);
          assert haystack[k + 1] == r.value;
          assert forall j :: 1 <= j < k + 1 ==> haystack[j] == haystack[1..][j - 1];
        }
      }
      r
  }

  function FirstMatch(f: Fmtp, needle: Codec, haystack: seq<Codec>): Option<Codec> {
    First(haystack, (c: Codec) => f.matches(needle.format, c.format))
  }

  function FirstSameMime(f: Fmtp, needle: Codec, haystack: seq<Codec>): Option<Codec> {
    First(haystack, (c: Codec) => f.sameMime(c.format.mimeType, needle.format.mimeType))
  }

  /** The local codec that fits best, and how well it fits. */
  function FuzzySearch(f: Fmtp, needle: Codec, haystack: seq<Codec>): (r: (Option<Codec>, Quality))
    ensures r.1 == Exact <==> exists c :: c in haystack && f.matches(needle.format, c.format)
    ensures r.1 == Partial <==>
              && (forall c :: c in haystack ==> !f.matches(needle.format, c.format))
              && (exists c :: c in haystack && f.sameMime(c.format.mimeType, needle.format.mimeType))
    ensures r.0.Some? <==> r.1 != NoMatch
    ensures r.1 == Exact ==>
              exists k :: (0 <= k < |haystack| && haystack[k] == r.0.value && f.matches(needle.format, r.0.value.format)
                           && forall j :: 0 <= j < k ==> !f.matches(needle.format, haystack[j].format))
    ensures r.1 == Partial ==>
              exists k ::
                (&& 0 <= k < |haystack| && haystack[k] == r.0.value
                 && f.sameMime(r.0.value.format.mimeType, needle.format.mimeType)
                 && forall j :: 0 <= j < k ==>
                      !f.sameMime(haystack[j].format.mimeType, needle.format.mimeType))
  {
    if FirstMatch(f, needle, haystack).Some? then (FirstMatch(f, needle, haystack), Exact)
    else if FirstSameMime(f, needle, haystack).Some? then (FirstSameMime(f, needle, haystack), Partial)
    else (None, NoMatch)
  }

  /** The codec that an associated payload type refers to. */
  function Owner(codecs: seq<Codec>, p: nat): Option<Codec> {
    First(codecs, (c: Codec) => c.payloadType == p)
  }

  // ---- Matching one remote codec ----

  datatype Apt = Missing | Malformed | Apt(payloadType: nat)

  function AptOf(f: Fmtp, c: Codec): Apt {
    match f.apt(c.format)
    case None => Missing
    case Some(text) =>
      match ParseUint(text, 255)
      case None => Malformed
      case Some(p) => Apt(p)
  }

  /** `s` with its first occurrence of `was` replaced. */
  function ReplaceFirst(s: string, was: string, now: string): string
    requires was != ""
  {
    if was <= s then now + s[|was|..]
    else if s == "" then ""
    else [s[0]] + ReplaceFirst(s[1..], was, now)
  }

  function WithApt(c: Codec, p: nat, q: nat): Codec {
    c.(format := c.format.(line := ReplaceFirst(c.format.line, "apt=" + Decimal(p), "apt=" + Decimal(q))))
  }

  /** The remote codec with its associated payload type translated to the local numbering, when the
      codec it belongs to matches a local one as well as it did before. */
  function Translated(f: Fmtp, locals: seq<Codec>, remote: Codec, p: nat, owner: Codec, quality: Quality): Codec
    requires quality != NoMatch
  {
    var found := FuzzySearch(f, owner, locals);
    if found.1 == quality then WithApt(remote, p, found.0.value.payloadType) else remote
  }

  /** How well a remote codec matches, given the codecs accepted before it. */
  function MatchRemote(
    f: Fmtp, locals: seq<Codec>, remote: Codec, exact: seq<Codec>, partial: seq<Codec>): Result<Quality, CodecError> {
    match AptOf(f, remote)
    case Missing => Ok(FuzzySearch(f, remote, locals).1)
    case Malformed => Err(BadApt)
    case Apt(p) =>
      if Owner(exact, p).Some? then
        Ok(FuzzySearch(f, Translated(f, locals, remote, p, Owner(exact, p).value, Exact), locals).1)
      else if Owner(partial, p).Some? then
        var quality := FuzzySearch(f, Translated(f, locals, remote, p, Owner(partial, p).value, Partial), locals).1;
        Ok(if quality == Exact then Partial else quality)
      else Ok(NoMatch)
  }

  // ---- Matching a media section ----

  datatype Accepted = Accepted(exact: seq<Codec>, partial: seq<Codec>)

  function Accept(a: Accepted, c: Codec, quality: Quality): Accepted {
    match quality
    case Exact => a.(exact := a.exact + [c])
    case Partial => a.(partial := a.partial + [c])
    case NoMatch => a
  }

  /** The matching codecs among the first ones of a section; stops at the first malformed codec. */
  function Classify(f: Fmtp, locals: seq<Codec>, codecs: seq<Codec>): Result<Accepted, CodecError> {
    if codecs == [] then Ok(Accepted([], []))
    else
      var last := codecs[|codecs| - 1];
      match Classify(f, locals, codecs[..|codecs| - 1])
      case Err(e) => Err(e)
      case Ok(a) =>
        match MatchRemote(f, locals, last, a.exact, a.partial)
        case Err(e) => Err(e)
        case Ok(quality) => Ok(Accept(a, last, quality))
  }

  function Chosen(a: Accepted): seq<Codec> {
    if a.exact != [] then a.exact else a.partial
  }

  predicate SameEntry(c: Codec, d: Codec) {
    c.format.mimeType == d.format.mimeType && c.payloadType == d.payloadType
  }

  /** Appends a codec unless its media type and payload type are there already. */
  function AddCodec(codecs: seq<Codec>, c: Codec): seq<Codec> {
    if exists k :: 0 <= k < |codecs| && SameEntry(codecs[k], c) then codecs else codecs + [c]
  }

  function PushCodecs(codecs: seq<Codec>, more: seq<Codec>): seq<Codec> {
    if more == [] then codecs else AddCodec(PushCodecs(codecs, more[..|more| - 1]), more[|more| - 1])
  }

  // ---- What a negotiated list is ----

  /** Every codec of the list is accepted with the same quality on the strength of the codecs in
      front of it in that very list. */
  ghost predicate Uniform(f: Fmtp, locals: seq<Codec>, codecs: seq<Codec>, quality: Quality) {
    && quality != NoMatch
    && forall i :: 0 <= i < |codecs| ==> AcceptedAfter(f, locals, codecs[..i], codecs[i], quality)
  }

  predicate AcceptedAfter(f: Fmtp, locals: seq<Codec>, before: seq<Codec>, c: Codec, quality: Quality) {
    MatchRemote(f, locals, c, if quality == Exact then before else [], if quality == Exact then [] else before) ==
        Ok(quality)
  }

  lemma UniformSnoc(f: Fmtp, locals: seq<Codec>, codecs: seq<Codec>, c: Codec, quality: Quality)
    requires Uniform(f, locals, codecs, quality) && AcceptedAfter(f, locals, codecs, c, quality)
    ensures Uniform(f, locals, codecs + [c], quality)
  {
    var all := codecs + [c];
    forall i | 0 <= i < |all|
      ensures AcceptedAfter(f, locals, all[..i], all[i], quality)
    {
      assert all[..i] == if i < |codecs| then codecs[..i] else codecs;
    }
  }

  /** The exact matches only lean on exact matches. As long as there are none, the partial ones only
      lean on partial ones. */
  lemma {:induction false} ClassifiedListsAreUniform(f: Fmtp, locals: seq<Codec>, codecs: seq<Codec>)
    requires Classify(f, locals, codecs).Ok?
    ensures var a := Classify(f, locals, codecs).value;
            Uniform(f, locals, a.exact, Exact) && (a.exact == [] ==> Uniform(f, locals, a.partial, Partial))
  {
    if codecs != [] {
      var rest, last := codecs[..|codecs| - 1], codecs[|codecs| - 1];
      ClassifiedListsAreUniform(f, locals, rest);
      var a := Classify(f, locals, rest).value;
      var quality := MatchRemote(f, locals, last, a.exact, a.partial).value;
      if quality == Exact {
        assert AcceptedAfter(f, locals, a.exact, last, Exact);
        UniformSnoc(f, locals, a.exact, last, Exact);
      } else if quality == Partial && a.exact == [] {
        UniformSnoc(f, locals, a.partial, last, Partial);
      }
    }
  }

  /** Leaving out repeated entries never hides the codec that a payload type refers to. */
  lemma {:induction false} PushKeepsOwners(codecs: seq<Codec>, p: nat)
    ensures Owner(PushCodecs([], codecs), p) == Owner(codecs, p)
  {
    if codecs != [] {
      var rest, last := codecs[..|codecs| - 1], codecs[|codecs| - 1];
      PushKeepsOwners(rest, p);
      assert codecs == rest + [last];
      OwnerOfSnoc(rest, last, p);
      OwnerOfSnoc(PushCodecs([], rest), last, p);
    }
  }

  lemma OwnerOfSnoc(codecs: seq<Codec>, c: Codec, p: nat)
    ensures Owner(codecs + [c], p) ==
              if Owner(codecs, p).Some? then Owner(codecs, p) else if c.payloadType == p then Some(c) else None
  {
    var all := codecs + [c];
    assert forall k :: 0 <= k < |codecs| ==> all[k] == codecs[k];
    assert all[|codecs|] == c;
  }

  lemma OwnerOfNothing(p: nat)
    ensures Owner([], p) == None
  {
  }

  lemma UniformInit(f: Fmtp, locals: seq<Codec>, codecs: seq<Codec>, quality: Quality)
    requires Uniform(f, locals, codecs, quality) && codecs != []
    ensures Uniform(f, locals, codecs[..|codecs| - 1], quality)
    ensures AcceptedAfter(f, locals, codecs[..|codecs| - 1], codecs[|codecs| - 1], quality)
  {
    hide AcceptedAfter;
    var rest := codecs[..|codecs| - 1];
    forall i | 0 <= i < |rest|
      ensures AcceptedAfter(f, locals, rest[..i], rest[i], quality)
    {
      assert rest[..i] == codecs[..i];
      assert AcceptedAfter(f, locals, codecs[..i], codecs[i], quality);
    }
  }

  lemma PushKeepsAcceptance(f: Fmtp, locals: seq<Codec>, before: seq<Codec>, c: Codec, quality: Quality)
    requires AcceptedAfter(f, locals, before, c, quality)
    ensures AcceptedAfter(f, locals, PushCodecs([], before), c, quality)
  {
    if AptOf(f, c).Apt? {
      PushKeepsOwners(before, AptOf(f, c).payloadType);
      OwnerOfNothing(AptOf(f, c).payloadType);
    }
  }

  lemma {:induction false} PushKeepsUniform(f: Fmtp, locals: seq<Codec>, codecs: seq<Codec>, quality: Quality)
    requires Uniform(f, locals, codecs, quality)
    ensures Uniform(f, locals, PushCodecs([], codecs), quality)
  {
    hide AcceptedAfter, Uniform;
    if codecs == [] {
      assert PushCodecs([], codecs) == codecs;
    } else {
      var rest, last := codecs[..|codecs| - 1], codecs[|codecs| - 1];
      UniformInit(f, locals, codecs, quality);
      PushKeepsUniform(f, locals, rest, quality);
      PushKeepsAcceptance(f, locals, rest, last, quality);
      UniformSnoc(f, locals, PushCodecs([], rest), last, quality);
    }
  }

  /** The negotiated list of a section is all exact or all partial matches. */
  lemma NegotiatedListIsUniform(f: Fmtp, locals: seq<Codec>, codecs: seq<Codec>)
    requires Classify(f, locals, codecs).Ok?
    ensures var a := Classify(f, locals, codecs).value;
            Uniform(f, locals, PushCodecs([], Chosen(a)), if a.exact != [] then Exact else Partial)
  {
    ClassifiedListsAreUniform(f, locals, codecs);
    var a := Classify(f, locals, codecs).value;
    PushKeepsUniform(f, locals, Chosen(a), if a.exact != [] then Exact else Partial);
  }

  // ---- What a uniform list guarantees ----

  /** A codec with an associated payload type comes after a codec with that payload type. */
  lemma AptIsPreceded(f: Fmtp, locals: seq<Codec>, codecs: seq<Codec>, quality: Quality, i: nat)
    requires Uniform(f, locals, codecs, quality) && i < |codecs|
    requires AptOf(f, codecs[i]) != Missing
    ensures AptOf(f, codecs[i]).Apt?
    ensures exists j :: 0 <= j < i && codecs[j].payloadType == AptOf(f, codecs[i]).payloadType
  {
    assert AcceptedAfter(f, locals, codecs[..i], codecs[i], quality);
    var p := AptOf(f, codecs[i]).payloadType;
    OwnerOfNothing(p);
    assert Owner(codecs[..i], p).Some?;
  }

  /** In an exact list a codec without associated payload type matches a local codec. Any other one
      matches a local codec after its associated payload type is translated to the local numbering, if it
      can be: always so when the associated codec has none itself, and then to the payload type of the
      local codec which the associated codec matches. */
  lemma ExactMeansLocalMatch(f: Fmtp, locals: seq<Codec>, codecs: seq<Codec>, i: nat)
    requires Uniform(f, locals, codecs, Exact) && i < |codecs|
    ensures AptOf(f, codecs[i]) == Missing ==> exists c :: c in locals && f.matches(codecs[i].format, c.format)
    ensures AptOf(f, codecs[i]).Apt? ==>
              var p := AptOf(f, codecs[i]).payloadType;
              && Owner(codecs[..i], p).Some?
              && (exists c :: c in locals
                   && f.matches(Translated(f, locals, codecs[i], p, Owner(codecs[..i], p).value, Exact).format,
                        c.format))
              && (AptOf(f, Owner(codecs[..i], p).value) == Missing ==>
                 exists main, c :: main in locals && c in locals
                                   && f.matches(Owner(codecs[..i], p).value.format, main.format)
                                   && f.matches(WithApt(codecs[i], p, main.payloadType).format, c.format))
  {
  }

  ghost predicate EntriesDiffer(list: seq<Codec>) {
    forall i, j :: 0 <= i < j < |list| ==> !SameEntry(list[i], list[j])
  }

  lemma AddCodecOnce(list: seq<Codec>, c: Codec)
    requires EntriesDiffer(list)
    ensures var all := AddCodec(list, c);
            && EntriesDiffer(all)
            && (forall d :: d in list ==> d in all)
            && (exists d :: d in all && SameEntry(d, c))
  {
    var all := AddCodec(list, c);
    if k :| 0 <= k < |list| && SameEntry(list[k], c) {
      assert list[k] in all;
    } else {
      assert all[|list|] == c && SameEntry(c, c);
    }
  }

  /** No entry is negotiated twice, and every chosen codec is represented. */
  lemma {:induction false} PushedEntries(codecs: seq<Codec>)
    ensures var list := PushCodecs([], codecs);
            && EntriesDiffer(list)
            && (forall c :: c in list ==> c in codecs)
            && (forall c :: c in codecs ==> exists d :: d in list && SameEntry(d, c))
  {
    if codecs != [] {
      var rest, last := codecs[..|codecs| - 1], codecs[|codecs| - 1];
      PushedEntries(rest);
      assert codecs == rest + [last];
      var list := PushCodecs([], rest);
      assert PushCodecs([], codecs) == AddCodec(list, last);
      AddCodecOnce(list, last);
    }
  }

  /** A codec of the section that needs no other codec and matches a local codec is accepted, so
      one such codec makes the negotiated list an exact one. */
  lemma {:induction false} ExactCodecsAreAccepted(f: Fmtp, locals: seq<Codec>, codecs: seq<Codec>, c: Codec)
    requires Classify(f, locals, codecs).Ok?
    requires c in codecs && AptOf(f, c) == Missing && exists l :: l in locals && f.matches(c.format, l.format)
    ensures c in Classify(f, locals, codecs).value.exact
  {
    var rest, last := codecs[..|codecs| - 1], codecs[|codecs| - 1];
    assert codecs == rest + [last];
    var a := Classify(f, locals, rest).value;
    if c in rest {
      ExactCodecsAreAccepted(f, locals, rest, c);
    } else {
      MatchesOnItsOwn(f, locals, c, a.exact, a.partial);
    }
    hide MatchRemote, AptOf;
  }

  lemma MatchesOnItsOwn(f: Fmtp, locals: seq<Codec>, c: Codec, exact: seq<Codec>, partial: seq<Codec>)
    requires AptOf(f, c) == Missing && exists l :: l in locals && f.matches(c.format, l.format)
    ensures MatchRemote(f, locals, c, exact, partial) == Ok(Exact)
  {
  }

  /** Every codec that exactly matches on its own has its entry in the negotiated list, which then
      holds nothing but exact matches. */
  lemma ExactCodecsAreNegotiated(f: Fmtp, locals: seq<Codec>, codecs: seq<Codec>, c: Codec)
    requires Classify(f, locals, codecs).Ok?
    requires c in codecs && AptOf(f, c) == Missing && exists l :: l in locals && f.matches(c.format, l.format)
    ensures var list := PushCodecs([], Chosen(Classify(f, locals, codecs).value));
            (exists d :: d in list && SameEntry(d, c)) && Uniform(f, locals, list, Exact)
  {
    ExactCodecsAreAccepted(f, locals, codecs, c);
    PushedEntries(Chosen(Classify(f, locals, codecs).value));
    NegotiatedListIsUniform(f, locals, codecs);
  }
}
