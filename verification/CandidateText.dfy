/** The textual form of ICE candidates: printing, parsing, and the round trip between them.

    IP-literal parsing and the CRC of the default foundation are parameters. */
module CandidateText {
  import opened Wrappers
  import opened Candidates
  import opened Decimals

  // ---- Words separated by white space ----

  /** The white-space characters of the Unicode standard. */
  predicate IsSpace(c: char) {
    var n := c as int;
    9 <= n <= 13 || n in {0x20, 0x85, 0xA0, 0x1680, 0x2028, 0x2029, 0x202F, 0x205F, 0x3000} || 0x2000 <= n <= 0x200A
  }

  /** A non-empty word without white space. */
  predicate IsToken(s: string) {
    s != "" && forall i :: 0 <= i < |s| ==> !IsSpace(s[i])
  }

  predicate AllTokens(ts: seq<string>) {
    forall k :: 0 <= k < |ts| ==> IsToken(ts[k])
  }

  function TokenLength(s: string): (n: nat)
    ensures n <= |s| && (forall i :: 0 <= i < n ==> !IsSpace(s[i])) && (n < |s| ==> IsSpace(s[n]))
  {
    if s == "" || IsSpace(s[0]) then 0 else 1 + TokenLength(s[1..])
  }

  /** Splits around runs of white space. */
  function Fields(s: string): seq<string> {
    if s == "" then []
    else if IsSpace(s[0]) then Fields(s[1..])
    else
      var n := TokenLength(s);
      [s[..n]] + Fields(s[n..])
  }

  /** Every word with one space in front of it. */
  function Words(ts: seq<string>): string {
    if ts == [] then "" else " " + ts[0] + Words(ts[1..])
  }

  lemma FieldsOfTokenThen(t: string, rest: string)
    requires IsToken(t) && (rest == "" || rest[0] == ' ')
    ensures Fields(t + rest) == [t] + Fields(rest)
  {
    var s := t + rest;
    var n := TokenLength(s);
    assert forall i :: 0 <= i < |t| ==> s[i] == t[i];
    assert rest != "" ==> IsSpace(s[|t|]);
    assert s[..n] == t && s[n..] == rest;
  }

  lemma FieldsSkipsSpace(s: string)
    ensures Fields(" " + s) == Fields(s)
  {
  }

  lemma WordsBeginWithSpace(ts: seq<string>)
    ensures if ts == [] then Words(ts) == "" && Fields(Words(ts)) == []
      else Words(ts) == " " + (ts[0] + Words(ts[1..])) && Words(ts)[0] == ' '
  {
  }

  lemma {:induction false} FieldsOfWords(ts: seq<string>)
    requires AllTokens(ts)
    ensures Fields(Words(ts)) == ts
  {
    hide Fields, IsToken, Words;
    WordsBeginWithSpace(ts);
    if ts != [] {
      WordsBeginWithSpace(ts[1..]);
      FieldsOfWords(ts[1..]);
      FieldsOfTokenThen(ts[0], Words(ts[1..]));
      FieldsSkipsSpace(ts[0] + Words(ts[1..]));
    }
  }

  lemma {:induction false} WordsOfConcat(xs: seq<string>, ys: seq<string>)
    ensures Words(xs + ys) == Words(xs) + Words(ys)
  {
    if xs == [] {
      assert xs + ys == ys;
    } else {
      assert (xs + ys)[1..] == xs[1..] + ys;
      WordsOfConcat(xs[1..], ys);
    }
  }

  lemma DecimalIsToken(n: nat)
    ensures IsToken(Decimal(n))
  {
  }

  // ---- Names ----

  function TypeName(t: CandidateType): (s: string)
    ensures IsToken(s)
  {
    match t
    case Host => "host"
    case ServerReflexive => "srflx"
    case PeerReflexive => "prflx"
    case Relay => "relay"
  }

  function NetworkShort(n: NetworkType): (s: string)
    ensures IsToken(s)
  {
    if n.IsTCP() then "tcp" else "udp"
  }

  function NetworkName(n: NetworkType): string {
    match n
    case UDP4 => "udp4"
    case UDP6 => "udp6"
    case TCP4 => "tcp4"
    case TCP6 => "tcp6"
  }

  function TcpTypeName(t: TcpType): string {
    match t
    case Unspecified => ""
    case Active => "active"
    case Passive => "passive"
    case SimultaneousOpen => "so"
  }

  function ToLower(s: string): (r: string)
    ensures |r| == |s|
  {
    seq(|s|, i requires 0 <= i < |s| => if 'A' <= s[i] <= 'Z' then (s[i] as int + 32) as char else s[i])
  }

  function NewTcpType(s: string): TcpType {
    var t := ToLower(s);
    if t == "active" then Active
    else if t == "passive" then Passive
    else if t == "so" then SimultaneousOpen
    else Unspecified
  }

  lemma TcpTypeOfName(t: TcpType)
    ensures NewTcpType(TcpTypeName(t)) == t
    ensures t != Unspecified ==> IsToken(TcpTypeName(t))
  {
  }

  // ---- Construction ----

  datatype Family = V4 | V6

  /** How IP literals parse. */
  type ParseIP = string -> Option<Family>

  datatype CandidateError =
    | TooShort | BadComponent | BadPriority | BadPort | BadRelatedAddress | BadTcpType
    | UnknownType | BadAddress | UnknownNetwork

  function DetermineNetworkType(network: string, family: Family): Result<NetworkType, CandidateError> {
    var n := ToLower(network);
    if "udp" <= n then Ok(if family == V4 then UDP4 else UDP6)
    else if "tcp" <= n then Ok(if family == V4 then TCP4 else TCP6)
    else Err(UnknownNetwork)
  }

  predicate IsMulticastName(address: string) {
    |address| >= 6 && address[|address| - 6..] == ".local"
  }

  function ResolveNetwork(parse: ParseIP, network: string, address: string): Result<NetworkType, CandidateError> {
    match parse(address)
    case None => Err(BadAddress)
    case Some(family) => DetermineNetworkType(network, family)
  }

  function NewHost(parse: ParseIP, network: string, address: string, port: int, component: uint16,
                   priority: uint32, foundation: string, tcpType: TcpType): Result<Candidate, CandidateError>
  {
    match if IsMulticastName(address) then Ok(UDP4) else ResolveNetwork(parse, network, address)
    case Err(e) => Err(e)
    case Ok(n) => Ok(Candidate(n, Host, component, address, port, None, tcpType, foundation, priority))
  }

  function NewWithRelated(
    parse: ParseIP, t: CandidateType, network: string, address: string, port: int, component: uint16,
                          priority: uint32, foundation: string, relAddr: string, relPort: int):
                          Result<Candidate, CandidateError>
  {
    match ResolveNetwork(parse, network, address)
    case Err(e) => Err(e)
    case Ok(n) =>
      Ok(Candidate(n, t, component, address, port, Some(RelatedAddress(relAddr, relPort)), Unspecified,
          foundation, priority))
  }

  // ---- Printing ----

  function RemoveZone(s: string): (r: string)
    ensures '%' !in s ==> r == s
  {
    if s == "" then "" else if s[0] == '%' then "" else [s[0]] + RemoveZone(s[1..])
  }

  function Foundation(c: Candidate, crc: string -> uint32): string {
    if c.foundationOverride != "" then c.foundationOverride
    else Decimal(crc(TypeName(c.candidateType) + c.address + NetworkName(c.networkType)))
  }

  function Itoa(n: int): string {
    if n < 0 then "-" + Decimal(-n) else Decimal(n)
  }

  lemma ItoaIsToken(n: int)
    ensures IsToken(Itoa(n))
  {
    DecimalDigits(if n < 0 then -n else n);
  }

  lemma ParseOfItoa(n: int, max: nat)
    ensures ParseUint(Itoa(n), max) == if 0 <= n <= max then Some(n) else None
  {
    if n < 0 {
      assert Itoa(n)[0] == '-' && !IsDigit('-');
    } else {
      ParseOfDecimal(n, max);
    }
  }

  function TcpWords(c: Candidate): seq<string> {
    if c.tcpType != Unspecified then ["tcptype", TcpTypeName(c.tcpType)] else []
  }

  function RelatedWords(c: Candidate): seq<string> {
    match c.related
    case None => []
    case Some(r) => if r.address != "" && r.port != 0 then ["raddr", r.address, "rport", Itoa(r.port)] else []
  }

  function BaseWords(c: Candidate, offset: uint16): seq<string> {
    [Decimal(c.component), NetworkShort(c.networkType), Decimal(c.Priority(offset)), RemoveZone(c.address),
        Itoa(c.port), "typ", TypeName(c.candidateType)]
  }

  /** The candidate attribute; `offset` is the TCP priority offset of the candidate's agent. */
  function Marshal(c: Candidate, crc: string -> uint32, offset: uint16): string {
    var foundation := Foundation(c, crc);
    (if foundation == " " then "" else foundation)
    + Words(BaseWords(c, offset)) + Words(TcpWords(c)) + Words(RelatedWords(c))
  }

  // ---- Parsing ----

  datatype Extension = Extension(relAddr: string, relPort: int, tcpType: TcpType)

  function ParseExtension(words: seq<string>): Result<Extension, CandidateError> {
    if words == [] then Ok(Extension("", 0, Unspecified))
    else if words[0] == "raddr" then
      if |words| < 4 then Err(BadRelatedAddress)
      else
        match ParseUint(words[3], 65535)
        case None => Err(BadPort)
        case Some(port) => Ok(Extension(words[1], port, Unspecified))
    else if words[0] == "tcptype" then
      if |words| < 2 then Err(BadTcpType) else Ok(Extension("", 0, NewTcpType(words[1])))
    else Ok(Extension("", 0, Unspecified))
  }

  function SplitAttribute(raw: string): seq<string> {
    (if raw != "" && raw[0] == ' ' then [" "] else []) + Fields(raw)
  }

  function Unmarshal(parse: ParseIP, raw: string): Result<Candidate, CandidateError> {
    var words := SplitAttribute(raw);
    if |words| < 8 then Err(TooShort)
    else
      var component := ParseUint(words[1], 65535);
      var priority := ParseUint(words[3], TWO_32 - 1);
      var address := RemoveZone(words[4]);
      var port := ParseUint(words[5], 65535);
      if component.None? then Err(BadComponent)
      else if priority.None? then Err(BadPriority)
      else if port.None? then Err(BadPort)
      else
        match ParseExtension(words[8..])
        case Err(e) => Err(e)
        case Ok(x) =>
          Build(parse, words[7], words[2], address, port.value, component.value, priority.value, words[0], x)
  }

  function Build(parse: ParseIP, typ: string, network: string, address: string, port: int, component: nat,
                 priority: nat, foundation: string, x: Extension): Result<Candidate, CandidateError>
    requires component < TWO_16 && priority < TWO_32
  {
    if typ == "host" then NewHost(parse, network, address, port, component, priority, foundation, x.tcpType)
    else if typ == "srflx" then
      NewWithRelated(parse, ServerReflexive, network, address, port, component, priority, foundation,
          x.relAddr, x.relPort)
    else if typ == "prflx" then
      NewWithRelated(parse, PeerReflexive, network, address, port, component, priority, foundation,
          x.relAddr, x.relPort)
    else if typ == "relay" then
      NewWithRelated(parse, Relay, network, address, port, component, priority, foundation,
          x.relAddr, x.relPort)
    else Err(UnknownType)
  }

  // ---- The round trip ----

  /** IP literals are words without zone, and not multicast names. */
  ghost predicate ParsesLiterals(parse: ParseIP) {
    forall s :: parse(s).Some? ==> IsToken(s) && '%' !in s && !IsMulticastName(s)
  }

  /** A candidate that one of the constructors made, from an IP literal or a multicast name. */
  predicate Constructible(parse: ParseIP, c: Candidate) {
    && (if c.candidateType == Host && IsMulticastName(c.address) then c.networkType == UDP4
        else
          && parse(c.address).Some?
          && c.networkType in (if parse(c.address) == Some(V4) then {UDP4, TCP4} else {UDP6, TCP6}))
    && (if c.candidateType == Host then c.related.None? else c.related.Some? && c.tcpType == Unspecified)
  }

  predicate IsWord(s: string) { IsToken(s) && '%' !in s }

  /** Address, related address and foundation are words, or absent. */
  predicate MadeOfWords(c: Candidate, crc: string -> uint32) {
    && IsWord(c.address)
    && (c.related.Some? ==> c.related.value.address == "" || IsToken(c.related.value.address))
    && FoundationIsWord(c, crc)
  }

  /** Related address and port are both present or both absent. */
  predicate RelatedIsWhole(c: Candidate) {
    c.related.Some? ==> (c.related.value.address == "" <==> c.related.value.port == 0)
  }

  predicate RelatedIsPrinted(c: Candidate) {
    c.related.Some? && c.related.value.address != "" && c.related.value.port != 0
  }

  /** The printed ports are port numbers. */
  predicate PortsFit(c: Candidate) {
    0 <= c.port < TWO_16 && (RelatedIsPrinted(c) ==> 0 <= c.related.value.port < TWO_16)
  }

  predicate FoundationIsWord(c: Candidate, crc: string -> uint32) {
    IsToken(Foundation(c, crc)) || Foundation(c, crc) == " "
  }

  /** What parsing makes of a printed candidate: the defaults have become explicit, and a related
      address that is only half there is gone. */
  function Explicit(c: Candidate, crc: string -> uint32, offset: uint16): Candidate {
    c.(foundationOverride := Foundation(c, crc), priorityOverride := c.Priority(offset),
       related := if c.related.Some? && !RelatedIsWhole(c) then Some(RelatedAddress("", 0)) else c.related)
  }

  function AllWords(c: Candidate, offset: uint16): seq<string> {
    BaseWords(c, offset) + TcpWords(c) + RelatedWords(c)
  }

  lemma BaseWordsAreTokens(c: Candidate, offset: uint16)
    requires IsWord(c.address)
    ensures AllTokens(BaseWords(c, offset))
  {
    hide Candidate.Priority, IsSpace;
    DecimalIsToken(c.component);
    DecimalIsToken(c.Priority(offset));
    ItoaIsToken(c.port);
    assert IsToken("typ") by { FixedWordsAreTokens(); }
    hide Decimal, Itoa, IsToken;
  }

  lemma FixedWordsAreTokens()
    ensures IsToken("typ") && IsToken("tcptype") && IsToken("raddr") && IsToken("rport")
  {
  }

  lemma OptionalWordsAreTokens(c: Candidate)
    requires c.related.Some? ==> c.related.value.address == "" || IsToken(c.related.value.address)
    ensures AllTokens(TcpWords(c)) && AllTokens(RelatedWords(c))
  {
    FixedWordsAreTokens();
    TcpTypeOfName(c.tcpType);
    hide IsSpace, Itoa;
    if c.related.Some? {
      ItoaIsToken(c.related.value.port);
    }
    hide IsToken;
  }

  lemma SplitOfFoundationThenWords(f: string, ts: seq<string>)
    requires IsToken(f) || f == " "
    requires AllTokens(ts) && ts != []
    ensures SplitAttribute((if f == " " then "" else f) + Words(ts)) == [f] + ts
  {
    FieldsOfWords(ts);
    assert Words(ts)[0] == ' ';
    if f == " " {
      assert "" + Words(ts) == Words(ts);
    } else {
      FieldsOfTokenThen(f, Words(ts));
      assert !IsSpace(f[0]);
    }
  }

  lemma WordsOfThree(f: string, xs: seq<string>, ys: seq<string>, zs: seq<string>)
    ensures f + Words(xs) + Words(ys) + Words(zs) == f + Words(xs + ys + zs)
  {
    WordsOfConcat(xs, ys);
    WordsOfConcat(xs + ys, zs);
    hide Words;
    assert f + Words(xs) + Words(ys) + Words(zs) == f + (Words(xs) + Words(ys) + Words(zs));
  }

  lemma SplitOfMarshal(c: Candidate, crc: string -> uint32, offset: uint16)
    requires MadeOfWords(c, crc)
    ensures SplitAttribute(Marshal(c, crc, offset)) == [Foundation(c, crc)] + AllWords(c, offset)
  {
    BaseWordsAreTokens(c, offset);
    OptionalWordsAreTokens(c);
    assert |BaseWords(c, offset)| == 7;
    hide Foundation, TcpWords, RelatedWords, BaseWords, IsToken, Words, SplitAttribute;
    var f := if Foundation(c, crc) == " " then "" else Foundation(c, crc);
    WordsOfThree(f, BaseWords(c, offset), TcpWords(c), RelatedWords(c));
    SplitOfFoundationThenWords(Foundation(c, crc), AllWords(c, offset));
  }

  lemma ExtensionOfWords(c: Candidate, parse: ParseIP)
    requires Constructible(parse, c)
    ensures ParseExtension(TcpWords(c) + RelatedWords(c)) ==
              if !RelatedIsPrinted(c) then Ok(Extension("", 0, c.tcpType))
              else if 0 <= c.related.value.port < TWO_16
                  then Ok(Extension(c.related.value.address, c.related.value.port, c.tcpType))
              else Err(BadPort)
  {
    TcpTypeOfName(c.tcpType);
    if c.related.Some? {
      ParseOfItoa(c.related.value.port, 65535);
    }
    hide Itoa, ParseUint, NewTcpType, TcpTypeName;
  }

  /** The printed words name the constructor that made the candidate. */
  lemma BuildOfWords(parse: ParseIP, c: Candidate, x: Extension, priority: uint32, foundation: string)
    requires ParsesLiterals(parse) && Constructible(parse, c)
    requires x.tcpType == c.tcpType
    ensures Build(parse, TypeName(c.candidateType), NetworkShort(c.networkType), c.address, c.port, c.component,
              priority, foundation, x) ==
              Ok(c.(foundationOverride := foundation, priorityOverride := priority,
                    related := if c.candidateType == Host then None else Some(RelatedAddress(x.relAddr, x.relPort))))
  {
    hide IsToken;
    assert ToLower("udp") == "udp" && ToLower("tcp") == "tcp";
    assert "udp"[0] != "tcp"[0] && "srflx"[0] != "prflx"[0] && "relay"[0] != "srflx"[0] && "relay"[0] != "prflx"[0];
  }

  /** The numbers and names among the printed words parse back. */
  lemma PrintedWordsParse(c: Candidate, offset: uint16)
    requires '%' !in c.address
    ensures var words := BaseWords(c, offset);
            && ParseUint(words[0], 65535) == Some(c.component)
            && ParseUint(words[2], TWO_32 - 1) == Some(c.Priority(offset))
            && RemoveZone(words[3]) == c.address
            && ParseUint(words[4], 65535) == if 0 <= c.port < TWO_16 then Some(c.port) else None
  {
    hide Candidate.Priority, ParseUint;
    ParseOfDecimal(c.component, 65535);
    ParseOfDecimal(c.Priority(offset), TWO_32 - 1);
    ParseOfItoa(c.port, 65535);
  }

  lemma {:induction false} SplitAfterEight(first: string, base: seq<string>, tcp: seq<string>, related: seq<string>)
    requires |base| == 7
    ensures var words := [first] + (base + tcp + related);
            && words[0] == first && (forall k :: 0 <= k < 7 ==> words[k + 1] == base[k]) && words[8..] == tcp + related
  {
  }

  /** Parsing a printed candidate gives the candidate back with its defaults made explicit, if its ports
      are port numbers, and an error if not. */
  lemma UnmarshalOfMarshal(parse: ParseIP, c: Candidate, crc: string -> uint32, offset: uint16)
    requires ParsesLiterals(parse) && Constructible(parse, c) && MadeOfWords(c, crc)
    ensures Unmarshal(parse, Marshal(c, crc, offset)) ==
              if PortsFit(c) then Ok(Explicit(c, crc, offset)) else Err(BadPort)
  {
    hide IsToken, Candidate.Priority, IsSpace, ParseUint, SplitAttribute, Marshal, Foundation;
    SplitOfMarshal(c, crc, offset);
    PrintedWordsParse(c, offset);
    SplitAfterEight(Foundation(c, crc), BaseWords(c, offset), TcpWords(c), RelatedWords(c));
    var words := SplitAttribute(Marshal(c, crc, offset));
    assert words[2] == NetworkShort(c.networkType) && words[7] == TypeName(c.candidateType);
    hide BaseWords, RemoveZone, NetworkShort, TypeName;
    ExtensionOfWords(c, parse);
    hide TcpWords, RelatedWords, ParseExtension, Build, ParsesLiterals;
    if PortsFit(c) {
      BuildOfWords(parse, c, ParseExtension(words[8..]).value, c.Priority(offset), Foundation(c, crc));
    }
  }

  /** A printed candidate parses if and only if its printed ports are port numbers. Then the printed form
      survives the round trip unchanged, and so do foundation, component and priority, and the candidate
      itself comes back Equal if and only if its related address and port are both present or both
      absent. */
  lemma RoundTrip(parse: ParseIP, c: Candidate, crc: string -> uint32, offset: uint16)
    requires ParsesLiterals(parse) && Constructible(parse, c) && MadeOfWords(c, crc)
    ensures Unmarshal(parse, Marshal(c, crc, offset)).Ok? <==> PortsFit(c)
    ensures PortsFit(c) ==>
              var d := Unmarshal(parse, Marshal(c, crc, offset)).value;
              && (d.Equal(c) <==> RelatedIsWhole(c))
              && d.component == c.component
              && Foundation(d, crc) == Foundation(c, crc)
              && (forall o: uint16 :: d.Priority(o) == c.Priority(offset))
              && (forall o: uint16 :: Marshal(d, crc, o) == Marshal(c, crc, offset))
  {
    UnmarshalOfMarshal(parse, c, crc, offset);
    var d := Explicit(c, crc, offset);
    PriorityIsNeverZero(c, offset);
    hide Unmarshal;
    forall o: uint16
      ensures d.Priority(o) == c.Priority(offset) && Marshal(d, crc, o) == Marshal(c, crc, offset)
    {
      assert BaseWords(d, o) == BaseWords(c, offset);
      assert RelatedWords(d) == RelatedWords(c);
    }
  }

  // ---- Two candidates that do not survive ----

  /** A server-reflexive candidate with a given related address and port. */
  function Reflexive(related: RelatedAddress): Candidate {
    Candidate(UDP4, ServerReflexive, 1, "192.0.2.1", 1000, Some(related), Unspecified, "1", 1)
  }

  /** A parser of one literal. */
  function ParseOne(s: string): Option<Family> { if s == "192.0.2.1" then Some(V4) else None }

  lemma ReflexiveIsPlain(related: RelatedAddress, crc: string -> uint32)
    requires IsToken(related.address)
    ensures ParsesLiterals(ParseOne) && Constructible(ParseOne, Reflexive(related))
    ensures MadeOfWords(Reflexive(related), crc)
  {
    assert IsWord("192.0.2.1");
    assert !IsMulticastName("192.0.2.1")
        by { assert "192.0.2.1"[3..][0] != ".local"[0] || "192.0.2.1"[3..][1] != ".local"[1]; }
    assert IsToken("1");
  }

  /** A related address without a port is not printed, so the candidate comes back different. */
  lemma HalfRelatedAddressIsLost(crc: string -> uint32)
    ensures var c := Reflexive(RelatedAddress("10.0.0.1", 0));
            var r := Unmarshal(ParseOne, Marshal(c, crc, 0));
            r.Ok? && !r.value.Equal(c)
  {
    assert IsToken("10.0.0.1");
    ReflexiveIsPlain(RelatedAddress("10.0.0.1", 0), crc);
    RoundTrip(ParseOne, Reflexive(RelatedAddress("10.0.0.1", 0)), crc, 0);
    hide Unmarshal, Marshal, MadeOfWords;
  }

  /** A related port that is no port number is printed and not parsed. */
  lemma BadRelatedPortIsRefused(crc: string -> uint32)
    ensures Unmarshal(ParseOne, Marshal(Reflexive(RelatedAddress("10.0.0.1", 65536)), crc, 0)) == Err(BadPort)
  {
    assert IsToken("10.0.0.1");
    ReflexiveIsPlain(RelatedAddress("10.0.0.1", 65536), crc);
    UnmarshalOfMarshal(ParseOne, Reflexive(RelatedAddress("10.0.0.1", 65536)), crc, 0);
    hide Unmarshal, Marshal, MadeOfWords;
  }
}
