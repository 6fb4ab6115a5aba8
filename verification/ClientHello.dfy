/** The TLS ClientHello: a reference encoder, the SNI parser and the builder of the fake. */
module ClientHello {
  import opened Bytes
  import opened Wrappers

  // ----- Reference encoder: section 7.4.1.2 of RFC 5246, section 4.1.2 of RFC 8446, section 3 of RFC 6066 -----

  datatype Name = Name(kind: byte, bytes: seq<byte>)

  datatype Extension =
    | ServerName(names: seq<Name>)
    | Other(kind: u16, data: seq<byte>)

  /** The extensions block may be absent. */
  datatype Hello = Hello(
    version: seq<byte>, random: seq<byte>, sessionId: seq<byte>,
    cipherSuites: seq<byte>, compression: seq<byte>, extensions: Option<seq<Extension>>)

  const HOST_NAME: byte := 0
  const SERVER_NAME: u16 := 0

  function Vec8(b: seq<byte>): seq<byte>
    requires |b| <= 0xFF
  {
    [|b|] + b
  }

  function Vec16(b: seq<byte>): seq<byte>
    requires |b| <= 0xFFFF
  {
    Be16(|b|) + b
  }

  function Vec24(b: seq<byte>): seq<byte>
    requires |b| <= 0xFF_FFFF
  {
    [|b| / 0x1_0000] + Be16(|b| % 0x1_0000) + b
  }

  predicate NameFits(n: Name) { |n.bytes| <= 0xFFFF }

  function EncodeName(n: Name): seq<byte>
    requires NameFits(n)
  {
    [n.kind] + Vec16(n.bytes)
  }

  function EncodeNames(names: seq<Name>): seq<byte>
    requires forall n :: n in names ==> NameFits(n)
  {
    if names == [] then [] else EncodeName(names[0]) + EncodeNames(names[1..])
  }

  /** An extension of a given type around its data. */
  function Tagged(kind: u16, data: seq<byte>): seq<byte>
    requires |data| <= 0xFFFF
  {
    Be16(kind) + Vec16(data)
  }

  predicate ExtensionFits(e: Extension) {
    match e
    case ServerName(names) => (forall n :: n in names ==> NameFits(n)) && 2 + |EncodeNames(names)| <= 0xFFFF
    case Other(kind, data) => kind != SERVER_NAME && |data| <= 0xFFFF
  }

  function EncodeExtension(e: Extension): seq<byte>
    requires ExtensionFits(e)
  {
    match e
    case ServerName(names) => Tagged(SERVER_NAME, Vec16(EncodeNames(names)))
    case Other(kind, data) => Tagged(kind, data)
  }

  function EncodeExtensions(es: seq<Extension>): seq<byte>
    requires forall e :: e in es ==> ExtensionFits(e)
  {
    if es == [] then [] else EncodeExtension(es[0]) + EncodeExtensions(es[1..])
  }

  /** The parts of a ClientHello body in front of the extensions. */
  predicate HeadFits(version: seq<byte>, random: seq<byte>, sessionId: seq<byte>, cipherSuites: seq<byte>,
                     compression: seq<byte>)
  {
    |version| == 2 && |random| == 32 && |sessionId| <= 0xFF && |cipherSuites| <= 0xFFFF && |compression| <= 0xFF
  }

  function Body(version: seq<byte>, random: seq<byte>, sessionId: seq<byte>, cipherSuites: seq<byte>,
                compression: seq<byte>, extensions: seq<byte>): seq<byte>
    requires HeadFits(version, random, sessionId, cipherSuites, compression) && |extensions| <= 0xFFFF
  {
    version + random + (Vec8(sessionId) + (Vec16(cipherSuites) + (Vec8(compression) + Vec16(extensions))))
  }

  /** A body that ends behind the compression methods. */
  function BodyWithoutExtensions(version: seq<byte>, random: seq<byte>, sessionId: seq<byte>,
                                 cipherSuites: seq<byte>, compression: seq<byte>): seq<byte>
    requires HeadFits(version, random, sessionId, cipherSuites, compression)
  {
    version + random + (Vec8(sessionId) + (Vec16(cipherSuites) + Vec8(compression)))
  }

  function Handshake(body: seq<byte>): seq<byte>
    requires |body| <= 0xFF_FFFF
  {
    [0x01] + Vec24(body)
  }

  function Record(version: seq<byte>, handshake: seq<byte>): seq<byte>
    requires |version| == 2 && |handshake| <= 0xFFFF
  {
    [0x16] + version + Vec16(handshake)
  }

  predicate BlockFits(es: seq<Extension>) {
    (forall e :: e in es ==> ExtensionFits(e)) && |EncodeExtensions(es)| <= 0xFFFF
  }

  /** Every length of the message fits its field; the whole message goes into one record. */
  predicate HelloFits(h: Hello) {
    && HeadFits(h.version, h.random, h.sessionId, h.cipherSuites, h.compression)
    && (h.extensions.Some? ==> BlockFits(h.extensions.value))
    && 4 + |HelloBody(h)| <= 0xFFFF
  }

  function HelloBody(h: Hello): seq<byte>
    requires HeadFits(h.version, h.random, h.sessionId, h.cipherSuites, h.compression)
    requires h.extensions.Some? ==> BlockFits(h.extensions.value)
  {
    match h.extensions
    case None => BodyWithoutExtensions(h.version, h.random, h.sessionId, h.cipherSuites, h.compression)
    case Some(es) => Body(h.version, h.random, h.sessionId, h.cipherSuites, h.compression, EncodeExtensions(es))
  }

  function EncodeHello(recordVersion: seq<byte>, h: Hello): seq<byte>
    requires |recordVersion| == 2 && HelloFits(h)
  {
    Record(recordVersion, Handshake(HelloBody(h)))
  }

  /** The first host_name of a name list, "" if there is none. */
  function FirstHostName(names: seq<Name>): seq<byte> {
    if names == [] then []
    else if names[0].kind == HOST_NAME then names[0].bytes
    else FirstHostName(names[1..])
  }

  /** The first host_name of the first server_name extension, "" if there is none. */
  function ServerNameOf(es: seq<Extension>): seq<byte> {
    if es == [] then []
    else if es[0].ServerName? then FirstHostName(es[0].names)
    else ServerNameOf(es[1..])
  }

  // ----- What the parser computes, layer by layer -----

  /** The contents of a record or handshake payload of the given length, if it is all there. */
  function Opened(b: seq<byte>, header: nat, len: nat): Option<seq<byte>> {
    if header + len <= |b| then Some(b[header..header + len]) else None
  }

  function RecordPayload(data: seq<byte>): Option<seq<byte>> {
    if |data| < 5 || data[0] != 0x16 then None else Opened(data, 5, Load16(data, 3))
  }

  function HandshakeBody(hs: seq<byte>): Option<seq<byte>> {
    if |hs| < 4 || hs[0] != 0x01 then None
    else Opened(hs, 4, hs[1] as int * 0x1_0000 + Load16(hs, 2))
  }

  /** What is left behind a vector with an 8-bit length. */
  function Skip8(b: seq<byte>): Option<seq<byte>> {
    if |b| < 1 || |b| < 1 + b[0] as int then None else Some(b[1 + b[0] as int..])
  }

  function Skip16(b: seq<byte>): Option<seq<byte>> {
    if |b| < 2 || |b| < 2 + Load16(b, 0) then None else Some(b[2 + Load16(b, 0)..])
  }

  function Open16(b: seq<byte>): Option<seq<byte>> {
    if |b| < 2 then None else Opened(b, 2, Load16(b, 0))
  }

  function ExtensionBlock(body: seq<byte>): Option<seq<byte>> {
    if |body| < 34 then None else
    match Skip8(body[34..])
    case None => None
    case Some(suites) =>
      match Skip16(suites)
      case None => None
      case Some(methods) =>
        match Skip8(methods)
        case None => None
        case Some(rest) => Open16(rest)
  }

  function NameSni(entries: seq<byte>): seq<byte>
    decreases |entries|
  {
    if |entries| < 3 then []
    else
      var len := Load16(entries, 1);
      if 3 + len > |entries| then []
      else if entries[0] == HOST_NAME then entries[3..3 + len]
      else NameSni(entries[3 + len..])
  }

  function ListSni(data: seq<byte>): seq<byte> {
    match Open16(data)
    case None => []
    case Some(entries) => NameSni(entries)
  }

  function ExtensionSni(exts: seq<byte>): seq<byte>
    decreases |exts|
  {
    if |exts| < 4 then []
    else
      var len := Load16(exts, 2);
      if 4 + len > |exts| then []
      else if Load16(exts, 0) == SERVER_NAME then ListSni(exts[4..4 + len])
      else ExtensionSni(exts[4 + len..])
  }

  function Sni(data: seq<byte>): seq<byte> {
    match RecordPayload(data)
    case None => []
    case Some(hs) =>
      match HandshakeBody(hs)
      case None => []
      case Some(body) =>
        match ExtensionBlock(body)
        case None => []
        case Some(exts) => ExtensionSni(exts)
  }

  // ----- The program -----

  /** Walks the layers with a cursor, then the extensions with a shrinking slice. */
  method ParseSni(data: seq<byte>) returns (name: seq<byte>)
    ensures name == Sni(data)
  {
    if |data| < 5 || data[0] != 0x16 {
      return [];
    }
    var recordLen := data[3] as int * 0x100 + data[4];
    if |data| < 5 + recordLen {
      return [];
    }
    var hs := data[5..5 + recordLen];
    if |hs| < 4 || hs[0] != 0x01 {
      return [];
    }
    var hsLen := hs[1] as int * 0x1_0000 + hs[2] as int * 0x100 + hs[3];
    if |hs| < 4 + hsLen {
      return [];
    }
    var body := hs[4..4 + hsLen];
    assert RecordPayload(data) == Some(hs) && HandshakeBody(hs) == Some(body);
    var block := FindExtensions(body);
    if block.None? {
      return [];
    }
    name := FindServerName(block.value);
  }

  /** Walks the extensions up to the first server_name. */
  method FindServerName(block: seq<byte>) returns (name: seq<byte>)
    ensures name == ExtensionSni(block)
  {
    var exts := block;
    while |exts| >= 4
      invariant ExtensionSni(exts) == ExtensionSni(block)
      decreases |exts|
    {
      var extType := exts[0] as int * 0x100 + exts[1];
      var extDataLen := exts[2] as int * 0x100 + exts[3];
      if 4 + extDataLen > |exts| {
        break;
      }
      if extType == 0 {
        name := ParseSniExtension(exts[4..4 + extDataLen]);
        return;
      }
      exts := exts[4 + extDataLen..];
    }
    return [];
  }

  /** The cursor part of the parser: skips session id, cipher suites and compression methods. */
  method FindExtensions(body: seq<byte>) returns (block: Option<seq<byte>>)
    ensures block == ExtensionBlock(body)
  {
    if |body| < 34 {
      return None;
    }
    var pos := 34;
    if pos >= |body| {
      return None;
    }
    pos := pos + 1 + body[pos] as int;
    if pos + 2 > |body| {
      SkipPast(body[34..]);
      return None;
    }
    assert Skip8(body[34..]) == Some(body[pos..]);
    ghost var suites := pos;
    var csLen := body[pos] as int * 0x100 + body[pos + 1];
    pos := pos + 2 + csLen;
    if pos >= |body| {
      return None;
    }
    assert Skip16(body[suites..]) == Some(body[pos..]);
    ghost var methods := pos;
    pos := pos + 1 + body[pos] as int;
    if pos + 2 > |body| {
      return None;
    }
    assert Skip8(body[methods..]) == Some(body[pos..]);
    ghost var rest := body[pos..];
    var extLen := body[pos] as int * 0x100 + body[pos + 1];
    pos := pos + 2;
    if pos + extLen > |body| {
      return None;
    }
    assert rest[2..2 + extLen] == body[pos..pos + extLen];
    return Some(body[pos..pos + extLen]);
  }

  lemma SkipPast(b: seq<byte>)
    requires |b| >= 1 && |b| < 1 + b[0] as int + 2
    ensures Skip8(b).Some? ==> Skip16(Skip8(b).value).None?
  {
  }

  method ParseSniExtension(data: seq<byte>) returns (name: seq<byte>)
    ensures name == ListSni(data)
  {
    if |data| < 2 {
      return [];
    }
    var listLen := data[0] as int * 0x100 + data[1];
    if 2 + listLen > |data| {
      return [];
    }
    var entries := data[2..2 + listLen];
    while |entries| >= 3
      invariant NameSni(entries) == ListSni(data)
      decreases |entries|
    {
      var nameType := entries[0];
      var nameLen := entries[1] as int * 0x100 + entries[2];
      if 3 + nameLen > |entries| {
        break;
      }
      if nameType == 0 {
        return entries[3..3 + nameLen];
      }
      entries := entries[3 + nameLen..];
    }
    return [];
  }

  // ----- Opening what the encoder closed -----

  lemma Open16Vec16(b: seq<byte>, rest: seq<byte>)
    requires |b| <= 0xFFFF
    ensures Open16(Vec16(b) + rest) == Some(b) && Skip16(Vec16(b) + rest) == Some(rest)
  {
    assert (Vec16(b) + rest)[2..2 + |b|] == b;
  }

  lemma Skip8Vec8(b: seq<byte>, rest: seq<byte>)
    requires |b| <= 0xFF
    ensures Skip8(Vec8(b) + rest) == Some(rest)
  {
  }

  lemma NameSniStep(n: Name, rest: seq<byte>)
    requires NameFits(n)
    ensures NameSni(EncodeName(n) + rest) == if n.kind == HOST_NAME then n.bytes else NameSni(rest)
  {
    var entries := EncodeName(n) + rest;
    assert entries[3..3 + |n.bytes|] == n.bytes && entries[3 + |n.bytes|..] == rest;
  }

  lemma ExtensionSniStep(kind: u16, data: seq<byte>, rest: seq<byte>)
    requires |data| <= 0xFFFF
    ensures ExtensionSni(Tagged(kind, data) + rest) == if kind == SERVER_NAME then ListSni(data) else ExtensionSni(rest)
  {
    var exts := Tagged(kind, data) + rest;
    assert exts[4..4 + |data|] == data && exts[4 + |data|..] == rest;
    assert Load16(exts, 0) == kind && Load16(exts, 2) == |data|;
  }

  lemma ListSniOpens(list: seq<byte>, rest: seq<byte>)
    requires |list| <= 0xFFFF
    ensures ListSni(Vec16(list) + rest) == NameSni(list)
  {
    Open16Vec16(list, rest);
  }

  /** Trailing bytes behind the extensions do not matter. */
  lemma ExtensionBlockOpens(version: seq<byte>, random: seq<byte>, sessionId: seq<byte>, cipherSuites: seq<byte>,
                            compression: seq<byte>, extensions: seq<byte>, rest: seq<byte>)
    requires HeadFits(version, random, sessionId, cipherSuites, compression) && |extensions| <= 0xFFFF
    ensures ExtensionBlock(Body(version, random, sessionId, cipherSuites, compression, extensions) + rest)
            == Some(extensions)
  {
    var body := Body(version, random, sessionId, cipherSuites, compression, extensions) + rest;
    var r3 := Vec16(extensions) + rest;
    var r2 := Vec8(compression) + r3;
    var r1 := Vec16(cipherSuites) + r2;
    assert body[34..] == Vec8(sessionId) + r1;
    Skip8Vec8(sessionId, r1);
    Open16Vec16(cipherSuites, r2);
    Skip8Vec8(compression, r3);
    Open16Vec16(extensions, rest);
  }

  lemma RecordOpens(version: seq<byte>, handshake: seq<byte>, rest: seq<byte>)
    requires |version| == 2 && |handshake| <= 0xFFFF
    ensures RecordPayload(Record(version, handshake) + rest) == Some(handshake)
  {
    var data := Record(version, handshake) + rest;
    assert Load16(data, 3) == |handshake|;
    assert data[5..5 + |handshake|] == handshake;
  }

  lemma HandshakeOpens(body: seq<byte>, rest: seq<byte>)
    requires |body| <= 0xFF_FFFF
    ensures HandshakeBody(Handshake(body) + rest) == Some(body)
  {
    var hs := Handshake(body) + rest;
    assert hs[1] as int * 0x1_0000 + Load16(hs, 2) == |body|;
    assert hs[4..4 + |body|] == body;
  }

  // ----- The parser undoes the reference encoder -----

  lemma {:induction false} NameSniOfEncoded(names: seq<Name>)
    requires forall n :: n in names ==> NameFits(n)
    ensures NameSni(EncodeNames(names)) == FirstHostName(names)
  {
    if names != [] {
      NameSniStep(names[0], EncodeNames(names[1..]));
      NameSniOfEncoded(names[1..]);
    }
  }

  lemma ExtensionSniEncodedStep(e: Extension, rest: seq<byte>)
    requires ExtensionFits(e)
    ensures ExtensionSni(EncodeExtension(e) + rest)
            == if e.ServerName? then FirstHostName(e.names) else ExtensionSni(rest)
  {
    match e
    case ServerName(names) =>
      var list := EncodeNames(names);
      ExtensionSniStep(SERVER_NAME, Vec16(list), rest);
      ListSniOpens(list, []);
      assert Vec16(list) + [] == Vec16(list);
      NameSniOfEncoded(names);
    case Other(kind, data) =>
      ExtensionSniStep(kind, data, rest);
  }

  lemma {:induction false} ExtensionSniOfEncoded(es: seq<Extension>)
    requires forall e :: e in es ==> ExtensionFits(e)
    ensures ExtensionSni(EncodeExtensions(es)) == ServerNameOf(es)
  {
    if es != [] {
      ExtensionSniEncodedStep(es[0], EncodeExtensions(es[1..]));
      ExtensionSniOfEncoded(es[1..]);
    }
  }

  /** Without an extensions block there is nothing to open. */
  lemma NoExtensionBlock(h: Hello)
    requires HelloFits(h) && h.extensions.None?
    ensures ExtensionBlock(HelloBody(h)) == None
  {
    var r2 := Vec8(h.compression);
    var r1 := Vec16(h.cipherSuites) + r2;
    assert HelloBody(h)[34..] == Vec8(h.sessionId) + r1;
    Skip8Vec8(h.sessionId, r1);
    Open16Vec16(h.cipherSuites, r2);
    Skip8Vec8(h.compression, []);
    assert r2 + [] == r2;
  }

  lemma HelloBlock(h: Hello)
    requires HelloFits(h)
    ensures ExtensionBlock(HelloBody(h))
            == match h.extensions case None => None case Some(es) => Some(EncodeExtensions(es))
  {
    match h.extensions
    case None => NoExtensionBlock(h);
    case Some(es) =>
      var exts := EncodeExtensions(es);
      ExtensionBlockOpens(h.version, h.random, h.sessionId, h.cipherSuites, h.compression, exts, []);
      assert HelloBody(h) + [] == HelloBody(h);
  }

  /** The name a message carries, "" if there is none. */
  function NameOf(h: Hello): seq<byte> {
    match h.extensions case None => [] case Some(es) => ServerNameOf(es)
  }

  /** For every ClientHello that fits one record, parsing its encoding returns the first host_name
      of its first server_name extension, or "". */
  lemma ParseUndoesEncode(recordVersion: seq<byte>, h: Hello)
    requires |recordVersion| == 2 && HelloFits(h)
    ensures Sni(EncodeHello(recordVersion, h)) == NameOf(h)
  {
    var body := HelloBody(h);
    HelloBlock(h);
    HandshakeOpens(body, []);
    assert Handshake(body) + [] == Handshake(body);
    RecordOpens(recordVersion, Handshake(body), []);
    assert Record(recordVersion, Handshake(body)) + [] == Record(recordVersion, Handshake(body));
    if h.extensions.Some? {
      ExtensionSniOfEncoded(h.extensions.value);
    }
  }

  // ----- Exactly what the parser accepts -----

  /** A message as lenient as the parser: anything may follow the record, the handshake message, the
      extensions, the server_name extension, its name list and the name found in it. */
  datatype Lenient = Lenient(
    recordVersion: seq<byte>, version: seq<byte>, random: seq<byte>, sessionId: seq<byte>,
    cipherSuites: seq<byte>, compression: seq<byte>,
    skipped: seq<Extension>, skippedNames: seq<Name>, name: seq<byte>,
    afterName: seq<byte>, afterList: seq<byte>, afterServerName: seq<byte>,
    afterExtensions: seq<byte>, afterHandshake: seq<byte>, afterRecord: seq<byte>)
  {
    ghost predicate ListFits() {
      && (forall n :: n in skippedNames ==> NameFits(n) && n.kind != HOST_NAME)
      && |name| <= 0xFFFF && |List()| <= 0xFFFF
    }

    ghost function List(): seq<byte>
      requires forall n :: n in skippedNames ==> NameFits(n) && n.kind != HOST_NAME
      requires |name| <= 0xFFFF
    {
      EncodeNames(skippedNames) + (EncodeName(Name(HOST_NAME, name)) + afterName)
    }

    ghost predicate ExtensionsFit() {
      && ListFits() && |Vec16(List()) + afterList| <= 0xFFFF
      && (forall e :: e in skipped ==> e.Other? && ExtensionFits(e))
      && |Extensions()| <= 0xFFFF
    }

    ghost function Extensions(): seq<byte>
      requires ListFits() && |Vec16(List()) + afterList| <= 0xFFFF
      requires forall e :: e in skipped ==> e.Other? && ExtensionFits(e)
    {
      EncodeExtensions(skipped) + (Tagged(SERVER_NAME, Vec16(List()) + afterList) + afterServerName)
    }

    ghost predicate Fits() {
      && ExtensionsFit() && HeadFits(version, random, sessionId, cipherSuites, compression)
      && |recordVersion| == 2 && |LenientBody()| <= 0xFF_FFFF && |LenientHandshake()| <= 0xFFFF
    }

    ghost function LenientBody(): seq<byte>
      requires ExtensionsFit() && HeadFits(version, random, sessionId, cipherSuites, compression)
    {
      Body(version, random, sessionId, cipherSuites, compression, Extensions()) + afterExtensions
    }

    ghost function LenientHandshake(): seq<byte>
      requires ExtensionsFit() && HeadFits(version, random, sessionId, cipherSuites, compression)
      requires |LenientBody()| <= 0xFF_FFFF
    {
      Handshake(LenientBody()) + afterHandshake
    }

    ghost function Encode(): seq<byte>
      requires Fits()
    {
      Record(recordVersion, LenientHandshake()) + afterRecord
    }
  }

  lemma Regroup(a: seq<byte>, b: seq<byte>, c: seq<byte>)
    ensures (a + b) + c == a + (b + c)
  {
  }

  lemma {:induction false} NameSniSkips(names: seq<Name>, rest: seq<byte>)
    requires forall n :: n in names ==> NameFits(n) && n.kind != HOST_NAME
    ensures NameSni(EncodeNames(names) + rest) == NameSni(rest)
  {
    if names == [] {
      assert EncodeNames(names) + rest == rest;
    } else {
      var tail := EncodeNames(names[1..]) + rest;
      Regroup(EncodeName(names[0]), EncodeNames(names[1..]), rest);
      NameSniStep(names[0], tail);
      NameSniSkips(names[1..], rest);
    }
  }

  lemma {:induction false} ExtensionSniSkips(es: seq<Extension>, rest: seq<byte>)
    requires forall e :: e in es ==> e.Other? && ExtensionFits(e)
    ensures ExtensionSni(EncodeExtensions(es) + rest) == ExtensionSni(rest)
  {
    if es == [] {
      assert EncodeExtensions(es) + rest == rest;
    } else {
      var tail := EncodeExtensions(es[1..]) + rest;
      Regroup(EncodeExtension(es[0]), EncodeExtensions(es[1..]), rest);
      ExtensionSniStep(es[0].kind, es[0].data, tail);
      ExtensionSniSkips(es[1..], rest);
    }
  }

  lemma ParseLenient(m: Lenient)
    requires m.Fits()
    ensures Sni(m.Encode()) == m.name
  {
    RecordOpens(m.recordVersion, m.LenientHandshake(), m.afterRecord);
    HandshakeOpens(m.LenientBody(), m.afterHandshake);
    ExtensionBlockOpens(m.version, m.random, m.sessionId, m.cipherSuites, m.compression,
                        m.Extensions(), m.afterExtensions);
    ParseLenientExtensions(m);
  }

  lemma ParseLenientExtensions(m: Lenient)
    requires m.ExtensionsFit()
    ensures ExtensionSni(m.Extensions()) == m.name
  {
    var data := Vec16(m.List()) + m.afterList;
    ExtensionSniSkips(m.skipped, Tagged(SERVER_NAME, data) + m.afterServerName);
    ExtensionSniStep(SERVER_NAME, data, m.afterServerName);
    ListSniOpens(m.List(), m.afterList);
    NameSniSkips(m.skippedNames, EncodeName(Name(HOST_NAME, m.name)) + m.afterName);
    NameSniStep(Name(HOST_NAME, m.name), m.afterName);
  }

  // Taking apart what the parser accepted.

  lemma Be16Load(b: seq<byte>, at: nat)
    requires at + 2 <= |b|
    ensures Be16(Load16(b, at)) == b[at..at + 2]
  {
  }

  lemma OpenedIsVec16(b: seq<byte>) returns (inner: seq<byte>, rest: seq<byte>)
    requires Open16(b).Some?
    ensures Open16(b) == Some(inner) && Skip16(b) == Some(rest)
    ensures |inner| <= 0xFFFF && b == Vec16(inner) + rest
  {
    inner, rest := Open16(b).value, Skip16(b).value;
    Be16Load(b, 0);
  }

  lemma SkippedIsVec16(b: seq<byte>) returns (inner: seq<byte>)
    requires Skip16(b).Some?
    ensures |inner| <= 0xFFFF && b == Vec16(inner) + Skip16(b).value
  {
    inner := b[2..2 + Load16(b, 0)];
    Be16Load(b, 0);
  }

  lemma SkippedIsVec8(b: seq<byte>) returns (inner: seq<byte>)
    requires Skip8(b).Some?
    ensures |inner| <= 0xFF && b == Vec8(inner) + Skip8(b).value
  {
    inner := b[1..1 + b[0] as int];
  }

  lemma EncodeNamesCons(n: Name, names: seq<Name>, tail: seq<byte>)
    requires NameFits(n) && forall m :: m in names ==> NameFits(m)
    ensures EncodeNames([n] + names) + tail == EncodeName(n) + (EncodeNames(names) + tail)
  {
    assert ([n] + names)[1..] == names;
  }

  lemma EncodeExtensionsCons(e: Extension, es: seq<Extension>, tail: seq<byte>)
    requires ExtensionFits(e) && forall f :: f in es ==> ExtensionFits(f)
    ensures EncodeExtensions([e] + es) + tail == EncodeExtension(e) + (EncodeExtensions(es) + tail)
  {
    assert ([e] + es)[1..] == es;
  }

  lemma {:induction false} NameSniFinds(entries: seq<byte>) returns (skipped: seq<Name>, after: seq<byte>)
    requires NameSni(entries) != []
    ensures forall n :: n in skipped ==> NameFits(n) && n.kind != HOST_NAME
    ensures |NameSni(entries)| <= 0xFFFF
    ensures entries == EncodeNames(skipped) + (EncodeName(Name(HOST_NAME, NameSni(entries))) + after)
    decreases |entries|
  {
    var len := Load16(entries, 1);
    Be16Load(entries, 1);
    var n, rest := Name(entries[0], entries[3..3 + len]), entries[3 + len..];
    assert entries == EncodeName(n) + rest;
    assert NameSni(entries) == if n.kind == HOST_NAME then n.bytes else NameSni(rest);
    if n.kind == HOST_NAME {
      skipped, after := [], rest;
      assert EncodeNames(skipped) + (EncodeName(n) + after) == EncodeName(n) + after;
    } else {
      var s, a := NameSniFinds(rest);
      skipped, after := [n] + s, a;
      EncodeNamesCons(n, s, EncodeName(Name(HOST_NAME, NameSni(rest))) + after);
    }
  }

  lemma {:induction false} ExtensionSniFinds(exts: seq<byte>)
    returns (skipped: seq<Extension>, data: seq<byte>, after: seq<byte>)
    requires ExtensionSni(exts) != []
    ensures forall e :: e in skipped ==> e.Other? && ExtensionFits(e)
    ensures |data| <= 0xFFFF && ListSni(data) == ExtensionSni(exts)
    ensures exts == EncodeExtensions(skipped) + (Tagged(SERVER_NAME, data) + after)
    decreases |exts|
  {
    var kind, len := Load16(exts, 0), Load16(exts, 2);
    Be16Load(exts, 0);
    Be16Load(exts, 2);
    var d, rest := exts[4..4 + len], exts[4 + len..];
    assert exts == Tagged(kind, d) + rest;
    assert ExtensionSni(exts) == if kind == SERVER_NAME then ListSni(d) else ExtensionSni(rest);
    if kind == SERVER_NAME {
      skipped, data, after := [], d, rest;
      assert EncodeExtensions(skipped) + (Tagged(kind, d) + after) == Tagged(kind, d) + after;
    } else {
      var s;
      s, data, after := ExtensionSniFinds(rest);
      skipped := [Other(kind, d)] + s;
      EncodeExtensionsCons(Other(kind, d), s, Tagged(SERVER_NAME, data) + after);
    }
  }

  lemma BodyFinds(body: seq<byte>)
    returns (version: seq<byte>, random: seq<byte>, sessionId: seq<byte>, cipherSuites: seq<byte>,
             compression: seq<byte>, extensions: seq<byte>, after: seq<byte>)
    requires ExtensionBlock(body).Some?
    ensures HeadFits(version, random, sessionId, cipherSuites, compression) && |extensions| <= 0xFFFF
    ensures ExtensionBlock(body) == Some(extensions)
    ensures body == Body(version, random, sessionId, cipherSuites, compression, extensions) + after
  {
    version, random := body[..2], body[2..34];
    var r0 := body[34..];
    sessionId, cipherSuites, compression, extensions, after := VectorsFound(r0);
    var head := version + random;
    assert head == body[..34];
    assert body == head + r0;
    BodyJoins(head, Vec8(sessionId), Vec16(cipherSuites), Vec8(compression), Vec16(extensions), after);
  }

  lemma VectorsFound(r0: seq<byte>)
    returns (sessionId: seq<byte>, cipherSuites: seq<byte>, compression: seq<byte>,
             extensions: seq<byte>, after: seq<byte>)
    requires Skip8(r0).Some? && Skip16(Skip8(r0).value).Some?
    requires Skip8(Skip16(Skip8(r0).value).value).Some? && Open16(Skip8(Skip16(Skip8(r0).value).value).value).Some?
    ensures |sessionId| <= 0xFF && |cipherSuites| <= 0xFFFF && |compression| <= 0xFF && |extensions| <= 0xFFFF
    ensures Open16(Skip8(Skip16(Skip8(r0).value).value).value) == Some(extensions)
    ensures r0 == Vec8(sessionId) + (Vec16(cipherSuites) + (Vec8(compression) + (Vec16(extensions) + after)))
  {
    sessionId := SkippedIsVec8(r0);
    var r1 := Skip8(r0).value;
    cipherSuites := SkippedIsVec16(r1);
    var r2 := Skip16(r1).value;
    compression := SkippedIsVec8(r2);
    extensions, after := OpenedIsVec16(Skip8(r2).value);
  }

  lemma BodyJoins(a: seq<byte>, b: seq<byte>, c: seq<byte>, d: seq<byte>, e: seq<byte>, f: seq<byte>)
    ensures a + (b + (c + (d + (e + f)))) == a + (b + (c + (d + e))) + f
  {
    assert d + (e + f) == (d + e) + f;
    assert c + ((d + e) + f) == (c + (d + e)) + f;
    assert b + ((c + (d + e)) + f) == (b + (c + (d + e))) + f;
  }

  /** A message with the extensions in which the parser finds a name, and nothing else yet. */
  lemma ExtensionsTakenApart(exts: seq<byte>) returns (m: Lenient)
    requires ExtensionSni(exts) != [] && |exts| <= 0xFFFF
    ensures m.ExtensionsFit() && m.Extensions() == exts && m.name == ExtensionSni(exts)
  {
    var skipped, sniData, afterServerName := ExtensionSniFinds(exts);
    var list, afterList := OpenedIsVec16(sniData);
    var skippedNames, afterName := NameSniFinds(list);
    m := Lenient([], [], [], [], [], [], skipped, skippedNames, ExtensionSni(exts),
                 afterName, afterList, afterServerName, [], [], []);
    assert m.List() == list;
  }

  /** The layers around the extensions, put back. */
  lemma LayersPutBack(m: Lenient, exts: Lenient, body: seq<byte>, hs: seq<byte>, data: seq<byte>)
    requires exts.ExtensionsFit()
    requires m.skipped == exts.skipped && m.skippedNames == exts.skippedNames && m.name == exts.name
             && m.afterName == exts.afterName && m.afterList == exts.afterList
             && m.afterServerName == exts.afterServerName
    requires HeadFits(m.version, m.random, m.sessionId, m.cipherSuites, m.compression) && |m.recordVersion| == 2
    requires body == Body(m.version, m.random, m.sessionId, m.cipherSuites, m.compression, exts.Extensions())
                     + m.afterExtensions
    requires |body| <= 0xFF_FFFF && hs == Handshake(body) + m.afterHandshake
    requires |hs| <= 0xFFFF && data == Record(m.recordVersion, hs) + m.afterRecord
    ensures m.Fits() && m.Encode() == data
  {
    assert m.List() == exts.List() && m.Extensions() == exts.Extensions();
  }

  /** The layers the parser went through. */
  lemma SniLayers(data: seq<byte>) returns (hs: seq<byte>, body: seq<byte>, exts: seq<byte>)
    requires Sni(data) != []
    ensures RecordPayload(data) == Some(hs) && HandshakeBody(hs) == Some(body) && ExtensionBlock(body) == Some(exts)
    ensures Sni(data) == ExtensionSni(exts)
  {
    hs := RecordPayload(data).value;
    body := HandshakeBody(hs).value;
    exts := ExtensionBlock(body).value;
  }

  /** Whatever the parser finds a name in is such a message, with that name. */
  lemma ParsedIsLenient(data: seq<byte>) returns (m: Lenient)
    requires Sni(data) != []
    ensures m.Fits() && m.Encode() == data && m.name == Sni(data)
  {
    var hs, body, exts := SniLayers(data);
    var version, random, sessionId, cipherSuites, compression, extensions, afterExtensions := BodyFinds(body);
    var inner := ExtensionsTakenApart(exts);
    HandshakeIsFramed(hs);
    RecordIsFramed(data);
    m := inner.(recordVersion := data[1..3], version := version, random := random, sessionId := sessionId,
                cipherSuites := cipherSuites, compression := compression, afterExtensions := afterExtensions,
                afterHandshake := hs[4 + |body|..], afterRecord := data[5 + |hs|..]);
    LayersPutBack(m, inner, body, hs, data);
  }

  lemma HandshakeIsFramed(hs: seq<byte>)
    requires HandshakeBody(hs).Some?
    ensures var body := HandshakeBody(hs).value;
            |body| <= 0xFF_FFFF && hs == Handshake(body) + hs[4 + |body|..]
  {
    var body := HandshakeBody(hs).value;
    Be16Load(hs, 2);
    assert |body| % 0x1_0000 == Load16(hs, 2) && |body| / 0x1_0000 == hs[1];
  }

  lemma RecordIsFramed(data: seq<byte>)
    requires RecordPayload(data).Some?
    ensures var hs := RecordPayload(data).value;
            |hs| <= 0xFFFF && data == Record(data[1..3], hs) + data[5 + |hs|..]
  {
    Be16Load(data, 3);
  }

  /** The parser finds a name exactly in the messages of this lenient form, and finds theirs. */
  lemma ParserAcceptsExactlyLenient(data: seq<byte>, name: seq<byte>)
    requires name != []
    ensures Sni(data) == name <==> exists m: Lenient :: m.Fits() && m.Encode() == data && m.name == name
  {
    if Sni(data) == name {
      var m := ParsedIsLenient(data);
    }
    forall m: Lenient | m.Fits() && m.Encode() == data && m.name == name
      ensures Sni(data) == name
    {
      ParseLenient(m);
    }
  }

  // ----- The builder -----

  /** A length field as the builder writes it, keeping the low 16 bits. */
  function Low16(n: nat): (r: seq<byte>)
    ensures |r| == 2
    ensures n <= 0xFFFF ==> r == Be16(n)
  {
    [ToByte(n / 0x100), ToByte(n)]
  }

  // The layers the builder produces for a name of any length.

  function BuiltExtension(name: seq<byte>): (r: seq<byte>)
    ensures |r| == 9 + |name|
  {
    [0x00, 0x00] + Low16(5 + |name|) + (Low16(3 + |name|) + ([0x00] + Low16(|name|) + name))
  }

  function BuiltBody(name: seq<byte>): (r: seq<byte>)
    ensures |r| == 52 + |name|
  {
    [0x03, 0x03] + seq(32, _ => 0) + [0x00] + [0x00, 0x02, 0x13, 0x01] + [0x01, 0x00]
    + Low16(9 + |name|) + BuiltExtension(name)
  }

  function BuiltHandshake(name: seq<byte>): (r: seq<byte>)
    ensures |r| == 56 + |name|
  {
    [0x01, 0x00] + Low16(52 + |name|) + BuiltBody(name)
  }

  function Built(name: seq<byte>): (r: seq<byte>)
    ensures |r| == 61 + |name|
  {
    [0x16, 0x03, 0x01] + Low16(56 + |name|) + BuiltHandshake(name)
  }

  /** Grows the message layer by layer with appends. */
  method BuildClientHello(sni: seq<byte>) returns (record: seq<byte>)
    ensures record == Built(sni)
    ensures |sni| <= 65479 ==> record == EncodeHello([0x03, 0x01], FakeHello(sni))
  {
    var sniExt: seq<byte> := [0x00, 0x00];
    var sniPayload: seq<byte> := [0x00];
    sniPayload := sniPayload + [ToByte(|sni| / 0x100), ToByte(|sni|)];
    sniPayload := sniPayload + sni;

    var sniListLen := |sniPayload|;
    var sniExtData: seq<byte> := [ToByte(sniListLen / 0x100), ToByte(sniListLen)];
    sniExtData := sniExtData + sniPayload;

    sniExt := sniExt + [ToByte(|sniExtData| / 0x100), ToByte(|sniExtData|)];
    sniExt := sniExt + sniExtData;
    assert sniExt == BuiltExtension(sni);

    var body := BuildBody(sni, sniExt);

    var handshake: seq<byte> := [0x01, 0x00, ToByte(|body| / 0x100), ToByte(|body|)];
    assert handshake == [0x01, 0x00] + Low16(52 + |sni|);
    handshake := handshake + body;

    record := [0x16, 0x03, 0x01, ToByte(|handshake| / 0x100), ToByte(|handshake|)];
    assert record == [0x16, 0x03, 0x01] + Low16(56 + |sni|);
    record := record + handshake;
    if |sni| <= 65479 {
      BuiltIsEncoded(sni);
    }
  }

  method BuildBody(ghost sni: seq<byte>, sniExt: seq<byte>) returns (body: seq<byte>)
    requires sniExt == BuiltExtension(sni)
    ensures body == BuiltBody(sni)
  {
    body := [0x03, 0x03];
    body := body + seq(32, _ => 0);
    body := body + [0x00];
    body := body + [0x00, 0x02, 0x13, 0x01];
    body := body + [0x01, 0x00];
    body := body + [ToByte(|sniExt| / 0x100), ToByte(|sniExt|)];
    body := body + sniExt;
  }

  /** "www.google.com", the name the program builds its fake for. */
  const FAKE_NAME: seq<byte> := [0x77, 0x77, 0x77, 0x2E, 0x67, 0x6F, 0x6F, 0x67, 0x6C, 0x65, 0x2E, 0x63, 0x6F, 0x6D]

  /** The ClientHello the fake stands for: TLS 1.2, zero random, one cipher suite, one host_name. */
  function FakeHello(name: seq<byte>): (h: Hello)
    ensures |name| <= 65479 ==> HelloFits(h)
  {
    var h := Hello([0x03, 0x03], seq(32, _ => 0), [], [0x13, 0x01], [0x00],
                   Some([ServerName([Name(HOST_NAME, name)])]));
    if |name| <= 65479 then FakeExtensions(name); h else h
  }

  lemma FakeExtensions(name: seq<byte>)
    requires |name| <= 65479
    ensures var n := Name(HOST_NAME, name);
            var e := ServerName([n]);
            && NameFits(n) && |EncodeName(n)| == 3 + |name| && EncodeNames([n]) == EncodeName(n)
            && ExtensionFits(e) && EncodeExtensions([e]) == Tagged(SERVER_NAME, Vec16(EncodeName(n)))
  {
    var n := Name(HOST_NAME, name);
    assert EncodeNames([n]) == EncodeName(n) + EncodeNames([]);
    var e := ServerName([n]);
    assert EncodeExtensions([e]) == EncodeExtension(e) + EncodeExtensions([]);
  }

  lemma FakeBody(exts: seq<byte>)
    requires |exts| <= 0xFFFF
    ensures Body([0x03, 0x03], seq(32, _ => 0), [], [0x13, 0x01], [0x00], exts)
            == [0x03, 0x03] + seq(32, _ => 0) + [0x00] + [0x00, 0x02, 0x13, 0x01] + [0x01, 0x00] + Low16(|exts|) + exts
  {
    assert Vec8([]) == [0x00] && Vec16([0x13, 0x01]) == [0x00, 0x02, 0x13, 0x01] && Vec8([0x00]) == [0x01, 0x00];
    BodyJoins([0x03, 0x03] + seq(32, _ => 0), [0x00], [0x00, 0x02, 0x13, 0x01], [0x01, 0x00], Low16(|exts|), exts);
  }

  lemma BuiltBodyIsEncoded(name: seq<byte>)
    requires |name| <= 65479
    ensures BuiltBody(name) == HelloBody(FakeHello(name))
  {
    FakeExtensions(name);
    var n := Name(HOST_NAME, name);
    var exts := Tagged(SERVER_NAME, Vec16(EncodeName(n)));
    assert exts == BuiltExtension(name) by {
      assert EncodeName(n) == [0x00] + Low16(|name|) + name;
    }
    FakeBody(exts);
  }

  lemma FakeFraming(body: seq<byte>)
    requires 4 + |body| <= 0xFFFF
    ensures [0x16, 0x03, 0x01] + Low16(4 + |body|) + ([0x01, 0x00] + Low16(|body|) + body)
            == Record([0x03, 0x01], Handshake(body))
  {
    assert Handshake(body) == [0x01, 0x00] + Low16(|body|) + body;
    assert [0x16] + [0x03, 0x01] == [0x16, 0x03, 0x01];
  }

  lemma BuiltIsEncoded(name: seq<byte>)
    requires |name| <= 65479
    ensures Built(name) == EncodeHello([0x03, 0x01], FakeHello(name))
  {
    BuiltBodyIsEncoded(name);
    FakeFraming(BuiltBody(name));
  }

  /** A name the parser found leaves at least 53 bytes of the record for the framing around it. */
  lemma NameLeavesRoom(data: seq<byte>)
    requires Sni(data) != []
    ensures |data| >= 5 && |Sni(data)| + 53 <= Load16(data, 3)
  {
    var m := ParsedIsLenient(data);
    assert |m.List()| >= |m.name| + 3;
    assert |m.Extensions()| >= |m.List()| + 6;
    assert |m.LenientBody()| >= |m.Extensions()| + 40;
    RecordOpens(m.recordVersion, m.LenientHandshake(), m.afterRecord);
  }

  /** Parsing what the builder made gives the name back for names of up to 65479 bytes, and for no longer one. */
  lemma ParseUndoesBuild(name: seq<byte>)
    ensures Sni(Built(name)) == name <==> |name| <= 65479
  {
    if |name| <= 65479 {
      BuiltIsEncoded(name);
      ParseUndoesEncode([0x03, 0x01], FakeHello(name));
    } else if Sni(Built(name)) == name {
      NameLeavesRoom(Built(name));
      BuiltRecordLength(name);
    }
  }

  lemma BuiltRecordLength(name: seq<byte>)
    ensures Load16(Built(name), 3) == ToU16(56 + |name|)
  {
    Low16Load(56 + |name|);
    assert Built(name)[3..5] == Low16(56 + |name|);
  }

  lemma Low16Load(n: nat)
    ensures Load16(Low16(n), 0) == ToU16(n)
  {
    var q, r := n / 0x1_0000, n % 0x1_0000;
    assert n / 0x100 == 0x100 * q + r / 0x100;
    assert (n / 0x100) % 0x100 == r / 0x100 && n % 0x100 == r % 0x100;
  }
}
