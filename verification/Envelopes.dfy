/**
  The other wire formats: the signal envelope, file metadata, the info response and the
  key exchange, each with the same theorems as the message format. Every decoder
  ignores bytes behind the format.
*/
module Envelopes {
  import opened ByteStrings

  /* ---------- signals ---------- */

  datatype Signal = Signal(typ: Bytes, from: Key, id: Id, content: Bytes)

  const MARKER: Byte := 0x01

  predicate SignalFits(s: Signal) {
    |s.typ| < U16_LIMIT && |s.content| < U32_LIMIT
  }

  function SignalBytes(s: Signal): (b: Bytes)
    ensures |b| == 55 + |s.typ| + |s.content|
  {
    [MARKER] + (Prefixed(s.typ, 2) + (s.from + (s.id + Prefixed(s.content, 4))))
  }

  /** `signal.New`: fills a buffer of the computed size, or returns an error on an over-long field. */
  method NewSignal(s: Signal) returns (ok: bool, buf: array<Byte>)
    ensures ok <==> SignalFits(s)
    ensures ok ==> buf[..] == SignalBytes(s)
  {
    hide BE, Prefixed;
    buf := new Byte[1 + 2 + |s.typ| + 32 + 16 + 4 + |s.content|];
    ok := false;
    var off := CopyAt(buf, 0, [MARKER]);
    if |s.typ| >= U16_LIMIT { return; }
    off := PutPrefixed(buf, off, s.typ, 2);
    off := CopyAt(buf, off, s.from);
    off := CopyAt(buf, off, s.id);
    if |s.content| >= U32_LIMIT { return; }
    off := PutPrefixed(buf, off, s.content, 4);
    ok := true;
    Regroup([] + [MARKER], Prefixed(s.typ, 2), s.from, s.id, Prefixed(s.content, 4));
    assert buf[..] == buf[..off];
  }

  function ParseSignal(data: Bytes): Parsed<Signal> {
    if |data| < 3 then Malformed else
    if data[0] != MARKER then Malformed else
    var typeLen := Uint(data, 1, 2);
    var fromAt := 3 + typeLen;
    if |data| < fromAt + 32 + 16 + 4 then Malformed else
    var contentLen := Uint(data, fromAt + 48, 4);
    var contentAt := fromAt + 52;
    if |data| - contentAt < contentLen then Malformed else
    Parsed(
      Signal(data[3..fromAt], data[fromAt..fromAt + 32], data[fromAt + 32..fromAt + 48],
             data[contentAt..contentAt + contentLen]),
      contentAt + contentLen)
  }

  lemma SignalLayout(data: Bytes, s: Signal)
    ensures At(data, 0, SignalBytes(s)) <==>
            && At(data, 0, [MARKER])
            && At(data, 1, Prefixed(s.typ, 2))
            && At(data, 3 + |s.typ|, s.from)
            && At(data, 35 + |s.typ|, s.id)
            && At(data, 51 + |s.typ|, Prefixed(s.content, 4))
  {
    hide At, BE, Prefixed;
    var c := s.id + Prefixed(s.content, 4);
    AtConcat(data, 0, [MARKER], Prefixed(s.typ, 2) + (s.from + c));
    AtConcat(data, 1, Prefixed(s.typ, 2), s.from + c);
    AtConcat(data, 3 + |s.typ|, s.from, c);
    AtConcat(data, 35 + |s.typ|, s.id, Prefixed(s.content, 4));
  }

  lemma ParseSignalIff(data: Bytes, s: Signal, n: nat)
    ensures ParseSignal(data) == Parsed(s, n) <==>
            SignalFits(s) && n == |SignalBytes(s)| && At(data, 0, SignalBytes(s))
  {
    hide BE, FromBE, Uint, Pow256, Prefixed, SignalBytes;
    Limits();
    if SignalFits(s) {
      SignalLayout(data, s);
      assert |data| > 0 ==> data[0..1] == [data[0]];
      PrefixedAt(data, 1, s.typ, 2);
      PrefixedAt(data, 51 + |s.typ|, s.content, 4);
    }
  }

  /** A signal parses back, whatever follows it; each strict prefix of it is rejected. */
  lemma SignalRoundTrip(s: Signal, tail: Bytes)
    requires SignalFits(s)
    ensures ParseSignal(SignalBytes(s) + tail) == Parsed(s, |SignalBytes(s)|)
  {
    hide *;
    var b := SignalBytes(s);
    AtSelf(b);
    AtExtend(b, 0, b, tail);
    ParseSignalIff(b + tail, s, |b|);
  }

  lemma SignalPrefixRejected(s: Signal, k: nat)
    requires SignalFits(s) && k < |SignalBytes(s)|
    ensures ParseSignal(SignalBytes(s)[..k]) == Malformed
  {
    hide SignalBytes, ParseSignal, At;
    var b := SignalBytes(s);
    var p, tail := b[..k], b[k..];
    assert b == p + tail && b == b + [];
    SignalRoundTrip(s, []);
    if ParseSignal(p).Parsed? {
      var Parsed(y, n) := ParseSignal(p);
      ParseSignalIff(p, y, n);
      AtExtend(p, 0, SignalBytes(y), tail);
      AtWithin(p, 0, SignalBytes(y));
      ParseSignalIff(b, y, n);
      assert false;
    }
    ParseSignalTotal(p);
  }

  lemma ParseSignalTotal(data: Bytes)
    ensures !ParseSignal(data).Panicked?
    ensures ParseSignal(data).Parsed? ==> data != [] && data[0] == MARKER
  {
  }

  /* ---------- signal types ---------- */

  datatype Kind =
    | MessageKind | DeleteKind | UpdateKind | FileMetaKind | KeyExchangeKind
    | InfoRequestKind | InfoResponseKind | InfoChangedKind | PeerAcceptedKind | UnknownKind

  // The type names of signal/signal.go as ASCII bytes.
  const MESSAGE: Bytes := [109, 101, 115, 115, 97, 103, 101]
  const DELETE: Bytes := [100, 101, 108, 101, 116, 101]
  const UPDATE: Bytes := [117, 112, 100, 97, 116, 101]
  const FILE_META: Bytes := [102, 105, 108, 101, 95, 109, 101, 116, 97]
  const KEY_EXCHANGE: Bytes := [107, 101, 121, 95, 101, 120, 99, 104, 97, 110, 103, 101]
  const INFO_REQUEST: Bytes := [105, 110, 102, 111, 95, 114, 101, 113, 117, 101, 115, 116]
  const INFO_RESPONSE: Bytes := [105, 110, 102, 111, 95, 114, 101, 115, 112, 111, 110, 115, 101]
  const INFO_CHANGED: Bytes := [105, 110, 102, 111, 95, 99, 104, 97, 110, 103, 101, 100]
  const PEER_ACCEPTED: Bytes := [112, 101, 101, 114, 95, 97, 99, 99, 101, 112, 116, 101, 100]

  function TypeName(k: Kind): (b: Bytes)
    ensures |b| < 14
  {
    match k
    case MessageKind => MESSAGE
    case DeleteKind => DELETE
    case UpdateKind => UPDATE
    case FileMetaKind => FILE_META
    case KeyExchangeKind => KEY_EXCHANGE
    case InfoRequestKind => INFO_REQUEST
    case InfoResponseKind => INFO_RESPONSE
    case InfoChangedKind => INFO_CHANGED
    case PeerAcceptedKind => PEER_ACCEPTED
    case UnknownKind => []
  }

  function KindOf(typ: Bytes): Kind {
    if typ == MESSAGE then MessageKind
    else if typ == DELETE then DeleteKind
    else if typ == UPDATE then UpdateKind
    else if typ == FILE_META then FileMetaKind
    else if typ == KEY_EXCHANGE then KeyExchangeKind
    else if typ == INFO_REQUEST then InfoRequestKind
    else if typ == INFO_RESPONSE then InfoResponseKind
    else if typ == INFO_CHANGED then InfoChangedKind
    else if typ == PEER_ACCEPTED then PeerAcceptedKind
    else UnknownKind
  }

  /** The bytes of an ASCII text. */
  function Ascii(s: string): (b: Bytes)
    requires forall i :: 0 <= i < |s| ==> s[i] as int < 128
    ensures |b| == |s|
  {
    seq(|s|, i requires 0 <= i < |s| => s[i] as int)
  }

  /** The names on the wire. */
  lemma TypeNames()
    ensures MESSAGE == Ascii("message") && DELETE == Ascii("delete") && UPDATE == Ascii("update")
    ensures FILE_META == Ascii("file_meta") && KEY_EXCHANGE == Ascii("key_exchange")
    ensures INFO_REQUEST == Ascii("info_request") && INFO_RESPONSE == Ascii("info_response")
    ensures INFO_CHANGED == Ascii("info_changed") && PEER_ACCEPTED == Ascii("peer_accepted")
  {
  }

  lemma KindOfTypeName(k: Kind)
    ensures KindOf(TypeName(k)) == k
  {
    assert KEY_EXCHANGE[0] != INFO_REQUEST[0] && INFO_REQUEST[5] != INFO_CHANGED[5];
    assert INFO_RESPONSE[0] != PEER_ACCEPTED[0] && DELETE[0] != UPDATE[0];
  }

  /* ---------- file metadata and chunks ---------- */

  datatype FileMeta = FileMeta(name: Bytes, size: Int64, mime: Bytes)

  predicate FileMetaFits(m: FileMeta) {
    |m.name| < U16_LIMIT && 0 <= m.size && |m.mime| < U16_LIMIT
  }

  function FileMetaBytes(name: Bytes, size: nat, mime: Bytes): (b: Bytes)
    ensures |b| == 12 + |name| + |mime|
  {
    Prefixed(name, 2) + (BE(size, 8) + Prefixed(mime, 2))
  }

  /** `encodeFileMeta`; `ok` is false where `u16Len` or `u64FromInt64` panics. */
  method EncodeFileMeta(m: FileMeta) returns (ok: bool, buf: array<Byte>)
    ensures ok <==> FileMetaFits(m)
    ensures ok ==> buf[..] == FileMetaBytes(m.name, m.size, m.mime)
  {
    hide BE, Prefixed;
    buf := new Byte[2 + |m.name| + 8 + 2 + |m.mime|];
    ok := false;
    if |m.name| >= U16_LIMIT { return; }
    var off := PutPrefixed(buf, 0, m.name, 2);
    if m.size < 0 { return; }
    off := CopyAt(buf, off, BE(m.size, 8));
    if |m.mime| >= U16_LIMIT { return; }
    off := PutPrefixed(buf, off, m.mime, 2);
    ok := true;
    Assoc(Prefixed(m.name, 2), BE(m.size, 8), Prefixed(m.mime, 2));
    assert buf[..] == buf[..off];
    assert [] + Prefixed(m.name, 2) == Prefixed(m.name, 2);
  }

  function DecodeFileMeta(data: Bytes): Parsed<FileMeta> {
    if |data| < 2 then Malformed else
    var nameLen := Uint(data, 0, 2);
    var sizeAt := 2 + nameLen;
    if |data| < sizeAt + 8 + 2 then Malformed else
    var size := Uint(data, sizeAt, 8);
    if size >= I64_LIMIT then Panicked else
    var mimeLen := Uint(data, sizeAt + 8, 2);
    var mimeAt := sizeAt + 10;
    if |data| < mimeAt + mimeLen then Malformed else
    Parsed(FileMeta(data[2..sizeAt], size, data[mimeAt..mimeAt + mimeLen]), mimeAt + mimeLen)
  }

  lemma FileMetaLayout(data: Bytes, name: Bytes, size: nat, mime: Bytes)
    ensures At(data, 0, FileMetaBytes(name, size, mime)) <==>
            && At(data, 0, Prefixed(name, 2))
            && At(data, 2 + |name|, BE(size, 8))
            && At(data, 10 + |name|, Prefixed(mime, 2))
  {
    hide At, BE, Prefixed;
    AtConcat(data, 0, Prefixed(name, 2), BE(size, 8) + Prefixed(mime, 2));
    AtConcat(data, 2 + |name|, BE(size, 8), Prefixed(mime, 2));
  }

  lemma DecodeFileMetaIff(data: Bytes, m: FileMeta, n: nat)
    ensures DecodeFileMeta(data) == Parsed(m, n) <==>
            && FileMetaFits(m) && n == |FileMetaBytes(m.name, m.size, m.mime)|
            && At(data, 0, FileMetaBytes(m.name, m.size, m.mime))
  {
    hide BE, FromBE, Uint, Pow256, Prefixed, FileMetaBytes;
    Limits();
    if FileMetaFits(m) {
      FileMetaLayout(data, m.name, m.size, m.mime);
      PrefixedAt(data, 0, m.name, 2);
      UintAt(data, 2 + |m.name|, m.size, 8);
      PrefixedAt(data, 10 + |m.name|, m.mime, 2);
    }
  }

  lemma FileMetaRoundTrip(m: FileMeta, tail: Bytes)
    requires FileMetaFits(m)
    ensures DecodeFileMeta(FileMetaBytes(m.name, m.size, m.mime) + tail)
         == Parsed(m, |FileMetaBytes(m.name, m.size, m.mime)|)
  {
    hide FileMetaBytes, DecodeFileMeta, At;
    var b := FileMetaBytes(m.name, m.size, m.mime);
    AtSelf(b);
    AtExtend(b, 0, b, tail);
    DecodeFileMetaIff(b + tail, m, |b|);
  }

  /** A size of at least 2^63 lies behind a complete name, with room for the next length. */
  ghost predicate FileSizeOverflow(data: Bytes) {
    exists name: Bytes, size: nat ::
      |name| < U16_LIMIT && I64_LIMIT <= size < U64_LIMIT && 12 + |name| <= |data|
      && At(data, 0, Prefixed(name, 2)) && At(data, 2 + |name|, BE(size, 8))
  }

  lemma DecodeFileMetaPanics(data: Bytes)
    ensures DecodeFileMeta(data).Panicked? <==> FileSizeOverflow(data)
  {
    hide BE, FromBE, Uint, Pow256, Prefixed;
    Limits();
    if DecodeFileMeta(data).Panicked? {
      var sizeAt := 2 + Uint(data, 0, 2);
      var name, size := data[2..sizeAt], Uint(data, sizeAt, 8);
      PrefixedAt(data, 0, name, 2);
      UintAt(data, sizeAt, size, 8);
    }
    if FileSizeOverflow(data) {
      var name: Bytes, size: nat :|
        |name| < U16_LIMIT && I64_LIMIT <= size < U64_LIMIT && 12 + |name| <= |data|
        && At(data, 0, Prefixed(name, 2)) && At(data, 2 + |name|, BE(size, 8));
      PrefixedAt(data, 0, name, 2);
      UintAt(data, 2 + |name|, size, 8);
    }
  }

  /** Once a file size overflows, more bytes do not help. */
  lemma FileMetaPanicExtends(p: Bytes, tail: Bytes)
    requires DecodeFileMeta(p).Panicked?
    ensures DecodeFileMeta(p + tail).Panicked?
  {
    hide FromBE, Pow256;
    var sizeAt := 2 + Uint(p, 0, 2);
    assert (p + tail)[0..2] == p[0..2];
    assert (p + tail)[sizeAt..sizeAt + 8] == p[sizeAt..sizeAt + 8];
  }

  lemma FileMetaPrefixRejected(m: FileMeta, k: nat)
    requires FileMetaFits(m) && k < |FileMetaBytes(m.name, m.size, m.mime)|
    ensures DecodeFileMeta(FileMetaBytes(m.name, m.size, m.mime)[..k]) == Malformed
  {
    hide FileMetaBytes, DecodeFileMeta, At;
    var b := FileMetaBytes(m.name, m.size, m.mime);
    var p, tail := b[..k], b[k..];
    assert b == p + tail && b == b + [];
    FileMetaRoundTrip(m, []);
    match DecodeFileMeta(p) {
      case Malformed =>
      case Panicked =>
        FileMetaPanicExtends(p, tail);
        assert false;
      case Parsed(y, n) =>
        DecodeFileMetaIff(p, y, n);
        AtExtend(p, 0, FileMetaBytes(y.name, y.size, y.mime), tail);
        AtWithin(p, 0, FileMetaBytes(y.name, y.size, y.mime));
        DecodeFileMetaIff(b, y, n);
        assert false;
    }
  }

  /** A file chunk frame: a zero byte, the transfer's identifier, the data. */
  function ChunkBytes(id: Id, data: Bytes): Bytes {
    [0] + id + data
  }

  /* ---------- info responses ---------- */

  datatype InfoResponse = InfoResponse(name: Bytes, pic: Bytes)

  predicate InfoFits(r: InfoResponse) {
    |r.name| < U16_LIMIT && |r.pic| < U32_LIMIT
  }

  function InfoBytes(r: InfoResponse): (b: Bytes)
    ensures |b| == 6 + |r.name| + |r.pic|
  {
    Prefixed(r.name, 2) + Prefixed(r.pic, 4)
  }

  /** `encodeInfoResponse`; `ok` is false where `u16Len` or `u32Len` panics. */
  method EncodeInfoResponse(r: InfoResponse) returns (ok: bool, buf: array<Byte>)
    ensures ok <==> InfoFits(r)
    ensures ok ==> buf[..] == InfoBytes(r)
  {
    hide BE, Prefixed;
    buf := new Byte[2 + |r.name| + 4 + |r.pic|];
    ok := false;
    if |r.name| >= U16_LIMIT { return; }
    var off := PutPrefixed(buf, 0, r.name, 2);
    if |r.pic| >= U32_LIMIT { return; }
    off := PutPrefixed(buf, off, r.pic, 4);
    ok := true;
    assert buf[..] == buf[..off];
    assert [] + Prefixed(r.name, 2) == Prefixed(r.name, 2);
  }

  function DecodeInfoResponse(data: Bytes): Parsed<InfoResponse> {
    if |data| < 2 then Malformed else
    var nameLen := Uint(data, 0, 2);
    var picAt := 2 + nameLen;
    if |data| < picAt + 4 then Malformed else
    var picLen := Uint(data, picAt, 4);
    if |data| < picAt + 4 + picLen then Malformed else
    Parsed(InfoResponse(data[2..picAt], data[picAt + 4..picAt + 4 + picLen]), picAt + 4 + picLen)
  }

  lemma DecodeInfoIff(data: Bytes, r: InfoResponse, n: nat)
    ensures DecodeInfoResponse(data) == Parsed(r, n) <==>
            InfoFits(r) && n == |InfoBytes(r)| && At(data, 0, InfoBytes(r))
  {
    hide BE, FromBE, Uint, Pow256, Prefixed;
    Limits();
    if InfoFits(r) {
      AtConcat(data, 0, Prefixed(r.name, 2), Prefixed(r.pic, 4));
      PrefixedAt(data, 0, r.name, 2);
      PrefixedAt(data, 2 + |r.name|, r.pic, 4);
    }
  }

  lemma InfoPrefixRejected(r: InfoResponse, k: nat)
    requires InfoFits(r) && k < |InfoBytes(r)|
    ensures DecodeInfoResponse(InfoBytes(r)[..k]) == Malformed
  {
    hide InfoBytes, DecodeInfoResponse, At;
    var b := InfoBytes(r);
    var p, tail := b[..k], b[k..];
    assert b == p + tail;
    AtSelf(b);
    DecodeInfoIff(b, r, |b|);
    if DecodeInfoResponse(p).Parsed? {
      var Parsed(y, n) := DecodeInfoResponse(p);
      DecodeInfoIff(p, y, n);
      AtExtend(p, 0, InfoBytes(y), tail);
      AtWithin(p, 0, InfoBytes(y));
      DecodeInfoIff(b, y, n);
      assert false;
    }
    DecodersReturn(p);
  }

  /* ---------- key exchanges ---------- */

  datatype KeyExchange = KeyExchange(ephemeral: Key, identity: Key, name: Bytes, signature: Bytes)

  predicate KeyExchangeFits(d: KeyExchange) {
    |d.name| < U16_LIMIT && |d.signature| < U16_LIMIT
  }

  function KeyExchangeBytes(d: KeyExchange): (b: Bytes)
    ensures |b| == 68 + |d.name| + |d.signature|
  {
    d.ephemeral + (d.identity + (Prefixed(d.name, 2) + Prefixed(d.signature, 2)))
  }

  /** `encodeKeyExchange`; `ok` is false where `u16Len` panics. */
  method EncodeKeyExchange(d: KeyExchange) returns (ok: bool, buf: array<Byte>)
    ensures ok <==> KeyExchangeFits(d)
    ensures ok ==> buf[..] == KeyExchangeBytes(d)
  {
    hide BE, Prefixed;
    buf := new Byte[32 * 2 + 2 + |d.name| + 2 + |d.signature|];
    ok := false;
    var off := CopyAt(buf, 0, d.ephemeral);
    off := CopyAt(buf, off, d.identity);
    if |d.name| >= U16_LIMIT { return; }
    off := PutPrefixed(buf, off, d.name, 2);
    if |d.signature| >= U16_LIMIT { return; }
    off := PutPrefixed(buf, off, d.signature, 2);
    ok := true;
    assert buf[..] == buf[..off];
    Regroup([], d.ephemeral, d.identity, Prefixed(d.name, 2), Prefixed(d.signature, 2));
    assert [] + KeyExchangeBytes(d) == KeyExchangeBytes(d);
  }

  function DecodeKeyExchange(data: Bytes): Parsed<KeyExchange> {
    if |data| < 32 * 2 + 2 then Malformed else
    var nameLen := Uint(data, 64, 2);
    var sigAt := 66 + nameLen;
    if |data| < sigAt + 2 then Malformed else
    var sigLen := Uint(data, sigAt, 2);
    if |data| < sigAt + 2 + sigLen then Malformed else
    Parsed(
      KeyExchange(data[..32], data[32..64], data[66..sigAt], data[sigAt + 2..sigAt + 2 + sigLen]),
      sigAt + 2 + sigLen)
  }

  lemma KeyExchangeLayout(data: Bytes, d: KeyExchange)
    ensures At(data, 0, KeyExchangeBytes(d)) <==>
            && At(data, 0, d.ephemeral)
            && At(data, 32, d.identity)
            && At(data, 64, Prefixed(d.name, 2))
            && At(data, 66 + |d.name|, Prefixed(d.signature, 2))
  {
    hide At, BE, Prefixed;
    var t := Prefixed(d.name, 2) + Prefixed(d.signature, 2);
    AtConcat(data, 0, d.ephemeral, d.identity + t);
    AtConcat(data, 32, d.identity, t);
    AtConcat(data, 64, Prefixed(d.name, 2), Prefixed(d.signature, 2));
  }

  lemma DecodeKeyExchangeIff(data: Bytes, d: KeyExchange, n: nat)
    ensures DecodeKeyExchange(data) == Parsed(d, n) <==>
            KeyExchangeFits(d) && n == |KeyExchangeBytes(d)| && At(data, 0, KeyExchangeBytes(d))
  {
    hide BE, FromBE, Uint, Pow256, Prefixed, KeyExchangeBytes;
    Limits();
    if KeyExchangeFits(d) {
      KeyExchangeLayout(data, d);
      PrefixedAt(data, 64, d.name, 2);
      PrefixedAt(data, 66 + |d.name|, d.signature, 2);
    }
  }

  lemma KeyExchangePrefixRejected(d: KeyExchange, k: nat)
    requires KeyExchangeFits(d) && k < |KeyExchangeBytes(d)|
    ensures DecodeKeyExchange(KeyExchangeBytes(d)[..k]) == Malformed
  {
    hide KeyExchangeBytes, DecodeKeyExchange, At;
    var b := KeyExchangeBytes(d);
    var p, tail := b[..k], b[k..];
    assert b == p + tail;
    AtSelf(b);
    DecodeKeyExchangeIff(b, d, |b|);
    if DecodeKeyExchange(p).Parsed? {
      var Parsed(y, n) := DecodeKeyExchange(p);
      DecodeKeyExchangeIff(p, y, n);
      AtExtend(p, 0, KeyExchangeBytes(y), tail);
      AtWithin(p, 0, KeyExchangeBytes(y));
      DecodeKeyExchangeIff(b, y, n);
      assert false;
    }
    DecodersReturn(p);
  }

  lemma DecodersReturn(data: Bytes)
    ensures !DecodeInfoResponse(data).Panicked? && !DecodeKeyExchange(data).Panicked?
  {
  }
}
