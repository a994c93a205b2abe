/**
  The chat message format: a header of fixed and length-prefixed fields followed by
  a counted list of attachments. `MessageBytes` says what the format is, by
  concatenation; `DecodeMessage` reads it with offsets and length checks as the source
  does. The theorems at the end relate the two for every byte string.
*/
module MessageCodec {
  import opened ByteStrings

  datatype Attachment = Attachment(id: Id, name: Bytes, mime: Bytes, size: Int64, data: Bytes)

  datatype Message = Message(
    id: Id, from: Key, to: Bytes, content: Bytes,
    time: Int64, createdAt: Int64, updatedAt: Int64,
    attachments: seq<Attachment>)

  /** What precedes the data of an attachment on the wire; `size` is unsigned there. */
  datatype AttachmentHead = AttachmentHead(id: Id, name: Bytes, mime: Bytes, size: nat, dataLen: nat)

  /** What precedes the attachments of a message on the wire; times are unsigned there. */
  datatype Header = Header(
    id: Id, from: Key, to: Bytes, content: Bytes,
    time: nat, createdAt: nat, updatedAt: nat, count: nat)

  /* ---------- the format ---------- */

  predicate WireHead(g: AttachmentHead) {
    |g.name| < U16_LIMIT && |g.mime| < U16_LIMIT && g.size < U64_LIMIT && g.dataLen < U32_LIMIT
  }

  predicate WireHeader(h: Header) {
    && |h.to| < U16_LIMIT && |h.content| < U32_LIMIT && h.count < U16_LIMIT
    && h.time < U64_LIMIT && h.createdAt < U64_LIMIT && h.updatedAt < U64_LIMIT
  }

  /** Encoding an attachment does not panic. */
  predicate FitsAttachment(a: Attachment) {
    |a.name| < U16_LIMIT && |a.mime| < U16_LIMIT && 0 <= a.size && |a.data| < U32_LIMIT
  }

  predicate FitAttachments(s: seq<Attachment>) {
    forall i :: 0 <= i < |s| ==> FitsAttachment(s[i])
  }

  /** Encoding a message does not panic. */
  predicate Encodable(m: Message) {
    && |m.to| < U16_LIMIT && |m.content| < U32_LIMIT && |m.attachments| < U16_LIMIT
    && 0 <= m.time && 0 <= m.createdAt && 0 <= m.updatedAt
    && FitAttachments(m.attachments)
  }

  function HeadOf(a: Attachment): (g: AttachmentHead)
    requires FitsAttachment(a)
    ensures WireHead(g)
  {
    AttachmentHead(a.id, a.name, a.mime, a.size, |a.data|)
  }

  function HeaderOf(m: Message): (h: Header)
    requires Encodable(m)
    ensures WireHeader(h)
  {
    Header(m.id, m.from, m.to, m.content, m.time, m.createdAt, m.updatedAt, |m.attachments|)
  }

  function HeadBytes(g: AttachmentHead): (s: Bytes)
    ensures |s| == 32 + |g.name| + |g.mime|
  {
    g.id + (Prefixed(g.name, 2) + (Prefixed(g.mime, 2) + (BE(g.size, 8) + BE(g.dataLen, 4))))
  }

  function HeaderBytes(h: Header): (s: Bytes)
    ensures |s| == 80 + |h.to| + |h.content|
  {
    h.id + (h.from + (Prefixed(h.to, 2) + (Prefixed(h.content, 4) +
    (BE(h.time, 8) + (BE(h.createdAt, 8) + (BE(h.updatedAt, 8) + BE(h.count, 2)))))))
  }

  function AttachmentBytes(a: Attachment): (s: Bytes)
    requires FitsAttachment(a)
    ensures |s| == AttachmentEncodedSize(a)
  {
    HeadBytes(HeadOf(a)) + a.data
  }

  function AttachmentsBytes(s: seq<Attachment>): Bytes
    requires FitAttachments(s)
  {
    if s == [] then [] else AttachmentBytes(s[0]) + AttachmentsBytes(s[1..])
  }

  function MessageBytes(m: Message): Bytes
    requires Encodable(m)
  {
    HeaderBytes(HeaderOf(m)) + AttachmentsBytes(m.attachments)
  }

  lemma {:induction false} AttachmentsBytesAppend(s: seq<Attachment>, t: seq<Attachment>)
    requires FitAttachments(s) && FitAttachments(t)
    ensures FitAttachments(s + t)
    ensures AttachmentsBytes(s + t) == AttachmentsBytes(s) + AttachmentsBytes(t)
  {
    hide AttachmentBytes, FitsAttachment;
    if s == [] {
      assert s + t == t;
    } else {
      AttachmentsBytesAppend(s[1..], t);
      assert (s + t)[1..] == s[1..] + t;
      Assoc(AttachmentBytes(s[0]), AttachmentsBytes(s[1..]), AttachmentsBytes(t));
    }
  }

  /* ---------- the encoder, with its precomputed buffer ---------- */

  function AttachmentEncodedSize(a: Attachment): nat {
    16 + 2 + |a.name| + 2 + |a.mime| + 8 + 4 + |a.data|
  }

  /**
    Writes one attachment at `off`. `ok` is false where the source panics; the panic
    comes from `toWireUint`, on a length or size that does not fit its field.
  */
  method EncodeAttachment(buf: array<Byte>, off: nat, a: Attachment) returns (ok: bool, next: nat)
    requires off + AttachmentEncodedSize(a) <= buf.Length
    modifies buf
    ensures ok <==> FitsAttachment(a)
    ensures ok ==> next == off + AttachmentEncodedSize(a) && buf[..next] == old(buf[..off]) + AttachmentBytes(a)
  {
    hide BE, Prefixed;
    ghost var pre := buf[..off];
    ok := false;
    next := CopyAt(buf, off, a.id);
    if |a.name| >= U16_LIMIT { return; }
    next := PutPrefixed(buf, next, a.name, 2);
    if |a.mime| >= U16_LIMIT { return; }
    next := PutPrefixed(buf, next, a.mime, 2);
    if a.size < 0 { return; }
    next := CopyAt(buf, next, BE(a.size, 8));
    if |a.data| >= U32_LIMIT { return; }
    next := PutPrefixed(buf, next, a.data, 4);
    ok := true;
    AttachmentBytesGrouped(pre, a);
  }

  lemma AttachmentBytesGrouped(pre: Bytes, a: Attachment)
    requires FitsAttachment(a)
    ensures pre + a.id + Prefixed(a.name, 2) + Prefixed(a.mime, 2) + BE(a.size, 8) + Prefixed(a.data, 4)
         == pre + AttachmentBytes(a)
  {
    hide BE;
    var n, m, z, d := Prefixed(a.name, 2), Prefixed(a.mime, 2), BE(a.size, 8), BE(|a.data|, 4);
    Assoc(pre + a.id + n + m + z, d, a.data);
    Regroup(pre + a.id, n, m, z, d);
    Assoc(pre, a.id, n + (m + (z + d)));
    Assoc(pre, HeadBytes(HeadOf(a)), a.data);
  }

  function EncodedSize(s: seq<Attachment>): nat {
    if s == [] then 0 else EncodedSize(s[..|s| - 1]) + AttachmentEncodedSize(s[|s| - 1])
  }

  lemma {:induction false} EncodedSizeIsLength(s: seq<Attachment>)
    requires FitAttachments(s)
    ensures |AttachmentsBytes(s)| == EncodedSize(s)
  {
    if s != [] {
      var k := |s| - 1;
      EncodedSizeIsLength(s[..k]);
      AttachmentsBytesAppend(s[..k], s[k..]);
      assert s == s[..k] + s[k..] && s[k..] == [s[k]] && s[k..][1..] == [];
    }
  }

  lemma {:induction false} EncodedSizeMonotone(s: seq<Attachment>, k: nat)
    requires k <= |s|
    ensures EncodedSize(s[..k]) <= EncodedSize(s)
  {
    if k < |s| {
      EncodedSizeMonotone(s[..|s| - 1], k);
      assert s[..|s| - 1][..k] == s[..k];
    } else {
      assert s[..k] == s;
    }
  }

  /**
    `Encode` of the source: size the buffer, then fill it with a moving offset.
    It panics exactly on messages that are not `Encodable`, and otherwise the buffer is
    filled to its last byte with the format's bytes.
  */
  method Encode(m: Message) returns (ok: bool, buf: array<Byte>)
    ensures ok <==> Encodable(m)
    ensures ok ==> buf[..] == MessageBytes(m)
  {
    var size := 16 + 32 + 2 + |m.to| + 4 + |m.content| + 8 + 8 + 8 + 2;
    for i := 0 to |m.attachments|
      invariant size == 80 + |m.to| + |m.content| + EncodedSize(m.attachments[..i])
    {
      assert m.attachments[..i + 1][..i] == m.attachments[..i];
      size := size + AttachmentEncodedSize(m.attachments[i]);
    }
    assert m.attachments[..|m.attachments|] == m.attachments;
    buf := new Byte[size];
    var off;
    ok, off := EncodeHeader(buf, m);
    if !ok { return; }
    ghost var head := buf[..off];
    ok, off := EncodeAttachments(buf, off, m.attachments);
    assert ok ==> buf[..] == buf[..off] == head + AttachmentsBytes(m.attachments);
  }

  /** The attachment loop of `Encode`. */
  method EncodeAttachments(buf: array<Byte>, off: nat, s: seq<Attachment>) returns (ok: bool, next: nat)
    requires off + EncodedSize(s) <= buf.Length
    modifies buf
    ensures ok <==> FitAttachments(s)
    ensures ok ==> next == off + EncodedSize(s) && buf[..next] == old(buf[..off]) + AttachmentsBytes(s)
  {
    hide AttachmentEncodedSize, AttachmentBytes, FitsAttachment;
    ghost var head := buf[..off];
    ok, next := true, off;
    assert s[..0] == [] && head + AttachmentsBytes([]) == head;
    for i := 0 to |s|
      invariant ok && FitAttachments(s[..i])
      invariant next == off + EncodedSize(s[..i]) <= buf.Length
      invariant buf[..next] == head + AttachmentsBytes(s[..i])
    {
      ghost var done, one := s[..i], [s[i]];
      assert s[..i + 1] == done + one && s[..i + 1][..i] == done;
      EncodedSizeMonotone(s, i + 1);
      ok, next := EncodeAttachment(buf, next, s[i]);
      if !ok { return; }
      AttachmentsBytesAppend(done, one);
      assert AttachmentsBytes(one) == AttachmentBytes(s[i]) + AttachmentsBytes(one[1..]) == AttachmentBytes(s[i]);
      Assoc(head, AttachmentsBytes(done), AttachmentBytes(s[i]));
    }
    assert s[..|s|] == s;
  }

  /** The fixed part of `Encode`, up to and including the attachment count. */
  method EncodeHeader(buf: array<Byte>, m: Message) returns (ok: bool, off: nat)
    requires 80 + |m.to| + |m.content| <= buf.Length
    modifies buf
    ensures ok <==> Encodable(m.(attachments := [])) && |m.attachments| < U16_LIMIT
    ensures ok ==> off == 80 + |m.to| + |m.content|
    ensures ok ==> buf[..off] == HeaderBytes(
                     Header(m.id, m.from, m.to, m.content, m.time, m.createdAt, m.updatedAt, |m.attachments|))
  {
    hide BE, Prefixed;
    ok := false;
    off := CopyAt(buf, 0, m.id);
    off := CopyAt(buf, off, m.from);
    if |m.to| >= U16_LIMIT { return; }
    off := PutPrefixed(buf, off, m.to, 2);
    if |m.content| >= U32_LIMIT { return; }
    off := PutPrefixed(buf, off, m.content, 4);
    if m.time < 0 { return; }
    off := CopyAt(buf, off, BE(m.time, 8));
    if m.createdAt < 0 { return; }
    off := CopyAt(buf, off, BE(m.createdAt, 8));
    if m.updatedAt < 0 { return; }
    off := CopyAt(buf, off, BE(m.updatedAt, 8));
    if |m.attachments| >= U16_LIMIT { return; }
    off := CopyAt(buf, off, BE(|m.attachments|, 2));
    ok := true;
    HeaderBytesGrouped(Header(m.id, m.from, m.to, m.content, m.time, m.createdAt, m.updatedAt, |m.attachments|));
  }

  lemma HeaderBytesGrouped(h: Header)
    ensures [] + h.id + h.from + Prefixed(h.to, 2) + Prefixed(h.content, 4)
            + BE(h.time, 8) + BE(h.createdAt, 8) + BE(h.updatedAt, 8) + BE(h.count, 2)
         == HeaderBytes(h)
  {
    hide BE, Prefixed;
    var t, c := Prefixed(h.to, 2), Prefixed(h.content, 4);
    Regroup([] + h.id + h.from + t + c, BE(h.time, 8), BE(h.createdAt, 8), BE(h.updatedAt, 8), BE(h.count, 2));
    var rest := BE(h.time, 8) + (BE(h.createdAt, 8) + (BE(h.updatedAt, 8) + BE(h.count, 2)));
    Regroup([] + h.id, h.from, t, c, rest);
    Assoc([], h.id, h.from + (t + (c + rest)));
    assert [] + HeaderBytes(h) == HeaderBytes(h);
  }

  /* ---------- the decoder ---------- */

  function DecodeHead(data: Bytes, off: nat): Parsed<AttachmentHead> {
    if |data| < off + 16 + 2 then Malformed else
    var nameLen := Uint(data, off + 16, 2);
    var mimeAt := off + 18 + nameLen;
    if |data| < mimeAt + 2 then Malformed else
    var mimeLen := Uint(data, mimeAt, 2);
    var sizeAt := mimeAt + 2 + mimeLen;
    if |data| < sizeAt + 8 + 4 then Malformed else
    Parsed(
      AttachmentHead(data[off..off + 16], data[off + 18..mimeAt], data[mimeAt + 2..sizeAt],
                     Uint(data, sizeAt, 8), Uint(data, sizeAt + 8, 4)),
      sizeAt + 12)
  }

  function DecodeAttachment(data: Bytes, off: nat): (r: Parsed<Attachment>)
    ensures r.Parsed? ==> off + 32 <= r.next <= |data|
  {
    match DecodeHead(data, off)
    case Malformed => Malformed
    case Panicked => Panicked
    case Parsed(g, next) =>
      if g.size >= I64_LIMIT then Panicked
      else if |data| < next + g.dataLen then Malformed
      else Parsed(Attachment(g.id, g.name, g.mime, g.size, data[next..next + g.dataLen]), next + g.dataLen)
  }

  /** The counted loop: every attachment consumes at least 32 bytes. */
  function DecodeAttachments(data: Bytes, off: nat, count: nat): (r: Parsed<seq<Attachment>>)
    ensures r.Parsed? ==> |r.value| == count && (count > 0 ==> off + 32 * count <= r.next <= |data|)
    decreases count
  {
    if count == 0 then Parsed([], off) else
    match DecodeAttachment(data, off)
    case Malformed => Malformed
    case Panicked => Panicked
    case Parsed(a, next) =>
      match DecodeAttachments(data, next, count - 1)
      case Malformed => Malformed
      case Panicked => Panicked
      case Parsed(rest, end) => Parsed([a] + rest, end)
  }

  function DecodeHeader(data: Bytes): Parsed<Header> {
    if |data| < 16 + 32 + 2 then Malformed else
    var toLen := Uint(data, 48, 2);
    var contentAt := 50 + toLen;
    if |data| < contentAt + 4 then Malformed else
    var contentLen := Uint(data, contentAt, 4);
    var timeAt := contentAt + 4 + contentLen;
    if |data| < timeAt + 3 * 8 + 2 then Malformed else
    Parsed(
      Header(data[..16], data[16..48], data[50..contentAt], data[contentAt + 4..timeAt],
             Uint(data, timeAt, 8), Uint(data, timeAt + 8, 8), Uint(data, timeAt + 16, 8), Uint(data, timeAt + 24, 2)),
      timeAt + 26)
  }

  predicate TimeOverflow(h: Header) {
    h.time >= I64_LIMIT || h.createdAt >= I64_LIMIT || h.updatedAt >= I64_LIMIT
  }

  function DecodeMessage(data: Bytes): Parsed<Message> {
    match DecodeHeader(data)
    case Malformed => Malformed
    case Panicked => Panicked
    case Parsed(h, next) =>
      if TimeOverflow(h) then Panicked else
      match DecodeAttachments(data, next, h.count)
      case Malformed => Malformed
      case Panicked => Panicked
      case Parsed(s, end) =>
        Parsed(Message(h.id, h.from, h.to, h.content, h.time, h.createdAt, h.updatedAt, s), end)
  }

  /** `ToMessage` of the source: early returns, a moving offset and the attachment loop. */
  method ToMessage(data: Bytes) returns (r: Parsed<Message>)
    ensures r == DecodeMessage(data)
  {
    hide BE, FromBE, Uint, Pow256, DecodeAttachments;
    if |data| < 16 + 32 + 2 { return Malformed; }
    var off: nat := 48;
    var toLen := Uint(data, off, 2);
    off := off + 2;
    if |data| < off + toLen + 4 { return Malformed; }
    var to := data[off..off + toLen];
    off := off + toLen;
    var contentLen := Uint(data, off, 4);
    off := off + 4;
    if |data| < off + contentLen + 3 * 8 + 2 { return Malformed; }
    var content := data[off..off + contentLen];
    off := off + contentLen;
    var time := Uint(data, off, 8);
    if time >= I64_LIMIT { return Panicked; }
    off := off + 8;
    var created := Uint(data, off, 8);
    if created >= I64_LIMIT { return Panicked; }
    off := off + 8;
    var updated := Uint(data, off, 8);
    if updated >= I64_LIMIT { return Panicked; }
    off := off + 8;
    var count: nat := Uint(data, off, 2);
    off := off + 2;
    var attachments := DecodeLoop(data, off, count);
    match attachments {
      case Malformed => return Malformed;
      case Panicked => return Panicked;
      case Parsed(s, end) =>
        return Parsed(Message(data[..16], data[16..48], to, content, time, created, updated, s), end);
    }
  }

  /** The attachment loop of `ToMessage`. */
  method DecodeLoop(data: Bytes, start: nat, count: nat) returns (r: Parsed<seq<Attachment>>)
    ensures r == DecodeAttachments(data, start, count)
  {
    hide DecodeAttachment;
    var off, s := start, [];
    PrependNothing(DecodeAttachments(data, start, count));
    for i := 0 to count
      invariant DecodeAttachments(data, start, count) == Prepend(s, DecodeAttachments(data, off, count - i))
    {
      match DecodeAttachment(data, off) {
        case Malformed => return Malformed;
        case Panicked => return Panicked;
        case Parsed(a, next) =>
          PrependTwice(s, a, DecodeAttachments(data, next, count - i - 1));
          off, s := next, s + [a];
      }
    }
    assert s + [] == s;
    return Parsed(s, off);
  }

  ghost function Prepend(s: seq<Attachment>, r: Parsed<seq<Attachment>>): Parsed<seq<Attachment>> {
    if r.Parsed? then Parsed(s + r.value, r.next) else r
  }

  lemma PrependNothing(r: Parsed<seq<Attachment>>)
    ensures Prepend([], r) == r
  {
    if r.Parsed? {
      assert [] + r.value == r.value;
    }
  }

  lemma PrependTwice(s: seq<Attachment>, a: Attachment, r: Parsed<seq<Attachment>>)
    ensures Prepend(s, Prepend([a], r)) == Prepend(s + [a], r)
  {
    if r.Parsed? {
      assert s + ([a] + r.value) == s + [a] + r.value;
    }
  }

  /* ---------- the layout of the two heads ---------- */

  lemma HeadLayout(data: Bytes, off: nat, g: AttachmentHead)
    ensures At(data, off, HeadBytes(g)) <==>
            && At(data, off, g.id)
            && At(data, off + 16, Prefixed(g.name, 2))
            && At(data, off + 18 + |g.name|, Prefixed(g.mime, 2))
            && At(data, off + 20 + |g.name| + |g.mime|, BE(g.size, 8))
            && At(data, off + 28 + |g.name| + |g.mime|, BE(g.dataLen, 4))
  {
    hide At, BE;
    var z := BE(g.size, 8) + BE(g.dataLen, 4);
    var m := Prefixed(g.mime, 2) + z;
    AtConcat(data, off, g.id, Prefixed(g.name, 2) + m);
    AtConcat(data, off + 16, Prefixed(g.name, 2), m);
    AtConcat(data, off + 18 + |g.name|, Prefixed(g.mime, 2), z);
    AtConcat(data, off + 20 + |g.name| + |g.mime|, BE(g.size, 8), BE(g.dataLen, 4));
  }

  lemma DecodeHeadIff(data: Bytes, off: nat, g: AttachmentHead, next: nat)
    ensures DecodeHead(data, off) == Parsed(g, next) <==>
            WireHead(g) && next == off + |HeadBytes(g)| && At(data, off, HeadBytes(g))
  {
    hide BE, FromBE, Uint, Pow256, Prefixed, HeadBytes;
    Limits();
    if WireHead(g) {
      HeadLayout(data, off, g);
      var m := off + 18 + |g.name|;
      var z := m + 2 + |g.mime|;
      PrefixedAt(data, off + 16, g.name, 2);
      PrefixedAt(data, m, g.mime, 2);
      UintAt(data, z, g.size, 8);
      UintAt(data, z + 8, g.dataLen, 4);
    }
  }

  lemma HeaderLayout(data: Bytes, h: Header)
    ensures At(data, 0, HeaderBytes(h)) <==>
            var c := 50 + |h.to|;
            var t := c + 4 + |h.content|;
            && At(data, 0, h.id) && At(data, 16, h.from)
            && At(data, 48, Prefixed(h.to, 2)) && At(data, c, Prefixed(h.content, 4))
            && At(data, t, BE(h.time, 8)) && At(data, t + 8, BE(h.createdAt, 8))
            && At(data, t + 16, BE(h.updatedAt, 8)) && At(data, t + 24, BE(h.count, 2))
  {
    hide At, BE, Prefixed;
    var c := 50 + |h.to|;
    var t := c + 4 + |h.content|;
    var u := BE(h.updatedAt, 8) + BE(h.count, 2);
    var times := BE(h.time, 8) + (BE(h.createdAt, 8) + u);
    var texts := Prefixed(h.to, 2) + (Prefixed(h.content, 4) + times);
    AtConcat(data, 0, h.id, h.from + texts);
    AtConcat(data, 16, h.from, texts);
    AtConcat(data, 48, Prefixed(h.to, 2), Prefixed(h.content, 4) + times);
    AtConcat(data, c, Prefixed(h.content, 4), times);
    AtConcat(data, t, BE(h.time, 8), BE(h.createdAt, 8) + u);
    AtConcat(data, t + 8, BE(h.createdAt, 8), u);
    AtConcat(data, t + 16, BE(h.updatedAt, 8), BE(h.count, 2));
  }

  lemma DecodeHeaderIff(data: Bytes, h: Header, next: nat)
    ensures DecodeHeader(data) == Parsed(h, next) <==>
            WireHeader(h) && next == |HeaderBytes(h)| && At(data, 0, HeaderBytes(h))
  {
    hide BE, FromBE, Uint, Pow256, Prefixed, HeaderBytes;
    Limits();
    if WireHeader(h) {
      HeaderLayout(data, h);
      var c := 50 + |h.to|;
      var t := c + 4 + |h.content|;
      PrefixedAt(data, 48, h.to, 2);
      PrefixedAt(data, c, h.content, 4);
      UintAt(data, t, h.time, 8);
      UintAt(data, t + 8, h.createdAt, 8);
      UintAt(data, t + 16, h.updatedAt, 8);
      UintAt(data, t + 24, h.count, 2);
    }
  }

  /* ---------- attachments ---------- */

  lemma DecodeAttachmentIff(data: Bytes, off: nat, a: Attachment, next: nat)
    ensures DecodeAttachment(data, off) == Parsed(a, next) <==>
            FitsAttachment(a) && next == off + |AttachmentBytes(a)| && At(data, off, AttachmentBytes(a))
  {
    hide DecodeHead, HeadBytes;
    if FitsAttachment(a) {
      var g := HeadOf(a);
      DecodeHeadIff(data, off, g, off + |HeadBytes(g)|);
      AtConcat(data, off, HeadBytes(g), a.data);
    }
    if DecodeHead(data, off).Parsed? {
      var Parsed(g, n) := DecodeHead(data, off);
      DecodeHeadIff(data, off, g, n);
    }
  }

  lemma {:induction false} DecodeAttachmentsIff(data: Bytes, off: nat, s: seq<Attachment>, next: nat)
    requires off <= |data|
    ensures DecodeAttachments(data, off, |s|) == Parsed(s, next) <==>
            FitAttachments(s) && next == off + |AttachmentsBytes(s)| && At(data, off, AttachmentsBytes(s))
    decreases |s|
  {
    hide DecodeAttachment, AttachmentBytes, FitsAttachment;
    if s != [] {
      var a, rest := s[0], s[1..];
      assert s == [a] + rest;
      if DecodeAttachment(data, off).Parsed? {
        var Parsed(b, mid) := DecodeAttachment(data, off);
        DecodeAttachmentIff(data, off, b, mid);
        DecodeAttachmentsIff(data, mid, rest, next);
        var r := DecodeAttachments(data, mid, |rest|);
        assert r.Parsed? ==> ([b] + r.value == s <==> b == a && r.value == rest);
        if FitAttachments(s) {
          AtConcat(data, off, AttachmentBytes(a), AttachmentsBytes(rest));
        }
      }
      if FitsAttachment(a) {
        DecodeAttachmentIff(data, off, a, off + |AttachmentBytes(a)|);
        if FitAttachments(s) {
          AtConcat(data, off, AttachmentBytes(a), AttachmentsBytes(rest));
        }
      }
    }
  }

  /* ---------- theorems about whole messages ---------- */

  /**
    The decoder accepts exactly the encodings: it returns `m` after consuming `n` bytes
    iff `m` is encodable and the first `n` bytes are its encoding. Hence the format is
    canonical, and bytes behind the encoding never change the result.
  */
  lemma DecodeMessageIff(data: Bytes, m: Message, n: nat)
    ensures DecodeMessage(data) == Parsed(m, n) <==>
            Encodable(m) && n == |MessageBytes(m)| && At(data, 0, MessageBytes(m))
  {
    hide DecodeHeader, HeaderBytes, DecodeAttachments, AttachmentsBytes, FitsAttachment;
    if Encodable(m) {
      var h := HeaderOf(m);
      DecodeHeaderIff(data, h, |HeaderBytes(h)|);
      AtConcat(data, 0, HeaderBytes(h), AttachmentsBytes(m.attachments));
      if At(data, 0, HeaderBytes(h)) {
        DecodeAttachmentsIff(data, |HeaderBytes(h)|, m.attachments, n);
      }
    }
    if DecodeMessage(data) == Parsed(m, n) {
      var Parsed(h, k) := DecodeHeader(data);
      DecodeHeaderIff(data, h, k);
      DecodeAttachmentsIff(data, k, m.attachments, n);
    }
  }

  /** Round trip, whatever follows the encoding. */
  lemma RoundTrip(m: Message, tail: Bytes)
    requires Encodable(m)
    ensures DecodeMessage(MessageBytes(m) + tail) == Parsed(m, |MessageBytes(m)|)
  {
    hide *;
    var b := MessageBytes(m);
    AtSelf(b);
    AtExtend(b, 0, b, tail);
    DecodeMessageIff(b + tail, m, |b|);
  }

  /** A size field of at least 2^63 lies at `off`, behind a well-formed attachment head. */
  ghost predicate SizeOverflowAt(data: Bytes, off: nat) {
    exists g: AttachmentHead :: WireHead(g) && g.size >= I64_LIMIT && At(data, off, HeadBytes(g))
  }

  /** The loop over `count` attachments reaches such a field, behind complete attachments. */
  ghost predicate SizeOverflowReached(data: Bytes, off: nat, count: nat) {
    exists s: seq<Attachment> ::
      |s| < count && FitAttachments(s) && At(data, off, AttachmentsBytes(s))
      && SizeOverflowAt(data, off + |AttachmentsBytes(s)|)
  }

  /** The decoder reaches a 64-bit time or size field that holds at least 2^63. */
  ghost predicate OverflowReached(data: Bytes) {
    exists h: Header ::
      WireHeader(h) && At(data, 0, HeaderBytes(h))
      && (TimeOverflow(h) || SizeOverflowReached(data, |HeaderBytes(h)|, h.count))
  }

  lemma DecodeAttachmentPanics(data: Bytes, off: nat)
    ensures DecodeAttachment(data, off).Panicked? <==> SizeOverflowAt(data, off)
  {
    hide DecodeHead, HeadBytes;
    forall g: AttachmentHead ensures DecodeHead(data, off) == Parsed(g, off + |HeadBytes(g)|) <==>
                                     WireHead(g) && At(data, off, HeadBytes(g))
    {
      DecodeHeadIff(data, off, g, off + |HeadBytes(g)|);
    }
    assert DecodeHead(data, off) != Panicked by { NoPanicInHeads(data, off); }
    if DecodeHead(data, off).Parsed? {
      var Parsed(g, n) := DecodeHead(data, off);
      DecodeHeadIff(data, off, g, n);
    }
  }

  lemma NoPanicInHeads(data: Bytes, off: nat)
    ensures !DecodeHead(data, off).Panicked? && !DecodeHeader(data).Panicked?
  {
  }

  lemma {:induction false} DecodeAttachmentsPanics(data: Bytes, off: nat, count: nat)
    requires off <= |data|
    ensures DecodeAttachments(data, off, count).Panicked? <==> SizeOverflowReached(data, off, count)
    decreases count
  {
    hide DecodeAttachment, AttachmentBytes, FitsAttachment, SizeOverflowAt;
    if count > 0 {
      DecodeAttachmentPanics(data, off);
      if DecodeAttachment(data, off).Parsed? {
        var Parsed(a, mid) := DecodeAttachment(data, off);
        DecodeAttachmentIff(data, off, a, mid);
        DecodeAttachmentsPanics(data, mid, count - 1);
        if SizeOverflowReached(data, mid, count - 1) {
          OverflowBehind(data, off, a, count);
        }
      }
      if DecodeAttachment(data, off).Panicked? {
        assert AttachmentsBytes([]) == [] && data[off..off] == [];
        assert SizeOverflowAt(data, off + |AttachmentsBytes([])|);
      }
      if SizeOverflowReached(data, off, count) {
        OverflowAhead(data, off, count);
      }
    }
  }

  lemma AttachmentsBytesCons(a: Attachment, s: seq<Attachment>)
    requires FitsAttachment(a) && FitAttachments(s)
    ensures FitAttachments([a] + s)
    ensures AttachmentsBytes([a] + s) == AttachmentBytes(a) + AttachmentsBytes(s)
  {
    hide AttachmentBytes, FitsAttachment;
    assert ([a] + s)[1..] == s;
  }

  lemma OverflowBehind(data: Bytes, off: nat, a: Attachment, count: nat)
    requires count > 0 && FitsAttachment(a) && At(data, off, AttachmentBytes(a))
    requires SizeOverflowReached(data, off + |AttachmentBytes(a)|, count - 1)
    ensures SizeOverflowReached(data, off, count)
  {
    hide At, AttachmentBytes, FitsAttachment, SizeOverflowAt, FitAttachments, AttachmentsBytes;
    var mid := off + |AttachmentBytes(a)|;
    var s: seq<Attachment> :| |s| < count - 1 && FitAttachments(s) && At(data, mid, AttachmentsBytes(s))
      && SizeOverflowAt(data, mid + |AttachmentsBytes(s)|);
    var t := [a] + s;
    AttachmentsBytesCons(a, s);
    AtConcat(data, off, AttachmentBytes(a), AttachmentsBytes(s));
    assert At(data, off, AttachmentsBytes(t)) && SizeOverflowAt(data, off + |AttachmentsBytes(t)|);
  }

  /** A reached overflow is either the first attachment's, or behind it. */
  lemma OverflowAhead(data: Bytes, off: nat, count: nat)
    requires count > 0 && SizeOverflowReached(data, off, count)
    ensures SizeOverflowAt(data, off) ||
            exists a: Attachment :: FitsAttachment(a) && At(data, off, AttachmentBytes(a))
              && SizeOverflowReached(data, off + |AttachmentBytes(a)|, count - 1)
              && DecodeAttachment(data, off) == Parsed(a, off + |AttachmentBytes(a)|)
  {
    hide At, DecodeAttachment, AttachmentBytes, FitsAttachment, SizeOverflowAt;
    var s: seq<Attachment> :| |s| < count && FitAttachments(s) && At(data, off, AttachmentsBytes(s))
      && SizeOverflowAt(data, off + |AttachmentsBytes(s)|);
    if s != [] {
      var a, rest := s[0], s[1..];
      var mid := off + |AttachmentBytes(a)|;
      AtConcat(data, off, AttachmentBytes(a), AttachmentsBytes(rest));
      assert FitAttachments(rest) && SizeOverflowAt(data, mid + |AttachmentsBytes(rest)|);
      DecodeAttachmentIff(data, off, a, mid);
    }
  }

  /** The decoder panics exactly on input in which it reaches an overflowing 64-bit field. */
  lemma DecodeMessagePanics(data: Bytes)
    ensures DecodeMessage(data).Panicked? <==> OverflowReached(data)
  {
    hide DecodeHeader, HeaderBytes, DecodeAttachments, SizeOverflowReached;
    NoPanicInHeads(data, 0);
    if DecodeHeader(data).Parsed? {
      var Parsed(h, k) := DecodeHeader(data);
      DecodeHeaderIff(data, h, k);
      DecodeAttachmentsPanics(data, k, h.count);
    }
    if OverflowReached(data) {
      var h: Header :| WireHeader(h) && At(data, 0, HeaderBytes(h))
        && (TimeOverflow(h) || SizeOverflowReached(data, |HeaderBytes(h)|, h.count));
      DecodeHeaderIff(data, h, |HeaderBytes(h)|);
      DecodeAttachmentsPanics(data, |HeaderBytes(h)|, h.count);
    }
  }

  lemma OverflowExtends(data: Bytes, tail: Bytes)
    requires OverflowReached(data)
    ensures OverflowReached(data + tail)
  {
    hide At, HeaderBytes, HeadBytes, AttachmentsBytes, TimeOverflow;
    var h: Header :| WireHeader(h) && At(data, 0, HeaderBytes(h))
      && (TimeOverflow(h) || SizeOverflowReached(data, |HeaderBytes(h)|, h.count));
    AtExtend(data, 0, HeaderBytes(h), tail);
    if !TimeOverflow(h) {
      var off := |HeaderBytes(h)|;
      var s: seq<Attachment> :| |s| < h.count && FitAttachments(s) && At(data, off, AttachmentsBytes(s))
        && SizeOverflowAt(data, off + |AttachmentsBytes(s)|);
      AtExtend(data, off, AttachmentsBytes(s), tail);
      var g: AttachmentHead :| WireHead(g) && g.size >= I64_LIMIT
        && At(data, off + |AttachmentsBytes(s)|, HeadBytes(g));
      AtExtend(data, off + |AttachmentsBytes(s)|, HeadBytes(g), tail);
      assert SizeOverflowAt(data + tail, off + |AttachmentsBytes(s)|);
      assert SizeOverflowReached(data + tail, off, h.count);
    }
  }

  /** Every strict prefix of an encoding is rejected, and without a panic. */
  lemma StrictPrefixRejected(m: Message, k: nat)
    requires Encodable(m) && k < |MessageBytes(m)|
    ensures DecodeMessage(MessageBytes(m)[..k]) == Malformed
  {
    hide *;
    var b := MessageBytes(m);
    var p, tail := b[..k], b[k..];
    assert b == p + tail && b == b + [];
    RoundTrip(m, []);
    match DecodeMessage(p) {
      case Malformed =>
      case Panicked =>
        DecodeMessagePanics(p);
        OverflowExtends(p, tail);
        DecodeMessagePanics(b);
        assert false;
      case Parsed(y, n) =>
        DecodeMessageIff(p, y, n);
        AtExtend(p, 0, MessageBytes(y), tail);
        AtWithin(p, 0, MessageBytes(y));
        DecodeMessageIff(b, y, n);
        assert false;
    }
  }
}
