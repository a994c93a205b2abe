/**
  Byte strings, fixed-width big-endian integers and the predicate `At`, which says
  that a field lies at an offset of a buffer. Every wire format of the chat node is
  a concatenation of such fields, so its codec is proved by cutting the format into
  fields with `AtConcat` and reading each field with `UintAt` and `PrefixedAt`.
*/
module ByteStrings {
  type Byte = n: int | 0 <= n < 256
  type Bytes = seq<Byte>

  /** A signed 64-bit integer of the source: times in nanoseconds and file sizes. */
  type Int64 = n: int | -0x8000_0000_0000_0000 <= n < 0x8000_0000_0000_0000

  const U16_LIMIT := 0x1_0000
  const U32_LIMIT := 0x1_0000_0000
  const I64_LIMIT := 0x8000_0000_0000_0000
  const U64_LIMIT := 0x1_0000_0000_0000_0000

  function Zeros(n: nat): (s: Bytes)
    ensures |s| == n
  {
    seq(n, _ => 0)
  }

  /** A message or file identifier (16 bytes) and a public key (32 bytes). */
  type Id = s: Bytes | |s| == 16 witness Zeros(16)
  type Key = s: Bytes | |s| == 32 witness Zeros(32)

  const NIL_ID: Id := Zeros(16)
  const NIL_KEY: Key := Zeros(32)

  datatype Option<+T> = None | Some(value: T)

  /** The outcome of a decoder: a value and the offset behind it, an error, or a Go panic. */
  datatype Parsed<+T> = Parsed(value: T, next: nat) | Malformed | Panicked

  /* ---------- big-endian integers ---------- */

  function Pow256(k: nat): (p: nat)
    ensures p >= 1
  {
    if k == 0 then 1 else 256 * Pow256(k - 1)
  }

  /** The `k`-byte big-endian form of `n`. */
  function BE(n: nat, k: nat): (s: Bytes)
    ensures |s| == k
  {
    if k == 0 then [] else BE(n / 256, k - 1) + [n % 256]
  }

  function FromBE(s: Bytes): (n: nat)
    ensures n < Pow256(|s|)
  {
    if s == [] then 0 else 256 * FromBE(s[..|s| - 1]) + s[|s| - 1]
  }

  lemma {:induction false} FromBEOfBE(n: nat, k: nat)
    requires n < Pow256(k)
    ensures FromBE(BE(n, k)) == n
  {
    if k > 0 {
      FromBEOfBE(n / 256, k - 1);
      assert BE(n, k)[..k - 1] == BE(n / 256, k - 1);
    }
  }

  lemma {:induction false} BEOfFromBE(s: Bytes)
    ensures BE(FromBE(s), |s|) == s
  {
    if s != [] {
      var front, last := s[..|s| - 1], s[|s| - 1];
      BEOfFromBE(front);
      LastDigit(FromBE(front), last);
      assert s == front + [last];
    }
  }

  lemma LastDigit(n: nat, b: Byte)
    ensures (256 * n + b) / 256 == n && (256 * n + b) % 256 == b
  {
  }

  lemma Limits()
    ensures Pow256(2) == U16_LIMIT && Pow256(4) == U32_LIMIT && Pow256(8) == U64_LIMIT
  {
  }

  /** The unsigned integer in the `k` bytes of `data` at `off`. */
  function Uint(data: Bytes, off: nat, k: nat): (n: nat)
    requires off + k <= |data|
    ensures n < Pow256(k)
  {
    FromBE(data[off..off + k])
  }

  /* ---------- fields at offsets ---------- */

  ghost predicate At(data: Bytes, off: nat, field: Bytes) {
    off + |field| <= |data| && data[off..off + |field|] == field
  }

  lemma AtConcat(data: Bytes, off: nat, a: Bytes, b: Bytes)
    ensures At(data, off, a + b) <==> At(data, off, a) && At(data, off + |a|, b)
  {
    if off + |a + b| <= |data| {
      assert data[off..off + |a + b|] == data[off..off + |a|] + data[off + |a|..off + |a| + |b|];
      if data[off..off + |a + b|] == a + b {
        assert (a + b)[..|a|] == a && (a + b)[|a|..] == b;
      }
    }
  }

  lemma AtSelf(b: Bytes)
    ensures At(b, 0, b)
  {
    assert b[0..|b|] == b;
  }

  lemma AtWithin(data: Bytes, off: nat, field: Bytes)
    requires At(data, off, field)
    ensures off + |field| <= |data|
  {
  }

  /** Bytes behind a field do not disturb it. */
  lemma AtExtend(data: Bytes, off: nat, field: Bytes, tail: Bytes)
    requires At(data, off, field)
    ensures At(data + tail, off, field)
  {
    assert (data + tail)[off..off + |field|] == data[off..off + |field|];
  }

  lemma UintAt(data: Bytes, off: nat, n: nat, k: nat)
    requires n < Pow256(k)
    ensures At(data, off, BE(n, k)) <==> off + k <= |data| && Uint(data, off, k) == n
  {
    hide Pow256, BE, FromBE;
    FromBEOfBE(n, k);
    if off + k <= |data| {
      BEOfFromBE(data[off..off + k]);
    }
  }

  /** A byte string behind a `k`-byte length. */
  function Prefixed(s: Bytes, k: nat): (r: Bytes)
    ensures |r| == k + |s|
  {
    BE(|s|, k) + s
  }

  lemma PrefixedAt(data: Bytes, off: nat, s: Bytes, k: nat)
    requires |s| < Pow256(k)
    ensures At(data, off, Prefixed(s, k)) <==>
            off + k + |s| <= |data| && Uint(data, off, k) == |s| && data[off + k..off + k + |s|] == s
  {
    hide Pow256, BE, FromBE, Uint;
    AtConcat(data, off, BE(|s|, k), s);
    UintAt(data, off, |s|, k);
  }

  /* ---------- buffers ---------- */

  /** Go's `copy(buf[off:], field)` for a field that fits, followed by `off += len(field)`. */
  method CopyAt(buf: array<Byte>, off: nat, field: Bytes) returns (next: nat)
    requires off + |field| <= buf.Length
    modifies buf
    ensures next == off + |field|
    ensures buf[..next] == old(buf[..off]) + field
  {
    for i := 0 to |field|
      invariant buf[..off] == old(buf[..off])
      invariant forall j :: 0 <= j < i ==> buf[off + j] == field[j]
    {
      buf[off + i] := field[i];
    }
    next := off + |field|;
    assert buf[..next] == buf[..off] + buf[off..next];
    assert buf[off..next] == field;
  }

  /** A length field followed by the bytes it counts. */
  method PutPrefixed(buf: array<Byte>, off: nat, s: Bytes, k: nat) returns (next: nat)
    requires off + k + |s| <= buf.Length
    modifies buf
    ensures next == off + k + |s|
    ensures buf[..next] == old(buf[..off]) + Prefixed(s, k)
  {
    hide BE;
    next := CopyAt(buf, off, BE(|s|, k));
    next := CopyAt(buf, next, s);
    Assoc(old(buf[..off]), BE(|s|, k), s);
  }

  lemma Assoc(a: Bytes, b: Bytes, c: Bytes)
    ensures (a + b) + c == a + (b + c)
  {
  }

  /** Fields written one after another make the right-nested concatenation of a format. */
  lemma Regroup(pre: Bytes, a: Bytes, b: Bytes, c: Bytes, d: Bytes)
    ensures pre + a + b + c + d == pre + (a + (b + (c + d)))
  {
    Assoc(pre + a + b, c, d);
    Assoc(pre + a, b, c + d);
    Assoc(pre, a, b + (c + d));
  }
}
