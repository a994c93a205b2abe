/**
  The encrypted session: one key and one 64-bit counter nonce per direction. Encryption
  takes its nonce under a lock and releases the lock; the frame is written later, by any
  of the callers, and the write may fail. The cipher is ideal: a `Sealed` body can only
  be made by encrypting, and opens only under its own key and nonce.
*/
module SecureChannel {
  import opened ByteStrings

  /* ---------- keys, frames and the two cipher states ---------- */

  datatype Label = SendLabel | RecvLabel

  /** SHA-256 of a label and the shared secret, as an injective function of both. */
  datatype CipherKey = Derived(tag: Label, shared: Bytes)

  type Nonce = s: Bytes | |s| == 12 witness Zeros(12)

  datatype Body = Sealed(key: CipherKey, nonce: Nonce, plain: Bytes) | Junk

  /** A websocket message: shorter than a nonce, or a clear nonce and a ciphertext. */
  datatype Frame = Short | Frame(header: Nonce, body: Body)

  datatype CipherState = CipherState(key: Option<CipherKey>, nonce: nat)

  function NonceBytes(n: nat): Nonce {
    BE(n, 8) + Zeros(4)
  }

  function SealedFrame(key: CipherKey, n: nat, plain: Bytes): Frame {
    Frame(NonceBytes(n), Sealed(key, NonceBytes(n), plain))
  }

  function Encrypt(c: CipherState, plain: Bytes): (CipherState, Option<Frame>) {
    if c.key.None? then (c, None)
    else (c.(nonce := (c.nonce + 1) % U64_LIMIT), Some(SealedFrame(c.key.value, c.nonce, plain)))
  }

  function Decrypt(c: CipherState, f: Frame): (CipherState, Option<Bytes>) {
    if f.Short? || c.key.None? then (c, None)
    else if FromBE(f.header[..8]) != c.nonce then (c, None)
    else if f.body.Sealed? && f.body.key == c.key.value && f.body.nonce == f.header then
      (c.(nonce := (c.nonce + 1) % U64_LIMIT), Some(f.body.plain))
    else (c, None)
  }

  /** The keys of `deriveKeys`: what one side sends with, the other receives with. */
  function DeriveKeys(shared: Bytes, initiator: bool): (CipherState, CipherState) {
    var s, r := Derived(SendLabel, shared), Derived(RecvLabel, shared);
    if initiator then (CipherState(Some(s), 0), CipherState(Some(r), 0))
    else (CipherState(Some(r), 0), CipherState(Some(s), 0))
  }

  /** The session object; `conn` tells whether the connection accepts writes. */
  class Session {
    var sendKey: Option<CipherKey>
    var sendNonce: nat
    var recvKey: Option<CipherKey>
    var recvNonce: nat
    var conn: bool

    ghost function Sender(): CipherState
      reads this
    {
      CipherState(sendKey, sendNonce)
    }

    ghost function Receiver(): CipherState
      reads this
    {
      CipherState(recvKey, recvNonce)
    }

    constructor ()
      ensures Sender() == Receiver() == CipherState(None, 0) && conn
    {
      sendKey, sendNonce, recvKey, recvNonce, conn := None, 0, None, 0, true;
    }

    method InstallKeys(shared: Bytes, initiator: bool)
      modifies this`sendKey, this`sendNonce, this`recvKey, this`recvNonce
      ensures (Sender(), Receiver()) == DeriveKeys(shared, initiator)
    {
      var s, r := Derived(SendLabel, shared), Derived(RecvLabel, shared);
      if initiator {
        sendKey, recvKey := Some(s), Some(r);
      } else {
        sendKey, recvKey := Some(r), Some(s);
      }
      sendNonce, recvNonce := 0, 0;
    }

    method DoEncrypt(plain: Bytes) returns (out: Option<Frame>)
      modifies this`sendNonce
      ensures (Sender(), out) == Encrypt(old(Sender()), plain)
    {
      if sendKey.None? {
        return None;
      }
      var nonce := NonceBytes(sendNonce);
      sendNonce := (sendNonce + 1) % U64_LIMIT;
      out := Some(Frame(nonce, Sealed(sendKey.value, nonce, plain)));
    }

    method DoDecrypt(data: Frame) returns (out: Option<Bytes>)
      modifies this`recvNonce
      ensures (Receiver(), out) == Decrypt(old(Receiver()), data)
    {
      if data.Short? || recvKey.None? {
        return None;
      }
      if FromBE(data.header[..8]) != recvNonce {
        return None;
      }
      match data.body {
        case Junk => return None;
        case Sealed(key, nonce, plain) =>
          if key != recvKey.value || nonce != data.header {
            return None;
          }
          recvNonce := (recvNonce + 1) % U64_LIMIT;
          return Some(plain);
      }
    }

    /** A failed write, or a closed connection, has already used up its nonce. */
    method Send(plain: Bytes, writeOk: bool) returns (written: Option<Frame>)
      modifies this`sendNonce
      ensures Sender() == Encrypt(old(Sender()), plain).0
      ensures written == if conn && writeOk then Encrypt(old(Sender()), plain).1 else None
    {
      var enc := DoEncrypt(plain);
      if enc.None? || !conn || !writeOk {
        return None;
      }
      written := enc;
    }

    method CloseConn()
      modifies this
      ensures Sender() == CipherState(None, old(sendNonce)) && Receiver() == CipherState(None, old(recvNonce))
      ensures !conn
    {
      sendKey, recvKey, conn := None, None, false;
    }
  }

  lemma NonceBytesDecode(n: nat)
    requires n < U64_LIMIT
    ensures FromBE(NonceBytes(n)[..8]) == n
  {
    hide BE, FromBE, Pow256;
    Limits();
    FromBEOfBE(n, 8);
    assert NonceBytes(n)[..8] == BE(n, 8);
  }

  lemma NonceBytesInjective(m: nat, n: nat)
    requires m < U64_LIMIT && n < U64_LIMIT && NonceBytes(m) == NonceBytes(n)
    ensures m == n
  {
    NonceBytesDecode(m);
    NonceBytesDecode(n);
  }

  /** A genuine frame is accepted exactly at its own nonce. */
  lemma DecryptSealed(key: CipherKey, n: nat, m: nat, plain: Bytes)
    requires n < U64_LIMIT && m < U64_LIMIT
    ensures Decrypt(CipherState(Some(key), n), SealedFrame(key, m, plain)) ==
            if m == n then (CipherState(Some(key), (n + 1) % U64_LIMIT), Some(plain))
            else (CipherState(Some(key), n), None)
  {
    hide NonceBytes, FromBE;
    NonceBytesDecode(m);
  }

  /* ---------- the step system ---------- */

  datatype Side = Initiator | Responder

  function Other(s: Side): Side {
    if s.Initiator? then Responder else Initiator
  }

  /**
    One party: its cipher states, the frames it encrypted and has not tried to write, and
    three histories: what it encrypted, under which nonces, and what its `decrypt` returned.
  */
  datatype Party = Party(
    sender: CipherState, receiver: CipherState, unwritten: set<Frame>,
    encrypted: seq<Bytes>, nonces: seq<Nonce>, accepted: seq<Bytes>)

  /** Both parties and every frame ever written to the network. */
  datatype Net = Net(shared: Bytes, initiator: Party, responder: Party, wire: set<Frame>) {
    function Get(s: Side): Party {
      if s.Initiator? then initiator else responder
    }

    function Set(s: Side, p: Party): Net {
      if s.Initiator? then this.(initiator := p) else this.(responder := p)
    }
  }

  datatype Step =
    | EncryptStep(side: Side, plain: Bytes)
    | WriteStep(side: Side, frame: Frame, ok: bool)
    | DeliverStep(side: Side, frame: Frame)
    | CloseStep(side: Side)

  function KeyOf(shared: Bytes, s: Side): CipherKey {
    Derived(if s.Initiator? then SendLabel else RecvLabel, shared)
  }

  function Fresh(shared: Bytes, initiator: bool): Party {
    var (s, r) := DeriveKeys(shared, initiator);
    Party(s, r, {}, [], [], [])
  }

  function Init(shared: Bytes): Net {
    Net(shared, Fresh(shared, true), Fresh(shared, false), {})
  }

  /**
    What the network may deliver: it drops, repeats and reorders at will, alters clear
    nonces and invents ciphertexts, but a body sealed under a session key was written.
  */
  predicate CanAppear(net: Net, f: Frame) {
    f.Frame? && f.body.Sealed? && f.body.key.shared == net.shared ==>
      exists w :: w in net.wire && w.Frame? && w.body == f.body
  }

  /** One step; a step that is not possible changes nothing. */
  function Apply(net: Net, step: Step): Net {
    match step
    case EncryptStep(side, plain) =>
      var p := net.Get(side);
      var (c, out) := Encrypt(p.sender, plain);
      if out.None? then net else
      net.Set(side, p.(sender := c, unwritten := p.unwritten + {out.value},
                       encrypted := p.encrypted + [plain], nonces := p.nonces + [out.value.header]))
    case WriteStep(side, frame, ok) =>
      var p := net.Get(side);
      if frame !in p.unwritten then net else
      var after := net.Set(side, p.(unwritten := p.unwritten - {frame}));
      if ok then after.(wire := net.wire + {frame}) else after
    case DeliverStep(side, frame) =>
      if !CanAppear(net, frame) then net else
      var p := net.Get(side);
      var (c, out) := Decrypt(p.receiver, frame);
      net.Set(side, p.(receiver := c, accepted := if out.Some? then p.accepted + [out.value] else p.accepted))
    case CloseStep(side) =>
      var p := net.Get(side);
      net.Set(side, p.(sender := p.sender.(key := None), receiver := p.receiver.(key := None)))
  }

  function Execute(net: Net, steps: seq<Step>): Net
    decreases |steps|
  {
    if steps == [] then net else Execute(Apply(net, steps[0]), steps[1..])
  }

  /* ---------- what every step keeps ---------- */

  /** A frame in hand or on the wire is the `i`-th one its side encrypted. */
  ghost predicate Genuine(net: Net, side: Side, f: Frame) {
    exists i :: IsFrame(net, side, f, i)
  }

  ghost predicate IsFrame(net: Net, side: Side, f: Frame, i: int) {
    var sent := net.Get(side).encrypted;
    0 <= i < |sent| && f == SealedFrame(KeyOf(net.shared, side), i % U64_LIMIT, sent[i])
  }

  /** Nonces are taken in counting order, modulo 2^64. */
  ghost predicate Counting(p: Party) {
    && p.sender.nonce == |p.encrypted| % U64_LIMIT
    && |p.nonces| == |p.encrypted|
    && (forall i :: 0 <= i < |p.nonces| ==> p.nonces[i] == NonceBytes(i % U64_LIMIT))
  }

  ghost predicate SideSound(net: Net, s: Side) {
    var p := net.Get(s);
    && (p.sender.key == None || p.sender.key == Some(KeyOf(net.shared, s)))
    && (p.receiver.key == None || p.receiver.key == Some(KeyOf(net.shared, Other(s))))
    && Counting(p)
    && (forall f :: f in p.unwritten ==> Genuine(net, s, f))
  }

  ghost predicate WireSound(net: Net) {
    forall f :: f in net.wire ==> Genuine(net, Initiator, f) || Genuine(net, Responder, f)
  }

  /** The part of the invariant that holds however many frames are sent. */
  ghost predicate Sound(net: Net) {
    SideSound(net, Initiator) && SideSound(net, Responder) && WireSound(net)
  }

  /** Delivery from `s`: the other side holds an intact prefix of what `s` encrypted, all of it written. */
  ghost predicate Delivered(net: Net, s: Side) {
    var sent, peer := net.Get(s).encrypted, net.Get(Other(s));
    && |peer.accepted| <= |sent|
    && peer.accepted == sent[..|peer.accepted|]
    && peer.receiver.nonce == |peer.accepted|
    && (forall i :: 0 <= i < |peer.accepted| ==> SealedFrame(KeyOf(net.shared, s), i, sent[i]) in net.wire)
  }

  /** Histories only grow. */
  lemma HistoryGrows(net: Net, step: Step, s: Side)
    ensures net.Get(s).encrypted <= Apply(net, step).Get(s).encrypted
    ensures net.wire <= Apply(net, step).wire
    ensures Apply(net, step).shared == net.shared
  {
    hide Encrypt, Decrypt;
  }

  lemma GenuineStays(net: Net, step: Step, s: Side, f: Frame)
    requires Genuine(net, s, f)
    ensures Genuine(Apply(net, step), s, f)
  {
    hide Apply, NonceBytes;
    HistoryGrows(net, step, s);
    var i :| IsFrame(net, s, f, i);
    assert IsFrame(Apply(net, step), s, f, i);
  }

  lemma SoundStep(net: Net, step: Step)
    requires Sound(net)
    ensures Sound(Apply(net, step))
  {
    hide Apply, SideSound, WireSound;
    SideSoundStep(net, step, Initiator);
    SideSoundStep(net, step, Responder);
    WireSoundStep(net, step);
  }

  /** A side's sending state moves only when it encrypts; keys can only be dropped. */
  lemma SenderStep(net: Net, step: Step, s: Side)
    ensures var p, q := net.Get(s), Apply(net, step).Get(s);
      && (q.sender.key == p.sender.key || q.sender.key == None)
      && (q.receiver.key == p.receiver.key || q.receiver.key == None)
      && (|| (&& q.encrypted == p.encrypted && q.nonces == p.nonces
              && q.sender.nonce == p.sender.nonce && q.unwritten <= p.unwritten)
          || (&& step.EncryptStep? && step.side == s && p.sender.key.Some?
              && q.encrypted == p.encrypted + [step.plain]
              && q.nonces == p.nonces + [NonceBytes(p.sender.nonce)]
              && q.sender.nonce == (p.sender.nonce + 1) % U64_LIMIT
              && q.unwritten == p.unwritten + {SealedFrame(p.sender.key.value, p.sender.nonce, step.plain)}))
  {
    hide FromBE, NonceBytes, CanAppear;
  }

  lemma CountingStep(net: Net, step: Step, s: Side)
    requires Counting(net.Get(s))
    ensures Counting(Apply(net, step).Get(s))
  {
    hide Apply, NonceBytes;
    SenderStep(net, step, s);
  }

  lemma SideSoundStep(net: Net, step: Step, s: Side)
    requires Sound(net)
    ensures SideSound(Apply(net, step), s)
  {
    hide Apply, Genuine, NonceBytes, WireSound, Counting;
    assert SideSound(net, s);
    CountingStep(net, step, s);
    var next := Apply(net, step);
    HistoryGrows(net, step, s);
    SenderStep(net, step, s);
    forall f | Genuine(net, s, f) ensures Genuine(next, s, f) {
      GenuineStays(net, step, s, f);
    }
    if next.Get(s).encrypted != net.Get(s).encrypted {
      EncryptedIsGenuine(net, s, step.plain);
    }
  }

  lemma WireSoundStep(net: Net, step: Step)
    requires Sound(net)
    ensures WireSound(Apply(net, step))
  {
    hide Genuine, NonceBytes, Encrypt, Decrypt;
    var next := Apply(net, step);
    forall s: Side, f | Genuine(net, s, f) ensures Genuine(next, s, f) {
      GenuineStays(net, step, s, f);
    }
    if step.WriteStep? {
      assert SideSound(net, step.side);
    }
  }

  lemma EncryptedIsGenuine(net: Net, side: Side, plain: Bytes)
    requires Sound(net) && net.Get(side).sender.key.Some?
    ensures Genuine(Apply(net, EncryptStep(side, plain)), side,
                    SealedFrame(KeyOf(net.shared, side), net.Get(side).sender.nonce, plain))
  {
    hide NonceBytes;
    var next := Apply(net, EncryptStep(side, plain));
    assert IsFrame(next, side, SealedFrame(KeyOf(net.shared, side), net.Get(side).sender.nonce, plain),
                   |net.Get(side).encrypted|);
  }

  /** A frame on the wire under a side's key is one that this side encrypted. */
  lemma WireFrame(net: Net, s: Side, w: Frame)
    requires Sound(net) && w in net.wire && w.Frame? && w.body.Sealed? && w.body.key == KeyOf(net.shared, s)
    ensures Genuine(net, s, w)
  {
    hide NonceBytes, SideSound;
  }

  /** What `Decrypt` accepts carries the expected nonce under the receiving key. */
  lemma AcceptedFrame(c: CipherState, f: Frame)
    requires Decrypt(c, f).1.Some?
    ensures c.key.Some? && f.Frame? && f.body == Sealed(c.key.value, f.header, Decrypt(c, f).1.value)
    ensures FromBE(f.header[..8]) == c.nonce
    ensures Decrypt(c, f).0 == c.(nonce := (c.nonce + 1) % U64_LIMIT)
  {
  }

  /** Whatever the network delivers, and however many frames were sent: what is accepted was encrypted by the peer. */
  lemma AcceptedWasEncrypted(net: Net, s: Side, frame: Frame)
    requires Sound(net) && CanAppear(net, frame) && Decrypt(net.Get(Other(s)).receiver, frame).1.Some?
    ensures Decrypt(net.Get(Other(s)).receiver, frame).1.value in net.Get(s).encrypted
  {
    hide NonceBytes, FromBE, Decrypt, Genuine, WireSound;
    AcceptedFrame(net.Get(Other(s)).receiver, frame);
    assert SideSound(net, Other(s));
    assert Other(Other(s)) == s;
    var w :| w in net.wire && w.Frame? && w.body == frame.body;
    WireFrame(net, s, w);
    var i := IndexOf(net, s, w);
  }

  /** An accepted frame is the next one of the peer, and it was written. */
  lemma AcceptedIsNext(net: Net, s: Side, frame: Frame)
    requires Sound(net) && Delivered(net, s) && |net.Get(s).encrypted| < U64_LIMIT
    requires CanAppear(net, frame) && Decrypt(net.Get(Other(s)).receiver, frame).1.Some?
    ensures var sent, n := net.Get(s).encrypted, |net.Get(Other(s)).accepted|;
      && n < |sent| && Decrypt(net.Get(Other(s)).receiver, frame).1.value == sent[n]
      && SealedFrame(KeyOf(net.shared, s), n, sent[n]) in net.wire
  {
    hide NonceBytes, FromBE, Decrypt, Genuine, WireSound;
    var c := net.Get(Other(s)).receiver;
    AcceptedFrame(c, frame);
    assert SideSound(net, Other(s));
    assert Other(Other(s)) == s;
    var w :| w in net.wire && w.Frame? && w.body == frame.body;
    WireFrame(net, s, w);
    var i := IndexOf(net, s, w);
    NonceBytesDecode(i);
  }

  ghost function IndexOf(net: Net, s: Side, f: Frame): (i: int)
    requires Genuine(net, s, f)
    ensures IsFrame(net, s, f, i)
  {
    var i :| IsFrame(net, s, f, i);
    i
  }

  lemma DeliveredStep(net: Net, step: Step, s: Side)
    requires Sound(net) && Delivered(net, s)
    requires |Apply(net, step).Get(s).encrypted| < U64_LIMIT
    ensures Delivered(Apply(net, step), s)
  {
    hide NonceBytes, FromBE, Apply, Decrypt, Sound;
    HistoryGrows(net, step, s);
    var next, t := Apply(net, step), Other(s);
    ReceiverStep(net, step, t);
    if next.Get(t).accepted != net.Get(t).accepted {
      AcceptedIsNext(net, s, step.frame);
      AcceptedFrame(net.Get(t).receiver, step.frame);
    }
  }

  /** A side's receiving state moves only when it accepts a frame. */
  lemma ReceiverStep(net: Net, step: Step, t: Side)
    ensures var p, q := net.Get(t), Apply(net, step).Get(t);
      || (q.accepted == p.accepted && q.receiver.nonce == p.receiver.nonce)
      || (&& step.DeliverStep? && step.side == t && CanAppear(net, step.frame)
          && Decrypt(p.receiver, step.frame).1.Some?
          && q.accepted == p.accepted + [Decrypt(p.receiver, step.frame).1.value]
          && q.receiver == Decrypt(p.receiver, step.frame).0)
  {
    hide FromBE, NonceBytes, CanAppear;
  }

  /* ---------- safety over every run ---------- */

  lemma {:induction false} RunKeeps(net: Net, steps: seq<Step>, s: Side)
    requires Sound(net) && Delivered(net, s)
    ensures Sound(Execute(net, steps))
    ensures net.Get(s).encrypted <= Execute(net, steps).Get(s).encrypted
    ensures |Execute(net, steps).Get(s).encrypted| < U64_LIMIT ==> Delivered(Execute(net, steps), s)
    decreases |steps|
  {
    hide Apply, Sound, Delivered;
    if steps != [] {
      var mid := Apply(net, steps[0]);
      SoundStep(net, steps[0]);
      HistoryGrows(net, steps[0], s);
      if |mid.Get(s).encrypted| < U64_LIMIT {
        DeliveredStep(net, steps[0], s);
        RunKeeps(mid, steps[1..], s);
      } else {
        RunGrows(mid, steps[1..], s);
      }
    }
  }

  lemma {:induction false} RunGrows(net: Net, steps: seq<Step>, s: Side)
    requires Sound(net)
    ensures Sound(Execute(net, steps))
    ensures net.Get(s).encrypted <= Execute(net, steps).Get(s).encrypted
    ensures net.wire <= Execute(net, steps).wire
    decreases |steps|
  {
    hide Apply, Sound;
    if steps != [] {
      SoundStep(net, steps[0]);
      HistoryGrows(net, steps[0], s);
      RunGrows(Apply(net, steps[0]), steps[1..], s);
    }
  }

  lemma InitHolds(shared: Bytes)
    ensures Sound(Init(shared)) && Delivered(Init(shared), Initiator) && Delivered(Init(shared), Responder)
  {
  }

  /**
    Channel safety: in every run, as long as a side has encrypted fewer than 2^64 frames,
    the other side has accepted exactly the plaintexts under nonces 0 .. nonce - 1, in
    that order, and every one of them was written.
  */
  lemma ChannelSafety(shared: Bytes, steps: seq<Step>, s: Side)
    requires |Execute(Init(shared), steps).Get(s).encrypted| < U64_LIMIT
    ensures var net := Execute(Init(shared), steps);
      var sent, peer := net.Get(s).encrypted, net.Get(Other(s));
      && peer.receiver.nonce == |peer.accepted| <= |sent|
      && peer.accepted == sent[..peer.receiver.nonce]
      && forall i :: 0 <= i < peer.receiver.nonce ==> SealedFrame(KeyOf(shared, s), i, sent[i]) in net.wire
  {
    hide Apply, Sound;
    InitHolds(shared);
    RunKeeps(Init(shared), steps, s);
    SharedStays(Init(shared), steps);
  }

  lemma {:induction false} SharedStays(net: Net, steps: seq<Step>)
    ensures Execute(net, steps).shared == net.shared
    decreases |steps|
  {
    hide Apply;
    if steps != [] {
      HistoryGrows(net, steps[0], Initiator);
      SharedStays(Apply(net, steps[0]), steps[1..]);
    }
  }

  /** In every run, no two encryptions of a side share a nonce iff it made at most 2^64 of them. */
  lemma NonceUniqueness(shared: Bytes, steps: seq<Step>, s: Side)
    ensures var used := Execute(Init(shared), steps).Get(s).nonces;
      (forall i, j :: 0 <= i < j < |used| ==> used[i] != used[j]) <==> |used| <= U64_LIMIT
  {
    hide Execute, Apply, NonceBytes, Genuine;
    InitHolds(shared);
    RunGrows(Init(shared), steps, s);
    var net := Execute(Init(shared), steps);
    assert SideSound(net, s);
    var used := net.Get(s).nonces;
    if |used| <= U64_LIMIT {
      forall i, j | 0 <= i < j < |used| ensures used[i] != used[j] {
        if used[i] == used[j] {
          NonceBytesInjective(i, j);
        }
      }
    } else {
      assert used[0] == NonceBytes(0) && used[U64_LIMIT] == NonceBytes(0);
    }
  }

  /** Frame `k` was encrypted, is not on the wire, and nobody holds it for writing. */
  ghost predicate Lost(net: Net, s: Side, k: nat) {
    var p := net.Get(s);
    k < |p.encrypted| &&
    var f := SealedFrame(KeyOf(net.shared, s), k, p.encrypted[k]);
    f !in p.unwritten && f !in net.wire
  }

  lemma LostStep(net: Net, step: Step, s: Side, k: nat)
    requires Sound(net) && Lost(net, s, k) && |Apply(net, step).Get(s).encrypted| < U64_LIMIT
    ensures Lost(Apply(net, step), s, k)
  {
    hide Apply, NonceBytes;
    HistoryGrows(net, step, s);
    SenderStep(net, step, s);
    WireStep(net, step);
    var f := SealedFrame(KeyOf(net.shared, s), k, net.Get(s).encrypted[k]);
    assert f !in Apply(net, step).Get(s).unwritten by {
      if NonceBytes(|net.Get(s).encrypted|) == NonceBytes(k) {
        NonceBytesInjective(|net.Get(s).encrypted|, k);
      }
    }
    assert f !in net.Get(Other(s)).unwritten by {
      assert SideSound(net, Other(s));
    }
  }

  /** Only frames that a side held for writing reach the wire. */
  lemma WireStep(net: Net, step: Step)
    ensures forall f :: f in Apply(net, step).wire ==>
      f in net.wire || f in net.initiator.unwritten || f in net.responder.unwritten
  {
    hide FromBE, NonceBytes, CanAppear, Encrypt, Decrypt;
  }

  /** A frame whose write failed stops its direction for the rest of every run. */
  lemma {:induction false} LostFrameBlocks(net: Net, steps: seq<Step>, s: Side, k: nat)
    requires Sound(net) && Delivered(net, s) && Lost(net, s, k)
    requires |Execute(net, steps).Get(s).encrypted| < U64_LIMIT
    ensures |Execute(net, steps).Get(Other(s)).accepted| <= k
    decreases |steps|
  {
    hide Apply, Sound;
    if steps != [] {
      var mid := Apply(net, steps[0]);
      SoundStep(net, steps[0]);
      RunGrows(mid, steps[1..], s);
      DeliveredStep(net, steps[0], s);
      LostStep(net, steps[0], s, k);
      LostFrameBlocks(mid, steps[1..], s, k);
    }
  }

  /** A failed write is such a loss. */
  lemma FailedWriteLoses(net: Net, s: Side, k: nat)
    requires Sound(net) && k < |net.Get(s).encrypted| < U64_LIMIT
    requires var f := SealedFrame(KeyOf(net.shared, s), k, net.Get(s).encrypted[k]);
      f in net.Get(s).unwritten && f !in net.wire
    ensures Lost(Apply(net, WriteStep(s, SealedFrame(KeyOf(net.shared, s), k, net.Get(s).encrypted[k]), false)), s, k)
  {
    hide NonceBytes, Sound;
  }

  /* ---------- the 2^64 bound is exact ---------- */

  lemma {:induction false} ExecuteAppend(net: Net, a: seq<Step>, b: seq<Step>)
    ensures Execute(net, a + b) == Execute(Execute(net, a), b)
    decreases |a|
  {
    hide Apply;
    if a == [] {
      assert a + b == b;
    } else {
      assert (a + b)[1..] == a[1..] + b;
      ExecuteAppend(Apply(net, a[0]), a[1..], b);
    }
  }

  /** The initiator encrypts and writes an empty plaintext and the responder receives it. */
  function Round(shared: Bytes, n: nat): seq<Step> {
    var f := SealedFrame(Derived(SendLabel, shared), n % U64_LIMIT, []);
    [EncryptStep(Initiator, []), WriteStep(Initiator, f, true), DeliverStep(Responder, f)]
  }

  function Rounds(shared: Bytes, n: nat): seq<Step> {
    if n == 0 then [] else Rounds(shared, n - 1) + Round(shared, n - 1)
  }

  /** What `n` rounds leave behind. */
  ghost predicate AfterRounds(net: Net, shared: Bytes, n: nat) {
    var c := CipherState(Some(Derived(SendLabel, shared)), n % U64_LIMIT);
    && net.shared == shared && net.initiator.sender == c && net.responder.receiver == c
    && |net.initiator.encrypted| == n && |net.responder.accepted| == n
    && (n > 0 ==> SealedFrame(c.key.value, 0, []) in net.wire)
  }

  lemma WrittenCanAppear(net: Net, f: Frame)
    requires f in net.wire
    ensures CanAppear(net, f)
  {
  }

  lemma ExecuteThree(net: Net, a: Step, b: Step, c: Step)
    ensures Execute(net, [a, b, c]) == Apply(Apply(Apply(net, a), b), c)
  {
    hide Apply;
    assert [a, b, c][1..] == [b, c] && [b, c][1..] == [c] && [c][1..] == [];
    var m := Apply(net, a);
    assert Execute(m, [b, c]) == Execute(Apply(m, b), [c]) == Execute(Apply(Apply(m, b), c), []);
  }

  lemma RoundStep(net: Net, shared: Bytes, n: nat)
    requires AfterRounds(net, shared, n)
    ensures AfterRounds(Execute(net, Round(shared, n)), shared, n + 1)
  {
    hide Decrypt, SealedFrame, CanAppear, Execute;
    var r := Round(shared, n);
    ExecuteThree(net, r[0], r[1], r[2]);
    var m1 := Apply(net, r[0]);
    var m2 := Apply(m1, r[1]);
    WrittenCanAppear(m2, r[1].frame);
    DecryptSealed(Derived(SendLabel, shared), n % U64_LIMIT, n % U64_LIMIT, []);
  }

  lemma {:induction false} RoundsReach(shared: Bytes, n: nat)
    ensures AfterRounds(Execute(Init(shared), Rounds(shared, n)), shared, n)
  {
    hide Round, Apply;
    if n == 0 {
      assert Rounds(shared, 0) == [];
    } else {
      RoundsReach(shared, n - 1);
      ExecuteAppend(Init(shared), Rounds(shared, n - 1), Round(shared, n - 1));
      RoundStep(Execute(Init(shared), Rounds(shared, n - 1)), shared, n - 1);
    }
  }

  /**
    `ChannelSafety` fails at 2^64 frames: the counters have wrapped, and a replay of the
    first frame is accepted, so more has been accepted than was ever encrypted.
  */
  lemma ReplayAcceptedAfterWrap(shared: Bytes)
    ensures var steps := Rounds(shared, U64_LIMIT)
                       + [DeliverStep(Responder, SealedFrame(Derived(SendLabel, shared), 0, []))];
      var net := Execute(Init(shared), steps);
      |net.initiator.encrypted| == U64_LIMIT && |net.responder.accepted| == U64_LIMIT + 1
  {
    hide Rounds, NonceBytes, FromBE;
    var replay := DeliverStep(Responder, SealedFrame(Derived(SendLabel, shared), 0, []));
    RoundsReach(shared, U64_LIMIT);
    ExecuteAppend(Init(shared), Rounds(shared, U64_LIMIT), [replay]);
    var net := Execute(Init(shared), Rounds(shared, U64_LIMIT));
    NonceBytesDecode(0);
    assert [replay][1..] == [];
    assert Execute(net, [replay]) == Execute(Apply(net, replay), []) == Apply(net, replay);
  }

  /** Every run in which a side encrypts at most `limit` frames delivers an intact prefix of them. */
  ghost predicate SafeUpTo(limit: nat) {
    forall shared: Bytes, steps: seq<Step>, s: Side ::
      |Execute(Init(shared), steps).Get(s).encrypted| <= limit ==> Delivered(Execute(Init(shared), steps), s)
  }

  /** The channel is safe in every run of up to `limit` frames per side exactly if `limit` is below 2^64. */
  lemma SafeUpToIff(limit: nat)
    ensures SafeUpTo(limit) <==> limit < U64_LIMIT
  {
    hide Execute, Delivered, Rounds, SealedFrame;
    if limit < U64_LIMIT {
      forall shared: Bytes, steps: seq<Step>, s: Side
        | |Execute(Init(shared), steps).Get(s).encrypted| <= limit
        ensures Delivered(Execute(Init(shared), steps), s)
      {
        InitHolds(shared);
        RunKeeps(Init(shared), steps, s);
      }
    } else {
      ReplayAcceptedAfterWrap([]);
      var steps := Rounds([], U64_LIMIT)
                 + [DeliverStep(Responder, SealedFrame(Derived(SendLabel, []), 0, []))];
      TooManyAccepted(Execute(Init([]), steps));
      assert |Execute(Init([]), steps).Get(Initiator).encrypted| <= limit;
    }
  }

  lemma TooManyAccepted(net: Net)
    requires |net.responder.accepted| > |net.initiator.encrypted|
    ensures !Delivered(net, Initiator)
  {
  }

  /* ---------- exact delivery on a FIFO wire ---------- */

  /** The receiver fed with frames in order: its final state and what it accepted. */
  function Receive(c: CipherState, frames: seq<Frame>): (CipherState, seq<Bytes>) {
    if frames == [] then (c, []) else
    var (d, got) := Receive(c, frames[..|frames| - 1]);
    var (e, out) := Decrypt(d, frames[|frames| - 1]);
    (e, if out.Some? then got + [out.value] else got)
  }

  /** How far a counter gets that advances on meeting its own value. */
  function Progress(w: seq<nat>): nat {
    if w == [] then 0 else
    var n := Progress(w[..|w| - 1]);
    if w[|w| - 1] == n then n + 1 else n
  }

  function UpTo(n: nat): (s: seq<nat>)
    ensures |s| == n && forall i :: 0 <= i < n ==> s[i] == i
  {
    seq(n, i requires 0 <= i < n => i)
  }

  /** `at` embeds `s` into `t`: strictly increasing positions that hold the elements of `s`. */
  ghost predicate Embeds(s: seq<nat>, t: seq<nat>, at: seq<nat>) {
    && |at| == |s|
    && (forall i, j :: 0 <= i < j < |at| ==> at[i] < at[j])
    && (forall i :: 0 <= i < |at| ==> at[i] < |t| && t[at[i]] == s[i])
  }

  ghost predicate IsSubsequence(s: seq<nat>, t: seq<nat>) {
    exists at :: Embeds(s, t, at)
  }

  function Frames(key: CipherKey, sent: seq<Bytes>, w: seq<nat>): (f: seq<Frame>)
    requires forall i :: 0 <= i < |w| ==> w[i] < |sent|
    ensures |f| == |w|
  {
    seq(|w|, i requires 0 <= i < |w| => SealedFrame(key, w[i], sent[w[i]]))
  }

  /** Frames written in the order `w` of their nonces: the receiver accepts the first `Progress(w)` plaintexts. */
  lemma {:induction false} FifoReceives(key: CipherKey, sent: seq<Bytes>, w: seq<nat>)
    requires |sent| < U64_LIMIT && forall i :: 0 <= i < |w| ==> w[i] < |sent|
    ensures Progress(w) <= |sent|
    ensures Receive(CipherState(Some(key), 0), Frames(key, sent, w))
         == (CipherState(Some(key), Progress(w)), sent[..Progress(w)])
    decreases |w|
  {
    hide SealedFrame, Decrypt;
    if w == [] {
      assert Frames(key, sent, w) == [];
    } else {
      var k := |w| - 1;
      FifoReceives(key, sent, w[..k]);
      assert Frames(key, sent, w)[..k] == Frames(key, sent, w[..k]);
      var n := Progress(w[..k]);
      DecryptSealed(key, n, w[k], sent[w[k]]);
      assert n < |sent| ==> sent[..n] + [sent[n]] == sent[..n + 1];
    }
  }

  /* ---------- frames of one sender, one after the other ---------- */

  function Advance(n: nat, k: nat): nat {
    if k == 0 then n else (n + k) % U64_LIMIT
  }

  lemma AdvanceOne(n: nat, k: nat)
    ensures Advance(n, 0) == n && (Advance(n, k) + 1) % U64_LIMIT == Advance(n, k + 1)
  {
  }

  /** Plaintexts sealed under consecutive nonces. */
  function SealedFrom(key: CipherKey, n: nat, plains: seq<Bytes>): (f: seq<Frame>)
    ensures |f| == |plains|
  {
    seq(|plains|, i requires 0 <= i < |plains| => SealedFrame(key, Advance(n, i), plains[i]))
  }

  lemma SealedFromNone(key: Option<CipherKey>, n: nat, plains: seq<Bytes>)
    requires plains == []
    ensures key.Some? ==> SealedFrom(key.value, n, plains) == []
  {
  }

  lemma SealedFromNext(key: CipherKey, n: nat, plains: seq<Bytes>, plain: Bytes)
    ensures SealedFrom(key, n, plains + [plain]) ==
            SealedFrom(key, n, plains) + [SealedFrame(key, Advance(n, |plains|), plain)]
  {
  }

  /** The frames on the wire after sending plaintexts one after the other: each takes a nonce, some are written. */
  function Written(key: CipherKey, n: nat, plains: seq<Bytes>, writes: seq<bool>): seq<Frame>
    requires |writes| == |plains|
    decreases |plains|
  {
    if plains == [] then [] else
    var k := |plains| - 1;
    Written(key, n, plains[..k], writes[..k])
    + (if writes[k] then [SealedFrame(key, Advance(n, k), plains[k])] else [])
  }

  /** The number of writes before the first that fails. */
  function Leading(writes: seq<bool>): (k: nat)
    ensures k <= |writes| && (forall i :: 0 <= i < k ==> writes[i]) && (k < |writes| ==> !writes[k])
  {
    if writes == [] then 0 else
    var n := |writes| - 1;
    var k := Leading(writes[..n]);
    if k == n && writes[n] then n + 1 else k
  }

  lemma LeadingNext(writes: seq<bool>)
    requires writes != []
    ensures var k := |writes| - 1;
      var l := Leading(writes[..k]);
      Leading(writes) == if l == k && writes[k] then k + 1 else l
  {
  }

  lemma LeadingIs(writes: seq<bool>, k: nat)
    requires k <= |writes| && (forall i :: 0 <= i < k ==> writes[i]) && (k < |writes| ==> !writes[k])
    ensures Leading(writes) == k
  {
    var l := Leading(writes);
  }

  /**
    A receiver in step with the sender accepts exactly what was written before the first failed
    write; one that is behind accepts nothing of it.
  */
  lemma {:induction false} GapStops(key: CipherKey, m: nat, n: nat, plains: seq<Bytes>, writes: seq<bool>)
    requires |writes| == |plains| && m <= n && n + |plains| < U64_LIMIT
    ensures Receive(CipherState(Some(key), m), Written(key, n, plains, writes)) ==
            if m == n then (CipherState(Some(key), n + Leading(writes)), plains[..Leading(writes)])
            else (CipherState(Some(key), m), [])
    decreases |plains|
  {
    hide SealedFrame, Decrypt, Receive, Written, Leading;
    if plains == [] {
      NothingReceived(key, m, n, plains, writes);
    } else {
      var k := |plains| - 1;
      GapStops(key, m, n, plains[..k], writes[..k]);
      var w := Written(key, n, plains[..k], writes[..k]);
      var l := Leading(writes[..k]);
      WrittenNext(key, n, plains, writes);
      DecryptSealed(key, if m == n then n + l else m, n + k, plains[k]);
      ReceiveNext(CipherState(Some(key), m), w, SealedFrame(key, n + k, plains[k]));
      assert plains[..k][..l] == plains[..l];
      assert l == k ==> plains[..l] + [plains[k]] == plains[..k + 1];
    }
  }

  lemma NothingReceived(key: CipherKey, m: nat, n: nat, plains: seq<Bytes>, writes: seq<bool>)
    requires plains == [] && writes == []
    ensures Receive(CipherState(Some(key), m), Written(key, n, plains, writes)) == (CipherState(Some(key), m), [])
    ensures Leading(writes) == 0
  {
  }

  lemma WrittenNext(key: CipherKey, n: nat, plains: seq<Bytes>, writes: seq<bool>)
    requires |writes| == |plains| && plains != [] && n + |plains| < U64_LIMIT
    ensures var k := |plains| - 1;
      var w, l := Written(key, n, plains[..k], writes[..k]), Leading(writes[..k]);
      && Written(key, n, plains, writes) == (if writes[k] then w + [SealedFrame(key, n + k, plains[k])] else w)
      && Leading(writes) == if l == k && writes[k] then k + 1 else l
  {
    hide SealedFrame, Advance, Leading;
    var k := |plains| - 1;
    var w := Written(key, n, plains[..k], writes[..k]);
    assert w + [] == w;
    AdvanceBelow(n, k);
    LeadingNext(writes);
  }

  lemma AdvanceBelow(n: nat, k: nat)
    requires n + k < U64_LIMIT
    ensures Advance(n, k) == n + k
  {
  }

  lemma ReceiveNext(c: CipherState, frames: seq<Frame>, f: Frame)
    ensures Receive(c, frames + [f]) ==
            var (d, got) := Receive(c, frames);
            var (e, out) := Decrypt(d, f);
            (e, if out.Some? then got + [out.value] else got)
  {
    hide Decrypt;
    assert (frames + [f])[..|frames|] == frames;
  }

  lemma {:induction false} ReceiveAppend(c: CipherState, a: seq<Frame>, b: seq<Frame>)
    ensures Receive(c, a + b) ==
            var (d, x) := Receive(c, a);
            var (e, y) := Receive(d, b);
            (e, x + y)
    decreases |b|
  {
    hide Decrypt, Receive;
    var (d, x) := Receive(c, a);
    if b == [] {
      assert a + b == a && x + [] == x;
      assert Receive(d, []) == (d, []) by { ReceiveNothing(d); }
    } else {
      var k := |b| - 1;
      ReceiveAppend(c, a, b[..k]);
      assert b == b[..k] + [b[k]] && a + b == (a + b[..k]) + [b[k]];
      ReceiveNext(c, a + b[..k], b[k]);
      ReceiveNext(d, b[..k], b[k]);
      var (e, y) := Receive(d, b[..k]);
      var out := Decrypt(e, b[k]).1;
      assert out.Some? ==> (x + y) + [out.value] == x + (y + [out.value]);
    }
  }

  lemma ReceiveNothing(c: CipherState)
    ensures Receive(c, []) == (c, [])
  {
  }

  lemma {:induction false} WrittenAll(key: CipherKey, n: nat, plains: seq<Bytes>, writes: seq<bool>)
    requires |writes| == |plains| && forall i :: 0 <= i < |writes| ==> writes[i]
    ensures Written(key, n, plains, writes) == SealedFrom(key, n, plains) && Leading(writes) == |writes|
    decreases |plains|
  {
    hide SealedFrame, SealedFrom;
    LeadingIs(writes, |writes|);
    if plains == [] {
      SealedFromNone(Some(key), n, plains);
    } else {
      var k := |plains| - 1;
      WrittenAll(key, n, plains[..k], writes[..k]);
      SealedFromNext(key, n, plains[..k], plains[k]);
      assert plains == plains[..k] + [plains[k]];
    }
  }

  /** Without a failed write, a receiver in step accepts everything. */
  lemma InStepReceives(key: CipherKey, m: nat, n: nat, plains: seq<Bytes>)
    requires m <= n && n + |plains| < U64_LIMIT
    ensures Receive(CipherState(Some(key), m), SealedFrom(key, n, plains)) ==
            if m == n then (CipherState(Some(key), n + |plains|), plains) else (CipherState(Some(key), m), [])
  {
    hide Receive, SealedFrom, Written;
    var writes := seq(|plains|, _ => true);
    WrittenAll(key, n, plains, writes);
    GapStops(key, m, n, plains, writes);
    assert plains[..|plains|] == plains;
  }

  lemma {:induction false} ProgressEmbedded(w: seq<nat>) returns (at: seq<nat>)
    ensures Embeds(UpTo(Progress(w)), w, at)
    decreases |w|
  {
    if w == [] {
      at := [];
    } else {
      var k := |w| - 1;
      at := ProgressEmbedded(w[..k]);
      if w[k] == Progress(w[..k]) {
        at := at + [k];
      }
    }
  }

  lemma {:induction false} ProgressMonotone(w: seq<nat>, k: nat)
    requires k <= |w|
    ensures Progress(w[..k]) <= Progress(w)
    decreases |w|
  {
    if k == |w| {
      assert w[..k] == w;
    } else {
      ProgressMonotone(w[..|w| - 1], k);
      assert w[..|w| - 1][..k] == w[..k];
    }
  }

  lemma {:induction false} EmbeddingBounds(w: seq<nat>, n: nat, at: seq<nat>, i: nat)
    requires Embeds(UpTo(n), w, at) && i < n
    ensures Progress(w[..at[i] + 1]) >= i + 1
  {
    var p := at[i];
    if i > 0 {
      EmbeddingBounds(w, n, at, i - 1);
      ProgressMonotone(w[..p], at[i - 1] + 1);
      assert w[..p][..at[i - 1] + 1] == w[..at[i - 1] + 1];
    }
    assert w[..p + 1][..p] == w[..p];
  }

  /**
    Exact delivery: the number of accepted frames is the length of the longest run
    0, 1, .., n - 1 that appears in order among the written nonces.
  */
  lemma ProgressIsLongestRun(w: seq<nat>, n: nat)
    ensures IsSubsequence(UpTo(n), w) <==> n <= Progress(w)
  {
    if n <= Progress(w) {
      var at := ProgressEmbedded(w);
      assert Embeds(UpTo(n), w, at[..n]);
    }
    if IsSubsequence(UpTo(n), w) && n > 0 {
      var at :| Embeds(UpTo(n), w, at);
      EmbeddingBounds(w, n, at, n - 1);
      ProgressMonotone(w, at[n - 1] + 1);
    }
  }

  /** With each frame written at most once: all are accepted iff none is missing and the order is kept. */
  lemma AllAcceptedIff(w: seq<nat>, n: nat)
    requires forall i :: 0 <= i < |w| ==> w[i] < n
    requires forall i, j :: 0 <= i < j < |w| ==> w[i] != w[j]
    ensures Progress(w) == n <==> w == UpTo(n)
  {
    if Progress(w) == n {
      DistinctBelow(w, n);
      var at := ProgressEmbedded(w);
      forall i | 0 <= i < n ensures at[i] == i {
        EmbeddingIsIdentity(at, |w|, i);
      }
    }
    if w == UpTo(n) {
      assert Embeds(UpTo(n), w, UpTo(n));
      ProgressIsLongestRun(w, n);
      assert |w| == n;
      ProgressAtMost(w);
    }
  }

  /** The same on frames: the receiver ends up with everything iff the wire kept everything in order. */
  lemma FifoDeliversAllIff(key: CipherKey, sent: seq<Bytes>, w: seq<nat>)
    requires |sent| < U64_LIMIT && forall i :: 0 <= i < |w| ==> w[i] < |sent|
    requires forall i, j :: 0 <= i < j < |w| ==> w[i] != w[j]
    ensures Receive(CipherState(Some(key), 0), Frames(key, sent, w)).1 == sent <==> w == UpTo(|sent|)
  {
    hide Receive, Frames;
    FifoReceives(key, sent, w);
    AllAcceptedIff(w, |sent|);
    assert sent[..Progress(w)] == sent <==> Progress(w) == |sent|;
  }

  lemma {:induction false} ProgressAtMost(w: seq<nat>)
    ensures Progress(w) <= |w|
    decreases |w|
  {
    if w != [] {
      ProgressAtMost(w[..|w| - 1]);
    }
  }

  /** Strictly increasing positions below their own number are consecutive. */
  lemma {:induction false} EmbeddingIsIdentity(at: seq<nat>, bound: nat, i: nat)
    requires forall i, j :: 0 <= i < j < |at| ==> at[i] < at[j]
    requires forall i :: 0 <= i < |at| ==> at[i] < bound
    requires bound <= |at| && i < |at|
    ensures at[i] == i
  {
    AtLeastIndex(at, i);
    AtMostIndex(at, bound, i);
  }

  lemma {:induction false} AtLeastIndex(at: seq<nat>, i: nat)
    requires forall i, j :: 0 <= i < j < |at| ==> at[i] < at[j]
    requires i < |at|
    ensures at[i] >= i
  {
    if i > 0 { AtLeastIndex(at, i - 1); }
  }

  lemma {:induction false} AtMostIndex(at: seq<nat>, bound: nat, i: nat)
    requires forall i, j :: 0 <= i < j < |at| ==> at[i] < at[j]
    requires forall i :: 0 <= i < |at| ==> at[i] < bound
    requires i < |at|
    ensures at[i] <= bound - |at| + i
    decreases |at| - i
  {
    if i + 1 < |at| { AtMostIndex(at, bound, i + 1); }
  }

  /** Pigeonhole: distinct numbers below `n` are at most `n` many. */
  lemma {:induction false} DistinctBelow(w: seq<nat>, n: nat)
    requires forall i :: 0 <= i < |w| ==> w[i] < n
    requires forall i, j :: 0 <= i < j < |w| ==> w[i] != w[j]
    ensures |w| <= n
  {
    SetOfDistinct(w);
    SetBelow(Elements(w), n);
  }

  ghost function Elements(w: seq<nat>): set<nat> {
    set x | x in w
  }

  lemma {:induction false} SetOfDistinct(w: seq<nat>)
    requires forall i, j :: 0 <= i < j < |w| ==> w[i] != w[j]
    ensures |Elements(w)| == |w|
  {
    if w == [] {
      assert Elements(w) == {};
    } else {
      var k := |w| - 1;
      SetOfDistinct(w[..k]);
      assert Elements(w) == Elements(w[..k]) + {w[k]};
    }
  }

  lemma {:induction false} SetBelow(s: set<nat>, n: nat)
    requires forall x :: x in s ==> x < n
    ensures |s| <= n
  {
    if n > 0 {
      SetBelow(s - {n - 1}, n - 1);
    } else {
      assert s == {};
    }
  }
}
