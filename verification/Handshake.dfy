/**
  The key exchange that opens a session. Signatures and key agreement are parameters:
  `verify` decides a signature under a public key and `agree` computes the shared secret
  from our ephemeral secret and the peer's ephemeral key, or fails on a bad key.
*/
module Handshake {
  import opened ByteStrings
  import opened Envelopes
  import opened SecureChannel

  datatype Primitives = Primitives(
    verify: (Key, Bytes, Bytes) -> bool,
    agree: (Bytes, Key) -> Option<Bytes>)

  /** Our side of one handshake: identity, name, and the ephemeral key pair with its signature. */
  datatype Offer = Offer(identity: Key, name: Bytes, secret: Bytes, ephemeral: Key, signature: Bytes)

  datatype Established = Established(sender: CipherState, receiver: CipherState, peerKey: Key, peerName: Bytes)

  /** The bytes of `doSend`. */
  function Hello(o: Offer): Bytes {
    SignalBytes(Signal(KEY_EXCHANGE, o.identity, NIL_ID,
                       KeyExchangeBytes(KeyExchange(o.ephemeral, o.identity, o.name, o.signature))))
  }

  /** `doRecv`: the envelope's sender overrides the identity inside unless it is the zero key. */
  function ReadHello(raw: Bytes): Option<KeyExchange> {
    match ParseSignal(raw)
    case Malformed => None
    case Panicked => None
    case Parsed(sig, _) =>
      if sig.typ != KEY_EXCHANGE then None else
      match DecodeKeyExchange(sig.content)
      case Malformed => None
      case Panicked => None
      case Parsed(d, _) => Some(if sig.from != NIL_KEY then d.(identity := sig.from) else d)
  }

  /** `verifyPeer`. */
  predicate PeerOk(p: Primitives, self: Key, d: KeyExchange) {
    d.identity != NIL_KEY && d.identity != self && p.verify(d.identity, d.ephemeral, d.signature)
  }

  /** `handshake` from the received bytes on. */
  function Finish(p: Primitives, o: Offer, initiator: bool, raw: Bytes): Option<Established> {
    match ReadHello(raw)
    case None => None
    case Some(d) =>
      if !PeerOk(p, o.identity, d) then None else
      match p.agree(o.secret, d.ephemeral)
      case None => None
      case Some(shared) =>
        var (s, r) := DeriveKeys(shared, initiator);
        Some(Established(s, r, d.identity, d.name))
  }

  /** An offer that the source can encode, signed by its own identity. */
  ghost predicate Honest(p: Primitives, o: Offer) {
    && |o.name| < U16_LIMIT && |o.signature| < U16_LIMIT
    && o.identity != NIL_KEY && p.verify(o.identity, o.ephemeral, o.signature)
  }

  /** The hello names our identity twice, in its envelope and inside, and carries our ephemeral key. */
  lemma HelloNames(o: Offer)
    requires |o.name| < U16_LIMIT && |o.signature| < U16_LIMIT
    ensures ParseSignal(Hello(o)).Parsed?
    ensures var sig := ParseSignal(Hello(o)).value;
      && sig.typ == KEY_EXCHANGE && sig.from == o.identity && DecodeKeyExchange(sig.content).Parsed?
      && DecodeKeyExchange(sig.content).value == KeyExchange(o.ephemeral, o.identity, o.name, o.signature)
  {
    hide SignalBytes, KeyExchangeBytes, ParseSignal, DecodeKeyExchange, At;
    var d := KeyExchange(o.ephemeral, o.identity, o.name, o.signature);
    var b := KeyExchangeBytes(d);
    var sig := Signal(KEY_EXCHANGE, o.identity, NIL_ID, b);
    SignalRoundTrip(sig, []);
    assert SignalBytes(sig) + [] == SignalBytes(sig);
    AtSelf(b);
    DecodeKeyExchangeIff(b, d, |b|);
  }

  lemma ReadHelloOfHello(o: Offer)
    requires |o.name| < U16_LIMIT && |o.signature| < U16_LIMIT
    ensures ReadHello(Hello(o)) == Some(KeyExchange(o.ephemeral, o.identity, o.name, o.signature))
  {
    hide Hello, ParseSignal, DecodeKeyExchange;
    HelloNames(o);
  }

  /**
    Two honest parties with different identities and a commuting key agreement both finish,
    learn each other's identity and name, and hold mirrored cipher states at nonce zero;
    the two directions use different keys.
  */
  lemma HandshakeAgrees(p: Primitives, a: Offer, b: Offer)
    requires Honest(p, a) && Honest(p, b) && a.identity != b.identity
    requires p.agree(a.secret, b.ephemeral).Some? && p.agree(a.secret, b.ephemeral) == p.agree(b.secret, a.ephemeral)
    ensures Finish(p, a, true, Hello(b)).Some? && Finish(p, b, false, Hello(a)).Some?
    ensures var x, y := Finish(p, a, true, Hello(b)).value, Finish(p, b, false, Hello(a)).value;
      && x.sender == y.receiver && x.receiver == y.sender
      && x.sender.nonce == 0 && x.receiver.nonce == 0 && x.sender.key != x.receiver.key
      && (x.peerKey, x.peerName) == (b.identity, b.name)
      && (y.peerKey, y.peerName) == (a.identity, a.name)
  {
    hide Hello, ReadHello;
    ReadHelloOfHello(a);
    ReadHelloOfHello(b);
  }

  /** Signatures of this identity that verify are those of its own offers. */
  ghost predicate Unforged(p: Primitives, identity: Key, offers: set<Offer>) {
    forall ephemeral: Key, signature: Bytes :: p.verify(identity, ephemeral, signature) ==>
      exists o :: o in offers && o.identity == identity && o.ephemeral == ephemeral
  }

  /** Two established sessions that use each other's keys. */
  predicate Mirrored(x: Established, y: Established) {
    x.sender == y.receiver && x.receiver == y.sender
  }

  /**
    Authentication: whatever bytes the network handed over, a finished handshake shares its
    keys with an offer that the named identity made itself, and with that offer the identity
    would end up mirrored. The peer's name is not covered by the signature.
  */
  lemma FinishAuthenticates(p: Primitives, a: Offer, initiator: bool, raw: Bytes, offers: set<Offer>)
    requires Honest(p, a) && Finish(p, a, initiator, raw).Some?
    requires Unforged(p, Finish(p, a, initiator, raw).value.peerKey, offers)
    requires forall o :: o in offers ==> p.agree(a.secret, o.ephemeral) == p.agree(o.secret, a.ephemeral)
    ensures var x := Finish(p, a, initiator, raw).value;
      exists o :: o in offers && o.identity == x.peerKey
        && Finish(p, o, !initiator, Hello(a)).Some? && Mirrored(x, Finish(p, o, !initiator, Hello(a)).value)
  {
    hide Hello, ReadHello;
    var d := ReadHello(raw).value;
    assert p.verify(d.identity, d.ephemeral, d.signature);
    var o :| o in offers && o.identity == d.identity && o.ephemeral == d.ephemeral;
    ReadHelloOfHello(a);
    assert p.agree(o.secret, a.ephemeral) == p.agree(a.secret, o.ephemeral);
    assert Mirrored(Finish(p, a, initiator, raw).value, Finish(p, o, !initiator, Hello(a)).value);
  }

  /**
    What is read from a peer's signal, whatever follows it: nothing unless it is a key exchange
    that decodes, and then its fields, with the envelope's sender as the identity unless it is
    the zero key.
  */
  lemma HelloIsRead(typ: Bytes, from: Key, id: Id, d: KeyExchange, extra: Bytes, tail: Bytes)
    requires |typ| < U16_LIMIT && |d.name| < U16_LIMIT && |d.signature| < U16_LIMIT
    requires |KeyExchangeBytes(d) + extra| < U32_LIMIT
    ensures var read := ReadHello(SignalBytes(Signal(typ, from, id, KeyExchangeBytes(d) + extra)) + tail);
      if typ != KEY_EXCHANGE then read == None
      else read == Some(KeyExchange(d.ephemeral, if from == NIL_KEY then d.identity else from, d.name, d.signature))
  {
    hide SignalBytes, KeyExchangeBytes, ParseSignal, DecodeKeyExchange, At;
    var b := KeyExchangeBytes(d);
    SignalRoundTrip(Signal(typ, from, id, b + extra), tail);
    assert At(b + extra, 0, b) by { AtFront(b, extra); }
    DecodeKeyExchangeIff(b + extra, d, |b|);
  }

  lemma AtFront(b: Bytes, extra: Bytes)
    ensures At(b + extra, 0, b)
  {
    assert (b + extra)[0..|b|] == b;
  }

  /**
    A handshake finishes exactly if the bytes read name an identity that is neither the zero key nor
    our own, whose signature covers the ephemeral key, and the key agreement succeeds. It reports
    that identity and the name sent with it.
  */
  lemma FinishIff(p: Primitives, o: Offer, initiator: bool, raw: Bytes)
    ensures Finish(p, o, initiator, raw).Some? <==>
            && ReadHello(raw).Some?
            && var d := ReadHello(raw).value;
               && d.identity != NIL_KEY && d.identity != o.identity
               && p.verify(d.identity, d.ephemeral, d.signature) && p.agree(o.secret, d.ephemeral).Some?
    ensures Finish(p, o, initiator, raw).Some? ==>
      var x, d := Finish(p, o, initiator, raw).value, ReadHello(raw).value;
      x.peerKey == d.identity && x.peerName == d.name
  {
    hide ReadHello;
  }

  /** Our own offer sent back to us is refused, under any envelope of the zero key or our own. */
  lemma ReflectionRefused(p: Primitives, o: Offer, initiator: bool, envelope: Key, tail: Bytes)
    requires |o.name| < U16_LIMIT && |o.signature| < U16_LIMIT && (envelope == NIL_KEY || envelope == o.identity)
    ensures Finish(p, o, initiator, SignalBytes(Signal(KEY_EXCHANGE, envelope, NIL_ID,
              KeyExchangeBytes(KeyExchange(o.ephemeral, o.identity, o.name, o.signature)))) + tail) == None
  {
    hide SignalBytes, KeyExchangeBytes, ReadHello;
    var d := KeyExchange(o.ephemeral, o.identity, o.name, o.signature);
    assert KeyExchangeBytes(d) + [] == KeyExchangeBytes(d);
    HelloFits(d);
    HelloIsRead(KEY_EXCHANGE, envelope, NIL_ID, d, [], tail);
  }

  lemma HelloFits(d: KeyExchange)
    requires |d.name| < U16_LIMIT && |d.signature| < U16_LIMIT
    ensures |KeyExchangeBytes(d)| < U32_LIMIT
  {
  }
}
