/**
  The node as the object the source has: it owns a message store, and sessions with one
  limiter each, and its handlers work on these objects in place. Each handler is proved to
  compute the step of the same name in `ChatNode`, up to the state a panic leaves behind.
*/
module Client {
  import opened ByteStrings
  import opened MessageCodec
  import opened Envelopes
  import opened ChatStore
  import opened ChatNode
  import RateLimiter
  import Channel = SecureChannel

  /** A session as the handlers see it; its cipher states are `SecureChannel.Session`. */
  class Conn {
    const key: Key
    const inbound: bool
    const limiter: RateLimiter.MsgLimiter
    var status: PeerStatus
    var open: bool
    var running: bool

    ghost function Value(): Session
      reads this, limiter
    {
      Session(key, inbound, status, open, running, limiter.State())
    }

    constructor (key: Key, inbound: bool, status: PeerStatus, limit: int, window: int, now: int)
      ensures Value() == Session(key, inbound, status, true, true, RateLimiter.New(limit, window, now))
      ensures fresh(limiter)
    {
      limiter := new RateLimiter.MsgLimiter(limit, window, now);
      this.key, this.inbound, this.status, open, running := key, inbound, status, true, true;
    }
  }

  function Limiters(conns: seq<Conn>): set<RateLimiter.MsgLimiter> {
    set c | c in conns :: c.limiter
  }

  ghost function Values(conns: seq<Conn>): (r: seq<Session>)
    reads conns, Limiters(conns)
    ensures |r| == |conns|
  {
    seq(|conns|, i requires 0 <= i < |conns| reads conns, Limiters(conns) => conns[i].Value())
  }

  class ChatClient {
    const self: Key
    const limit: int
    const window: int
    const store: MessageStore
    var name: Bytes
    var peers: map<Key, PeerStatus>
    var pictures: map<Key, Id>
    var sessions: map<Key, nat>
    var conns: seq<Conn>
    var connects: seq<Connect>
    var pending: map<Id, Transfer>

    /** No two sessions share an object. */
    ghost predicate Valid()
      reads this
    {
      forall i, j :: 0 <= i < j < |conns| ==> conns[i] != conns[j] && conns[i].limiter != conns[j].limiter
    }

    ghost function State(): Node
      reads this, store, conns, Limiters(conns)
    {
      Node(self, store.secret, name, limit, window, peers, pictures, sessions, Values(conns), connects, pending,
           store.State())
    }

    constructor (self: Key, secret: Key, name: Bytes, limit: int, window: int)
      ensures Valid() && fresh(store) && conns == []
      ensures State() == Node(self, secret, name, limit, window, map[], map[], map[], [], [], map[], EMPTY)
    {
      this.self, this.name, this.limit, this.window := self, name, limit, window;
      peers, pictures, sessions, conns, connects, pending := map[], map[], map[], [], [], map[];
      store := new MessageStore(secret);
    }

    /* ---------- file chunks ---------- */

    method Finalize(id: Id, t: Transfer, env: Env)
      modifies this`pending, store
      ensures State() == FinalizeFile(old(State()), id, t, env)
    {
      if t.buf != [] {
        var target := id;
        if target == NIL_ID {
          target := env.drawn;
        }
        store.PutFile(target, t.buf, env.db.rowOk);
      }
      pending := pending - {id};
    }

    method HandleFileChunk(plain: Bytes, env: Env)
      modifies this`pending, store
      ensures State() == HandleChunk(old(State()), plain, env)
    {
      if |plain| < 16 {
        return;
      }
      var id: Id := plain[..16];
      var data := plain[16..];
      if id !in pending {
        return;
      }
      var t := pending[id];
      t := t.(buf := t.buf + data);
      t := t.(received := t.received + |data|);
      if t.received >= t.meta.size {
        Finalize(id, t, env);
      } else {
        pending := pending[id := t];
      }
    }

    /* ---------- signals ---------- */

    method VerifyAndDelete(id: Id, key: Key, env: Env) returns (panicked: bool)
      modifies store
      ensures Ended(State(), panicked) == OnDelete(old(State()), id, key, env)
    {
      hide GetStep, DeleteStep;
      var r := store.Get(id);
      if r.Crashed? {
        return true;
      }
      if r.Failed? || r.value.from == NIL_KEY || key != r.value.from {
        return false;
      }
      var gone := store.Delete(id, env.db);
      panicked := gone.Crashed?;
    }

    method VerifyAndUpdate(id: Id, content: Bytes, key: Key, env: Env) returns (panicked: bool)
      modifies store
      ensures Ended(State(), panicked) == OnUpdate(old(State()), id, content, key, env)
    {
      hide GetStep, UpdateStep;
      var r := store.Get(id);
      if r.Crashed? {
        return true;
      }
      if r.Failed? || r.value.from == NIL_KEY || key != r.value.from {
        return false;
      }
      var done := store.Update(id, name, r.value.(content := content), env.clock, env.db);
      panicked := done.Crashed?;
    }

    method UpdateSession(key: Key, status: PeerStatus)
      requires Valid()
      modifies conns
      ensures State() == SetStatus(old(State()), key, status)
    {
      if key in sessions {
        var n := sessions[key];
        if n < |conns| {
          conns[n].status := status;
          assert Values(conns) == old(Values(conns))[n := old(conns[n].Value()).(status := status)];
        }
      }
    }

    method HandlePeerAccepted(key: Key)
      requires Valid()
      modifies this`peers, conns
      ensures State() == OnPeerAccepted(old(State()), key)
    {
      if key !in peers {
        return;
      }
      peers := peers[key := Accepted];
      UpdateSession(key, Accepted);
    }

    /** Messages and metadata: the two kinds of signal that carry a record to decode. */
    method StoreMessage(sig: Signal, key: Key, env: Env) returns (panicked: bool)
      modifies store
      ensures Ended(State(), panicked) == OnMessage(old(State()), sig, key, env)
    {
      hide DecodeMessage, PutStep;
      var m := ToMessage(sig.content);
      match m {
        case Malformed => return false;
        case Panicked => return true;
        case Parsed(msg, _) =>
          var r := store.Put(env.peerName, msg.(from := key), env.drawn, env.db);
          panicked := r.Crashed?;
      }
    }

    method OpenTransfer(sig: Signal) returns (panicked: bool)
      modifies this`pending
      ensures Ended(State(), panicked) == OnFileMeta(old(State()), sig)
    {
      hide DecodeFileMeta;
      match DecodeFileMeta(sig.content) {
        case Malformed => return false;
        case Panicked => return true;
        case Parsed(meta, _) =>
          pending := pending[sig.id := Transfer(meta, 0, [])];
          panicked := false;
      }
    }

    method HandleInfoResponse(content: Bytes, key: Key, env: Env) returns (panicked: bool)
      modifies this`pictures, store
      ensures Ended(State(), panicked) == OnInfoResponse(old(State()), content, key, env)
    {
      hide DecodeInfoResponse;
      panicked := false;
      match DecodeInfoResponse(content) {
        case Malformed => return;
        case Panicked => return true;
        case Parsed(r, _) =>
          if r.pic == [] || key !in peers || !env.db.rowOk {
            return;
          }
          var before := NIL_ID;
          if key in pictures {
            before := pictures[key];
          }
          store.PutFile(env.drawn, r.pic, true);
          store.DeleteFile(before, env.db.kept);
          pictures := pictures[key := env.drawn];
      }
    }

    method Dispatch(sig: Signal, key: Key, env: Env) returns (panicked: bool)
      requires Valid()
      modifies this`peers, this`pictures, this`pending, store, conns
      ensures Ended(State(), panicked) == HandleSignal(old(State()), sig, key, env)
    {
      hide KindOf, OnMessage, OnFileMeta, OnDelete, OnUpdate, OnPeerAccepted, OnInfoResponse;
      panicked := false;
      match KindOf(sig.typ) {
        case MessageKind =>
          if sig.from == key {
            panicked := StoreMessage(sig, key, env);
          }
        case FileMetaKind =>
          if sig.from == key {
            panicked := OpenTransfer(sig);
          }
        case DeleteKind =>
          if sig.from == key {
            panicked := VerifyAndDelete(sig.id, key, env);
          }
        case UpdateKind =>
          if sig.from == key {
            panicked := VerifyAndUpdate(sig.id, sig.content, key, env);
          }
        case PeerAcceptedKind =>
          HandlePeerAccepted(key);
        case InfoRequestKind =>
          var fits, _ := EncodeInfoResponse(InfoResponse(name, env.picture));
          panicked := !fits;
        case InfoResponseKind =>
          panicked := HandleInfoResponse(sig.content, key, env);
        case InfoChangedKind =>
        case KeyExchangeKind =>
        case UnknownKind =>
      }
    }

    /** A call of the session's limiter: the division by a zero limit panics. */
    method AskLimiter(n: nat, now: int) returns (panicked: bool, ok: bool)
      requires Valid() && n < |conns|
      modifies Limiters(conns)
      ensures panicked <==> old(State()).conns[n].limiter.limit == 0
      ensures panicked ==> State() == old(State())
      ensures !panicked ==>
        var s := old(State()).conns[n];
        var (b, allowed) := RateLimiter.Allow(s.limiter, now);
        ok == allowed && State() == old(State()).(conns := old(State()).conns[n := s.(limiter := b)])
    {
      hide RateLimiter.Allow;
      panicked, ok := conns[n].limiter.TryAllow(now);
      assert Values(conns) == old(Values(conns))[n := conns[n].Value()];
      if panicked {
        assert Values(conns) == old(Values(conns));
      }
    }

    method Handle(n: nat, plain: Bytes, env: Env) returns (panicked: bool)
      requires Valid() && n < |conns|
      modifies this`peers, this`pictures, this`pending, store, conns, Limiters(conns)
      ensures Ended(State(), panicked) == HandleDecrypted(old(State()), n, plain, env)
    {
      hide ParseSignal, RateLimiter.Allow, HandleSignal, HandleChunk, KindOf;
      panicked := false;
      if plain == [] {
        return;
      }
      if plain[0] != MARKER {
        HandleFileChunk(plain[1..], env);
        return;
      }
      match ParseSignal(plain) {
        case Malformed => return;
        case Panicked => return true;
        case Parsed(sig, _) =>
          var key := conns[n].key;
          if conns[n].status != Accepted {
            if Ungated(KindOf(sig.typ)) {
              panicked := Dispatch(sig, key, env);
            }
            return;
          }
          var ok;
          panicked, ok := AskLimiter(n, env.now);
          if !panicked && ok {
            panicked := Dispatch(sig, key, env);
          }
      }
    }

    /* ---------- the read loop ---------- */

    /** The deferred clean-up: the session stored under the key goes, whichever it is, and the keys are dropped. */
    method CleanUp(n: nat, sess: Channel.Session)
      requires Valid() && n < |conns|
      modifies this`sessions, conns, sess
      ensures State() == LoopEnd(old(State()), n) && !State().conns[n].running
      ensures Closed(sess) && sess.recvNonce == old(sess.recvNonce)
    {
      sessions := sessions - {conns[n].key};
      conns[n].open := false;
      conns[n].running := false;
      sess.CloseConn();
      assert Values(conns) == old(Values(conns))[n := old(conns[n].Value()).(open := false, running := false)];
    }

    /** One turn of the loop: a frame that decrypts is handled, any other is skipped. */
    method ReadFrame(n: nat, sess: Channel.Session, frame: Channel.Frame, env: Env)
      returns (plain: Option<Bytes>, panicked: bool)
      requires Valid() && n < |conns|
      modifies this`peers, this`pictures, this`pending, store, conns, Limiters(conns), sess`recvNonce
      ensures (sess.Receiver(), plain) == Channel.Decrypt(old(sess.Receiver()), frame)
      ensures plain.None? ==> State() == old(State()) && !panicked
      ensures plain.Some? ==> Ended(State(), panicked) == HandleDecrypted(old(State()), n, plain.value, env)
    {
      hide HandleDecrypted, Channel.Decrypt;
      panicked := false;
      plain := sess.DoDecrypt(frame);
      if plain.Some? {
        panicked := Handle(n, plain.value, env);
      }
    }

    /** The loop itself: it ends with the last frame, or where a handler panics. */
    method ReadFrames(n: nat, sess: Channel.Session, frames: seq<Channel.Frame>, envs: seq<Env>)
      returns (panicked: bool, read: nat)
      requires Valid() && Live(State(), n) && |envs| == |frames|
      modifies this`peers, this`pictures, this`pending, store, conns, Limiters(conns), sess`recvNonce
      ensures n < |conns| && read <= |frames| && (!panicked ==> read == |frames| && Live(State(), n))
      ensures sess.Receiver() == Channel.Receive(old(sess.Receiver()), frames[..read]).0
      ensures Run(old(State()), Deliveries(old(sess.Receiver()), n, frames[..read], envs[..read])) ==
              if !panicked then Ok(State()) else if conns[n].inbound then Ok(LoopEnd(State(), n)) else Crashed
    {
      hide HandleDecrypted, Channel.Decrypt, Channel.Receive, Run, Step, LoopEnd, Deliveries;
      ghost var start, rx := State(), sess.Receiver();
      NothingRead(start, rx, n, frames[..0], envs[..0]);
      read := 0;
      while read < |frames|
        invariant read <= |frames| && n < |conns| && Live(State(), n)
        invariant sess.Receiver() == Channel.Receive(rx, frames[..read]).0
        invariant Ok(State()) == Run(start, Deliveries(rx, n, frames[..read], envs[..read]))
      {
        ghost var here := State();
        OneMoreRead(start, rx, n, frames, envs, read, here);
        var plain;
        plain, panicked := ReadFrame(n, sess, frames[read], envs[read]);
        if plain.Some? {
          FrameStepIs(here, n, plain.value, envs[read], State(), panicked);
        }
        read := read + 1;
        if panicked {
          return;
        }
      }
      panicked := false;
    }

    /**
      `readLoop`: frames that do not decrypt are skipped, the others are handled in order, and the
      clean-up runs when reading ends or a handler panics. Unless the panic ends the process, the
      loop is a run of exactly the frames that the channel accepted, followed by its clean-up.
    */
    method ReadLoop(n: nat, sess: Channel.Session, frames: seq<Channel.Frame>, envs: seq<Env>)
      returns (crashed: bool, read: nat)
      requires Valid() && Live(State(), n) && |envs| == |frames|
      modifies this`peers, this`pictures, this`pending, this`sessions, store, conns, Limiters(conns), sess
      ensures crashed ==> !conns[n].inbound
      ensures read <= |frames| && sess.recvNonce == Channel.Receive(old(sess.Receiver()), frames[..read]).0.nonce
      ensures crashed <==> Run(old(State()), LoopEvents(old(sess.Receiver()), n, frames, envs)).Crashed?
      ensures !crashed ==> Ok(State()) == Run(old(State()), LoopEvents(old(sess.Receiver()), n, frames, envs))
      ensures !crashed ==> Closed(sess)
    {
      hide HandleDecrypted, Channel.Receive, Run, LoopEnd, Deliveries, LoopEvents;
      ghost var start, rx := State(), sess.Receiver();
      var panicked;
      panicked, read := ReadFrames(n, sess, frames, envs);
      crashed := panicked && !conns[n].inbound;
      if crashed {
        CrashEndsRun(start, rx, n, frames, envs, read);
        return;
      }
      ghost var last := State();
      CleanUp(n, sess);
      if panicked {
        ClosedEndsRun(start, rx, n, frames, envs, read, State());
      } else {
        assert frames[..|frames|] == frames && envs[..|envs|] == envs;
        LoopEndsRun(start, rx, n, frames, envs, last, State());
      }
    }

    /** The recorded status of a peer; an unknown one is recorded as pending. */
    method RecordPeer(key: Key) returns (status: PeerStatus)
      modifies this`peers
      ensures status == if key in old(peers) then old(peers)[key] else Pending
      ensures peers == if key in old(peers) then old(peers) else old(peers)[key := Pending]
    {
      status := Pending;
      if key in peers {
        status := peers[key];
      } else {
        peers := peers[key := Pending];
      }
    }

    /** A new session object with its own limiter, stored under the key. */
    method StoreSession(key: Key, inbound: bool, status: PeerStatus, now: int)
      requires Valid()
      modifies this`sessions, this`conns
      ensures Valid() && State() == Register(old(State()), key, inbound, status, now)
      ensures |conns| > 0 && conns[..|conns| - 1] == old(conns)
      ensures fresh(conns[|conns| - 1]) && fresh(conns[|conns| - 1].limiter)
    {
      hide RateLimiter.New;
      var conn := new Conn(key, inbound, status, limit, window, now);
      ghost var before := Values(conns);
      conns, sessions := conns + [conn], sessions[key := |conns|];
      assert Values(conns) == before + [conn.Value()];
    }

    /** `startSession` after the handshake: the session is stored and read to its end. */
    method StartSession(key: Key, status: PeerStatus, now: int, sess: Channel.Session, frames: seq<Channel.Frame>,
                        envs: seq<Env>)
      requires Valid() && |envs| == |frames|
      modifies this`peers, this`pictures, this`pending, this`sessions, this`conns, store, conns, Limiters(conns), sess
      ensures Valid()
      ensures Ok(State()) == Run(Register(old(State()), key, true, status, now),
                                 LoopEvents(old(sess.Receiver()), |old(conns)|, frames, envs))
    {
      hide Run, LoopEvents, Register;
      RegistersLive(State(), key, status, now);
      StoreSession(key, true, status, now);
      var crashed, _ := ReadLoop(|conns| - 1, sess, frames, envs);
    }

    /**
      `handleWS` and `startSession`, an inbound connection from its first check to the end of its
      read loop, with nothing else in between: `ok` tells whether the handshake succeeds. It never
      ends the process.
    */
    method HandleWS(key: Key, ok: bool, now: int, sess: Channel.Session, frames: seq<Channel.Frame>, envs: seq<Env>)
      requires Valid() && |envs| == |frames|
      modifies this`peers, this`pictures, this`pending, this`sessions, this`conns, store, conns, Limiters(conns), sess
      ensures Valid()
      ensures Ok(State()) == Run(old(State()), Visit(old(State()), key, ok, now, old(sess.Receiver()), frames, envs))
    {
      hide Run, LoopEvents, Visit, Register, Entered;
      ghost var start, rx := State(), sess.Receiver();
      VisitRuns(start, key, ok, now, rx, frames, envs);
      if key == self {
        return;
      }
      var status := RecordPeer(key);
      if status == Rejected || key in sessions || !ok {
        return;
      }
      EnteredIs(start, key, status, now);
      StartSession(key, status, now, sess, frames, envs);
    }
  }

  /** Whether `handleWS` goes on to the handshake. */
  predicate LetIn(c: Node, key: Key) {
    key != c.self && (key in c.peers ==> c.peers[key] != Rejected) && key !in c.sessions
  }

  /** The node when the handshake of a visitor that was let in has succeeded. */
  function Entered(c: Node, key: Key, now: int): Node {
    var status := if key in c.peers then c.peers[key] else Pending;
    Register(c.(peers := c.peers[key := status]), key, true, status, now)
  }

  lemma EnteredIs(c: Node, key: Key, status: PeerStatus, now: int)
    requires status == if key in c.peers then c.peers[key] else Pending
    ensures Entered(c, key, now) == Register(if key in c.peers then c else c.(peers := c.peers[key := Pending]),
                                             key, true, status, now)
  {
    assert key in c.peers ==> c.peers[key := c.peers[key]] == c.peers;
  }

  lemma RegistersLive(c: Node, key: Key, status: PeerStatus, now: int)
    ensures var d := Register(c, key, true, status, now);
      |d.conns| == |c.conns| + 1 && Live(d, |c.conns|) && d.conns[|c.conns|].inbound
  {
  }

  /** The events of an inbound connection. */
  function Visit(c: Node, key: Key, ok: bool, now: int, rx: Channel.CipherState, frames: seq<Channel.Frame>,
                 envs: seq<Env>): seq<Event>
    requires |envs| == |frames|
  {
    var loop := if ok then LoopEvents(rx, |c.conns|, frames, envs) else [];
    [BeginEvent(key)] + if LetIn(c, key) then [FinishEvent(|c.connects|, ok, now)] + loop else []
  }

  lemma VisitRuns(c: Node, key: Key, ok: bool, now: int, rx: Channel.CipherState, frames: seq<Channel.Frame>,
                  envs: seq<Env>)
    requires |envs| == |frames|
    ensures var known := if key == c.self || key in c.peers then c else c.(peers := c.peers[key := Pending]);
      Run(c, Visit(c, key, ok, now, rx, frames, envs)) ==
      if LetIn(c, key) && ok then Run(Entered(c, key, now), LoopEvents(rx, |c.conns|, frames, envs)) else Ok(known)
  {
    hide Run, Step, LoopEvents, RateLimiter.New;
    BeginThenFinish(c, key, ok, now);
    var e, f := BeginEvent(key), FinishEvent(|c.connects|, ok, now);
    var rest := if ok then LoopEvents(rx, |c.conns|, frames, envs) else [];
    if LetIn(c, key) {
      RunCons(c, e, [f] + rest);
      RunCons(Step(c, e).value, f, rest);
      RunNone(Step(Step(c, e).value, f).value);
    } else {
      RunCons(c, e, []);
      RunNone(Step(c, e).value);
    }
  }

  lemma BeginThenFinish(c: Node, key: Key, ok: bool, now: int)
    ensures var known := if key == c.self || key in c.peers then c else c.(peers := c.peers[key := Pending]);
      && Step(c, BeginEvent(key)).Ok?
      && (!LetIn(c, key) ==> Step(c, BeginEvent(key)).value == known)
      && (LetIn(c, key) ==>
            Step(Step(c, BeginEvent(key)).value, FinishEvent(|c.connects|, ok, now)) ==
            Ok(if ok then Entered(c, key, now) else known))
  {
    hide FrameStep, SendStep, LocalUpdate, LocalDelete, RateLimiter.New;
    if LetIn(c, key) {
      var d := BeginInbound(c, key);
      var k := |c.connects|;
      assert d.connects[..k] + d.connects[k + 1..] == c.connects;
      assert key in c.peers ==> c.peers[key := c.peers[key]] == c.peers;
    }
  }

  /** The session's keys are gone and its connection is closed. */
  ghost predicate Closed(sess: Channel.Session)
    reads sess
  {
    sess.sendKey == None && sess.recvKey == None && !sess.conn
  }

  /** The frame events of the frames that decrypt, in order. */
  function Deliveries(rx: Channel.CipherState, n: nat, frames: seq<Channel.Frame>, envs: seq<Env>): seq<Event>
    requires |envs| == |frames|
    decreases |frames|
  {
    if frames == [] then [] else
    var k := |frames| - 1;
    var out := Channel.Decrypt(Channel.Receive(rx, frames[..k]).0, frames[k]).1;
    Deliveries(rx, n, frames[..k], envs[..k]) + (if out.Some? then [FrameEvent(n, out.value, envs[k])] else [])
  }

  function LoopEvents(rx: Channel.CipherState, n: nat, frames: seq<Channel.Frame>, envs: seq<Env>): seq<Event>
    requires |envs| == |frames|
  {
    Deliveries(rx, n, frames, envs) + [LoopEndEvent(n)]
  }

  /** They carry exactly the plaintexts that the channel accepted. */
  lemma {:induction false} DeliveriesCarry(rx: Channel.CipherState, n: nat, frames: seq<Channel.Frame>, envs: seq<Env>)
    requires |envs| == |frames|
    ensures var ev, got := Deliveries(rx, n, frames, envs), Channel.Receive(rx, frames).1;
      |ev| == |got| && forall i :: 0 <= i < |ev| ==> ev[i].FrameEvent? && ev[i].n == n && ev[i].plain == got[i]
    decreases |frames|
  {
    hide Channel.Decrypt;
    if frames != [] {
      var k := |frames| - 1;
      DeliveriesCarry(rx, n, frames[..k], envs[..k]);
    }
  }

  lemma NothingRead(c: Node, rx: Channel.CipherState, n: nat, frames: seq<Channel.Frame>, envs: seq<Env>)
    requires frames == [] && envs == []
    ensures Channel.Receive(rx, frames).0 == rx && Run(c, Deliveries(rx, n, frames, envs)) == Ok(c)
  {
  }

  /** One more frame read: the channel's state, and the run, after it. */
  lemma OneMoreRead(c: Node, rx: Channel.CipherState, n: nat, frames: seq<Channel.Frame>, envs: seq<Env>, i: nat,
                    d: Node)
    requires |envs| == |frames| && i < |frames| && Run(c, Deliveries(rx, n, frames[..i], envs[..i])) == Ok(d)
    ensures var (next, out) := Channel.Decrypt(Channel.Receive(rx, frames[..i]).0, frames[i]);
      && Channel.Receive(rx, frames[..i + 1]).0 == next
      && Run(c, Deliveries(rx, n, frames[..i + 1], envs[..i + 1])) ==
         if out.Some? then Step(d, FrameEvent(n, out.value, envs[i])) else Ok(d)
  {
    hide Channel.Decrypt, Run, Step;
    assert frames[..i + 1][..i] == frames[..i] && envs[..i + 1][..i] == envs[..i];
    var out := Channel.Decrypt(Channel.Receive(rx, frames[..i]).0, frames[i]).1;
    var before := Deliveries(rx, n, frames[..i], envs[..i]);
    if out.Some? {
      var e := FrameEvent(n, out.value, envs[i]);
      RunAppend(c, before, [e]);
      RunOne(d, e);
    } else {
      assert before + [] == before;
    }
  }

  lemma FrameStepIs(c: Node, n: nat, plain: Bytes, env: Env, d: Node, panicked: bool)
    requires Live(c, n) && Ended(d, panicked) == HandleDecrypted(c, n, plain, env)
    ensures Step(c, FrameEvent(n, plain, env)) ==
            if !panicked then Ok(d) else if c.conns[n].inbound then Ok(LoopEnd(d, n)) else Crashed
    ensures n < |d.conns| && d.conns[n].inbound == c.conns[n].inbound && Live(d, n)
  {
    hide HandleDecrypted, LoopEnd;
    FramePeers(c, n, plain, env);
  }

  /** A run that ended the process is not continued by later frames. */
  lemma CrashEndsRun(c: Node, rx: Channel.CipherState, n: nat, frames: seq<Channel.Frame>, envs: seq<Env>, k: nat)
    requires |envs| == |frames| && k <= |frames|
    requires Run(c, Deliveries(rx, n, frames[..k], envs[..k])).Crashed?
    ensures Run(c, LoopEvents(rx, n, frames, envs)).Crashed?
  {
    hide Step, Run, Deliveries;
    var rest := DeliveriesGrow(rx, n, frames, envs, k);
    RunAppend(c, Deliveries(rx, n, frames[..k], envs[..k]), rest);
    RunAppend(c, Deliveries(rx, n, frames, envs), [LoopEndEvent(n)]);
  }

  lemma {:induction false} DeliveriesGrow(rx: Channel.CipherState, n: nat, frames: seq<Channel.Frame>, envs: seq<Env>,
                                          k: nat) returns (rest: seq<Event>)
    requires |envs| == |frames| && k <= |frames|
    ensures Deliveries(rx, n, frames, envs) == Deliveries(rx, n, frames[..k], envs[..k]) + rest
    ensures forall i :: 0 <= i < |rest| ==> rest[i].FrameEvent? && rest[i].n == n
    decreases |frames|
  {
    hide Channel.Decrypt, Channel.Receive;
    if k == |frames| {
      assert frames[..k] == frames && envs[..k] == envs;
      rest := [];
    } else {
      var j := |frames| - 1;
      assert frames[..j][..k] == frames[..k] && envs[..j][..k] == envs[..k];
      rest := DeliveriesGrow(rx, n, frames[..j], envs[..j], k);
      var out := Channel.Decrypt(Channel.Receive(rx, frames[..j]).0, frames[j]).1;
      rest := rest + if out.Some? then [FrameEvent(n, out.value, envs[j])] else [];
    }
  }

  /** Frames for a session that has ended do nothing. */
  lemma {:induction false} DeadFramesDoNothing(c: Node, n: nat, events: seq<Event>)
    requires !Live(c, n) && forall i :: 0 <= i < |events| ==> events[i].FrameEvent? && events[i].n == n
    ensures Run(c, events) == Ok(c)
    decreases |events|
  {
    hide HandleDecrypted;
    if events != [] {
      DeadFramesDoNothing(c, n, events[1..]);
    }
  }

  /** After a recovered panic, later frames and the clean-up that already ran change nothing. */
  lemma ClosedEndsRun(c: Node, rx: Channel.CipherState, n: nat, frames: seq<Channel.Frame>, envs: seq<Env>, k: nat,
                      d: Node)
    requires |envs| == |frames| && k <= |frames| && n < |d.conns| && !d.conns[n].running
    requires Run(c, Deliveries(rx, n, frames[..k], envs[..k])) == Ok(d)
    ensures Run(c, LoopEvents(rx, n, frames, envs)) == Ok(d)
  {
    hide Run, Deliveries;
    var rest := DeliveriesGrow(rx, n, frames, envs, k);
    RunAppend(c, Deliveries(rx, n, frames[..k], envs[..k]), rest);
    DeadFramesDoNothing(d, n, rest);
    RunAppend(c, Deliveries(rx, n, frames, envs), [LoopEndEvent(n)]);
    RunOne(d, LoopEndEvent(n));
  }

  lemma LoopEndsRun(c: Node, rx: Channel.CipherState, n: nat, frames: seq<Channel.Frame>, envs: seq<Env>, d: Node,
                    e: Node)
    requires |envs| == |frames| && Live(d, n) && e == LoopEnd(d, n)
    requires Run(c, Deliveries(rx, n, frames, envs)) == Ok(d)
    ensures Run(c, LoopEvents(rx, n, frames, envs)) == Ok(e)
  {
    hide Run, Deliveries, LoopEnd;
    RunAppend(c, Deliveries(rx, n, frames, envs), [LoopEndEvent(n)]);
    RunOne(d, LoopEndEvent(n));
  }
}
