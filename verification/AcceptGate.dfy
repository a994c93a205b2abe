/**
  The acceptance gate: what a peer's frame can change depends on the status of its session
  at that moment. Chunks are not gated, so files are traced back to the file metadata that
  opened their transfer.
*/
module AcceptGate {
  import opened ByteStrings
  import opened MessageCodec
  import opened Envelopes
  import opened ChatStore
  import opened ChatNode
  import opened Authorship
  import RateLimiter

  /** A frame changes stored messages only on an accepted session, with the limiter's consent. */
  lemma MessagesNeedAcceptance(c: Node, e: Event)
    requires Sane(c) && e.FrameEvent? && Step(c, e).Ok? && Sane(Step(c, e).value)
    requires Chats(Step(c, e).value) != Chats(c)
    ensures Live(c, e.n) && c.conns[e.n].status == Accepted
    ensures c.conns[e.n].limiter.limit != 0 && RateLimiter.Allow(c.conns[e.n].limiter, e.env.now).1
  {
    hide Sane, Chats, Step, RateLimiter.Allow, ParseSignal;
    StepChanges(c, e);
    assert Admitted(c, e).Some?;
  }

  /** The transfer that an admitted file-metadata signal opens. */
  function OpenedBy(c: Node, e: Event): Option<Id> {
    var sig := Admitted(c, e);
    if sig.None? || KindOf(sig.value.typ) != FileMetaKind then None
    else if sig.value.from != c.conns[e.n].key || !DecodeFileMeta(sig.value.content).Parsed? then None
    else Some(sig.value.id)
  }

  /** The transfer that a chunk frame names. */
  function ChunkId(e: Event): Option<Id> {
    if e.FrameEvent? && |e.plain| >= 17 && e.plain[0] != MARKER then Some(e.plain[1..17]) else None
  }

  /** An open transfer continues an earlier one: same metadata, more data. */
  predicate Continues(t: Transfer, u: Transfer) {
    u.meta == t.meta && t.buf <= u.buf
  }

  ghost predicate TransfersStep(c: Node, d: Node, e: Event) {
    && (forall id :: id in d.pending && OpenedBy(c, e) != Some(id) ==>
          id in c.pending && Continues(c.pending[id], d.pending[id]))
    && (ChunkId(e).Some? && d.store.files != c.store.files ==> ChunkId(e).value in c.pending)
  }

  lemma SignalTransfers(c: Node, sig: Signal, key: Key, env: Env)
    ensures var d := HandleSignal(c, sig, key, env).node;
      || d.pending == c.pending
      || (&& KindOf(sig.typ) == FileMetaKind && sig.from == key && DecodeFileMeta(sig.content).Parsed?
          && d.pending == c.pending[sig.id := Transfer(DecodeFileMeta(sig.content).value, 0, [])])
  {
    hide KindOf, DecodeFileMeta, HandleSignal;
    SignalTouches(c, sig, key, env);
  }

  lemma ChunkTransfers(c: Node, plain: Bytes, env: Env)
    ensures var d := HandleChunk(c, plain, env);
      && (forall id :: id in d.pending ==> id in c.pending && Continues(c.pending[id], d.pending[id]))
      && (d.store.files != c.store.files ==> |plain| >= 16 && plain[..16] in c.pending)
  {
  }

  /** Without a file-metadata signal that passed the gate, a step opens and resets no transfer. */
  lemma TransfersNeedAcceptance(c: Node, e: Event)
    requires Step(c, e).Ok?
    ensures TransfersStep(c, Step(c, e).value, e)
    ensures OpenedBy(c, e).Some? ==> Live(c, e.n) && c.conns[e.n].status == Accepted
  {
    hide ParseSignal, RateLimiter.Allow, HandleDecrypted, KindOf, DecodeFileMeta;
    if e.FrameEvent? {
      hide Step, FrameStep;
      FrameStepTransfers(c, e.n, e.plain, e.env);
    } else if e.SendEvent? || e.UpdateEvent? || e.DeleteEvent? || e.ExpireEvent? {
      hide Step;
      StoreEventTouches(c, e);
    } else {
      hide Step;
      ConnectionsKeepStore(c, e);
    }
  }

  lemma FrameStepTransfers(c: Node, n: nat, plain: Bytes, env: Env)
    ensures Step(c, FrameEvent(n, plain, env)) == FrameStep(c, n, plain, env)
    ensures FrameStep(c, n, plain, env).Ok? ==>
      TransfersStep(c, FrameStep(c, n, plain, env).value, FrameEvent(n, plain, env))
  {
    hide HandleDecrypted, OpenedBy;
    if Live(c, n) {
      FrameTransfers(c, n, plain, env);
    }
  }

  lemma FrameTransfers(c: Node, n: nat, plain: Bytes, env: Env)
    requires Live(c, n)
    ensures TransfersStep(c, HandleDecrypted(c, n, plain, env).node, FrameEvent(n, plain, env))
  {
    hide ParseSignal, RateLimiter.Allow, HandleSignal, HandleChunk, KindOf, DecodeFileMeta;
    var s := c.conns[n];
    if plain == [] {
    } else if plain[0] != MARKER {
      ChunkTransfers(c, plain[1..], env);
      assert |plain| >= 17 ==> plain[1..][..16] == plain[1..17];
    } else if ParseSignal(plain).Parsed? {
      var sig := ParseSignal(plain).value;
      if s.status != Accepted {
        if Ungated(KindOf(sig.typ)) {
          SignalTransfers(c, sig, s.key, env);
        }
      } else if s.limiter.limit != 0 {
        var (b, ok) := RateLimiter.Allow(s.limiter, env.now);
        if ok {
          SignalTransfers(c.(conns := c.conns[n := s.(limiter := b)]), sig, s.key, env);
        }
      }
    }
  }

  /** The identifiers whose metadata passed the gate in a run. */
  ghost function GatedIds(c: Node, events: seq<Event>): set<Id>
    decreases |events|
  {
    if events == [] then {} else
    var here := if OpenedBy(c, events[0]).Some? then {OpenedBy(c, events[0]).value} else {};
    match Step(c, events[0])
    case Ok(d) => here + GatedIds(d, events[1..])
    case _ => here
  }

  lemma {:induction false} OpenTransfersWereGated(c: Node, events: seq<Event>)
    requires Run(c, events).Ok?
    ensures Run(c, events).value.pending.Keys <= c.pending.Keys + GatedIds(c, events)
    decreases |events|
  {
    hide Step, OpenedBy;
    if events != [] {
      TransfersNeedAcceptance(c, events[0]);
      OpenTransfersWereGated(Step(c, events[0]).value, events[1..]);
    }
  }

  /**
    In every run that starts without open transfers: a chunk changes the file table only if
    metadata for its identifier has passed the gate before.
  */
  lemma FilesNeedAcceptance(c: Node, events: seq<Event>, e: Event)
    requires c.pending == map[] && Run(c, events).Ok? && ChunkId(e).Some?
    requires var d := Run(c, events).value;
      Step(d, e).Ok? && Step(d, e).value.store.files != d.store.files
    ensures ChunkId(e).value in GatedIds(c, events)
  {
    hide Step, Run, GatedIds, ChunkId;
    OpenTransfersWereGated(c, events);
    TransfersNeedAcceptance(Run(c, events).value, e);
  }

  /** A delete by the author of a message, or a picture from a known peer, with the signal handled. */
  predicate TouchesFiles(c: Node, sig: Signal, key: Key) {
    || (KindOf(sig.typ) == DeleteKind && sig.from == key)
    || (KindOf(sig.typ) == InfoResponseKind && key in c.peers)
  }

  lemma SignalFiles(c: Node, sig: Signal, key: Key, env: Env)
    ensures HandleSignal(c, sig, key, env).node.store.files != c.store.files ==> TouchesFiles(c, sig, key)
  {
    hide KindOf, OnDelete, OnMessage, OnUpdate, DecodeFileMeta, DecodeInfoResponse;
    MessageFiles(c, sig, key, env);
    UpdateFiles(c, sig.id, sig.content, key, env);
  }

  lemma MessageFiles(c: Node, sig: Signal, key: Key, env: Env)
    ensures OnMessage(c, sig, key, env).node.store.files == c.store.files
  {
    hide DecodeMessage, PutStep;
    if DecodeMessage(sig.content).Parsed? {
      PutKeepsFiles(c.store, c.secret, env.peerName, DecodeMessage(sig.content).value.(from := key), env.drawn, env.db);
    }
  }

  lemma UpdateFiles(c: Node, id: Id, content: Bytes, key: Key, env: Env)
    ensures OnUpdate(c, id, content, key, env).node.store.files == c.store.files
  {
    hide GetStep, UpdateStep;
    GetKeepsFiles(c.store, c.secret, id);
    var (d, r) := VerifyAuthor(c, id, key);
    if r.Ok? {
      UpdateKeepsFiles(d.store, d.secret, id, d.name, r.value.(content := content), env.clock, env.db);
    }
  }

  /**
    Every way in which a frame changes the file table: a chunk of an open transfer, an admitted
    delete, or a picture of a known peer. The last needs no acceptance.
  */
  lemma FilesChangeBy(c: Node, e: Event)
    requires e.FrameEvent? && Step(c, e).Ok? && Step(c, e).value.store.files != c.store.files
    ensures Live(c, e.n)
    ensures || (ChunkId(e).Some? && ChunkId(e).value in c.pending)
            || (Handled(c, e).Some? && TouchesFiles(c, Handled(c, e).value, c.conns[e.n].key))
  {
    hide ParseSignal, RateLimiter.Allow, HandleSignal, HandleChunk, KindOf;
    var s := c.conns[e.n];
    if e.plain == [] {
    } else if e.plain[0] != MARKER {
      ChunkTransfers(c, e.plain[1..], e.env);
      assert |e.plain| >= 17 ==> e.plain[1..][..16] == e.plain[1..17];
    } else if ParseSignal(e.plain).Parsed? {
      var sig := ParseSignal(e.plain).value;
      if s.status != Accepted {
        SignalFiles(c, sig, s.key, e.env);
      } else if s.limiter.limit != 0 {
        SignalFiles(c.(conns := c.conns[e.n := s.(limiter := RateLimiter.Allow(s.limiter, e.env.now).0)]),
                    sig, s.key, e.env);
      }
    }
  }

  /* ---------- how the gate opens ---------- */

  /** The peer says that it accepted us, on a session that still reads frames. */
  predicate PeerAccepts(c: Node, e: Event) {
    && e.FrameEvent? && Live(c, e.n) && ParseSignal(e.plain).Parsed?
    && KindOf(ParseSignal(e.plain).value.typ) == PeerAcceptedKind && c.conns[e.n].key in c.peers
  }

  /** The registered session of a key is session `n`. */
  predicate Registered(c: Node, key: Key, n: nat) {
    key in c.sessions && c.sessions[key] == n
  }

  /** The peer's acceptance reaches its handler: before our session is accepted, or admitted by its limiter. */
  predicate PeerSays(c: Node, e: Event) {
    PeerAccepts(c, e) && (c.conns[e.n].status != Accepted || Admitted(c, e).Some?)
  }

  lemma SignalOpensIff(c: Node, sig: Signal, key: Key, env: Env, n: nat)
    requires n < |c.conns| && c.conns[n].status != Accepted
    ensures var d := HandleSignal(c, sig, key, env).node;
      && |d.conns| == |c.conns|
      && (d.conns[n].status == Accepted <==>
            KindOf(sig.typ) == PeerAcceptedKind && key in c.peers && Registered(c, key, n))
  {
    hide KindOf, DecodeFileMeta, HandleSignal;
    SignalTouches(c, sig, key, env);
  }

  lemma FrameOpensIff(c: Node, k: nat, plain: Bytes, env: Env, n: nat)
    requires Live(c, k) && n < |c.conns| && c.conns[n].status != Accepted
    ensures var d := HandleDecrypted(c, k, plain, env).node;
      && |d.conns| == |c.conns|
      && (d.conns[n].status == Accepted <==>
            PeerSays(c, FrameEvent(k, plain, env)) && Registered(c, c.conns[k].key, n))
  {
    hide ParseSignal, RateLimiter.Allow, HandleSignal, HandleChunk, KindOf;
    ParseSignalTotal(plain);
    if plain == [] {
      return;
    }
    if plain[0] != MARKER {
      ChunkKeepsConns(c, plain[1..], env);
      return;
    }
    if !ParseSignal(plain).Parsed? {
      return;
    }
    var sig, s := ParseSignal(plain).value, c.conns[k];
    if s.status != Accepted {
      SignalOpensIff(c, sig, s.key, env, n);
    } else if s.limiter.limit != 0 {
      var (b, ok) := RateLimiter.Allow(s.limiter, env.now);
      SignalOpensIff(c.(conns := c.conns[k := s.(limiter := b)]), sig, s.key, env, n);
    }
  }

  lemma ChunkKeepsConns(c: Node, plain: Bytes, env: Env)
    ensures HandleChunk(c, plain, env).conns == c.conns && HandleChunk(c, plain, env).peers == c.peers
  {
  }

  /**
    How the gate opens: a session becomes accepted exactly by an admin accept, or by an acceptance
    of its peer that is handled, while it is the registered session of that key.
  */
  lemma GateOpensIff(c: Node, e: Event, n: nat)
    requires Step(c, e).Ok? && n < |c.conns| && c.conns[n].status != Accepted
    ensures n < |Step(c, e).value.conns|
    ensures Step(c, e).value.conns[n].status == Accepted <==>
            || (e.AcceptEvent? && Registered(c, e.key, n))
            || (PeerSays(c, e) && Registered(c, c.conns[e.n].key, n))
  {
    hide HandleDecrypted, SendStep, LocalUpdate, LocalDelete, BeginInbound, FinishInbound, Dial, LoopEnd, Disconnect,
      AdminAccept, AdminReject, PeerSays;
    SaysOnLive(c, e);
    match e {
      case FrameEvent(k, plain, env) =>
        if Live(c, k) {
          FrameOpensIff(c, k, plain, env, n);
          EndKeepsStatus(HandleDecrypted(c, k, plain, env).node, k, n);
        }
      case BeginEvent(k) => BeginKeepsConns(c, k);
      case FinishEvent(i, ok, now) => if i < |c.connects| { ConnectKeepsStatus(c, i, ok, now, n); }
      case DialEvent(k, now) => DialKeepsStatus(c, k, now, n);
      case LoopEndEvent(k) => EndKeepsStatus(c, k, n);
      case DisconnectEvent(k) => DisconnectStatus(c, k, n);
      case AcceptEvent(k) => AcceptStatus(c, k, n);
      case RejectEvent(k) => DisconnectStatus(c, k, n);
      case RenameEvent(_) =>
      case _ => StoreEventTouches(c, e);
    }
  }

  lemma BeginKeepsConns(c: Node, key: Key)
    ensures BeginInbound(c, key).conns == c.conns
  {
  }

  lemma ConnectKeepsStatus(c: Node, i: nat, ok: bool, now: int, n: nat)
    requires i < |c.connects| && n < |c.conns|
    ensures var d := FinishInbound(c, i, ok, now); n < |d.conns| && d.conns[n] == c.conns[n]
  {
    hide RateLimiter.New;
  }

  lemma DialKeepsStatus(c: Node, key: Key, now: int, n: nat)
    requires n < |c.conns|
    ensures var d := Dial(c, key, now); n < |d.conns| && d.conns[n] == c.conns[n]
  {
    hide RateLimiter.New;
  }

  lemma EndKeepsStatus(c: Node, k: nat, n: nat)
    requires n < |c.conns|
    ensures var d := LoopEnd(c, k); n < |d.conns| && d.conns[n].status == c.conns[n].status
  {
  }

  lemma AcceptStatus(c: Node, key: Key, n: nat)
    requires n < |c.conns|
    ensures var d := AdminAccept(c, key);
      n < |d.conns| && d.conns[n].status == if Registered(c, key, n) then Accepted else c.conns[n].status
  {
  }

  lemma DisconnectStatus(c: Node, key: Key, n: nat)
    requires n < |c.conns|
    ensures var d := Disconnect(c, key); n < |d.conns| && d.conns[n].status == c.conns[n].status
    ensures var d := AdminReject(c, key); n < |d.conns| && d.conns[n].status == c.conns[n].status
  {
  }

  lemma SaysOnLive(c: Node, e: Event)
    ensures PeerSays(c, e) ==> e.FrameEvent? && Live(c, e.n)
  {
    hide ParseSignal, KindOf, Admitted;
  }

  /**
    A successful handshake adds one session with a full limiter and with the status its peer had
    when it was let in; it is the registered one from then on.
  */
  lemma FinishRegisters(c: Node, i: nat, ok: bool, now: int)
    requires i < |c.connects|
    ensures Step(c, FinishEvent(i, ok, now)).Ok?
    ensures var d, s := Step(c, FinishEvent(i, ok, now)).value, c.connects[i];
      && d == c.(conns := d.conns, sessions := d.sessions, connects := c.connects[..i] + c.connects[i + 1..])
      && d.conns == c.conns + (if ok then [NewSession(c, s.key, true, s.status, now)] else [])
      && d.sessions == if ok then c.sessions[s.key := |c.conns|] else c.sessions
  {
    hide FrameStep, SendStep;
  }

  /**
    Dialling adds a session exactly to a valid other key without one: pending for an unknown peer,
    whose record becomes accepted, and with the peer's record for a known one.
  */
  lemma DialRegisters(c: Node, key: Key, now: int)
    ensures Step(c, DialEvent(key, now)).Ok?
    ensures var d, fits := Step(c, DialEvent(key, now)).value, key != c.self && key != NIL_KEY;
      var status := if key in c.peers then c.peers[key] else Pending;
      && d == c.(conns := d.conns, sessions := d.sessions, peers := d.peers)
      && d.peers == (if fits && key !in c.peers then c.peers[key := Accepted] else c.peers)
      && d.conns == c.conns + (if fits && key !in c.sessions then [NewSession(c, key, false, status, now)] else [])
      && d.sessions == if fits && key !in c.sessions then c.sessions[key := |c.conns|] else c.sessions
  {
    hide FrameStep, SendStep;
  }

  /** A live session whose limiter is full and starts counting now. */
  function NewSession(c: Node, key: Key, inbound: bool, status: PeerStatus, now: int): Session {
    Session(key, inbound, status, true, true, RateLimiter.Bucket(c.limit, c.window, c.limit, now))
  }

  /**
    Sessions begin only by these two events, and then with the status of the peer: the recorded one
    when the peer was let in or dialled, and pending for an unknown peer.
  */
  lemma NewSessionStatus(c: Node, e: Event)
    requires Step(c, e).Ok?
    ensures var d := Step(c, e).value;
      if e.FinishEvent? && e.i < |c.connects| && e.ok then
        var p := c.connects[e.i];
        d.conns == c.conns + [NewSession(c, p.key, true, p.status, e.now)] && Registered(d, p.key, |c.conns|)
      else if e.DialEvent? && e.key != c.self && e.key != NIL_KEY && e.key !in c.sessions then
        var status := if e.key in c.peers then c.peers[e.key] else Pending;
        d.conns == c.conns + [NewSession(c, e.key, false, status, e.now)] && Registered(d, e.key, |c.conns|)
      else |d.conns| == |c.conns|
  {
    hide HandleDecrypted, SendStep, LocalUpdate, LocalDelete, FinishInbound, Dial, NewSession;
    match e {
      case FrameEvent(n, plain, env) => if Live(c, n) { FramePeers(c, n, plain, env); }
      case FinishEvent(i, ok, now) => if i < |c.connects| { FinishRegisters(c, i, ok, now); }
      case DialEvent(key, now) => DialRegisters(c, key, now);
      case SendEvent(_, _, _) => StoreEventTouches(c, e);
      case UpdateEvent(_, _, _) => StoreEventTouches(c, e);
      case DeleteEvent(_, _) => StoreEventTouches(c, e);
      case _ =>
    }
  }

  lemma BeginRegisters(c: Node, key: Key)
    ensures var d := Step(c, BeginEvent(key));
      d.Ok? && d.value == c.(connects := d.value.connects, peers := d.value.peers)
  {
    hide FrameStep, SendStep;
  }

  /**
    A handshake starts exactly when another peer connects that is not rejected and has no session;
    it carries the status the peer has then, and an unknown peer is recorded as pending.
  */
  lemma NewConnectStatus(c: Node, e: Event)
    requires Step(c, e).Ok?
    ensures var d := Step(c, e).value;
      if e.BeginEvent? && e.key != c.self && e.key !in c.sessions && (e.key in c.peers ==> c.peers[e.key] != Rejected)
      then
        var status := if e.key in c.peers then c.peers[e.key] else Pending;
        && d.connects == c.connects + [Connect(e.key, status)]
        && d.peers == c.peers[e.key := status]
      else |d.connects| <= |c.connects|
  {
    hide HandleDecrypted, SendStep, LocalUpdate, LocalDelete, RateLimiter.New;
    match e {
      case FrameEvent(n, plain, env) => if Live(c, n) { FramePeers(c, n, plain, env); }
      case SendEvent(_, _, _) => StoreEventTouches(c, e);
      case UpdateEvent(_, _, _) => StoreEventTouches(c, e);
      case DeleteEvent(_, _) => StoreEventTouches(c, e);
      case BeginEvent(key) => assert key in c.peers ==> c.peers[key := c.peers[key]] == c.peers;
      case _ =>
    }
  }

  /** A known peer that is not rejected and has no session gets one, with its recorded status. */
  lemma KnownPeerConnects(c: Node, key: Key, now: int)
    requires key != c.self && key in c.peers && c.peers[key] != Rejected && key !in c.sessions
    ensures var d := Step(c, BeginEvent(key));
      && d.Ok? && var e := Step(d.value, FinishEvent(|c.connects|, true, now));
      && e.Ok? && e.value == c.(sessions := c.sessions[key := |c.conns|],
                                conns := c.conns + [NewSession(c, key, true, c.peers[key], now)])
  {
    hide Step, FinishInbound;
    BeginRegisters(c, key);
    var d := Step(c, BeginEvent(key)).value;
    NewConnectStatus(c, BeginEvent(key));
    FinishRegisters(d, |c.connects|, true, now);
    assert d.connects[..|c.connects|] + d.connects[|c.connects| + 1..] == c.connects;
    assert c.peers[key := c.peers[key]] == c.peers;
  }

  /** Before acceptance a signal of any type but four changes nothing. */
  lemma GatedTypesDoNothing(c: Node, n: nat, sig: Signal, env: Env)
    requires Live(c, n) && c.conns[n].status != Accepted && SignalFits(sig)
    requires sig.typ != INFO_REQUEST && sig.typ != INFO_RESPONSE && sig.typ != INFO_CHANGED && sig.typ != PEER_ACCEPTED
    ensures Step(c, FrameEvent(n, SignalBytes(sig), env)) == Ok(c)
  {
    hide ParseSignal, SignalBytes, HandleSignal, HandleChunk, RateLimiter.Allow;
    SignalRoundTrip(sig, []);
    assert SignalBytes(sig) + [] == SignalBytes(sig);
    ParseSignalTotal(SignalBytes(sig));
  }

  /* ---------- where acceptance comes from, over whole runs ---------- */

  /** The peer that an event vouches for: an admin accept, a first dial, or the peer's own acceptance. */
  function Voucher(c: Node, e: Event): set<Key> {
    if e.AcceptEvent? then {e.key}
    else if e.DialEvent? && e.key !in c.peers && e.key != c.self && e.key != NIL_KEY then {e.key}
    else if PeerSays(c, e) then {c.conns[e.n].key}
    else {}
  }

  predicate RecordAccepted(c: Node, key: Key) {
    key in c.peers && c.peers[key] == Accepted
  }

  lemma SignalRecords(c: Node, sig: Signal, key: Key, env: Env)
    ensures HandleSignal(c, sig, key, env).node.peers ==
            if KindOf(sig.typ) == PeerAcceptedKind && key in c.peers then c.peers[key := Accepted] else c.peers
  {
    hide KindOf, DecodeFileMeta, HandleSignal;
    SignalTouches(c, sig, key, env);
  }

  lemma FrameRecords(c: Node, k: nat, plain: Bytes, env: Env)
    requires Live(c, k)
    ensures HandleDecrypted(c, k, plain, env).node.peers ==
            if PeerSays(c, FrameEvent(k, plain, env)) then c.peers[c.conns[k].key := Accepted] else c.peers
  {
    hide ParseSignal, RateLimiter.Allow, HandleSignal, HandleChunk, KindOf;
    ParseSignalTotal(plain);
    if plain != [] && plain[0] != MARKER {
      ChunkKeepsConns(c, plain[1..], env);
    } else if ParseSignal(plain).Parsed? {
      var sig, s := ParseSignal(plain).value, c.conns[k];
      if s.status != Accepted {
        SignalRecords(c, sig, s.key, env);
      } else if s.limiter.limit != 0 {
        var b := RateLimiter.Allow(s.limiter, env.now).0;
        SignalRecords(c.(conns := c.conns[k := s.(limiter := b)]), sig, s.key, env);
      }
    }
  }

  /** A peer's record becomes accepted exactly by an event that vouches for it; an accept needs a record. */
  lemma RecordOpensIff(c: Node, e: Event, key: Key)
    requires Step(c, e).Ok? && !RecordAccepted(c, key)
    ensures RecordAccepted(Step(c, e).value, key) <==> key in Voucher(c, e) && (e.AcceptEvent? ==> key in c.peers)
  {
    hide HandleDecrypted, SendStep, LocalUpdate, LocalDelete, BeginInbound, FinishInbound, Dial, LoopEnd, Disconnect,
      AdminAccept, PeerSays;
    SaysOnLive(c, e);
    match e {
      case FrameEvent(n, plain, env) =>
        if Live(c, n) {
          FrameRecords(c, n, plain, env);
          LoopEndKeepsRecords(HandleDecrypted(c, n, plain, env).node, n);
        }
      case BeginEvent(k) => BeginRecords(c, k);
      case DialEvent(k, now) => DialRecords(c, k, now);
      case LoopEndEvent(n) => LoopEndKeepsRecords(c, n);
      case AcceptEvent(k) => AcceptRecords(c, k);
      case FinishEvent(i, ok, now) => if i < |c.connects| { FinishKeepsRecords(c, i, ok, now); }
      case DisconnectEvent(k) => DisconnectKeepsRecords(c, k);
      case RejectEvent(k) =>
        DisconnectKeepsRecords(if k in c.peers then c.(peers := c.peers[k := Rejected]) else c, k);
      case SendEvent(_, _, _) => StoreEventTouches(c, e);
      case UpdateEvent(_, _, _) => StoreEventTouches(c, e);
      case DeleteEvent(_, _) => StoreEventTouches(c, e);
      case ExpireEvent(_) => StoreEventTouches(c, e);
      case _ =>
    }
  }

  lemma BeginRecords(c: Node, key: Key)
    ensures BeginInbound(c, key).peers ==
            if key == c.self || key in c.peers then c.peers else c.peers[key := Pending]
  {
  }

  lemma DialRecords(c: Node, key: Key, now: int)
    ensures Dial(c, key, now).peers ==
            if key == c.self || key == NIL_KEY || key in c.peers then c.peers else c.peers[key := Accepted]
  {
    hide RateLimiter.New;
  }

  lemma AcceptRecords(c: Node, key: Key)
    ensures AdminAccept(c, key).peers == if key in c.peers then c.peers[key := Accepted] else c.peers
  {
  }

  lemma LoopEndKeepsRecords(c: Node, n: nat)
    ensures LoopEnd(c, n).peers == c.peers
  {
  }

  lemma FinishKeepsRecords(c: Node, i: nat, ok: bool, now: int)
    requires i < |c.connects|
    ensures FinishInbound(c, i, ok, now).peers == c.peers
  {
  }

  lemma DisconnectKeepsRecords(c: Node, key: Key)
    ensures Disconnect(c, key).peers == c.peers
  {
  }

  ghost function Vouched(c: Node, events: seq<Event>): set<Key>
    decreases |events|
  {
    if events == [] then {} else
    Voucher(c, events[0]) + match Step(c, events[0]) case Ok(d) => Vouched(d, events[1..]) case _ => {}
  }

  /** Sessions are registered under their own keys, and whatever is accepted belongs to one of the given keys. */
  ghost predicate Traced(c: Node, keys: set<Key>) {
    && (forall k :: k in c.sessions ==> c.sessions[k] < |c.conns| && c.conns[c.sessions[k]].key == k)
    && (forall k :: k in c.peers && c.peers[k] == Accepted ==> k in keys)
    && (forall i :: 0 <= i < |c.connects| && c.connects[i].status == Accepted ==> c.connects[i].key in keys)
    && (forall n :: 0 <= n < |c.conns| && c.conns[n].status == Accepted ==> c.conns[n].key in keys)
  }

  lemma TracedGrows(c: Node, d: Node, keys: set<Key>, more: set<Key>)
    requires Traced(c, keys) && keys <= more
    requires d.sessions == c.sessions && d.peers == c.peers && d.connects == c.connects && d.conns == c.conns
    ensures Traced(d, more)
  {
  }

  lemma TracedStatus(c: Node, key: Key, keys: set<Key>)
    requires Traced(c, keys) && key in keys
    ensures Traced(SetStatus(c, key, Accepted), keys)
  {
  }

  lemma TracedAcceptance(c: Node, key: Key, keys: set<Key>)
    requires Traced(c, keys) && key in keys
    ensures Traced(OnPeerAccepted(c, key), keys) && Traced(AdminAccept(c, key), keys)
  {
    hide SetStatus;
    TracedStatus(c, key, keys);
    var d := c.(peers := c.peers[key := Accepted]);
    assert Traced(d, keys);
    TracedStatus(d, key, keys);
  }

  lemma TracedBegin(c: Node, key: Key, keys: set<Key>)
    requires Traced(c, keys)
    ensures Traced(BeginInbound(c, key), keys)
  {
  }

  lemma TracedFinish(c: Node, i: nat, ok: bool, now: int, keys: set<Key>)
    requires Traced(c, keys) && i < |c.connects|
    ensures Traced(FinishInbound(c, i, ok, now), keys)
  {
    hide RateLimiter.New;
    var d := FinishInbound(c, i, ok, now);
    forall j | 0 <= j < |d.connects| ensures d.connects[j] == c.connects[if j < i then j else j + 1] {
    }
  }

  lemma TracedDial(c: Node, key: Key, now: int, keys: set<Key>)
    requires Traced(c, keys) && (key in c.peers || key == c.self || key == NIL_KEY || key in keys)
    ensures Traced(Dial(c, key, now), keys)
  {
    hide RateLimiter.New;
  }

  lemma TracedLoopEnd(c: Node, n: nat, keys: set<Key>)
    requires Traced(c, keys)
    ensures Traced(LoopEnd(c, n), keys)
  {
  }

  lemma TracedDisconnect(c: Node, key: Key, keys: set<Key>)
    requires Traced(c, keys)
    ensures Traced(Disconnect(c, key), keys) && Traced(AdminReject(c, key), keys)
  {
    var d := if key in c.peers then c.(peers := c.peers[key := Rejected]) else c;
    assert Traced(d, keys);
  }

  lemma TracedSignal(c: Node, sig: Signal, key: Key, env: Env, keys: set<Key>)
    requires Traced(c, keys) && (KindOf(sig.typ) == PeerAcceptedKind && key in c.peers ==> key in keys)
    ensures Traced(HandleSignal(c, sig, key, env).node, keys)
  {
    hide KindOf, HandleSignal, DecodeFileMeta, Traced, SetStatus;
    SignalTouches(c, sig, key, env);
    var d := HandleSignal(c, sig, key, env).node;
    if KindOf(sig.typ) == PeerAcceptedKind {
      if key in c.peers { TracedAcceptance(c, key, keys); }
    } else {
      TracedGrows(c, d, keys, keys);
    }
  }

  lemma TracedLimiter(c: Node, n: nat, b: RateLimiter.Bucket, keys: set<Key>)
    requires Traced(c, keys) && n < |c.conns|
    ensures Traced(c.(conns := c.conns[n := c.conns[n].(limiter := b)]), keys)
  {
  }

  lemma TracedFrame(c: Node, n: nat, plain: Bytes, env: Env, keys: set<Key>)
    requires Live(c, n) && Traced(c, keys) && (PeerSays(c, FrameEvent(n, plain, env)) ==> c.conns[n].key in keys)
    ensures Traced(HandleDecrypted(c, n, plain, env).node, keys)
  {
    hide ParseSignal, RateLimiter.Allow, HandleSignal, HandleChunk, KindOf, Traced;
    var s := c.conns[n];
    if plain == [] {
    } else if plain[0] != MARKER {
      TracedChunk(c, plain[1..], env, keys);
    } else if ParseSignal(plain).Parsed? {
      var sig := ParseSignal(plain).value;
      if s.status != Accepted {
        TracedSignal(c, sig, s.key, env, keys);
      } else if s.limiter.limit != 0 {
        var (b, ok) := RateLimiter.Allow(s.limiter, env.now);
        TracedLimiter(c, n, b, keys);
        if ok { TracedSignal(c.(conns := c.conns[n := s.(limiter := b)]), sig, s.key, env, keys); }
      }
    }
  }

  lemma TracedChunk(c: Node, plain: Bytes, env: Env, keys: set<Key>)
    requires Traced(c, keys)
    ensures Traced(HandleChunk(c, plain, env), keys)
  {
    hide Traced;
    TracedGrows(c, HandleChunk(c, plain, env), keys, keys);
  }

  lemma TracedStep(c: Node, e: Event, keys: set<Key>)
    requires Traced(c, keys) && Step(c, e).Ok?
    ensures Traced(Step(c, e).value, keys + Voucher(c, e))
  {
    hide Traced, HandleDecrypted, SendStep, LocalUpdate, LocalDelete, BeginInbound, FinishInbound, Dial, LoopEnd,
      Disconnect, AdminAccept, AdminReject, PeerSays;
    var more := keys + Voucher(c, e);
    TracedGrows(c, c, keys, more);
    match e {
      case FrameEvent(n, plain, env) =>
        if Live(c, n) {
          TracedFrame(c, n, plain, env, more);
          TracedLoopEnd(HandleDecrypted(c, n, plain, env).node, n, more);
        }
      case BeginEvent(k) => TracedBegin(c, k, more);
      case FinishEvent(i, ok, now) => if i < |c.connects| { TracedFinish(c, i, ok, now, more); }
      case DialEvent(k, now) => TracedDial(c, k, now, more);
      case LoopEndEvent(n) => TracedLoopEnd(c, n, more);
      case DisconnectEvent(k) => TracedDisconnect(c, k, more);
      case AcceptEvent(k) => TracedAcceptance(c, k, more);
      case RejectEvent(k) => TracedDisconnect(c, k, more);
      case RenameEvent(_) => TracedGrows(c, Step(c, e).value, keys, more);
      case _ =>
        StoreEventTouches(c, e);
        TracedGrows(c, Step(c, e).value, keys, more);
    }
  }

  lemma {:induction false} TracedRun(c: Node, events: seq<Event>, keys: set<Key>)
    requires Traced(c, keys) && Run(c, events).Ok?
    ensures Traced(Run(c, events).value, keys + Vouched(c, events))
    decreases |events|
  {
    hide Step, Traced, Voucher;
    if events == [] {
      assert keys + Vouched(c, events) == keys;
    } else {
      TracedStep(c, events[0], keys);
      var d := Step(c, events[0]).value;
      TracedRun(d, events[1..], keys + Voucher(c, events[0]));
      assert keys + Voucher(c, events[0]) + Vouched(d, events[1..]) == keys + Vouched(c, events);
    }
  }

  /**
    From a node without peers, in every run: a session is accepted only if an earlier event
    vouched for its peer by an admin accept, a first dial, or an acceptance of the peer's own that
    was handled. Each of these does open the gate (`GateOpensIff`, `RecordOpensIff`).
  */
  lemma AcceptanceHasSource(c: Node, events: seq<Event>, n: nat)
    requires c.peers == map[] && c.sessions == map[] && c.conns == [] && c.connects == [] && Run(c, events).Ok?
    requires n < |Run(c, events).value.conns| && Run(c, events).value.conns[n].status == Accepted
    ensures Run(c, events).value.conns[n].key in Vouched(c, events)
  {
    hide Run, Vouched;
    assert Traced(c, {});
    TracedRun(c, events, {});
    assert {} + Vouched(c, events) == Vouched(c, events);
  }

  /** A stranger's visit: it connects and then sends us a `peer_accepted` signal. */
  function StrangerVisit(key: Key, env: Env): seq<Event> {
    [BeginEvent(key), FinishEvent(0, true, 0),
     FrameEvent(0, SignalBytes(Signal(PEER_ACCEPTED, key, NIL_ID, [])), env)]
  }

  /**
    The third source is real: nobody accepted or dialled the stranger, and its session and
    record end up accepted by its own word.
  */
  lemma StrangerAcceptsItself(c: Node, key: Key, env: Env)
    requires c.peers == map[] && c.sessions == map[] && c.conns == [] && c.connects == [] && key != c.self
    ensures var r := Run(c, StrangerVisit(key, env));
      && r.Ok? && Live(r.value, 0) && r.value.conns[0].key == key && r.value.conns[0].status == Accepted
      && r.value.peers == map[key := Accepted]
  {
    hide FrameStep, SendStep, RateLimiter.New, SignalBytes, Run;
    var ev := StrangerVisit(key, env);
    var c1 := BeginInbound(c, key);
    assert c1 == c.(peers := map[key := Pending], connects := [Connect(key, Pending)]);
    var c2 := FinishInbound(c1, 0, true, 0);
    var s := Session(key, true, Pending, true, true, RateLimiter.New(c.limit, c.window, 0));
    assert c2 == c1.(connects := [], sessions := map[key := 0], conns := [s]);
    OwnWordAccepts(c2, key, env);
    var c3 := c2.(peers := map[key := Accepted], conns := [s.(status := Accepted)]);
    assert Step(c2, ev[2]) == Ok(c3);
    assert ev == [ev[0], ev[1], ev[2]];
    RunThree(c, ev[0], ev[1], ev[2]);
  }

  lemma OwnWordAccepts(c: Node, key: Key, env: Env)
    requires c.peers == map[key := Pending] && c.sessions == map[key := 0] && |c.conns| == 1
    requires Live(c, 0) && c.conns[0].key == key && c.conns[0].status == Pending
    ensures FrameStep(c, 0, SignalBytes(Signal(PEER_ACCEPTED, key, NIL_ID, [])), env) ==
            Ok(c.(peers := map[key := Accepted], conns := [c.conns[0].(status := Accepted)]))
  {
    hide SignalBytes, ParseSignal, KindOf;
    var sig := Signal(PEER_ACCEPTED, key, NIL_ID, []);
    SignalRoundTrip(sig, []);
    assert SignalBytes(sig) + [] == SignalBytes(sig);
    ParseSignalTotal(SignalBytes(sig));
    KindOfTypeName(PeerAcceptedKind);
    assert c.peers[key := Accepted] == map[key := Accepted];
    assert c.conns[0 := c.conns[0].(status := Accepted)] == [c.conns[0].(status := Accepted)];
  }
}
