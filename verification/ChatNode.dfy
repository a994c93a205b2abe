/**
  The chat node: peers and their status, sessions, open file transfers and the message
  store, driven by events. A frame event is one decrypted frame on one session, handled
  as one step; so is a connect, an admin request and the clean-up of a read loop. A Go
  panic ends the process only where nothing recovers it: the HTTP server recovers panics
  of its requests, and an inbound session is read inside the request that opened it.
*/
module ChatNode {
  import opened ByteStrings
  import opened MessageCodec
  import opened Envelopes
  import opened ChatStore
  import RateLimiter

  /* ---------- state ---------- */

  datatype PeerStatus = Pending | Accepted | Rejected

  /**
    A session object. `inbound` tells whether the peer connected to us, `open` that its keys
    are installed, `running` that its read loop has not ended. It lives on after it has left
    the session table.
  */
  datatype Session = Session(
    key: Key, inbound: bool, status: PeerStatus, open: bool, running: bool, limiter: RateLimiter.Bucket)

  datatype Transfer = Transfer(meta: FileMeta, received: nat, buf: Bytes)

  /** A passed status check whose handshake has not finished. */
  datatype Connect = Connect(key: Key, status: PeerStatus)

  /** `pictures` holds, for each peer record with a profile picture, the file it is stored in. */
  datatype Node = Node(
    self: Key, secret: Key, name: Bytes, limit: int, window: int,
    peers: map<Key, PeerStatus>,
    pictures: map<Key, Id>,
    sessions: map<Key, nat>,
    conns: seq<Session>,
    connects: seq<Connect>,
    pending: map<Id, Transfer>,
    store: Store)

  /**
    What one step draws from its surroundings: the monotonic clock in nanoseconds, the wall
    clock, a random identifier, the display name of the peer, our profile picture as the file
    table returns it, and whether writes succeed.
  */
  datatype Env = Env(now: int, clock: Int64, drawn: Id, peerName: Bytes, picture: Bytes, db: Db)

  /** How a handler ends, with the state it leaves: it returns, or a Go panic unwinds it. */
  datatype Outcome = Returned(node: Node) | Panicking(node: Node)

  function Ended(c: Node, panics: bool): Outcome {
    if panics then Panicking(c) else Returned(c)
  }

  /* ---------- frames ---------- */

  /** `verifyAuthor`: the stored message, if the key wrote it. */
  function VerifyAuthor(c: Node, id: Id, key: Key): (Node, Result<Message>) {
    var (s, r) := GetStep(c.store, c.secret, id);
    var d := c.(store := s);
    if r.Ok? && (r.value.from == NIL_KEY || key != r.value.from) then (d, Failed) else (d, r)
  }

  function OnMessage(c: Node, sig: Signal, key: Key, env: Env): Outcome {
    match DecodeMessage(sig.content)
    case Malformed => Returned(c)
    case Panicked => Panicking(c)
    case Parsed(m, _) =>
      var (s, r) := PutStep(c.store, c.secret, env.peerName, m.(from := key), env.drawn, env.db);
      Ended(c.(store := s), r.Crashed?)
  }

  function OnFileMeta(c: Node, sig: Signal): Outcome {
    match DecodeFileMeta(sig.content)
    case Malformed => Returned(c)
    case Panicked => Panicking(c)
    case Parsed(meta, _) => Returned(c.(pending := c.pending[sig.id := Transfer(meta, 0, [])]))
  }

  function OnDelete(c: Node, id: Id, key: Key, env: Env): Outcome {
    var (d, r) := VerifyAuthor(c, id, key);
    if !r.Ok? then Ended(d, r.Crashed?) else
    var (s, r') := DeleteStep(d.store, d.secret, id, env.db);
    Ended(d.(store := s), r'.Crashed?)
  }

  function OnUpdate(c: Node, id: Id, content: Bytes, key: Key, env: Env): Outcome {
    var (d, r) := VerifyAuthor(c, id, key);
    if !r.Ok? then Ended(d, r.Crashed?) else
    var (s, r') := UpdateStep(d.store, d.secret, id, d.name, r.value.(content := content), env.clock, env.db);
    Ended(d.(store := s), r'.Crashed?)
  }

  /** `handleInfoRequest`: encoding our own name and picture panics if they do not fit. */
  function OnInfoRequest(c: Node, env: Env): Outcome {
    Ended(c, !InfoFits(InfoResponse(c.name, env.picture)))
  }

  function SetStatus(c: Node, key: Key, status: PeerStatus): Node {
    if key in c.sessions && c.sessions[key] < |c.conns| then
      var n := c.sessions[key];
      c.(conns := c.conns[n := c.conns[n].(status := status)])
    else c
  }

  function OnPeerAccepted(c: Node, key: Key): Node {
    if key !in c.peers then c else SetStatus(c.(peers := c.peers[key := Accepted]), key, Accepted)
  }

  /**
    `handleInfoResponse`: a known peer's picture goes to the file table under a drawn identifier
    and its earlier picture is deleted. Its name is not modelled.
  */
  function OnInfoResponse(c: Node, content: Bytes, key: Key, env: Env): Outcome {
    match DecodeInfoResponse(content)
    case Malformed => Returned(c)
    case Panicked => Panicking(c)
    case Parsed(r, _) =>
      if r.pic == [] || key !in c.peers || !env.db.rowOk then Returned(c) else
      var before: Id := if key in c.pictures then c.pictures[key] else NIL_ID;
      var files := c.store.files[env.drawn := r.pic] - ({before} - env.db.kept);
      Returned(c.(store := c.store.(files := files), pictures := c.pictures[key := env.drawn]))
  }

  /** `handleSignal`. A change of the peer's info only makes us ask for it. */
  function HandleSignal(c: Node, sig: Signal, key: Key, env: Env): Outcome {
    match KindOf(sig.typ)
    case MessageKind => if sig.from != key then Returned(c) else OnMessage(c, sig, key, env)
    case FileMetaKind => if sig.from != key then Returned(c) else OnFileMeta(c, sig)
    case DeleteKind => if sig.from != key then Returned(c) else OnDelete(c, sig.id, key, env)
    case UpdateKind => if sig.from != key then Returned(c) else OnUpdate(c, sig.id, sig.content, key, env)
    case PeerAcceptedKind => Returned(OnPeerAccepted(c, key))
    case InfoRequestKind => OnInfoRequest(c, env)
    case InfoResponseKind => OnInfoResponse(c, sig.content, key, env)
    case InfoChangedKind => Returned(c)
    case KeyExchangeKind => Returned(c)
    case UnknownKind => Returned(c)
  }

  /** `finalizeFile`: the buffer becomes a file, unless it is empty or the write fails; the transfer closes. */
  function FinalizeFile(c: Node, id: Id, t: Transfer, env: Env): Node {
    var target := if id == NIL_ID then env.drawn else id;
    var files := if t.buf == [] || !env.db.rowOk then c.store.files else c.store.files[target := t.buf];
    c.(pending := c.pending - {id}, store := c.store.(files := files))
  }

  /** `handleFileChunk`, on the frame without its leading byte. */
  function HandleChunk(c: Node, plain: Bytes, env: Env): Node {
    if |plain| < 16 then c else
    var id: Id := plain[..16];
    var data := plain[16..];
    if id !in c.pending then c else
    var t := c.pending[id];
    var u := t.(received := t.received + |data|, buf := t.buf + data);
    if u.received >= u.meta.size then FinalizeFile(c, id, u, env) else c.(pending := c.pending[id := u])
  }

  /** Signals a session may send before it is accepted. */
  predicate Ungated(k: Kind) {
    k.InfoRequestKind? || k.InfoResponseKind? || k.InfoChangedKind? || k.PeerAcceptedKind?
  }

  /** `handleDecrypted` for session number `n`. */
  function HandleDecrypted(c: Node, n: nat, plain: Bytes, env: Env): Outcome
    requires n < |c.conns|
  {
    var s := c.conns[n];
    if plain == [] then Returned(c)
    else if plain[0] != MARKER then Returned(HandleChunk(c, plain[1..], env))
    else
      match ParseSignal(plain)
      case Malformed => Returned(c)
      case Panicked => Panicking(c)
      case Parsed(sig, _) =>
        if s.status != Accepted then
          if Ungated(KindOf(sig.typ)) then HandleSignal(c, sig, s.key, env) else Returned(c)
        else if s.limiter.limit == 0 then Panicking(c)
        else
          var (b, ok) := RateLimiter.Allow(s.limiter, env.now);
          var d := c.(conns := c.conns[n := s.(limiter := b)]);
          if ok then HandleSignal(d, sig, s.key, env) else Returned(d)
  }

  /* ---------- local requests ---------- */

  /** The storing half of `sendMessageToPeer` and `sendMessage`; a failed write is only logged. */
  function LocalSend(c: Node, m: Message, env: Env): Outcome {
    var (s, r) := PutStep(c.store, c.secret, c.name, m.(from := c.self), env.drawn, env.db);
    Ended(c.(store := s), r.Crashed?)
  }

  /** `getOwnedMessage`. */
  function OwnedMessage(c: Node, id: Id): (Node, Result<Message>) {
    var (s, r) := GetStep(c.store, c.secret, id);
    var d := c.(store := s);
    if r.Ok? && r.value.from != c.self then (d, Failed) else (d, r)
  }

  function LocalUpdate(c: Node, id: Id, content: Bytes, env: Env): Outcome {
    var (d, r) := OwnedMessage(c, id);
    if !r.Ok? then Ended(d, r.Crashed?)
    else if content == [] then Returned(d)
    else
      var (s, r') := UpdateStep(d.store, d.secret, id, d.name, r.value.(content := content), env.clock, env.db);
      Ended(d.(store := s), r'.Crashed?)
  }

  function LocalDelete(c: Node, id: Id, env: Env): Outcome {
    var (d, r) := OwnedMessage(c, id);
    if !r.Ok? then Ended(d, r.Crashed?) else
    var (s, r') := DeleteStep(d.store, d.secret, id, env.db);
    Ended(d.(store := s), r'.Crashed?)
  }

  /* ---------- connections ---------- */

  /** `handleWS` up to the upgrade: a new peer is recorded as pending, a rejected or connected one is refused. */
  function BeginInbound(c: Node, key: Key): Node {
    if key == c.self then c else
    var status := if key in c.peers then c.peers[key] else Pending;
    var d := if key in c.peers then c else c.(peers := c.peers[key := Pending]);
    if status == Rejected || key in d.sessions then d
    else d.(connects := d.connects + [Connect(key, status)])
  }

  function Register(c: Node, key: Key, inbound: bool, status: PeerStatus, now: int): Node {
    c.(sessions := c.sessions[key := |c.conns|],
       conns := c.conns + [Session(key, inbound, status, true, true, RateLimiter.New(c.limit, c.window, now))])
  }

  /** The rest of `startSession`: the handshake ends and, if it succeeded, the session is stored. */
  function FinishInbound(c: Node, i: nat, ok: bool, now: int): Node
    requires i < |c.connects|
  {
    var p := c.connects[i];
    var d := c.(connects := c.connects[..i] + c.connects[i + 1..]);
    if ok then Register(d, p.key, true, p.status, now) else d
  }

  /** `dialAndHandshake` and `storeSession`, after a successful handshake with `key`. */
  function Dial(c: Node, key: Key, now: int): Node {
    if key == c.self || key == NIL_KEY then c else
    var isNew := key !in c.peers;
    var d := if isNew then c.(peers := c.peers[key := Accepted]) else c;
    if key in d.sessions then d
    else Register(d, key, false, if isNew then Pending else d.peers[key], now)
  }

  function Close(c: Node, n: nat): Node {
    if n < |c.conns| then c.(conns := c.conns[n := c.conns[n].(open := false)]) else c
  }

  /** The deferred clean-up of a read loop: it removes whatever session is stored under its key. */
  function LoopEnd(c: Node, n: nat): Node {
    if n >= |c.conns| then c else
    var s := c.conns[n];
    c.(sessions := c.sessions - {s.key}, conns := c.conns[n := s.(open := false, running := false)])
  }

  function Disconnect(c: Node, key: Key): Node {
    if key in c.sessions then Close(c.(sessions := c.sessions - {key}), c.sessions[key]) else c
  }

  function AdminAccept(c: Node, key: Key): Node {
    SetStatus(if key in c.peers then c.(peers := c.peers[key := Accepted]) else c, key, Accepted)
  }

  function AdminReject(c: Node, key: Key): Node {
    Disconnect(if key in c.peers then c.(peers := c.peers[key := Rejected]) else c, key)
  }

  /* ---------- events ---------- */

  /** A send is `served` if an HTTP request makes it; the console loops have no one to recover a panic. */
  datatype Event =
    | FrameEvent(n: nat, plain: Bytes, env: Env)
    | SendEvent(msg: Message, env: Env, served: bool)
    | UpdateEvent(id: Id, content: Bytes, env: Env)
    | DeleteEvent(id: Id, env: Env)
    | ExpireEvent(ids: set<Id>)
    | BeginEvent(key: Key)
    | FinishEvent(i: nat, ok: bool, now: int)
    | DialEvent(key: Key, now: int)
    | LoopEndEvent(n: nat)
    | DisconnectEvent(key: Key)
    | AcceptEvent(key: Key)
    | RejectEvent(key: Key)
    | RenameEvent(name: Bytes)

  /** Session `n` can still hand frames to the node. */
  predicate Live(c: Node, n: nat) {
    n < |c.conns| && c.conns[n].open && c.conns[n].running
  }

  /** A frame on session `n`. A panic unwinds the read loop, whose clean-up runs if the process survives. */
  function FrameStep(c: Node, n: nat, plain: Bytes, env: Env): Result<Node> {
    if !Live(c, n) then Ok(c) else
    match HandleDecrypted(c, n, plain, env)
    case Returned(d) => Ok(d)
    case Panicking(d) => if c.conns[n].inbound then Ok(LoopEnd(d, n)) else Crashed
  }

  function SendStep(c: Node, m: Message, env: Env, served: bool): Result<Node> {
    match LocalSend(c, m, env)
    case Returned(d) => Ok(d)
    case Panicking(d) => if served then Ok(d) else Crashed
  }

  /** One step; an event that is not possible changes nothing, and `Crashed` is the end of the process. */
  function Step(c: Node, e: Event): Result<Node> {
    match e
    case FrameEvent(n, plain, env) => FrameStep(c, n, plain, env)
    case SendEvent(m, env, served) => SendStep(c, m, env, served)
    case UpdateEvent(id, content, env) => Ok(LocalUpdate(c, id, content, env).node)
    case DeleteEvent(id, env) => Ok(LocalDelete(c, id, env).node)
    case ExpireEvent(ids) => Ok(c.(store := ExpireStep(c.store, ids)))
    case BeginEvent(key) => Ok(BeginInbound(c, key))
    case FinishEvent(i, ok, now) => Ok(if i < |c.connects| then FinishInbound(c, i, ok, now) else c)
    case DialEvent(key, now) => Ok(Dial(c, key, now))
    case LoopEndEvent(n) => Ok(if n < |c.conns| && c.conns[n].running then LoopEnd(c, n) else c)
    case DisconnectEvent(key) => Ok(Disconnect(c, key))
    case AcceptEvent(key) => Ok(AdminAccept(c, key))
    case RejectEvent(key) => Ok(AdminReject(c, key))
    case RenameEvent(name) => Ok(c.(name := name))
  }

  function Run(c: Node, events: seq<Event>): Result<Node>
    decreases |events|
  {
    if events == [] then Ok(c) else
    match Step(c, events[0])
    case Failed => Failed
    case Crashed => Crashed
    case Ok(d) => Run(d, events[1..])
  }

  /* ---------- runs ---------- */

  lemma RunCons(c: Node, e: Event, rest: seq<Event>)
    ensures Run(c, [e] + rest) ==
            match Step(c, e) case Ok(d) => Run(d, rest) case Failed => Failed case Crashed => Crashed
  {
    hide Step;
    assert ([e] + rest)[1..] == rest;
  }

  lemma RunNone(c: Node)
    ensures Run(c, []) == Ok(c)
  {
  }

  lemma RunOne(c: Node, e: Event)
    ensures Run(c, [e]) == Step(c, e)
  {
    hide Step;
    assert [e] + [] == [e];
    RunCons(c, e, []);
  }

  lemma {:induction false} RunAppend(c: Node, a: seq<Event>, b: seq<Event>)
    ensures Run(c, a + b) == match Run(c, a) case Ok(d) => Run(d, b) case Failed => Failed case Crashed => Crashed
    decreases |a|
  {
    hide Step;
    if a == [] {
      assert a + b == b;
    } else {
      assert (a + b)[1..] == a[1..] + b;
      if Step(c, a[0]).Ok? {
        RunAppend(Step(c, a[0]).value, a[1..], b);
      }
    }
  }

  lemma RunTwo(c: Node, x: Event, y: Event)
    requires Step(c, x).Ok?
    ensures Run(c, [x, y]) == Step(Step(c, x).value, y)
  {
    hide Step;
    assert [x, y] == [x] + [y];
    RunCons(c, x, [y]);
    RunOne(Step(c, x).value, y);
  }

  lemma RunThree(c: Node, x: Event, y: Event, z: Event)
    requires Step(c, x).Ok? && Step(Step(c, x).value, y).Ok?
    ensures Run(c, [x, y, z]) == Step(Step(Step(c, x).value, y).value, z)
  {
    hide Step;
    assert [x, y, z] == [x] + [y, z];
    RunCons(c, x, [y, z]);
    RunTwo(Step(c, x).value, y, z);
  }

  /* ---------- what the handlers leave alone ---------- */

  lemma MessageTouches(c: Node, sig: Signal, key: Key, env: Env)
    ensures var d := OnMessage(c, sig, key, env).node; d == c.(store := d.store)
  {
    hide DecodeMessage, PutStep;
  }

  lemma DeleteTouches(c: Node, id: Id, key: Key, env: Env)
    ensures var d := OnDelete(c, id, key, env).node; d == c.(store := d.store)
  {
    hide GetStep, DeleteStep;
  }

  lemma UpdateTouches(c: Node, id: Id, content: Bytes, key: Key, env: Env)
    ensures var d := OnUpdate(c, id, content, key, env).node; d == c.(store := d.store)
  {
    hide GetStep, UpdateStep;
  }

  lemma InfoResponseTouches(c: Node, content: Bytes, key: Key, env: Env)
    ensures var r := OnInfoResponse(c, content, key, env);
      && r.Returned?
      && r.node == c.(store := c.store.(files := r.node.store.files), pictures := r.node.pictures)
  {
    hide DecodeInfoResponse;
    DecodersReturn(content);
  }

  /** Only the peer's acceptance touches peers and sessions, and only metadata the transfers. */
  lemma SignalTouches(c: Node, sig: Signal, key: Key, env: Env)
    ensures var d := HandleSignal(c, sig, key, env).node;
      match KindOf(sig.typ)
      case PeerAcceptedKind => d == OnPeerAccepted(c, key)
      case FileMetaKind => d == if sig.from == key then OnFileMeta(c, sig).node else c
      case InfoResponseKind => d == c.(store := c.store.(files := d.store.files), pictures := d.pictures)
      case _ => d == c.(store := d.store)
  {
    hide KindOf, OnMessage, OnDelete, OnUpdate, OnPeerAccepted, OnFileMeta, OnInfoResponse;
    MessageTouches(c, sig, key, env);
    InfoResponseTouches(c, sig.content, key, env);
    DeleteTouches(c, sig.id, key, env);
    UpdateTouches(c, sig.id, sig.content, key, env);
  }

  /** Requests on messages and cache expiry touch only the store. */
  lemma StoreEventTouches(c: Node, e: Event)
    requires e.SendEvent? || e.UpdateEvent? || e.DeleteEvent? || e.ExpireEvent?
    requires Step(c, e).Ok?
    ensures var d := Step(c, e).value; d == c.(store := d.store)
  {
    hide FrameStep, LocalSend, LocalUpdate, LocalDelete, BeginInbound, FinishInbound, Dial, LoopEnd, Disconnect,
      AdminAccept, AdminReject, ExpireStep;
    match e {
      case SendEvent(m, env, _) => LocalSendTouches(c, m, env);
      case UpdateEvent(id, content, env) => LocalUpdateTouches(c, id, content, env);
      case DeleteEvent(id, env) => LocalDeleteTouches(c, id, env);
      case ExpireEvent(_) =>
    }
  }

  lemma LocalSendTouches(c: Node, m: Message, env: Env)
    ensures var d := LocalSend(c, m, env).node; d == c.(store := d.store)
  {
    hide PutStep;
  }

  lemma LocalUpdateTouches(c: Node, id: Id, content: Bytes, env: Env)
    ensures var d := LocalUpdate(c, id, content, env).node; d == c.(store := d.store)
  {
    hide GetStep, UpdateStep;
  }

  lemma LocalDeleteTouches(c: Node, id: Id, env: Env)
    ensures var d := LocalDelete(c, id, env).node; d == c.(store := d.store)
  {
    hide GetStep, DeleteStep;
  }

  /**
    Same session table and handshakes in flight, same sessions but for status and limiter, and
    no other peer's record touched.
  */
  ghost predicate PeersKept(c: Node, d: Node, key: Key) {
    && d.sessions == c.sessions && d.connects == c.connects && |d.conns| == |c.conns|
    && (forall k :: k in c.peers && k != key ==> k in d.peers && d.peers[k] == c.peers[k])
    && (forall i :: 0 <= i < |c.conns| ==>
          d.conns[i] == c.conns[i].(status := d.conns[i].status, limiter := d.conns[i].limiter))
  }

  lemma PeersKeptTwice(c: Node, d: Node, e: Node, key: Key)
    requires PeersKept(c, d, key) && PeersKept(d, e, key)
    ensures PeersKept(c, e, key)
  {
  }

  lemma SignalPeers(c: Node, sig: Signal, key: Key, env: Env)
    ensures PeersKept(c, HandleSignal(c, sig, key, env).node, key)
  {
    hide KindOf, DecodeFileMeta, HandleSignal;
    SignalTouches(c, sig, key, env);
  }

  lemma ChunkPeers(c: Node, plain: Bytes, env: Env)
    ensures PeersKept(c, HandleChunk(c, plain, env), NIL_KEY)
    ensures HandleChunk(c, plain, env).peers == c.peers
  {
  }

  /** A frame leaves every other peer's record and every session's reachability alone. */
  lemma FramePeers(c: Node, n: nat, plain: Bytes, env: Env)
    requires n < |c.conns|
    ensures PeersKept(c, HandleDecrypted(c, n, plain, env).node, c.conns[n].key)
  {
    hide ParseSignal, RateLimiter.Allow, HandleSignal, HandleChunk, KindOf;
    var s := c.conns[n];
    if plain == [] {
    } else if plain[0] != MARKER {
      ChunkPeers(c, plain[1..], env);
    } else if ParseSignal(plain).Parsed? {
      hide PeersKept;
      var sig := ParseSignal(plain).value;
      assert PeersKept(c, c, s.key) by { PeersKeptSame(c, c, s.key); }
      if s.status != Accepted {
        SignalPeers(c, sig, s.key, env);
      } else if s.limiter.limit != 0 {
        var (b, ok) := RateLimiter.Allow(s.limiter, env.now);
        var d := c.(conns := c.conns[n := s.(limiter := b)]);
        assert PeersKept(c, d, s.key) by { LimiterPeers(c, n, b); }
        SignalPeers(d, sig, s.key, env);
        PeersKeptTwice(c, d, HandleSignal(d, sig, s.key, env).node, s.key);
      }
    } else {
      PeersKeptSame(c, c, s.key);
    }
  }

  lemma PeersKeptSame(c: Node, d: Node, key: Key)
    requires d == c
    ensures PeersKept(c, d, key)
  {
  }

  lemma LimiterPeers(c: Node, n: nat, b: RateLimiter.Bucket)
    requires n < |c.conns|
    ensures PeersKept(c, c.(conns := c.conns[n := c.conns[n].(limiter := b)]), c.conns[n].key)
  {
  }
}
