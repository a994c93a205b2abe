/**
  How long a stored file keeps its bytes: the file table changes under an identifier only by a
  transfer that closes, a delete of a message with that attachment, or a peer's picture.
*/
module StoredFiles {
  import opened ByteStrings
  import opened MessageCodec
  import opened Envelopes
  import opened ChatStore
  import opened ChatNode
  import opened Authorship
  import opened AcceptGate
  import opened FileTransfers
  import RateLimiter

  /** The two tables agree on one file. */
  ghost predicate SameFile(a: map<Id, Bytes>, b: map<Id, Bytes>, f: Id) {
    (f in a <==> f in b) && (f in a ==> a[f] == b[f])
  }

  /** A transfer closes and its buffer is written under this identifier. */
  predicate ClosesInto(c: Node, e: Event, f: Id) {
    && ChunkId(e).Some? && FinalizedBy(c, e, ChunkId(e).value).Some?
    && FinalizedBy(c, e, ChunkId(e).value).value != [] && e.env.db.rowOk
    && f == if ChunkId(e).value == NIL_ID then e.env.drawn else ChunkId(e).value
  }

  /** The key's own message with that identifier has the file as an attachment, and the file can be deleted. */
  ghost predicate DropsWith(c: Node, id: Id, key: Key, kept: set<Id>, f: Id)
    requires Sane(c)
  {
    id in Chats(c) && Chats(c)[id].from == key && HasFile(Chats(c)[id], f) && f !in kept
  }

  /** The picture of a known peer is stored under this identifier, or replaces the one stored there. */
  predicate PictureAt(c: Node, content: Bytes, key: Key, env: Env, f: Id) {
    && DecodeInfoResponse(content).Parsed? && DecodeInfoResponse(content).value.pic != []
    && key in c.peers && env.db.rowOk
    && (f == env.drawn || (f !in env.db.kept && f == if key in c.pictures then c.pictures[key] else NIL_ID))
  }

  ghost predicate SignalOverwrites(c: Node, sig: Signal, key: Key, env: Env, f: Id)
    requires Sane(c)
  {
    match KindOf(sig.typ)
    case DeleteKind => sig.from == key && key != NIL_KEY && DropsWith(c, sig.id, key, env.db.kept, f)
    case InfoResponseKind => PictureAt(c, sig.content, key, env, f)
    case _ => false
  }

  /** The event writes or deletes the file. */
  ghost predicate Overwrites(c: Node, e: Event, f: Id)
    requires Sane(c)
  {
    match e
    case FrameEvent(n, plain, env) =>
      || ClosesInto(c, e, f)
      || (Handled(c, e).Some? && SignalOverwrites(c, Handled(c, e).value, c.conns[n].key, env, f))
    case DeleteEvent(id, env) => DropsWith(c, id, c.self, env.db.kept, f)
    case _ => false
  }

  /* ---------- one step ---------- */

  lemma DeleteFilesOf(c: Node, id: Id, key: Key, env: Env, f: Id)
    requires Sane(c) && !(key != NIL_KEY && DropsWith(c, id, key, env.db.kept, f))
    ensures SameFile(c.store.files, OnDelete(c, id, key, env).node.store.files, f)
  {
    hide RowsValid, CacheValid, Messages, DeleteStep, GetStep, HasFile;
    GetLeaves(c, id);
    GetKeepsFiles(c.store, c.secret, id);
    var d := VerifyAuthor(c, id, key).0;
    DeleteTakes(d.store, d.secret, id, env.db);
  }

  lemma LocalDeleteFilesOf(c: Node, id: Id, env: Env, f: Id)
    requires Sane(c) && !DropsWith(c, id, c.self, env.db.kept, f)
    ensures SameFile(c.store.files, LocalDelete(c, id, env).node.store.files, f)
  {
    hide RowsValid, CacheValid, Messages, DeleteStep, GetStep, HasFile;
    GetLeaves(c, id);
    GetKeepsFiles(c.store, c.secret, id);
    var d := OwnedMessage(c, id).0;
    DeleteTakes(d.store, d.secret, id, env.db);
  }

  lemma SignalFile(c: Node, sig: Signal, key: Key, env: Env, f: Id)
    requires Sane(c) && !SignalOverwrites(c, sig, key, env, f)
    ensures SameFile(c.store.files, HandleSignal(c, sig, key, env).node.store.files, f)
  {
    hide Sane, KindOf, OnDelete, OnMessage, OnUpdate, DecodeFileMeta, DecodeInfoResponse, DropsWith;
    match KindOf(sig.typ) {
      case MessageKind => MessageFiles(c, sig, key, env);
      case UpdateKind => UpdateFiles(c, sig.id, sig.content, key, env);
      case DeleteKind => if sig.from == key { DeleteFilesOf(c, sig.id, key, env, f); }
      case _ =>
    }
  }

  /** A file written by a chunk is the one `ClosesInto` names. */
  lemma ChunkFile(c: Node, e: Event, f: Id)
    requires e.FrameEvent? && Live(c, e.n) && e.plain != [] && e.plain[0] != MARKER && !ClosesInto(c, e, f)
    ensures SameFile(c.store.files, HandleChunk(c, e.plain[1..], e.env).store.files, f)
  {
    if |e.plain| >= 17 {
      assert e.plain[1..][..16] == e.plain[1..17] && e.plain[1..][16..] == e.plain[17..];
    }
  }

  lemma SaneElsewhere(c: Node, d: Node, sig: Signal, key: Key, env: Env, f: Id)
    requires Sane(c) && d == c.(conns := d.conns)
    ensures Sane(d) && (SignalOverwrites(d, sig, key, env, f) <==> SignalOverwrites(c, sig, key, env, f))
  {
    hide KindOf, RowsValid, CacheValid, Messages, DecodeInfoResponse, HasFile;
  }

  lemma FrameFile(c: Node, n: nat, plain: Bytes, env: Env, f: Id)
    requires Sane(c) && Live(c, n) && !Overwrites(c, FrameEvent(n, plain, env), f)
    ensures SameFile(c.store.files, HandleDecrypted(c, n, plain, env).node.store.files, f)
  {
    hide Sane, ParseSignal, RateLimiter.Allow, HandleSignal, HandleChunk, KindOf, SignalOverwrites, ClosesInto;
    var e, s := FrameEvent(n, plain, env), c.conns[n];
    ParseSignalTotal(plain);
    if plain == [] {
    } else if plain[0] != MARKER {
      ChunkFile(c, e, f);
    } else if ParseSignal(plain).Parsed? {
      var sig := ParseSignal(plain).value;
      if s.status != Accepted {
        if Ungated(KindOf(sig.typ)) {
          SignalFile(c, sig, s.key, env, f);
        }
      } else if s.limiter.limit != 0 {
        var (b, ok) := RateLimiter.Allow(s.limiter, env.now);
        if ok {
          var d := c.(conns := c.conns[n := s.(limiter := b)]);
          SaneElsewhere(c, d, sig, s.key, env, f);
          SignalFile(d, sig, s.key, env, f);
        }
      }
    }
  }

  lemma LocalSendFiles(c: Node, m: Message, env: Env)
    ensures LocalSend(c, m, env).node.store.files == c.store.files
  {
    hide PutStep;
    PutKeepsFiles(c.store, c.secret, c.name, m.(from := c.self), env.drawn, env.db);
  }

  lemma FileStep(c: Node, e: Event, f: Id)
    requires Sane(c) && Step(c, e).Ok? && !Overwrites(c, e, f)
    ensures SameFile(c.store.files, Step(c, e).value.store.files, f)
  {
    hide Sane, HandleDecrypted, LocalSend, LocalUpdate, LocalDelete, BeginInbound, FinishInbound, Dial, Disconnect,
      AdminAccept, AdminReject, SignalOverwrites, ClosesInto, DropsWith;
    match e {
      case FrameEvent(n, plain, env) => if Live(c, n) { FrameFile(c, n, plain, env, f); }
      case SendEvent(m, env, _) => LocalSendFiles(c, m, env);
      case UpdateEvent(id, content, env) => LocalUpdateFiles(c, id, content, env);
      case DeleteEvent(id, env) => LocalDeleteFilesOf(c, id, env, f);
      case ExpireEvent(_) =>
      case _ => ConnectionsKeepStore(c, e);
    }
  }

  lemma LocalUpdateFiles(c: Node, id: Id, content: Bytes, env: Env)
    ensures LocalUpdate(c, id, content, env).node.store.files == c.store.files
  {
    hide GetStep, UpdateStep;
    GetKeepsFiles(c.store, c.secret, id);
    var (d, r) := OwnedMessage(c, id);
    if r.Ok? {
      UpdateKeepsFiles(d.store, d.secret, id, d.name, r.value.(content := content), env.clock, env.db);
    }
  }

  /* ---------- runs ---------- */

  /** No event of the run writes or deletes the file. */
  ghost predicate Untouched(c: Node, events: seq<Event>, f: Id)
    requires Sane(c)
    decreases |events|
  {
    events == [] ||
    (StepChanges(c, events[0]);
     !Overwrites(c, events[0], f) &&
     match Step(c, events[0])
     case Ok(d) => Untouched(d, events[1..], f)
     case _ => true)
  }

  /**
    A stored file keeps its bytes over every run in which no transfer closes into it, no message
    with it as an attachment is deleted and no peer's picture takes its place.
  */
  lemma {:induction false} FileStays(c: Node, events: seq<Event>, f: Id)
    requires Sane(c) && Run(c, events).Ok? && Untouched(c, events, f)
    ensures SameFile(c.store.files, Run(c, events).value.store.files, f)
    decreases |events|
  {
    hide Sane, Step, Overwrites;
    if events != [] {
      StepChanges(c, events[0]);
      FileStep(c, events[0], f);
      FileStays(Step(c, events[0]).value, events[1..], f);
    }
  }

  /** A closing transfer does overwrite: the earlier file under its identifier is gone. */
  lemma ClosingOverwrites(c: Node, e: Event, f: Id)
    requires ClosesInto(c, e, f)
    ensures Step(c, e).Ok? && f in Step(c, e).value.store.files
    ensures Step(c, e).value.store.files[f] == FinalizedBy(c, e, ChunkId(e).value).value
  {
    hide Step, ChunkFor;
    FinalizingStores(c, e, ChunkId(e).value);
  }

  /**
    A known peer's picture, before acceptance or admitted by the limiter: it is stored under the
    drawn identifier and remembered for the peer, the earlier picture's file goes unless it cannot be
    deleted, and every other file stays.
  */
  lemma PictureReplaces(c: Node, n: nat, from: Key, id: Id, r: InfoResponse, env: Env)
    requires Live(c, n) && c.conns[n].key in c.peers && env.db.rowOk
    requires c.conns[n].status == Accepted ==>
      c.conns[n].limiter.limit != 0 && RateLimiter.Allow(c.conns[n].limiter, env.now).1
    requires r.pic != [] && InfoFits(r) && |InfoBytes(r)| < U32_LIMIT
    ensures var key := c.conns[n].key;
      var before: Id := if key in c.pictures then c.pictures[key] else NIL_ID;
      var step := Step(c, FrameEvent(n, SignalBytes(Signal(INFO_RESPONSE, from, id, InfoBytes(r))), env));
      step.Ok? && var d := step.value;
      && d.pictures == c.pictures[key := env.drawn]
      && (before != env.drawn ==> env.drawn in d.store.files && d.store.files[env.drawn] == r.pic)
      && (before != env.drawn ==> if before in env.db.kept then SameFile(c.store.files, d.store.files, before)
                                  else before !in d.store.files)
      && (forall f :: f != env.drawn && f != before ==> SameFile(c.store.files, d.store.files, f))
  {
    hide ParseSignal, KindOf, RateLimiter.Allow, SignalBytes, InfoBytes, DecodeInfoResponse, HandleSignal;
    var sig, s := Signal(INFO_RESPONSE, from, id, InfoBytes(r)), c.conns[n];
    SignalRoundTrip(sig, []);
    assert SignalBytes(sig) + [] == SignalBytes(sig);
    ParseSignalTotal(SignalBytes(sig));
    KindOfTypeName(InfoResponseKind);
    var d := if s.status != Accepted then c
             else c.(conns := c.conns[n := s.(limiter := RateLimiter.Allow(s.limiter, env.now).0)]);
    PictureIsStored(d, sig, s.key, r, env);
    assert HandleDecrypted(c, n, SignalBytes(sig), env) == HandleSignal(d, sig, s.key, env);
  }

  lemma PictureIsStored(c: Node, sig: Signal, key: Key, r: InfoResponse, env: Env)
    requires sig.content == InfoBytes(r) && sig.typ == INFO_RESPONSE && InfoFits(r) && r.pic != []
    requires key in c.peers && env.db.rowOk
    ensures var before: Id := if key in c.pictures then c.pictures[key] else NIL_ID;
      HandleSignal(c, sig, key, env) == Returned(c.(
        store := c.store.(files := c.store.files[env.drawn := r.pic] - ({before} - env.db.kept)),
        pictures := c.pictures[key := env.drawn]))
  {
    hide KindOf, InfoBytes, DecodeInfoResponse, OnMessage, OnDelete, OnUpdate, OnFileMeta, OnPeerAccepted;
    KindOfTypeName(InfoResponseKind);
    DecodeInfoIff(sig.content, r, |InfoBytes(r)|);
    AtSelf(InfoBytes(r));
  }
}
