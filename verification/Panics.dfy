/**
  When a frame panics its handler, and what the panic does. Only an inbound session survives
  it: the HTTP server recovers the panic, the read loop's clean-up closes that one session and
  the node goes on. On a session that we dialled the panic ends the process.
*/
module Panics {
  import opened ByteStrings
  import opened MessageCodec
  import opened Envelopes
  import opened ChatStore
  import opened ChatNode
  import opened Authorship
  import RateLimiter

  /** Stored messages can always be encoded again, with any content that fits a signal. */
  lemma StoredIsEncodable(c: Node, id: Id)
    requires Sane(c) && id in Chats(c)
    ensures Encodable(Chats(c)[id])
  {
    hide DecodeMessage, MessageBytes;
    var p := DecodeMessage(c.store.rows[id].plain);
    DecodeMessageIff(c.store.rows[id].plain, p.value, p.next);
  }

  lemma OnMessagePanics(c: Node, sig: Signal, key: Key, env: Env)
    ensures OnMessage(c, sig, key, env).Panicking? <==> OverflowReached(sig.content)
  {
    hide DecodeMessage, MessageBytes, OverflowReached, WriteRow;
    DecodeMessagePanics(sig.content);
    if DecodeMessage(sig.content).Parsed? {
      var Parsed(m, n) := DecodeMessage(sig.content);
      DecodeMessageIff(sig.content, m, n);
    }
  }

  /** The key may edit and delete the message: it is its author, and not the zero key. */
  ghost predicate Owns(c: Node, id: Id, key: Key)
    requires Sane(c)
  {
    id in Chats(c) && Chats(c)[id].from == key && key != NIL_KEY
  }

  lemma OnUpdatePanics(c: Node, id: Id, content: Bytes, key: Key, env: Env)
    requires Sane(c) && |content| < U32_LIMIT
    ensures OnUpdate(c, id, content, key, env).Panicking? <==> Owns(c, id, key) && env.clock < 0
  {
    hide RowsValid, CacheValid, Messages, UpdateStep, GetStep;
    GetLeaves(c, id);
    var d := VerifyAuthor(c, id, key).0;
    if id in Chats(c) {
      StoredIsEncodable(c, id);
      UpdateRefines(d.store, d.secret, id, d.name, Chats(c)[id].(content := content), env.clock, env.db);
    }
  }

  lemma OnDeleteReturns(c: Node, id: Id, key: Key, env: Env)
    requires Sane(c)
    ensures OnDelete(c, id, key, env).Returned?
  {
    hide RowsValid, CacheValid, Messages, DeleteStep, GetStep;
    GetLeaves(c, id);
    DeleteChanges(VerifyAuthor(c, id, key).0, id, env);
  }

  /**
    A signal that panics the handler it reaches: a message or file metadata with an overflowing
    64-bit field, an edit by the author before 1970, or a request for our own name and picture
    when they do not fit their length fields.
  */
  ghost predicate Fatal(c: Node, sig: Signal, key: Key, env: Env)
    requires Sane(c)
  {
    match KindOf(sig.typ)
    case MessageKind => sig.from == key && OverflowReached(sig.content)
    case FileMetaKind => sig.from == key && FileSizeOverflow(sig.content)
    case UpdateKind => sig.from == key && Owns(c, sig.id, key) && env.clock < 0
    case InfoRequestKind => |c.name| >= U16_LIMIT || |env.picture| >= U32_LIMIT
    case _ => false
  }

  lemma SignalPanicsIff(c: Node, sig: Signal, key: Key, env: Env)
    requires Sane(c) && |sig.content| < U32_LIMIT
    ensures HandleSignal(c, sig, key, env).Panicking? <==> Fatal(c, sig, key, env)
  {
    hide Sane, KindOf, OnMessage, OnUpdate, OnDelete, OnPeerAccepted, OnInfoResponse, DecodeFileMeta, OverflowReached,
      FileSizeOverflow, Owns;
    match KindOf(sig.typ) {
      case MessageKind => OnMessagePanics(c, sig, key, env);
      case FileMetaKind => DecodeFileMetaPanics(sig.content);
      case DeleteKind => OnDeleteReturns(c, sig.id, key, env);
      case UpdateKind => OnUpdatePanics(c, sig.id, sig.content, key, env);
      case InfoResponseKind => InfoResponseTouches(c, sig.content, key, env);
      case _ =>
    }
  }

  lemma ContentFits(plain: Bytes)
    requires ParseSignal(plain).Parsed?
    ensures |ParseSignal(plain).value.content| < U32_LIMIT
  {
    hide ParseSignal, SignalBytes;
    var Parsed(s, n) := ParseSignal(plain);
    ParseSignalIff(plain, s, n);
  }

  /** The frame is a signal for an accepted session, which asks a limiter whose limit is zero. */
  predicate DividesByZero(c: Node, n: nat, plain: Bytes) {
    && Live(c, n) && ParseSignal(plain).Parsed? && c.conns[n].status == Accepted && c.conns[n].limiter.limit == 0
  }

  /** A frame panics exactly if it asks a zero limiter or the signal it hands over is fatal. */
  lemma FramePanicsIff(c: Node, n: nat, plain: Bytes, env: Env)
    requires Sane(c) && Live(c, n)
    ensures HandleDecrypted(c, n, plain, env).Panicking? <==>
            || DividesByZero(c, n, plain)
            || (var sig := Handled(c, FrameEvent(n, plain, env)); sig.Some? && Fatal(c, sig.value, c.conns[n].key, env))
  {
    hide Sane, ParseSignal, HandleSignal, HandleChunk, KindOf, RateLimiter.Allow, Fatal;
    ParseSignalTotal(plain);
    if plain == [] || plain[0] != MARKER {
      return;
    }
    if ParseSignal(plain).Parsed? {
      var sig, s := ParseSignal(plain).value, c.conns[n];
      ContentFits(plain);
      if s.status != Accepted {
        if Ungated(KindOf(sig.typ)) {
          SignalPanicsIff(c, sig, s.key, env);
        }
      } else if s.limiter.limit != 0 {
        var d := c.(conns := c.conns[n := s.(limiter := RateLimiter.Allow(s.limiter, env.now).0)]);
        assert Sane(d) && (Fatal(d, sig, s.key, env) <==> Fatal(c, sig, s.key, env)) by {
          FatalIgnoresSessions(c, d, sig, s.key, env);
        }
        SignalPanicsIff(d, sig, s.key, env);
      }
    }
  }

  lemma FatalIgnoresSessions(c: Node, d: Node, sig: Signal, key: Key, env: Env)
    requires Sane(c) && d.store == c.store && d.secret == c.secret && d.name == c.name
    ensures Sane(d) && (Fatal(d, sig, key, env) <==> Fatal(c, sig, key, env))
  {
    hide OverflowReached, FileSizeOverflow, KindOf, RowsValid, CacheValid, Messages;
  }

  /** A frame ends the process exactly if it panics on a session that we dialled. */
  lemma FrameCrashesIff(c: Node, n: nat, plain: Bytes, env: Env)
    requires Sane(c) && Live(c, n)
    ensures Step(c, FrameEvent(n, plain, env)).Crashed? <==>
            && !c.conns[n].inbound
            && (|| DividesByZero(c, n, plain)
                || (var sig := Handled(c, FrameEvent(n, plain, env));
                    sig.Some? && Fatal(c, sig.value, c.conns[n].key, env)))
  {
    hide Sane, HandleDecrypted, DividesByZero, Handled, Fatal;
    FramePanicsIff(c, n, plain, env);
  }

  /**
    A panic on an inbound session closes that session and unregisters its key. Stored messages,
    files, open transfers, peer records and every other session stay as they were.
  */
  lemma PanicClosesSession(c: Node, n: nat, plain: Bytes, env: Env)
    requires Sane(c) && Live(c, n) && c.conns[n].inbound && HandleDecrypted(c, n, plain, env).Panicking?
    ensures Step(c, FrameEvent(n, plain, env)).Ok?
    ensures var d := Step(c, FrameEvent(n, plain, env)).value;
      && Sane(d) && Chats(d) == Chats(c) && d.store.files == c.store.files && d.pending == c.pending
      && d.peers == c.peers && d.connects == c.connects && d.sessions == c.sessions - {c.conns[n].key}
      && |d.conns| == |c.conns| && !Live(d, n)
      && (forall i :: 0 <= i < |c.conns| && i != n ==> d.conns[i] == c.conns[i])
  {
    hide Sane, Chats, HandleDecrypted, ChangeOf;
    var e := FrameEvent(n, plain, env);
    StepChanges(c, e);
    PanicLeaves(c, n, plain, env);
    PanicChangesNothing(c, n, plain, env);
  }

  lemma PanicLeaves(c: Node, n: nat, plain: Bytes, env: Env)
    requires n < |c.conns| && HandleDecrypted(c, n, plain, env).Panicking?
    ensures var d := HandleDecrypted(c, n, plain, env).node;
      && d.store.files == c.store.files && d.pending == c.pending && d.peers == c.peers
      && d.connects == c.connects && d.sessions == c.sessions && |d.conns| == |c.conns|
      && d.conns[n].key == c.conns[n].key
      && (forall i :: 0 <= i < |c.conns| && i != n ==> d.conns[i] == c.conns[i])
  {
    hide ParseSignal, HandleSignal, HandleChunk, KindOf, RateLimiter.Allow;
    if plain == [] || plain[0] != MARKER || !ParseSignal(plain).Parsed? {
      return;
    }
    var sig, s := ParseSignal(plain).value, c.conns[n];
    if s.status != Accepted {
      if Ungated(KindOf(sig.typ)) {
        PanickingSignalLeaves(c, sig, s.key, env);
      }
    } else if s.limiter.limit != 0 {
      var (b, ok) := RateLimiter.Allow(s.limiter, env.now);
      if ok {
        PanickingSignalLeaves(c.(conns := c.conns[n := s.(limiter := b)]), sig, s.key, env);
      }
    }
  }

  lemma PanickingSignalLeaves(c: Node, sig: Signal, key: Key, env: Env)
    requires HandleSignal(c, sig, key, env).Panicking?
    ensures var d := HandleSignal(c, sig, key, env).node;
      d == c.(store := d.store) && d.store.files == c.store.files
  {
    hide KindOf, DecodeMessage, DecodeFileMeta, DecodeInfoResponse, OnDelete, OnUpdate, WriteRow, Encodable;
    match KindOf(sig.typ) {
      case DeleteKind => PanickingDeleteLeaves(c, sig.id, key, env);
      case UpdateKind => PanickingUpdateLeaves(c, sig.id, sig.content, key, env);
      case _ =>
    }
  }

  lemma PanickingDeleteLeaves(c: Node, id: Id, key: Key, env: Env)
    requires OnDelete(c, id, key, env).Panicking?
    ensures var d := OnDelete(c, id, key, env).node;
      d == c.(store := d.store) && d.store.files == c.store.files
  {
    hide DecodeMessage;
  }

  lemma PanickingUpdateLeaves(c: Node, id: Id, content: Bytes, key: Key, env: Env)
    requires OnUpdate(c, id, content, key, env).Panicking?
    ensures var d := OnUpdate(c, id, content, key, env).node;
      d == c.(store := d.store) && d.store.files == c.store.files
  {
    hide DecodeMessage, WriteRow, Encodable;
  }

  /** A panicking handler has not written: `ChangeOf` reads nothing off its frame. */
  lemma PanicChangesNothing(c: Node, n: nat, plain: Bytes, env: Env)
    requires Sane(c) && Live(c, n) && HandleDecrypted(c, n, plain, env).Panicking?
    ensures ChangeOf(c, FrameEvent(n, plain, env)) == NoChange
  {
    hide Sane, Chats, HandleDecrypted, ParseSignal, KindOf, RateLimiter.Allow, SignalChange, Fatal;
    FramePanicsIff(c, n, plain, env);
    var sig := Admitted(c, FrameEvent(n, plain, env));
    if sig.Some? {
      assert Handled(c, FrameEvent(n, plain, env)) == sig;
      FatalChangesNothing(c, sig.value, c.conns[n].key, env);
    }
  }

  lemma FatalChangesNothing(c: Node, sig: Signal, key: Key, env: Env)
    requires Sane(c) && Fatal(c, sig, key, env)
    ensures SignalChange(Chats(c), sig, key, env) == NoChange
  {
    hide Sane, Chats, KindOf, DecodeMessage, OverflowReached, FileSizeOverflow;
    if KindOf(sig.typ) == MessageKind {
      DecodeMessagePanics(sig.content);
    }
  }

  /** Before acceptance, an info request ends an inbound session exactly if our name or picture does not fit. */
  lemma InfoRequestEndsSession(c: Node, n: nat, name: Bytes, from: Key, id: Id, content: Bytes, env: Env)
    requires Live(c, n) && c.conns[n].inbound && c.conns[n].status != Accepted && |content| < U32_LIMIT
    ensures var r := Run(c, [RenameEvent(name),
                             FrameEvent(n, SignalBytes(Signal(INFO_REQUEST, from, id, content)), env)]);
      r.Ok? && (Live(r.value, n) <==> |name| < U16_LIMIT && |env.picture| < U32_LIMIT)
  {
    hide ParseSignal, SignalBytes, KindOf, Run, RateLimiter.Allow, SendStep;
    var sig := Signal(INFO_REQUEST, from, id, content);
    SignalRoundTrip(sig, []);
    assert SignalBytes(sig) + [] == SignalBytes(sig);
    ParseSignalTotal(SignalBytes(sig));
    KindOfTypeName(InfoRequestKind);
    RunTwo(c, RenameEvent(name), FrameEvent(n, SignalBytes(sig), env));
  }

  /**
    Every event that ends the process: a frame that panics on a session that we dialled, and a
    message from the console that does not fit the format.
  */
  lemma CrashesIff(c: Node, e: Event)
    requires Sane(c)
    ensures Step(c, e).Crashed? <==>
            || (e.FrameEvent? && Live(c, e.n) && !c.conns[e.n].inbound
                && HandleDecrypted(c, e.n, e.plain, e.env).Panicking?)
            || (e.SendEvent? && !e.served && !Encodable(e.msg.(from := c.self)))
  {
    hide HandleDecrypted, Encodable, WriteRow, LocalUpdate, LocalDelete, BeginInbound, FinishInbound, Dial, LoopEnd,
      Disconnect, AdminAccept, AdminReject;
  }
}
