/**
  Who may change which message, and when: every change of the stored messages is traced
  to one event and its author, over every run of the node.
*/
module Authorship {
  import opened ByteStrings
  import opened MessageCodec
  import opened Envelopes
  import opened ChatStore
  import opened ChatNode
  import RateLimiter

  /* ---------- changes, stated on the plain map ---------- */

  datatype Change =
    | NoChange
    | Wrote(id: Id, msg: Message)
    | Edited(id: Id, content: Bytes, at: Int64)
    | Removed(id: Id)

  function ApplyChange(m: map<Id, Message>, ch: Change): map<Id, Message> {
    match ch
    case NoChange => m
    case Wrote(id, msg) => m[id := msg]
    case Edited(id, content, at) => if id in m then m[id := m[id].(content := content, updatedAt := at)] else m
    case Removed(id) => m - {id}
  }

  ghost predicate Sane(c: Node) {
    Valid(c.store, c.secret)
  }

  ghost function Chats(c: Node): map<Id, Message>
    requires Sane(c)
  {
    Messages(c.store, c.secret)
  }

  /** The signal of a frame that comes from an accepted session and is admitted by its limiter. */
  function Admitted(c: Node, e: Event): Option<Signal> {
    if !e.FrameEvent? || !Live(c, e.n) || e.plain == [] || e.plain[0] != MARKER then None else
    var s := c.conns[e.n];
    var p := ParseSignal(e.plain);
    if !p.Parsed? || s.status != Accepted || s.limiter.limit == 0 then None
    else if RateLimiter.Allow(s.limiter, e.env.now).1 then Some(p.value) else None
  }

  /** The signal that a frame hands to its handler: admitted, or one that needs no acceptance. */
  function Handled(c: Node, e: Event): Option<Signal> {
    if e.FrameEvent? && Live(c, e.n) && c.conns[e.n].status != Accepted then
      if ParseSignal(e.plain).Parsed? && Ungated(KindOf(ParseSignal(e.plain).value.typ))
      then Some(ParseSignal(e.plain).value) else None
    else Admitted(c, e)
  }

  /** On whose behalf an event acts: the session's peer, or the local user. */
  function Actor(c: Node, e: Event): Key {
    if e.FrameEvent? && e.n < |c.conns| then c.conns[e.n].key else c.self
  }

  /** A message that does not fit the format panics its handler and writes nothing. */
  function WriteOf(m: Message, author: Key, env: Env): Change {
    if !env.db.rowOk || !Encodable(m.(from := author)) then NoChange else
    var id := if m.id == NIL_ID then env.drawn else m.id;
    Wrote(id, m.(id := id, from := author))
  }

  function EditOf(msgs: map<Id, Message>, id: Id, content: Bytes, author: Key, env: Env): Change {
    if id !in msgs || msgs[id].from != author || !env.db.rowOk then NoChange
    else if !Encodable(msgs[id].(content := content, updatedAt := env.clock)) then NoChange
    else Edited(id, content, env.clock)
  }

  function RemovalOf(msgs: map<Id, Message>, id: Id, author: Key, env: Env): Change {
    if id in msgs && msgs[id].from == author && env.db.rowOk then Removed(id) else NoChange
  }

  function SignalChange(msgs: map<Id, Message>, sig: Signal, key: Key, env: Env): Change {
    if sig.from != key then NoChange else
    match KindOf(sig.typ)
    case MessageKind =>
      var p := DecodeMessage(sig.content);
      if p.Parsed? then WriteOf(p.value, key, env) else NoChange
    case UpdateKind => if key == NIL_KEY then NoChange else EditOf(msgs, sig.id, sig.content, key, env)
    case DeleteKind => if key == NIL_KEY then NoChange else RemovalOf(msgs, sig.id, key, env)
    case FileMetaKind => NoChange
    case KeyExchangeKind => NoChange
    case InfoRequestKind => NoChange
    case InfoResponseKind => NoChange
    case InfoChangedKind => NoChange
    case PeerAcceptedKind => NoChange
    case UnknownKind => NoChange
  }

  /** What an event does to the messages, read off the event and the plain map. */
  ghost function ChangeOf(c: Node, e: Event): Change
    requires Sane(c)
  {
    var msgs := Chats(c);
    match e
    case FrameEvent(n, plain, env) =>
      var sig := Admitted(c, e);
      if sig.None? then NoChange else SignalChange(msgs, sig.value, c.conns[n].key, env)
    case SendEvent(m, env, _) => WriteOf(m, c.self, env)
    case UpdateEvent(id, content, env) =>
      if content == [] then NoChange else EditOf(msgs, id, content, c.self, env)
    case DeleteEvent(id, env) => RemovalOf(msgs, id, c.self, env)
    case _ => NoChange
  }

  /* ---------- the store steps behind the events ---------- */

  lemma GetLeaves(c: Node, id: Id)
    requires Sane(c)
    ensures var (s, r) := GetStep(c.store, c.secret, id);
      && Sane(c.(store := s)) && Chats(c.(store := s)) == Chats(c)
      && r == if id in Chats(c) then Ok(Chats(c)[id]) else Failed
  {
    hide RowsValid, CacheValid, Messages, GetStep;
    GetReadsMap(c.store, c.secret, id);
    SameRowsSameMessages(c.store, GetStep(c.store, c.secret, id).0, c.secret);
  }

  /** The step keeps identity and secret and changes the messages as given. */
  ghost predicate Changes(c: Node, d: Node, ch: Change)
    requires Sane(c)
  {
    d.self == c.self && d.secret == c.secret && Sane(d) && Chats(d) == ApplyChange(Chats(c), ch)
  }

  lemma PutChanges(c: Node, name: Bytes, m: Message, author: Key, env: Env)
    requires Sane(c)
    ensures var s := PutStep(c.store, c.secret, name, m.(from := author), env.drawn, env.db).0;
      Changes(c, c.(store := s), WriteOf(m, author, env))
  {
    hide RowsValid, CacheValid, Messages, WriteRow, Encodable;
    var msg := m.(from := author);
    if Encodable(msg) && env.db.rowOk {
      WriteRowKeeps(c.store, c.secret, if m.id == NIL_ID then env.drawn else m.id, name, msg, env.db);
    }
  }

  lemma UpdateChanges(c: Node, id: Id, content: Bytes, env: Env)
    requires Sane(c) && id in Chats(c)
    ensures var m := Chats(c)[id].(content := content);
      var s := UpdateStep(c.store, c.secret, id, c.name, m, env.clock, env.db).0;
      Changes(c, c.(store := s), EditOf(Chats(c), id, content, Chats(c)[id].from, env))
  {
    hide RowsValid, CacheValid, UpdateStep, DecodeMessage, Encodable;
    UpdateRefines(c.store, c.secret, id, c.name, Chats(c)[id].(content := content), env.clock, env.db);
  }

  lemma DeleteChanges(c: Node, id: Id, env: Env)
    requires Sane(c)
    ensures var (s, r) := DeleteStep(c.store, c.secret, id, env.db);
      !r.Crashed? && Changes(c, c.(store := s), if env.db.rowOk then Removed(id) else NoChange)
  {
    hide RowsValid, CacheValid, Messages, DeleteStep, AttachmentIds;
    DeleteKeeps(c.store, c.secret, id, env.db);
  }

  lemma OnUpdateChanges(c: Node, id: Id, content: Bytes, key: Key, env: Env)
    requires Sane(c)
    ensures Changes(c, OnUpdate(c, id, content, key, env).node,
                    if key == NIL_KEY then NoChange else EditOf(Chats(c), id, content, key, env))
  {
    hide RowsValid, CacheValid, Messages, UpdateStep, GetStep, Encodable;
    GetLeaves(c, id);
    var d := VerifyAuthor(c, id, key).0;
    if id in Chats(c) {
      UpdateChanges(d, id, content, env);
    }
  }

  lemma OnDeleteChanges(c: Node, id: Id, key: Key, env: Env)
    requires Sane(c)
    ensures Changes(c, OnDelete(c, id, key, env).node,
                    if key == NIL_KEY then NoChange else RemovalOf(Chats(c), id, key, env))
  {
    hide RowsValid, CacheValid, Messages, DeleteStep, GetStep;
    GetLeaves(c, id);
    var d := VerifyAuthor(c, id, key).0;
    DeleteChanges(d, id, env);
    RemovesNothing(Chats(c), id);
  }

  lemma RemovesNothing(m: map<Id, Message>, id: Id)
    ensures id !in m ==> ApplyChange(m, Removed(id)) == m
  {
  }

  lemma LocalUpdateChanges(c: Node, id: Id, content: Bytes, env: Env)
    requires Sane(c)
    ensures Changes(c, LocalUpdate(c, id, content, env).node,
                    if content == [] then NoChange else EditOf(Chats(c), id, content, c.self, env))
  {
    hide RowsValid, CacheValid, Messages, UpdateStep, GetStep, Encodable;
    GetLeaves(c, id);
    var d := OwnedMessage(c, id).0;
    if id in Chats(c) {
      UpdateChanges(d, id, content, env);
    }
  }

  lemma LocalDeleteChanges(c: Node, id: Id, env: Env)
    requires Sane(c)
    ensures Changes(c, LocalDelete(c, id, env).node, RemovalOf(Chats(c), id, c.self, env))
  {
    hide RowsValid, CacheValid, Messages, DeleteStep, GetStep;
    GetLeaves(c, id);
    var d := OwnedMessage(c, id).0;
    DeleteChanges(d, id, env);
  }

  lemma HandleSignalChanges(c: Node, sig: Signal, key: Key, env: Env)
    requires Sane(c)
    ensures Changes(c, HandleSignal(c, sig, key, env).node, SignalChange(Chats(c), sig, key, env))
  {
    hide KindOf, RowsValid, CacheValid, Messages, PutStep, OnUpdate, OnDelete, OnInfoResponse, DecodeMessage,
      DecodeFileMeta, WriteOf, EditOf, RemovalOf;
    match KindOf(sig.typ) {
      case MessageKind =>
        if sig.from == key && DecodeMessage(sig.content).Parsed? {
          PutChanges(c, env.peerName, DecodeMessage(sig.content).value, key, env);
        }
      case UpdateKind =>
        OnUpdateChanges(c, sig.id, sig.content, key, env);
      case DeleteKind =>
        OnDeleteChanges(c, sig.id, key, env);
      case InfoResponseKind =>
        InfoResponseTouches(c, sig.content, key, env);
        FilesChangeNothing(c, OnInfoResponse(c, sig.content, key, env).node);
      case _ =>
    }
  }

  /** The file table holds no messages. */
  lemma FilesChangeNothing(c: Node, d: Node)
    requires Sane(c) && d == c.(store := c.store.(files := d.store.files), pictures := d.pictures, pending := d.pending)
    ensures Changes(c, d, NoChange)
  {
    hide DecodeMessage;
    SameRowsSameMessages(c.store, d.store, c.secret);
  }

  lemma ChunkChangesNothing(c: Node, plain: Bytes, env: Env)
    requires Sane(c)
    ensures Changes(c, HandleChunk(c, plain, env), NoChange)
  {
    FilesChangeNothing(c, HandleChunk(c, plain, env));
  }

  /**
    The trace theorem: whatever a step does, unless it ends the process, the stored messages
    have changed exactly as `ChangeOf` reads off the event. A recovered panic is such a step.
  */
  lemma StepChanges(c: Node, e: Event)
    requires Sane(c)
    ensures Step(c, e).Ok? ==> Changes(c, Step(c, e).value, ChangeOf(c, e))
    ensures !Step(c, e).Failed?
  {
    hide RowsValid, CacheValid, Messages, FrameStep, Admitted, SignalChange, LocalUpdate, LocalDelete, PutStep,
      WriteOf, EditOf, RemovalOf, BeginInbound, FinishInbound, Dial, LoopEnd, Disconnect, AdminAccept, AdminReject;
    match e {
      case FrameEvent(n, plain, env) =>
        FrameChanges(c, n, plain, env);
      case SendEvent(m, env, _) =>
        PutChanges(c, c.name, m, c.self, env);
      case UpdateEvent(id, content, env) =>
        LocalUpdateChanges(c, id, content, env);
      case DeleteEvent(id, env) =>
        LocalDeleteChanges(c, id, env);
      case ExpireEvent(ids) =>
        ExpireKeeps(c.store, c.secret, ids);
      case _ =>
        ConnectionsKeepStore(c, e);
    }
  }

  /** Expiry drops exactly the given cache entries. */
  lemma ExpiryDrops(c: Node, ids: set<Id>)
    ensures var d := Step(c, ExpireEvent(ids));
      && d.Ok? && d.value == c.(store := c.store.(cache := d.value.store.cache))
      && (forall id :: id in d.value.store.cache <==> id in c.store.cache && id !in ids)
  {
    hide FrameStep, SendStep;
  }

  lemma ConnectionsKeepStore(c: Node, e: Event)
    requires !e.FrameEvent? && !e.SendEvent? && !e.UpdateEvent? && !e.DeleteEvent? && !e.ExpireEvent?
    ensures Step(c, e).Ok?
    ensures var d := Step(c, e).value;
      d.store == c.store && d.pending == c.pending && d.self == c.self && d.secret == c.secret
  {
    hide FrameStep, SendStep, LocalUpdate, LocalDelete, BeginInbound, FinishInbound, Dial, LoopEnd, Disconnect,
      AdminAccept, AdminReject;
    match e {
      case BeginEvent(k) => BeginKeepsData(c, k);
      case FinishEvent(i, ok, now) => if i < |c.connects| { FinishKeepsData(c, i, ok, now); }
      case DialEvent(k, now) => DialKeepsData(c, k, now);
      case LoopEndEvent(n) => LoopEndKeepsData(c, n);
      case DisconnectEvent(k) => AdminKeepsData(c, k);
      case AcceptEvent(k) => AdminKeepsData(c, k);
      case RejectEvent(k) => AdminKeepsData(c, k);
      case _ =>
    }
  }

  /** Nothing but peers, sessions and handshakes differs. */
  predicate SameData(c: Node, d: Node) {
    d == c.(peers := d.peers, sessions := d.sessions, conns := d.conns, connects := d.connects)
  }

  lemma BeginKeepsData(c: Node, key: Key)
    ensures SameData(c, BeginInbound(c, key))
  {
  }

  lemma FinishKeepsData(c: Node, i: nat, ok: bool, now: int)
    requires i < |c.connects|
    ensures SameData(c, FinishInbound(c, i, ok, now))
  {
    hide RateLimiter.New;
  }

  lemma DialKeepsData(c: Node, key: Key, now: int)
    ensures SameData(c, Dial(c, key, now))
  {
    hide RateLimiter.New;
  }

  lemma LoopEndKeepsData(c: Node, n: nat)
    ensures SameData(c, LoopEnd(c, n))
  {
  }

  lemma AdminKeepsData(c: Node, key: Key)
    ensures SameData(c, Disconnect(c, key)) && SameData(c, AdminAccept(c, key)) && SameData(c, AdminReject(c, key))
  {
  }

  lemma FrameChanges(c: Node, n: nat, plain: Bytes, env: Env)
    requires Sane(c)
    ensures var r := FrameStep(c, n, plain, env);
      !r.Failed? && (r.Ok? ==> Changes(c, r.value, ChangeOf(c, FrameEvent(n, plain, env))))
  {
    hide RowsValid, CacheValid, Messages, HandleDecrypted, Admitted, SignalChange;
    if Live(c, n) {
      DecryptedChanges(c, n, plain, env);
    } else {
      assert Admitted(c, FrameEvent(n, plain, env)) == None by { DeadIsNotAdmitted(c, FrameEvent(n, plain, env)); }
    }
  }

  lemma DeadIsNotAdmitted(c: Node, e: Event)
    requires e.FrameEvent? && !Live(c, e.n)
    ensures Admitted(c, e) == None
  {
  }

  lemma DecryptedChanges(c: Node, n: nat, plain: Bytes, env: Env)
    requires Sane(c) && Live(c, n)
    ensures Changes(c, HandleDecrypted(c, n, plain, env).node, ChangeOf(c, FrameEvent(n, plain, env)))
  {
    hide RowsValid, CacheValid, Messages, HandleSignal, HandleChunk, SignalChange, ParseSignal, RateLimiter.Allow;
    if plain == [] {
      return;
    }
    var s := c.conns[n];
    if plain[0] != MARKER {
      ChunkChangesNothing(c, plain[1..], env);
    } else if ParseSignal(plain).Parsed? {
      var sig := ParseSignal(plain).value;
      if s.status != Accepted {
        if Ungated(KindOf(sig.typ)) {
          HandleSignalChanges(c, sig, s.key, env);
          UngatedChangesNothing(Chats(c), sig, s.key, env);
        }
      } else if s.limiter.limit != 0 {
        var d := c.(conns := c.conns[n := s.(limiter := RateLimiter.Allow(s.limiter, env.now).0)]);
        HandleSignalChanges(d, sig, s.key, env);
      }
    }
  }

  lemma UngatedChangesNothing(msgs: map<Id, Message>, sig: Signal, key: Key, env: Env)
    requires Ungated(KindOf(sig.typ))
    ensures SignalChange(msgs, sig, key, env) == NoChange
  {
    hide KindOf;
  }

  /* ---------- authorship over whole runs ---------- */

  /** Only the author edits or removes; a write is signed with the key of the writer. */
  lemma ChangeIsAuthorised(c: Node, e: Event)
    requires Sane(c)
    ensures match ChangeOf(c, e)
      case NoChange => true
      case Wrote(_, msg) => msg.from == Actor(c, e)
      case Edited(id, _, _) => id in Chats(c) && Chats(c)[id].from == Actor(c, e)
      case Removed(id) => id in Chats(c) && Chats(c)[id].from == Actor(c, e)
  {
    hide RowsValid, CacheValid, Messages, DecodeMessage, KindOf, ParseSignal, RateLimiter.Allow, Encodable;
  }

  /** The last writer of each identifier: whoever stored it by a Message signal or a local send. */
  ghost function Writers(c: Node, w: map<Id, Key>, events: seq<Event>): map<Id, Key>
    requires Sane(c)
    decreases |events|
  {
    if events == [] then w else
    StepChanges(c, events[0]);
    var ch := ChangeOf(c, events[0]);
    var v := if ch.Wrote? then w[ch.id := Actor(c, events[0])] else w;
    match Step(c, events[0])
    case Ok(d) => Writers(d, v, events[1..])
    case _ => v
  }

  ghost predicate AuthorsMatch(c: Node, w: map<Id, Key>)
    requires Sane(c)
  {
    forall id :: id in Chats(c) ==> id in w && Chats(c)[id].from == w[id]
  }

  /** In every run the author of each stored message is the last one who wrote its identifier. */
  lemma {:induction false} AuthorIsLastWriter(c: Node, w: map<Id, Key>, events: seq<Event>)
    requires Sane(c) && AuthorsMatch(c, w) && Run(c, events).Ok?
    ensures Sane(Run(c, events).value) && AuthorsMatch(Run(c, events).value, Writers(c, w, events))
    decreases |events|
  {
    hide Sane, Chats, Step, ChangeOf;
    if events != [] {
      StepChanges(c, events[0]);
      ChangeIsAuthorised(c, events[0]);
      var ch := ChangeOf(c, events[0]);
      var v := if ch.Wrote? then w[ch.id := Actor(c, events[0])] else w;
      AuthorIsLastWriter(Step(c, events[0]).value, v, events[1..]);
    }
  }

  /** No event of the run stores a message under this identifier. */
  ghost predicate NeverWritten(c: Node, events: seq<Event>, id: Id)
    requires Sane(c)
    decreases |events|
  {
    events == [] ||
    (StepChanges(c, events[0]);
     var ch := ChangeOf(c, events[0]);
     !(ch.Wrote? && ch.id == id) &&
     match Step(c, events[0])
     case Ok(d) => NeverWritten(d, events[1..], id)
     case _ => true)
  }

  /** However often a message is edited, only its content and update time move. */
  lemma {:induction false} EditsKeepTheRest(c: Node, events: seq<Event>, id: Id)
    requires Sane(c) && Run(c, events).Ok? && NeverWritten(c, events, id)
    ensures Sane(Run(c, events).value)
    ensures var m, n := Chats(c), Chats(Run(c, events).value);
      id in n ==> id in m && n[id] == m[id].(content := n[id].content, updatedAt := n[id].updatedAt)
    decreases |events|
  {
    hide Sane, Chats, Step, ChangeOf;
    if events != [] {
      StepChanges(c, events[0]);
      EditsKeepTheRest(Step(c, events[0]).value, events[1..], id);
    }
  }

  /** An event by which somebody may act on messages: a frame, or a local send, edit or delete. */
  predicate Acts(e: Event) {
    e.FrameEvent? || e.SendEvent? || e.UpdateEvent? || e.DeleteEvent?
  }

  /**
    The author of a message does not act on messages in the run. Connects, admin requests,
    clean-ups, expiry and renaming may happen at any point.
  */
  ghost predicate Absent(c: Node, events: seq<Event>, author: Key)
    decreases |events|
  {
    events == [] ||
    ((Acts(events[0]) ==> Actor(c, events[0]) != author) &&
     match Step(c, events[0])
     case Ok(d) => Absent(d, events[1..], author)
     case _ => true)
  }

  lemma ChangesByActing(c: Node, e: Event)
    requires Sane(c)
    ensures ChangeOf(c, e) != NoChange ==> Acts(e)
  {
    hide RowsValid, CacheValid, Messages, Admitted, SignalChange, WriteOf, EditOf, RemovalOf;
  }

  /** Nobody but its author can edit or delete a message, whatever they send. */
  lemma {:induction false} OthersCannotTouch(c: Node, events: seq<Event>, id: Id)
    requires Sane(c) && id in Chats(c) && Run(c, events).Ok?
    requires NeverWritten(c, events, id) && Absent(c, events, Chats(c)[id].from)
    ensures Sane(Run(c, events).value)
    ensures id in Chats(Run(c, events).value) && Chats(Run(c, events).value)[id] == Chats(c)[id]
    decreases |events|
  {
    hide Sane, Chats, Step, ChangeOf, Actor;
    if events != [] {
      StepChanges(c, events[0]);
      ChangeIsAuthorised(c, events[0]);
      ChangesByActing(c, events[0]);
      OthersCannotTouch(Step(c, events[0]).value, events[1..], id);
    }
  }
}
