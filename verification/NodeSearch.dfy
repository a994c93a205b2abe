/**
  Search on a running node: under which name the index lists the sender of each message, after
  any run, and hence what a search finds. A received message is listed under its peer's display
  name, our own under our name, and an edited one under our name, whoever wrote and edited it.
*/
module NodeSearch {
  import opened ByteStrings
  import opened MessageCodec
  import opened Envelopes
  import opened ChatStore
  import opened ChatNode
  import opened Authorship
  import opened EndToEnd
  import opened Panics
  import RateLimiter

  /** The sender names that the index shows. */
  ghost function Names(s: Store): map<Id, Bytes> {
    map id | id in s.index :: s.index[id].from
  }

  /** The index agrees with the stored messages. */
  ghost predicate Indexed(c: Node) {
    Sane(c) && IndexValid(c.store, c.secret)
  }

  /** A change of the messages, as the index names follow it; `own` is our name then. */
  function NamesChange(names: map<Id, Bytes>, ch: Change, writer: Bytes, own: Bytes): map<Id, Bytes> {
    match ch
    case NoChange => names
    case Wrote(id, _) => names[id := writer]
    case Edited(id, _, _) => names[id := own]
    case Removed(id) => names - {id}
  }

  /** The name under which the event would store a new message. */
  function Writer(c: Node, e: Event): Bytes {
    if e.FrameEvent? then e.env.peerName else c.name
  }

  predicate IndexWrites(e: Event) {
    e.FrameEvent? || e.SendEvent? || e.UpdateEvent? || e.DeleteEvent? ==> e.env.db.indexOk
  }

  /** The index of the second store agrees with its messages, and its names follow the change. */
  ghost predicate Follows(c: Node, s: Store, ch: Change, writer: Bytes) {
    && Valid(s, c.secret) && IndexValid(s, c.secret)
    && Names(s) == NamesChange(Names(c.store), ch, writer, c.name)
  }

  lemma NamesAre(s: Store, names: map<Id, Bytes>)
    requires NamesValid(s, names)
    ensures Names(s) == names
  {
  }

  lemma OwnNames(s: Store)
    ensures NamesValid(s, Names(s))
  {
  }

  /* ---------- the store steps behind the events ---------- */

  lemma PutNames(c: Node, name: Bytes, m: Message, author: Key, env: Env)
    requires Indexed(c) && env.db.indexOk
    ensures Follows(c, PutStep(c.store, c.secret, name, m.(from := author), env.drawn, env.db).0,
                    WriteOf(m, author, env), name)
  {
    hide RowsValid, CacheValid, IndexValid, WriteRow, Encodable, NamesValid, Names;
    var op := Put(name, m.(from := author), env.drawn, env.db);
    OwnNames(c.store);
    IndexStep(c.store, c.secret, Names(c.store), op);
    var (t, r) := Exec(c.store, c.secret, op);
    NamesAre(t, NamesAfter(Names(c.store), op, r));
  }

  lemma GetNames(c: Node, id: Id)
    requires Indexed(c)
    ensures var s := GetStep(c.store, c.secret, id).0;
      && Indexed(c.(store := s)) && Names(s) == Names(c.store) && Chats(c.(store := s)) == Chats(c)
  {
    hide RowsValid, CacheValid, Messages, IndexValid, GetStep;
    GetLeaves(c, id);
    GetReadsMap(c.store, c.secret, id);
    SameRowsSameMessages(c.store, GetStep(c.store, c.secret, id).0, c.secret);
  }

  lemma UpdateNames(c: Node, id: Id, content: Bytes, env: Env)
    requires Indexed(c) && env.db.indexOk && id in Chats(c)
    ensures var m := Chats(c)[id].(content := content);
            Follows(c, UpdateStep(c.store, c.secret, id, c.name, m, env.clock, env.db).0,
                    EditOf(Chats(c), id, content, Chats(c)[id].from, env), c.name)
  {
    hide RowsValid, CacheValid, IndexValid, UpdateStep, Encodable, NamesValid, Names, Messages;
    var m := Chats(c)[id].(content := content);
    var op := Update(id, c.name, m, env.clock, env.db);
    OwnNames(c.store);
    IndexStep(c.store, c.secret, Names(c.store), op);
    UpdateRefines(c.store, c.secret, id, c.name, m, env.clock, env.db);
    ChatIds(c, id);
    var (t, r) := Exec(c.store, c.secret, op);
    NamesAre(t, NamesAfter(Names(c.store), op, r));
  }

  lemma ChatIds(c: Node, id: Id)
    requires Sane(c) && id in Chats(c)
    ensures Chats(c)[id].id == id
  {
    hide DecodeMessage;
  }

  lemma DeleteNames(c: Node, id: Id, env: Env)
    requires Indexed(c) && env.db.indexOk
    ensures Follows(c, DeleteStep(c.store, c.secret, id, env.db).0,
                    if env.db.rowOk then Removed(id) else NoChange, c.name)
  {
    hide RowsValid, CacheValid, IndexValid, DeleteStep, NamesValid, Names, Messages;
    var op := Delete(id, env.db);
    OwnNames(c.store);
    IndexStep(c.store, c.secret, Names(c.store), op);
    DeleteKeeps(c.store, c.secret, id, env.db);
    var (t, r) := Exec(c.store, c.secret, op);
    NamesAre(t, NamesAfter(Names(c.store), op, r));
  }

  /* ---------- the handlers ---------- */

  lemma OnUpdateNames(c: Node, id: Id, content: Bytes, key: Key, env: Env)
    requires Indexed(c) && env.db.indexOk
    ensures Follows(c, OnUpdate(c, id, content, key, env).node.store,
                    if key == NIL_KEY then NoChange else EditOf(Chats(c), id, content, key, env), env.peerName)
  {
    hide RowsValid, CacheValid, Messages, IndexValid, UpdateStep, GetStep, Encodable, Names;
    GetLeaves(c, id);
    GetNames(c, id);
    var d := VerifyAuthor(c, id, key).0;
    if id in Chats(c) {
      UpdateNames(d, id, content, env);
    }
  }

  lemma OnDeleteNames(c: Node, id: Id, key: Key, env: Env)
    requires Indexed(c) && env.db.indexOk
    ensures Follows(c, OnDelete(c, id, key, env).node.store,
                    if key == NIL_KEY then NoChange else RemovalOf(Chats(c), id, key, env), env.peerName)
  {
    hide RowsValid, CacheValid, Messages, IndexValid, DeleteStep, GetStep, Names;
    GetLeaves(c, id);
    GetNames(c, id);
    DeleteNames(VerifyAuthor(c, id, key).0, id, env);
  }

  lemma LocalUpdateNames(c: Node, id: Id, content: Bytes, env: Env)
    requires Indexed(c) && env.db.indexOk
    ensures Follows(c, LocalUpdate(c, id, content, env).node.store,
                    if content == [] then NoChange else EditOf(Chats(c), id, content, c.self, env), c.name)
  {
    hide RowsValid, CacheValid, Messages, IndexValid, UpdateStep, GetStep, Encodable, Names;
    GetLeaves(c, id);
    GetNames(c, id);
    var d := OwnedMessage(c, id).0;
    if id in Chats(c) {
      UpdateNames(d, id, content, env);
    }
  }

  lemma LocalDeleteNames(c: Node, id: Id, env: Env)
    requires Indexed(c) && env.db.indexOk
    ensures Follows(c, LocalDelete(c, id, env).node.store, RemovalOf(Chats(c), id, c.self, env), c.name)
  {
    hide RowsValid, CacheValid, Messages, IndexValid, DeleteStep, GetStep, Names;
    GetLeaves(c, id);
    GetNames(c, id);
    DeleteNames(OwnedMessage(c, id).0, id, env);
  }

  /** Files are not indexed. */
  lemma FilesKeepNames(c: Node, s: Store, writer: Bytes)
    requires Indexed(c) && s == c.store.(files := s.files, cache := s.cache) && Valid(s, c.secret)
    ensures Follows(c, s, NoChange, writer)
  {
    hide DecodeMessage, SearchText;
    SameRowsSameMessages(c.store, s, c.secret);
  }

  lemma SignalNames(c: Node, sig: Signal, key: Key, env: Env)
    requires Indexed(c) && env.db.indexOk
    ensures Follows(c, HandleSignal(c, sig, key, env).node.store, SignalChange(Chats(c), sig, key, env), env.peerName)
  {
    hide KindOf, RowsValid, CacheValid, Messages, IndexValid, PutStep, OnUpdate, OnDelete, OnInfoResponse,
      DecodeMessage, DecodeFileMeta, WriteOf, EditOf, RemovalOf, Names;
    match KindOf(sig.typ) {
      case MessageKind =>
        if sig.from == key && DecodeMessage(sig.content).Parsed? {
          PutNames(c, env.peerName, DecodeMessage(sig.content).value, key, env);
        }
      case UpdateKind => OnUpdateNames(c, sig.id, sig.content, key, env);
      case DeleteKind => OnDeleteNames(c, sig.id, key, env);
      case InfoResponseKind =>
        InfoResponseTouches(c, sig.content, key, env);
        FilesStayValid(c.store, OnInfoResponse(c, sig.content, key, env).node.store, c.secret);
        FilesKeepNames(c, OnInfoResponse(c, sig.content, key, env).node.store, env.peerName);
      case _ =>
    }
  }

  lemma FilesStayValid(s: Store, t: Store, secret: Key)
    requires Valid(s, secret) && t == s.(files := t.files)
    ensures Valid(t, secret)
  {
  }

  lemma FrameNames(c: Node, n: nat, plain: Bytes, env: Env)
    requires Indexed(c) && Live(c, n) && env.db.indexOk
    ensures Follows(c, HandleDecrypted(c, n, plain, env).node.store, ChangeOf(c, FrameEvent(n, plain, env)),
                    env.peerName)
  {
    hide RowsValid, CacheValid, Messages, IndexValid, HandleSignal, HandleChunk, SignalChange, ParseSignal, Names,
      RateLimiter.Allow;
    if plain == [] {
      return;
    }
    var s := c.conns[n];
    if plain[0] != MARKER {
      ChunkKeepsNames(c, plain[1..], env);
    } else if ParseSignal(plain).Parsed? {
      var sig := ParseSignal(plain).value;
      if s.status != Accepted {
        if Ungated(KindOf(sig.typ)) {
          SignalNames(c, sig, s.key, env);
          UngatedChangesNothing(Chats(c), sig, s.key, env);
        }
      } else if s.limiter.limit != 0 {
        SignalNames(c.(conns := c.conns[n := s.(limiter := RateLimiter.Allow(s.limiter, env.now).0)]), sig, s.key, env);
      }
    }
  }

  lemma ChunkKeepsNames(c: Node, plain: Bytes, env: Env)
    requires Indexed(c)
    ensures Follows(c, HandleChunk(c, plain, env).store, NoChange, env.peerName)
  {
    hide RowsValid, CacheValid, Messages, IndexValid, Names, Valid, Follows;
    var t := HandleChunk(c, plain, env).store;
    FilesStayValid(c.store, t, c.secret);
    FilesKeepNames(c, t, env.peerName);
  }

  /* ---------- every step and every run ---------- */

  /** The index follows every step: who is named, and by what name. */
  lemma NamesStep(c: Node, e: Event)
    requires Indexed(c) && IndexWrites(e) && Step(c, e).Ok?
    ensures var d := Step(c, e).value;
      Indexed(d) && Names(d.store) == NamesChange(Names(c.store), ChangeOf(c, e), Writer(c, e), c.name)
  {
    hide RowsValid, CacheValid, Messages, IndexValid, HandleDecrypted, Admitted, SignalChange, LocalUpdate, LocalDelete,
      PutStep, WriteOf, EditOf, RemovalOf, BeginInbound, FinishInbound, Dial, LoopEnd, Disconnect, AdminAccept,
      AdminReject, Names;
    StepChanges(c, e);
    match e {
      case FrameEvent(n, plain, env) =>
        if Live(c, n) {
          FrameNames(c, n, plain, env);
          LoopEndKeepsData(HandleDecrypted(c, n, plain, env).node, n);
        } else {
          assert Admitted(c, e) == None by { DeadIsNotAdmitted(c, e); }
        }
      case SendEvent(m, env, _) => PutNames(c, c.name, m, c.self, env);
      case UpdateEvent(id, content, env) => LocalUpdateNames(c, id, content, env);
      case DeleteEvent(id, env) => LocalDeleteNames(c, id, env);
      case ExpireEvent(ids) =>
        ExpireKeeps(c.store, c.secret, ids);
        FilesKeepNames(c, ExpireStep(c.store, ids), c.name);
      case _ => ConnectionsKeepStore(c, e);
    }
  }

  /** The names after a run, read off its events. */
  ghost function NamesRun(c: Node, names: map<Id, Bytes>, events: seq<Event>): map<Id, Bytes>
    requires Sane(c)
    decreases |events|
  {
    if events == [] then names else
    StepChanges(c, events[0]);
    var next := NamesChange(names, ChangeOf(c, events[0]), Writer(c, events[0]), c.name);
    match Step(c, events[0])
    case Ok(d) => NamesRun(d, next, events[1..])
    case _ => next
  }

  lemma {:induction false} NamesInRun(c: Node, events: seq<Event>)
    requires Indexed(c) && Run(c, events).Ok? && forall i :: 0 <= i < |events| ==> IndexWrites(events[i])
    ensures var d := Run(c, events).value;
      Indexed(d) && Names(d.store) == NamesRun(c, Names(c.store), events)
    decreases |events|
  {
    hide Sane, IndexValid, Step, Names, NamesChange, ChangeOf;
    if events != [] {
      StepChanges(c, events[0]);
      NamesStep(c, events[0]);
      NamesInRun(Step(c, events[0]).value, events[1..]);
    }
  }

  /**
    Search after any run of a node: exactly the stored messages whose recipient, text or recorded
    sender name matches, or the first `limit` of them by identifier.
  */
  lemma SearchInRun(c: Node, events: seq<Event>, like: Like, query: Bytes, limit: int)
    requires Indexed(c) && Run(c, events).Ok? && forall i :: 0 <= i < |events| ==> IndexWrites(events[i])
    ensures var d, names := Run(c, events).value, NamesRun(c, Names(c.store), events);
      && Sane(d) && Chats(d).Keys == names.Keys
      && var found := SearchStep(d.store, d.secret, like, query, limit).1;
      if query == [] then found == [] else
      FirstHits(found, Chats(d), (set id | id in Chats(d) && (like(names[id], query) || like(Chats(d)[id].to, query)
                                                              || like(SearchText(Chats(d)[id]), query))), limit)
  {
    hide Valid, IndexValid, Run, Names, NamesRun, SearchText, FirstHits, Messages, Ascending, Limited, Pick;
    NamesInRun(c, events);
    var d, names := Run(c, events).value, NamesRun(c, Names(c.store), events);
    OwnNames(d.store);
    SearchReadsMessages(d.store, d.secret, names, like, query, limit);
    if query != [] {
      var hits := MessageHits(Chats(d), names, like, query);
      forall id | id in Chats(d) ensures Chats(d)[id].id == id { ChatIds(d, id); }
      PickFirst(Chats(d), hits, limit);
      assert hits == set id | id in Chats(d) && (like(names[id], query) || like(Chats(d)[id].to, query)
                                                 || like(SearchText(Chats(d)[id]), query));
    }
  }

  /* ---------- three names ---------- */

  /** A received message is listed under the peer's display name. */
  lemma PeerIsNamed(d: Node, n: nat, m: Message, env: Env)
    requires Indexed(d) && Open(d, n, m.from) && Admits(d, n, env.now)
    requires Sendable(m) && m.id != NIL_ID && env.db.rowOk && env.db.indexOk
    ensures var r := Step(d, FrameEvent(n, MessageFrame(m), env));
      r.Ok? && Names(r.value.store) == Names(d.store)[m.id := env.peerName]
  {
    hide Sane, Chats, IndexValid, ParseSignal, DecodeMessage, KindOf, RateLimiter.Allow, MessageFrame, Step, Names;
    var e := FrameEvent(n, MessageFrame(m), env);
    MessageArrives(d, n, m, env);
    NamesStep(d, e);
    FrameParses(m);
    assert ChangeOf(d, e) == Wrote(m.id, m);
  }

  /** A peer's edit of its own message lists the message under our name, and no longer under the peer's. */
  lemma EditIsNamedOwn(d: Node, n: nat, id: Id, content: Bytes, env: Env)
    requires Indexed(d) && Live(d, n) && d.conns[n].status == Accepted && Admits(d, n, env.now)
    requires id in Chats(d) && Chats(d)[id].from == d.conns[n].key != NIL_KEY
    requires |content| < U32_LIMIT && env.clock >= 0 && env.db.rowOk && env.db.indexOk
    ensures var r := Step(d, FrameEvent(n, SignalBytes(Signal(UPDATE, d.conns[n].key, id, content)), env));
      && r.Ok? && Sane(r.value) && Names(r.value.store) == Names(d.store)[id := d.name]
      && Chats(r.value) == Chats(d)[id := Chats(d)[id].(content := content, updatedAt := env.clock)]
  {
    hide Sane, Chats, IndexValid, ParseSignal, KindOf, RateLimiter.Allow, Step, Names, SignalBytes;
    var sig := Signal(UPDATE, d.conns[n].key, id, content);
    var e := FrameEvent(n, SignalBytes(sig), env);
    SignalRoundTrip(sig, []);
    assert SignalBytes(sig) + [] == SignalBytes(sig);
    ParseSignalTotal(SignalBytes(sig));
    KindOfTypeName(UpdateKind);
    StoredIsEncodable(d, id);
    assert ChangeOf(d, e) == Edited(id, content, env.clock);
    FrameCrashesIff(d, n, SignalBytes(sig), env);
    assert Handled(d, e) == Some(sig);
    StepChanges(d, e);
    NamesStep(d, e);
  }

  /** A message of our own is listed under the name we have when we send it. */
  lemma SenderIsNamed(c: Node, name: Bytes, m: Message, env: Env, served: bool)
    requires Indexed(c) && Encodable(m.(from := c.self)) && env.db.rowOk && env.db.indexOk
    ensures var r := Run(c, [RenameEvent(name), SendEvent(m, env, served)]);
      r.Ok? && Names(r.value.store) == Names(c.store)[if m.id == NIL_ID then env.drawn else m.id := name]
  {
    hide Sane, Chats, IndexValid, Step, Names, Encodable, WriteRow;
    var d := c.(name := name);
    RenameIs(c, name);
    NamesStep(c, RenameEvent(name));
    SendReturns(d, m, env, served);
    NamesStep(d, SendEvent(m, env, served));
    RunTwo(c, RenameEvent(name), SendEvent(m, env, served));
  }

  lemma RenameIs(c: Node, name: Bytes)
    ensures Step(c, RenameEvent(name)) == Ok(c.(name := name))
  {
    hide FrameStep, SendStep;
  }

  lemma SendReturns(c: Node, m: Message, env: Env, served: bool)
    requires Encodable(m.(from := c.self))
    ensures Step(c, SendEvent(m, env, served)).Ok?
  {
    hide FrameStep, Encodable, WriteRow;
  }
}
