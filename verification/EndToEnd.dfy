/**
  A message from one node to another: encoded, wrapped in a signal, encrypted, decrypted,
  dispatched, admitted and stored. The theorems compose the layers.
*/
module EndToEnd {
  import opened ByteStrings
  import opened MessageCodec
  import opened Envelopes
  import opened ChatStore
  import opened ChatNode
  import opened Authorship
  import opened AcceptGate
  import RateLimiter
  import Channel = SecureChannel
  import Outbox

  /** The message that leaves the sender: signed with its key, with the identifier the store drew. */
  function Outgoing(c: Node, m: Message, env: Env): Message {
    m.(from := c.self, id := if m.id == NIL_ID then env.drawn else m.id)
  }

  /** The signal that `sendMessageToPeer` sends or queues. */
  function MessageFrame(m: Message): Bytes
    requires Sendable(m)
  {
    SignalBytes(Signal(MESSAGE, m.from, NIL_ID, MessageBytes(m)))
  }

  predicate Sendable(m: Message) {
    Encodable(m) && |MessageBytes(m)| < U32_LIMIT
  }

  /** What `queueSignal` draws: an identifier, the wall clock, and whether the insert succeeds. */
  datatype Draw = Draw(id: Id, now: int, ok: bool)

  lemma OutgoingEncodable(c: Node, m: Message, env: Env)
    ensures Encodable(Outgoing(c, m, env)) <==> Encodable(m.(from := c.self))
  {
  }

  lemma PutCrashes(c: Node, m: Message, env: Env)
    ensures PutStep(c.store, c.secret, c.name, m.(from := c.self), env.drawn, env.db).1.Crashed? <==>
            !Encodable(m.(from := c.self))
  {
    hide Encodable, WriteRow;
  }

  /** The first half of `sendMessageToPeer`: the message is stored and its signal built. */
  method StoreAndBuild(c: Node, store: MessageStore, m: Message, env: Env) returns (r: Result<Bytes>)
    requires store.secret == c.secret && store.State() == c.store
    modifies store
    ensures store.State() == LocalSend(c, m, env).node.store
    ensures r.Crashed? <==> LocalSend(c, m, env).Panicking?
    ensures r.Ok? <==> !r.Crashed? && Sendable(Outgoing(c, m, env))
    ensures r.Ok? ==> r.value == MessageFrame(Outgoing(c, m, env))
  {
    hide MessageBytes, SignalBytes, PutStep, Encodable;
    OutgoingEncodable(c, m, env);
    PutCrashes(c, m, env);
    var msg := m.(from := c.self);
    var put := store.Put(c.name, msg, env.drawn, env.db);
    if put.Crashed? {
      return Crashed;
    }
    if msg.id == NIL_ID {
      msg := msg.(id := env.drawn);
    }
    var encoded, payload := Encode(msg);
    var ok, sig := NewSignal(Signal(MESSAGE, c.self, NIL_ID, payload[..]));
    r := if ok then Ok(sig[..]) else Failed;
  }

  /**
    `sendMessageToPeer`: the message is stored whether or not the peer is there, then its signal
    goes over the target's session `sess` or into the outbox. A failed store is only logged; a
    failed send or insert is returned, and a failed send is not queued.
  */
  method SendMessageToPeer(c: Node, store: MessageStore, sess: Channel.Session, box: Outbox.OutboxStore,
                           target: Key, m: Message, env: Env, writeOk: bool, draw: Draw)
    returns (r: Result<()>, written: Option<Channel.Frame>)
    requires store.secret == c.secret && store.State() == c.store
    modifies store, sess`sendNonce, box
    ensures store.State() == LocalSend(c, m, env).node.store
    ensures r.Crashed? <==> LocalSend(c, m, env).Panicking?
    ensures r.Crashed? || !Sendable(Outgoing(c, m, env)) ==>
      !r.Ok? && written == None && sess.Sender() == old(sess.Sender()) && box.rows == old(box.rows)
    ensures !r.Crashed? && Sendable(Outgoing(c, m, env)) ==>
      var signal := MessageFrame(Outgoing(c, m, env));
      if target in c.sessions && c.sessions[target] < |c.conns| && c.conns[c.sessions[target]].status == Accepted then
        && box.rows == old(box.rows) && sess.Sender() == Channel.Encrypt(old(sess.Sender()), signal).0
        && written == (if sess.conn && writeOk then Channel.Encrypt(old(sess.Sender()), signal).1 else None)
        && r == if written.Some? then Ok(()) else Failed
      else
        && sess.Sender() == old(sess.Sender()) && written == None
        && box.rows == (if draw.ok then old(box.rows)[draw.id := Outbox.Entry(draw.id, target, signal, draw.now, 0)]
                        else old(box.rows))
        && r == if draw.ok then Ok(()) else Failed
  {
    hide LocalSend, Outgoing, MessageFrame, Sendable, Channel.Encrypt;
    written := None;
    var built := StoreAndBuild(c, store, m, env);
    if !built.Ok? {
      return if built.Crashed? then Crashed else Failed, None;
    }
    if target !in c.sessions || c.sessions[target] >= |c.conns| || c.conns[c.sessions[target]].status != Accepted {
      var queued := box.Put(target, built.value, draw.id, draw.now, draw.ok);
      return if queued then Ok(()) else Failed, None;
    }
    written := sess.Send(built.value, writeOk);
    r := if written.Some? then Ok(()) else Failed;
  }

  lemma AcceptOpens(c: Node, key: Key)
    requires key in c.sessions && c.sessions[key] < |c.conns|
    ensures var d := AdminAccept(c, key);
      && Step(c, AcceptEvent(key)) == Ok(d) && d.sessions == c.sessions && |d.conns| == |c.conns|
      && d.conns[d.sessions[key]].status == Accepted
  {
    hide FrameStep, SendStep;
  }

  lemma OwnRow(rows: map<Id, Outbox.Entry>, after: map<Id, Outbox.Entry>, list: seq<Outbox.Entry>, deletes: seq<bool>,
               k: nat, bumped: bool, at: nat)
    requires |deletes| == |list| && at < |list| && Outbox.LeavesRows(rows, after, list, deletes, k, bumped)
    ensures list[at].id in after <==> !(at < k && deletes[at])
  {
  }

  lemma LeadingReaches(writes: seq<bool>, at: nat)
    requires at < |writes|
    ensures at < Channel.Leading(writes) <==> forall i :: 0 <= i <= at ==> writes[i]
  {
    hide Channel.Leading;
    var k := Channel.Leading(writes);
    if at >= k {
      assert !writes[k];
    }
  }

  lemma SealedAt(key: Channel.CipherKey, n: nat, sent: seq<Outbox.Entry>)
    ensures var wire := Channel.SealedFrom(key, n, Outbox.Signals(sent));
      && |wire| == |sent|
      && forall i :: 0 <= i < |sent| ==> wire[i] == Channel.SealedFrame(key, Channel.Advance(n, i), sent[i].signal)
  {
    hide Channel.SealedFrame, Channel.Advance;
  }

  /** A listing of the table with a new row for the peer holds that row exactly once. */
  lemma ListedOnce(rows: map<Id, Outbox.Entry>, x: Outbox.Entry, list: seq<Outbox.Entry>) returns (at: nat)
    requires Outbox.Listing(rows[x.id := x], x.target, list)
    ensures at < |list| && list[at] == x && forall i :: 0 <= i < |list| && i != at ==> list[i].id != x.id
  {
    assert x.id in rows[x.id := x] && rows[x.id := x][x.id] in list;
    at :| 0 <= at < |list| && list[at] == x;
    assert forall i :: 0 <= i < at ==> list[i].id != list[at].id;
  }

  /**
    A message to a peer whose session is not accepted, then the admin's accept, then a flush over
    any listing of the table: nothing is written before the accept, and the flush writes the
    message's signal once, at its place in the listing, if no earlier write of the flush fails.
    Otherwise it stays in the outbox and nothing of it is written.
  */
  method MessageThenAccept(c: Node, store: MessageStore, sess: Channel.Session, box: Outbox.OutboxStore, target: Key,
                           m: Message, env: Env, draw: Draw, list: seq<Outbox.Entry>, writes: seq<bool>,
                           deletes: seq<bool>, bumpOk: bool)
    returns (d: Node, wire: seq<Channel.Frame>, ghost at: nat)
    requires store.secret == c.secret && store.State() == c.store && LocalSend(c, m, env).Returned?
    requires target in c.sessions && c.sessions[target] < |c.conns| && c.conns[c.sessions[target]].status != Accepted
    requires Sendable(Outgoing(c, m, env)) && draw.ok && sess.sendKey.Some? && sess.conn
    requires |writes| == |deletes| == |list|
    requires Outbox.Listing(box.rows[draw.id := Outbox.Entry(draw.id, target, MessageFrame(Outgoing(c, m, env)),
                                                             draw.now, 0)], target, list)
    modifies store, sess`sendNonce, box
    ensures Ok(d) == Step(LocalSend(c, m, env).node, AcceptEvent(target))
    ensures d.conns[d.sessions[target]].status == Accepted
    ensures forall i :: 0 <= i < |list| ==> (list[i].id == draw.id <==> i == at)
    ensures at < |list| && list[at].signal == MessageFrame(Outgoing(c, m, env)) && |wire| <= |list|
    ensures forall i :: 0 <= i < |wire| ==>
      wire[i] == Channel.SealedFrame(sess.sendKey.value, Channel.Advance(old(sess.sendNonce), i), list[i].signal)
    ensures if forall i :: 0 <= i <= at ==> writes[i] then at < |wire| && (draw.id in box.rows <==> !deletes[at])
            else |wire| <= at && draw.id in box.rows
  {
    hide Sendable, Outgoing, MessageFrame, Channel.Encrypt, Channel.Leading, Channel.SealedFrame, Channel.SealedFrom,
      Channel.Advance, Outbox.Signals, Outbox.Listing, Outbox.LeavesRows, LocalSend, AdminAccept;
    ghost var x := Outbox.Entry(draw.id, target, MessageFrame(Outgoing(c, m, env)), draw.now, 0);
    at := ListedOnce(box.rows, x, list);
    LocalSendTouches(c, m, env);
    var r, written := SendMessageToPeer(c, store, sess, box, target, m, env, false, draw);
    assert written == None && box.rows == old(box.rows)[x.id := x] && sess.sendNonce == old(sess.sendNonce);
    AcceptOpens(LocalSend(c, m, env).node, target);
    d := AdminAccept(LocalSend(c, m, env).node, target);
    var accepted, sent := d.conns[d.sessions[target]].status == Accepted, [];
    sent, wire := box.Flush(target, list, accepted, sess, writes, deletes, bumpOk);
    OwnRow(old(box.rows)[x.id := x], box.rows, list, deletes, |sent|, accepted && bumpOk && |sent| < |list|, at);
    LeadingReaches(writes, at);
    SealedAt(sess.sendKey.value, old(sess.sendNonce), sent);
  }

  /** The session takes frames of this peer and is accepted. */
  predicate Open(d: Node, n: nat, peer: Key) {
    Live(d, n) && d.conns[n].key == peer && d.conns[n].status == Accepted
  }

  /** The session's limiter admits a signal at this time, from its tokens or by a refill. */
  predicate Admits(d: Node, n: nat, now: int)
    requires n < |d.conns|
  {
    d.conns[n].limiter.limit != 0 && RateLimiter.Allow(d.conns[n].limiter, now).1
  }

  lemma FrameParses(m: Message)
    requires Sendable(m)
    ensures var p := MessageFrame(m);
      && p != [] && p[0] == MARKER && ParseSignal(p).Parsed?
      && ParseSignal(p).value == Signal(MESSAGE, m.from, NIL_ID, MessageBytes(m))
      && KindOf(ParseSignal(p).value.typ) == MessageKind
      && DecodeMessage(ParseSignal(p).value.content) == Parsed(m, |MessageBytes(m)|)
  {
    hide MessageBytes, SignalBytes, ParseSignal, DecodeMessage, KindOf, Encodable;
    var sig := Signal(MESSAGE, m.from, NIL_ID, MessageBytes(m));
    SignalRoundTrip(sig, []);
    assert SignalBytes(sig) + [] == SignalBytes(sig);
    ParseSignalTotal(SignalBytes(sig));
    KindOfTypeName(MessageKind);
    EncodedRowDecodes(m);
  }

  /**
    An admitted message frame on an accepted session stores exactly the message sent, and changes
    nothing else but the session's limiter and the store's own tables.
  */
  lemma MessageArrives(d: Node, n: nat, m: Message, env: Env)
    requires Sane(d) && Open(d, n, m.from) && Admits(d, n, env.now)
    requires Sendable(m) && m.id != NIL_ID && env.db.rowOk
    ensures var r := Step(d, FrameEvent(n, MessageFrame(m), env));
      && r.Ok? && Sane(r.value) && Chats(r.value) == Chats(d)[m.id := m]
      && Open(r.value, n, m.from)
      && r.value == d.(store := r.value.store,
                       conns := d.conns[n := d.conns[n].(limiter := RateLimiter.Allow(d.conns[n].limiter, env.now).0)])
  {
    hide Sane, Chats, ParseSignal, DecodeMessage, KindOf, RateLimiter.Allow, MessageFrame, WriteRow;
    var e := FrameEvent(n, MessageFrame(m), env);
    FrameParses(m);
    StepChanges(d, e);
    assert ChangeOf(d, e) == Wrote(m.id, m);
  }

  /** What `Get` returns for a stored message. */
  lemma ReadBack(d: Node, m: Message)
    requires Sane(d) && m.id in Chats(d) && Chats(d)[m.id] == m
    ensures GetStep(d.store, d.secret, m.id).1 == Ok(m)
  {
    hide GetStep, RowsValid, CacheValid, Messages;
    GetReadsMap(d.store, d.secret, m.id);
  }

  /**
    End to end: the sender stores and sends a message over a session whose two cipher states
    agree. The receiver decrypts it, stores it, and reads it back by its identifier with every
    field as sent and the sender's key as its author; so does the sender, and the cipher
    states agree again.
  */
  lemma MessageDelivered(c: Node, d: Node, n: nat, m: Message, env: Env, env': Env,
                         tx: Channel.CipherState, rx: Channel.CipherState)
    requires Sane(c) && Sane(d) && Open(d, n, c.self) && Admits(d, n, env'.now)
    requires Sendable(Outgoing(c, m, env)) && Outgoing(c, m, env).id != NIL_ID
    requires env.db.rowOk && env'.db.rowOk
    requires tx == rx && tx.key.Some? && tx.nonce < U64_LIMIT
    ensures var out := Outgoing(c, m, env);
      var (tx', frame) := Channel.Encrypt(tx, MessageFrame(out));
      && frame.Some?
      && var (rx', plain) := Channel.Decrypt(rx, frame.value);
      && rx' == tx' && plain == Some(MessageFrame(out))
      && var here, there := LocalSend(c, m, env), Step(d, FrameEvent(n, plain.value, env'));
      && here.Returned? && there.Ok?
      && GetStep(here.node.store, c.secret, out.id).1 == Ok(out)
      && GetStep(there.value.store, there.value.secret, out.id).1 == Ok(out)
      && out.from == c.self
  {
    hide Sane, Chats, Step, MessageFrame, Channel.Decrypt, Channel.SealedFrame, GetStep, WriteRow, MessageBytes;
    var out := Outgoing(c, m, env);
    Channel.DecryptSealed(tx.key.value, tx.nonce, tx.nonce, MessageFrame(out));
    MessageArrives(d, n, out, env');
    ReadBack(Step(d, FrameEvent(n, MessageFrame(out), env')).value, out);
    PutChanges(c, c.name, m, c.self, env);
    ReadBack(LocalSend(c, m, env).node, out);
  }

  /* ---------- a whole conversation ---------- */

  predicate AllSendable(ms: seq<Message>) {
    forall i :: 0 <= i < |ms| ==> Sendable(ms[i])
  }

  function Plains(ms: seq<Message>): (r: seq<Bytes>)
    requires AllSendable(ms)
    ensures |r| == |ms|
  {
    seq(|ms|, i requires 0 <= i < |ms| => MessageFrame(ms[i]))
  }

  /** The frame events of a session that hands over the given plaintexts. */
  function Arrivals(n: nat, plains: seq<Bytes>, envs: seq<Env>): (r: seq<Event>)
    requires |envs| == |plains|
    ensures |r| == |plains|
  {
    seq(|plains|, i requires 0 <= i < |plains| => FrameEvent(n, plains[i], envs[i]))
  }

  /** When the frames of a sequence are handled. */
  function Times(envs: seq<Env>): (r: seq<int>)
    ensures |r| == |envs|
  {
    seq(|envs|, i requires 0 <= i < |envs| => envs[i].now)
  }

  lemma OpenIsThere(d: Node, n: nat, peer: Key)
    requires Open(d, n, peer)
    ensures n < |d.conns|
  {
  }

  predicate Conversation(ms: seq<Message>, peer: Key) {
    && AllSendable(ms)
    && (forall i :: 0 <= i < |ms| ==> ms[i].id != NIL_ID && ms[i].from == peer)
  }

  /** The last message of the sequence with its identifier. */
  predicate LastOfId(ms: seq<Message>, i: nat)
    requires i < |ms|
  {
    ms[i].id !in IdsOf(ms[i + 1..])
  }

  function IdsOf(ms: seq<Message>): set<Id> {
    set m | m in ms :: m.id
  }

  /** `after` holds, under every identifier of the sequence, its last message, and otherwise what `before` held. */
  ghost predicate Written(before: map<Id, Message>, ms: seq<Message>, after: map<Id, Message>) {
    && (forall i :: 0 <= i < |ms| && LastOfId(ms, i) ==> ms[i].id in after && after[ms[i].id] == ms[i])
    && (forall id :: id in before && id !in IdsOf(ms) ==> id in after && after[id] == before[id])
  }

  lemma WrittenHead(before: map<Id, Message>, ms: seq<Message>, after: map<Id, Message>)
    requires ms != [] && Written(before[ms[0].id := ms[0]], ms[1..], after)
    ensures Written(before, ms, after)
  {
    hide IdsOf;
    var rest := ms[1..];
    assert IdsOf(ms) == {ms[0].id} + IdsOf(rest) by { IdsOfHead(ms); }
    forall i | 0 <= i < |ms| && LastOfId(ms, i) ensures ms[i].id in after && after[ms[i].id] == ms[i] {
      if i > 0 {
        assert rest[i - 1] == ms[i] && rest[i..] == ms[i + 1..];
      }
    }
  }

  lemma IdsOfHead(ms: seq<Message>)
    requires ms != []
    ensures IdsOf(ms) == {ms[0].id} + IdsOf(ms[1..])
  {
    assert ms == [ms[0]] + ms[1..];
  }

  lemma {:induction false} AllArrive(d: Node, n: nat, peer: Key, ms: seq<Message>, envs: seq<Env>)
    requires Sane(d) && Conversation(ms, peer) && Open(d, n, peer)
    requires |envs| == |ms| && RateLimiter.AllAllowed(d.conns[n].limiter, Times(envs))
    requires forall i :: 0 <= i < |envs| ==> envs[i].db.rowOk
    ensures var r := Run(d, Arrivals(n, Plains(ms), envs));
      r.Ok? && Sane(r.value) && Written(Chats(d), ms, Chats(r.value))
    decreases |ms|
  {
    hide Sane, Chats, Step, Run, MessageFrame, Sendable, Open, Plains, Arrivals, Written, RateLimiter.Allow;
    if ms == [] {
      NoArrivals(d, n, ms, envs);
      assert Written(Chats(d), ms, Chats(d)) by { NoneWritten(Chats(d), ms); }
    } else {
      var e := FrameEvent(n, MessageFrame(ms[0]), envs[0]);
      var rest, later := ms[1..], envs[1..];
      OpenIsThere(d, n, peer);
      assert Times(envs)[0] == envs[0].now && Times(envs)[1..] == Times(later);
      MessageArrives(d, n, ms[0], envs[0]);
      var mid := Step(d, e).value;
      assert Conversation(rest, peer);
      AllArrive(mid, n, peer, rest, later);
      ArrivalsHead(n, ms, envs);
      RunCons(d, e, Arrivals(n, Plains(rest), later));
      WrittenHead(Chats(d), ms, Chats(Run(mid, Arrivals(n, Plains(rest), later)).value));
    }
  }

  lemma NoneWritten(m: map<Id, Message>, ms: seq<Message>)
    requires ms == []
    ensures Written(m, ms, m)
  {
  }

  lemma NoArrivals(d: Node, n: nat, ms: seq<Message>, envs: seq<Env>)
    requires ms == [] && envs == []
    ensures Run(d, Arrivals(n, Plains(ms), envs)) == Ok(d)
  {
  }

  lemma ArrivalsHead(n: nat, ms: seq<Message>, envs: seq<Env>)
    requires AllSendable(ms) && |envs| == |ms| > 0
    ensures AllSendable(ms[1..])
    ensures Arrivals(n, Plains(ms), envs) ==
            [FrameEvent(n, MessageFrame(ms[0]), envs[0])] + Arrivals(n, Plains(ms[1..]), envs[1..])
  {
    hide MessageFrame, Sendable;
  }

  /**
    A conversation over a loss-free wire: from any nonce at which both sides agree, the receiver
    decrypts exactly the frames sent, in order, and if its limiter admits each of them it ends up
    able to read back, under every identifier, the last message sent with it.
  */
  lemma ConversationDelivered(d: Node, n: nat, peer: Key, ms: seq<Message>, envs: seq<Env>,
                              key: Channel.CipherKey, nonce: nat)
    requires Sane(d) && Conversation(ms, peer) && Open(d, n, peer) && nonce + |ms| < U64_LIMIT
    requires |envs| == |ms| && RateLimiter.AllAllowed(d.conns[n].limiter, Times(envs))
    requires forall i :: 0 <= i < |envs| ==> envs[i].db.rowOk
    ensures var (rx, got) := Channel.Receive(Channel.CipherState(Some(key), nonce),
                                             Channel.SealedFrom(key, nonce, Plains(ms)));
      && got == Plains(ms) && rx == Channel.CipherState(Some(key), nonce + |ms|)
      && var r := Run(d, Arrivals(n, got, envs));
      r.Ok? && forall i :: 0 <= i < |ms| && LastOfId(ms, i) ==>
        GetStep(r.value.store, r.value.secret, ms[i].id).1 == Ok(ms[i])
  {
    hide Sane, Chats, Run, Plains, Open, GetStep, Channel.Receive, Channel.SealedFrom, RateLimiter.AllAllowed;
    Channel.InStepReceives(key, nonce, nonce, Plains(ms));
    AllArrive(d, n, peer, ms, envs);
    var r := Run(d, Arrivals(n, Plains(ms), envs));
    forall i | 0 <= i < |ms| && LastOfId(ms, i)
      ensures GetStep(r.value.store, r.value.secret, ms[i].id).1 == Ok(ms[i])
    {
      ReadBack(r.value, ms[i]);
    }
  }

  /* ---------- from the first connect to the stored message ---------- */

  lemma FullLimiterAllows(limit: int, window: int, now: int, at: int)
    requires limit > 0
    ensures RateLimiter.Allow(RateLimiter.Bucket(limit, window, limit, now), at).1
  {
    hide RateLimiter.Interval, RateLimiter.TruncDiv;
  }

  /**
    An accepted peer without a session is heard: it connects, its handshake succeeds, and its first
    message is stored. The same holds when we dial it.
  */
  lemma AcceptedPeerIsHeard(c: Node, m: Message, now: int, env: Env)
    requires Sane(c) && c.limit > 0 && Sendable(m) && m.id != NIL_ID && env.db.rowOk
    requires m.from != c.self && m.from in c.peers && c.peers[m.from] == Accepted && m.from !in c.sessions
    ensures var r := Run(c, [BeginEvent(m.from), FinishEvent(|c.connects|, true, now),
                             FrameEvent(|c.conns|, MessageFrame(m), env)]);
      r.Ok? && Sane(r.value) && Chats(r.value) == Chats(c)[m.id := m]
    ensures m.from != NIL_KEY ==>
      var r := Run(c, [DialEvent(m.from, now), FrameEvent(|c.conns|, MessageFrame(m), env)]);
      r.Ok? && Sane(r.value) && Chats(r.value) == Chats(c)[m.id := m]
  {
    hide Sane, Chats, Step, Run, MessageFrame, Sendable, RateLimiter.Allow;
    if m.from != NIL_KEY {
      var dial := DialEvent(m.from, now);
      DialRegisters(c, m.from, now);
      StepChanges(c, dial);
      FullLimiterAllows(c.limit, c.window, now, env.now);
      MessageArrives(Step(c, dial).value, |c.conns|, m, env);
      RunTwo(c, dial, FrameEvent(|c.conns|, MessageFrame(m), env));
    }
    var e, f := BeginEvent(m.from), FinishEvent(|c.connects|, true, now);
    KnownPeerConnects(c, m.from, now);
    StepChanges(c, e);
    StepChanges(Step(c, e).value, f);
    FullLimiterAllows(c.limit, c.window, now, env.now);
    MessageArrives(Step(Step(c, e).value, f).value, |c.conns|, m, env);
    RunThree(c, e, f, FrameEvent(|c.conns|, MessageFrame(m), env));
  }
}
