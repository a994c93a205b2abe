/**
  Where stored messages come from, across the layers: a node and the channel of each of its
  sessions, over a network that drops, repeats, reorders and forges. In every run, whatever is
  stored under a peer's key was encrypted by that peer on one of its sessions.
*/
module Provenance {
  import opened ByteStrings
  import opened MessageCodec
  import opened Envelopes
  import opened ChatStore
  import opened ChatNode
  import opened Authorship
  import RateLimiter
  import Channel = SecureChannel

  /** A node and, for each of its sessions, the two ends of its channel with the network between. */
  datatype World = World(node: Node, nets: seq<Channel.Net>)

  /** Our end of a session's channel; the peer has the other one. */
  function Ours(c: Node, n: nat): Channel.Side
    requires n < |c.conns|
  {
    if c.conns[n].inbound then Channel.Responder else Channel.Initiator
  }

  function Theirs(c: Node, n: nat): Channel.Side
    requires n < |c.conns|
  {
    Channel.Other(Ours(c, n))
  }

  /**
    A step of a channel that hands nothing to us; a frame that reaches us and is handled if it
    decrypts; or an event of the node, with the secret of the handshake if it starts a session.
  */
  datatype Move =
    | Wire(n: nat, step: Channel.Step)
    | Arrive(n: nat, frame: Channel.Frame, env: Env)
    | Act(e: Event, shared: Bytes)

  function WireMove(w: World, n: nat, step: Channel.Step): World {
    if n >= |w.nets| || n >= |w.node.conns| || (step.DeliverStep? && step.side == Ours(w.node, n)) then w
    else w.(nets := w.nets[n := Channel.Apply(w.nets[n], step)])
  }

  function ArriveMove(w: World, n: nat, frame: Channel.Frame, env: Env): Result<World> {
    if n >= |w.nets| || !Live(w.node, n) || !Channel.CanAppear(w.nets[n], frame) then Ok(w) else
    var side := Ours(w.node, n);
    var out := Channel.Decrypt(w.nets[n].Get(side).receiver, frame).1;
    var nets := w.nets[n := Channel.Apply(w.nets[n], Channel.DeliverStep(side, frame))];
    if out.None? then Ok(w.(nets := nets)) else
    match Step(w.node, FrameEvent(n, out.value, env))
    case Ok(d) => Ok(World(d, nets))
    case Failed => Failed
    case Crashed => Crashed
  }

  /** Every handshake agrees on a secret of its own. */
  function ActMove(w: World, e: Event, shared: Bytes): Result<World> {
    if e.FrameEvent? || exists i :: 0 <= i < |w.nets| && w.nets[i].shared == shared then Ok(w) else
    match Step(w.node, e)
    case Ok(d) => Ok(World(d, if |d.conns| > |w.nets| then w.nets + [Channel.Init(shared)] else w.nets))
    case Failed => Failed
    case Crashed => Crashed
  }

  function MoveStep(w: World, m: Move): Result<World> {
    match m
    case Wire(n, step) => Ok(WireMove(w, n, step))
    case Arrive(n, frame, env) => ArriveMove(w, n, frame, env)
    case Act(e, shared) => ActMove(w, e, shared)
  }

  function Play(w: World, moves: seq<Move>): Result<World>
    decreases |moves|
  {
    if moves == [] then Ok(w) else
    match MoveStep(w, moves[0])
    case Ok(v) => Play(v, moves[1..])
    case Failed => Failed
    case Crashed => Crashed
  }

  /* ---------- what a plaintext says ---------- */

  /** The plaintext is a message that was stored as `m`, up to later edits of its content. */
  predicate Carries(plain: Bytes, m: Message) {
    && ParseSignal(plain).Parsed? && KindOf(ParseSignal(plain).value.typ) == MessageKind
    && var p := DecodeMessage(ParseSignal(plain).value.content);
    && p.Parsed? && (p.value.id == m.id || p.value.id == NIL_ID)
    && m == p.value.(id := m.id, from := m.from, content := m.content, updatedAt := m.updatedAt)
  }

  /** The plaintext is that message, or an edit of it, with this content. */
  predicate Says(plain: Bytes, m: Message) {
    ParseSignal(plain).Parsed? &&
    var sig := ParseSignal(plain).value;
    match KindOf(sig.typ)
    case MessageKind =>
      var p := DecodeMessage(sig.content);
      p.Parsed? && (p.value.id == m.id || p.value.id == NIL_ID) && p.value.content == m.content
    case UpdateKind => sig.id == m.id && sig.content == m.content
    case _ => false
  }

  /** The peer of session `n` has this key and encrypted the plaintext there. */
  ghost predicate EncryptedOn(w: World, n: int, key: Key, plain: Bytes) {
    && 0 <= n < |w.nets| && n < |w.node.conns| && w.node.conns[n].key == key
    && plain in w.nets[n].Get(Theirs(w.node, n)).encrypted
  }

  ghost predicate Encrypted(w: World, key: Key, plain: Bytes) {
    exists n :: EncryptedOn(w, n, key, plain)
  }

  /** A message of ours, or one whose fields and content its author encrypted. */
  ghost predicate Genuine(w: World, m: Message) {
    || m.from == w.node.self
    || (&& (exists plain :: Encrypted(w, m.from, plain) && Carries(plain, m))
        && (exists plain :: Encrypted(w, m.from, plain) && Says(plain, m)))
  }

  /** One channel for each session, all of them sound. */
  ghost predicate Wired(w: World) {
    |w.nets| == |w.node.conns| && forall n :: 0 <= n < |w.nets| ==> Channel.Sound(w.nets[n])
  }

  ghost predicate AllGenuine(w: World) {
    Sane(w.node) && forall id :: id in Chats(w.node) ==> Chats(w.node)[id].id == id && Genuine(w, Chats(w.node)[id])
  }

  /* ---------- sessions keep their keys, histories grow ---------- */

  /** Sessions keep key and direction; at most one is new. */
  ghost predicate KeysKept(c: Node, d: Node) {
    && d.self == c.self && |c.conns| <= |d.conns| <= |c.conns| + 1
    && forall i :: 0 <= i < |c.conns| ==> d.conns[i].key == c.conns[i].key && d.conns[i].inbound == c.conns[i].inbound
  }

  lemma BeginKeeps(c: Node, key: Key)
    ensures KeysKept(c, BeginInbound(c, key))
  {
  }

  lemma FinishKeeps(c: Node, i: nat, ok: bool, now: int)
    requires i < |c.connects|
    ensures KeysKept(c, FinishInbound(c, i, ok, now))
  {
    hide RateLimiter.New;
  }

  lemma DialKeeps(c: Node, key: Key, now: int)
    ensures KeysKept(c, Dial(c, key, now))
  {
    hide RateLimiter.New;
  }

  lemma DisconnectKeeps(c: Node, key: Key)
    ensures KeysKept(c, Disconnect(c, key))
  {
  }

  lemma AcceptKeeps(c: Node, key: Key)
    ensures KeysKept(c, AdminAccept(c, key))
  {
  }

  lemma RejectKeeps(c: Node, key: Key)
    ensures KeysKept(c, AdminReject(c, key))
  {
    hide Disconnect;
    var d := if key in c.peers then c.(peers := c.peers[key := Rejected]) else c;
    DisconnectKeeps(d, key);
  }

  lemma LoopEndKeeps(c: Node, n: nat)
    ensures KeysKept(c, LoopEnd(c, n))
  {
  }

  lemma SelfKept(c: Node, n: nat, plain: Bytes, env: Env)
    requires Live(c, n)
    ensures KeysKept(c, HandleDecrypted(c, n, plain, env).node)
    ensures |HandleDecrypted(c, n, plain, env).node.conns| == |c.conns|
  {
    hide ParseSignal, RateLimiter.Allow, HandleSignal, HandleChunk, KindOf;
    FramePeers(c, n, plain, env);
    var s := c.conns[n];
    if plain != [] && plain[0] != MARKER {
      ChunkKeepsSelf(c, plain[1..], env);
    } else if ParseSignal(plain).Parsed? {
      var sig := ParseSignal(plain).value;
      SignalKeepsSelf(c, sig, s.key, env);
      if s.limiter.limit != 0 {
        var b := RateLimiter.Allow(s.limiter, env.now).0;
        SignalKeepsSelf(c.(conns := c.conns[n := s.(limiter := b)]), sig, s.key, env);
      }
    }
  }

  lemma ChunkKeepsSelf(c: Node, plain: Bytes, env: Env)
    ensures HandleChunk(c, plain, env).self == c.self
  {
  }

  lemma SignalKeepsSelf(c: Node, sig: Signal, key: Key, env: Env)
    ensures HandleSignal(c, sig, key, env).node.self == c.self
  {
    hide KindOf, DecodeFileMeta, HandleSignal;
    SignalTouches(c, sig, key, env);
  }

  lemma StepKeepsKeys(c: Node, e: Event)
    requires Step(c, e).Ok?
    ensures KeysKept(c, Step(c, e).value)
    ensures e.FrameEvent? ==> |Step(c, e).value.conns| == |c.conns|
  {
    hide HandleDecrypted, SendStep, LocalUpdate, LocalDelete, BeginInbound, FinishInbound, Dial, LoopEnd, Disconnect,
      AdminAccept, AdminReject;
    match e {
      case FrameEvent(n, plain, env) =>
        if Live(c, n) {
          SelfKept(c, n, plain, env);
          var d := HandleDecrypted(c, n, plain, env).node;
          LoopEndKeeps(d, n);
          LoopEndCounts(d, n);
        }
      case BeginEvent(k) => BeginKeeps(c, k);
      case FinishEvent(i, ok, now) => if i < |c.connects| { FinishKeeps(c, i, ok, now); }
      case DialEvent(k, now) => DialKeeps(c, k, now);
      case LoopEndEvent(n) => LoopEndKeeps(c, n);
      case DisconnectEvent(k) => DisconnectKeeps(c, k);
      case AcceptEvent(k) => AcceptKeeps(c, k);
      case RejectEvent(k) => RejectKeeps(c, k);
      case RenameEvent(_) =>
      case _ => StoreEventTouches(c, e);
    }
  }

  lemma LoopEndCounts(c: Node, n: nat)
    ensures |LoopEnd(c, n).conns| == |c.conns|
  {
  }

  /** Nothing that was encrypted is forgotten. */
  ghost predicate Grows(w: World, v: World) {
    && KeysKept(w.node, v.node) && |w.nets| <= |v.nets|
    && forall n, s: Channel.Side :: 0 <= n < |w.nets| ==> w.nets[n].Get(s).encrypted <= v.nets[n].Get(s).encrypted
  }

  lemma EncryptedStays(w: World, v: World, key: Key, plain: Bytes)
    requires Grows(w, v) && Encrypted(w, key, plain)
    ensures Encrypted(v, key, plain)
  {
    hide KindOf;
    var n :| EncryptedOn(w, n, key, plain);
    assert Theirs(v.node, n) == Theirs(w.node, n);
    var s := Theirs(w.node, n);
    assert w.nets[n].Get(s).encrypted <= v.nets[n].Get(s).encrypted;
    assert EncryptedOn(v, n, key, plain);
  }

  lemma GenuineStays(w: World, v: World, m: Message)
    requires Grows(w, v) && Genuine(w, m)
    ensures Genuine(v, m)
  {
    hide Encrypted, Carries, Says;
    if m.from != w.node.self {
      var p :| Encrypted(w, m.from, p) && Carries(p, m);
      var q :| Encrypted(w, m.from, q) && Says(q, m);
      EncryptedStays(w, v, m.from, p);
      EncryptedStays(w, v, m.from, q);
    }
  }

  lemma NetStepGrows(w: World, n: nat, step: Channel.Step)
    requires Wired(w) && n < |w.nets|
    ensures var v := w.(nets := w.nets[n := Channel.Apply(w.nets[n], step)]);
      Wired(v) && Grows(w, v)
  {
    hide Channel.Apply, Channel.Sound;
    Channel.SoundStep(w.nets[n], step);
    forall s: Channel.Side ensures w.nets[n].Get(s).encrypted <= Channel.Apply(w.nets[n], step).Get(s).encrypted {
      Channel.HistoryGrows(w.nets[n], step, s);
    }
  }

  /* ---------- every move keeps messages genuine ---------- */

  lemma SameChatsGenuine(w: World, v: World)
    requires AllGenuine(w) && Grows(w, v) && Sane(v.node) && Chats(v.node) == Chats(w.node)
    ensures AllGenuine(v)
  {
    hide Sane, Chats, Genuine, Grows;
    forall id | id in Chats(v.node) ensures Chats(v.node)[id].id == id && Genuine(v, Chats(v.node)[id]) {
      GenuineStays(w, v, Chats(w.node)[id]);
    }
  }

  /** A change by somebody who encrypted it, or by ourselves, keeps the messages genuine. */
  ghost predicate Backed(w: World, msgs: map<Id, Message>, ch: Change) {
    match ch
    case NoChange => true
    case Wrote(id, m) => m.id == id && Genuine(w, m)
    case Edited(id, content, at) =>
      id in msgs ==>
        (|| msgs[id].from == w.node.self
         || exists plain :: Encrypted(w, msgs[id].from, plain) && Says(plain, msgs[id].(content := content)))
    case Removed(_) => true
  }

  lemma EditedGenuine(w: World, m: Message, content: Bytes, at: Int64)
    requires Genuine(w, m)
    requires m.from == w.node.self ||
             exists plain :: Encrypted(w, m.from, plain) && Says(plain, m.(content := content))
    ensures Genuine(w, m.(content := content, updatedAt := at))
  {
    hide Encrypted, ParseSignal, DecodeMessage, KindOf;
    var e := m.(content := content, updatedAt := at);
    if m.from != w.node.self {
      var p :| Encrypted(w, m.from, p) && Carries(p, m);
      assert Carries(p, e);
      var q :| Encrypted(w, m.from, q) && Says(q, m.(content := content));
      assert Says(q, e);
    }
  }

  lemma ChangeKeepsGenuine(w: World, v: World, ch: Change)
    requires AllGenuine(w) && Grows(w, v) && Changes(w.node, v.node, ch) && Backed(v, Chats(w.node), ch)
    ensures AllGenuine(v)
  {
    hide Sane, Chats, Genuine, Grows, Encrypted, Says;
    forall id | id in Chats(v.node) ensures Chats(v.node)[id].id == id && Genuine(v, Chats(v.node)[id]) {
      if ch.Wrote? && ch.id == id {
      } else {
        GenuineStays(w, v, Chats(w.node)[id]);
        if ch.Edited? && ch.id == id {
          EditedGenuine(v, Chats(w.node)[id], ch.content, ch.at);
        }
      }
    }
  }

  /** What an event of the node itself changes is ours. */
  lemma OwnChangesBacked(w: World, v: World, e: Event)
    requires AllGenuine(w) && !e.FrameEvent? && v.node.self == w.node.self
    ensures Backed(v, Chats(w.node), ChangeOf(w.node, e))
  {
    hide Sane, Chats, Encrypted, Says, Carries, Encodable;
  }

  /** What a decrypted frame changes was encrypted by the session's peer. */
  lemma FrameChangesBacked(w: World, v: World, n: nat, plain: Bytes, env: Env)
    requires AllGenuine(w) && n < |w.node.conns| && Encrypted(v, w.node.conns[n].key, plain)
    ensures Backed(v, Chats(w.node), ChangeOf(w.node, FrameEvent(n, plain, env)))
  {
    hide Sane, Chats, Encrypted, ParseSignal, DecodeMessage, KindOf, RateLimiter.Allow, Encodable;
    var e := FrameEvent(n, plain, env);
    var key := w.node.conns[n].key;
    var ch := ChangeOf(w.node, e);
    if Admitted(w.node, e).Some? {
      var sig := Admitted(w.node, e).value;
      assert sig == ParseSignal(plain).value;
      if ch.Wrote? {
        assert Carries(plain, ch.msg) && Says(plain, ch.msg);
      } else if ch.Edited? {
        assert Says(plain, Chats(w.node)[ch.id].(content := ch.content));
      }
    }
  }

  lemma ArriveKeeps(w: World, n: nat, frame: Channel.Frame, env: Env)
    requires Wired(w) && AllGenuine(w) && ArriveMove(w, n, frame, env).Ok?
    ensures var v := ArriveMove(w, n, frame, env).value; Wired(v) && AllGenuine(v)
  {
    hide Channel.Apply, Channel.Sound, Channel.Decrypt, Channel.CanAppear, Step, Wired, AllGenuine, Grows, ChangeOf;
    if n >= |w.nets| || !Live(w.node, n) || !Channel.CanAppear(w.nets[n], frame) {
      return;
    }
    var side := Ours(w.node, n);
    var step := Channel.DeliverStep(side, frame);
    var mid := w.(nets := w.nets[n := Channel.Apply(w.nets[n], step)]);
    NetStepGrows(w, n, step);
    var out := Channel.Decrypt(w.nets[n].Get(side).receiver, frame).1;
    if out.None? {
      StillGenuine(w, mid);
    } else {
      var v := ArriveMove(w, n, frame, env).value;
      assert Encrypted(v, w.node.conns[n].key, out.value) && Wired(v) && Grows(w, v) by {
        ArrivedWasEncrypted(w, n, frame, v, env);
      }
      assert Sane(w.node) by { GenuineIsSane(w); }
      StepChanges(w.node, FrameEvent(n, out.value, env));
      FrameChangesBacked(w, v, n, out.value, env);
      ChangeKeepsGenuine(w, v, ChangeOf(w.node, FrameEvent(n, out.value, env)));
    }
  }

  lemma GenuineIsSane(w: World)
    requires AllGenuine(w)
    ensures Sane(w.node)
  {
  }

  lemma StillGenuine(w: World, v: World)
    requires AllGenuine(w) && Grows(w, v) && v.node == w.node
    ensures AllGenuine(v)
  {
    hide Grows, Genuine;
    SameChatsGenuine(w, v);
  }

  lemma ArrivedWasEncrypted(w: World, n: nat, frame: Channel.Frame, v: World, env: Env)
    requires Wired(w) && n < |w.nets| && Live(w.node, n) && Channel.CanAppear(w.nets[n], frame)
    requires Channel.Decrypt(w.nets[n].Get(Ours(w.node, n)).receiver, frame).1.Some?
    requires var out := Channel.Decrypt(w.nets[n].Get(Ours(w.node, n)).receiver, frame).1.value;
      Step(w.node, FrameEvent(n, out, env)) == Ok(v.node)
    requires v.nets == w.nets[n := Channel.Apply(w.nets[n], Channel.DeliverStep(Ours(w.node, n), frame))]
    ensures Wired(v) && Grows(w, v)
    ensures Encrypted(v, w.node.conns[n].key, Channel.Decrypt(w.nets[n].Get(Ours(w.node, n)).receiver, frame).1.value)
  {
    hide Channel.Apply, Channel.Sound, Channel.Decrypt, Channel.CanAppear, Step;
    var side := Ours(w.node, n);
    var out := Channel.Decrypt(w.nets[n].Get(side).receiver, frame).1.value;
    NetStepGrows(w, n, Channel.DeliverStep(side, frame));
    StepKeepsKeys(w.node, FrameEvent(n, out, env));
    assert Channel.Other(Theirs(w.node, n)) == side;
    Channel.AcceptedWasEncrypted(w.nets[n], Theirs(w.node, n), frame);
    assert EncryptedOn(w, n, w.node.conns[n].key, out);
    EncryptedStays(w, v, w.node.conns[n].key, out);
  }

  lemma ActKeeps(w: World, e: Event, shared: Bytes)
    requires Wired(w) && AllGenuine(w) && ActMove(w, e, shared).Ok?
    ensures var v := ActMove(w, e, shared).value; Wired(v) && AllGenuine(v)
  {
    hide Channel.Sound, Channel.Init, Step, AllGenuine, ChangeOf;
    var v := ActMove(w, e, shared).value;
    if v != w {
      StepKeepsKeys(w.node, e);
      Channel.InitHolds(shared);
      assert Wired(v) && Grows(w, v);
      assert Sane(w.node) by { GenuineIsSane(w); }
      StepChanges(w.node, e);
      OwnChangesBacked(w, v, e);
      ChangeKeepsGenuine(w, v, ChangeOf(w.node, e));
    }
  }

  lemma {:induction false} PlayKeeps(w: World, moves: seq<Move>)
    requires Wired(w) && AllGenuine(w) && Play(w, moves).Ok?
    ensures Wired(Play(w, moves).value) && AllGenuine(Play(w, moves).value)
    decreases |moves|
  {
    hide Wired, AllGenuine, ArriveMove, ActMove, Grows;
    if moves != [] {
      match moves[0] {
        case Wire(n, step) => WireKeeps(w, n, step);
        case Arrive(n, frame, env) => ArriveKeeps(w, n, frame, env);
        case Act(e, shared) => ActKeeps(w, e, shared);
      }
      PlayKeeps(MoveStep(w, moves[0]).value, moves[1..]);
    }
  }

  lemma WireKeeps(w: World, n: nat, step: Channel.Step)
    requires Wired(w) && AllGenuine(w)
    ensures Wired(WireMove(w, n, step)) && AllGenuine(WireMove(w, n, step))
  {
    hide Channel.Apply, Wired, AllGenuine, Grows;
    if n < |w.nets| {
      NetStepGrows(w, n, step);
      StillGenuine(w, w.(nets := w.nets[n := Channel.Apply(w.nets[n], step)]));
    }
  }

  /**
    From a node without sessions and messages, in every run of the node and its channels: a stored
    message is our own, or its author, the peer with that key, encrypted both the message and the
    content it now has.
  */
  lemma StoredWasEncrypted(c: Node, moves: seq<Move>)
    requires Sane(c) && Chats(c) == map[] && c.conns == [] && Play(World(c, []), moves).Ok?
    ensures var w := Play(World(c, []), moves).value;
      && Sane(w.node)
      && forall id :: id in Chats(w.node) && Chats(w.node)[id].from != w.node.self ==>
           var m := Chats(w.node)[id];
           && (exists plain :: Encrypted(w, m.from, plain) && Carries(plain, m))
           && (exists plain :: Encrypted(w, m.from, plain) && Says(plain, m))
  {
    hide Play, Sane, Chats, Encrypted, Carries, Says;
    PlayKeeps(World(c, []), moves);
    var w := Play(World(c, []), moves).value;
    forall id | id in Chats(w.node) && Chats(w.node)[id].from != w.node.self
      ensures var m := Chats(w.node)[id];
        && (exists plain :: Encrypted(w, m.from, plain) && Carries(plain, m))
        && (exists plain :: Encrypted(w, m.from, plain) && Says(plain, m))
    {
      assert Genuine(w, Chats(w.node)[id]);
    }
  }
}
