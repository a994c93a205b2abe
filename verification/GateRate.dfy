/**
  The limiter at the gate, over whole runs: a session's limiter is asked exactly once for every
  signal that reaches the node while the session is accepted, by nothing else, and for no chunk.
  What a peer can change is therefore bounded by the limiter's tokens and intervals.
*/
module GateRate {
  import opened ByteStrings
  import opened MessageCodec
  import opened Envelopes
  import opened ChatStore
  import opened ChatNode
  import opened Authorship
  import opened AcceptGate
  import opened EndToEnd
  import RateLimiter

  /** A signal on this session while it is live and accepted. */
  predicate Asks(c: Node, e: Event, n: nat) {
    e.FrameEvent? && e.n == n && Live(c, n) && c.conns[n].status == Accepted && ParseSignal(e.plain).Parsed?
  }

  lemma SignalKeepsLimiters(c: Node, sig: Signal, key: Key, env: Env, n: nat)
    requires n < |c.conns|
    ensures var d := HandleSignal(c, sig, key, env).node;
      n < |d.conns| && d.conns[n].limiter == c.conns[n].limiter
  {
    hide KindOf, DecodeFileMeta, HandleSignal;
    SignalTouches(c, sig, key, env);
  }

  lemma ChunkKeepsLimiters(c: Node, plain: Bytes, env: Env)
    ensures HandleChunk(c, plain, env).conns == c.conns
  {
  }

  lemma FrameAsks(c: Node, k: nat, plain: Bytes, env: Env, n: nat)
    requires Live(c, k) && n < |c.conns| && c.conns[n].limiter.limit != 0
    ensures var d := HandleDecrypted(c, k, plain, env).node;
      && n < |d.conns|
      && d.conns[n].limiter == if Asks(c, FrameEvent(k, plain, env), n)
                               then RateLimiter.Allow(c.conns[n].limiter, env.now).0 else c.conns[n].limiter
  {
    hide ParseSignal, RateLimiter.Allow, HandleSignal, HandleChunk, KindOf;
    ParseSignalTotal(plain);
    if plain == [] {
      return;
    }
    if plain[0] != MARKER {
      ChunkKeepsLimiters(c, plain[1..], env);
      return;
    }
    if !ParseSignal(plain).Parsed? {
      return;
    }
    var sig, s := ParseSignal(plain).value, c.conns[k];
    if s.status != Accepted {
      SignalKeepsLimiters(c, sig, s.key, env, n);
    } else if s.limiter.limit != 0 {
      SignalKeepsLimiters(c.(conns := c.conns[k := s.(limiter := RateLimiter.Allow(s.limiter, env.now).0)]),
                          sig, s.key, env, n);
    }
  }

  /** One step asks the limiter of an existing session once, or not at all. */
  lemma StepAsks(c: Node, e: Event, n: nat)
    requires Step(c, e).Ok? && n < |c.conns| && c.conns[n].limiter.limit != 0
    ensures var d := Step(c, e).value;
      && n < |d.conns|
      && d.conns[n].limiter == if Asks(c, e, n) then RateLimiter.Allow(c.conns[n].limiter, e.env.now).0
                               else c.conns[n].limiter
  {
    hide HandleDecrypted, SendStep, LocalUpdate, LocalDelete, BeginInbound, FinishInbound, Dial, LoopEnd, Disconnect,
      AdminAccept, AdminReject, ParseSignal, RateLimiter.Allow;
    match e {
      case FrameEvent(k, plain, env) =>
        if Live(c, k) {
          FrameAsks(c, k, plain, env, n);
          LoopEndLimiters(HandleDecrypted(c, k, plain, env).node, k, n);
        }
      case SendEvent(_, _, _) => StoreEventTouches(c, e);
      case UpdateEvent(_, _, _) => StoreEventTouches(c, e);
      case DeleteEvent(_, _) => StoreEventTouches(c, e);
      case ExpireEvent(_) => StoreEventTouches(c, e);
      case BeginEvent(k) => BeginLimiters(c, k, n);
      case FinishEvent(i, ok, now) => if i < |c.connects| { FinishLimiters(c, i, ok, now, n); }
      case DialEvent(k, now) => DialLimiters(c, k, now, n);
      case LoopEndEvent(k) => LoopEndLimiters(c, k, n);
      case DisconnectEvent(k) => AdminLimiters(c, k, n);
      case AcceptEvent(k) => AdminLimiters(c, k, n);
      case RejectEvent(k) => AdminLimiters(c, k, n);
      case RenameEvent(_) =>
    }
  }

  lemma LoopEndLimiters(c: Node, k: nat, n: nat)
    requires n < |c.conns|
    ensures var d := LoopEnd(c, k); n < |d.conns| && d.conns[n].limiter == c.conns[n].limiter
  {
  }

  lemma BeginLimiters(c: Node, key: Key, n: nat)
    requires n < |c.conns|
    ensures BeginInbound(c, key).conns == c.conns
  {
  }

  lemma FinishLimiters(c: Node, i: nat, ok: bool, now: int, n: nat)
    requires i < |c.connects| && n < |c.conns|
    ensures var d := FinishInbound(c, i, ok, now); n < |d.conns| && d.conns[n] == c.conns[n]
  {
    hide RateLimiter.New;
  }

  lemma DialLimiters(c: Node, key: Key, now: int, n: nat)
    requires n < |c.conns|
    ensures var d := Dial(c, key, now); n < |d.conns| && d.conns[n] == c.conns[n]
  {
    hide RateLimiter.New;
  }

  lemma AdminLimiters(c: Node, key: Key, n: nat)
    requires n < |c.conns|
    ensures forall d :: d == Disconnect(c, key) || d == AdminAccept(c, key) || d == AdminReject(c, key) ==>
      n < |d.conns| && d.conns[n].limiter == c.conns[n].limiter
  {
  }

  /* ---------- runs ---------- */

  /** When the session's limiter is asked in a run. */
  function AskTimes(c: Node, events: seq<Event>, n: nat): seq<int>
    decreases |events|
  {
    if events == [] then [] else
    var here := if Asks(c, events[0], n) then [events[0].env.now] else [];
    match Step(c, events[0])
    case Ok(d) => here + AskTimes(d, events[1..], n)
    case _ => here
  }

  /** How many of the session's signals it admits. */
  function AdmittedSignals(c: Node, events: seq<Event>, n: nat): nat
    decreases |events|
  {
    if events == [] then 0 else
    var here := if events[0].FrameEvent? && events[0].n == n && Admitted(c, events[0]).Some? then 1 else 0;
    match Step(c, events[0])
    case Ok(d) => here + AdmittedSignals(d, events[1..], n)
    case _ => here
  }

  /** How many frames of the session change the stored messages. */
  ghost function ChangesOf(c: Node, events: seq<Event>, n: nat): nat
    requires Sane(c)
    decreases |events|
  {
    if events == [] then 0 else
    StepChanges(c, events[0]);
    if !Step(c, events[0]).Ok? then 0 else
    var d := Step(c, events[0]).value;
    ChangesOf(d, events[1..], n) + (if events[0].FrameEvent? && events[0].n == n && Chats(d) != Chats(c) then 1 else 0)
  }

  lemma AdmittedIsAllowed(c: Node, e: Event, n: nat)
    requires n < |c.conns| && c.conns[n].limiter.limit != 0 && e.FrameEvent? && e.n == n
    ensures Admitted(c, e).Some? <==> Asks(c, e, n) && RateLimiter.Allow(c.conns[n].limiter, e.env.now).1
  {
    hide ParseSignal, RateLimiter.Allow;
    ParseSignalTotal(e.plain);
  }

  /** Over every run, the session's limiter is `Calls` at those times, and it admits what `Calls` allows. */
  lemma {:induction false} LimiterInRun(c: Node, events: seq<Event>, n: nat)
    requires Run(c, events).Ok? && n < |c.conns| && c.conns[n].limiter.limit != 0
    ensures n < |Run(c, events).value.conns|
    ensures (Run(c, events).value.conns[n].limiter, AdmittedSignals(c, events, n)) ==
            RateLimiter.Calls(c.conns[n].limiter, AskTimes(c, events, n))
    decreases |events|
  {
    hide Step, Asks, Admitted, RateLimiter.Allow;
    if events != [] {
      var e, d := events[0], Step(c, events[0]).value;
      StepAsks(c, e, n);
      if Asks(c, e, n) {
        AsksHere(c, e, n);
        LimiterKeepsLimit(c.conns[n].limiter, e.env.now);
      }
      LimiterInRun(d, events[1..], n);
      var b, rest := c.conns[n].limiter, AskTimes(d, events[1..], n);
      if e.FrameEvent? && e.n == n {
        AdmittedIsAllowed(c, e, n);
      }
      if Asks(c, e, n) {
        assert ([e.env.now] + rest)[1..] == rest;
        assert AskTimes(c, events, n) == [e.env.now] + rest;
      } else {
        assert AskTimes(c, events, n) == [] + rest == rest;
      }
    }
  }

  lemma AsksHere(c: Node, e: Event, n: nat)
    requires Asks(c, e, n)
    ensures e.FrameEvent? && e.n == n
  {
  }

  lemma LimiterKeepsLimit(b: RateLimiter.Bucket, now: int)
    requires b.limit != 0
    ensures RateLimiter.Allow(b, now).0.limit == b.limit
  {
  }

  /** Messages change only by signals that the limiter admitted. */
  lemma {:induction false} ChangesAreAdmitted(c: Node, events: seq<Event>, n: nat)
    requires Sane(c) && Run(c, events).Ok?
    ensures ChangesOf(c, events, n) <= AdmittedSignals(c, events, n)
    decreases |events|
  {
    hide Sane, Chats, Step, Admitted, SignalChange;
    if events != [] {
      StepChanges(c, events[0]);
      ChangesAreAdmitted(Step(c, events[0]).value, events[1..], n);
    }
  }

  /**
    In every run, over any other events, sessions and admin actions: if the limiter is asked in
    the order of the clock, up to time `t`, a session changes stored messages at most as often as
    it had tokens, plus once for each whole interval since.
  */
  lemma ChangesAreBounded(c: Node, events: seq<Event>, n: nat, t: int)
    requires Sane(c) && Run(c, events).Ok? && n < |c.conns| && RateLimiter.InBounds(c.conns[n].limiter)
    requires var b, times := c.conns[n].limiter, AskTimes(c, events, n);
      RateLimiter.NonDecreasing(times) && b.last <= t && forall i :: 0 <= i < |times| ==> b.last <= times[i] <= t
    ensures ChangesOf(c, events, n) <= c.conns[n].limiter.tokens + RateLimiter.Whole(c.conns[n].limiter, t)
  {
    hide Sane, Run, ChangesOf, AdmittedSignals, AskTimes, RateLimiter.Calls, RateLimiter.Whole;
    var b, times := c.conns[n].limiter, AskTimes(c, events, n);
    LimiterInRun(c, events, n);
    ChangesAreAdmitted(c, events, n);
    RateLimiter.AllowedBound(b, times, t);
    RateLimiter.RefillClosedForm(RateLimiter.Calls(b, times).0, t);
  }

  /* ---------- the bound is one of the session, not of the peer ---------- */

  /** A peer connects, sends one message and disconnects, all at one instant. */
  function Visit(n: nat, i: nat, m: Message, env: Env): (r: seq<Event>)
    requires Sendable(m)
    ensures |r| == 4
  {
    [BeginEvent(m.from), FinishEvent(i, true, env.now), FrameEvent(n, MessageFrame(m), env), LoopEndEvent(n)]
  }

  function Visits(n: nat, i: nat, ms: seq<Message>, env: Env): seq<Event>
    requires AllSendable(ms)
    decreases |ms|
  {
    if ms == [] then [] else Visit(n, i, ms[0], env) + Visits(n + 1, i, ms[1..], env)
  }

  /** An accepted peer that has no session. */
  predicate Away(c: Node, key: Key) {
    key != c.self && key in c.peers && c.peers[key] == Accepted && key !in c.sessions && c.limit > 0
  }

  lemma OneVisit(c: Node, m: Message, env: Env)
    requires Sane(c) && Away(c, m.from) && Sendable(m) && m.id != NIL_ID && env.db.rowOk
    ensures var r := Run(c, Visit(|c.conns|, |c.connects|, m, env));
      && r.Ok? && Sane(r.value) && Chats(r.value) == Chats(c)[m.id := m]
      && Away(r.value, m.from) && |r.value.conns| == |c.conns| + 1 && |r.value.connects| == |c.connects|
  {
    hide Sane, Chats, Step, Run, MessageFrame, Sendable, RateLimiter.Allow, Open;
    var n, i := |c.conns|, |c.connects|;
    var e, f, g := BeginEvent(m.from), FinishEvent(i, true, env.now), FrameEvent(n, MessageFrame(m), env);
    KnownPeerConnects(c, m.from, env.now);
    StepChanges(c, e);
    var c1 := Step(c, e).value;
    StepChanges(c1, f);
    var c2 := Step(c1, f).value;
    FullLimiterAllows(c.limit, c.window, env.now, env.now);
    JustOpened(c2, n, m.from);
    MessageArrives(c2, n, m, env);
    var c3 := Step(c2, g).value;
    StepChanges(c3, LoopEndEvent(n));
    Leaves(c3, n);
    assert Visit(n, i, m, env) == [e] + ([f] + ([g] + [LoopEndEvent(n)]));
    RunCons(c, e, [f] + ([g] + [LoopEndEvent(n)]));
    RunCons(c1, f, [g] + [LoopEndEvent(n)]);
    RunCons(c2, g, [LoopEndEvent(n)]);
    RunOne(c3, LoopEndEvent(n));
  }

  lemma JustOpened(c: Node, n: nat, peer: Key)
    requires n < |c.conns| && c.conns[n].open && c.conns[n].running && c.conns[n].key == peer
    requires c.conns[n].status == Accepted
    ensures Open(c, n, peer)
  {
  }

  lemma Leaves(c: Node, n: nat)
    requires n < |c.conns| && c.conns[n].running
    ensures var d := Step(c, LoopEndEvent(n)).value;
      && Step(c, LoopEndEvent(n)).Ok? && d == c.(sessions := c.sessions - {c.conns[n].key}, conns := d.conns)
      && |d.conns| == |c.conns|
  {
    hide FrameStep, SendStep;
  }

  /**
    However small the limit: an accepted peer that reconnects for every message has any number of
    messages stored in no time.
  */
  lemma {:induction false} ReconnectingIsUnlimited(c: Node, peer: Key, ms: seq<Message>, env: Env)
    requires Sane(c) && Away(c, peer) && Conversation(ms, peer) && env.db.rowOk
    ensures var r := Run(c, Visits(|c.conns|, |c.connects|, ms, env));
      r.Ok? && Sane(r.value) && Written(Chats(c), ms, Chats(r.value))
    decreases |ms|
  {
    hide Sane, Chats, Run, Visit, Written, Away, Sendable;
    if ms == [] {
      assert Run(c, []) == Ok(c) by { RunNone(c); }
      NoneWritten(Chats(c), ms);
    } else {
      var first, rest := Visit(|c.conns|, |c.connects|, ms[0], env), ms[1..];
      OneVisit(c, ms[0], env);
      var d := Run(c, first).value;
      ReconnectingIsUnlimited(d, peer, rest, env);
      RunAppend(c, first, Visits(|d.conns|, |d.connects|, rest, env));
      WrittenHead(Chats(c), ms, Chats(Run(d, Visits(|d.conns|, |d.connects|, rest, env)).value));
    }
  }
}
