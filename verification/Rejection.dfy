/**
  Rejecting a peer. A rejected peer stays without a session unless it is accepted or dialled
  again, provided that the rejection found everything: a handshake that passed its status
  check earlier, or a session that has fallen out of the session table, escapes it.
*/
module Rejection {
  import opened ByteStrings
  import opened MessageCodec
  import opened Envelopes
  import opened ChatStore
  import opened ChatNode
  import opened AcceptGate
  import RateLimiter

  /** No session of this peer can hand frames to the node. */
  ghost predicate Gone(c: Node, key: Key) {
    forall n :: 0 <= n < |c.conns| && c.conns[n].key == key ==> !Live(c, n)
  }

  /** What a rejection has to establish in order to last. */
  ghost predicate Refused(c: Node, key: Key) {
    && key in c.peers && c.peers[key] == Rejected
    && key !in c.sessions
    && Gone(c, key)
    && (forall i :: 0 <= i < |c.connects| ==> c.connects[i].key != key)
  }

  /** An event that neither accepts nor dials the peer. */
  predicate Readmits(e: Event, key: Key) {
    (e.AcceptEvent? || e.DialEvent?) && e.key == key
  }

  ghost predicate Benign(events: seq<Event>, key: Key) {
    forall i :: 0 <= i < |events| ==> !Readmits(events[i], key)
  }

  lemma StoreEventsKeepPeers(c: Node, e: Event)
    requires StoreEvent(e) && Step(c, e).Ok?
    ensures var d := Step(c, e).value;
      d.peers == c.peers && d.sessions == c.sessions && d.conns == c.conns && d.connects == c.connects
  {
    hide Step;
    StoreEventTouches(c, e);
  }

  predicate StoreEvent(e: Event) {
    e.SendEvent? || e.UpdateEvent? || e.DeleteEvent? || e.ExpireEvent?
  }

  lemma RefusedStep(c: Node, e: Event, key: Key)
    requires Refused(c, key) && !Readmits(e, key) && Step(c, e).Ok?
    ensures Refused(Step(c, e).value, key)
  {
    hide FrameStep, SendStep, LocalUpdate, LocalDelete, BeginInbound, FinishInbound, Dial, LoopEnd, Disconnect,
      AdminAccept, AdminReject, Gone;
    match e {
      case FrameEvent(n, plain, env) => RefusedFrame(c, n, plain, env, key);
      case BeginEvent(k) => RefusedBegin(c, k, key);
      case FinishEvent(i, ok, now) => if i < |c.connects| { RefusedFinish(c, i, ok, now, key); }
      case DialEvent(k, now) => RefusedDial(c, k, now, key);
      case LoopEndEvent(n) => RefusedLoopEnd(c, n, key);
      case DisconnectEvent(k) => RefusedDisconnect(c, k, key);
      case AcceptEvent(k) => RefusedAccept(c, k, key);
      case RejectEvent(k) => RefusedReject(c, k, key);
      case RenameEvent(_) => GoneIgnoresNames(c, Step(c, e).value, key);
      case _ =>
        StoreEventsKeepPeers(c, e);
        GoneIgnoresNames(c, Step(c, e).value, key);
    }
  }

  lemma GoneIgnoresNames(c: Node, d: Node, key: Key)
    requires Gone(c, key) && d.conns == c.conns
    ensures Gone(d, key)
  {
  }

  lemma RefusedFrame(c: Node, n: nat, plain: Bytes, env: Env, key: Key)
    requires Refused(c, key) && FrameStep(c, n, plain, env).Ok?
    ensures Refused(FrameStep(c, n, plain, env).value, key)
  {
    hide HandleDecrypted, LoopEnd;
    if Live(c, n) {
      FramePeers(c, n, plain, env);
      RefusedLoopEnd(HandleDecrypted(c, n, plain, env).node, n, key);
    }
  }

  lemma RefusedBegin(c: Node, k: Key, key: Key)
    requires Refused(c, key)
    ensures Refused(BeginInbound(c, k), key)
  {
  }

  lemma RefusedFinish(c: Node, i: nat, ok: bool, now: int, key: Key)
    requires Refused(c, key) && i < |c.connects|
    ensures Refused(FinishInbound(c, i, ok, now), key)
  {
    hide RateLimiter.New;
    var rest := c.connects[..i] + c.connects[i + 1..];
    assert forall j :: 0 <= j < |rest| ==> rest[j] in c.connects;
  }

  lemma RefusedDial(c: Node, k: Key, now: int, key: Key)
    requires Refused(c, key) && k != key
    ensures Refused(Dial(c, k, now), key)
  {
    hide RateLimiter.New;
  }

  lemma RefusedLoopEnd(c: Node, n: nat, key: Key)
    requires Refused(c, key)
    ensures Refused(LoopEnd(c, n), key)
  {
  }

  lemma RefusedDisconnect(c: Node, k: Key, key: Key)
    requires Refused(c, key)
    ensures Refused(Disconnect(c, k), key)
  {
  }

  lemma RefusedAccept(c: Node, k: Key, key: Key)
    requires Refused(c, key) && k != key
    ensures Refused(AdminAccept(c, k), key)
  {
  }

  lemma RefusedReject(c: Node, k: Key, key: Key)
    requires Refused(c, key)
    ensures Refused(AdminReject(c, k), key)
  {
  }

  lemma {:induction false} RefusedRun(c: Node, events: seq<Event>, key: Key)
    requires Refused(c, key) && Benign(events, key) && Run(c, events).Ok?
    ensures Refused(Run(c, events).value, key)
    decreases |events|
  {
    hide Step, Refused;
    if events != [] {
      RefusedStep(c, events[0], key);
      RefusedRun(Step(c, events[0]).value, events[1..], key);
    }
  }

  /** After every run without readmission, the peer has no session. */
  ghost predicate Lasting(c: Node, key: Key) {
    forall events: seq<Event> :: Benign(events, key) && Run(c, events).Ok? ==> Gone(Run(c, events).value, key)
  }

  /**
    What can be checked before rejecting: no handshake of the peer is in flight, and the only
    session of the peer that still reads frames is the one in the session table.
  */
  ghost predicate Settled(c: Node, key: Key) {
    && (forall i :: 0 <= i < |c.connects| ==> c.connects[i].key != key)
    && (forall n :: 0 <= n < |c.conns| && c.conns[n].key == key && Live(c, n) ==>
          key in c.sessions && c.sessions[key] == n)
  }

  /** Rejection of a known peer lasts exactly when the node was settled about the peer. */
  lemma RejectionLastsIff(c: Node, key: Key)
    requires key in c.peers
    ensures Lasting(AdminReject(c, key), key) <==> Settled(c, key)
  {
    hide Run;
    var d := AdminReject(c, key);
    if Settled(c, key) {
      assert Refused(d, key);
      forall events: seq<Event> | Benign(events, key) && Run(d, events).Ok? ensures Gone(Run(d, events).value, key) {
        RefusedRun(d, events, key);
      }
    } else {
      UnsettledEscapes(c, key);
    }
  }

  lemma UnsettledEscapes(c: Node, key: Key)
    requires key in c.peers && !Settled(c, key)
    ensures !Lasting(AdminReject(c, key), key)
  {
    hide Live;
    if i :| 0 <= i < |c.connects| && c.connects[i].key == key {
      InFlightEscapes(c, key, i);
    } else {
      var n :| 0 <= n < |c.conns| && c.conns[n].key == key && Live(c, n)
        && !(key in c.sessions && c.sessions[key] == n);
      OrphanEscapes(c, key, n);
    }
  }

  /** A handshake in flight finishes after the rejection. */
  lemma InFlightEscapes(c: Node, key: Key, i: nat)
    requires i < |c.connects| && c.connects[i].key == key
    ensures !Lasting(AdminReject(c, key), key)
  {
    hide Run, RateLimiter.New;
    var d := AdminReject(c, key);
    var e := FinishEvent(i, true, 0);
    RejectKeepsConnects(c, key);
    FinishGoesLive(d, i, 0);
    RunOne(d, e);
    assert Benign([e], key);
  }

  lemma RejectKeepsConnects(c: Node, key: Key)
    ensures AdminReject(c, key).connects == c.connects
  {
  }

  lemma FinishGoesLive(c: Node, i: nat, now: int)
    requires i < |c.connects|
    ensures Step(c, FinishEvent(i, true, now)).Ok?
    ensures !Gone(Step(c, FinishEvent(i, true, now)).value, c.connects[i].key)
  {
    hide FrameStep, SendStep, LocalUpdate, LocalDelete, RateLimiter.New;
    var d := FinishInbound(c, i, true, now);
    assert Live(d, |c.conns|) && d.conns[|c.conns|].key == c.connects[i].key;
  }

  /** A live session outside the session table is not closed. */
  lemma OrphanEscapes(c: Node, key: Key, n: nat)
    requires Live(c, n) && c.conns[n].key == key && !(key in c.sessions && c.sessions[key] == n)
    ensures !Lasting(AdminReject(c, key), key)
  {
    var d := AdminReject(c, key);
    assert Live(d, n) && d.conns[n].key == key;
    assert Run(d, []) == Ok(d) && Benign([], key) && !Gone(d, key);
  }

  /** While the peer is gone, a frame on any of its sessions changes nothing at all. */
  lemma RefusedFramesDoNothing(c: Node, events: seq<Event>, key: Key, e: Event)
    requires key in c.peers && Settled(c, key) && Benign(events, key)
    requires Run(AdminReject(c, key), events).Ok? && e.FrameEvent?
    requires var d := Run(AdminReject(c, key), events).value;
      e.n < |d.conns| && d.conns[e.n].key == key
    ensures var d := Run(AdminReject(c, key), events).value;
      Step(d, e) == Ok(d)
  {
    hide Run, HandleDecrypted, AdminReject;
    RejectionLastsIff(c, key);
  }

  /** A run by which a rejected peer keeps an accepted session. */
  function FirstVisit(key: Key): seq<Event> {
    [BeginEvent(key), FinishEvent(0, true, 0), DisconnectEvent(key)]
  }

  function SecondVisit(key: Key): seq<Event> {
    [BeginEvent(key), FinishEvent(0, true, 0), AcceptEvent(key)]
  }

  function OrphanRun(key: Key): seq<Event> {
    FirstVisit(key) + (SecondVisit(key) + [LoopEndEvent(0), RejectEvent(key)])
  }

  function Visitor(c: Node, key: Key, status: PeerStatus, open: bool): Session {
    Session(key, true, status, open, true, RateLimiter.New(c.limit, c.window, 0))
  }

  lemma AfterFirstVisit(c: Node, key: Key)
    requires c.peers == map[] && c.sessions == map[] && c.conns == [] && c.connects == [] && key != c.self
    ensures Run(c, FirstVisit(key)) ==
            Ok(c.(peers := map[key := Pending], conns := [Visitor(c, key, Pending, false)]))
  {
    hide FrameStep, SendStep, LocalUpdate, LocalDelete, RateLimiter.New, Run;
    var ev := FirstVisit(key);
    var c1 := BeginInbound(c, key);
    assert c1 == c.(peers := map[key := Pending], connects := [Connect(key, Pending)]);
    var c2 := FinishInbound(c1, 0, true, 0);
    assert c2 == c1.(connects := [], sessions := map[key := 0], conns := [Visitor(c, key, Pending, true)]);
    var c3 := Disconnect(c2, key);
    assert ev == [ev[0], ev[1], ev[2]];
    RunThree(c, ev[0], ev[1], ev[2]);
    assert c3 == c.(peers := map[key := Pending], conns := [Visitor(c, key, Pending, false)]);
  }

  lemma AfterSecondVisit(c: Node, key: Key)
    requires c.peers == map[key := Pending] && c.sessions == map[] && c.connects == [] && key != c.self
    requires c.conns == [Visitor(c, key, Pending, false)]
    ensures Run(c, SecondVisit(key)) ==
            Ok(c.(peers := map[key := Accepted], sessions := map[key := 1],
                  conns := c.conns + [Visitor(c, key, Accepted, true)]))
  {
    hide FrameStep, SendStep, LocalUpdate, LocalDelete, RateLimiter.New, Run;
    var ev := SecondVisit(key);
    assert ev == [ev[0], ev[1], ev[2]];
    var c1 := c.(connects := [Connect(key, Pending)]);
    assert c.connects + [Connect(key, Pending)] == [Connect(key, Pending)];
    assert Step(c, ev[0]) == Ok(c1);
    var c2 := c.(sessions := map[key := 1], conns := c.conns + [Visitor(c, key, Pending, true)]);
    assert Step(c1, ev[1]) == Ok(c2) by { FinishOnly(c1, key); }
    AcceptSecond(c2, key);
    RunThree(c, ev[0], ev[1], ev[2]);
    assert c.peers[key := Accepted] == map[key := Accepted];
    assert (c.conns + [Visitor(c, key, Pending, true)])[1 := Visitor(c, key, Accepted, true)]
        == c.conns + [Visitor(c, key, Accepted, true)];
  }

  lemma FinishOnly(c: Node, key: Key)
    requires c.connects == [Connect(key, Pending)]
    ensures FinishInbound(c, 0, true, 0) ==
            c.(connects := [], sessions := c.sessions[key := |c.conns|],
               conns := c.conns + [Visitor(c, key, Pending, true)])
  {
  }

  lemma AcceptSecond(c: Node, key: Key)
    requires key in c.peers && key in c.sessions && c.sessions[key] == 1 && |c.conns| == 2
    ensures Step(c, AcceptEvent(key)) ==
            Ok(c.(peers := c.peers[key := Accepted], conns := c.conns[1 := c.conns[1].(status := Accepted)]))
  {
  }

  /**
    The failing case is reachable: the first session's late clean-up removes the second one
    from the table by key, and the rejection then finds nothing to close.
  */
  lemma LateCleanUpDefeatsRejection(c: Node, key: Key)
    requires c.peers == map[] && c.sessions == map[] && c.conns == [] && c.connects == [] && key != c.self
    ensures Run(c, OrphanRun(key)).Ok?
    ensures var d := Run(c, OrphanRun(key)).value;
      && key in d.peers && d.peers[key] == Rejected
      && Live(d, 1) && d.conns[1].key == key && d.conns[1].status == Accepted
  {
    hide FrameStep, SendStep, LocalUpdate, LocalDelete, RateLimiter.New, Run, FirstVisit, SecondVisit;
    AfterFirstVisit(c, key);
    var c3 := Run(c, FirstVisit(key)).value;
    AfterSecondVisit(c3, key);
    var c6 := Run(c3, SecondVisit(key)).value;
    RunAppend(c, FirstVisit(key), SecondVisit(key) + [LoopEndEvent(0), RejectEvent(key)]);
    RunAppend(c3, SecondVisit(key), [LoopEndEvent(0), RejectEvent(key)]);
    RunTwo(c6, LoopEndEvent(0), RejectEvent(key));
  }

  /** Disconnecting closes and unregisters the registered session, and touches nothing else. */
  lemma DisconnectCloses(c: Node, key: Key)
    ensures Step(c, DisconnectEvent(key)).Ok?
    ensures var d := Step(c, DisconnectEvent(key)).value;
      && d == c.(sessions := c.sessions - {key}, conns := d.conns) && |d.conns| == |c.conns|
      && forall i :: 0 <= i < |c.conns| ==>
           if key in c.sessions && c.sessions[key] == i then !Live(d, i) && d.conns[i] == c.conns[i].(open := false)
           else d.conns[i] == c.conns[i]
  {
    hide FrameStep, SendStep;
    assert key !in c.sessions ==> c.sessions - {key} == c.sessions;
  }

  /**
    Unlike a rejected one, a disconnected peer may return at once: its next handshake gives it a live
    session with the status it had.
  */
  lemma DisconnectedMayReturn(c: Node, key: Key, now: int)
    requires key != c.self && key in c.peers && c.peers[key] != Rejected
    ensures var r := Run(c, [DisconnectEvent(key), BeginEvent(key), FinishEvent(|c.connects|, true, now)]);
      && r.Ok? && Live(r.value, |c.conns|) && r.value.sessions == c.sessions[key := |c.conns|]
      && r.value.conns[|c.conns|].key == key && r.value.conns[|c.conns|].status == c.peers[key]
  {
    hide Step, Run;
    DisconnectCloses(c, key);
    var d := Step(c, DisconnectEvent(key)).value;
    KnownPeerConnects(d, key, now);
    RunThree(c, DisconnectEvent(key), BeginEvent(key), FinishEvent(|c.connects|, true, now));
    assert d.sessions[key := |c.conns|] == c.sessions[key := |c.conns|];
  }

  /** After a rejection it may not: its connects start no handshake until it is accepted or dialled. */
  lemma RejectedMayNotReturn(c: Node, key: Key)
    requires key in c.peers
    ensures var r := Run(c, [RejectEvent(key), BeginEvent(key)]);
      r.Ok? && r.value.connects == c.connects && r.value.peers == c.peers[key := Rejected] && key !in r.value.sessions
  {
    hide FrameStep, SendStep, Run;
    RunTwo(c, RejectEvent(key), BeginEvent(key));
  }
}
