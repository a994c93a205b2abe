/**
  Queued signals all the way to the peer: the outbox sends over sessions that come and go, other
  senders use the same sessions, writes fail or overtake each other. A signal is accepted at
  most once, and exactly once iff the session it was sent on was in step.
*/
module Mailing {
  import opened ByteStrings
  import Channel = SecureChannel
  import Delivery
  import Outbox

  /** One session: what was encrypted on it, by nonce, and the nonces written, in the order of the wire. */
  datatype Link = Link(key: Channel.CipherKey, encrypted: seq<Bytes>, written: seq<nat>)

  /** Where a sent signal went. */
  datatype Spot = Spot(link: nat, nonce: nat)

  /** The outbox, all sessions to the peers so far, and where each signal in `box.sent` went. */
  datatype Post = Post(box: Outbox.System, links: seq<Link>, spots: seq<Spot>)

  /** A flush encrypts like everybody; `Send` is the write that makes it count the signal as sent. */
  datatype Event =
    | Connect(key: Channel.CipherKey)
    | Encrypt(k: nat, plain: Bytes)
    | Write(k: nat, nonce: nat)
    | Send(e: Outbox.Event, k: nat, nonce: nat)
    | Local(e: Outbox.Event)

  const START := Post(Outbox.INIT, [], [])

  /** A frame is written at most once; a frame that never is has been lost. */
  predicate Unwritten(p: Post, k: nat, nonce: nat) {
    k < |p.links| && nonce < |p.links[k].encrypted| && nonce !in p.links[k].written
  }

  predicate IsSend(e: Outbox.Event) {
    e.Next? && e.ok
  }

  ghost predicate Enabled(p: Post, event: Event) {
    match event
    case Connect(_) => true
    case Encrypt(k, _) => k < |p.links|
    case Write(k, nonce) => Unwritten(p, k, nonce)
    case Send(e, k, nonce) =>
      && Outbox.Enabled(p.box, e) && IsSend(e) && Unwritten(p, k, nonce)
      && p.links[k].encrypted[nonce] == p.box.active[e.f].rest[0].signal
    case Local(e) => Outbox.Enabled(p.box, e) && !IsSend(e)
  }

  function WriteTo(links: seq<Link>, k: nat, nonce: nat): seq<Link> {
    if k < |links| then links[k := links[k].(written := links[k].written + [nonce])] else links
  }

  function Apply(p: Post, event: Event): Post {
    match event
    case Connect(key) => p.(links := p.links + [Link(key, [], [])])
    case Encrypt(k, plain) =>
      if k < |p.links| then p.(links := p.links[k := p.links[k].(encrypted := p.links[k].encrypted + [plain])]) else p
    case Write(k, nonce) => p.(links := WriteTo(p.links, k, nonce))
    case Send(e, k, nonce) =>
      Post(Outbox.Apply(p.box, e), WriteTo(p.links, k, nonce), p.spots + [Spot(k, nonce)])
    case Local(e) => p.(box := Outbox.Apply(p.box, e))
  }

  ghost predicate Reaches(p: Post, events: seq<Event>, q: Post)
    decreases |events|
  {
    if events == [] then p == q
    else Enabled(p, events[0]) && Reaches(Apply(p, events[0]), events[1..], q)
  }

  /** What the outbox sees of a run. */
  function Boxed(events: seq<Event>): seq<Outbox.Event> {
    if events == [] then [] else
    (match events[0] case Send(e, _, _) => [e] case Local(e) => [e] case _ => []) + Boxed(events[1..])
  }

  /* ---------- what every step keeps ---------- */

  ghost predicate LinkOk(l: Link) {
    && (forall i :: 0 <= i < |l.written| ==> l.written[i] < |l.encrypted|)
    && (forall i, j :: 0 <= i < j < |l.written| ==> l.written[i] != l.written[j])
  }

  /** The spot holds the signal, written. */
  ghost predicate Holds(links: seq<Link>, s: Spot, signal: Bytes) {
    && s.link < |links| && s.nonce < |links[s.link].encrypted| && s.nonce in links[s.link].written
    && links[s.link].encrypted[s.nonce] == signal
  }

  /** Every sent signal has a spot of its own. */
  ghost predicate Placed(p: Post) {
    && |p.spots| == |p.box.sent|
    && (forall k :: 0 <= k < |p.links| ==> LinkOk(p.links[k]))
    && (forall i :: 0 <= i < |p.spots| ==> Holds(p.links, p.spots[i], p.box.sent[i].signal))
    && (forall i, j :: 0 <= i < j < |p.spots| ==> p.spots[i] != p.spots[j])
  }

  /** What only a successful flush step changes. */
  lemma SentGrows(s: Outbox.System, e: Outbox.Event)
    requires Outbox.Enabled(s, e)
    ensures Outbox.Apply(s, e).sent == if IsSend(e) then s.sent + [s.active[e.f].rest[0]] else s.sent
  {
    hide Outbox.Listing, Outbox.Bump;
  }

  lemma HoldsStays(links: seq<Link>, after: seq<Link>, s: Spot, signal: Bytes)
    requires Holds(links, s, signal) && |links| <= |after|
    requires forall k :: 0 <= k < |links| ==>
      links[k].encrypted <= after[k].encrypted && links[k].written <= after[k].written
    ensures Holds(after, s, signal)
  {
    var k := s.link;
    var i :| 0 <= i < |links[k].written| && links[k].written[i] == s.nonce;
    assert after[k].written[i] == s.nonce;
  }

  lemma LinksGrow(p: Post, event: Event)
    requires Enabled(p, event) && forall k :: 0 <= k < |p.links| ==> LinkOk(p.links[k])
    ensures var after := Apply(p, event).links;
      && |p.links| <= |after|
      && (forall k :: 0 <= k < |p.links| ==>
            p.links[k].encrypted <= after[k].encrypted && p.links[k].written <= after[k].written)
      && (forall k :: 0 <= k < |after| ==> LinkOk(after[k]))
  {
    hide Outbox.Apply, Outbox.Enabled;
  }

  lemma PlacedStep(p: Post, event: Event)
    requires Placed(p) && Enabled(p, event)
    ensures Placed(Apply(p, event))
  {
    hide Outbox.Apply, Outbox.Enabled, LinkOk, Holds;
    var q := Apply(p, event);
    LinksGrow(p, event);
    if event.Local? || event.Send? {
      SentGrows(p.box, event.e);
    }
    forall i | 0 <= i < |q.spots| ensures Holds(q.links, q.spots[i], q.box.sent[i].signal) {
      if i < |p.spots| {
        HoldsStays(p.links, q.links, p.spots[i], p.box.sent[i].signal);
      } else {
        WrittenHolds(p, event);
      }
    }
    if event.Send? {
      forall i | 0 <= i < |p.spots| ensures p.spots[i] != Spot(event.k, event.nonce) {
        UnwrittenElsewhere(p, p.spots[i], p.box.sent[i].signal, event.k, event.nonce);
      }
    }
  }

  lemma WrittenHolds(p: Post, event: Event)
    requires event.Send? && Enabled(p, event)
    ensures Holds(Apply(p, event).links, Spot(event.k, event.nonce), p.box.active[event.e.f].rest[0].signal)
  {
    hide Outbox.Apply;
    var w := p.links[event.k].written + [event.nonce];
    assert w[|w| - 1] == event.nonce;
  }

  lemma UnwrittenElsewhere(p: Post, s: Spot, signal: Bytes, k: nat, nonce: nat)
    requires Holds(p.links, s, signal) && Unwritten(p, k, nonce)
    ensures s != Spot(k, nonce)
  {
  }

  lemma {:induction false} PlacedRun(p: Post, events: seq<Event>, q: Post)
    requires Placed(p) && Reaches(p, events, q)
    ensures Placed(q) && Outbox.Reaches(p.box, Boxed(events), q.box)
    decreases |events|
  {
    hide Apply, Enabled, Placed;
    if events != [] {
      var m := Apply(p, events[0]);
      PlacedStep(p, events[0]);
      PlacedRun(m, events[1..], q);
      BoxedStep(p, events, q);
    }
  }

  lemma BoxedStep(p: Post, events: seq<Event>, q: Post)
    requires events != [] && Enabled(p, events[0])
    requires Outbox.Reaches(Apply(p, events[0]).box, Boxed(events[1..]), q.box)
    ensures Outbox.Reaches(p.box, Boxed(events), q.box)
  {
    hide Outbox.Apply, Outbox.Enabled;
    var rest := Boxed(events[1..]);
    assert [] + rest == rest;
    if events[0].Send? || events[0].Local? {
      Outbox.ReachesCons(p.box, events[0].e, rest, q.box);
    }
  }

  /* ---------- what the peers accept ---------- */

  /** What the receiver of a session has accepted, in order. */
  function Accepted(l: Link): seq<Bytes>
    requires forall i :: 0 <= i < |l.written| ==> l.written[i] < |l.encrypted|
  {
    Channel.Receive(Channel.CipherState(Some(l.key), 0), Channel.Frames(l.key, l.encrypted, l.written)).1
  }

  /** Up to this nonce everything was written, in nonce order. */
  ghost predicate InStep(l: Link, nonce: nat) {
    Channel.IsSubsequence(Channel.UpTo(nonce + 1), l.written)
  }

  /** The `i`-th signal sent was accepted. */
  ghost predicate Arrived(p: Post, i: nat)
    requires Placed(p) && i < |p.spots|
  {
    p.spots[i].nonce < |Accepted(p.links[p.spots[i].link])|
  }

  predicate Short(p: Post) {
    forall k :: 0 <= k < |p.links| ==> |p.links[k].encrypted| < U64_LIMIT
  }

  /** A sent signal is accepted, unaltered, exactly if its session was in step. */
  lemma ArrivedIff(p: Post, i: nat)
    requires Placed(p) && Short(p) && i < |p.spots|
    ensures var l := p.links[p.spots[i].link];
      && (Arrived(p, i) <==> InStep(l, p.spots[i].nonce))
      && (Arrived(p, i) ==> Accepted(l)[p.spots[i].nonce] == p.box.sent[i].signal)
  {
    hide Channel.Receive, Channel.Frames, Channel.IsSubsequence;
    var s := p.spots[i];
    assert Holds(p.links, s, p.box.sent[i].signal) && LinkOk(p.links[s.link]);
    var l := p.links[s.link];
    Delivery.SignalArrivesIff(l.key, l.encrypted, l.written, s.nonce);
  }

  /** How many copies of a queued signal were accepted, among the first `n` sent. */
  ghost function Copies(p: Post, id: Id, n: nat): nat
    requires Placed(p) && n <= |p.spots|
  {
    if n == 0 then 0 else Copies(p, id, n - 1) + if p.box.sent[n - 1].id == id && Arrived(p, n - 1) then 1 else 0
  }

  /** One of the first `n` sends is of this signal and was accepted. */
  ghost predicate SomeArrived(p: Post, id: Id, n: nat)
    requires Placed(p) && n <= |p.spots|
  {
    exists i :: 0 <= i < n && p.box.sent[i].id == id && Arrived(p, i)
  }

  lemma {:induction false} CopiesOfDistinct(p: Post, id: Id, n: nat)
    requires Placed(p) && n <= |p.spots| && Outbox.Distinct(p.box.sent)
    ensures Copies(p, id, n) <= 1 && (Copies(p, id, n) == 1 <==> SomeArrived(p, id, n))
  {
    hide Arrived, Placed;
    if n > 0 {
      assert |p.box.sent| == |p.spots| by { PlacedLengths(p); }
      CopiesOfDistinct(p, id, n - 1);
      if i :| 0 <= i < n && p.box.sent[i].id == id && Arrived(p, i) {
        assert i < n - 1 ==> SomeArrived(p, id, n - 1);
      }
    }
  }

  lemma PlacedLengths(p: Post)
    requires Placed(p)
    ensures |p.box.sent| == |p.spots| && forall i :: 0 <= i < |p.spots| ==> p.spots[i].link < |p.links|
  {
  }

  /** The signal was sent on a session that was in step up to it. */
  ghost predicate SentInStep(p: Post, id: Id)
    requires Placed(p)
  {
    exists i :: 0 <= i < |p.spots| && p.box.sent[i].id == id && InStep(p.links[p.spots[i].link], p.spots[i].nonce)
  }

  lemma StartPlaced()
    ensures Placed(START)
  {
  }

  /**
    From an empty outbox, in every run over any sessions in which each flush send finds its entry
    waiting: every queued signal is accepted by its peer at most once, and exactly once iff the
    session it was sent on was in step.
  */
  lemma AcceptedOnceIff(events: seq<Event>, p: Post, id: Id)
    requires Reaches(START, events, p) && Short(p) && Outbox.AllPresent(Outbox.INIT, Boxed(events))
    ensures Placed(p)
    ensures Copies(p, id, |p.spots|) <= 1
    ensures Copies(p, id, |p.spots|) == 1 <==> SentInStep(p, id)
  {
    hide Reaches, Outbox.Reaches, Outbox.AllPresent, Outbox.Partitioned, Outbox.Intact, Outbox.Exclusive, Placed,
      InStep, Arrived, Copies, Boxed;
    StartPlaced();
    PlacedRun(START, events, p);
    Outbox.InitConserves();
    Outbox.OnceEachIff(Outbox.INIT, Boxed(events), p.box);
    CopiesOfDistinct(p, id, |p.spots|);
    PlacedLengths(p);
    forall i | 0 <= i < |p.spots| ensures Arrived(p, i) <==> InStep(p.links[p.spots[i].link], p.spots[i].nonce) {
      ArrivedIff(p, i);
    }
  }
}
