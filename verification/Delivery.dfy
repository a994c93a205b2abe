/**
  What the peer gets of the signals and file chunks that one session sends one after the
  other. A send that fails has used up its nonce, so the peer accepts nothing that is written
  behind it. The outbox and the file sender go on regardless: the theorems say exactly which
  of their signals arrive, and when a file is complete.
*/
module Delivery {
  import opened ByteStrings
  import opened MessageCodec
  import opened Envelopes
  import opened ChatStore
  import opened ChatNode
  import opened Authorship
  import opened AcceptGate
  import opened FileTransfers
  import EndToEnd
  import RateLimiter
  import Channel = SecureChannel
  import Outbox

  /* ---------- signals flushed from the outbox ---------- */

  /**
    The session has encrypted `before`, of which the nonces `w` were written, in that order, when
    a flush sends entries and removes them from the outbox. They arrive exactly if everything
    before them was written, in nonce order; otherwise not one of them does.
  */
  lemma FlushArrivesIff(key: Channel.CipherKey, before: seq<Bytes>, w: seq<nat>, sent: seq<Outbox.Entry>)
    requires |before| + |sent| < U64_LIMIT && sent != []
    requires forall i :: 0 <= i < |w| ==> w[i] < |before|
    requires forall i, j :: 0 <= i < j < |w| ==> w[i] != w[j]
    ensures var wire := Channel.Frames(key, before, w) + Channel.SealedFrom(key, |before|, Outbox.Signals(sent));
      var got := Channel.Receive(Channel.CipherState(Some(key), 0), wire).1;
      && (got == before + Outbox.Signals(sent) <==> w == Channel.UpTo(|before|))
      && (w != Channel.UpTo(|before|) ==> Channel.Progress(w) < |before| && got == before[..Channel.Progress(w)])
  {
    hide Channel.Receive, Channel.Frames, Channel.SealedFrom, Channel.Progress;
    var n := Channel.Progress(w);
    Channel.FifoReceives(key, before, w);
    Channel.AllAcceptedIff(w, |before|);
    Channel.ReceiveAppend(Channel.CipherState(Some(key), 0), Channel.Frames(key, before, w),
                          Channel.SealedFrom(key, |before|, Outbox.Signals(sent)));
    Channel.InStepReceives(key, n, |before|, Outbox.Signals(sent));
    if n == |before| {
      assert before[..n] == before;
    } else {
      assert before[..n] + [] == before[..n];
    }
  }

  /** In general, under any interleaving of senders: signal number `k` arrives iff 0 .. k were written in that order. */
  lemma SignalArrivesIff(key: Channel.CipherKey, sent: seq<Bytes>, w: seq<nat>, k: nat)
    requires |sent| < U64_LIMIT && forall i :: 0 <= i < |w| ==> w[i] < |sent|
    ensures var got := Channel.Receive(Channel.CipherState(Some(key), 0), Channel.Frames(key, sent, w)).1;
      && (k < |got| <==> Channel.IsSubsequence(Channel.UpTo(k + 1), w))
      && (k < |got| ==> k < |sent| && got[k] == sent[k])
  {
    hide Channel.Receive, Channel.Frames, Channel.Progress, Channel.IsSubsequence;
    Channel.FifoReceives(key, sent, w);
    Channel.ProgressIsLongestRun(w, k + 1);
  }

  /* ---------- a file whose sending is interrupted ---------- */

  predicate NonEmpty(parts: seq<Bytes>) {
    forall i :: 0 <= i < |parts| ==> parts[i] != []
  }

  /** The parts whose send failed: what the outbox keeps. */
  function FailedParts(parts: seq<Bytes>, writes: seq<bool>): seq<Bytes>
    requires |writes| == |parts|
    decreases |parts|
  {
    if parts == [] then [] else
    var k := |parts| - 1;
    FailedParts(parts[..k], writes[..k]) + (if writes[k] then [] else [parts[k]])
  }

  /** What reaches the peer: the parts before the first failure, and later the queued ones. */
  function Arriving(parts: seq<Bytes>, writes: seq<bool>): seq<Bytes>
    requires |writes| == |parts|
  {
    parts[..Channel.Leading(writes)] + FailedParts(parts, writes)
  }

  /** A part was sent after another one had failed. */
  ghost predicate LateSuccess(writes: seq<bool>) {
    exists i :: LateAt(writes, i)
  }

  predicate LateAt(writes: seq<bool>, i: int) {
    Channel.Leading(writes) <= i < |writes| && writes[i]
  }

  lemma LateAtNext(writes: seq<bool>, i: nat)
    requires i < |writes|
    ensures var k := |writes| - 1;
      LateAt(writes, i) <==>
      if i < k then LateAt(writes[..k], i) else writes[k] && Channel.Leading(writes[..k]) < k
  {
    hide Channel.Leading;
    Channel.LeadingNext(writes);
  }

  lemma LateSuccessNext(writes: seq<bool>)
    requires writes != []
    ensures var k := |writes| - 1;
      LateSuccess(writes) <==> LateSuccess(writes[..k]) || (writes[k] && Channel.Leading(writes[..k]) < k)
  {
    hide Channel.Leading, LateAt;
    var k := |writes| - 1;
    LateAtNext(writes, k);
    if i :| LateAt(writes[..k], i) {
      assert 0 <= i < k by { LateInRange(writes[..k], i); }
      LateAtNext(writes, i);
    }
    if i :| LateAt(writes, i) {
      assert 0 <= i <= k by { LateInRange(writes, i); }
      LateAtNext(writes, i);
    }
  }

  lemma LateInRange(writes: seq<bool>, i: int)
    requires LateAt(writes, i)
    ensures 0 <= i < |writes|
  {
  }

  /** With the last part: it arrives unless it was sent after a failure. */
  lemma ArrivingNext(parts: seq<Bytes>, writes: seq<bool>)
    requires |writes| == |parts| && parts != []
    ensures var k := |parts| - 1;
      var before := Arriving(parts[..k], writes[..k]);
      && (!writes[k] ==> Arriving(parts, writes) == before + [parts[k]])
      && (writes[k] && Channel.Leading(writes[..k]) < k ==> Arriving(parts, writes) == before)
      && (writes[k] && Channel.Leading(writes[..k]) == k ==> Arriving(parts, writes) == parts && before == parts[..k])
  {
    hide Channel.Leading;
    var k := |parts| - 1;
    var l := Channel.Leading(writes[..k]);
    Channel.LeadingNext(writes);
    assert parts[..k][..l] == parts[..l];
    if l == k && writes[k] {
      NoneFailed(parts[..k], writes[..k]);
      NoneFailed(parts, writes);
    }
  }

  lemma {:induction false} NoneFailed(parts: seq<Bytes>, writes: seq<bool>)
    requires |writes| == |parts| && forall i :: 0 <= i < |writes| ==> writes[i]
    ensures FailedParts(parts, writes) == []
    decreases |parts|
  {
    if parts != [] {
      var k := |parts| - 1;
      NoneFailed(parts[..k], writes[..k]);
    }
  }

  /** What arrives is the file exactly if no part was sent after a failed one; otherwise it is shorter. */
  lemma {:induction false} ArrivingIsFileIff(parts: seq<Bytes>, writes: seq<bool>)
    requires |writes| == |parts| && NonEmpty(parts)
    ensures Flat(Arriving(parts, writes)) == Flat(parts) <==> !LateSuccess(writes)
    ensures LateSuccess(writes) ==> |Flat(Arriving(parts, writes))| < |Flat(parts)|
    decreases |parts|
  {
    hide Arriving, Flat, LateSuccess, Channel.Leading;
    if parts == [] {
      NothingArrives(parts, writes);
    } else {
      var k := |parts| - 1;
      var p, w := parts[..k], writes[..k];
      ArrivingIsFileIff(p, w);
      LateSuccessNext(writes);
      ArrivingNext(parts, writes);
      FlatSnoc(parts);
      if !writes[k] {
        FlatLast(Arriving(p, w), parts[k]);
      }
    }
  }

  lemma NothingArrives(parts: seq<Bytes>, writes: seq<bool>)
    requires parts == [] && writes == []
    ensures Arriving(parts, writes) == parts && !LateSuccess(writes)
  {
  }

  lemma FlatLast(a: seq<Bytes>, x: Bytes)
    ensures Flat(a + [x]) == Flat(a) + x
  {
    FlatSnoc(a + [x]);
    assert (a + [x])[..|a|] == a;
  }

  /** The outbox holds the chunks of the failed parts, in order. */
  lemma {:induction false} QueuedChunks(id: Id, parts: seq<Bytes>, writes: seq<bool>)
    requires |writes| == |parts| && NonEmpty(parts)
    ensures ChunksBy(id, parts, writes, false) == ChunkFrames(id, FailedParts(parts, writes))
    ensures NonEmpty(FailedParts(parts, writes))
    decreases |parts|
  {
    hide ChunkBytes, ChunksBy, ChunkFrames;
    if parts == [] {
      ChunksOfNone(id);
    } else {
      var k := |parts| - 1;
      QueuedChunks(id, parts[..k], writes[..k]);
      ChunksOfNext(id, parts, writes, false);
      var failed, queued := FailedParts(parts[..k], writes[..k]), ChunksBy(id, parts[..k], writes[..k], false);
      ChunkFramesSnoc(id, failed, parts[k]);
      assert failed + [] == failed && queued + [] == queued;
    }
  }

  lemma ChunkFramesSnoc(id: Id, parts: seq<Bytes>, x: Bytes)
    requires x != []
    ensures ChunkFrames(id, parts + [x]) == ChunkFrames(id, parts) + [ChunkBytes(id, x)]
  {
    hide ChunkBytes;
    assert (parts + [x])[..|parts|] == parts;
  }

  /** The chunk frames of non-empty parts, one each. */
  lemma {:induction false} ChunkFramesAt(id: Id, parts: seq<Bytes>)
    requires NonEmpty(parts)
    ensures |ChunkFrames(id, parts)| == |parts|
    ensures forall i :: 0 <= i < |parts| ==> ChunkFrames(id, parts)[i] == ChunkBytes(id, parts[i])
    decreases |parts|
  {
    hide ChunkBytes;
    if parts != [] {
      ChunkFramesAt(id, parts[..|parts| - 1]);
    }
  }

  /** On the first session the peer accepts the chunks before the first failed send, and no later one. */
  lemma FirstSessionAccepts(key: Channel.CipherKey, n: nat, id: Id, parts: seq<Bytes>, writes: seq<bool>)
    requires |writes| == |parts| && NonEmpty(parts) && n + |parts| < U64_LIMIT
    ensures |ChunkFrames(id, parts)| == |parts|
    ensures Channel.Receive(Channel.CipherState(Some(key), n),
                            Channel.Written(key, n, ChunkFrames(id, parts), writes)).1
         == ChunkFrames(id, parts[..Channel.Leading(writes)])
  {
    hide Channel.Receive, Channel.Written, Channel.Leading, ChunkFrames;
    var k := Channel.Leading(writes);
    ChunkFramesAt(id, parts);
    ChunkFramesAt(id, parts[..k]);
    Channel.GapStops(key, n, n, ChunkFrames(id, parts), writes);
    assert ChunkFrames(id, parts)[..k] == ChunkFrames(id, parts[..k]);
  }

  /** Chunk events on live sessions, one for each part. */
  function ChunkEvents(ns: seq<nat>, id: Id, parts: seq<Bytes>, envs: seq<Env>): (r: seq<Event>)
    requires |ns| == |envs| == |parts|
    ensures |r| == |parts|
  {
    seq(|parts|, i requires 0 <= i < |parts| => FrameEvent(ns[i], ChunkBytes(id, parts[i]), envs[i]))
  }

  lemma ChunkEventKeeps(c: Node, n: nat, id: Id, data: Bytes, env: Env)
    requires Live(c, n)
    ensures var e := FrameEvent(n, ChunkBytes(id, data), env);
      && Step(c, e).Ok? && Step(c, e).value.conns == c.conns
      && OpenedBy(c, e) == None && ChunkFor(c, e, id) == Some(data)
  {
    hide HandleChunk, ParseSignal;
    ChunkFrameCarries(c, n, id, data, env);
    ChunkOpensNothing(c, FrameEvent(n, ChunkBytes(id, data), env), id);
    ChunkPeersSame(c, ChunkBytes(id, data)[1..], env);
  }

  lemma ChunkPeersSame(c: Node, plain: Bytes, env: Env)
    ensures HandleChunk(c, plain, env).conns == c.conns
  {
  }

  lemma {:induction false} ChunkEventsCarry(c: Node, ns: seq<nat>, id: Id, parts: seq<Bytes>, envs: seq<Env>)
    requires |ns| == |envs| == |parts| && forall i :: 0 <= i < |ns| ==> Live(c, ns[i])
    ensures Carries(c, ChunkEvents(ns, id, parts, envs), id, parts)
    ensures var r := Run(c, ChunkEvents(ns, id, parts, envs)); r.Ok? && r.value.conns == c.conns
    decreases |parts|
  {
    hide Step, OpenedBy, ChunkFor, ChunkBytes;
    if parts != [] {
      var events := ChunkEvents(ns, id, parts, envs);
      ChunkEventKeeps(c, ns[0], id, parts[0], envs[0]);
      var d := Step(c, events[0]).value;
      assert events[1..] == ChunkEvents(ns[1..], id, parts[1..], envs[1..]);
      ChunkEventsCarry(d, ns[1..], id, parts[1..], envs[1..]);
    }
  }

  /** An open transfer without data, for a file of this many bytes. */
  predicate Awaits(c: Node, id: Id, size: nat) {
    id in c.pending && c.pending[id].received == 0 && c.pending[id].buf == [] && c.pending[id].meta.size == size
  }

  /**
    The receiver of an interrupted file, through any other events: it finalizes the file,
    unaltered, exactly if no part was sent after a failed one. Otherwise the transfer stays open
    with what arrived.
  */
  lemma InterruptedTransfer(c: Node, events: seq<Event>, id: Id, parts: seq<Bytes>, writes: seq<bool>)
    requires |writes| == |parts| && NonEmpty(parts) && parts != [] && Awaits(c, id, |Flat(parts)|)
    requires Carries(c, events, id, Arriving(parts, writes))
    ensures Run(c, events).Ok?
    ensures !LateSuccess(writes) ==> Finals(c, events, id) == [Flat(parts)] && id !in Run(c, events).value.pending
    ensures LateSuccess(writes) ==>
      && Finals(c, events, id) == [] && id in Run(c, events).value.pending
      && Run(c, events).value.pending[id].buf == Flat(Arriving(parts, writes))
  {
    hide Carries, Finals, Run, Flat, Arriving, LateSuccess;
    ArrivingIsFileIff(parts, writes);
    var arriving := Arriving(parts, writes);
    if LateSuccess(writes) {
      PartialTransfer(c, events, id, arriving);
      assert [] + Flat(arriving) == Flat(arriving);
    } else {
      ArrivingNonEmpty(parts, writes);
      CompleteTransfer(c, events, id, arriving);
      assert [] + Flat(arriving) == Flat(arriving);
    }
  }

  lemma ArrivingNonEmpty(parts: seq<Bytes>, writes: seq<bool>)
    requires |writes| == |parts| && NonEmpty(parts) && parts != []
    ensures NonEmpty(Arriving(parts, writes)) && Arriving(parts, writes) != []
  {
    hide ChunksBy, ChunkFrames, Channel.Leading;
    QueuedChunks(NIL_ID, parts, writes);
    if Channel.Leading(writes) == 0 {
      SomeFailed(parts, writes);
    }
  }

  lemma {:induction false} SomeFailed(parts: seq<Bytes>, writes: seq<bool>)
    requires |writes| == |parts| && parts != [] && !writes[0]
    ensures FailedParts(parts, writes) != []
    decreases |parts|
  {
    if |parts| > 1 {
      SomeFailed(parts[..|parts| - 1], writes[..|parts| - 1]);
    }
  }

  lemma {:induction false} CarriesAppend(c: Node, x: seq<Event>, d: Node, y: seq<Event>, id: Id,
                                         p: seq<Bytes>, q: seq<Bytes>)
    requires Carries(c, x, id, p) && Run(c, x) == Ok(d) && Carries(d, y, id, q)
    ensures Carries(c, x + y, id, p + q)
    decreases |x|
  {
    hide Step, OpenedBy, ChunkFor;
    if x == [] {
      assert x + y == y && p + q == q;
    } else {
      assert (x + y)[1..] == x[1..] + y;
      var m := Step(c, x[0]).value;
      if ChunkFor(c, x[0], id).Some? {
        assert (p + q)[1..] == p[1..] + q;
        CarriesAppend(m, x[1..], d, y, id, p[1..], q);
      } else {
        CarriesAppend(m, x[1..], d, y, id, p, q);
      }
    }
  }

  function Repeat(n: nat, k: nat): (s: seq<nat>)
    ensures |s| == k && forall i :: 0 <= i < k ==> s[i] == n
  {
    seq(k, _ => n)
  }

  /** The frames of a session that hands over the chunks of these parts. */
  lemma ArrivalsAreChunks(n: nat, id: Id, parts: seq<Bytes>, envs: seq<Env>)
    requires NonEmpty(parts) && |envs| == |parts|
    ensures |ChunkFrames(id, parts)| == |parts|
    ensures EndToEnd.Arrivals(n, ChunkFrames(id, parts), envs) == ChunkEvents(Repeat(n, |parts|), id, parts, envs)
  {
    hide ChunkFrames, ChunkBytes;
    ChunkFramesAt(id, parts);
  }

  /**
    From the sender's frames to the receiver: chunks are sent over one session, then anything may
    happen that is not about the transfer, such as the connection breaking, its clean-up and a
    new connect, and a later session flushes the queued chunks without further failures. The peer
    finalizes exactly the file iff no chunk was sent after a failed one, else nothing.
  */
  lemma InterruptedFile(c: Node, n1: nat, id: Id, parts: seq<Bytes>, writes: seq<bool>, k1: Channel.CipherKey, a: nat,
                        envs1: seq<Env>, c1: Node, between: seq<Event>, c2: Node,
                        n2: nat, k2: Channel.CipherKey, b: nat, envs2: seq<Env>)
    requires |writes| == |parts| && NonEmpty(parts) && parts != [] && Awaits(c, id, |Flat(parts)|)
    requires a + |parts| < U64_LIMIT && b + |parts| < U64_LIMIT
    requires |envs1| == Channel.Leading(writes) && |envs2| == |FailedParts(parts, writes)|
    requires Live(c, n1) && Run(c, ChunkEvents(Repeat(n1, |envs1|), id, parts[..|envs1|], envs1)) == Ok(c1)
    requires Carries(c1, between, id, []) && Run(c1, between) == Ok(c2) && Live(c2, n2)
    ensures |ChunkFrames(id, parts)| == |parts|
    ensures var got1 := Channel.Receive(Channel.CipherState(Some(k1), a),
                                        Channel.Written(k1, a, ChunkFrames(id, parts), writes)).1;
      var got2 := Channel.Receive(Channel.CipherState(Some(k2), b),
                                  Channel.SealedFrom(k2, b, ChunksBy(id, parts, writes, false))).1;
      && |got1| == |envs1| && |got2| == |envs2|
      && var first, second := EndToEnd.Arrivals(n1, got1, envs1), EndToEnd.Arrivals(n2, got2, envs2);
      && Run(c, first) == Ok(c1)
      && var events := first + (between + second);
      Run(c, events).Ok? && Finals(c, events, id) == if LateSuccess(writes) then [] else [Flat(parts)]
  {
    hide Channel.Receive, Channel.Written, Channel.SealedFrom, Channel.Leading, ChunkFrames, ChunksBy, ChunkEvents,
      Carries, Finals, Run, Flat, LateSuccess, FailedParts, Live, EndToEnd.Arrivals;
    var p, q := parts[..|envs1|], FailedParts(parts, writes);
    FirstSessionAccepts(k1, a, id, parts, writes);
    QueuedChunks(id, parts, writes);
    FailedAtMost(parts, writes);
    ArrivalsAreChunks(n1, id, p, envs1);
    ArrivalsAreChunks(n2, id, q, envs2);
    Channel.InStepReceives(k2, b, b, ChunkFrames(id, q));
    var first, second := ChunkEvents(Repeat(n1, |p|), id, p, envs1), ChunkEvents(Repeat(n2, |q|), id, q, envs2);
    ChunkEventsCarry(c, Repeat(n1, |p|), id, p, envs1);
    ChunkEventsCarry(c2, Repeat(n2, |q|), id, q, envs2);
    CarriesAppend(c1, between, c2, second, id, [], q);
    CarriesAppend(c, first, c1, between + second, id, p, [] + q);
    assert p + ([] + q) == Arriving(parts, writes);
    InterruptedTransfer(c, first + (between + second), id, parts, writes);
  }

  lemma {:induction false} FailedAtMost(parts: seq<Bytes>, writes: seq<bool>)
    requires |writes| == |parts|
    ensures |FailedParts(parts, writes)| <= |parts|
    decreases |parts|
  {
    if parts != [] {
      FailedAtMost(parts[..|parts| - 1], writes[..|parts| - 1]);
    }
  }

  /* ---------- a file that goes through ---------- */

  /** The run of a session that hands over the metadata frame and then every chunk. */
  function FileEvents(n: nat, self: Key, id: Id, meta: FileMeta, parts: seq<Bytes>, first: Env, envs: seq<Env>)
    : seq<Event>
    requires FileMetaFits(meta) && |envs| == |parts|
  {
    [FrameEvent(n, MetaFrame(self, id, meta), first)] + ChunkEvents(seq(|parts|, _ => n), id, parts, envs)
  }

  /** On an accepted session whose limiter admits the metadata, such a run stores exactly the file. */
  lemma FileStored(d: Node, n: nat, self: Key, id: Id, meta: FileMeta, parts: seq<Bytes>, first: Env, envs: seq<Env>)
    requires EndToEnd.Open(d, n, self) && EndToEnd.Admits(d, n, first.now)
    requires FileMetaFits(meta) && meta.size == |Flat(parts)|
    requires parts != [] && NonEmpty(parts) && |envs| == |parts| && envs[|parts| - 1].db.rowOk
    ensures var r := Run(d, FileEvents(n, self, id, meta, parts, first, envs));
      && r.Ok? && id !in r.value.pending
      && var target := if id == NIL_ID then envs[|parts| - 1].drawn else id;
      target in r.value.store.files && r.value.store.files[target] == Flat(parts)
  {
    hide Run, Step, Flat, MetaFrame, ChunkBytes, Carries, Finals, FinalizedBy, ChunkFor, OpenedBy, FileMetaFits,
      RateLimiter.Allow, Live;
    MetaFrameOpens(d, n, self, id, meta, first);
    var e := FrameEvent(n, MetaFrame(self, id, meta), first);
    var o := Step(d, e).value;
    var k := |parts| - 1;
    var ns := seq(k, _ => n);
    var before := ChunkEvents(ns, id, parts[..k], envs[..k]);
    var last := FrameEvent(n, ChunkBytes(id, parts[k]), envs[k]);
    ChunkEventsCarry(o, ns, id, parts[..k], envs[..k]);
    var mid := Run(o, before).value;
    assert Live(mid, n) by { LiveByConns(o, mid, n); }
    ChunkEventKeeps(mid, n, id, parts[k], envs[k]);
    FileTransferDelivers(d, n, self, id, meta, first, o, before, mid, last, parts);
    assert ChunkEvents(seq(|parts|, _ => n), id, parts, envs) == before + [last];
    RunAppend(o, before, [last]);
    RunOne(mid, last);
    RunCons(d, e, before + [last]);
  }

  lemma LiveByConns(c: Node, d: Node, n: nat)
    requires Live(c, n) && d.conns == c.conns
    ensures Live(d, n)
  {
  }

  /**
    A file over a loss-free session: from any nonce at which both sides agree, the frames of
    `SendFile`, metadata and chunks, are decrypted in order, and on an accepted session whose
    limiter admits the metadata the receiver ends up with exactly the file's bytes in its file
    table and the transfer closed.
  */
  lemma FileDelivered(d: Node, n: nat, self: Key, id: Id, meta: FileMeta, parts: seq<Bytes>, key: Channel.CipherKey,
                      nonce: nat, first: Env, envs: seq<Env>)
    requires EndToEnd.Open(d, n, self) && EndToEnd.Admits(d, n, first.now)
    requires FileMetaFits(meta) && meta.size == |Flat(parts)|
    requires parts != [] && NonEmpty(parts) && nonce + |parts| + 1 < U64_LIMIT && |envs| == |parts|
    requires envs[|parts| - 1].db.rowOk
    ensures var plains := [MetaFrame(self, id, meta)] + ChunkFrames(id, parts);
      var got := Channel.Receive(Channel.CipherState(Some(key), nonce), Channel.SealedFrom(key, nonce, plains)).1;
      && got == plains && |plains| == |parts| + 1
      && var r := Run(d, EndToEnd.Arrivals(n, got, [first] + envs));
      && r.Ok? && id !in r.value.pending
      && var target := if id == NIL_ID then envs[|parts| - 1].drawn else id;
      target in r.value.store.files && r.value.store.files[target] == Flat(parts)
  {
    hide Channel.Receive, Channel.SealedFrom, ChunkFrames, Run, Flat, MetaFrame, ChunkBytes, FileMetaFits,
      EndToEnd.Open, EndToEnd.Admits;
    var plains := [MetaFrame(self, id, meta)] + ChunkFrames(id, parts);
    ChunkFramesAt(id, parts);
    Channel.InStepReceives(key, nonce, nonce, plains);
    FileStored(d, n, self, id, meta, parts, first, envs);
    assert EndToEnd.Arrivals(n, plains, [first] + envs) == FileEvents(n, self, id, meta, parts, first, envs);
  }
}
