/**
  File transfers: metadata opens a transfer, chunks fill its buffer, and the chunk that
  reaches the declared size closes it and stores the file. The theorems follow one transfer
  through arbitrary other events, including other transfers.
*/
module FileTransfers {
  import opened ByteStrings
  import opened MessageCodec
  import opened Envelopes
  import opened ChatStore
  import opened ChatNode
  import opened Authorship
  import opened AcceptGate
  import RateLimiter

  /* ---------- the sender ---------- */

  function Flat(parts: seq<Bytes>): Bytes {
    if parts == [] then [] else parts[0] + Flat(parts[1..])
  }

  lemma {:induction false} FlatAppend(a: seq<Bytes>, b: seq<Bytes>)
    ensures Flat(a + b) == Flat(a) + Flat(b)
  {
    if a == [] {
      assert a + b == b;
    } else {
      FlatAppend(a[1..], b);
      assert (a + b)[1..] == a[1..] + b;
      Assoc(a[0], Flat(a[1..]), Flat(b));
    }
  }

  function MetaFrame(self: Key, id: Id, meta: FileMeta): Bytes
    requires FileMetaFits(meta)
  {
    SignalBytes(Signal(FILE_META, self, id, FileMetaBytes(meta.name, meta.size, meta.mime)))
  }

  /** The chunk frames for the non-empty results of successive reads. */
  function ChunkFrames(id: Id, parts: seq<Bytes>): seq<Bytes> {
    if parts == [] then [] else
    var k := |parts| - 1;
    ChunkFrames(id, parts[..k]) + (if parts[k] == [] then [] else [ChunkBytes(id, parts[k])])
  }

  /** The chunk frames whose send turned out as `which`, in order. */
  function ChunksBy(id: Id, parts: seq<Bytes>, writes: seq<bool>, which: bool): seq<Bytes>
    requires |writes| == |parts|
    decreases |parts|
  {
    if parts == [] then [] else
    var k := |parts| - 1;
    ChunksBy(id, parts[..k], writes[..k], which)
    + (if parts[k] == [] || writes[k] != which then [] else [ChunkBytes(id, parts[k])])
  }

  /** No chunk is dropped, altered or doubled between sent and queued. */
  lemma {:induction false} ChunksSplit(id: Id, parts: seq<Bytes>, writes: seq<bool>)
    requires |writes| == |parts|
    ensures multiset(ChunksBy(id, parts, writes, true)) + multiset(ChunksBy(id, parts, writes, false))
         == multiset(ChunkFrames(id, parts))
    decreases |parts|
  {
    hide ChunkBytes, ChunksBy, ChunkFrames;
    if parts == [] {
      ChunksOfNone(id);
    } else {
      var k := |parts| - 1;
      ChunksSplit(id, parts[..k], writes[..k]);
      ChunksOfNext(id, parts, writes, true);
      ChunksOfNext(id, parts, writes, false);
    }
  }

  lemma ChunksOfNone(id: Id)
    ensures ChunksBy(id, [], [], true) == ChunksBy(id, [], [], false) == ChunkFrames(id, []) == []
  {
  }

  lemma ChunksOfNext(id: Id, parts: seq<Bytes>, writes: seq<bool>, which: bool)
    requires |writes| == |parts| && parts != []
    ensures var k := |parts| - 1;
      && ChunksBy(id, parts, writes, which) == ChunksBy(id, parts[..k], writes[..k], which)
           + (if parts[k] == [] || writes[k] != which then [] else [ChunkBytes(id, parts[k])])
      && ChunkFrames(id, parts) == ChunkFrames(id, parts[..k])
           + (if parts[k] == [] then [] else [ChunkBytes(id, parts[k])])
  {
    hide ChunkBytes;
  }

  /** Without failures every chunk is sent, in order. */
  lemma {:induction false} AllChunksSent(id: Id, parts: seq<Bytes>, writes: seq<bool>)
    requires |writes| == |parts| && forall i :: 0 <= i < |writes| ==> writes[i]
    ensures ChunksBy(id, parts, writes, true) == ChunkFrames(id, parts) && ChunksBy(id, parts, writes, false) == []
    decreases |parts|
  {
    hide ChunkBytes;
    if parts != [] {
      var k := |parts| - 1;
      AllChunksSent(id, parts[..k], writes[..k]);
    }
  }

  /** The reads handled before a chunk can be neither sent nor queued. */
  function HandledReads(parts: seq<Bytes>, writes: seq<bool>, queues: seq<bool>): (k: nat)
    requires |writes| == |queues| == |parts|
    ensures k <= |parts|
    ensures forall i :: 0 <= i < k ==> parts[i] == [] || writes[i] || queues[i]
    ensures k < |parts| ==> parts[k] != [] && !writes[k] && !queues[k]
    decreases |parts|
  {
    if parts == [] then 0
    else if parts[0] != [] && !writes[0] && !queues[0] then 0
    else
      var k := HandledReads(parts[1..], writes[1..], queues[1..]);
      assert forall i :: 0 < i < k + 1 ==> parts[1..][i - 1] == parts[i];
      k + 1
  }

  lemma HandledReadsIs(parts: seq<Bytes>, writes: seq<bool>, queues: seq<bool>, k: nat)
    requires |writes| == |queues| == |parts| && k <= |parts|
    requires forall i :: 0 <= i < k ==> parts[i] == [] || writes[i] || queues[i]
    requires k < |parts| ==> parts[k] != [] && !writes[k] && !queues[k]
    ensures HandledReads(parts, writes, queues) == k
  {
    var h := HandledReads(parts, writes, queues);
  }

  /**
    `sendFile`: metadata, then one frame per read. `wrote` tells whether the metadata was
    sent, `writes` which chunk sends succeed and `queues` which of the failed ones the outbox
    takes; `readOk` is false if the last read failed instead of reaching the end.
  */
  method SendFile(self: Key, id: Id, meta: FileMeta, parts: seq<Bytes>,
                  wrote: bool, writes: seq<bool>, queues: seq<bool>, readOk: bool)
    returns (r: Result<()>, first: Bytes, sent: seq<Bytes>, queued: seq<Bytes>)
    requires |writes| == |queues| == |parts|
    ensures r == (if !FileMetaFits(meta) then Crashed
                  else if wrote && HandledReads(parts, writes, queues) == |parts| && readOk then Ok(()) else Failed)
    ensures first == if FileMetaFits(meta) && wrote then MetaFrame(self, id, meta) else []
    ensures var k := if FileMetaFits(meta) && wrote then HandledReads(parts, writes, queues) else 0;
      && sent == ChunksBy(id, parts[..k], writes[..k], true)
      && queued == ChunksBy(id, parts[..k], writes[..k], false)
  {
    hide SignalBytes, FileMetaBytes, ChunkBytes;
    first, sent, queued := [], [], [];
    var fits, metaRaw := EncodeFileMeta(meta);
    if !fits {
      return Crashed, first, sent, queued;
    }
    var ok, sig := NewSignal(Signal(FILE_META, self, id, metaRaw[..]));
    if !wrote {
      return Failed, first, sent, queued;
    }
    first := sig[..];
    for i := 0 to |parts|
      invariant sent == ChunksBy(id, parts[..i], writes[..i], true)
      invariant queued == ChunksBy(id, parts[..i], writes[..i], false)
      invariant forall j :: 0 <= j < i ==> parts[j] == [] || writes[j] || queues[j]
    {
      assert parts[..i + 1][..i] == parts[..i] && writes[..i + 1][..i] == writes[..i];
      if parts[i] != [] {
        var plain := ChunkBytes(id, parts[i]);
        if writes[i] {
          sent := sent + [plain];
        } else {
          if !queues[i] {
            HandledReadsIs(parts, writes, queues, i);
            return Failed, first, sent, queued;
          }
          queued := queued + [plain];
        }
      }
    }
    HandledReadsIs(parts, writes, queues, |parts|);
    r := if readOk then Ok(()) else Failed;
  }

  /* ---------- one transfer at the receiver ---------- */

  /** The data of a live chunk for the transfer, if the event is one. */
  function ChunkFor(c: Node, e: Event, id: Id): Option<Bytes> {
    if ChunkId(e) == Some(id) && Live(c, e.n) then Some(e.plain[17..]) else None
  }

  /** Events that are not about the transfer leave it exactly as it is. */
  lemma OtherEventsKeep(c: Node, e: Event, id: Id)
    requires Step(c, e).Ok? && OpenedBy(c, e) != Some(id) && ChunkFor(c, e, id) == None
    ensures var d := Step(c, e).value;
      (id in d.pending <==> id in c.pending) && (id in c.pending ==> d.pending[id] == c.pending[id])
  {
    hide HandleDecrypted, SendStep, LocalUpdate, LocalDelete, OpenedBy, ChunkFor;
    if e.FrameEvent? {
      if Live(c, e.n) {
        OtherFramesKeep(c, e.n, e.plain, e.env, id);
      }
    } else if e.SendEvent? || e.UpdateEvent? || e.DeleteEvent? || e.ExpireEvent? {
      StoreEventTouches(c, e);
    } else {
      ConnectionsKeepStore(c, e);
    }
  }

  lemma OtherFramesKeep(c: Node, n: nat, plain: Bytes, env: Env, id: Id)
    requires Live(c, n)
    requires OpenedBy(c, FrameEvent(n, plain, env)) != Some(id) && ChunkFor(c, FrameEvent(n, plain, env), id) == None
    ensures var d := HandleDecrypted(c, n, plain, env).node;
      (id in d.pending <==> id in c.pending) && (id in c.pending ==> d.pending[id] == c.pending[id])
  {
    hide ParseSignal, RateLimiter.Allow, HandleSignal, KindOf, DecodeFileMeta;
    var s := c.conns[n];
    if plain == [] {
    } else if plain[0] != MARKER {
      assert |plain| >= 17 ==> plain[1..][..16] == plain[1..17];
    } else if ParseSignal(plain).Parsed? {
      var sig := ParseSignal(plain).value;
      if s.status != Accepted {
        if Ungated(KindOf(sig.typ)) {
          SignalTransfers(c, sig, s.key, env);
        }
      } else if s.limiter.limit != 0 {
        var (b, ok) := RateLimiter.Allow(s.limiter, env.now);
        if ok {
          SignalTransfers(c.(conns := c.conns[n := s.(limiter := b)]), sig, s.key, env);
        }
      }
    }
  }

  /** A live chunk is handled as `HandleChunk` says, whatever the session's status. */
  lemma ChunkStep(c: Node, e: Event, id: Id)
    requires ChunkFor(c, e, id).Some? && id in c.pending
    ensures e.FrameEvent? && Step(c, e).Ok?
    ensures var d, t, data := Step(c, e).value, c.pending[id], ChunkFor(c, e, id).value;
      var u := t.(received := t.received + |data|, buf := t.buf + data);
      d == if u.received >= u.meta.size then FinalizeFile(c, id, u, e.env) else c.(pending := c.pending[id := u])
  {
    hide FinalizeFile, HandleSignal, ParseSignal;
    assert e.plain[1..][..16] == e.plain[1..17] && e.plain[1..][16..] == e.plain[17..];
  }

  ghost predicate TransferOk(t: Transfer) {
    t.received == |t.buf| && (t.buf != [] ==> t.received < t.meta.size)
  }

  ghost predicate TransfersOk(c: Node) {
    forall id :: id in c.pending ==> TransferOk(c.pending[id])
  }

  /** Open transfers always count their buffer, and stay below the declared size once data arrived. */
  lemma TransfersOkStep(c: Node, e: Event)
    requires TransfersOk(c) && Step(c, e).Ok?
    ensures TransfersOk(Step(c, e).value)
  {
    hide Step, OpenedBy, ChunkFor;
    var d := Step(c, e).value;
    forall id | id in d.pending ensures TransferOk(d.pending[id]) {
      if ChunkFor(c, e, id).Some? {
        TransfersNeedAcceptance(c, e);
        ChunkOpensNothing(c, e, id);
        ChunkStep(c, e, id);
        ClosedByFinalize(c, id, c.pending[id].(received := c.pending[id].received + |ChunkFor(c, e, id).value|,
                                               buf := c.pending[id].buf + ChunkFor(c, e, id).value), e.env);
      } else if OpenedBy(c, e) == Some(id) {
        OpenStep(c, e, id);
      } else {
        OtherEventsKeep(c, e, id);
      }
    }
  }

  lemma ClosedByFinalize(c: Node, id: Id, t: Transfer, env: Env)
    ensures id !in FinalizeFile(c, id, t, env).pending
  {
  }

  lemma ChunkOpensNothing(c: Node, e: Event, id: Id)
    requires ChunkFor(c, e, id).Some?
    ensures OpenedBy(c, e) == None
  {
    hide ParseSignal, RateLimiter.Allow, KindOf, DecodeFileMeta;
  }

  /** Metadata that passes the gate opens a fresh transfer, replacing any earlier one. */
  lemma OpenStep(c: Node, e: Event, id: Id)
    requires OpenedBy(c, e) == Some(id) && Step(c, e).Ok?
    ensures var d := Step(c, e).value;
      && id in d.pending && d.pending[id].received == 0 && d.pending[id].buf == []
      && d.pending[id].meta == DecodeFileMeta(Admitted(c, e).value.content).value
  {
    hide ParseSignal, RateLimiter.Allow, KindOf, DecodeFileMeta, OnMessage, OnUpdate, OnDelete, OnPeerAccepted;
  }

  lemma {:induction false} TransfersOkRun(c: Node, events: seq<Event>)
    requires TransfersOk(c) && Run(c, events).Ok?
    ensures TransfersOk(Run(c, events).value)
    decreases |events|
  {
    hide Step, TransfersOk;
    if events != [] {
      TransfersOkStep(c, events[0]);
      TransfersOkRun(Step(c, events[0]).value, events[1..]);
    }
  }

  /* ---------- a transfer among other events ---------- */

  /** What an event finalizes: the buffer that closes the transfer. */
  function FinalizedBy(c: Node, e: Event, id: Id): Option<Bytes> {
    var data := ChunkFor(c, e, id);
    if data.None? || id !in c.pending then None else
    var t := c.pending[id];
    if t.received + |data.value| >= t.meta.size then Some(t.buf + data.value) else None
  }

  /** All buffers finalized under an identifier in a run, in order. */
  ghost function Finals(c: Node, events: seq<Event>, id: Id): seq<Bytes>
    decreases |events|
  {
    if events == [] then [] else
    var f := FinalizedBy(c, events[0], id);
    var here := if f.Some? then [f.value] else [];
    match Step(c, events[0])
    case Ok(d) => here + Finals(d, events[1..], id)
    case _ => here
  }

  /**
    A run without a crash whose events about the transfer are exactly chunks with the given
    data, in order; anything else may happen in between.
  */
  ghost predicate Carries(c: Node, events: seq<Event>, id: Id, parts: seq<Bytes>)
    decreases |events|
  {
    if events == [] then parts == [] else
    && Step(c, events[0]).Ok? && OpenedBy(c, events[0]) != Some(id)
    && var data, d := ChunkFor(c, events[0], id), Step(c, events[0]).value;
    if data.Some? then parts != [] && parts[0] == data.value && Carries(d, events[1..], id, parts[1..])
    else Carries(d, events[1..], id, parts)
  }

  /** A chunk of a transfer that is not open changes nothing. */
  lemma ChunkOfClosed(c: Node, e: Event, id: Id)
    requires ChunkFor(c, e, id).Some? && id !in c.pending
    ensures Step(c, e) == Ok(c) && FinalizedBy(c, e, id) == None
  {
    hide FinalizeFile, HandleSignal, ParseSignal;
    assert e.plain[1..][..16] == e.plain[1..17];
  }

  /** Once closed, a transfer that is not reopened finalizes nothing more, whatever chunks still arrive. */
  lemma {:induction false} ClosedTransfer(c: Node, events: seq<Event>, id: Id, parts: seq<Bytes>)
    requires Carries(c, events, id, parts) && id !in c.pending
    ensures Finals(c, events, id) == [] && Run(c, events).Ok? && id !in Run(c, events).value.pending
    decreases |events|
  {
    hide Step, OpenedBy, ChunkFor;
    if events != [] {
      var d := Step(c, events[0]).value;
      if ChunkFor(c, events[0], id).Some? {
        ChunkOfClosed(c, events[0], id);
        ClosedTransfer(d, events[1..], id, parts[1..]);
      } else {
        OtherEventsKeep(c, events[0], id);
        ClosedTransfer(d, events[1..], id, parts);
      }
    }
  }

  /** The number of chunks after which a transfer with `have` bytes closes, if it does. */
  function Closes(have: nat, parts: seq<Bytes>, size: int): (k: Option<nat>)
    ensures k.Some? ==> 1 <= k.value <= |parts|
    decreases |parts|
  {
    if parts == [] then None
    else if have + |parts[0]| >= size then Some(1)
    else
      var k := Closes(have + |parts[0]|, parts[1..], size);
      if k.None? then None else Some(1 + k.value)
  }

  /** The closing chunk is the first that reaches the size. */
  lemma {:induction false} ClosesIff(have: nat, parts: seq<Bytes>, size: int, k: nat)
    requires k <= |parts|
    ensures Closes(have, parts, size) == Some(k) <==>
            k >= 1 && have + |Flat(parts[..k])| >= size && (k > 1 ==> have + |Flat(parts[..k - 1])| < size)
    decreases |parts|
  {
    if k >= 1 {
      assert parts[..k][0] == parts[0] && parts[..k][1..] == parts[1..][..k - 1];
      if k == 1 {
        assert Flat(parts[..1]) == parts[0] + Flat([]) == parts[0];
      } else {
        assert parts[..k - 1][0] == parts[0] && parts[..k - 1][1..] == parts[1..][..k - 2];
        ClosesIff(have + |parts[0]|, parts[1..], size, k - 1);
        FlatGrows(parts, k - 1);
        if k == 2 {
          assert Flat(parts[..1]) == parts[0] + Flat([]) == parts[0];
        }
      }
    }
  }

  lemma FlatGrows(parts: seq<Bytes>, k: nat)
    requires 1 <= k <= |parts|
    ensures |Flat(parts[..k])| >= |parts[0]|
  {
  }

  lemma {:induction false} StaysOpen(have: nat, parts: seq<Bytes>, size: int)
    requires have + |Flat(parts)| < size
    ensures Closes(have, parts, size) == None
    decreases |parts|
  {
    if parts != [] {
      StaysOpen(have + |parts[0]|, parts[1..], size);
    }
  }

  /**
    Whatever chunks arrive, from whatever sessions and with whatever in between: the transfer is
    finalized at most once, with exactly the data up to the chunk that reaches the declared size,
    and later chunks are dropped; until then it stays open with exactly the data so far.
  */
  lemma {:induction false} TransferOutcome(c: Node, events: seq<Event>, id: Id, parts: seq<Bytes>)
    requires Carries(c, events, id, parts) && id in c.pending && c.pending[id].received == |c.pending[id].buf|
    ensures Run(c, events).Ok?
    ensures var t, d := c.pending[id], Run(c, events).value;
      var k := Closes(t.received, parts, t.meta.size);
      if k.Some? then Finals(c, events, id) == [t.buf + Flat(parts[..k.value])] && id !in d.pending
      else && Finals(c, events, id) == [] && id in d.pending
           && d.pending[id] == Transfer(t.meta, t.received + |Flat(parts)|, t.buf + Flat(parts))
    decreases |events|
  {
    hide Step, OpenedBy, ChunkFor, FinalizeFile;
    if events == [] {
      return;
    }
    var d, t := Step(c, events[0]).value, c.pending[id];
    if ChunkFor(c, events[0], id).None? {
      OtherEventsKeep(c, events[0], id);
      TransferOutcome(d, events[1..], id, parts);
      return;
    }
    var u := t.(received := t.received + |parts[0]|, buf := t.buf + parts[0]);
    ChunkStep(c, events[0], id);
    if u.received >= u.meta.size {
      assert Flat(parts[..1]) == parts[0] + Flat([]) == parts[0];
      ClosedByFinalize(c, id, u, events[0].env);
      ClosedTransfer(d, events[1..], id, parts[1..]);
    } else {
      TransferOutcome(d, events[1..], id, parts[1..]);
      var k := Closes(u.received, parts[1..], t.meta.size);
      if k.Some? {
        assert parts[..1 + k.value][0] == parts[0] && parts[..1 + k.value][1..] == parts[1..][..k.value];
        Assoc(t.buf, parts[0], Flat(parts[1..][..k.value]));
      } else {
        Assoc(t.buf, parts[0], Flat(parts[1..]));
      }
    }
  }

  /** Before the declared size is reached, the transfer stays open with exactly the data so far. */
  lemma PartialTransfer(c: Node, events: seq<Event>, id: Id, parts: seq<Bytes>)
    requires Carries(c, events, id, parts) && id in c.pending && c.pending[id].received == |c.pending[id].buf|
    requires c.pending[id].received + |Flat(parts)| < c.pending[id].meta.size
    ensures Finals(c, events, id) == [] && Run(c, events).Ok?
    ensures var d, t := Run(c, events).value, c.pending[id];
      id in d.pending && d.pending[id] == Transfer(t.meta, t.received + |Flat(parts)|, t.buf + Flat(parts))
  {
    hide Carries, Finals, Run, Flat, Closes;
    TransferOutcome(c, events, id, parts);
    StaysOpen(c.pending[id].received, parts, c.pending[id].meta.size);
  }

  /** A transfer without chunks stays open as it is; a zero-length file, which sends none, never closes. */
  lemma {:induction false} UntouchedTransfer(c: Node, events: seq<Event>, id: Id)
    requires Carries(c, events, id, []) && id in c.pending
    ensures Finals(c, events, id) == [] && Run(c, events).Ok?
    ensures id in Run(c, events).value.pending && Run(c, events).value.pending[id] == c.pending[id]
    decreases |events|
  {
    hide Step, OpenedBy, ChunkFor;
    if events != [] {
      OtherEventsKeep(c, events[0], id);
      UntouchedTransfer(Step(c, events[0]).value, events[1..], id);
    }
  }

  /**
    Chunks that add up to the declared size: whatever else happens in between, the transfer
    is finalized exactly once, with exactly the bytes sent, and ends closed.
  */
  lemma CompleteTransfer(c: Node, events: seq<Event>, id: Id, parts: seq<Bytes>)
    requires Carries(c, events, id, parts) && id in c.pending && c.pending[id].received == |c.pending[id].buf|
    requires parts != [] && forall i :: 0 <= i < |parts| ==> parts[i] != []
    requires c.pending[id].received + |Flat(parts)| == c.pending[id].meta.size
    ensures Finals(c, events, id) == [c.pending[id].buf + Flat(parts)]
    ensures Run(c, events).Ok? && id !in Run(c, events).value.pending
  {
    hide Carries, Finals, Run, Flat, Closes;
    TransferOutcome(c, events, id, parts);
    FlatSnoc(parts);
    assert parts[..|parts|] == parts;
    ClosesIff(c.pending[id].received, parts, c.pending[id].meta.size, |parts|);
  }

  /* ---------- from the sender's frames to the stored file ---------- */

  /** The sender's metadata frame, admitted on its session, opens the transfer it describes. */
  lemma MetaFrameOpens(c: Node, n: nat, self: Key, id: Id, meta: FileMeta, env: Env)
    requires FileMetaFits(meta) && Live(c, n) && c.conns[n].key == self && c.conns[n].status == Accepted
    requires c.conns[n].limiter.limit != 0 && RateLimiter.Allow(c.conns[n].limiter, env.now).1
    ensures var e := FrameEvent(n, MetaFrame(self, id, meta), env);
      && OpenedBy(c, e) == Some(id) && Step(c, e).Ok?
      && id in Step(c, e).value.pending && Step(c, e).value.pending[id] == Transfer(meta, 0, [])
      && Live(Step(c, e).value, n)
  {
    hide SignalBytes, FileMetaBytes, ParseSignal, DecodeFileMeta, KindOf, RateLimiter.Allow;
    var content := FileMetaBytes(meta.name, meta.size, meta.mime);
    var sig := Signal(FILE_META, self, id, content);
    FileMetaRoundTrip(meta, []);
    assert content + [] == content;
    SignalRoundTrip(sig, []);
    assert SignalBytes(sig) + [] == SignalBytes(sig);
    ParseSignalTotal(SignalBytes(sig));
    KindOfTypeName(FileMetaKind);
  }

  /** A chunk frame is dispatched as a chunk: no signal starts with a zero byte. */
  lemma ChunkFrameCarries(c: Node, n: nat, id: Id, data: Bytes, env: Env)
    requires Live(c, n)
    ensures ChunkFor(c, FrameEvent(n, ChunkBytes(id, data), env), id) == Some(data)
    ensures !ParseSignal(ChunkBytes(id, data)).Parsed?
  {
    hide ParseSignal;
    var b := ChunkBytes(id, data);
    assert b[1..17] == id && b[17..] == data;
    ParseSignalTotal(b);
  }

  /** Finalizing is `StoreAttachments` on the single attachment built from the transfer. */
  lemma FinalizeStoresAttachment(c: Node, id: Id, t: Transfer, env: Env)
    requires |t.buf| < I64_LIMIT && env.db.rowOk
    ensures FinalizeFile(c, id, t, env).store.files ==
            FilesAfter(c.store.files, [Attachment(id, t.meta.name, t.meta.mime, t.meta.size, t.buf)], [env.drawn])
  {
    var a := Attachment(id, t.meta.name, t.meta.mime, t.meta.size, t.buf);
    assert [a][..0] == [] && FilesAfter(c.store.files, [], [env.drawn]) == c.store.files;
  }

  /** The finalizing step stores the buffer under the transfer's identifier. */
  lemma FinalizingStores(c: Node, e: Event, id: Id)
    requires FinalizedBy(c, e, id).Some? && FinalizedBy(c, e, id).value != [] && e.env.db.rowOk
    ensures Step(c, e).Ok?
    ensures var target := if id == NIL_ID then e.env.drawn else id;
      Step(c, e).value.store.files == c.store.files[target := FinalizedBy(c, e, id).value]
  {
    hide Step, ChunkFor;
    ChunkStep(c, e, id);
  }

  /**
    End of a transfer: the run up to and including the last chunk leaves the file's bytes in
    the file table, and no earlier event of the run finalized anything under its identifier.
  */
  lemma FileTransferDelivers(c: Node, n: nat, self: Key, id: Id, meta: FileMeta, env: Env, o: Node,
                             before: seq<Event>, d: Node, last: Event, parts: seq<Bytes>)
    requires FileMetaFits(meta) && Live(c, n) && c.conns[n].key == self && c.conns[n].status == Accepted
    requires c.conns[n].limiter.limit != 0 && RateLimiter.Allow(c.conns[n].limiter, env.now).1
    requires parts != [] && (forall i :: 0 <= i < |parts| ==> parts[i] != []) && |Flat(parts)| == meta.size
    requires Step(c, FrameEvent(n, MetaFrame(self, id, meta), env)) == Ok(o)
    requires Carries(o, before, id, parts[..|parts| - 1]) && Run(o, before) == Ok(d)
    requires ChunkFor(d, last, id) == Some(parts[|parts| - 1]) && last.env.db.rowOk
    ensures Finals(o, before, id) == [] && FinalizedBy(d, last, id) == Some(Flat(parts))
    ensures Step(d, last).Ok? && id !in Step(d, last).value.pending
    ensures var target := if id == NIL_ID then last.env.drawn else id;
      target in Step(d, last).value.store.files && Step(d, last).value.store.files[target] == Flat(parts)
  {
    hide Step, Run, Carries, Finals, ChunkFor, RateLimiter.Allow, OpenedBy, MetaFrame, FinalizeFile, Live, FileMetaFits;
    MetaFrameOpens(c, n, self, id, meta, env);
    var k := |parts| - 1;
    FlatSnoc(parts);
    PartialTransfer(o, before, id, parts[..k]);
    ChunkStep(d, last, id);
    assert [] + Flat(parts[..k]) == Flat(parts[..k]);
    FinalizingStores(d, last, id);
    ClosedByFinalize(d, id, Transfer(meta, |Flat(parts)|, Flat(parts)), last.env);
  }

  lemma FlatSnoc(parts: seq<Bytes>)
    requires parts != []
    ensures Flat(parts) == Flat(parts[..|parts| - 1]) + parts[|parts| - 1]
  {
    var k := |parts| - 1;
    FlatAppend(parts[..k], [parts[k]]);
    assert parts == parts[..k] + [parts[k]] && Flat([parts[k]]) == parts[k] + Flat([parts[k]][1..]) == parts[k];
  }
}
