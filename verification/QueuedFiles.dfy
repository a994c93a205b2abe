/**
  An interrupted file whose queued chunks wait in the outbox table: the flush takes them in the
  order of a listing, by creation time with ties in any order, among other signals of the peer,
  and at the receiver anything may happen between the frames.
*/
module QueuedFiles {
  import opened ByteStrings
  import opened Envelopes
  import opened ChatNode
  import opened FileTransfers
  import opened Delivery
  import Channel = SecureChannel
  import Outbox

  /** The signal is a chunk of this transfer. */
  predicate IsChunk(signal: Bytes, id: Id) {
    |signal| >= 17 && signal[0] == 0 && signal[1..17] == id
  }

  function ChunkData(signal: Bytes): Bytes {
    if |signal| >= 17 then signal[17..] else []
  }

  /** The entries of a listing that are chunks of the transfer, in its order. */
  function ChunkEntries(list: seq<Outbox.Entry>, id: Id): seq<Outbox.Entry> {
    if list == [] then [] else
    var k := |list| - 1;
    ChunkEntries(list[..k], id) + (if IsChunk(list[k].signal, id) then [list[k]] else [])
  }

  function DataOf(entries: seq<Outbox.Entry>): (r: seq<Bytes>)
    ensures |r| == |entries|
  {
    seq(|entries|, i requires 0 <= i < |entries| => ChunkData(entries[i].signal))
  }

  /** The chunks of the transfer that wait in the table for the peer are those of the queue. */
  ghost predicate Waits(rows: map<Id, Outbox.Entry>, peer: Key, id: Id, queue: seq<Outbox.Entry>) {
    && Outbox.Distinct(queue)
    && forall x: Outbox.Entry :: x in queue <==>
         x.id in rows && rows[x.id] == x && x.target == peer && IsChunk(x.signal, id)
  }

  /* ---------- a listing holds the queue, each entry once ---------- */

  lemma {:induction false} ChunkEntriesHold(list: seq<Outbox.Entry>, id: Id)
    requires Outbox.Distinct(list)
    ensures Outbox.Distinct(ChunkEntries(list, id))
    ensures forall x :: x in ChunkEntries(list, id) <==> x in list && IsChunk(x.signal, id)
  {
    hide IsChunk;
    if list != [] {
      var k := |list| - 1;
      ChunkEntriesHold(list[..k], id);
      assert list == list[..k] + [list[k]];
      if IsChunk(list[k].signal, id) {
        Outbox.DistinctAppend(list[..k], list[k]);
        Outbox.DistinctAppend(ChunkEntries(list[..k], id), list[k]);
      }
    }
  }

  lemma ListingHolds(rows: map<Id, Outbox.Entry>, peer: Key, list: seq<Outbox.Entry>, id: Id,
                     queue: seq<Outbox.Entry>)
    requires Outbox.Listing(rows, peer, list) && Waits(rows, peer, id, queue)
    ensures Outbox.Distinct(ChunkEntries(list, id))
    ensures forall x :: x in ChunkEntries(list, id) <==> x in queue
  {
    hide IsChunk, ChunkEntries;
    ChunkEntriesHold(list, id);
    forall x: Outbox.Entry ensures x in list <==> x.id in rows && rows[x.id] == x && x.target == peer {
      if x in list {
        var i :| 0 <= i < |list| && list[i] == x;
      }
    }
  }

  /** Removing an entry from a sequence without repetitions. */
  lemma RemoveEntry(b: seq<Outbox.Entry>, i: nat)
    requires Outbox.Distinct(b) && i < |b|
    ensures var rest := b[..i] + b[i + 1..];
      Outbox.Distinct(rest) && forall x :: x in rest <==> x in b && x != b[i]
  {
    var rest := b[..i] + b[i + 1..];
    assert forall j :: 0 <= j < |rest| ==> rest[j] == b[if j < i then j else j + 1];
    forall x ensures x in rest <==> x in b && x != b[i] {
      RemovedMember(b, i, x);
    }
  }

  lemma RemovedMember(b: seq<Outbox.Entry>, i: nat, x: Outbox.Entry)
    requires Outbox.Distinct(b) && i < |b|
    ensures x in b[..i] + b[i + 1..] <==> x in b && x != b[i]
  {
    var rest := b[..i] + b[i + 1..];
    if x in rest {
      var j :| 0 <= j < |rest| && rest[j] == x;
      assert x == b[if j < i then j else j + 1];
    }
    if x in b && x != b[i] {
      var j :| 0 <= j < |b| && b[j] == x;
      assert x == rest[if j < i then j else j - 1];
    }
  }

  lemma SomeOfBoth(a: seq<Outbox.Entry>, b: seq<Outbox.Entry>)
    requires forall x :: x in a ==> x in b
    ensures a != [] ==> b != []
  {
    if a != [] {
      assert a[0] in b;
    }
  }

  /** The same entries in another order carry equally many bytes. */
  lemma {:induction false} SameAmount(a: seq<Outbox.Entry>, b: seq<Outbox.Entry>)
    requires Outbox.Distinct(a) && Outbox.Distinct(b) && forall x :: x in a <==> x in b
    ensures |Flat(DataOf(a))| == |Flat(DataOf(b))|
    decreases |a|
  {
    hide Flat;
    if a == [] {
      SomeOfBoth(b, a);
    } else {
      var k := |a| - 1;
      assert a[k] in a && a[k] in b;
      var i :| 0 <= i < |b| && b[i] == a[k];
      RemoveEntry(a, k);
      RemoveEntry(b, i);
      assert a[..k] + a[k + 1..] == a[..k];
      SameAmount(a[..k], b[..i] + b[i + 1..]);
      FlatWithout(a, k);
      FlatWithout(b, i);
    }
  }

  lemma FlatWithout(b: seq<Outbox.Entry>, i: nat)
    requires i < |b|
    ensures |Flat(DataOf(b))| == |Flat(DataOf(b[..i] + b[i + 1..]))| + |ChunkData(b[i].signal)|
  {
    hide ChunkData;
    var p, x, q := DataOf(b[..i]), ChunkData(b[i].signal), DataOf(b[i + 1..]);
    assert DataOf(b) == p + ([x] + q) && DataOf(b[..i] + b[i + 1..]) == p + q;
    FlatAppend(p, [x] + q);
    FlatAppend(p, q);
    assert ([x] + q)[1..] == q;
  }

  /** Created at different times, oldest first. */
  predicate StrictlyLater(queue: seq<Outbox.Entry>) {
    forall i, j :: 0 <= i < j < |queue| ==> queue[i].createdAt < queue[j].createdAt
  }

  /** Without ties a listing has only one order. */
  lemma {:induction false} OneOrder(a: seq<Outbox.Entry>, b: seq<Outbox.Entry>)
    requires Outbox.Distinct(a) && Outbox.Ascending(a) && Outbox.Distinct(b) && StrictlyLater(b)
    requires forall x :: x in a <==> x in b
    ensures a == b
    decreases |a|
  {
    if a == [] {
      SomeOfBoth(b, a);
    } else {
      SomeOfBoth(a, b);
      var k, m := |a| - 1, |b| - 1;
      assert a[k] in a && a[k] in b && b[m] in b && b[m] in a;
      var i :| 0 <= i < |b| && b[i] == a[k];
      var j :| 0 <= j < |a| && a[j] == b[m];
      assert b[m].createdAt <= a[k].createdAt;
      assert i == m;
      RemoveEntry(a, k);
      RemoveEntry(b, m);
      assert a[..k] + a[k + 1..] == a[..k] && b[..m] + b[m + 1..] == b[..m];
      OneOrder(a[..k], b[..m]);
    }
  }

  lemma {:induction false} ChunkEntriesAscend(list: seq<Outbox.Entry>, id: Id)
    requires Outbox.Ascending(list)
    ensures Outbox.Ascending(ChunkEntries(list, id))
    ensures forall x :: x in ChunkEntries(list, id) ==> x in list
  {
    hide IsChunk;
    if list != [] {
      var k := |list| - 1;
      ChunkEntriesAscend(list[..k], id);
      var c := ChunkEntries(list[..k], id);
      forall i | 0 <= i < |c| ensures c[i].createdAt <= list[k].createdAt {
        assert c[i] in list[..k];
      }
    }
  }

  /* ---------- the interrupted file ---------- */

  /** The queue holds the chunks of the parts whose send failed. */
  lemma QueueData(id: Id, parts: seq<Bytes>, writes: seq<bool>, queue: seq<Outbox.Entry>)
    requires |writes| == |parts| && NonEmpty(parts)
    requires Outbox.Signals(queue) == ChunksBy(id, parts, writes, false)
    ensures DataOf(queue) == FailedParts(parts, writes)
  {
    hide ChunksBy, ChunkFrames, FailedParts;
    QueuedChunks(id, parts, writes);
    var failed := FailedParts(parts, writes);
    ChunkFramesAt(id, failed);
    forall i | 0 <= i < |queue| ensures DataOf(queue)[i] == failed[i] {
      assert queue[i].signal == ChunkBytes(id, failed[i]);
      assert ChunkBytes(id, failed[i])[17..] == failed[i];
    }
  }

  lemma DataNonEmpty(a: seq<Outbox.Entry>, b: seq<Outbox.Entry>)
    requires NonEmpty(DataOf(b)) && forall x :: x in a ==> x in b
    ensures NonEmpty(DataOf(a))
  {
    forall i | 0 <= i < |a| ensures DataOf(a)[i] != [] {
      assert a[i] in b;
      var j :| 0 <= j < |b| && b[j] == a[i];
      assert DataOf(b)[j] != [];
    }
  }

  /**
    From the sender's frames to the receiver, with the table in between. One session sends the
    chunks and the failed ones are queued; a later flush sends a listing of the table, whatever
    else it holds, over a session in step. Whatever happens at the receiver around these chunks:
    it finalizes a file iff no chunk was sent after a failed one, and then once, with the parts in
    the order of the listing. That is the sender's file iff the listing keeps the bytes of the
    queued parts in order, and it does so if no two of them were queued in the same second.
  */
  lemma QueuedFileIff(c: Node, events: seq<Event>, id: Id, parts: seq<Bytes>, writes: seq<bool>,
                      k1: Channel.CipherKey, a: nat, rows: map<Id, Outbox.Entry>, peer: Key,
                      queue: seq<Outbox.Entry>, list: seq<Outbox.Entry>, k2: Channel.CipherKey, b: nat)
    requires |writes| == |parts| && NonEmpty(parts) && parts != [] && Awaits(c, id, |Flat(parts)|)
    requires a + |parts| < U64_LIMIT && b + |list| < U64_LIMIT
    requires Outbox.Signals(queue) == ChunksBy(id, parts, writes, false)
    requires Waits(rows, peer, id, queue) && Outbox.Listing(rows, peer, list)
    requires Carries(c, events, id, parts[..Channel.Leading(writes)] + DataOf(ChunkEntries(list, id)))
    ensures |ChunkFrames(id, parts)| == |parts|
    ensures Channel.Receive(Channel.CipherState(Some(k1), a),
                            Channel.Written(k1, a, ChunkFrames(id, parts), writes)).1
         == ChunkFrames(id, parts[..Channel.Leading(writes)])
    ensures Channel.Receive(Channel.CipherState(Some(k2), b), Channel.SealedFrom(k2, b, Outbox.Signals(list))).1
         == Outbox.Signals(list)
    ensures var direct, flushed := parts[..Channel.Leading(writes)], DataOf(ChunkEntries(list, id));
      && Finals(c, events, id) == (if LateSuccess(writes) then [] else [Flat(direct + flushed)])
      && (Finals(c, events, id) == [Flat(parts)] <==>
            !LateSuccess(writes) && Flat(flushed) == Flat(FailedParts(parts, writes)))
      && (StrictlyLater(queue) ==> flushed == FailedParts(parts, writes))
  {
    hide Carries, Finals, Run, Flat, LateSuccess, Channel.Leading, FailedParts, ChunkEntries, ChunksBy, ChunkFrames,
      Channel.Receive, Channel.Written, Channel.SealedFrom, Waits, Outbox.Listing;
    var p, failed := parts[..Channel.Leading(writes)], FailedParts(parts, writes);
    var entries := ChunkEntries(list, id);
    var flushed := DataOf(entries);
    FirstSessionAccepts(k1, a, id, parts, writes);
    Channel.InStepReceives(k2, b, b, Outbox.Signals(list));
    FlushedParts(id, parts, writes, rows, peer, queue, list);
    ArrivingIsFileIff(parts, writes);
    FlatAppend(p, flushed);
    FlatAppend(p, failed);
    assert Arriving(parts, writes) == p + failed;
    assert Flat(p + flushed) == Flat(p + failed) <==> Flat(flushed) == Flat(failed) by {
      SamePrefix(Flat(p), Flat(flushed), Flat(failed));
    }
    assert [] + Flat(p + flushed) == Flat(p + flushed);
    if LateSuccess(writes) {
      PartialTransfer(c, events, id, p + flushed);
    } else {
      assert p + flushed != [] by { SomethingFlushed(parts, p + flushed); }
      CompleteTransfer(c, events, id, p + flushed);
    }
  }

  lemma SamePrefix(x: Bytes, y: Bytes, z: Bytes)
    ensures x + y == x + z <==> y == z
  {
    assert (x + y)[|x|..] == y && (x + z)[|x|..] == z;
  }

  lemma SomethingFlushed(parts: seq<Bytes>, arriving: seq<Bytes>)
    requires parts != [] && NonEmpty(parts) && |Flat(arriving)| == |Flat(parts)|
    ensures arriving != []
  {
  }

  /** What a listing flushes of the transfer: as many bytes as were queued, and without ties the same parts. */
  lemma FlushedParts(id: Id, parts: seq<Bytes>, writes: seq<bool>, rows: map<Id, Outbox.Entry>, peer: Key,
                     queue: seq<Outbox.Entry>, list: seq<Outbox.Entry>)
    requires |writes| == |parts| && NonEmpty(parts)
    requires Outbox.Signals(queue) == ChunksBy(id, parts, writes, false)
    requires Waits(rows, peer, id, queue) && Outbox.Listing(rows, peer, list)
    ensures var flushed := DataOf(ChunkEntries(list, id));
      && |Flat(flushed)| == |Flat(FailedParts(parts, writes))| && NonEmpty(flushed)
      && (StrictlyLater(queue) ==> flushed == FailedParts(parts, writes))
  {
    hide ChunkEntries, ChunksBy, FailedParts, Flat, ChunkFrames;
    var entries := ChunkEntries(list, id);
    QueueData(id, parts, writes, queue);
    QueuedChunks(id, parts, writes);
    ListingHolds(rows, peer, list, id, queue);
    ChunkEntriesAscend(list, id);
    SameAmount(entries, queue);
    DataNonEmpty(entries, queue);
    if StrictlyLater(queue) {
      OneOrder(entries, queue);
    }
  }

  /** Two chunks queued in one second may be listed the other way round, and the file then ends up reversed. */
  lemma TiesReorder(x: Outbox.Entry, y: Outbox.Entry, id: Id)
    requires x.id != y.id && x.target == y.target && x.createdAt == y.createdAt
    requires x.signal == ChunkBytes(id, [1]) && y.signal == ChunkBytes(id, [2])
    ensures var rows := map[x.id := x, y.id := y];
      Outbox.Listing(rows, x.target, [x, y]) && Outbox.Listing(rows, x.target, [y, x])
    ensures Flat(DataOf(ChunkEntries([x, y], id))) == [1, 2] && Flat(DataOf(ChunkEntries([y, x], id))) == [2, 1]
  {
    hide IsChunk, ChunkData, ChunkBytes, ChunkEntries, Flat, Outbox.Listing;
    ChunkIs(id, [1]);
    ChunkIs(id, [2]);
    TwoListed(x, y);
    TwoListed(y, x);
    assert map[y.id := y, x.id := x] == map[x.id := x, y.id := y];
    TwoEntries(x, y, id);
    TwoEntries(y, x, id);
    assert [1] + [2] == [1, 2] && [2] + [1] == [2, 1];
  }

  lemma ChunkIs(id: Id, data: Bytes)
    ensures IsChunk(ChunkBytes(id, data), id) && ChunkData(ChunkBytes(id, data)) == data
  {
    var b := ChunkBytes(id, data);
    assert b[1..17] == id && b[17..] == data;
  }

  lemma TwoListed(x: Outbox.Entry, y: Outbox.Entry)
    requires x.id != y.id && x.target == y.target && x.createdAt <= y.createdAt
    ensures Outbox.Listing(map[x.id := x, y.id := y], x.target, [x, y])
  {
  }

  lemma TwoEntries(x: Outbox.Entry, y: Outbox.Entry, id: Id)
    requires IsChunk(x.signal, id) && IsChunk(y.signal, id)
    ensures ChunkEntries([x, y], id) == [x, y]
    ensures Flat(DataOf([x, y])) == ChunkData(x.signal) + ChunkData(y.signal)
  {
    hide IsChunk, ChunkData;
    assert [x, y][..1] == [x] && [x][..0] == [];
    assert ChunkEntries([x], id) == ChunkEntries([], id) + [x] == [x];
    assert DataOf([x, y]) == [ChunkData(x.signal)] + [ChunkData(y.signal)];
    FlatAppend([ChunkData(x.signal)], [ChunkData(y.signal)]);
    FlatOne(ChunkData(x.signal));
    FlatOne(ChunkData(y.signal));
  }

  lemma FlatOne(x: Bytes)
    ensures Flat([x]) == x
  {
    assert Flat([x]) == x + Flat([x][1..]) == x;
  }
}
