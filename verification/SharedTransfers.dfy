/**
  Whose bytes a received file holds. Transfers are found by identifier alone, so a chunk from
  any live session, accepted or not, joins the transfer that another peer opened, and metadata
  from any accepted session starts it afresh. The theorems say what a run stores, whoever sends,
  and exactly when that is the opener's file.
*/
module SharedTransfers {
  import opened ByteStrings
  import opened Envelopes
  import opened ChatStore
  import opened ChatNode
  import opened Authorship
  import opened AcceptGate
  import opened FileTransfers
  import RateLimiter

  /* ---------- one transfer as a list of what arrives for it ---------- */

  /** What frames say about one identifier: a chunk's data, or metadata that passed the gate. */
  datatype Item = Data(bytes: Bytes) | Header(meta: FileMeta)

  /** The transfer after an item, and the file that the item finalizes. */
  function Next(t: Option<Transfer>, x: Item): (Option<Transfer>, Option<Bytes>) {
    match x
    case Header(meta) => (Some(Transfer(meta, 0, [])), None)
    case Data(bytes) =>
      if t.None? then (None, None) else
      var u := t.value.(received := t.value.received + |bytes|, buf := t.value.buf + bytes);
      if u.received >= u.meta.size then (None, Some(u.buf)) else (Some(u), None)
  }

  /** The transfer after all items, and the files finalized on the way. */
  function Outcome(t: Option<Transfer>, items: seq<Item>): (Option<Transfer>, seq<Bytes>)
    decreases |items|
  {
    if items == [] then (t, []) else
    var (u, f) := Next(t, items[0]);
    var (v, files) := Outcome(u, items[1..]);
    (v, if f.Some? then [f.value] + files else files)
  }

  function FirstFile(t: Option<Transfer>, items: seq<Item>): Option<Bytes> {
    var files := Outcome(t, items).1;
    if files == [] then None else Some(files[0])
  }

  /* ---------- runs of the node ---------- */

  function OpenTransfer(c: Node, id: Id): Option<Transfer> {
    if id in c.pending then Some(c.pending[id]) else None
  }

  /** What an event says about the identifier, if anything. */
  function ItemOf(c: Node, e: Event, id: Id): Option<Item> {
    if OpenedBy(c, e) == Some(id) then Some(Header(DecodeFileMeta(Admitted(c, e).value.content).value))
    else if ChunkFor(c, e, id).Some? then Some(Data(ChunkFor(c, e, id).value))
    else None
  }

  /** The items of a run, in order, each with the key of the session it came from. */
  ghost function ItemsOf(c: Node, events: seq<Event>, id: Id): seq<(Key, Item)>
    decreases |events|
  {
    if events == [] then [] else
    var x := ItemOf(c, events[0], id);
    var here := if x.Some? && events[0].n < |c.conns| then [(c.conns[events[0].n].key, x.value)] else [];
    match Step(c, events[0])
    case Ok(d) => here + ItemsOf(d, events[1..], id)
    case _ => here
  }

  function Contents(items: seq<(Key, Item)>): (r: seq<Item>)
    ensures |r| == |items|
  {
    seq(|items|, i requires 0 <= i < |items| => items[i].1)
  }

  lemma ItemIsFrame(c: Node, e: Event, id: Id)
    requires ItemOf(c, e, id).Some?
    ensures e.FrameEvent? && Live(c, e.n)
  {
    hide ParseSignal, RateLimiter.Allow, KindOf, DecodeFileMeta;
  }

  lemma ItemStep(c: Node, e: Event, id: Id)
    requires Step(c, e).Ok?
    ensures var x, t := ItemOf(c, e, id), OpenTransfer(c, id);
      && OpenTransfer(Step(c, e).value, id) == (if x.Some? then Next(t, x.value).0 else t)
      && FinalizedBy(c, e, id) == (if x.Some? then Next(t, x.value).1 else None)
  {
    hide Step, FinalizeFile, OpenedBy, ChunkFor;
    if OpenedBy(c, e) == Some(id) {
      OpenStep(c, e, id);
      assert ChunkFor(c, e, id) == None by {
        if ChunkFor(c, e, id).Some? { ChunkOpensNothing(c, e, id); }
      }
    } else if ChunkFor(c, e, id).Some? {
      if id in c.pending {
        var t, data := c.pending[id], ChunkFor(c, e, id).value;
        ChunkStep(c, e, id);
        ClosedByFinalize(c, id, t.(received := t.received + |data|, buf := t.buf + data), e.env);
      } else {
        ChunkOfClosed(c, e, id);
      }
    } else {
      OtherEventsKeep(c, e, id);
    }
  }

  /** Every run does with an identifier exactly what its items say, whoever sent them. */
  lemma {:induction false} RunFollowsItems(c: Node, events: seq<Event>, id: Id)
    requires Run(c, events).Ok?
    ensures Outcome(OpenTransfer(c, id), Contents(ItemsOf(c, events, id))) ==
            (OpenTransfer(Run(c, events).value, id), Finals(c, events, id))
    decreases |events|
  {
    hide Step, ItemOf, FinalizedBy, Next, ItemsOf, Outcome, Run, Finals;
    if events == [] {
      NothingFollows(c, events, id);
    } else {
      RunHead(c, events, id);
      var d, x, t := Step(c, events[0]).value, ItemOf(c, events[0], id), OpenTransfer(c, id);
      ItemStep(c, events[0], id);
      RunFollowsItems(d, events[1..], id);
      var rest, files := ItemsOf(d, events[1..], id), Finals(d, events[1..], id);
      assert [] + rest == rest && [] + files == files;
      if x.Some? {
        var all := [(c.conns[events[0].n].key, x.value)] + rest;
        assert Contents(all) == [x.value] + Contents(rest);
        OutcomeCons(t, x.value, Contents(rest));
      }
    }
  }

  lemma NothingFollows(c: Node, events: seq<Event>, id: Id)
    requires events == []
    ensures Outcome(OpenTransfer(c, id), Contents(ItemsOf(c, events, id))) == (OpenTransfer(c, id), [])
    ensures Run(c, events) == Ok(c) && Finals(c, events, id) == []
  {
    assert Contents(ItemsOf(c, events, id)) == [];
  }

  lemma OutcomeCons(t: Option<Transfer>, x: Item, rest: seq<Item>)
    ensures Outcome(t, [x] + rest) ==
            var (u, f) := Next(t, x);
            var (v, files) := Outcome(u, rest);
            (v, if f.Some? then [f.value] + files else files)
  {
    hide Next;
    assert ([x] + rest)[1..] == rest;
  }

  lemma RunHead(c: Node, events: seq<Event>, id: Id)
    requires events != [] && Run(c, events).Ok?
    ensures Step(c, events[0]).Ok?
    ensures var d, x, f := Step(c, events[0]).value, ItemOf(c, events[0], id), FinalizedBy(c, events[0], id);
      && Run(c, events) == Run(d, events[1..])
      && (x.Some? ==> events[0].FrameEvent? && events[0].n < |c.conns|)
      && ItemsOf(c, events, id) == (if x.Some? then [(c.conns[events[0].n].key, x.value)] else [])
                                   + ItemsOf(d, events[1..], id)
      && Finals(c, events, id) == (if f.Some? then [f.value] else []) + Finals(d, events[1..], id)
  {
    hide Step, ItemOf, FinalizedBy;
    if ItemOf(c, events[0], id).Some? {
      ItemIsFrame(c, events[0], id);
    }
  }

  /* ---------- the opener's parts among items of others ---------- */

  /** Who sends what: a part of the opener, or a chunk or metadata of somebody else. */
  datatype Place = OwnPart | OtherChunk | OtherHeader

  predicate Fills(items: seq<Item>, pattern: seq<Place>) {
    && |items| == |pattern|
    && forall i :: 0 <= i < |items| ==> (items[i].Header? <==> pattern[i].OtherHeader?)
  }

  /** The data of the opener's places. */
  function OwnData(items: seq<Item>, pattern: seq<Place>): seq<Bytes>
    requires Fills(items, pattern)
    decreases |items|
  {
    if items == [] then [] else
    (if pattern[0].OwnPart? then [items[0].bytes] else []) + OwnData(items[1..], pattern[1..])
  }

  predicate Parts(parts: seq<Bytes>) {
    parts != [] && forall i :: 0 <= i < |parts| ==> parts[i] != []
  }

  /** A transfer just opened for the file with these parts. */
  predicate Opened(t: Transfer, parts: seq<Bytes>) {
    t.received == 0 && t.buf == [] && t.meta.size == |Flat(parts)|
  }

  /** Whatever the others put into their chunks and metadata, the opener's file is the first one stored. */
  ghost predicate AlwaysOwn(t: Transfer, parts: seq<Bytes>, pattern: seq<Place>) {
    forall items :: Fills(items, pattern) && OwnData(items, pattern) == parts ==>
      FirstFile(Some(t), items) == Some(Flat(parts))
  }

  /** The first `n` items are the opener's. */
  predicate Undisturbed(pattern: seq<Place>, n: nat) {
    n <= |pattern| && forall i :: 0 <= i < n ==> pattern[i].OwnPart?
  }

  function OwnCount(pattern: seq<Place>): nat {
    if pattern == [] then 0 else (if pattern[0].OwnPart? then 1 else 0) + OwnCount(pattern[1..])
  }

  /** Parts that complete an open transfer, one after the other, finalize what is missing plus what is there. */
  lemma {:induction false} OwnPartsComplete(t: Transfer, parts: seq<Bytes>, items: seq<Item>, pattern: seq<Place>)
    requires Parts(parts) && Fills(items, pattern) && OwnData(items, pattern) == parts
    requires Undisturbed(pattern, |parts|)
    requires t.received == |t.buf| && t.received + |Flat(parts)| == t.meta.size
    ensures FirstFile(Some(t), items) == Some(t.buf + Flat(parts))
    decreases |parts|
  {
    assert items[0] == Data(parts[0]);
    var u := t.(received := t.received + |parts[0]|, buf := t.buf + parts[0]);
    if |parts| == 1 {
      assert Flat(parts) == parts[0] + Flat([]) == parts[0];
    } else {
      assert Flat(parts[1..]) == parts[1] + Flat(parts[1..][1..]);
      OwnPartsComplete(u, parts[1..], items[1..], pattern[1..]);
      Assoc(t.buf, parts[0], Flat(parts[1..]));
    }
  }

  /** Items that spoil a file of `size` bytes: others send longer chunks and announce longer files. */
  function Spoil(parts: seq<Bytes>, pattern: seq<Place>, meta: FileMeta, size: nat): (items: seq<Item>)
    requires OwnCount(pattern) == |parts|
    ensures |items| == |pattern|
    decreases |pattern|
  {
    if pattern == [] then [] else
    match pattern[0]
    case OwnPart => [Data(parts[0])] + Spoil(parts[1..], pattern[1..], meta, size)
    case OtherChunk => [Data(Zeros(size + 1))] + Spoil(parts, pattern[1..], meta, size)
    case OtherHeader => [Header(meta)] + Spoil(parts, pattern[1..], meta, size)
  }

  lemma {:induction false} SpoilFills(parts: seq<Bytes>, pattern: seq<Place>, meta: FileMeta, size: nat)
    requires OwnCount(pattern) == |parts|
    ensures Fills(Spoil(parts, pattern, meta, size), pattern)
    ensures OwnData(Spoil(parts, pattern, meta, size), pattern) == parts
    decreases |pattern|
  {
    hide Fills, OwnData;
    if pattern == [] {
      NothingFills(pattern);
    } else {
      var items, rest := Spoil(parts, pattern, meta, size), if pattern[0].OwnPart? then parts[1..] else parts;
      SpoilFills(rest, pattern[1..], meta, size);
      FillsCons(items[0], Spoil(rest, pattern[1..], meta, size), pattern);
      assert pattern[0].OwnPart? ==> parts == [parts[0]] + parts[1..];
    }
  }

  lemma NothingFills(pattern: seq<Place>)
    requires pattern == []
    ensures Fills([], pattern) && OwnData([], pattern) == []
  {
  }

  lemma FillsCons(x: Item, items: seq<Item>, pattern: seq<Place>)
    requires pattern != [] && Fills(items, pattern[1..]) && (x.Header? <==> pattern[0].OtherHeader?)
    ensures Fills([x] + items, pattern)
    ensures OwnData([x] + items, pattern) ==
            (if pattern[0].OwnPart? then [x.bytes] else []) + OwnData(items, pattern[1..])
  {
    assert ([x] + items)[1..] == items;
    assert forall i :: 0 < i < |pattern| ==> pattern[i] == pattern[1..][i - 1];
  }

  /** While only longer files are announced, only longer files are stored. */
  lemma {:induction false} LongerStays(t: Transfer, items: seq<Item>, size: nat)
    requires t.received == |t.buf| && t.meta.size > size
    requires forall i :: 0 <= i < |items| && items[i].Header? ==> items[i].meta.size > size
    ensures FirstFile(Some(t), items) == None || |FirstFile(Some(t), items).value| > size
    decreases |items|
  {
    if items != [] {
      var (u, f) := Next(Some(t), items[0]);
      if f.None? {
        LongerStays(u.value, items[1..], size);
      }
    }
  }

  lemma {:induction false} SpoilHeaders(parts: seq<Bytes>, pattern: seq<Place>, meta: FileMeta, size: nat)
    requires OwnCount(pattern) == |parts|
    ensures var items := Spoil(parts, pattern, meta, size);
      forall i :: 0 <= i < |items| && items[i].Header? ==> items[i].meta == meta
    decreases |pattern|
  {
    if pattern != [] {
      var items, rest := Spoil(parts, pattern, meta, size), if pattern[0].OwnPart? then parts[1..] else parts;
      SpoilHeaders(rest, pattern[1..], meta, size);
      assert items[1..] == Spoil(rest, pattern[1..], meta, size);
      assert forall i :: 0 < i < |items| ==> items[i] == items[1..][i - 1];
    }
  }

  /** With something of somebody else before the last part, the first file stored is longer, or there is none. */
  lemma {:induction false} DisturbedIsSpoiled(t: Transfer, parts: seq<Bytes>, pattern: seq<Place>, meta: FileMeta,
                                              size: nat)
    requires forall i :: 0 <= i < |parts| ==> parts[i] != []
    requires OwnCount(pattern) == |parts| && !Undisturbed(pattern, |parts|)
    requires t.received == |t.buf| && t.meta.size == size == t.received + |Flat(parts)| && meta.size == size + 1
    ensures var f := FirstFile(Some(t), Spoil(parts, pattern, meta, size)); f == None || |f.value| > size
    decreases |pattern|
  {
    OwnCountAtMost(pattern);
    var items := Spoil(parts, pattern, meta, size);
    SpoilHeaders(parts, pattern, meta, size);
    match pattern[0] {
      case OtherChunk =>
      case OtherHeader =>
        assert forall i :: 0 <= i < |items[1..]| ==> items[1..][i] == items[i + 1];
        LongerStays(Transfer(meta, 0, []), items[1..], size);
      case OwnPart =>
        var u := t.(received := t.received + |parts[0]|, buf := t.buf + parts[0]);
        UndisturbedTail(pattern, |parts|);
        assert parts[1..] != [];
        assert Flat(parts[1..]) == parts[1] + Flat(parts[1..][1..]);
        assert items[1..] == Spoil(parts[1..], pattern[1..], meta, size);
        DisturbedIsSpoiled(u, parts[1..], pattern[1..], meta, size);
    }
  }

  lemma UndisturbedTail(pattern: seq<Place>, n: nat)
    requires pattern != [] && pattern[0].OwnPart? && n > 0
    ensures Undisturbed(pattern, n) <==> Undisturbed(pattern[1..], n - 1)
  {
    assert forall i :: 0 < i < |pattern| ==> pattern[i] == pattern[1..][i - 1];
  }

  lemma {:induction false} OwnCountAtMost(pattern: seq<Place>)
    ensures OwnCount(pattern) <= |pattern|
  {
    if pattern != [] {
      OwnCountAtMost(pattern[1..]);
    }
  }

  /**
    The first file stored under the identifier is the opener's, whatever others put into their
    items, exactly if no chunk and no metadata of another session comes before the opener's last
    part. (A file one byte longer must still be announceable.)
  */
  lemma OwnBytesIff(t: Transfer, parts: seq<Bytes>, pattern: seq<Place>)
    requires Parts(parts) && Opened(t, parts) && OwnCount(pattern) == |parts| && |Flat(parts)| + 1 < I64_LIMIT
    ensures AlwaysOwn(t, parts, pattern) <==> Undisturbed(pattern, |parts|)
  {
    hide Fills, OwnData, FirstFile, Flat;
    if Undisturbed(pattern, |parts|) {
      forall items | Fills(items, pattern) && OwnData(items, pattern) == parts
        ensures FirstFile(Some(t), items) == Some(Flat(parts))
      {
        OwnPartsComplete(t, parts, items, pattern);
        assert [] + Flat(parts) == Flat(parts);
      }
    } else {
      var size := |Flat(parts)|;
      var meta := t.meta.(size := size + 1);
      SpoilFills(parts, pattern, meta, size);
      DisturbedIsSpoiled(t, parts, pattern, meta, size);
      assert FirstFile(Some(t), Spoil(parts, pattern, meta, size)) != Some(Flat(parts));
    }
  }

  /* ---------- the same on runs ---------- */

  /** The places of a run's items: the opener's chunks are those of the sessions with its key. */
  function Places(items: seq<(Key, Item)>, owner: Key): (r: seq<Place>)
    ensures |r| == |items|
  {
    seq(|items|, i requires 0 <= i < |items| =>
      if items[i].1.Header? then OtherHeader else if items[i].0 == owner then OwnPart else OtherChunk)
  }

  lemma PlacesFill(items: seq<(Key, Item)>, owner: Key)
    ensures Fills(Contents(items), Places(items, owner))
  {
  }

  /** The sessions with the opener's key send the parts, in order, and nothing else is theirs. */
  ghost predicate OwnerSends(items: seq<(Key, Item)>, owner: Key, parts: seq<Bytes>) {
    PlacesFill(items, owner);
    OwnData(Contents(items), Places(items, owner)) == parts
  }

  /**
    A run in which the sessions with the opener's key send exactly the parts of its file, and
    others whatever they like: if no chunk of another key and no further metadata for the
    identifier comes before the last part, the first file finalized is the opener's.
  */
  lemma OpenersFileInRun(c: Node, events: seq<Event>, id: Id, owner: Key, parts: seq<Bytes>)
    requires Run(c, events).Ok? && id in c.pending && Parts(parts) && Opened(c.pending[id], parts)
    requires OwnerSends(ItemsOf(c, events, id), owner, parts)
    requires Undisturbed(Places(ItemsOf(c, events, id), owner), |parts|)
    ensures Finals(c, events, id) != [] && Finals(c, events, id)[0] == Flat(parts)
  {
    hide ItemsOf, Finals, Run, Fills, OwnData, Undisturbed, Flat, Contents, Places;
    var items := ItemsOf(c, events, id);
    PlacesFill(items, owner);
    RunFollowsItems(c, events, id);
    OwnPartsComplete(c.pending[id], parts, Contents(items), Places(items, owner));
    assert [] + Flat(parts) == Flat(parts);
  }

  /* ---------- the condition fails in real runs ---------- */

  /** One chunk from a session that is not accepted finishes another peer's transfer with its own bytes. */
  lemma StrangerFillsTransfer(c: Node, n: nat, id: Id, data: Bytes, env: Env)
    requires Live(c, n) && c.conns[n].status == Pending && id in c.pending && id != NIL_ID
    requires c.pending[id].received == 0 && c.pending[id].buf == []
    requires 0 < c.pending[id].meta.size <= |data| && env.db.rowOk
    ensures var r := Step(c, FrameEvent(n, ChunkBytes(id, data), env));
      r.Ok? && id in r.value.store.files && r.value.store.files[id] == data && id !in r.value.pending
  {
    hide ParseSignal, HandleSignal, Step, ChunkFor;
    var e := FrameEvent(n, ChunkBytes(id, data), env);
    ChunkFrameCarries(c, n, id, data, env);
    ChunkStep(c, e, id);
    FinalizingStores(c, e, id);
    assert [] + data == data;
  }

  /** The opener's first part, metadata of another accepted session `m` for one byte, the opener's second part. */
  function ResetRun(n: nat, m: nat, other: Key, id: Id, meta: FileMeta, env: Env): seq<Event>
    requires FileMetaFits(meta)
  {
    [FrameEvent(n, ChunkBytes(id, [1]), env), FrameEvent(m, MetaFrame(other, id, meta), env),
     FrameEvent(n, ChunkBytes(id, [2]), env)]
  }

  /** Without any foreign chunk: metadata of another accepted session makes the file end up as its last part. */
  lemma MetadataSpoils(c: Node, n: nat, m: nat, id: Id, meta: FileMeta, env: Env)
    requires Live(c, n) && Live(c, m) && c.conns[m].status == Accepted
    requires c.conns[m].limiter.limit != 0 && RateLimiter.Allow(c.conns[m].limiter, env.now).1
    requires id in c.pending && Opened(c.pending[id], [[1], [2]]) && FileMetaFits(meta) && meta.size == 1
    ensures var events := ResetRun(n, m, c.conns[m].key, id, meta, env);
      Run(c, events).Ok? && Finals(c, events, id) == [[2]]
  {
    assert n < |c.conns| && m < |c.conns|;
    hide Step, FinalizedBy, MetaFrame, ChunkBytes, RateLimiter.Allow, FileMetaFits, Live, Finals, Run, Opened;
    var events := ResetRun(n, m, c.conns[m].key, id, meta, env);
    var d, e, f := ResetSteps(c, n, m, id, meta, env);
    assert events == [events[0], events[1], events[2]];
    FinalsOfThree(c, events[0], events[1], events[2], id);
    RunThree(c, events[0], events[1], events[2]);
  }

  lemma ResetSteps(c: Node, n: nat, m: nat, id: Id, meta: FileMeta, env: Env) returns (d: Node, e: Node, f: Node)
    requires Live(c, n) && Live(c, m) && c.conns[m].status == Accepted
    requires c.conns[m].limiter.limit != 0 && RateLimiter.Allow(c.conns[m].limiter, env.now).1
    requires id in c.pending && Opened(c.pending[id], [[1], [2]]) && FileMetaFits(meta) && meta.size == 1
    ensures var events := ResetRun(n, m, c.conns[m].key, id, meta, env);
      && Step(c, events[0]) == Ok(d) && Step(d, events[1]) == Ok(e) && Step(e, events[2]) == Ok(f)
      && FinalizedBy(c, events[0], id) == None && FinalizedBy(d, events[1], id) == None
      && FinalizedBy(e, events[2], id) == Some([2])
  {
    assert n < |c.conns| && m < |c.conns|;
    hide Step, FinalizedBy, OpenedBy, MetaFrame, ChunkBytes, RateLimiter.Allow, FileMetaFits, Live, Opened, Flat;
    TwoBytes(c.pending[id]);
    PartArrives(c, n, id, [1], env);
    d := Step(c, FrameEvent(n, ChunkBytes(id, [1]), env)).value;
    assert Live(d, n) && Live(d, m) by { SameConnsLive(c, d, n); SameConnsLive(c, d, m); }
    e := ResetStep(d, n, m, id, meta, env);
    PartArrives(e, n, id, [2], env);
    f := Step(e, FrameEvent(n, ChunkBytes(id, [2]), env)).value;
    assert [] + [2] == [2];
  }

  lemma TwoBytes(t: Transfer)
    requires Opened(t, [[1], [2]])
    ensures t.meta.size == 2 && t.received == 0 && t.buf == []
  {
    assert Flat([[1], [2]]) == [1] + Flat([[2]]) && Flat([[2]]) == [2] + Flat([]);
  }

  /** Metadata of an accepted session starts the transfer afresh and closes no session. */
  lemma ResetStep(d: Node, n: nat, m: nat, id: Id, meta: FileMeta, env: Env) returns (e: Node)
    requires Live(d, n) && Live(d, m) && d.conns[m].status == Accepted && FileMetaFits(meta)
    requires d.conns[m].limiter.limit != 0 && RateLimiter.Allow(d.conns[m].limiter, env.now).1
    ensures var y := FrameEvent(m, MetaFrame(d.conns[m].key, id, meta), env);
      Step(d, y) == Ok(e) && FinalizedBy(d, y, id) == None
    ensures Live(e, n) && id in e.pending && e.pending[id] == Transfer(meta, 0, [])
  {
    assert m < |d.conns|;
    hide Step, FinalizedBy, OpenedBy, MetaFrame, RateLimiter.Allow, FileMetaFits, Live;
    var y := FrameEvent(m, MetaFrame(d.conns[m].key, id, meta), env);
    MetaFrameOpens(d, m, d.conns[m].key, id, meta, env);
    e := Step(d, y).value;
    OpensNothingFinal(d, y, id);
    MetaKeepsLive(d, m, n, y);
  }

  lemma SameConnsLive(c: Node, d: Node, n: nat)
    requires Live(c, n) && d.conns == c.conns
    ensures Live(d, n)
  {
  }

  /** A chunk for an open transfer: it is appended, or it closes the transfer. */
  lemma PartArrives(c: Node, n: nat, id: Id, data: Bytes, env: Env)
    requires Live(c, n) && id in c.pending
    ensures var e, t := FrameEvent(n, ChunkBytes(id, data), env), c.pending[id];
      var u := t.(received := t.received + |data|, buf := t.buf + data);
      && Step(c, e).Ok? && Step(c, e).value.conns == c.conns
      && FinalizedBy(c, e, id) == (if u.received >= u.meta.size then Some(u.buf) else None)
      && (u.received < u.meta.size ==> Step(c, e).value == c.(pending := c.pending[id := u]))
  {
    hide Step, ChunkFor, ChunkBytes;
    ChunkFrameCarries(c, n, id, data, env);
    ChunkStep(c, FrameEvent(n, ChunkBytes(id, data), env), id);
  }

  lemma OpensNothingFinal(c: Node, e: Event, id: Id)
    requires OpenedBy(c, e).Some?
    ensures FinalizedBy(c, e, id) == None
  {
    hide OpenedBy, ChunkFor;
    OpensNoChunk(c, e, id);
  }

  lemma OpensNoChunk(c: Node, e: Event, id: Id)
    requires OpenedBy(c, e).Some?
    ensures ChunkFor(c, e, id) == None
  {
    if ChunkFor(c, e, id).Some? {
      ChunkOpensNothing(c, e, id);
    }
  }

  lemma MetaKeepsLive(c: Node, m: nat, n: nat, e: Event)
    requires Live(c, n) && Live(c, m) && e.FrameEvent? && e.n == m && Step(c, e).Ok? && Live(Step(c, e).value, m)
    ensures Live(Step(c, e).value, n)
  {
    hide HandleDecrypted;
    FramePeers(c, m, e.plain, e.env);
  }

  lemma FinalsOfThree(c: Node, x: Event, y: Event, z: Event, id: Id)
    requires Step(c, x).Ok? && Step(Step(c, x).value, y).Ok?
    requires FinalizedBy(c, x, id) == None && FinalizedBy(Step(c, x).value, y, id) == None
    requires Step(Step(Step(c, x).value, y).value, z).Ok?
    requires FinalizedBy(Step(Step(c, x).value, y).value, z, id).Some?
    ensures Finals(c, [x, y, z], id) == [FinalizedBy(Step(Step(c, x).value, y).value, z, id).value]
  {
    hide Step, FinalizedBy;
    var d := Step(c, x).value;
    var e := Step(d, y).value;
    assert [x, y, z][1..] == [y, z] && [y, z][1..] == [z] && [z][1..] == [];
    assert Finals(e, [z], id) == [FinalizedBy(e, z, id).value] + Finals(Step(e, z).value, [], id);
    assert Finals(d, [y, z], id) == [] + Finals(e, [z], id);
    assert Finals(c, [x, y, z], id) == [] + Finals(d, [y, z], id);
  }
}
