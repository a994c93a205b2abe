/**
  The outbox: signals that could not be sent wait in a table and are flushed, oldest first,
  when the peer's session is accepted. A flush lists the table once and then sends entry by
  entry, so flushes, new signals and admin removals interleave, and the delete behind a
  successful send may fail.
*/
module Outbox {
  import opened ByteStrings
  import Channel = SecureChannel

  datatype Entry = Entry(id: Id, target: Key, signal: Bytes, createdAt: int, retry: nat)

  /** What `Get` may return: the peer's entries, each once, by creation time; ties in any order. */
  ghost predicate Listing(rows: map<Id, Entry>, peer: Key, list: seq<Entry>) {
    && (forall i :: 0 <= i < |list| ==> list[i].id in rows && rows[list[i].id] == list[i] && list[i].target == peer)
    && (forall id :: id in rows && rows[id].target == peer ==> rows[id] in list)
    && (forall i, j :: 0 <= i < j < |list| ==> list[i].id != list[j].id && list[i].createdAt <= list[j].createdAt)
  }

  function Bump(rows: map<Id, Entry>, id: Id): map<Id, Entry> {
    if id in rows then rows[id := rows[id].(retry := rows[id].retry + 1)] else rows
  }

  function Ids(list: seq<Entry>): set<Id> {
    set e | e in list :: e.id
  }

  /** The identifiers of the first `k` entries whose delete succeeded. */
  function Deleted(list: seq<Entry>, deletes: seq<bool>, k: nat): set<Id>
    requires k <= |list| == |deletes|
  {
    set i | 0 <= i < k && deletes[i] :: list[i].id
  }

  function Signals(list: seq<Entry>): (r: seq<Bytes>)
    ensures |r| == |list|
  {
    seq(|list|, i requires 0 <= i < |list| => list[i].signal)
  }

  /**
    Row by row, what a flush leaves of the table after sending the first `k` entries of the listing:
    they are gone where their delete succeeded, the retry count of the next one has grown by one if
    it was bumped, and every other row is as it was.
  */
  ghost predicate LeavesRows(rows: map<Id, Entry>, after: map<Id, Entry>, list: seq<Entry>, deletes: seq<bool>, k: nat,
                             bumped: bool)
    requires |deletes| == |list|
  {
    && (forall i :: 0 <= i < |list| ==>
          if i < k && deletes[i] then list[i].id !in after
          else && list[i].id in after
               && after[list[i].id] == list[i].(retry := list[i].retry + if bumped && i == k then 1 else 0))
    && (forall id :: id in rows && (forall i :: 0 <= i < |list| ==> list[i].id != id) ==>
          id in after && after[id] == rows[id])
    && (forall id :: id in after ==> id in rows)
  }

  class OutboxStore {
    var rows: map<Id, Entry>

    constructor ()
      ensures rows == map[]
    {
      rows := map[];
    }

    method Put(target: Key, signal: Bytes, id: Id, now: int, insertOk: bool) returns (ok: bool)
      modifies this
      ensures ok == insertOk
      ensures rows == if ok then old(rows)[id := Entry(id, target, signal, now, 0)] else old(rows)
    {
      if !insertOk {
        return false;
      }
      rows := rows[id := Entry(id, target, signal, now, 0)];
      ok := true;
    }

    method Delete(id: Id)
      modifies this
      ensures rows == old(rows) - {id}
    {
      rows := rows - {id};
    }

    method IncrementRetry(id: Id)
      modifies this
      ensures rows == Bump(old(rows), id)
    {
      if id in rows {
        rows := rows[id := rows[id].(retry := rows[id].retry + 1)];
      }
    }

    /** One turn of the flush loop: a sent entry is deleted, a failed one bumped. */
    method SendEntry(x: Entry, sess: Channel.Session, writeOk: bool, deleteOk: bool, bumpOk: bool)
      returns (frame: Option<Channel.Frame>)
      modifies this, sess`sendNonce
      ensures frame == if sess.sendKey.Some? && sess.conn && writeOk
                       then Some(Channel.SealedFrame(sess.sendKey.value, old(sess.sendNonce), x.signal)) else None
      ensures sess.sendNonce == if sess.sendKey.Some? then (old(sess.sendNonce) + 1) % U64_LIMIT
                                else old(sess.sendNonce)
      ensures rows == if frame.None? then (if bumpOk then Bump(old(rows), x.id) else old(rows))
                      else if deleteOk then old(rows) - {x.id} else old(rows)
    {
      hide Bump, Channel.SealedFrame;
      frame := sess.Send(x.signal, writeOk);
      if frame.None? {
        if bumpOk {
          IncrementRetry(x.id);
        }
      } else if deleteOk {
        Delete(x.id);
      }
    }

    /**
      `flushOutbox` without interference, over the listing the database returned and the peer's
      session: the frames written carry the sent prefix of the listing under consecutive nonces,
      a failed write uses up one more. Of the sent entries those whose delete succeeds go, the
      first failure alone is bumped, if its update succeeds, and every other entry stays as it is.
    */
    method Flush(peer: Key, list: seq<Entry>, accepted: bool, sess: Channel.Session, writes: seq<bool>,
                 deletes: seq<bool>, bumpOk: bool)
      returns (sent: seq<Entry>, wire: seq<Channel.Frame>)
      requires Listing(rows, peer, list) && |writes| == |deletes| == |list|
      modifies this, sess`sendNonce
      ensures sent == if accepted && sess.sendKey.Some? && sess.conn then list[..Channel.Leading(writes)] else []
      ensures wire == if sess.sendKey.Some?
                      then Channel.SealedFrom(sess.sendKey.value, old(sess.sendNonce), Signals(sent)) else []
      ensures sess.sendNonce == Channel.Advance(old(sess.sendNonce),
                |sent| + if accepted && sess.sendKey.Some? && |sent| < |list| then 1 else 0)
      ensures LeavesRows(old(rows), rows, list, deletes, |sent|, accepted && bumpOk && |sent| < |list|)
    {
      hide Channel.Leading, Deleted, Bump, Listing, Channel.SealedFrame, Channel.SealedFrom, Channel.Advance, Signals,
        LeavesRows;
      sent, wire := [], [];
      NothingDeleted(list, deletes);
      FlushLeaves(rows, peer, list, deletes, 0, false);
      assert rows - {} == rows;
      Channel.AdvanceOne(sess.sendNonce, 0);
      Channel.SealedFromNone(sess.sendKey, sess.sendNonce, Signals(sent));
      if !accepted {
        return;
      }
      var i := 0;
      while i < |list|
        invariant 0 <= i <= |list| && sent == list[..i]
        invariant i > 0 ==> sess.sendKey.Some? && sess.conn
        invariant forall j :: 0 <= j < i ==> writes[j]
        invariant sess.sendNonce == Channel.Advance(old(sess.sendNonce), i)
        invariant sess.sendKey.Some? ==>
          wire == Channel.SealedFrom(sess.sendKey.value, old(sess.sendNonce), Signals(sent))
        invariant sess.sendKey.None? ==> wire == []
        invariant rows == old(rows) - Deleted(list, deletes, i)
      {
        Channel.AdvanceOne(old(sess.sendNonce), i);
        var frame := SendEntry(list[i], sess, writes[i], deletes[i], bumpOk);
        if frame.None? {
          if sess.sendKey.Some? && sess.conn {
            Channel.LeadingIs(writes, i);
          }
          FlushLeaves(old(rows), peer, list, deletes, i, bumpOk);
          return;
        }
        assert list[..i + 1] == list[..i] + [list[i]];
        OneMoreDeleted(old(rows), list, deletes, i);
        SignalsAppend(sent, list[i]);
        Channel.SealedFromNext(sess.sendKey.value, old(sess.sendNonce), Signals(sent), list[i].signal);
        wire := wire + [frame.value];
        sent := sent + [list[i]];
        i := i + 1;
      }
      Channel.LeadingIs(writes, i);
      FlushLeaves(old(rows), peer, list, deletes, i, false);
    }
  }

  lemma FlushLeaves(rows: map<Id, Entry>, peer: Key, list: seq<Entry>, deletes: seq<bool>, k: nat, bumped: bool)
    requires Listing(rows, peer, list) && |deletes| == |list| && k <= |list| && (bumped ==> k < |list|)
    ensures var left := rows - Deleted(list, deletes, k);
      LeavesRows(rows, if bumped then Bump(left, list[k].id) else left, list, deletes, k, bumped)
  {
    hide Listing;
    ListingIds(rows, peer, list);
    var left := rows - Deleted(list, deletes, k);
    assert forall i :: 0 <= i < k && deletes[i] ==> list[i].id in Deleted(list, deletes, k);
  }

  lemma ListingIds(rows: map<Id, Entry>, peer: Key, list: seq<Entry>)
    requires Listing(rows, peer, list)
    ensures forall i :: 0 <= i < |list| ==> list[i].id in rows && rows[list[i].id] == list[i]
    ensures forall i, j :: 0 <= i < j < |list| ==> list[i].id != list[j].id
  {
  }

  lemma SignalsAppend(list: seq<Entry>, x: Entry)
    ensures Signals(list + [x]) == Signals(list) + [x.signal]
  {
  }

  lemma NothingDeleted(list: seq<Entry>, deletes: seq<bool>)
    requires |list| == |deletes|
    ensures Deleted(list, deletes, 0) == {}
    ensures Signals([]) == []
  {
  }

  lemma OneMoreDeleted(rows: map<Id, Entry>, list: seq<Entry>, deletes: seq<bool>, k: nat)
    requires k < |list| == |deletes|
    ensures var left := rows - Deleted(list, deletes, k);
      rows - Deleted(list, deletes, k + 1) == if deletes[k] then left - {list[k].id} else left
  {
    assert Deleted(list, deletes, k + 1) == Deleted(list, deletes, k) + if deletes[k] then {list[k].id} else {};
  }

  lemma IdsAppend(list: seq<Entry>, x: Entry)
    ensures Ids(list + [x]) == Ids(list) + {x.id}
  {
  }

  lemma IdsMember(list: seq<Entry>)
    ensures forall id :: id in Ids(list) <==> exists i :: 0 <= i < |list| && list[i].id == id
  {
  }

  /* ---------- interleaved flushes ---------- */

  /** A flush in progress: whose entries, and which of the listing are still to be sent. */
  datatype Flushing = Flushing(peer: Key, rest: seq<Entry>)

  /**
    The table, the flushes in progress, and four histories: queued, sent, removed by the admin
    before being sent, and sent but left in the table by a delete that failed.
  */
  datatype System = System(
    rows: map<Id, Entry>, active: map<nat, Flushing>,
    queued: map<Id, Entry>, sent: seq<Entry>, removed: set<Id>, stale: set<Id>)

  datatype Event =
    | Queue(id: Id, target: Key, signal: Bytes, now: int)
    | Begin(f: nat, peer: Key, list: seq<Entry>)
    | Next(f: nat, ok: bool, dbOk: bool)
    | End(f: nat)
    | Remove(id: Id)

  const INIT := System(map[], map[], map[], [], {}, {})

  /** Identifiers are drawn fresh; a listing is one the table allows. */
  ghost predicate Enabled(s: System, e: Event) {
    match e
    case Queue(id, _, _, _) => id !in s.queued
    case Begin(f, peer, list) => f !in s.active && Listing(s.rows, peer, list)
    case Next(f, _, _) => f in s.active && s.active[f].rest != []
    case End(f) => f in s.active && s.active[f].rest == []
    case Remove(_) => true
  }

  function Apply(s: System, e: Event): System {
    match e
    case Queue(id, target, signal, now) =>
      var row := Entry(id, target, signal, now, 0);
      s.(rows := s.rows[id := row], queued := s.queued[id := row])
    case Begin(f, peer, list) => s.(active := s.active[f := Flushing(peer, list)])
    case Next(f, ok, dbOk) =>
      if f !in s.active || s.active[f].rest == [] then s else
      var x := s.active[f].rest[0];
      if ok then
        s.(rows := if dbOk then s.rows - {x.id} else s.rows,
           stale := if !dbOk && x.id in s.rows then s.stale + {x.id} else s.stale,
           sent := s.sent + [x], active := s.active[f := s.active[f].(rest := s.active[f].rest[1..])])
      else s.(rows := if dbOk then Bump(s.rows, x.id) else s.rows, active := s.active - {f})
    case End(f) => s.(active := s.active - {f})
    case Remove(id) =>
      s.(rows := s.rows - {id}, removed := if id in s.rows && id !in s.stale then s.removed + {id} else s.removed)
  }

  /** A run: every event possible when it happens. */
  ghost predicate Reaches(s: System, events: seq<Event>, t: System)
    decreases |events|
  {
    if events == [] then s == t
    else Enabled(s, events[0]) && Reaches(Apply(s, events[0]), events[1..], t)
  }

  /** Two entries that differ at most in their retry count. */
  predicate Same(x: Entry, y: Entry) {
    x.(retry := 0) == y.(retry := 0)
  }

  /** Everything queued is in the table, or was sent or removed; what was sent is in the table only if stale. */
  ghost predicate Partitioned(s: System) {
    && s.queued.Keys == s.rows.Keys + Ids(s.sent) + s.removed
    && s.rows.Keys * Ids(s.sent) <= s.stale <= Ids(s.sent) && s.rows.Keys !! s.removed
  }

  /** Nothing is altered on the way, except retry counts in the table. */
  ghost predicate Intact(s: System) {
    && (forall id :: id in s.queued ==> s.queued[id].id == id)
    && (forall id :: id in s.rows ==> id in s.queued && Same(s.rows[id], s.queued[id]))
    && (forall x :: x in s.sent ==> x.id in s.queued && Same(x, s.queued[x.id]))
    && (forall f, x :: f in s.active && x in s.active[f].rest ==> x.id in s.queued && Same(x, s.queued[x.id]))
  }

  ghost predicate Conserved(s: System) {
    Partitioned(s) && Intact(s)
  }

  lemma PartitionedStep(s: System, e: Event)
    requires Conserved(s) && Enabled(s, e)
    ensures Partitioned(Apply(s, e))
  {
    hide Ids, Same, Listing;
    if e.Next? {
      var x := s.active[e.f].rest[0];
      assert x in s.active[e.f].rest;
      IdsAppend(s.sent, x);
    }
  }

  lemma IntactStep(s: System, e: Event)
    requires Conserved(s) && Enabled(s, e)
    ensures Intact(Apply(s, e))
  {
    hide Ids, Partitioned, Same;
    match e {
      case Queue(_, _, _, _) => IntactQueue(s, e);
      case Next(f, ok, dbOk) => IntactNext(s, f, ok, dbOk);
      case Begin(f, peer, list) =>
        assert forall x :: x in list ==> x.id in s.rows && s.rows[x.id] == x;
      case End(_) =>
      case Remove(_) =>
    }
  }

  lemma IntactQueue(s: System, e: Event)
    requires Intact(s) && e.Queue? && Enabled(s, e)
    ensures Intact(Apply(s, e))
  {
    hide Listing;
  }

  lemma IntactNext(s: System, f: nat, ok: bool, dbOk: bool)
    requires Intact(s) && f in s.active && s.active[f].rest != []
    ensures Intact(Apply(s, Next(f, ok, dbOk)))
  {
    var x := s.active[f].rest[0];
    assert x in s.active[f].rest;
    if ok {
      hide Same;
      var t := Apply(s, Next(f, ok, dbOk));
      assert forall y :: y in s.active[f].rest[1..] ==> y in s.active[f].rest;
    }
  }

  /** How often a send of the entry failed in a run, while it was in the table and its update succeeded. */
  function Failures(s: System, events: seq<Event>, id: Id): nat
    decreases |events|
  {
    if events == [] then 0 else
    var e := events[0];
    Failures(Apply(s, e), events[1..], id)
    + if e.Next? && !e.ok && e.dbOk && id in s.rows && e.f in s.active && s.active[e.f].rest != []
         && s.active[e.f].rest[0].id == id then 1 else 0
  }

  function Retries(s: System, id: Id): nat {
    if id in s.rows then s.rows[id].retry else 0
  }

  /** The entry is in the table, or was never queued. */
  predicate NotGone(s: System, id: Id) {
    id in s.rows <==> id in s.queued
  }

  lemma RetryStep(s: System, e: Event, id: Id)
    requires Enabled(s, e) && NotGone(s, id) && NotGone(Apply(s, e), id)
    ensures Retries(Apply(s, e), id) == Retries(s, id) + Failures(s, [e], id)
  {
    hide Listing;
    assert [e][1..] == [];
    assert Failures(Apply(s, e), [], id) == 0;
  }

  /** Once sent or removed, an entry does not come back. */
  lemma {:induction false} GoneStays(s: System, events: seq<Event>, t: System, id: Id)
    requires Reaches(s, events, t) && id in s.queued && id !in s.rows
    ensures id !in t.rows
    decreases |events|
  {
    hide Listing;
    if events != [] {
      GoneStays(Apply(s, events[0]), events[1..], t, id);
    }
  }

  lemma FailuresHead(s: System, events: seq<Event>, id: Id)
    requires events != []
    ensures Failures(s, events, id) == Failures(s, [events[0]], id) + Failures(Apply(s, events[0]), events[1..], id)
  {
    hide Apply;
    assert [events[0]][1..] == [];
    assert Failures(Apply(s, events[0]), [], id) == 0;
  }

  /** In every run, an entry's retry count is the number of its failed sends. */
  lemma {:induction false} RetriesAreFailures(s: System, events: seq<Event>, t: System, id: Id)
    requires Conserved(s) && Reaches(s, events, t) && id in t.rows
    ensures Retries(t, id) == Retries(s, id) + Failures(s, events, id)
    decreases |events|
  {
    hide Intact, Apply, Failures, Retries, Enabled;
    if events == [] {
      NoFailures(s, events, id);
    } else {
      var u := Apply(s, events[0]);
      PartitionedStep(s, events[0]);
      IntactStep(s, events[0]);
      if !NotGone(s, id) {
        GoneStays(s, events, t, id);
      } else if !NotGone(u, id) {
        GoneStays(u, events[1..], t, id);
      } else {
        RetriesAreFailures(u, events[1..], t, id);
        RetryStep(s, events[0], id);
        FailuresHead(s, events, id);
      }
    }
  }

  lemma NoFailures(s: System, events: seq<Event>, id: Id)
    requires events == []
    ensures Failures(s, events, id) == 0
  {
  }

  /** Conservation in every run, however flushes and removals overlap. */
  lemma {:induction false} NothingIsLost(s: System, events: seq<Event>, t: System)
    requires Conserved(s) && Reaches(s, events, t)
    ensures Conserved(t)
    decreases |events|
  {
    hide Partitioned, Intact, Apply;
    if events != [] {
      PartitionedStep(s, events[0]);
      IntactStep(s, events[0]);
      NothingIsLost(Apply(s, events[0]), events[1..], t);
    }
  }

  /* ---------- exactly once: the exact condition ---------- */

  /** The entry waits in the table and has not been sent: no delete of it has failed. */
  predicate Waiting(s: System, id: Id) {
    id in s.rows && id !in s.stale
  }

  /** The event, if it sends a signal, sends one whose entry still waits. */
  ghost predicate SendsPresent(s: System, e: Event) {
    e.Next? && e.ok && e.f in s.active && s.active[e.f].rest != [] ==> Waiting(s, s.active[e.f].rest[0].id)
  }

  ghost predicate AllPresent(s: System, events: seq<Event>)
    decreases |events|
  {
    events == [] || (SendsPresent(s, events[0]) && AllPresent(Apply(s, events[0]), events[1..]))
  }

  /** Nothing was sent twice, and nothing that was sent was also removed. */
  ghost predicate OnceEach(s: System) {
    Distinct(s.sent) && Ids(s.sent) !! s.removed
  }

  /** A step keeps signals at one send each exactly if it sends only what still waits in the table. */
  lemma OnceEachStep(s: System, e: Event)
    requires Conserved(s) && OnceEach(s) && Enabled(s, e)
    ensures OnceEach(Apply(s, e)) <==> SendsPresent(s, e)
  {
    hide Intact, Same, Listing, Distinct, Ids;
    if e.Next? && e.ok {
      var x := s.active[e.f].rest[0];
      assert x.id in s.queued by { QueuedHead(s, e.f); }
      IdsAppend(s.sent, x);
      DistinctAppend(s.sent, x);
    }
  }

  lemma QueuedHead(s: System, f: nat)
    requires Intact(s) && f in s.active && s.active[f].rest != []
    ensures s.active[f].rest[0].id in s.queued
  {
    assert s.active[f].rest[0] in s.active[f].rest;
  }

  lemma DistinctAppend(list: seq<Entry>, x: Entry)
    ensures Distinct(list + [x]) <==> Distinct(list) && x.id !in Ids(list)
  {
    if Distinct(list + [x]) {
      assert forall i :: 0 <= i < |list| ==> (list + [x])[i] == list[i];
      assert (list + [x])[|list|] == x;
    }
  }

  /** A second send, or a send after a removal, is never undone. */
  lemma BrokenStays(s: System, e: Event)
    requires !OnceEach(s)
    ensures !OnceEach(Apply(s, e))
  {
    hide Distinct, Ids;
    if e.Next? && e.ok && e.f in s.active && s.active[e.f].rest != [] {
      DistinctAppend(s.sent, s.active[e.f].rest[0]);
      IdsAppend(s.sent, s.active[e.f].rest[0]);
    }
  }

  lemma {:induction false} BrokenForGood(s: System, events: seq<Event>, t: System)
    requires !OnceEach(s) && Reaches(s, events, t)
    ensures !OnceEach(t)
    decreases |events|
  {
    hide Apply, OnceEach;
    if events != [] {
      BrokenStays(s, events[0]);
      BrokenForGood(Apply(s, events[0]), events[1..], t);
    }
  }

  /**
    In every run, however flushes and removals overlap and whichever deletes fail: signals are
    sent at most once, and never after their removal, exactly if every send of the run finds its
    entry in the table and no earlier delete of that entry has failed.
  */
  lemma {:induction false} OnceEachIff(s: System, events: seq<Event>, t: System)
    requires Conserved(s) && OnceEach(s) && Reaches(s, events, t)
    ensures OnceEach(t) <==> AllPresent(s, events)
    decreases |events|
  {
    hide Apply, OnceEach, Partitioned, Intact, SendsPresent;
    if events != [] {
      var m := Apply(s, events[0]);
      OnceEachStep(s, events[0]);
      PartitionedStep(s, events[0]);
      IntactStep(s, events[0]);
      if OnceEach(m) {
        OnceEachIff(m, events[1..], t);
      } else {
        BrokenForGood(m, events[1..], t);
      }
    }
  }

  /** How often an identifier was sent. */
  function Times(sent: seq<Entry>, id: Id): nat {
    if sent == [] then 0 else Times(sent[..|sent| - 1], id) + if sent[|sent| - 1].id == id then 1 else 0
  }

  lemma {:induction false} TimesCounts(sent: seq<Entry>, id: Id)
    ensures Times(sent, id) == 0 <==> id !in Ids(sent)
    ensures Distinct(sent) ==> Times(sent, id) <= 1
  {
    hide Ids, Distinct;
    if sent == [] {
      assert Ids(sent) == {} by { IdsMember(sent); }
    } else {
      var k := |sent| - 1;
      TimesCounts(sent[..k], id);
      assert sent == sent[..k] + [sent[k]];
      IdsAppend(sent[..k], sent[k]);
      DistinctAppend(sent[..k], sent[k]);
    }
  }

  /** A sequence with a repeated identifier counts it at least twice. */
  lemma {:induction false} RepeatCounts(sent: seq<Entry>) returns (id: Id)
    requires !Distinct(sent)
    ensures id in Ids(sent) && Times(sent, id) >= 2
  {
    hide Ids, Distinct;
    assert sent != [] by {
      if sent == [] { EmptyDistinct(sent); }
    }
    var k := |sent| - 1;
    assert sent == sent[..k] + [sent[k]];
    IdsAppend(sent[..k], sent[k]);
    DistinctAppend(sent[..k], sent[k]);
    if Distinct(sent[..k]) {
      id := sent[k].id;
      TimesCounts(sent[..k], id);
    } else {
      id := RepeatCounts(sent[..k]);
    }
  }

  lemma EmptyDistinct(sent: seq<Entry>)
    requires sent == []
    ensures Distinct(sent)
  {
  }

  /** Waiting in the table, removed by the admin, or sent: exactly one of the three, and sent exactly once. */
  ghost predicate AccountedFor(t: System, id: Id) {
    && Times(t.sent, id) == (if Waiting(t, id) || id in t.removed then 0 else 1)
    && !(Waiting(t, id) && id in t.removed)
  }

  lemma OnceEachAccounts(t: System)
    requires Conserved(t)
    ensures OnceEach(t) <==> forall id :: id in t.queued ==> AccountedFor(t, id)
  {
    hide Ids, Distinct, Intact, Times;
    if OnceEach(t) {
      forall id | id in t.queued ensures AccountedFor(t, id) {
        TimesCounts(t.sent, id);
      }
    } else if !Distinct(t.sent) {
      var id := RepeatCounts(t.sent);
      assert id in t.queued && !AccountedFor(t, id);
    } else {
      var id :| id in Ids(t.sent) && id in t.removed;
      TimesCounts(t.sent, id);
      assert id in t.queued && !AccountedFor(t, id);
    }
  }

  /** From the empty outbox: every queued signal is accounted for exactly if every send finds its entry. */
  lemma EverySignalAccountedFor(events: seq<Event>, t: System)
    requires Reaches(INIT, events, t)
    ensures (forall id :: id in t.queued ==> AccountedFor(t, id)) <==> AllPresent(INIT, events)
    ensures forall x :: x in t.sent ==> x.id in t.queued && Same(x, t.queued[x.id])
    ensures forall id :: id in t.rows ==> id in t.queued && Same(t.rows[id], t.queued[id])
  {
    hide Reaches, Apply, Partitioned, Same, AccountedFor, OnceEach, AllPresent;
    InitConserves();
    NothingIsLost(INIT, events, t);
    OnceEachIff(INIT, events, t);
    OnceEachAccounts(t);
  }

  /* ---------- serial flushes meet the condition ---------- */

  /** Flushes of one peer do not overlap, nothing that a flush still holds is removed, and deletes succeed. */
  ghost predicate Serial(s: System, e: Event) {
    && (e.Next? && e.ok ==> e.dbOk)
    && (e.Begin? ==> forall f :: f in s.active ==> s.active[f].peer != e.peer)
    && (e.Remove? ==> forall f, x :: f in s.active && x in s.active[f].rest ==> x.id != e.id)
  }

  ghost predicate ReachesSerially(s: System, events: seq<Event>, t: System)
    decreases |events|
  {
    if events == [] then s == t
    else Enabled(s, events[0]) && Serial(s, events[0]) && ReachesSerially(Apply(s, events[0]), events[1..], t)
  }

  predicate Distinct(list: seq<Entry>) {
    forall i, j :: 0 <= i < j < |list| ==> list[i].id != list[j].id
  }

  predicate Ascending(list: seq<Entry>) {
    forall i, j :: 0 <= i < j < |list| ==> list[i].createdAt <= list[j].createdAt
  }

  /** A flush in progress holds entries of its peer that are still in the table, each once, oldest first. */
  ghost predicate Held(rows: map<Id, Entry>, f: Flushing) {
    && Distinct(f.rest) && Ascending(f.rest)
    && (forall x :: x in f.rest ==> x.id in rows && Same(rows[x.id], x) && x.target == f.peer)
  }

  ghost predicate Exclusive(s: System) {
    && s.stale == {}
    && (forall f :: f in s.active ==> Held(s.rows, s.active[f]))
    && (forall f, g :: f in s.active && g in s.active && f != g ==> s.active[f].peer != s.active[g].peer)
  }

  lemma HeldSurvives(rows: map<Id, Entry>, after: map<Id, Entry>, f: Flushing)
    requires Held(rows, f)
    requires forall x :: x in f.rest ==> x.id in after && Same(after[x.id], rows[x.id])
    ensures Held(after, f)
  {
  }

  lemma HeldTail(rows: map<Id, Entry>, f: Flushing)
    requires Held(rows, f) && f.rest != []
    ensures Held(rows - {f.rest[0].id}, f.(rest := f.rest[1..]))
  {
    hide Same, Distinct, Ascending;
    TailKeeps(f.rest);
  }

  lemma TailKeeps(list: seq<Entry>)
    requires Distinct(list) && Ascending(list) && list != []
    ensures Distinct(list[1..]) && Ascending(list[1..])
    ensures forall x :: x in list[1..] ==> x in list && x.id != list[0].id && list[0].createdAt <= x.createdAt
  {
    forall x | x in list[1..] ensures x in list && x.id != list[0].id && list[0].createdAt <= x.createdAt {
      var i :| 0 <= i < |list| - 1 && list[1..][i] == x;
      assert x == list[i + 1];
    }
  }

  lemma ExclusiveStep(s: System, e: Event)
    requires Conserved(s) && Exclusive(s) && Enabled(s, e) && Serial(s, e)
    ensures Exclusive(Apply(s, e))
  {
    hide Distinct, Ascending, Ids, Partitioned, Intact, Listing, Held;
    var t := Apply(s, e);
    match e {
      case Queue(id, _, _, _) =>
        forall f | f in t.active ensures Held(t.rows, t.active[f]) {
          HeldInRows(s, f);
          HeldSurvives(s.rows, t.rows, s.active[f]);
        }
      case Begin(f, peer, list) =>
        ListingHeld(s.rows, peer, list);
      case Next(f, ok, dbOk) =>
        NextHeld(s, f, ok, dbOk);
      case End(_) =>
      case Remove(id) =>
        forall f | f in t.active ensures Held(t.rows, t.active[f]) {
          HeldInRows(s, f);
          HeldSurvives(s.rows, t.rows, s.active[f]);
        }
    }
  }

  lemma HeldInRows(s: System, f: nat)
    requires Conserved(s) && f in s.active && Held(s.rows, s.active[f])
    ensures forall x :: x in s.active[f].rest ==> x.id in s.rows && x.id in s.queued
  {
    hide Same, Distinct, Ascending, Ids;
  }

  lemma ListingHeld(rows: map<Id, Entry>, peer: Key, list: seq<Entry>)
    requires Listing(rows, peer, list)
    ensures Held(rows, Flushing(peer, list))
  {
  }

  lemma NextHeld(s: System, f: nat, ok: bool, dbOk: bool)
    requires (ok ==> dbOk) && Exclusive(s) && f in s.active && s.active[f].rest != []
    ensures var t := Apply(s, Next(f, ok, dbOk));
      forall g :: g in t.active ==> Held(t.rows, t.active[g])
  {
    hide Distinct, Ascending;
    var t := Apply(s, Next(f, ok, dbOk));
    var x := s.active[f].rest[0];
    assert x in s.active[f].rest;
    forall g | g in t.active ensures Held(t.rows, t.active[g]) {
      if ok && g == f {
        HeldTail(s.rows, s.active[f]);
      } else {
        HeldSurvives(s.rows, t.rows, s.active[g]);
      }
    }
  }

  /** In every serial run every send finds its entry, so signals are sent exactly once. */
  lemma {:induction false} SerialIsPresent(s: System, events: seq<Event>, t: System)
    requires Conserved(s) && Exclusive(s) && ReachesSerially(s, events, t)
    ensures Reaches(s, events, t) && AllPresent(s, events) && Conserved(t) && Exclusive(t)
    decreases |events|
  {
    hide Partitioned, Intact, Exclusive, Apply, Serial, SendsPresent;
    if events != [] {
      HeadPresent(s, events[0]);
      PartitionedStep(s, events[0]);
      IntactStep(s, events[0]);
      ExclusiveStep(s, events[0]);
      SerialIsPresent(Apply(s, events[0]), events[1..], t);
    }
  }

  lemma HeadPresent(s: System, e: Event)
    requires Exclusive(s)
    ensures SendsPresent(s, e)
  {
    hide Distinct, Ascending, Same;
    if e.Next? && e.f in s.active && s.active[e.f].rest != [] {
      assert s.active[e.f].rest[0] in s.active[e.f].rest;
    }
  }

  lemma InitConserves()
    ensures Conserved(INIT) && Exclusive(INIT) && OnceEach(INIT)
  {
  }

  /* ---------- sends follow creation time ---------- */

  /** The times at which signals to a peer are queued in a run. */
  function QueueTimes(events: seq<Event>, peer: Key): seq<int> {
    if events == [] then [] else
    (if events[0].Queue? && events[0].target == peer then [events[0].now] else []) + QueueTimes(events[1..], peer)
  }

  /** From `b` on, the times do not step back. */
  predicate Climbs(b: int, times: seq<int>)
    decreases |times|
  {
    times == [] || (b <= times[0] && Climbs(times[0], times[1..]))
  }

  /** Sends to the peer are in creation order. */
  ghost predicate SentInOrder(s: System, peer: Key) {
    forall i, j :: 0 <= i < j < |s.sent| && s.sent[i].target == peer && s.sent[j].target == peer ==>
      s.sent[i].createdAt <= s.sent[j].createdAt
  }

  /** What was sent to the peer is no younger than what still waits for it. */
  ghost predicate SentBeforeRows(s: System, peer: Key) {
    forall x, id :: x in s.sent && x.target == peer && id in s.rows && s.rows[id].target == peer ==>
      x.createdAt <= s.rows[id].createdAt
  }

  /** Nothing for the peer carries a time after `b`. */
  ghost predicate Bounded(s: System, peer: Key, b: int) {
    && (forall id :: id in s.rows && s.rows[id].target == peer ==> s.rows[id].createdAt <= b)
    && (forall x :: x in s.sent && x.target == peer ==> x.createdAt <= b)
    && (forall f, x :: f in s.active && x in s.active[f].rest && x.target == peer ==> x.createdAt <= b)
  }

  /** Entries of the peer that a flush does not hold were queued after its listing. */
  ghost predicate OldestHeld(rows: map<Id, Entry>, f: Flushing) {
    forall x, id :: x in f.rest && id in rows && rows[id].target == f.peer && id !in Ids(f.rest) ==>
      x.createdAt <= rows[id].createdAt
  }

  ghost predicate AllOldestHeld(s: System, peer: Key) {
    forall f :: f in s.active && s.active[f].peer == peer ==> OldestHeld(s.rows, s.active[f])
  }

  ghost predicate InOrder(s: System, peer: Key, b: int) {
    SentInOrder(s, peer) && SentBeforeRows(s, peer) && Bounded(s, peer, b) && AllOldestHeld(s, peer)
  }

  /** The bound after an event: the time of a new signal to the peer. */
  function Bound(e: Event, peer: Key, b: int): int {
    if e.Queue? && e.target == peer then e.now else b
  }

  lemma BoundedStep(s: System, e: Event, peer: Key, b: int)
    requires Bounded(s, peer, b) && Enabled(s, e) && b <= Bound(e, peer, b)
    ensures Bounded(Apply(s, e), peer, Bound(e, peer, b))
  {
    if e.Next? {
      var x := s.active[e.f].rest[0];
      assert x in s.active[e.f].rest;
      assert forall y :: y in s.active[e.f].rest[1..] ==> y in s.active[e.f].rest;
    } else if !e.Begin? {
      hide Listing;
    }
  }

  lemma OldestHeldStep(s: System, e: Event, peer: Key, b: int)
    requires Intact(s) && Exclusive(s) && Bounded(s, peer, b) && AllOldestHeld(s, peer)
    requires Enabled(s, e) && Serial(s, e) && b <= Bound(e, peer, b)
    ensures AllOldestHeld(Apply(s, e), peer)
  {
    hide OldestHeld, Bounded, Listing, Intact, Exclusive, Held;
    var t := Apply(s, e);
    forall f | f in t.active && t.active[f].peer == peer ensures OldestHeld(t.rows, t.active[f]) {
      if e.Begin? && e.f == f {
        ListingComplete(s, e.peer, e.list);
      } else if e.Next? && e.f == f {
        NextOldestHeld(s, f);
      } else {
        assert Held(s.rows, s.active[f]) by { ExclusiveHolds(s, f); }
        OldestHeldSurvives(s, e, f, b);
      }
    }
  }

  lemma ExclusiveHolds(s: System, f: nat)
    requires Exclusive(s) && f in s.active
    ensures Held(s.rows, s.active[f])
  {
  }

  lemma ListingComplete(s: System, peer: Key, list: seq<Entry>)
    requires Intact(s) && Listing(s.rows, peer, list)
    ensures OldestHeld(s.rows, Flushing(peer, list))
  {
    forall id | id in s.rows && s.rows[id].target == peer ensures id in Ids(list) {
      assert s.rows[id] in list && s.rows[id].id == id;
    }
  }

  lemma NextOldestHeld(s: System, f: nat)
    requires f in s.active && s.active[f].rest != [] && OldestHeld(s.rows, s.active[f])
    ensures var x := s.active[f].rest[0];
      OldestHeld(s.rows - {x.id}, s.active[f].(rest := s.active[f].rest[1..]))
  {
    var rest := s.active[f].rest;
    assert rest == [rest[0]] + rest[1..];
    assert Ids(rest) == {rest[0].id} + Ids(rest[1..]);
  }

  lemma OldestHeldSurvives(s: System, e: Event, f: nat, b: int)
    requires f in s.active && OldestHeld(s.rows, s.active[f]) && Held(s.rows, s.active[f])
    requires Bounded(s, s.active[f].peer, b) && b <= Bound(e, s.active[f].peer, b)
    requires e.Next? ==> e.f in s.active && s.active[e.f].rest != []
    ensures OldestHeld(Apply(s, e).rows, s.active[f])
  {
    hide Ids, Same, Distinct, Ascending;
  }

  lemma SentBeforeRowsStep(s: System, e: Event, peer: Key, b: int)
    requires Exclusive(s) && Bounded(s, peer, b) && AllOldestHeld(s, peer) && SentBeforeRows(s, peer)
    requires Enabled(s, e) && b <= Bound(e, peer, b)
    ensures SentBeforeRows(Apply(s, e), peer)
  {
    hide Exclusive, AllOldestHeld, Listing, Ids;
    if e.Next? && e.ok {
      HeadIsOldest(s, e.f, peer);
    }
  }

  /** The entry a flush sends next is the oldest one waiting for its peer. */
  lemma HeadIsOldest(s: System, f: nat, peer: Key)
    requires Exclusive(s) && AllOldestHeld(s, peer) && f in s.active && s.active[f].rest != []
    ensures var x := s.active[f].rest[0];
      && x.id in s.rows && Same(s.rows[x.id], x)
      && (x.target == peer ==>
            forall id :: id in s.rows && s.rows[id].target == peer ==> x.createdAt <= s.rows[id].createdAt)
  {
    var rest := s.active[f].rest;
    var x := rest[0];
    assert x in rest && Held(s.rows, s.active[f]);
    if x.target == peer {
      assert OldestHeld(s.rows, s.active[f]);
      forall id | id in s.rows && s.rows[id].target == peer ensures x.createdAt <= s.rows[id].createdAt {
        if id in Ids(rest) {
          var y :| y in rest && y.id == id;
          var i :| 0 <= i < |rest| && rest[i] == y;
          assert rest[0].createdAt <= rest[i].createdAt;
        }
      }
    }
  }

  lemma SentInOrderStep(s: System, e: Event, peer: Key)
    requires Exclusive(s) && AllOldestHeld(s, peer) && SentInOrder(s, peer) && SentBeforeRows(s, peer) && Enabled(s, e)
    ensures SentInOrder(Apply(s, e), peer)
  {
    hide Exclusive, AllOldestHeld, Listing;
    if e.Next? && e.ok {
      HeadIsOldest(s, e.f, peer);
      var x := s.active[e.f].rest[0];
      assert x.target == peer ==>
        forall y :: y in s.sent && y.target == peer ==> y.createdAt <= s.rows[x.id].createdAt;
    }
  }

  /** With serial flushes, and queue times for the peer that do not step back, its signals leave in creation order. */
  lemma {:induction false} SentInCreationOrder(s: System, events: seq<Event>, t: System, peer: Key, b: int)
    requires Conserved(s) && Exclusive(s) && InOrder(s, peer, b) && ReachesSerially(s, events, t)
    requires Climbs(b, QueueTimes(events, peer))
    ensures SentInOrder(t, peer)
    decreases |events|
  {
    hide Partitioned, Intact, Exclusive, Apply, Serial, SentInOrder, SentBeforeRows, Bounded, AllOldestHeld;
    if events != [] {
      var e := events[0];
      var c := Bound(e, peer, b);
      assert b <= c && Climbs(c, QueueTimes(events[1..], peer)) by { ClimbsOn(events, peer, b); }
      PartitionedStep(s, e);
      IntactStep(s, e);
      ExclusiveStep(s, e);
      BoundedStep(s, e, peer, b);
      OldestHeldStep(s, e, peer, b);
      SentBeforeRowsStep(s, e, peer, b);
      SentInOrderStep(s, e, peer);
      SentInCreationOrder(Apply(s, e), events[1..], t, peer, c);
    }
  }

  lemma ClimbsOn(events: seq<Event>, peer: Key, b: int)
    requires events != [] && Climbs(b, QueueTimes(events, peer))
    ensures b <= Bound(events[0], peer, b) && Climbs(Bound(events[0], peer, b), QueueTimes(events[1..], peer))
  {
    var e, rest := events[0], QueueTimes(events[1..], peer);
    if e.Queue? && e.target == peer {
      assert QueueTimes(events, peer) == [e.now] + rest;
      assert ([e.now] + rest)[1..] == rest;
    } else {
      assert QueueTimes(events, peer) == [] + rest == rest;
    }
  }

  /** Every serial run that queues signals to the peer at these times sends to it in creation order. */
  ghost predicate AlwaysInOrder(peer: Key, times: seq<int>) {
    forall events, t :: ReachesSerially(INIT, events, t) && QueueTimes(events, peer) == times ==> SentInOrder(t, peer)
  }

  predicate NonDecreasing(times: seq<int>) {
    forall i, j :: 0 <= i < j < |times| ==> times[i] <= times[j]
  }

  lemma {:induction false} NonDecreasingClimbs(b: int, times: seq<int>)
    requires NonDecreasing(times) && (times != [] ==> b <= times[0])
    ensures Climbs(b, times)
    decreases |times|
  {
    if times != [] {
      NonDecreasingClimbs(times[0], times[1..]);
    }
  }

  /**
    Sends to a peer follow creation time in every serial run exactly if the wall clock does not
    step back between two signals queued for that peer. (No run draws more fresh identifiers than
    there are, so longer lists of times belong to no run.)
  */
  lemma OrderIff(peer: Key, times: seq<int>)
    ensures AlwaysInOrder(peer, times) <==> NonDecreasing(times) || |times| > Pow256(16)
  {
    hide ReachesSerially, QueueTimes, SentInOrder, Conserved, Exclusive, Pow256;
    if NonDecreasing(times) {
      forall events, t | ReachesSerially(INIT, events, t) && QueueTimes(events, peer) == times
        ensures SentInOrder(t, peer)
      {
        var b := if times == [] then 0 else times[0];
        NonDecreasingClimbs(b, times);
        InitConserves();
        assert InOrder(INIT, peer, b) by { InitInOrder(peer, b); }
        SentInCreationOrder(INIT, events, t, peer, b);
      }
    } else if |times| > Pow256(16) {
      forall events, t | ReachesSerially(INIT, events, t) ensures |QueueTimes(events, peer)| <= Pow256(16) {
        InitConserves();
        SerialIsPresent(INIT, events, t);
        QueuedAtLeast(INIT, events, t, peer);
        IdsAreFew(t.queued.Keys);
      }
    } else {
      var i, j :| 0 <= i < j < |times| && times[i] > times[j];
      var events, t := ClockStepBreaksOrder(peer, times, i, j);
    }
  }

  lemma InitInOrder(peer: Key, b: int)
    ensures InOrder(INIT, peer, b)
  {
  }

  /** Every queued signal draws a fresh identifier. */
  lemma {:induction false} QueuedAtLeast(s: System, events: seq<Event>, t: System, peer: Key)
    requires Reaches(s, events, t)
    ensures |t.queued.Keys| >= |s.queued.Keys| + |QueueTimes(events, peer)|
    decreases |events|
  {
    hide Apply, Enabled;
    if events != [] {
      QueuedAtLeast(Apply(s, events[0]), events[1..], t, peer);
      QueuedStep(s, events[0]);
    }
  }

  lemma QueuedStep(s: System, e: Event)
    requires Enabled(s, e)
    ensures |Apply(s, e).queued.Keys| == |s.queued.Keys| + if e.Queue? then 1 else 0
  {
    hide Listing, Bump;
    if e.Queue? {
      assert Apply(s, e).queued.Keys == s.queued.Keys + {e.id};
    }
  }

  /** There are 256^16 identifiers. */
  lemma IdsAreFew(ids: set<Id>)
    ensures |ids| <= Pow256(16)
  {
    hide Pow256, FromBE;
    NumbersOf(ids);
    Channel.SetBelow(Numbers(ids), Pow256(16));
  }

  ghost function Numbers(ids: set<Id>): set<nat> {
    set id | id in ids :: FromBE(id)
  }

  lemma {:induction false} NumbersOf(ids: set<Id>)
    ensures |Numbers(ids)| == |ids|
    decreases |ids|
  {
    hide FromBE, BE;
    if ids != {} {
      var id :| id in ids;
      NumbersOf(ids - {id});
      assert Numbers(ids) == Numbers(ids - {id}) + {FromBE(id)};
      assert FromBE(id) !in Numbers(ids - {id}) by {
        forall other | other in ids && FromBE(other) == FromBE(id) ensures other == id {
          BEOfFromBE(other);
          BEOfFromBE(id);
        }
      }
    }
  }

  /* ---------- the conditions fail in real runs ---------- */

  lemma ReachesCons(s: System, e: Event, rest: seq<Event>, t: System)
    requires Enabled(s, e) && Reaches(Apply(s, e), rest, t)
    ensures Reaches(s, [e] + rest, t)
  {
    hide Apply, Enabled;
    assert ([e] + rest)[1..] == rest;
  }

  lemma SeriallyCons(s: System, e: Event, rest: seq<Event>, t: System)
    requires Enabled(s, e) && Serial(s, e) && ReachesSerially(Apply(s, e), rest, t)
    ensures ReachesSerially(s, [e] + rest, t)
  {
    hide Apply, Enabled, Serial;
    assert ([e] + rest)[1..] == rest;
  }

  lemma {:induction false} SeriallyAppend(s: System, a: seq<Event>, m: System, b: seq<Event>, t: System)
    requires ReachesSerially(s, a, m) && ReachesSerially(m, b, t)
    ensures ReachesSerially(s, a + b, t)
    decreases |a|
  {
    hide Apply, Enabled, Serial;
    if a == [] {
      assert a + b == b;
    } else {
      assert (a + b)[1..] == a[1..] + b;
      SeriallyAppend(Apply(s, a[0]), a[1..], m, b, t);
    }
  }

  lemma {:induction false} QueueTimesAppend(a: seq<Event>, b: seq<Event>, peer: Key)
    ensures QueueTimes(a + b, peer) == QueueTimes(a, peer) + QueueTimes(b, peer)
    decreases |a|
  {
    if a == [] {
      assert a + b == b;
    } else {
      assert (a + b)[1..] == a[1..] + b;
      QueueTimesAppend(a[1..], b, peer);
    }
  }

  /** The table with one entry, and what a flush of it does. */
  lemma QueueAndList(s: System, x: Entry, f: nat)
    requires s.rows == map[] && x.id !in s.queued && x.retry == 0 && f !in s.active
    ensures var q := Apply(s, Queue(x.id, x.target, x.signal, x.createdAt));
      && q == s.(rows := map[x.id := x], queued := s.queued[x.id := x]) && Listing(q.rows, x.target, [x])
      && Enabled(s, Queue(x.id, x.target, x.signal, x.createdAt)) && Enabled(q, Begin(f, x.target, [x]))
  {
  }

  lemma SendOnly(s: System, x: Entry, f: nat)
    requires f in s.active && s.active[f] == Flushing(x.target, [x])
    ensures Enabled(s, Next(f, true, true)) && Enabled(s, Next(f, true, false))
    ensures Apply(s, Next(f, true, false)) ==
            s.(stale := if x.id in s.rows then s.stale + {x.id} else s.stale, sent := s.sent + [x],
               active := s.active[f := Flushing(x.target, [])])
    ensures Apply(s, Next(f, true, true)) == s.(rows := s.rows - {x.id}, sent := s.sent + [x],
                                          active := s.active[f := Flushing(x.target, [])])
  {
    assert [x][1..] == [];
  }

  lemma BeginIs(s: System, f: nat, peer: Key, list: seq<Entry>)
    ensures Apply(s, Begin(f, peer, list)) == s.(active := s.active[f := Flushing(peer, list)])
  {
  }

  lemma EndIs(s: System, f: nat)
    ensures Apply(s, End(f)) == s.(active := s.active - {f})
  {
  }

  /** Two overlapping flushes of one peer send a signal twice. */
  lemma OverlapSendsTwice(x: Entry)
    requires x.retry == 0
    ensures exists events, t :: Reaches(INIT, events, t) && t.sent == [x, x]
  {
    hide Listing, Apply;
    var q, b0, b1 := Queue(x.id, x.target, x.signal, x.createdAt), Begin(0, x.target, [x]), Begin(1, x.target, [x]);
    QueueAndList(INIT, x, 0);
    var s1 := Apply(INIT, q);
    BeginIs(s1, 0, x.target, [x]);
    var s2 := Apply(s1, b0);
    BeginIs(s2, 1, x.target, [x]);
    var s3 := Apply(s2, b1);
    SendOnly(s3, x, 0);
    var s4 := Apply(s3, Next(0, true, true));
    SendOnly(s4, x, 1);
    var s5 := Apply(s4, Next(1, true, true));
    assert s5.sent == [x, x];
    assert Reaches(s5, [], s5);
    ReachesCons(s4, Next(1, true, true), [], s5);
    ReachesCons(s3, Next(0, true, true), [Next(1, true, true)] + [], s5);
    ReachesCons(s2, b1, [Next(0, true, true)] + ([Next(1, true, true)] + []), s5);
    ReachesCons(s1, b0, [b1] + ([Next(0, true, true)] + ([Next(1, true, true)] + [])), s5);
    ReachesCons(INIT, q, [b0] + ([b1] + ([Next(0, true, true)] + ([Next(1, true, true)] + []))), s5);
  }

  /** A single flush sends a signal that the admin removed after the listing. */
  lemma RemovedIsSent(x: Entry)
    requires x.retry == 0
    ensures exists t :: Reaches(INIT, [Queue(x.id, x.target, x.signal, x.createdAt), Begin(0, x.target, [x]),
                                       Remove(x.id), Next(0, true, true)], t)
                     && t.sent == [x] && t.removed == {x.id}
  {
    hide Listing, Apply;
    var q, b := Queue(x.id, x.target, x.signal, x.createdAt), Begin(0, x.target, [x]);
    var r, n := Remove(x.id), Next(0, true, true);
    QueueAndList(INIT, x, 0);
    var s1 := Apply(INIT, q);
    BeginIs(s1, 0, x.target, [x]);
    var s2 := Apply(s1, b);
    RemoveIs(s2, x.id);
    var s3 := Apply(s2, r);
    SendOnly(s3, x, 0);
    var s4 := Apply(s3, n);
    assert Reaches(s4, [], s4);
    ReachesCons(s3, n, [], s4);
    ReachesCons(s2, r, [n] + [], s4);
    ReachesCons(s1, b, [r] + ([n] + []), s4);
    ReachesCons(INIT, q, [b] + ([r] + ([n] + [])), s4);
    assert [q] + ([b] + ([r] + ([n] + []))) == [q, b, r, n];
    assert s4.removed == {x.id};
  }

  /** After a delete that failed, the next flush sends the signal again, without any overlap or removal. */
  lemma FailedDeleteRepeats(x: Entry)
    requires x.retry == 0
    ensures exists t :: Reaches(INIT, [Queue(x.id, x.target, x.signal, x.createdAt), Begin(0, x.target, [x]),
                                       Next(0, true, false), End(0), Begin(1, x.target, [x]), Next(1, true, true)], t)
                     && t.sent == [x, x]
  {
    hide Listing, Apply;
    var q, b0, b1 := Queue(x.id, x.target, x.signal, x.createdAt), Begin(0, x.target, [x]), Begin(1, x.target, [x]);
    var n0, n1, e0 := Next(0, true, false), Next(1, true, true), End(0);
    QueueAndList(INIT, x, 0);
    var s1 := Apply(INIT, q);
    BeginIs(s1, 0, x.target, [x]);
    var s2 := Apply(s1, b0);
    SendOnly(s2, x, 0);
    var s3 := Apply(s2, n0);
    EndIs(s3, 0);
    var s4 := Apply(s3, e0);
    BeginIs(s4, 1, x.target, [x]);
    var s5 := Apply(s4, b1);
    SendOnly(s5, x, 1);
    var s6 := Apply(s5, n1);
    assert s6.sent == [x, x];
    assert Reaches(s6, [], s6);
    ReachesCons(s5, n1, [], s6);
    ReachesCons(s4, b1, [n1] + [], s6);
    ReachesCons(s3, e0, [b1] + ([n1] + []), s6);
    ReachesCons(s2, n0, [e0] + ([b1] + ([n1] + [])), s6);
    ReachesCons(s1, b0, [n0] + ([e0] + ([b1] + ([n1] + []))), s6);
    ReachesCons(INIT, q, [b0] + ([n0] + ([e0] + ([b1] + ([n1] + [])))), s6);
    assert [q] + ([b0] + ([n0] + ([e0] + ([b1] + ([n1] + []))))) == [q, b0, n0, e0, b1, n1];
  }

  lemma RemoveIs(s: System, id: Id)
    requires Waiting(s, id)
    ensures Apply(s, Remove(id)) == s.(rows := s.rows - {id}, removed := s.removed + {id})
  {
  }

  /** The `i`-th identifier of the run below, and its signal. */
  function NumberedId(i: nat): Id {
    BE(i, 16)
  }

  function Numbered(peer: Key, times: seq<int>, i: nat): Entry
    requires i < |times|
  {
    Entry(NumberedId(i), peer, [], times[i], 0)
  }

  /** Between two signals of that run: nothing waits, no flush is active, and the next identifiers are fresh. */
  ghost predicate Quiet(s: System, i: nat) {
    s.rows == map[] && s.active == map[] && s.stale == {} && forall id :: id in s.queued ==> FromBE(id) < i
  }

  lemma FreshNumber(s: System, i: nat)
    requires Quiet(s, i) && i < Pow256(16)
    ensures NumberedId(i) !in s.queued && FromBE(NumberedId(i)) == i
  {
    hide FromBE, BE, Pow256;
    FromBEOfBE(i, 16);
  }

  /** A signal is queued and removed again. */
  lemma Discarded(s: System, peer: Key, times: seq<int>, i: nat) returns (events: seq<Event>, t: System)
    requires Quiet(s, i) && i < |times| <= Pow256(16)
    ensures ReachesSerially(s, events, t) && Quiet(t, i + 1) && t.sent == s.sent
    ensures QueueTimes(events, peer) == [times[i]]
  {
    hide Listing, Apply, FromBE, BE, Pow256, NumberedId;
    var x := Numbered(peer, times, i);
    FreshNumber(s, i);
    var q, r := Queue(x.id, x.target, x.signal, x.createdAt), Remove(x.id);
    QueueAndList(s, x, 0);
    var m := Apply(s, q);
    RemoveIs(m, x.id);
    t := Apply(m, r);
    events := [q] + ([r] + []);
    assert ReachesSerially(t, [], t);
    SeriallyCons(m, r, [], t);
    SeriallyCons(s, q, [r] + [], t);
    TimesOfTwo(q, [r] + [], peer);
    assert t.rows == map[];
  }

  lemma TimesOfTwo(q: Event, rest: seq<Event>, peer: Key)
    requires q.Queue? && q.target == peer && forall i :: 0 <= i < |rest| ==> !rest[i].Queue?
    ensures QueueTimes([q] + rest, peer) == [q.now]
  {
    assert ([q] + rest)[1..] == rest;
    NoTimes(rest, peer);
  }

  lemma {:induction false} NoTimes(rest: seq<Event>, peer: Key)
    requires forall i :: 0 <= i < |rest| ==> !rest[i].Queue?
    ensures QueueTimes(rest, peer) == []
    decreases |rest|
  {
    if rest != [] {
      NoTimes(rest[1..], peer);
    }
  }

  /** A signal is queued and flushed. */
  lemma Flushed(s: System, peer: Key, times: seq<int>, i: nat) returns (events: seq<Event>, t: System)
    requires Quiet(s, i) && i < |times| <= Pow256(16)
    ensures ReachesSerially(s, events, t) && Quiet(t, i + 1) && t.sent == s.sent + [Numbered(peer, times, i)]
    ensures QueueTimes(events, peer) == [times[i]]
  {
    hide Listing, Apply, FromBE, BE, Pow256, NumberedId;
    var x := Numbered(peer, times, i);
    FreshNumber(s, i);
    var q, b := Queue(x.id, x.target, x.signal, x.createdAt), Begin(0, x.target, [x]);
    QueueAndList(s, x, 0);
    var s1 := Apply(s, q);
    BeginIs(s1, 0, x.target, [x]);
    var s2 := Apply(s1, b);
    SendOnly(s2, x, 0);
    var s3 := Apply(s2, Next(0, true, true));
    EndIs(s3, 0);
    t := Apply(s3, End(0));
    assert ReachesSerially(t, [], t);
    SeriallyCons(s3, End(0), [], t);
    SeriallyCons(s2, Next(0, true, true), [End(0)] + [], t);
    SeriallyCons(s1, b, [Next(0, true, true)] + ([End(0)] + []), t);
    SeriallyCons(s, q, [b] + ([Next(0, true, true)] + ([End(0)] + [])), t);
    events := [q] + ([b] + ([Next(0, true, true)] + ([End(0)] + [])));
    TimesOfTwo(q, [b] + ([Next(0, true, true)] + ([End(0)] + [])), peer);
    assert t.rows == map[] && t.active == map[];
  }

  /** Signals `i` to `j` are queued and removed again. */
  lemma {:induction false} AllDiscarded(s: System, peer: Key, times: seq<int>, i: nat, j: nat)
    returns (events: seq<Event>, t: System)
    requires Quiet(s, i) && i <= j <= |times| <= Pow256(16)
    ensures ReachesSerially(s, events, t) && Quiet(t, j) && t.sent == s.sent
    ensures QueueTimes(events, peer) == times[i..j]
    decreases j - i
  {
    hide Quiet, Pow256, Apply, Enabled, Serial;
    if i == j {
      events, t := [], s;
    } else {
      var a, m := Discarded(s, peer, times, i);
      var b, u := AllDiscarded(m, peer, times, i + 1, j);
      SeriallyAppend(s, a, m, b, u);
      QueueTimesAppend(a, b, peer);
      assert [times[i]] + times[i + 1..j] == times[i..j];
      events, t := a + b, u;
    }
  }

  /** A clock that steps back between two signals has a serial run that sends them out of creation order. */
  lemma ClockStepBreaksOrder(peer: Key, times: seq<int>, i: nat, j: nat) returns (events: seq<Event>, t: System)
    requires i < j < |times| <= Pow256(16) && times[i] > times[j]
    ensures ReachesSerially(INIT, events, t) && QueueTimes(events, peer) == times && !SentInOrder(t, peer)
  {
    hide ReachesSerially, QueueTimes, Pow256, Quiet, Numbered, SentInOrder;
    assert Quiet(INIT, 0) by { InitQuiet(); }
    var a, s1 := AllDiscarded(INIT, peer, times, 0, i);
    var b, s2 := Flushed(s1, peer, times, i);
    var c, s3 := AllDiscarded(s2, peer, times, i + 1, j);
    var d, s4 := Flushed(s3, peer, times, j);
    var e, s5 := AllDiscarded(s4, peer, times, j + 1, |times|);
    Joined(s3, d, s4, e, s5, peer);
    Joined(s2, c, s3, d + e, s5, peer);
    Joined(s1, b, s2, c + (d + e), s5, peer);
    Joined(INIT, a, s1, b + (c + (d + e)), s5, peer);
    TimesInPieces(times, i, j);
    events, t := a + (b + (c + (d + e))), s5;
    assert s5.sent == [Numbered(peer, times, i)] + [Numbered(peer, times, j)];
    NumberedIs(peer, times, i, j);
    OutOfOrder(t, peer, Numbered(peer, times, i), Numbered(peer, times, j));
  }

  lemma InitQuiet()
    ensures Quiet(INIT, 0)
  {
  }

  lemma NumberedIs(peer: Key, times: seq<int>, i: nat, j: nat)
    requires i < |times| && j < |times|
    ensures Numbered(peer, times, i).target == peer && Numbered(peer, times, i).createdAt == times[i]
    ensures Numbered(peer, times, j).target == peer && Numbered(peer, times, j).createdAt == times[j]
  {
  }

  lemma Joined(s: System, a: seq<Event>, m: System, b: seq<Event>, t: System, peer: Key)
    requires ReachesSerially(s, a, m) && ReachesSerially(m, b, t)
    ensures ReachesSerially(s, a + b, t) && QueueTimes(a + b, peer) == QueueTimes(a, peer) + QueueTimes(b, peer)
  {
    SeriallyAppend(s, a, m, b, t);
    QueueTimesAppend(a, b, peer);
  }

  lemma TimesInPieces(times: seq<int>, i: nat, j: nat)
    requires i < j < |times|
    ensures times[0..i] + ([times[i]] + (times[i + 1..j] + ([times[j]] + times[j + 1..|times|]))) == times
  {
  }

  lemma OutOfOrder(t: System, peer: Key, x: Entry, y: Entry)
    requires t.sent == [x] + [y] && x.target == y.target == peer && x.createdAt > y.createdAt
    ensures !SentInOrder(t, peer)
  {
    assert t.sent[0] == x && t.sent[1] == y;
  }
}
