/**
  The message store: a table of encrypted rows, a cache of plaintexts that may expire at
  any time, a search index and a table of files. The theorems say that under every
  sequence of operations it behaves as one plain map from identifiers to messages.
  Database writes may fail; database reads succeed.
*/
module ChatStore {
  import opened ByteStrings
  import opened MessageCodec

  /** A row value: it opens only under the secret it was sealed with. */
  datatype Cell = Cell(secret: Key, plain: Bytes)

  datatype IndexRow = IndexRow(from: Bytes, to: Bytes, text: Bytes)

  datatype Store = Store(
    rows: map<Id, Cell>, cache: map<Id, Bytes>, index: map<Id, IndexRow>, files: map<Id, Bytes>)

  /** Whether the row write and the index write of an operation succeed, and which files cannot be deleted. */
  datatype Db = Db(rowOk: bool, indexOk: bool, kept: set<Id>)

  /** A value, an error return, or a Go panic. */
  datatype Result<+T> = Ok(value: T) | Failed | Crashed

  const EMPTY := Store(map[], map[], map[], map[])

  /** The text the index keeps: content and attachment names, joined by spaces. */
  function SearchText(m: Message): Bytes {
    m.content + Names(m.attachments)
  }

  function Names(s: seq<Attachment>): Bytes {
    if s == [] then [] else Names(s[..|s| - 1]) + (if s[|s| - 1].name == [] then [] else [32] + s[|s| - 1].name)
  }

  /** `searchText`, with its builder loop. */
  method BuildSearchText(m: Message) returns (b: Bytes)
    ensures b == SearchText(m)
  {
    b := m.content;
    for i := 0 to |m.attachments|
      invariant b == m.content + Names(m.attachments[..i])
    {
      assert m.attachments[..i + 1][..i] == m.attachments[..i];
      if m.attachments[i].name != [] {
        b := b + [32];
        b := b + m.attachments[i].name;
      }
    }
    assert m.attachments[..|m.attachments|] == m.attachments;
  }

  /** How many bytes attachments add to the text: each name that is not empty, with a space before it. */
  function NamesLength(s: seq<Attachment>): nat {
    if s == [] then 0
    else NamesLength(s[..|s| - 1]) + (if |s[|s| - 1].name| > 0 then 1 + |s[|s| - 1].name| else 0)
  }

  /** The `i`-th name lies in the names' text behind those of the earlier attachments, after a space. */
  lemma {:induction false} NameInNames(s: seq<Attachment>, i: nat)
    requires i < |s|
    ensures |Names(s)| == NamesLength(s)
    ensures s[i].name != [] ==> At(Names(s), NamesLength(s[..i]), [32] + s[i].name)
    decreases |s|
  {
    var k := |s| - 1;
    NamesAreLong(s);
    NamesAreLong(s[..k]);
    if i < k {
      NameInNames(s[..k], i);
      assert s[..k][..i] == s[..i];
      if s[i].name != [] {
        AtExtend(Names(s[..k]), NamesLength(s[..i]), [32] + s[i].name,
                 if s[k].name == [] then [] else [32] + s[k].name);
      }
    }
  }

  lemma {:induction false} NamesAreLong(s: seq<Attachment>)
    ensures |Names(s)| == NamesLength(s)
    decreases |s|
  {
    if s != [] {
      NamesAreLong(s[..|s| - 1]);
    }
  }

  /**
    What the index can find: the content comes first, every attachment name that is not empty
    follows at its place behind a space, and nothing else is in the text.
  */
  lemma SearchTextHolds(m: Message)
    ensures At(SearchText(m), 0, m.content)
    ensures |SearchText(m)| == |m.content| + NamesLength(m.attachments)
    ensures forall i :: 0 <= i < |m.attachments| && m.attachments[i].name != [] ==>
      At(SearchText(m), |m.content| + NamesLength(m.attachments[..i]), [32] + m.attachments[i].name)
  {
    hide Names, NamesLength;
    NamesAreLong(m.attachments);
    forall i | 0 <= i < |m.attachments| && m.attachments[i].name != []
      ensures At(SearchText(m), |m.content| + NamesLength(m.attachments[..i]), [32] + m.attachments[i].name)
    {
      NameInNames(m.attachments, i);
      AtBehind(m.content, Names(m.attachments), NamesLength(m.attachments[..i]), [32] + m.attachments[i].name);
    }
  }

  lemma AtBehind(front: Bytes, data: Bytes, off: nat, field: Bytes)
    requires At(data, off, field)
    ensures At(front + data, |front| + off, field)
  {
    assert (front + data)[|front| + off..|front| + off + |field|] == data[off..off + |field|];
  }

  /* ---------- the operations as functions of the store ---------- */

  /** `PutWithID` of the table followed by `indexAndCache`. */
  function WriteRow(s: Store, secret: Key, id: Id, fromName: Bytes, m: Message, db: Db): Store
    requires Encodable(m)
  {
    var plain := MessageBytes(m);
    s.(rows := s.rows[id := Cell(secret, plain)], cache := s.cache[id := plain],
       index := if db.indexOk then s.index[id := IndexRow(fromName, m.to, SearchText(m))] else s.index)
  }

  /** `message.Put`; `drawn` is the identifier drawn when the message has none. */
  function PutStep(s: Store, secret: Key, fromName: Bytes, m: Message, drawn: Id, db: Db): (Store, Result<Id>) {
    if !Encodable(m) then (s, Crashed) else
    var id := if m.id == NIL_ID then drawn else m.id;
    if !db.rowOk then (s, Failed) else (WriteRow(s, secret, id, fromName, m, db), Ok(id))
  }

  /** `loadPlain`: the cache first, then the row, which fills the cache. */
  function LoadStep(s: Store, secret: Key, id: Id): (Store, Result<Bytes>) {
    if id in s.cache then (s, Ok(s.cache[id]))
    else if id !in s.rows || s.rows[id].secret != secret then (s, Failed)
    else (s.(cache := s.cache[id := s.rows[id].plain]), Ok(s.rows[id].plain))
  }

  /** `message.Get`: the identifier asked for replaces the encoded one. */
  function GetStep(s: Store, secret: Key, id: Id): (Store, Result<Message>) {
    var (t, plain) := LoadStep(s, secret, id);
    if plain.Failed? then (t, Failed)
    else if plain.Crashed? then (t, Crashed)
    else match DecodeMessage(plain.value)
      case Malformed => (t, Failed)
      case Panicked => (t, Crashed)
      case Parsed(m, _) => (t, Ok(m.(id := id)))
  }

  /** `message.Update`: keeps the creation time of an existing message and stamps the update. */
  function UpdateStep(s: Store, secret: Key, id: Id, fromName: Bytes, m: Message, now: Int64, db: Db)
    : (Store, Result<()>)
  {
    var (t, prev) := GetStep(s, secret, id);
    if prev.Crashed? then (t, Crashed) else
    var next := m.(createdAt := if prev.Ok? then prev.value.createdAt else m.createdAt, updatedAt := now);
    if !Encodable(next) then (t, Crashed)
    else if id !in t.rows || !db.rowOk then (t, Failed)
    else (WriteRow(t, secret, id, fromName, next, db), Ok(()))
  }

  function AttachmentIds(m: Message): set<Id> {
    set a | a in m.attachments :: a.id
  }

  /**
    `message.Delete`: the attachments' files go first, then row, index entry and cache entry. A
    file that cannot be deleted is left behind.
  */
  function DeleteStep(s: Store, secret: Key, id: Id, db: Db): (Store, Result<()>) {
    var (t, plain) := LoadStep(s, secret, id);
    var m := if plain.Ok? then DecodeMessage(plain.value) else Malformed;
    if m.Panicked? then (t, Crashed) else
    var u := if m.Parsed? then t.(files := t.files - (AttachmentIds(m.value) - db.kept)) else t;
    if !db.rowOk then (u, Failed) else
    (u.(rows := u.rows - {id}, cache := u.cache - {id}, index := if db.indexOk then u.index - {id} else u.index),
     Ok(()))
  }

  function ExpireStep(s: Store, ids: set<Id>): Store {
    s.(cache := s.cache - ids)
  }

  /* ---------- the invariant and the abstraction ---------- */

  /** Every row is sealed with our secret and holds the encoding of some message. */
  ghost predicate RowsValid(s: Store, secret: Key) {
    forall id :: id in s.rows ==> s.rows[id].secret == secret && DecodeMessage(s.rows[id].plain).Parsed?
  }

  /** A cached plaintext is the row's. */
  ghost predicate CacheValid(s: Store) {
    forall id :: id in s.cache ==> id in s.rows && s.cache[id] == s.rows[id].plain
  }

  ghost predicate Valid(s: Store, secret: Key) {
    RowsValid(s, secret) && CacheValid(s)
  }

  ghost function Messages(s: Store, secret: Key): map<Id, Message>
    requires RowsValid(s, secret)
  {
    map id | id in s.rows :: DecodeMessage(s.rows[id].plain).value.(id := id)
  }

  /** Index entries belong to stored messages and show their recipient and search text. */
  ghost predicate IndexValid(s: Store, secret: Key)
    requires RowsValid(s, secret)
  {
    s.index.Keys == s.rows.Keys &&
    forall id :: id in s.index ==>
      s.index[id].to == Messages(s, secret)[id].to && s.index[id].text == SearchText(Messages(s, secret)[id])
  }

  lemma EncodedRowDecodes(m: Message)
    requires Encodable(m)
    ensures DecodeMessage(MessageBytes(m)) == Parsed(m, |MessageBytes(m)|)
  {
    hide *;
    RoundTrip(m, []);
    assert MessageBytes(m) + [] == MessageBytes(m);
  }

  lemma RenamingKeeps(m: Message, id: Id)
    ensures SearchText(m.(id := id)) == SearchText(m)
    ensures AttachmentIds(m.(id := id)) == AttachmentIds(m)
  {
  }

  lemma WriteRowKeeps(s: Store, secret: Key, id: Id, fromName: Bytes, m: Message, db: Db)
    requires Valid(s, secret) && Encodable(m)
    ensures var t := WriteRow(s, secret, id, fromName, m, db);
      && Valid(t, secret) && t.files == s.files
      && Messages(t, secret) == Messages(s, secret)[id := m.(id := id)]
  {
    hide DecodeMessage, MessageBytes, Encodable, SearchText;
    EncodedRowDecodes(m);
    var t := WriteRow(s, secret, id, fromName, m, db);
    assert t.rows == s.rows[id := Cell(secret, MessageBytes(m))] && t.cache == s.cache[id := MessageBytes(m)];
    hide WriteRow;
    assert Valid(t, secret);
    forall x | x in t.rows ensures Messages(t, secret)[x] == Messages(s, secret)[id := m.(id := id)][x] {
    }
  }

  lemma WriteRowIndexes(s: Store, secret: Key, id: Id, fromName: Bytes, m: Message, db: Db)
    requires Valid(s, secret) && IndexValid(s, secret) && Encodable(m) && db.indexOk
    ensures var t := WriteRow(s, secret, id, fromName, m, db);
      && Valid(t, secret) && IndexValid(t, secret)
      && t.index == s.index[id := IndexRow(fromName, m.to, SearchText(m))]
  {
    hide DecodeMessage, MessageBytes, Encodable, SearchText, RowsValid, CacheValid, Messages;
    WriteRowKeeps(s, secret, id, fromName, m, db);
    RenamingKeeps(m, id);
  }

  lemma LoadKeeps(s: Store, secret: Key, id: Id)
    requires Valid(s, secret)
    ensures var (t, plain) := LoadStep(s, secret, id);
      && Valid(t, secret) && t == s.(cache := t.cache)
      && t.cache == (if id in s.rows then s.cache[id := s.rows[id].plain] else s.cache)
      && plain == if id in s.rows then Ok(s.rows[id].plain) else Failed
  {
    hide DecodeMessage;
    assert id in s.cache ==> s.cache[id := s.cache[id]] == s.cache;
  }

  /** `Get` reads the map: it returns the stored message or fails, and never crashes. */
  lemma GetReadsMap(s: Store, secret: Key, id: Id)
    requires Valid(s, secret)
    ensures var (t, r) := GetStep(s, secret, id);
      && Valid(t, secret) && t == s.(cache := t.cache)
      && r == if id in Messages(s, secret) then Ok(Messages(s, secret)[id]) else Failed
  {
    hide DecodeMessage, LoadStep;
    LoadKeeps(s, secret, id);
  }

  /** Reading, storing and editing messages leaves the file table alone. */
  lemma GetKeepsFiles(s: Store, secret: Key, id: Id)
    ensures GetStep(s, secret, id).0.files == s.files
  {
    hide DecodeMessage;
  }

  lemma PutKeepsFiles(s: Store, secret: Key, fromName: Bytes, m: Message, drawn: Id, db: Db)
    ensures PutStep(s, secret, fromName, m, drawn, db).0.files == s.files
  {
    hide MessageBytes, SearchText, Encodable;
  }

  lemma UpdateKeepsFiles(s: Store, secret: Key, id: Id, fromName: Bytes, m: Message, now: Int64, db: Db)
    ensures UpdateStep(s, secret, id, fromName, m, now, db).0.files == s.files
  {
    hide GetStep, MessageBytes, SearchText, Encodable;
    GetKeepsFiles(s, secret, id);
  }

  lemma SameRowsSameMessages(s: Store, t: Store, secret: Key)
    requires Valid(s, secret) && t.rows == s.rows
    ensures RowsValid(t, secret) && Messages(t, secret) == Messages(s, secret)
    ensures t.index == s.index && IndexValid(s, secret) ==> IndexValid(t, secret)
  {
    hide DecodeMessage, SearchText;
  }

  lemma DeleteKeeps(s: Store, secret: Key, id: Id, db: Db)
    requires Valid(s, secret)
    ensures var (t, r) := DeleteStep(s, secret, id, db);
      && Valid(t, secret)
      && Messages(t, secret) == (if db.rowOk then Messages(s, secret) - {id} else Messages(s, secret))
      && r == (if db.rowOk then Ok(()) else Failed)
  {
    hide DecodeMessage, LoadStep, AttachmentIds;
    LoadKeeps(s, secret, id);
  }

  /** A delete takes the attachments' files that can be deleted, and the index entry where the index write succeeds. */
  lemma DeleteTakes(s: Store, secret: Key, id: Id, db: Db)
    requires Valid(s, secret)
    ensures var t, msgs := DeleteStep(s, secret, id, db).0, Messages(s, secret);
      && (forall i :: id in msgs && 0 <= i < |msgs[id].attachments| ==>
            msgs[id].attachments[i].id in db.kept || msgs[id].attachments[i].id !in t.files)
      && (forall f :: f in s.files && (f in db.kept || !(id in msgs && HasFile(msgs[id], f))) ==>
            f in t.files && t.files[f] == s.files[f])
      && (forall f :: f in t.files ==> f in s.files)
      && t.index == (if db.rowOk && db.indexOk then s.index - {id} else s.index)
      && t.rows.Keys == (if db.rowOk then s.rows.Keys - {id} else s.rows.Keys)
  {
    hide DecodeMessage, LoadStep, AttachmentIds, HasFile, CacheValid;
    LoadKeeps(s, secret, id);
    if id in s.rows {
      var m := DecodeMessage(s.rows[id].plain).value;
      RenamingKeeps(m, id);
      forall f ensures f in AttachmentIds(m) <==> HasFile(m.(id := id), f) {
        AttachmentIdsHold(m, f);
        AttachmentIdsHold(m.(id := id), f);
      }
      forall i | 0 <= i < |m.attachments| ensures m.attachments[i].id in AttachmentIds(m) {
        AttachmentListed(m, i);
      }
    }
  }

  /** Some attachment of the message has this identifier. */
  predicate HasFile(m: Message, f: Id) {
    exists i :: 0 <= i < |m.attachments| && m.attachments[i].id == f
  }

  lemma AttachmentIdsHold(m: Message, f: Id)
    ensures f in AttachmentIds(m) <==> HasFile(m, f)
  {
    if HasFile(m, f) {
      var i :| 0 <= i < |m.attachments| && m.attachments[i].id == f;
      assert m.attachments[i] in m.attachments;
    }
  }

  lemma AttachmentListed(m: Message, i: nat)
    requires i < |m.attachments|
    ensures m.attachments[i].id in AttachmentIds(m)
  {
    assert m.attachments[i] in m.attachments;
  }

  /* ---------- refinement of a plain map ---------- */

  datatype Op =
    | Put(fromName: Bytes, msg: Message, drawn: Id, db: Db)
    | Get(id: Id)
    | Update(id: Id, fromName: Bytes, msg: Message, now: Int64, db: Db)
    | Delete(id: Id, db: Db)
    | Expire(ids: set<Id>)

  datatype Reply = Stored(id: Id) | Found(msg: Message) | Done | NotDone | Panic

  function Exec(s: Store, secret: Key, op: Op): (Store, Reply) {
    match op
    case Put(fromName, m, drawn, db) =>
      var (t, r) := PutStep(s, secret, fromName, m, drawn, db);
      (t, match r case Ok(id) => Stored(id) case Failed => NotDone case Crashed => Panic)
    case Get(id) =>
      var (t, r) := GetStep(s, secret, id);
      (t, match r case Ok(m) => Found(m) case Failed => NotDone case Crashed => Panic)
    case Update(id, fromName, m, now, db) =>
      var (t, r) := UpdateStep(s, secret, id, fromName, m, now, db);
      (t, match r case Ok(_) => Done case Failed => NotDone case Crashed => Panic)
    case Delete(id, db) =>
      var (t, r) := DeleteStep(s, secret, id, db);
      (t, match r case Ok(_) => Done case Failed => NotDone case Crashed => Panic)
    case Expire(ids) => (ExpireStep(s, ids), Done)
  }

  /** The reference: messages by identifier, no encoding, no cache, no encryption. */
  function RefExec(m: map<Id, Message>, op: Op): (map<Id, Message>, Reply) {
    match op
    case Put(_, msg, drawn, db) =>
      var id := if msg.id == NIL_ID then drawn else msg.id;
      if !Encodable(msg) then (m, Panic)
      else if !db.rowOk then (m, NotDone)
      else (m[id := msg.(id := id)], Stored(id))
    case Get(id) => (m, if id in m then Found(m[id]) else NotDone)
    case Update(id, _, msg, now, db) =>
      var next := msg.(id := id, updatedAt := now, createdAt := if id in m then m[id].createdAt else msg.createdAt);
      if !Encodable(next) then (m, Panic)
      else if id !in m || !db.rowOk then (m, NotDone)
      else (m[id := next], Done)
    case Delete(id, db) => if db.rowOk then (m - {id}, Done) else (m, NotDone)
    case Expire(_) => (m, Done)
  }

  function RunOps(s: Store, secret: Key, ops: seq<Op>): (Store, seq<Reply>)
    decreases |ops|
  {
    if ops == [] then (s, []) else
    var (t, r) := Exec(s, secret, ops[0]);
    var (u, rs) := RunOps(t, secret, ops[1..]);
    (u, [r] + rs)
  }

  function RefRunOps(m: map<Id, Message>, ops: seq<Op>): (map<Id, Message>, seq<Reply>)
    decreases |ops|
  {
    if ops == [] then (m, []) else
    var (n, r) := RefExec(m, ops[0]);
    var (o, rs) := RefRunOps(n, ops[1..]);
    (o, [r] + rs)
  }

  lemma ExecRefines(s: Store, secret: Key, op: Op)
    requires Valid(s, secret)
    ensures var (t, r) := Exec(s, secret, op);
      && Valid(t, secret)
      && (Messages(t, secret), r) == RefExec(Messages(s, secret), op)
  {
    hide DecodeMessage, MessageBytes, SearchText, WriteRow, GetStep, LoadStep, DeleteStep;
    match op {
      case Put(fromName, m, drawn, db) =>
        if Encodable(m) && db.rowOk {
          WriteRowKeeps(s, secret, if m.id == NIL_ID then drawn else m.id, fromName, m, db);
        }
      case Get(id) =>
        GetReadsMap(s, secret, id);
        SameRowsSameMessages(s, GetStep(s, secret, id).0, secret);
      case Update(id, fromName, m, now, db) =>
        UpdateRefines(s, secret, id, fromName, m, now, db);
      case Delete(id, db) =>
        DeleteKeeps(s, secret, id, db);
      case Expire(ids) =>
        ExpireKeeps(s, secret, ids);
    }
  }

  lemma UpdateRefines(s: Store, secret: Key, id: Id, fromName: Bytes, m: Message, now: Int64, db: Db)
    requires Valid(s, secret)
    ensures var (t, r) := UpdateStep(s, secret, id, fromName, m, now, db);
      var msgs := Messages(s, secret);
      var next := m.(id := id, updatedAt := now, createdAt := if id in msgs then msgs[id].createdAt else m.createdAt);
      && Valid(t, secret) && t.files == s.files
      && r == (if !Encodable(next) then Crashed else if id !in msgs || !db.rowOk then Failed else Ok(()))
      && Messages(t, secret) == (if r.Ok? then msgs[id := next] else msgs)
  {
    hide DecodeMessage, MessageBytes, SearchText, WriteRow, GetStep;
    GetReadsMap(s, secret, id);
    var (t, prev) := GetStep(s, secret, id);
    SameRowsSameMessages(s, t, secret);
    var next := m.(createdAt := if prev.Ok? then prev.value.createdAt else m.createdAt, updatedAt := now);
    if Encodable(next) {
      WriteRowKeeps(t, secret, id, fromName, next, db);
    }
  }

  /**
    Store refinement: any sequence of operations, with failing writes and expiry at any
    point, gives the replies of the plain map and leaves its contents.
  */
  lemma {:induction false} StoreRefinesMap(s: Store, secret: Key, ops: seq<Op>)
    requires Valid(s, secret)
    ensures var (t, rs) := RunOps(s, secret, ops);
      Valid(t, secret) && (Messages(t, secret), rs) == RefRunOps(Messages(s, secret), ops)
    decreases |ops|
  {
    hide Exec, RefExec, RowsValid, CacheValid, Messages;
    if ops != [] {
      ExecRefines(s, secret, ops[0]);
      StoreRefinesMap(Exec(s, secret, ops[0]).0, secret, ops[1..]);
    }
  }

  lemma EmptyIsValid(secret: Key)
    ensures Valid(EMPTY, secret) && Messages(EMPTY, secret) == map[] && IndexValid(EMPTY, secret)
  {
  }

  /* ---------- search ---------- */

  /** SQL text order of identifiers is the order of their bytes. */
  predicate Before(a: Id, b: Id) {
    FromBE(a) < FromBE(b)
  }

  lemma BeforeIsTotal(a: Id, b: Id)
    ensures Before(a, b) || Before(b, a) || a == b
  {
    hide FromBE, BE;
    BEOfFromBE(a);
    BEOfFromBE(b);
  }

  ghost predicate IsFirst(s: set<Id>, m: Id) {
    m in s && forall x :: x in s && x != m ==> Before(m, x)
  }

  lemma {:induction false} HasFirst(s: set<Id>)
    requires s != {}
    ensures exists m :: IsFirst(s, m)
  {
    hide Before;
    var m :| m in s;
    var rest := s - {m};
    if rest == {} {
      assert s == {m};
      assert IsFirst(s, m);
    } else {
      HasFirst(rest);
      var n :| IsFirst(rest, n);
      BeforeIsTotal(m, n);
      if Before(m, n) {
        forall x | x in s && x != m ensures Before(m, x) {
          assert x in rest;
          BeforeIsTransitive(m, n, x);
        }
        assert IsFirst(s, m);
      } else {
        forall x | x in s && x != n ensures Before(n, x) {
          assert x == m || x in rest;
        }
        assert IsFirst(s, n);
      }
    }
  }

  lemma BeforeIsTransitive(a: Id, b: Id, c: Id)
    ensures Before(a, b) && Before(b, c) ==> Before(a, c)
  {
  }

  /** The identifiers of a set in ascending order: what `ORDER BY msg_id` returns. */
  ghost function Ascending(s: set<Id>): (r: seq<Id>)
    ensures forall id :: id in r <==> id in s
    ensures forall i, j :: 0 <= i < j < |r| ==> Before(r[i], r[j])
    decreases |s|
  {
    if s == {} then [] else
    HasFirst(s);
    var m :| IsFirst(s, m);
    [m] + Ascending(s - {m})
  }

  /** SQL `LIMIT`, applied only to a positive limit. */
  function Limited<T>(s: seq<T>, limit: int): (r: seq<T>)
    ensures r <= s
    ensures forall x :: x in r ==> x in s
  {
    if 0 < limit < |s| then s[..limit] else s
  }

  /** `%query%` matched against one column; what `LIKE` means is a parameter. */
  type Like = (Bytes, Bytes) -> bool

  predicate Matches(like: Like, query: Bytes, row: IndexRow) {
    like(row.from, query) || like(row.to, query) || like(row.text, query)
  }

  function IndexHits(index: map<Id, IndexRow>, like: Like, query: Bytes): set<Id> {
    set id | id in index && Matches(like, query, index[id])
  }

  /** `ChatStore.Search`: the query on the index. */
  ghost function SelectIds(index: map<Id, IndexRow>, like: Like, query: Bytes, limit: int): seq<Id> {
    Limited(Ascending(IndexHits(index, like, query)), limit)
  }

  /** The loop of `message.Search`: unreadable messages are skipped. */
  function Collect(s: Store, secret: Key, ids: seq<Id>): (Store, seq<Message>) {
    if ids == [] then (s, []) else
    var (t, found) := Collect(s, secret, ids[..|ids| - 1]);
    var (u, r) := GetStep(t, secret, ids[|ids| - 1]);
    (u, if r.Ok? then found + [r.value] else found)
  }

  ghost function SearchStep(s: Store, secret: Key, like: Like, query: Bytes, limit: int): (Store, seq<Message>) {
    if query == [] then (s, []) else Collect(s, secret, SelectIds(s.index, like, query, limit))
  }

  ghost function Pick(m: map<Id, Message>, ids: seq<Id>): (r: seq<Message>)
    requires forall id :: id in ids ==> id in m
    ensures |r| == |ids|
  {
    seq(|ids|, i requires 0 <= i < |ids| => m[ids[i]])
  }

  lemma {:induction false} CollectReadsAll(s: Store, secret: Key, ids: seq<Id>)
    requires Valid(s, secret) && forall id :: id in ids ==> id in Messages(s, secret)
    ensures var (t, found) := Collect(s, secret, ids);
      Valid(t, secret) && t == s.(cache := t.cache) && found == Pick(Messages(s, secret), ids)
    decreases |ids|
  {
    hide GetStep, RowsValid, CacheValid, Messages;
    if ids != [] {
      var k := |ids| - 1;
      CollectReadsAll(s, secret, ids[..k]);
      var t := Collect(s, secret, ids[..k]).0;
      SameRowsSameMessages(s, t, secret);
      GetReadsMap(t, secret, ids[k]);
      var msgs := Messages(s, secret);
      assert Pick(msgs, ids) == Pick(msgs, ids[..k]) + [msgs[ids[k]]];
    }
  }

  /** What a query must match: the recorded sender name, the recipient and the text of the message itself. */
  predicate MessageMatches(like: Like, query: Bytes, fromName: Bytes, m: Message) {
    like(fromName, query) || like(m.to, query) || like(SearchText(m), query)
  }

  ghost function MessageHits(m: map<Id, Message>, names: map<Id, Bytes>, like: Like, query: Bytes): set<Id>
    requires m.Keys <= names.Keys
  {
    set id | id in m && MessageMatches(like, query, names[id], m[id])
  }

  /** The reference search: over the messages themselves, with the sender name given at the last write. */
  ghost function RefSearch(m: map<Id, Message>, names: map<Id, Bytes>, like: Like, query: Bytes, limit: int)
    : seq<Message>
    requires m.Keys <= names.Keys
  {
    if query == [] then [] else Pick(m, Limited(Ascending(MessageHits(m, names, like, query)), limit))
  }

  /** The sender names of the reference: set by a successful Put or Update, dropped by a Delete. */
  function NamesAfter(names: map<Id, Bytes>, op: Op, reply: Reply): map<Id, Bytes> {
    match op
    case Put(fromName, _, _, _) => if reply.Stored? then names[reply.id := fromName] else names
    case Update(id, fromName, _, _, _) => if reply.Done? then names[id := fromName] else names
    case Delete(id, _) => if reply.Done? then names - {id} else names
    case Get(_) => names
    case Expire(_) => names
  }

  function RefNames(m: map<Id, Message>, names: map<Id, Bytes>, ops: seq<Op>): map<Id, Bytes>
    decreases |ops|
  {
    if ops == [] then names else
    var (n, r) := RefExec(m, ops[0]);
    RefNames(n, NamesAfter(names, ops[0], r), ops[1..])
  }

  predicate IndexWriteOk(op: Op) {
    (op.Put? || op.Update? || op.Delete?) ==> op.db.indexOk
  }

  ghost predicate NamesValid(s: Store, names: map<Id, Bytes>) {
    names.Keys == s.index.Keys && forall id :: id in names ==> s.index[id].from == names[id]
  }

  lemma IndexStep(s: Store, secret: Key, names: map<Id, Bytes>, op: Op)
    requires Valid(s, secret) && IndexValid(s, secret) && NamesValid(s, names) && IndexWriteOk(op)
    ensures var (t, r) := Exec(s, secret, op);
      Valid(t, secret) && IndexValid(t, secret) && NamesValid(t, NamesAfter(names, op, r))
  {
    hide DecodeMessage, MessageBytes, WriteRow, GetStep, DeleteStep, RowsValid, CacheValid, Messages, IndexValid,
      Encodable;
    match op {
      case Put(fromName, m, drawn, db) =>
        if Encodable(m) && db.rowOk {
          WriteRowIndexes(s, secret, if m.id == NIL_ID then drawn else m.id, fromName, m, db);
        }
      case Get(id) =>
        GetReadsMap(s, secret, id);
        SameRowsSameMessages(s, GetStep(s, secret, id).0, secret);
      case Update(id, fromName, m, now, db) =>
        GetReadsMap(s, secret, id);
        var (t, prev) := GetStep(s, secret, id);
        SameRowsSameMessages(s, t, secret);
        var next := m.(createdAt := if prev.Ok? then prev.value.createdAt else m.createdAt, updatedAt := now);
        if Encodable(next) && id in t.rows && db.rowOk {
          WriteRowIndexes(t, secret, id, fromName, next, db);
        }
      case Delete(id, db) =>
        DeleteKeeps(s, secret, id, db);
        DeleteTakes(s, secret, id, db);
        DeleteIndexes(s, secret, id, db);
      case Expire(ids) =>
        ExpireKeeps(s, secret, ids);
    }
  }

  lemma ExpireKeeps(s: Store, secret: Key, ids: set<Id>)
    requires Valid(s, secret)
    ensures Valid(ExpireStep(s, ids), secret) && Messages(ExpireStep(s, ids), secret) == Messages(s, secret)
    ensures forall id :: id in ExpireStep(s, ids).cache <==> id in s.cache && id !in ids
    ensures IndexValid(s, secret) ==> IndexValid(ExpireStep(s, ids), secret)
  {
    SameRowsSameMessages(s, ExpireStep(s, ids), secret);
  }

  lemma DeleteIndexes(s: Store, secret: Key, id: Id, db: Db)
    requires Valid(s, secret) && IndexValid(s, secret) && db.indexOk
    ensures Valid(DeleteStep(s, secret, id, db).0, secret) && IndexValid(DeleteStep(s, secret, id, db).0, secret)
  {
    hide DecodeMessage, SearchText, DeleteStep, AttachmentIds, HasFile, RowsValid, CacheValid;
    DeleteKeeps(s, secret, id, db);
    DeleteTakes(s, secret, id, db);
    var t := DeleteStep(s, secret, id, db).0;
    forall x | x in t.index
      ensures x in s.index && t.index[x] == s.index[x] && Messages(t, secret)[x] == Messages(s, secret)[x]
    {
    }
  }

  lemma {:induction false} IndexRun(s: Store, secret: Key, names: map<Id, Bytes>, ops: seq<Op>)
    requires Valid(s, secret) && IndexValid(s, secret) && NamesValid(s, names)
    requires forall i :: 0 <= i < |ops| ==> IndexWriteOk(ops[i])
    ensures var t := RunOps(s, secret, ops).0;
      && Valid(t, secret) && IndexValid(t, secret)
      && NamesValid(t, RefNames(Messages(s, secret), names, ops))
    decreases |ops|
  {
    hide Exec, RefExec, RowsValid, CacheValid, Messages, IndexValid, NamesValid, NamesAfter;
    if ops != [] {
      IndexStep(s, secret, names, ops[0]);
      ExecRefines(s, secret, ops[0]);
      var (t, r) := Exec(s, secret, ops[0]);
      IndexRun(t, secret, NamesAfter(names, ops[0], r), ops[1..]);
    }
  }

  /** On an index in agreement with the rows, searching the index is searching the messages. */
  lemma SearchReadsMessages(s: Store, secret: Key, names: map<Id, Bytes>, like: Like, query: Bytes, limit: int)
    requires Valid(s, secret) && IndexValid(s, secret) && NamesValid(s, names)
    ensures Messages(s, secret).Keys == names.Keys
    ensures var (t, found) := SearchStep(s, secret, like, query, limit);
      t == s.(cache := t.cache) && found == RefSearch(Messages(s, secret), names, like, query, limit)
  {
    hide RowsValid, CacheValid, DecodeMessage, SearchText, Collect, Ascending;
    var msgs := Messages(s, secret);
    SameHits(s, secret, names, like, query);
    if query != [] {
      CollectReadsAll(s, secret, SelectIds(s.index, like, query, limit));
    }
  }

  lemma SameHits(s: Store, secret: Key, names: map<Id, Bytes>, like: Like, query: Bytes)
    requires Valid(s, secret) && IndexValid(s, secret) && NamesValid(s, names)
    ensures Messages(s, secret).Keys == names.Keys == s.index.Keys
    ensures IndexHits(s.index, like, query) == MessageHits(Messages(s, secret), names, like, query)
  {
    hide RowsValid, CacheValid, DecodeMessage, SearchText;
  }

  /**
    Search refinement: after any run in which index writes succeed, Search returns exactly
    the first `limit` matching stored messages in identifier order, and skips none.
  */
  lemma SearchRefines(secret: Key, ops: seq<Op>, like: Like, query: Bytes, limit: int)
    requires forall i :: 0 <= i < |ops| ==> IndexWriteOk(ops[i])
    ensures var s := RunOps(EMPTY, secret, ops).0;
      var (msgs, names) := (RefRunOps(map[], ops).0, RefNames(map[], map[], ops));
      && msgs.Keys == names.Keys
      && SearchStep(s, secret, like, query, limit).1 == RefSearch(msgs, names, like, query, limit)
  {
    hide RunOps, RefRunOps, RefNames, SearchStep, RefSearch, RowsValid, CacheValid, Messages, IndexValid;
    EmptyIsValid(secret);
    StoreRefinesMap(EMPTY, secret, ops);
    IndexRun(EMPTY, secret, map[], ops);
    SearchReadsMessages(RunOps(EMPTY, secret, ops).0, secret, RefNames(map[], map[], ops), like, query, limit);
  }

  /** Byte order: the first byte that differs decides. */
  predicate LexBefore(a: Bytes, b: Bytes)
    requires |a| == |b|
  {
    exists i :: 0 <= i < |a| && a[..i] == b[..i] && a[i] < b[i]
  }

  lemma {:induction false} BeforeIsLex(a: Bytes, b: Bytes)
    requires |a| == |b| && FromBE(a) < FromBE(b)
    ensures LexBefore(a, b)
    decreases |a|
  {
    hide BE, Pow256;
    if a != [] {
      var k := |a| - 1;
      if a[..k] == b[..k] {
        assert a[k] < b[k];
      } else {
        if FromBE(a[..k]) == FromBE(b[..k]) {
          BEOfFromBE(a[..k]);
          BEOfFromBE(b[..k]);
        }
        BeforeIsLex(a[..k], b[..k]);
        var i :| 0 <= i < k && a[..k][..i] == b[..k][..i] && a[..k][i] < b[..k][i];
        assert a[..k][..i] == a[..i] && b[..k][..i] == b[..i];
      }
    }
  }

  /**
    A search answer without any order or limit of its own: all hits, or the first `limit` of them,
    each once, ascending, and every hit left out lies behind all of them.
  */
  ghost predicate FirstHits(found: seq<Message>, msgs: map<Id, Message>, hits: set<Id>, limit: int) {
    && |found| == (if 0 < limit < |hits| then limit else |hits|)
    && (forall i :: 0 <= i < |found| ==> found[i].id in hits && found[i].id in msgs && found[i] == msgs[found[i].id])
    && (forall i, j :: 0 <= i < j < |found| ==> LexBefore(found[i].id, found[j].id))
    && (forall i, id :: 0 <= i < |found| && id in hits && (forall j :: 0 <= j < |found| ==> found[j].id != id) ==>
          LexBefore(found[i].id, id))
  }

  lemma {:induction false} AscendingLength(s: set<Id>)
    ensures |Ascending(s)| == |s|
    decreases |s|
  {
    hide Before;
    if s != {} {
      HasFirst(s);
      var m := Ascending(s)[0];
      assert exists x :: IsFirst(s, x) && Ascending(s) == [x] + Ascending(s - {x});
      AscendingLength(s - {m});
    }
  }

  lemma PickFirst(msgs: map<Id, Message>, hits: set<Id>, limit: int)
    requires hits <= msgs.Keys && forall id :: id in msgs ==> msgs[id].id == id
    ensures FirstHits(Pick(msgs, Limited(Ascending(hits), limit)), msgs, hits, limit)
  {
    hide Ascending, Before, LexBefore, FromBE;
    AscendingLength(hits);
    var all := Ascending(hits);
    var found := Pick(msgs, Limited(all, limit));
    assert |found| <= |all| && forall i :: 0 <= i < |found| ==> found[i] == msgs[all[i]] && found[i].id == all[i];
    forall i, j | 0 <= i < j < |all| ensures LexBefore(all[i], all[j]) {
      BeforeByBytes(all[i], all[j]);
    }
    forall i, id | 0 <= i < |found| && id in hits && (forall j :: 0 <= j < |found| ==> found[j].id != id)
      ensures LexBefore(found[i].id, id)
    {
      assert id in all;
      var j :| 0 <= j < |all| && all[j] == id;
      assert j >= |found|;
    }
  }

  lemma BeforeByBytes(a: Id, b: Id)
    requires Before(a, b)
    ensures LexBefore(a, b)
  {
    hide LexBefore, FromBE;
    BeforeIsLex(a, b);
  }

  /**
    Search, after any run in which index writes succeed: the stored messages whose recorded sender
    name, recipient or text matches, or the first `limit` of them by the bytes of their identifiers.
  */
  lemma SearchReturnsFirst(secret: Key, ops: seq<Op>, like: Like, query: Bytes, limit: int)
    requires forall i :: 0 <= i < |ops| ==> IndexWriteOk(ops[i])
    ensures var found := SearchStep(RunOps(EMPTY, secret, ops).0, secret, like, query, limit).1;
      var (msgs, names) := (RefRunOps(map[], ops).0, RefNames(map[], map[], ops));
      && msgs.Keys == names.Keys
      && if query == [] then found == [] else
         FirstHits(found, msgs, (set id | id in msgs && (like(names[id], query) || like(msgs[id].to, query)
                                                         || like(SearchText(msgs[id]), query))), limit)
  {
    hide RunOps, RefRunOps, RefNames, RowsValid, CacheValid, IndexValid, Pick, Limited, Ascending, FirstHits,
      SearchText, DecodeMessage;
    SearchRefines(secret, ops, like, query, limit);
    EmptyIsValid(secret);
    StoreRefinesMap(EMPTY, secret, ops);
    var (msgs, names) := (RefRunOps(map[], ops).0, RefNames(map[], map[], ops));
    assert msgs == Messages(RunOps(EMPTY, secret, ops).0, secret);
    if query != [] {
      var hits := MessageHits(msgs, names, like, query);
      PickFirst(msgs, hits, limit);
      assert hits == set id | id in msgs && (like(names[id], query) || like(msgs[id].to, query)
                                             || like(SearchText(msgs[id]), query));
    }
  }

  /** A message just put is found by its sender's name, its recipient or its text. */
  lemma PutIsFound(s: Store, secret: Key, fromName: Bytes, m: Message, drawn: Id, db: Db, like: Like, query: Bytes)
    requires Valid(s, secret) && IndexValid(s, secret) && Encodable(m) && db.rowOk && db.indexOk && query != []
    requires like(fromName, query) || like(m.to, query) || like(SearchText(m), query)
    ensures var id := if m.id == NIL_ID then drawn else m.id;
      m.(id := id) in SearchStep(PutStep(s, secret, fromName, m, drawn, db).0, secret, like, query, 0).1
  {
    hide DecodeMessage, MessageBytes, Encodable, WriteRow, SearchText, SearchStep, RowsValid, CacheValid, IndexValid,
      Ascending, Messages;
    var id := if m.id == NIL_ID then drawn else m.id;
    WriteRowKeeps(s, secret, id, fromName, m, db);
    WriteRowIndexes(s, secret, id, fromName, m, db);
    RenamingKeeps(m, id);
    var t := PutStep(s, secret, fromName, m, drawn, db).0;
    assert t == WriteRow(s, secret, id, fromName, m, db);
    var names := map x | x in t.index :: t.index[x].from;
    SearchReadsMessages(t, secret, names, like, query, 0);
    HitIsPicked(Messages(t, secret), names, like, query, id);
  }

  lemma HitIsPicked(msgs: map<Id, Message>, names: map<Id, Bytes>, like: Like, query: Bytes, id: Id)
    requires msgs.Keys == names.Keys && id in msgs && query != []
    requires MessageMatches(like, query, names[id], msgs[id])
    ensures msgs[id] in RefSearch(msgs, names, like, query, 0)
  {
    hide Ascending, SearchText;
    var ids := Ascending(MessageHits(msgs, names, like, query));
    assert id in ids;
    var i :| 0 <= i < |ids| && ids[i] == id;
    assert Pick(msgs, ids)[i] == msgs[id];
  }

  /* ---------- damaged rows ---------- */

  /** The row was sealed with another secret, or its plaintext is a strict prefix of an encoding. */
  ghost predicate Damaged(cell: Cell, secret: Key) {
    cell.secret != secret ||
    exists m: Message, k: nat :: Encodable(m) && k < |MessageBytes(m)| && cell.plain == MessageBytes(m)[..k]
  }

  /**
    A damaged row that is not cached cannot be read, without a panic. A delete takes it and no
    file; an update replaces it, with the creation time that it was given.
  */
  lemma DamagedRow(s: Store, secret: Key, id: Id, fromName: Bytes, m: Message, now: Int64, db: Db)
    requires id in s.rows && id !in s.cache && Damaged(s.rows[id], secret)
    ensures GetStep(s, secret, id).1 == Failed
    ensures var (t, r) := DeleteStep(s, secret, id, db);
      t.files == s.files && t.rows == (if db.rowOk then s.rows - {id} else s.rows) && (r.Ok? <==> db.rowOk)
    ensures db.rowOk && Encodable(m.(updatedAt := now)) ==>
      var (t, r) := UpdateStep(s, secret, id, fromName, m, now, db);
      r == Ok(()) && GetStep(t, secret, id).1 == Ok(m.(id := id, updatedAt := now))
  {
    hide DecodeMessage, MessageBytes, Encodable, SearchText;
    var cell := s.rows[id];
    if cell.secret == secret {
      var x: Message, k: nat :| Encodable(x) && k < |MessageBytes(x)| && cell.plain == MessageBytes(x)[..k];
      StrictPrefixRejected(x, k);
    }
    if Encodable(m.(updatedAt := now)) {
      EncodedRowDecodes(m.(updatedAt := now));
    }
  }

  /* ---------- attachments ---------- */

  /** What `StoreAttachments` leaves of an attachment: its data moves to the file table. */
  function StoredForm(a: Attachment, drawn: Id): Attachment
    requires |a.data| < I64_LIMIT
  {
    if a.data == [] then a
    else a.(id := if a.id == NIL_ID then drawn else a.id, size := |a.data|, data := [])
  }

  predicate Sized(s: seq<Attachment>) {
    forall i :: 0 <= i < |s| ==> |s[i].data| < I64_LIMIT
  }

  function StoredForms(s: seq<Attachment>, drawn: seq<Id>): (r: seq<Attachment>)
    requires Sized(s) && |s| <= |drawn|
    ensures |r| == |s|
  {
    seq(|s|, i requires 0 <= i < |s| => StoredForm(s[i], drawn[i]))
  }

  /** The file table after storing a list of attachments in order. */
  function FilesAfter(files: map<Id, Bytes>, s: seq<Attachment>, drawn: seq<Id>): map<Id, Bytes>
    requires Sized(s) && |s| <= |drawn|
    decreases |s|
  {
    if s == [] then files else
    var k := |s| - 1;
    var before := FilesAfter(files, s[..k], drawn);
    if s[k].data == [] then before else before[StoredForm(s[k], drawn[k]).id := s[k].data]
  }

  lemma FilesAfterNone(files: map<Id, Bytes>, drawn: seq<Id>)
    ensures FilesAfter(files, [], drawn) == files
  {
  }

  lemma FilesAfterNext(files: map<Id, Bytes>, s: seq<Attachment>, drawn: seq<Id>, k: nat)
    requires Sized(s) && |s| <= |drawn| && k < |s|
    ensures FilesAfter(files, s[..k + 1], drawn) ==
            var before := FilesAfter(files, s[..k], drawn);
            if s[k].data == [] then before else before[StoredForm(s[k], drawn[k]).id := s[k].data]
  {
    assert s[..k + 1][..k] == s[..k];
  }

  /** Stored data can be read back under the identifier left in the attachment. */
  lemma {:induction false} StoredDataReadable(files: map<Id, Bytes>, s: seq<Attachment>, drawn: seq<Id>, i: nat)
    requires Sized(s) && |s| <= |drawn| && i < |s| && s[i].data != []
    requires forall j, k :: 0 <= j < k < |s| && s[j].data != [] && s[k].data != [] ==>
      StoredForm(s[j], drawn[j]).id != StoredForm(s[k], drawn[k]).id
    ensures var id := StoredForms(s, drawn)[i].id;
      id in FilesAfter(files, s, drawn) && FilesAfter(files, s, drawn)[id] == s[i].data
    decreases |s|
  {
    var k := |s| - 1;
    if i < k {
      StoredDataReadable(files, s[..k], drawn, i);
    }
  }

  /** What is left of each attachment: its data is gone and counted, under the identifier of its file. */
  lemma StoredFormIs(s: seq<Attachment>, drawn: seq<Id>, i: nat)
    requires Sized(s) && |s| <= |drawn| && i < |s|
    ensures var a, b := s[i], StoredForms(s, drawn)[i];
      && b.data == [] && b.name == a.name && b.mime == a.mime
      && (a.data == [] ==> b == a)
      && (a.data != [] ==> b.size == |a.data| && (if a.id == NIL_ID then b.id == drawn[i] else b.id == a.id))
  {
  }

  lemma {:induction false} FilesAfterKeep(files: map<Id, Bytes>, s: seq<Attachment>, drawn: seq<Id>, f: Id)
    requires Sized(s) && |s| <= |drawn|
    requires forall i :: 0 <= i < |s| ==> StoredForm(s[i], drawn[i]).id != f
    ensures f in FilesAfter(files, s, drawn) <==> f in files
    ensures f in files ==> FilesAfter(files, s, drawn)[f] == files[f]
    decreases |s|
  {
    if s != [] {
      FilesAfterKeep(files, s[..|s| - 1], drawn, f);
    }
  }

  /**
    From storing to deleting: attachments' data is stored, a message that carries the attachments
    is put and then deleted. In between the data can be read, afterwards it cannot, unless its
    file could not be deleted.
  */
  lemma StoredDataGoes(s: Store, secret: Key, atts: seq<Attachment>, drawn: seq<Id>, m: Message, name: Bytes, id: Id,
                       db: Db, db': Db, i: nat)
    requires Valid(s, secret) && Sized(atts) && |atts| <= |drawn| && i < |atts| && atts[i].data != []
    requires forall j, k :: 0 <= j < k < |atts| && atts[j].data != [] && atts[k].data != [] ==>
      StoredForm(atts[j], drawn[j]).id != StoredForm(atts[k], drawn[k]).id
    requires m.attachments == StoredForms(atts, drawn) && m.id == id != NIL_ID && Encodable(m) && db.rowOk
    ensures var with := s.(files := FilesAfter(s.files, atts, drawn));
      var put := PutStep(with, secret, name, m, id, db).0;
      var gone := DeleteStep(put, secret, id, db').0;
      var f := m.attachments[i].id;
      && f in put.files && put.files[f] == atts[i].data
      && (f !in db'.kept ==> f !in gone.files)
  {
    hide DecodeMessage, MessageBytes, Encodable, WriteRow, DeleteStep, FilesAfter, SearchText, RowsValid, CacheValid,
      Messages;
    var with := s.(files := FilesAfter(s.files, atts, drawn));
    SameRowsSameMessages(s, with, secret);
    assert Valid(with, secret) by { FilesKeepValid(s, with, secret); }
    StoredDataReadable(s.files, atts, drawn, i);
    WriteRowKeeps(with, secret, id, name, m, db);
    var put := PutStep(with, secret, name, m, id, db).0;
    assert put == WriteRow(with, secret, id, name, m, db);
    DeleteTakes(put, secret, id, db');
    assert Messages(put, secret)[id] == m;
  }

  lemma FilesKeepValid(s: Store, t: Store, secret: Key)
    requires Valid(s, secret) && t == s.(files := t.files)
    ensures Valid(t, secret)
  {
  }

  /* ---------- the store object ---------- */

  class MessageStore {
    const secret: Key
    var rows: map<Id, Cell>
    var cache: map<Id, Bytes>
    var index: map<Id, IndexRow>
    var files: map<Id, Bytes>

    ghost function State(): Store
      reads this
    {
      Store(rows, cache, index, files)
    }

    constructor (secret: Key)
      ensures this.secret == secret && State() == EMPTY
    {
      this.secret := secret;
      rows, cache, index, files := map[], map[], map[], map[];
    }

    /** `PutWithID` of the row table: a replaced row invalidates its cache entry. */
    method PutWithID(id: Id, value: Bytes, rowOk: bool) returns (ok: bool)
      modifies this`rows, this`cache
      ensures ok == rowOk
      ensures State() ==
              if ok then old(State()).(rows := old(rows)[id := Cell(secret, value)], cache := old(cache) - {id})
              else old(State())
    {
      if !rowOk {
        return false;
      }
      rows := rows[id := Cell(secret, value)];
      cache := cache - {id};
      ok := true;
    }

    method IndexAndCache(id: Id, fromName: Bytes, m: Message, plain: Bytes, indexOk: bool)
      modifies this`index, this`cache
      ensures cache == old(cache)[id := plain]
      ensures index == if indexOk then old(index)[id := IndexRow(fromName, m.to, SearchText(m))] else old(index)
    {
      var text := BuildSearchText(m);
      if indexOk {
        index := index[id := IndexRow(fromName, m.to, text)];
      }
      cache := cache[id := plain];
    }

    /** `message.Put`: the bytes are encoded before a missing identifier is drawn. */
    method Put(fromName: Bytes, m: Message, drawn: Id, db: Db) returns (r: Result<Id>)
      modifies this
      ensures (State(), r) == PutStep(old(State()), secret, fromName, m, drawn, db)
    {
      hide MessageBytes, Encodable;
      var encoded, buf := Encode(m);
      if !encoded {
        return Crashed;
      }
      var plain := buf[..];
      var id := m.id;
      if id == NIL_ID {
        id := drawn;
      }
      var ok := PutWithID(id, plain, db.rowOk);
      if !ok {
        return Failed;
      }
      IndexAndCache(id, fromName, m, plain, db.indexOk);
      assert (old(cache) - {id})[id := plain] == old(cache)[id := plain];
      r := Ok(id);
    }

    method LoadPlain(id: Id) returns (r: Result<Bytes>)
      modifies this`cache
      ensures (State(), r) == LoadStep(old(State()), secret, id)
    {
      if id in cache {
        return Ok(cache[id]);
      }
      if id !in rows || rows[id].secret != secret {
        return Failed;
      }
      cache := cache[id := rows[id].plain];
      r := Ok(rows[id].plain);
    }

    method Get(id: Id) returns (r: Result<Message>)
      modifies this`cache
      ensures (State(), r) == GetStep(old(State()), secret, id)
    {
      hide DecodeMessage, LoadStep;
      var plain := LoadPlain(id);
      match plain {
        case Failed => return Failed;
        case Crashed => return Crashed;
        case Ok(b) =>
          var m := ToMessage(b);
          match m {
            case Malformed => return Failed;
            case Panicked => return Crashed;
            case Parsed(msg, _) => return Ok(msg.(id := id));
          }
      }
    }

    method Update(id: Id, fromName: Bytes, m: Message, now: Int64, db: Db) returns (r: Result<()>)
      modifies this
      ensures (State(), r) == UpdateStep(old(State()), secret, id, fromName, m, now, db)
    {
      hide MessageBytes, Encodable, GetStep;
      var next := m;
      var existing := Get(id);
      if existing.Crashed? {
        return Crashed;
      }
      if existing.Ok? {
        next := next.(createdAt := existing.value.createdAt);
      }
      next := next.(updatedAt := now);
      var encoded, buf := Encode(next);
      if !encoded {
        return Crashed;
      }
      var plain := buf[..];
      if id !in rows {
        return Failed;
      }
      ghost var loaded := cache;
      var ok := PutWithID(id, plain, db.rowOk);
      if !ok {
        return Failed;
      }
      IndexAndCache(id, fromName, next, plain, db.indexOk);
      assert (loaded - {id})[id := plain] == loaded[id := plain];
      r := Ok(());
    }

    /** The files of a message's attachments; a failing delete is ignored. */
    method DeleteFiles(m: Message, kept: set<Id>)
      modifies this`files
      ensures files == old(files) - (AttachmentIds(m) - kept)
    {
      for i := 0 to |m.attachments|
        invariant files == old(files) - ((set a | a in m.attachments[..i] :: a.id) - kept)
      {
        assert m.attachments[..i + 1] == m.attachments[..i] + [m.attachments[i]];
        DeleteFile(m.attachments[i].id, kept);
      }
      assert m.attachments[..|m.attachments|] == m.attachments;
    }

    method Delete(id: Id, db: Db) returns (r: Result<()>)
      modifies this
      ensures (State(), r) == DeleteStep(old(State()), secret, id, db)
    {
      hide DecodeMessage, LoadStep, AttachmentIds;
      var plain := LoadPlain(id);
      if plain.Ok? {
        var m := ToMessage(plain.value);
        match m {
          case Malformed =>
          case Panicked => return Crashed;
          case Parsed(msg, _) => DeleteFiles(msg, db.kept);
        }
      }
      if !db.rowOk {
        return Failed;
      }
      rows := rows - {id};
      if db.indexOk {
        index := index - {id};
      }
      cache := cache - {id};
      r := Ok(());
    }

    /** `message.Search` over the identifiers the database returned for the query. */
    method Search(like: Like, query: Bytes, limit: int, ids: seq<Id>) returns (found: seq<Message>)
      requires ids == SelectIds(index, like, query, limit)
      modifies this`cache
      ensures (State(), found) == SearchStep(old(State()), secret, like, query, limit)
    {
      hide GetStep, SelectIds;
      found := [];
      if query == [] {
        return;
      }
      for i := 0 to |ids|
        invariant (State(), found) == Collect(old(State()), secret, ids[..i])
      {
        assert ids[..i + 1][..i] == ids[..i];
        var m := Get(ids[i]);
        if m.Ok? {
          found := found + [m.value];
        }
      }
      assert ids[..|ids|] == ids;
    }

    /** `PutWithID` of the file table. */
    method PutFile(id: Id, data: Bytes, ok: bool)
      modifies this`files
      ensures files == if ok then old(files)[id := data] else old(files)
    {
      if ok {
        files := files[id := data];
      }
    }

    method DeleteFile(id: Id, kept: set<Id>)
      modifies this`files
      ensures files == old(files) - ({id} - kept)
    {
      if id !in kept {
        files := files - {id};
      }
    }

    /** Stores attachment data in the file table and clears it in place; stops at the first failing write. */
    method StoreAttachments(atts: array<Attachment>, drawn: seq<Id>, oks: seq<bool>) returns (done: nat)
      requires Sized(atts[..]) && |drawn| == |oks| == atts.Length
      modifies this`files, atts
      ensures done <= atts.Length
      ensures done < atts.Length ==> old(atts[done]).data != [] && !oks[done]
      ensures forall i :: 0 <= i < done && old(atts[i]).data != [] ==> oks[i]
      ensures atts[..] == StoredForms(old(atts[..done]), drawn) + old(atts[done..])
      ensures files == FilesAfter(old(files), old(atts[..done]), drawn)
    {
      hide FilesAfter;
      ghost var was := atts[..];
      done := 0;
      FilesAfterNone(files, drawn);
      assert was[..0] == [];
      while done < atts.Length
        invariant done <= atts.Length
        invariant forall i :: 0 <= i < done && was[i].data != [] ==> oks[i]
        invariant forall i :: 0 <= i < atts.Length ==>
          atts[i] == if i < done then StoredForm(was[i], drawn[i]) else was[i]
        invariant files == FilesAfter(old(files), was[..done], drawn)
      {
        FilesAfterNext(old(files), was, drawn, done);
        if atts[done].data != [] {
          var id: Id := if atts[done].id == NIL_ID then drawn[done] else atts[done].id;
          if !oks[done] {
            break;
          }
          PutFile(id, atts[done].data, true);
          atts[done] := atts[done].(id := id, size := |atts[done].data|, data := []);
        }
        done := done + 1;
      }
    }
  }
}
