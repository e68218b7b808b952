/** The history store as a whole, rows, chunks, manifest and cache files, and the
    operations of `ClipboardDb` as functions on it. Nothing fails here; the steps of
    an insertion that may be cut short are in `SpoolSteps`. */
module Store {
  import opened Core
  import opened FastCdc
  import opened Ordering
  import opened Tables

  datatype Store = Store(db: Tables, cache: map<Digest, Bytes>)

  const MAX_PAYLOAD_BYTES: nat := 256 * 1024 * 1024

  // --- Rows ---

  ghost predicate UniqueHashes(rows: map<int, Row>) {
    forall a, b | a in rows && b in rows && rows[a].hash == rows[b].hash :: a == b
  }

  ghost function FindHash(rows: map<int, Row>, hash: Digest): (found: Option<int>)
    ensures found.Some? ==> found.value in rows && rows[found.value].hash == hash
    ensures found.None? ==> forall id | id in rows :: rows[id].hash != hash
  {
    if exists id :: id in rows && rows[id].hash == hash then
      var id :| id in rows && rows[id].hash == hash;
      Some(id)
    else None
  }

  /** The row a new payload gets. */
  function NewRow(w: World, mime: string, body: Body, hash: Digest, now: Time): Row {
    var parts := PartsOf(w, mime, body);
    Row(now, mime, BodyLen(body), parts.preview, parts.content, hash, parts.chunked, false)
  }

  function InsertRow(t: Tables, row: Row): Tables {
    t.(rows := t.rows[t.nextId := row], nextId := t.nextId + 1)
  }

  function AddRow(w: World, t: Tables, mime: string, body: Body, hash: Digest, now: Time): Tables {
    var added := InsertRow(t, NewRow(w, mime, body, hash, now));
    if body.InMemory? && IsChunkable(mime, |body.data|)
      then LinkAll(w, added, t.nextId, 0, Chunks(w.gear, body.data))
      else added
  }

  function TouchRow(t: Tables, id: int, now: Time): Tables {
    if id in t.rows then t.(rows := t.rows[id := t.rows[id].(timestamp := now)]) else t
  }

  datatype Upserted = Upserted(db: Tables, id: int, isImage: bool, expired: seq<Digest>)

  function HashesOf(rows: map<int, Row>, ids: seq<int>): seq<Digest>
    requires forall i | 0 <= i < |ids| :: ids[i] in rows
  {
    seq(|ids|, i requires 0 <= i < |ids| => rows[ids[i]].hash)
  }

  lemma ExpiringAreRows(w: World, rows: map<int, Row>, max: u64)
    requires BreaksTies(w)
    ensures var expiring := Expiring(w, rows, max);
      forall i | 0 <= i < |expiring| :: expiring[i] in rows && !rows[expiring[i]].pinned
  {
    var ranks := UnpinnedRanks(w, rows);
    var expiring := Expiring(w, rows, max);
    ListingIsOrdered(ranks);
    forall i | 0 <= i < |expiring|
      ensures expiring[i] in ranks
    {
      assert expiring[i] in Listing(ranks);
    }
  }

  function ExpiredHashes(w: World, rows: map<int, Row>, max: u64): seq<Digest>
    requires BreaksTies(w)
  {
    ExpiringAreRows(w, rows, max);
    HashesOf(rows, Expiring(w, rows, max))
  }

  /** Insert-or-touch by hash, before rotation. */
  ghost function Place(w: World, t: Tables, mime: string, body: Body, hash: Digest, now: Time): (Tables, int) {
    match FindHash(t.rows, hash)
    case Some(id) => (TouchRow(t, id, now), id)
    case None => (AddRow(w, t, mime, body, hash, now), t.nextId)
  }

  /** `upsert`: one transaction. */
  ghost function Upsert(w: World, t: Tables, mime: string, body: Body, hash: Digest, max: u64, now: Time): Upserted
    requires BreaksTies(w)
  {
    var (placed, id) := Place(w, t, mime, body, hash, now);
    Upserted(Rotate(w, placed, max), id, IsCacheClass(mime), ExpiredHashes(w, placed.rows, max))
  }

  // --- Facade ---

  function StoreFile(cache: map<Digest, Bytes>, hash: Digest, data: Bytes): map<Digest, Bytes> {
    if hash in cache then cache else cache[hash := data]
  }

  function RemoveMany(cache: map<Digest, Bytes>, hashes: seq<Digest>): map<Digest, Bytes> {
    cache - set h | h in hashes
  }

  /** `insert_with_hash`; `-1` is the answer for a payload that is not stored. */
  ghost function InsertWithHash(w: World, s: Store, mime: string, data: Bytes, hash: Digest, max: u64,
                                now: Time): (Store, int)
    requires BreaksTies(w)
  {
    if IsSkipped(mime, |data|) then (s, -1) else
      var u := Upsert(w, s.db, mime, InMemory(data), hash, max, now);
      var cache := if u.isImage then StoreFile(s.cache, hash, data) else s.cache;
      (Store(u.db, RemoveMany(cache, u.expired)), u.id)
  }

  /** `insert_spooled` of a spool file holding `data` under its true digest, when
      nothing fails; `None` is its error for an inline payload above the limit. */
  ghost function InsertSpooled(w: World, s: Store, mime: string, data: Bytes, max: u64, now: Time): (Store, Option<int>)
    requires BreaksTies(w)
  {
    var hash := w.sha(data);
    if IsSkipped(mime, |data|) then (s, Some(-1))
    else if !IsDetachable(w, mime) then
      if |data| > MAX_PAYLOAD_BYTES then (s, None) else
        var (s', id) := InsertWithHash(w, s, mime, data, hash, max, now);
        (s', Some(id))
    else
      var u := Upsert(w, s.db, mime, Detached(|data|), hash, max, now);
      (Store(u.db, RemoveMany(StoreFile(s.cache, hash, data), u.expired)), Some(u.id))
  }

  /** `reassemble`: the joined bytes, unless they disagree with the recorded size. */
  function Reassemble(t: Tables, id: int, size: nat): Option<Bytes> {
    if |Joined(t, id)| == size then Some(Joined(t, id)) else None
  }

  /** `get_content_by_id`. */
  function GetContent(s: Store, id: int): Option<(string, Bytes)> {
    if id !in s.db.rows then None else
      var row := s.db.rows[id];
      if row.chunked then
        match Reassemble(s.db, id, row.size)
        case Some(bytes) => Some((row.mime, bytes))
        case None => None
      else if !row.content.Null? then Some((row.mime, row.content.bytes))
      else if row.hash in s.cache then Some((row.mime, s.cache[row.hash]))
      else None
  }

  /** Where a payload lives: in the database, or in the cache file of a hash. */
  datatype Location = InDatabase(id: int) | CacheFile(hash: Digest)

  /** `locate_content`. */
  function LocateContent(s: Store, id: int): Option<(string, Location)> {
    if id !in s.db.rows then None else
      var row := s.db.rows[id];
      Some((row.mime, if !row.content.Null? || row.chunked then InDatabase(id) else CacheFile(row.hash)))
  }

  function DeleteById(s: Store, id: int): Store {
    if id !in s.db.rows then s else
      var released := if s.db.rows[id].chunked then Release(s.db, id) else s.db;
      Store(released.(rows := released.rows - {id}), s.cache - {s.db.rows[id].hash})
  }

  function Wipe(s: Store): Store {
    Store(Tables(map[], map[], map[], s.db.nextId), map[])
  }

  function SetPinned(s: Store, id: int, pinned: bool): Store {
    if id in s.db.rows then s.(db := s.db.(rows := s.db.rows[id := s.db.rows[id].(pinned := pinned)])) else s
  }

  function UpdateTimestamp(s: Store, id: int, now: Time): Store {
    s.(db := TouchRow(s.db, id, now))
  }

  // --- The tables' own invariant, whatever the hash function does ---

  ghost predicate Sound(t: Tables) {
    && Accounted(t)
    && UniqueHashes(t.rows)
    && 0 < t.nextId
    && forall id | id in t.rows :: 0 < id < t.nextId
  }

  lemma ManifestOfNewId(t: Tables)
    requires Sound(t)
    ensures forall k | k in t.manifest :: k.id != t.nextId
  {
  }

  lemma InsertRowIsSound(t: Tables, row: Row)
    requires Sound(t) && forall id | id in t.rows :: t.rows[id].hash != row.hash
    ensures Sound(InsertRow(t, row))
  {
    ManifestOfNewId(t);
  }

  lemma AddRowIsSound(w: World, t: Tables, mime: string, body: Body, hash: Digest, now: Time)
    requires Sound(t) && FindHash(t.rows, hash).None?
    ensures Sound(AddRow(w, t, mime, body, hash, now))
  {
    var added := InsertRow(t, NewRow(w, mime, body, hash, now));
    InsertRowIsSound(t, NewRow(w, mime, body, hash, now));
    if body.InMemory? && IsChunkable(mime, |body.data|) {
      ManifestOfNewId(t);
      LinkAllKeepsAccounts(w, added, t.nextId, 0, Chunks(w.gear, body.data));
    }
  }

  lemma PlaceIsSound(w: World, t: Tables, mime: string, body: Body, hash: Digest, now: Time)
    requires Sound(t)
    ensures Sound(Place(w, t, mime, body, hash, now).0)
  {
    if FindHash(t.rows, hash).None? {
      AddRowIsSound(w, t, mime, body, hash, now);
    }
  }

  lemma RotateIsSound(w: World, t: Tables, max: u64)
    requires Sound(t) && BreaksTies(w)
    ensures Sound(Rotate(w, t, max))
  {
    ReleaseAllKeepsAccounts(t, Expiring(w, t.rows, max));
  }

  lemma DropRowIsSound(t: Tables, id: int)
    requires Sound(t) && forall k | k in t.manifest :: k.id != id
    ensures Sound(t.(rows := t.rows - {id}))
  {
  }

  lemma ReleaseIsSound(t: Tables, id: int)
    requires Sound(t)
    ensures Sound(Release(t, id))
    ensures Release(t, id).rows == t.rows && Release(t, id).nextId == t.nextId
    ensures forall k | k in Release(t, id).manifest :: k.id != id
  {
    ReleaseKeepsAccounts(t, id);
  }

  lemma DeleteIsSound(s: Store, id: int)
    requires Sound(s.db)
    ensures Sound(DeleteById(s, id).db)
  {
    if id in s.db.rows {
      if s.db.rows[id].chunked {
        ReleaseIsSound(s.db, id);
        DropRowIsSound(Release(s.db, id), id);
      } else {
        DropRowIsSound(s.db, id);
      }
    }
  }
}
