/** What the store is for: a plain map from id to payload. Every operation of the
    store, and so every run, refines the obvious operation on that map. */
module History {
  import opened Core
  import opened FastCdc
  import opened Ordering
  import opened Tables
  import opened Store

  datatype Entry = Entry(mime: string, bytes: Bytes, timestamp: Time, pinned: bool)

  datatype History = History(entries: map<int, Entry>, nextId: int)

  const BLANK: History := History(map[], 1)

  // --- The plain map ---

  ghost function FindBytes(entries: map<int, Entry>, bytes: Bytes): (found: Option<int>)
    ensures found.Some? ==> found.value in entries && entries[found.value].bytes == bytes
    ensures found.None? ==> forall id | id in entries :: entries[id].bytes != bytes
  {
    if exists id :: id in entries && entries[id].bytes == bytes then
      var id :| id in entries && entries[id].bytes == bytes;
      Some(id)
    else None
  }

  function Unpinned(w: World, entries: map<int, Entry>): Ranks {
    map id | id in entries && !entries[id].pinned :: (-entries[id].timestamp, w.tie(id))
  }

  function Evict(w: World, h: History, max: u64): History
    requires BreaksTies(w)
  {
    var listed := Listing(Unpinned(w, h.entries));
    h.(entries := h.entries - Members(listed[Min(Offset(max), |listed|)..]))
  }

  function Touch(h: History, id: int, now: Time): History {
    if id in h.entries then h.(entries := h.entries[id := h.entries[id].(timestamp := now)]) else h
  }

  function Add(h: History, mime: string, bytes: Bytes, now: Time): History {
    History(h.entries[h.nextId := Entry(mime, bytes, now, false)], h.nextId + 1)
  }

  /** Remember a payload once, newest on top, within the quota. */
  ghost function Remember(w: World, h: History, mime: string, bytes: Bytes, max: u64, now: Time): (History, int)
    requires BreaksTies(w)
  {
    if IsSkipped(mime, |bytes|) then (h, -1) else
      match FindBytes(h.entries, bytes)
      case Some(id) => (Evict(w, Touch(h, id, now), max), id)
      case None => (Evict(w, Add(h, mime, bytes, now), max), h.nextId)
  }

  function Forget(h: History, id: int): History {
    h.(entries := h.entries - {id})
  }

  function Pin(h: History, id: int, pinned: bool): History {
    if id in h.entries then h.(entries := h.entries[id := h.entries[id].(pinned := pinned)]) else h
  }

  // --- Refinement ---

  /** SHA3-256 has no collision among the strings of `known`. */
  ghost predicate NoCollision(w: World, known: set<Bytes>) {
    forall a, b | a in known && b in known && w.sha(a) == w.sha(b) :: a == b
  }

  /** The manifest of row `id` lists exactly these pieces, in order. */
  ghost predicate Manifested(w: World, manifest: map<Slot, Digest>, id: int, pieces: seq<Bytes>) {
    && (forall i :: Slot(id, i) in manifest <==> 0 <= i < |pieces|)
    && (forall i | 0 <= i < |pieces| :: manifest[Slot(id, i)] == w.sha(pieces[i]))
  }

  ghost predicate AllKnown(pieces: seq<Bytes>, known: set<Bytes>) {
    forall i | 0 <= i < |pieces| :: pieces[i] in known
  }

  /** A payload and its chunks are among the known strings. */
  ghost predicate Known(w: World, known: set<Bytes>, bytes: Bytes) {
    bytes in known && AllKnown(Chunks(w.gear, bytes), known)
  }

  ghost predicate RowHolds(w: World, known: set<Bytes>, manifest: map<Slot, Digest>, id: int, row: Row, e: Entry) {
    && row.mime == e.mime && row.timestamp == e.timestamp && row.pinned == e.pinned
    && row.hash == w.sha(e.bytes) && row.size == |e.bytes| && Known(w, known, e.bytes)
    && (if row.chunked then Manifested(w, manifest, id, Chunks(w.gear, e.bytes))
        else if row.content.Null? then IsCacheClass(row.mime)
        else row.content.bytes == e.bytes)
  }

  /** Stored data is known and filed under its own hash. */
  ghost predicate GenuineChunks(w: World, known: set<Bytes>, chunks: map<Digest, Chunk>) {
    forall h | h in chunks :: chunks[h].data in known && w.sha(chunks[h].data) == h
  }

  ghost predicate GenuineFiles(w: World, known: set<Bytes>, cache: map<Digest, Bytes>) {
    forall h | h in cache :: cache[h] in known && w.sha(cache[h]) == h
  }

  ghost predicate TablesHold(w: World, known: set<Bytes>, t: Tables, h: History) {
    && Sound(t)
    && GenuineChunks(w, known, t.chunks)
    && t.nextId == h.nextId && t.rows.Keys == h.entries.Keys
    && forall id | id in t.rows :: RowHolds(w, known, t.manifest, id, t.rows[id], h.entries[id])
  }

  predicate IsDetached(row: Row) {
    row.content.Null? && !row.chunked
  }

  /** Every detached row has its file. */
  ghost predicate NoneDangling(rows: map<int, Row>, cache: map<Digest, Bytes>) {
    forall id | id in rows && IsDetached(rows[id]) :: rows[id].hash in cache
  }

  /** Every file belongs to a live row. */
  ghost predicate NoneOrphaned(rows: map<int, Row>, cache: map<Digest, Bytes>) {
    forall h | h in cache :: exists id :: id in rows && rows[id].hash == h
  }

  /** What crashes have left behind: files no row names, and payloads whose file was
      cut off before or while it was written. */
  datatype Damage = Damage(strays: bool, spoiled: set<Digest>)

  const UNHARMED: Damage := Damage(false, {})

  /** A file holds the payload its name stands for. */
  ghost predicate Genuine(w: World, known: set<Bytes>, hash: Digest, file: Bytes) {
    file in known && w.sha(file) == hash
  }

  /** A file holds the beginning of that payload. */
  ghost predicate Truncated(w: World, known: set<Bytes>, hash: Digest, file: Bytes) {
    exists full :: full in known && w.sha(full) == hash && file <= full
  }

  /** The files fit the rows, except where there is damage. */
  ghost predicate FilesHold(w: World, known: set<Bytes>, damage: Damage, rows: map<int, Row>,
                            cache: map<Digest, Bytes>) {
    && (forall h | h in cache ::
         Genuine(w, known, h, cache[h]) || (h in damage.spoiled && Truncated(w, known, h, cache[h])))
    && (forall id | id in rows && IsDetached(rows[id]) && rows[id].hash !in damage.spoiled :: rows[id].hash in cache)
    && (!damage.strays ==> NoneOrphaned(rows, cache))
  }

  /** The refinement relation. */
  ghost predicate Refines(w: World, known: set<Bytes>, damage: Damage, s: Store, h: History) {
    TablesHold(w, known, s.db, h) && FilesHold(w, known, damage, s.db.rows, s.cache)
  }

  lemma UnharmedFiles(w: World, known: set<Bytes>, rows: map<int, Row>, cache: map<Digest, Bytes>)
    ensures FilesHold(w, known, UNHARMED, rows, cache) <==>
      GenuineFiles(w, known, cache) && NoneDangling(rows, cache) && NoneOrphaned(rows, cache)
  {
  }

  // --- Reading back ---

  lemma OrderIsCounting(w: World, t: Tables, id: int, pieces: seq<Bytes>)
    requires Manifested(w, t.manifest, id, pieces)
    ensures var order := OrderedSeqnos(t, id);
      |order| == |pieces| && forall i | 0 <= i < |order| :: order[i] == i
  {
    var ranks := map s | s in SeqnosOf(t, id) :: (s, 0);
    forall s
      ensures s in ranks <==> 0 <= s < |pieces|
    {
      if 0 <= s < |pieces| {
        assert Slot(id, s) in t.manifest;
      }
      if s in SeqnosOf(t, id) {
        var k :| k in t.manifest && k.id == id && k.seqno == s;
        assert k == Slot(id, s);
      }
    }
    assert ranks.Keys == Range(|pieces|);
    ListingOfRange(ranks, |pieces|);
  }

  // The chunk filed under a known piece's hash is that piece.
  lemma DataIsPiece(w: World, known: set<Bytes>, t: Tables, id: int, pieces: seq<Bytes>, i: nat)
    requires NoCollision(w, known) && GenuineChunks(w, known, t.chunks) && Counted(t.chunks, t.manifest)
    requires AllKnown(pieces, known) && Manifested(w, t.manifest, id, pieces) && i < |pieces|
    ensures DataAt(t, Slot(id, i)) == pieces[i]
  {
    assert t.manifest[Slot(id, i)] in t.chunks;
  }

  lemma JoinedIsPieces(w: World, known: set<Bytes>, t: Tables, id: int, pieces: seq<Bytes>)
    requires NoCollision(w, known) && GenuineChunks(w, known, t.chunks) && Counted(t.chunks, t.manifest)
    requires AllKnown(pieces, known) && Manifested(w, t.manifest, id, pieces)
    ensures Joined(t, id) == Flatten(pieces)
  {
    OrderIsCounting(w, t, id, pieces);
    var order := OrderedSeqnos(t, id);
    forall i | 0 <= i < |pieces|
      ensures PiecesAt(t, id, order)[i] == pieces[i]
    {
      DataIsPiece(w, known, t, id, pieces, i);
    }
    assert PiecesAt(t, id, order) == pieces;
  }

  /** A row that crashes may have robbed of its file. */
  predicate Spoiled(damage: Damage, row: Row) {
    IsDetached(row) && row.hash in damage.spoiled
  }

  /** The weaker relation a reader needs, which even a half-done insertion keeps: the
      tables hold, and each detached row's file is its payload. */
  ghost predicate Readable(w: World, known: set<Bytes>, damage: Damage, s: Store, h: History) {
    && TablesHold(w, known, s.db, h)
    && forall id | id in s.db.rows && IsDetached(s.db.rows[id]) && !Spoiled(damage, s.db.rows[id]) ::
         s.db.rows[id].hash in s.cache && s.cache[s.db.rows[id].hash] == h.entries[id].bytes
  }

  lemma RefinedIsReadable(w: World, known: set<Bytes>, damage: Damage, s: Store, h: History)
    requires NoCollision(w, known) && Refines(w, known, damage, s, h)
    ensures Readable(w, known, damage, s, h)
  {
    forall id | id in s.db.rows && IsDetached(s.db.rows[id]) && !Spoiled(damage, s.db.rows[id])
      ensures s.db.rows[id].hash in s.cache && s.cache[s.db.rows[id].hash] == h.entries[id].bytes
    {
      assert RowHolds(w, known, s.db.manifest, id, s.db.rows[id], h.entries[id]);
    }
  }

  /** What the plain map answers. */
  function Lookup(h: History, id: int): Option<(string, Bytes)> {
    if id in h.entries then Some((h.entries[id].mime, h.entries[id].bytes)) else None
  }

  /** `get_content_by_id` answers from the plain map. */
  lemma ContentIsEntry(w: World, known: set<Bytes>, damage: Damage, s: Store, h: History, id: int)
    requires NoCollision(w, known) && Readable(w, known, damage, s, h)
    requires id in s.db.rows ==> !Spoiled(damage, s.db.rows[id])
    ensures GetContent(s, id) == Lookup(h, id)
  {
    if id in s.db.rows {
      assert RowHolds(w, known, s.db.manifest, id, s.db.rows[id], h.entries[id]);
      if s.db.rows[id].chunked {
        JoinedIsPieces(w, known, s.db, id, Chunks(w.gear, h.entries[id].bytes));
        ChunksTile(w.gear, h.entries[id].bytes);
      }
    }
  }

  /** And a row whose file was cut off shows nothing, or the beginning of its payload,
      never anything else. */
  lemma SpoiledContentIsPrefix(w: World, known: set<Bytes>, damage: Damage, s: Store, h: History, id: int)
    requires NoCollision(w, known) && Refines(w, known, damage, s, h)
    requires id in s.db.rows && Spoiled(damage, s.db.rows[id])
    ensures GetContent(s, id).None? ||
      (GetContent(s, id).value.0 == h.entries[id].mime && GetContent(s, id).value.1 <= h.entries[id].bytes)
  {
    assert RowHolds(w, known, s.db.manifest, id, s.db.rows[id], h.entries[id]);
    var hash := s.db.rows[id].hash;
    if hash in s.cache && !Genuine(w, known, hash, s.cache[hash]) {
      var full :| full in known && w.sha(full) == hash && s.cache[hash] <= full;
    }
  }

  /** `locate_content` points at the very bytes: a detached row's are in the file of its
      own hash, which is there and holds the payload, so it may be sent without being read
      first; all others are in the database. */
  lemma LocatedFileIsPayload(w: World, known: set<Bytes>, damage: Damage, s: Store, h: History, id: int)
    requires NoCollision(w, known) && Readable(w, known, damage, s, h)
    requires id in s.db.rows ==> !Spoiled(damage, s.db.rows[id])
    ensures LocateContent(s, id).Some? <==> id in h.entries
    ensures id in s.db.rows ==>
      LocateContent(s, id).value.1
        == if IsDetached(s.db.rows[id]) then CacheFile(w.sha(h.entries[id].bytes)) else InDatabase(id)
    ensures id in h.entries ==>
      match LocateContent(s, id).value
      case (mime, InDatabase(_)) => mime == h.entries[id].mime
      case (mime, CacheFile(hash)) =>
        mime == h.entries[id].mime && hash in s.cache && s.cache[hash] == h.entries[id].bytes
  {
    if id in s.db.rows {
      assert RowHolds(w, known, s.db.manifest, id, s.db.rows[id], h.entries[id]);
    }
  }

  /** The text a search matches against: the content column, or the chunks of a
      chunked row put together in order. */
  function SearchBody(t: Tables, id: int): Option<Bytes>
    requires id in t.rows
  {
    if t.rows[id].chunked then Some(Joined(t, id))
    else if t.rows[id].content.Null? then None
    else Some(t.rows[id].content.bytes)
  }

  /** Outside the cache class a search sees the whole payload, so a keyword that
      straddles a chunk boundary is still found. */
  lemma SearchSeesThePayload(w: World, known: set<Bytes>, t: Tables, h: History, id: int)
    requires NoCollision(w, known) && TablesHold(w, known, t, h) && id in t.rows
    ensures SearchBody(t, id) == Some(h.entries[id].bytes)
      || (SearchBody(t, id) == None && IsCacheClass(h.entries[id].mime))
  {
    assert RowHolds(w, known, t.manifest, id, t.rows[id], h.entries[id]);
    if t.rows[id].chunked {
      JoinedIsPieces(w, known, t, id, Chunks(w.gear, h.entries[id].bytes));
      ChunksTile(w.gear, h.entries[id].bytes);
    }
  }
}
