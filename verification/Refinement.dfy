/** Step by step: each operation of the store refines its counterpart on the plain
    map, and hence so does every run. */
module Refinement {
  import opened Core
  import opened FastCdc
  import opened Tables
  import opened Store
  import opened History

  // --- What linking and releasing do to the manifest ---

  // What linking does to one manifest entry.
  lemma {:induction false} LinkAllAt(w: World, t: Tables, id: int, seqno: int, pieces: seq<Bytes>, k: Slot)
    ensures var m := LinkAll(w, t, id, seqno, pieces).manifest;
      if k.id == id && seqno <= k.seqno < seqno + |pieces|
        then k in m && m[k] == w.sha(pieces[k.seqno - seqno])
        else (k in m <==> k in t.manifest) && (k in m ==> m[k] == t.manifest[k])
    decreases |pieces|
  {
    if pieces != [] {
      var t1 := Link(w, t, id, seqno, pieces[0]);
      LinkAllAt(w, t1, id, seqno + 1, pieces[1..], k);
    }
  }

  lemma {:induction false} LinkAllIsGenuine(w: World, known: set<Bytes>, t: Tables, id: int, seqno: int,
                                            pieces: seq<Bytes>)
    requires GenuineChunks(w, known, t.chunks) && AllKnown(pieces, known)
    ensures GenuineChunks(w, known, LinkAll(w, t, id, seqno, pieces).chunks)
    decreases |pieces|
  {
    if pieces != [] {
      assert pieces[0] in known;
      forall i | 0 <= i < |pieces[1..]|
        ensures pieces[1..][i] in known
      {
        assert pieces[1..][i] == pieces[i + 1];
      }
      LinkAllIsGenuine(w, known, Link(w, t, id, seqno, pieces[0]), id, seqno + 1, pieces[1..]);
    }
  }

  ghost predicate SameManifest(m: map<Slot, Digest>, m': map<Slot, Digest>, id: int) {
    forall i :: (Slot(id, i) in m <==> Slot(id, i) in m') && (Slot(id, i) in m ==> m[Slot(id, i)] == m'[Slot(id, i)])
  }

  ghost predicate SubsetOfChunks(c': map<Digest, Chunk>, c: map<Digest, Chunk>) {
    forall h | h in c' :: h in c && c'[h].data == c[h].data
  }

  lemma {:induction false} ReleaseAllFrame(t: Tables, ids: seq<int>, other: int)
    requires other !in ids
    ensures SameManifest(t.manifest, ReleaseAll(t, ids).manifest, other)
    ensures SubsetOfChunks(ReleaseAll(t, ids).chunks, t.chunks)
    decreases |ids|
  {
    if ids != [] {
      ReleaseAllFrame(if ids[0] in t.rows && t.rows[ids[0]].chunked then Release(t, ids[0]) else t, ids[1..], other);
    }
  }

  lemma RowHoldsFrame(w: World, known: set<Bytes>, m: map<Slot, Digest>, m': map<Slot, Digest>, id: int, row: Row,
                      e: Entry)
    requires RowHolds(w, known, m, id, row, e) && SameManifest(m, m', id)
    ensures RowHolds(w, known, m', id, row, e)
  {
    if row.chunked {
      var pieces := Chunks(w.gear, e.bytes);
      forall i
        ensures Slot(id, i) in m' <==> 0 <= i < |pieces|
      {
        assert Slot(id, i) in m <==> 0 <= i < |pieces|;
      }
      forall i | 0 <= i < |pieces|
        ensures m'[Slot(id, i)] == w.sha(pieces[i])
      {
        assert m[Slot(id, i)] == w.sha(pieces[i]);
      }
    }
  }

  // --- Tables ---

  lemma ReplaceIsSound(t: Tables, id: int, row: Row)
    requires Sound(t) && id in t.rows && row.hash == t.rows[id].hash && row.chunked == t.rows[id].chunked
    ensures Sound(t.(rows := t.rows[id := row]))
  {
    var rows := t.rows[id := row];
    assert forall k | k in rows ::
      k in t.rows && rows[k].hash == t.rows[k].hash && rows[k].chunked == t.rows[k].chunked;
  }

  // Replacing a row by one that still holds its entry.
  lemma ReplaceHolds(w: World, known: set<Bytes>, t: Tables, h: History, id: int, row: Row, e: Entry)
    requires TablesHold(w, known, t, h) && id in t.rows
    requires row.hash == t.rows[id].hash && row.chunked == t.rows[id].chunked
    requires RowHolds(w, known, t.manifest, id, row, e)
    ensures TablesHold(w, known, t.(rows := t.rows[id := row]), h.(entries := h.entries[id := e]))
  {
    var t', h' := t.(rows := t.rows[id := row]), h.(entries := h.entries[id := e]);
    ReplaceIsSound(t, id, row);
    forall k | k in t'.rows
      ensures RowHolds(w, known, t'.manifest, k, t'.rows[k], h'.entries[k])
    {
      assert k != id ==> RowHolds(w, known, t.manifest, k, t.rows[k], h.entries[k]);
    }
  }

  lemma TouchHolds(w: World, known: set<Bytes>, t: Tables, h: History, id: int, now: Time)
    requires TablesHold(w, known, t, h)
    ensures TablesHold(w, known, TouchRow(t, id, now), Touch(h, id, now))
  {
    if id in t.rows {
      ReplaceHolds(w, known, t, h, id, t.rows[id].(timestamp := now), h.entries[id].(timestamp := now));
    }
  }

  lemma PinHolds(w: World, known: set<Bytes>, s: Store, h: History, id: int, pinned: bool)
    requires TablesHold(w, known, s.db, h)
    ensures TablesHold(w, known, SetPinned(s, id, pinned).db, Pin(h, id, pinned))
  {
    if id in s.db.rows {
      ReplaceHolds(w, known, s.db, h, id, s.db.rows[id].(pinned := pinned), h.entries[id].(pinned := pinned));
    }
  }

  // Linking the chunks of one row leaves the manifests of the others as they were.
  lemma LinkedFrame(w: World, t: Tables, added: int, pieces: seq<Bytes>, id: int)
    requires id != added
    ensures SameManifest(t.manifest, LinkAll(w, t, added, 0, pieces).manifest, id)
  {
    var m := LinkAll(w, t, added, 0, pieces).manifest;
    forall i
      ensures var k := Slot(id, i); (k in m <==> k in t.manifest) && (k in m ==> m[k] == t.manifest[k])
    {
      LinkAllAt(w, t, added, 0, pieces, Slot(id, i));
    }
  }

  // Adding a row leaves the other rows and their manifests as they were.
  lemma AddFrame(w: World, known: set<Bytes>, t: Tables, mime: string, body: Body, hash: Digest, now: Time)
    requires Sound(t) && FindHash(t.rows, hash).None? && GenuineChunks(w, known, t.chunks)
    requires body.InMemory? ==> AllKnown(Chunks(w.gear, body.data), known)
    ensures var t' := AddRow(w, t, mime, body, hash, now);
      && t'.rows == t.rows[t.nextId := NewRow(w, mime, body, hash, now)] && t'.nextId == t.nextId + 1
      && GenuineChunks(w, known, t'.chunks)
      && forall id | id in t.rows :: SameManifest(t.manifest, t'.manifest, id)
  {
    if body.InMemory? && IsChunkable(mime, |body.data|) {
      var added := InsertRow(t, NewRow(w, mime, body, hash, now));
      var pieces := Chunks(w.gear, body.data);
      ManifestOfNewId(t);
      InsertRowIsSound(t, NewRow(w, mime, body, hash, now));
      LinkAllKeepsAccounts(w, added, t.nextId, 0, pieces);
      LinkAllIsGenuine(w, known, added, t.nextId, 0, pieces);
      forall id | id in t.rows
        ensures SameManifest(t.manifest, LinkAll(w, added, t.nextId, 0, pieces).manifest, id)
      {
        LinkedFrame(w, added, t.nextId, pieces, id);
      }
    }
  }

  lemma NewRowHolds(w: World, known: set<Bytes>, t: Tables, mime: string, body: Body, data: Bytes, now: Time)
    requires Sound(t) && Known(w, known, data)
    requires body == InMemory(data) || (body == Detached(|data|) && IsDetachable(w, mime))
    ensures RowHolds(w, known, AddRow(w, t, mime, body, w.sha(data), now).manifest, t.nextId,
                     NewRow(w, mime, body, w.sha(data), now), Entry(mime, data, now, false))
  {
    if body.InMemory? && IsChunkable(mime, |data|) {
      var added := InsertRow(t, NewRow(w, mime, body, w.sha(data), now));
      var pieces := Chunks(w.gear, data);
      var m := LinkAll(w, added, t.nextId, 0, pieces).manifest;
      ManifestOfNewId(t);
      forall i
        ensures Slot(t.nextId, i) in m <==> 0 <= i < |pieces|
        ensures 0 <= i < |pieces| ==> m[Slot(t.nextId, i)] == w.sha(pieces[i])
      {
        LinkAllAt(w, added, t.nextId, 0, pieces, Slot(t.nextId, i));
      }
      assert Manifested(w, m, t.nextId, pieces);
    }
  }

  lemma AddHolds(w: World, known: set<Bytes>, t: Tables, h: History, mime: string, body: Body, data: Bytes, now: Time)
    requires TablesHold(w, known, t, h) && Known(w, known, data) && FindHash(t.rows, w.sha(data)).None?
    requires body == InMemory(data) || (body == Detached(|data|) && IsDetachable(w, mime))
    ensures TablesHold(w, known, AddRow(w, t, mime, body, w.sha(data), now), Add(h, mime, data, now))
  {
    var t', h' := AddRow(w, t, mime, body, w.sha(data), now), Add(h, mime, data, now);
    AddFrame(w, known, t, mime, body, w.sha(data), now);
    AddRowIsSound(w, t, mime, body, w.sha(data), now);
    NewRowHolds(w, known, t, mime, body, data, now);
    forall id | id in t'.rows
      ensures RowHolds(w, known, t'.manifest, id, t'.rows[id], h'.entries[id])
    {
      if id != t.nextId {
        RowHoldsFrame(w, known, t.manifest, t'.manifest, id, t.rows[id], h.entries[id]);
      }
    }
  }

  lemma SameRanks(w: World, known: set<Bytes>, t: Tables, h: History)
    requires TablesHold(w, known, t, h)
    ensures UnpinnedRanks(w, t.rows) == Unpinned(w, h.entries)
  {
    forall id | id in t.rows
      ensures t.rows[id].pinned == h.entries[id].pinned && t.rows[id].timestamp == h.entries[id].timestamp
    {
      assert RowHolds(w, known, t.manifest, id, t.rows[id], h.entries[id]);
    }
  }

  lemma DropIsSound(t: Tables, ids: seq<int>)
    requires Sound(t)
    ensures Sound(Drop(t, ids)) && Drop(t, ids).rows == t.rows - Members(ids) && Drop(t, ids).nextId == t.nextId
  {
    ReleaseAllKeepsAccounts(t, ids);
  }

  // Rows that go take nothing of the others with them.
  lemma DropHolds(w: World, known: set<Bytes>, t: Tables, h: History, ids: seq<int>)
    requires TablesHold(w, known, t, h)
    ensures TablesHold(w, known, Drop(t, ids), h.(entries := h.entries - Members(ids)))
  {
    var t', h' := Drop(t, ids), h.(entries := h.entries - Members(ids));
    DropIsSound(t, ids);
    ReleaseAllKeepsGenuine(w, known, t, ids);
    assert t'.rows.Keys == t.rows.Keys - Members(ids);
    assert h'.entries.Keys == h.entries.Keys - Members(ids);
    forall id | id in t'.rows
      ensures RowHolds(w, known, t'.manifest, id, t'.rows[id], h'.entries[id])
    {
      ReleaseAllFrame(t, ids, id);
      RowHoldsFrame(w, known, t.manifest, t'.manifest, id, t.rows[id], h.entries[id]);
    }
  }

  lemma EvictHolds(w: World, known: set<Bytes>, t: Tables, h: History, max: u64)
    requires TablesHold(w, known, t, h) && BreaksTies(w)
    ensures TablesHold(w, known, Rotate(w, t, max), Evict(w, h, max))
    ensures Rotate(w, t, max).rows == t.rows - Members(Expiring(w, t.rows, max))
  {
    SameRanks(w, known, t, h);
    DropHolds(w, known, t, h, Expiring(w, t.rows, max));
    DropIsSound(t, Expiring(w, t.rows, max));
  }

  lemma ForgetHolds(w: World, known: set<Bytes>, s: Store, h: History, id: int)
    requires TablesHold(w, known, s.db, h)
    ensures TablesHold(w, known, DeleteById(s, id).db, Forget(h, id))
    ensures DeleteById(s, id).db.rows == s.db.rows - {id}
  {
    assert Members([id]) == {id};
    if id in s.db.rows {
      assert DeleteById(s, id).db == Drop(s.db, [id]) by {
        DeleteIsDrop(s, id);
      }
      DropHolds(w, known, s.db, h, [id]);
      DropIsSound(s.db, [id]);
    } else {
      assert s.db.rows - {id} == s.db.rows && h.entries - {id} == h.entries;
    }
  }

  lemma DeleteIsDrop(s: Store, id: int)
    requires id in s.db.rows
    ensures DeleteById(s, id).db == Drop(s.db, [id])
  {
    var t := if s.db.rows[id].chunked then Release(s.db, id) else s.db;
    assert [id][1..] == [];
    assert ReleaseAll(s.db, [id]) == ReleaseAll(t, []);
    assert Members([id]) == {id};
  }

  lemma {:induction false} ReleaseAllKeepsGenuine(w: World, known: set<Bytes>, t: Tables, ids: seq<int>)
    requires GenuineChunks(w, known, t.chunks)
    ensures GenuineChunks(w, known, ReleaseAll(t, ids).chunks)
    decreases |ids|
  {
    if ids != [] {
      var t1 := if ids[0] in t.rows && t.rows[ids[0]].chunked then Release(t, ids[0]) else t;
      ReleaseAllKeepsGenuine(w, known, t1, ids[1..]);
    }
  }

  // --- Cache files ---

  // Removing the files of some rows takes no other row's file.
  lemma HashesOfOthers(rows: map<int, Row>, ids: seq<int>, id: int)
    requires UniqueHashes(rows) && (forall i | 0 <= i < |ids| :: ids[i] in rows)
    requires id in rows && id !in ids
    ensures rows[id].hash !in HashesOf(rows, ids)
  {
    var hashes := HashesOf(rows, ids);
    forall i | 0 <= i < |hashes|
      ensures hashes[i] != rows[id].hash
    {
      assert ids[i] in ids && ids[i] != id && hashes[i] == rows[ids[i]].hash;
    }
  }

  lemma NoneLeftOrphaned(rows: map<int, Row>, ids: seq<int>, cache: map<Digest, Bytes>)
    requires (forall i | 0 <= i < |ids| :: ids[i] in rows) && NoneOrphaned(rows, cache)
    ensures NoneOrphaned(rows - Members(ids), RemoveMany(cache, HashesOf(rows, ids)))
  {
    var hashes := HashesOf(rows, ids);
    var rows' := rows - Members(ids);
    forall h | h in RemoveMany(cache, hashes)
      ensures exists id :: id in rows' && rows'[id].hash == h
    {
      var id :| id in rows && rows[id].hash == h;
      forall i | 0 <= i < |ids|
        ensures ids[i] != id
      {
        assert hashes[i] in hashes;
      }
      assert id in rows';
    }
  }

  /** Removing the evicted rows' files takes no surviving row's file, and leaves no
      file behind that no row names. */
  lemma RemovalIsExact(w: World, known: set<Bytes>, damage: Damage, rows: map<int, Row>, ids: seq<int>,
                       cache: map<Digest, Bytes>)
    requires UniqueHashes(rows) && (forall i | 0 <= i < |ids| :: ids[i] in rows)
    requires FilesHold(w, known, damage, rows, cache)
    ensures FilesHold(w, known, damage, rows - Members(ids), RemoveMany(cache, HashesOf(rows, ids)))
  {
    var rows' := rows - Members(ids);
    forall id | id in rows'
      ensures rows[id].hash !in HashesOf(rows, ids)
    {
      HashesOfOthers(rows, ids, id);
    }
    if !damage.strays {
      NoneLeftOrphaned(rows, ids, cache);
    }
  }

  // --- Insertion ---

  lemma SameFind(w: World, known: set<Bytes>, t: Tables, h: History, data: Bytes)
    requires TablesHold(w, known, t, h) && NoCollision(w, known) && data in known
    ensures FindHash(t.rows, w.sha(data)) == FindBytes(h.entries, data)
  {
    var hash := w.sha(data);
    forall id | id in t.rows
      ensures t.rows[id].hash == hash <==> h.entries[id].bytes == data
    {
      assert RowHolds(w, known, t.manifest, id, t.rows[id], h.entries[id]);
    }
    match FindHash(t.rows, hash)
    case Some(id) =>
      var other := FindBytes(h.entries, data);
      assert other.Some?;
    case None =>
  }

  ghost function PlaceEntry(h: History, mime: string, data: Bytes, now: Time): (History, int) {
    match FindBytes(h.entries, data)
    case Some(id) => (Touch(h, id, now), id)
    case None => (Add(h, mime, data, now), h.nextId)
  }

  // Before rotation: the placed row holds, and it is the one filed under the hash.
  lemma PlaceHolds(w: World, known: set<Bytes>, t: Tables, h: History, mime: string, body: Body, data: Bytes, now: Time)
    requires TablesHold(w, known, t, h) && NoCollision(w, known) && Known(w, known, data)
    requires body == InMemory(data) || (body == Detached(|data|) && IsDetachable(w, mime))
    ensures var (t', id) := Place(w, t, mime, body, w.sha(data), now);
      && TablesHold(w, known, t', PlaceEntry(h, mime, data, now).0) && id == PlaceEntry(h, mime, data, now).1
      && id in t'.rows && t'.rows[id].hash == w.sha(data)
      && (forall k | k in t'.rows && k != id :: k in t.rows && t'.rows[k] == t.rows[k])
      && (id in t.rows ==> t'.rows[id] == t.rows[id].(timestamp := now))
      && (id !in t.rows ==> t'.rows[id] == NewRow(w, mime, body, w.sha(data), now))
      && (forall k | k in t.rows :: k in t'.rows)
  {
    SameFind(w, known, t, h, data);
    match FindHash(t.rows, w.sha(data))
    case Some(id) => TouchHolds(w, known, t, h, id, now);
    case None =>
      AddHolds(w, known, t, h, mime, body, data, now);
      AddFrame(w, known, t, mime, body, w.sha(data), now);
  }

  // After placing a row and, for an image, its file, the files fit the rows again.
  lemma PlaceKeepsFiles(w: World, known: set<Bytes>, damage: Damage, rows: map<int, Row>, rows': map<int, Row>,
                        id: int, cache: map<Digest, Bytes>, cache': map<Digest, Bytes>, hash: Digest)
    requires FilesHold(w, known, damage, rows, cache)
    requires id in rows' && rows'[id].hash == hash
    requires forall k | k in rows :: k in rows' && rows'[k].hash == rows[k].hash
    requires forall k | k in rows' && k != id :: k in rows && rows'[k] == rows[k]
    requires id in rows ==> IsDetached(rows'[id]) == IsDetached(rows[id])
    requires id !in rows && IsDetached(rows'[id]) ==> hash in cache'
    requires cache' == cache
      || (hash !in cache && cache' - {hash} == cache && hash in cache' && Genuine(w, known, hash, cache'[hash]))
    ensures FilesHold(w, known, damage, rows', cache')
  {
    forall h | h in cache'
      ensures h in cache ==> cache'[h] == cache[h]
    {
      assert h in cache && h != hash ==> h in cache' - {hash};
    }
    forall h | h in cache' && !damage.strays
      ensures exists k :: k in rows' && rows'[k].hash == h
    {
      if h in cache {
        var k :| k in rows && rows[k].hash == h;
        assert k in rows';
      }
    }
  }

  // Rotation and the removal of what it evicted, together.
  lemma RotationRefines(w: World, known: set<Bytes>, damage: Damage, s: Store, h: History, max: u64)
    requires BreaksTies(w) && Refines(w, known, damage, s, h)
    ensures Refines(w, known, damage,
                    Store(Rotate(w, s.db, max), RemoveMany(s.cache, ExpiredHashes(w, s.db.rows, max))),
                    Evict(w, h, max))
  {
    EvictHolds(w, known, s.db, h, max);
    ExpiringAreRows(w, s.db.rows, max);
    RemovalIsExact(w, known, damage, s.db.rows, Expiring(w, s.db.rows, max), s.cache);
  }

  // The files once a row is placed, and its file when it needs one.
  lemma PlacementFiles(w: World, known: set<Bytes>, damage: Damage, s: Store, t': Tables, id: int, mime: string,
                       body: Body, data: Bytes, now: Time)
    requires FilesHold(w, known, damage, s.db.rows, s.cache) && data in known
    requires body == InMemory(data) || (body == Detached(|data|) && IsDetachable(w, mime))
    requires id in t'.rows && t'.rows[id].hash == w.sha(data)
    requires forall k | k in t'.rows && k != id :: k in s.db.rows && t'.rows[k] == s.db.rows[k]
    requires forall k | k in s.db.rows :: k in t'.rows
    requires id in s.db.rows ==> t'.rows[id] == s.db.rows[id].(timestamp := now)
    requires id !in s.db.rows ==> t'.rows[id] == NewRow(w, mime, body, w.sha(data), now)
    ensures FilesHold(w, known, damage, t'.rows,
                      if IsCacheClass(mime) then StoreFile(s.cache, w.sha(data), data) else s.cache)
  {
    var hash := w.sha(data);
    var cache := if IsCacheClass(mime) then StoreFile(s.cache, hash, data) else s.cache;
    assert cache == s.cache || (hash !in s.cache && cache - {hash} == s.cache && cache[hash] == data);
    PlaceKeepsFiles(w, known, damage, s.db.rows, t'.rows, id, s.cache, cache, hash);
  }

  lemma PlacementRefines(w: World, known: set<Bytes>, damage: Damage, s: Store, h: History, mime: string,
                         body: Body, data: Bytes, now: Time)
    requires NoCollision(w, known) && Refines(w, known, damage, s, h) && Known(w, known, data)
    requires body == InMemory(data) || (body == Detached(|data|) && IsDetachable(w, mime))
    ensures var cache := if IsCacheClass(mime) then StoreFile(s.cache, w.sha(data), data) else s.cache;
      Refines(w, known, damage, Store(Place(w, s.db, mime, body, w.sha(data), now).0, cache),
              PlaceEntry(h, mime, data, now).0)
    ensures Place(w, s.db, mime, body, w.sha(data), now).1 == PlaceEntry(h, mime, data, now).1
  {
    var (t', id) := Place(w, s.db, mime, body, w.sha(data), now);
    PlaceHolds(w, known, s.db, h, mime, body, data, now);
    PlacementFiles(w, known, damage, s, t', id, mime, body, data, now);
  }

  /** Both roads of insertion, from memory and detached, remember the payload. */
  lemma UpsertRefines(w: World, known: set<Bytes>, damage: Damage, s: Store, h: History, mime: string, body: Body,
                      data: Bytes, max: u64, now: Time)
    requires BreaksTies(w) && NoCollision(w, known) && Refines(w, known, damage, s, h) && Known(w, known, data)
    requires !IsSkipped(mime, |data|)
    requires body == InMemory(data) || (body == Detached(|data|) && IsDetachable(w, mime))
    ensures var u := Upsert(w, s.db, mime, body, w.sha(data), max, now);
      var cache := if u.isImage then StoreFile(s.cache, w.sha(data), data) else s.cache;
      && Refines(w, known, damage, Store(u.db, RemoveMany(cache, u.expired)), Remember(w, h, mime, data, max, now).0)
      && u.id == Remember(w, h, mime, data, max, now).1
  {
    var t' := Place(w, s.db, mime, body, w.sha(data), now).0;
    var cache := if IsCacheClass(mime) then StoreFile(s.cache, w.sha(data), data) else s.cache;
    PlacementRefines(w, known, damage, s, h, mime, body, data, now);
    RotationRefines(w, known, damage, Store(t', cache), PlaceEntry(h, mime, data, now).0, max);
  }
}
