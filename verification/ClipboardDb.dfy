/** The store as the program has it: tables and a cache directory updated in place,
    each method proved against the function that says what it does, and so against the plain
    map the store stands for. */
module ClipboardDb {
  import opened Core
  import Cdc = FastCdc
  import opened Tables
  import Spec = Store
  import H = History
  import Runs

  class ClipboardDb {
    const w: World
    var rows: map<int, Row>
    var chunks: map<Digest, Chunk>
    var manifest: map<Slot, Digest>
    var nextId: int
    var cache: map<Digest, Bytes>

    function Db(): Tables
      reads this
    {
      Tables(rows, chunks, manifest, nextId)
    }

    function State(): Spec.Store
      reads this
    {
      Spec.Store(Db(), cache)
    }

    ghost predicate Valid()
      reads this
    {
      BreaksTies(w) && Spec.Sound(Db())
    }

    /** The plain map this store stands for: what the calls below are for. */
    ghost predicate Shows(known: set<Bytes>, h: H.History)
      reads this
    {
      H.NoCollision(w, known) && H.Refines(w, known, H.UNHARMED, State(), h)
    }

    constructor (w: World)
      requires BreaksTies(w)
      ensures Valid() && this.w == w && State() == Spec.Store(EMPTY, map[])
      ensures forall known | H.NoCollision(w, known) :: Shows(known, H.BLANK)
    {
      this.w := w;
      rows, chunks, manifest, nextId, cache := map[], map[], map[], 1, map[];
    }

    // --- Chunks ---

    /** One turn of `store_chunks`: count the chunk, then name it in the manifest. */
    method LinkChunk(id: int, seqno: int, chunk: Bytes)
      modifies this`chunks, this`manifest
      ensures Db() == Link(w, old(Db()), id, seqno, chunk)
    {
      var digest := w.sha(chunk);
      if digest in chunks {
        chunks := chunks[digest := chunks[digest].(refcount := chunks[digest].refcount + 1)];
      } else {
        chunks := chunks[digest := Chunk(chunk, 1)];
      }
      manifest := manifest[Slot(id, seqno) := digest];
    }

    /** `store_chunks`. */
    method StoreChunks(id: int, data: Bytes)
      modifies this`chunks, this`manifest
      ensures Db() == LinkAll(w, old(Db()), id, 0, Cdc.Chunks(w.gear, data))
    {
      var iter := new Cdc.Iterator(w.gear, data);
      var seqno := 0;
      var next := iter.Next();
      ghost var todo := Cdc.Chunks(w.gear, data);
      while next.Some?
        invariant iter.gear == w.gear && fresh(iter)
        invariant todo == if next.Some? then [next.value] + Cdc.Chunks(w.gear, iter.rest) else []
        invariant LinkAll(w, old(Db()), id, 0, Cdc.Chunks(w.gear, data)) == LinkAll(w, Db(), id, seqno, todo)
        decreases next.Some?, |iter.rest|
      {
        LinkFirst(w, Db(), id, seqno, next.value, Cdc.Chunks(w.gear, iter.rest));
        LinkChunk(id, seqno, next.value);
        todo := Cdc.Chunks(w.gear, iter.rest);
        seqno := seqno + 1;
        next := iter.Next();
      }
    }

    /** `release_chunks`: lower the counts, delete what nobody names, drop the manifest. */
    method ReleaseChunks(id: int)
      modifies this`chunks, this`manifest
      ensures Db() == Release(old(Db()), id)
    {
      chunks := map h | h in chunks ::
        if ReferencesOf(manifest, id, h) != {}
          then chunks[h].(refcount := chunks[h].refcount - |ReferencesOf(manifest, id, h)|)
          else chunks[h];
      chunks := map h | h in chunks && !(chunks[h].refcount <= 0 && ReferencesOf(manifest, id, h) != {}) :: chunks[h];
      manifest := map k | k in manifest && k.id != id :: manifest[k];
    }

    /** `reassemble`: grow a buffer in manifest order, give up once it is too long. */
    method Reassemble(id: int, size: nat) returns (out: Option<Bytes>)
      ensures out == Spec.Reassemble(Db(), id, size)
    {
      var order := OrderedSeqnos(Db(), id);
      ghost var pieces := PiecesAt(Db(), id, order);
      var bytes: Bytes := [];
      for i := 0 to |order|
        invariant bytes == Flatten(pieces[..i])
        invariant |bytes| <= size
      {
        FlattenAppends(pieces[..i], [pieces[i]]);
        FlattenAppends(pieces[..i + 1], pieces[i + 1..]);
        assert pieces[..i] + [pieces[i]] == pieces[..i + 1];
        assert pieces[..i + 1] + pieces[i + 1..] == pieces;
        assert Flatten([pieces[i]]) == pieces[i];
        bytes := bytes + DataAt(Db(), Slot(id, order[i]));
        if |bytes| > size {
          return None;
        }
      }
      assert pieces[..|order|] == pieces;
      return if |bytes| == size then Some(bytes) else None;
    }

    // --- Rows ---

    /** `upsert`. */
    method Upsert(mime: string, body: Body, hash: Digest, max: u64, now: Time)
        returns (id: int, isImage: bool, expired: seq<Digest>)
      requires Valid()
      modifies this`rows, this`chunks, this`manifest, this`nextId
      ensures Valid()
      ensures Spec.Upserted(Db(), id, isImage, expired) == Spec.Upsert(w, old(Db()), mime, body, hash, max, now)
    {
      id := Place(mime, body, hash, now);
      isImage := IsCacheClass(mime);
      expired := RotateOut(max);
    }

    method Place(mime: string, body: Body, hash: Digest, now: Time) returns (id: int)
      requires Valid()
      modifies this`rows, this`chunks, this`manifest, this`nextId
      ensures Valid()
      ensures (Db(), id) == Spec.Place(w, old(Db()), mime, body, hash, now)
    {
      Spec.PlaceIsSound(w, Db(), mime, body, hash, now);
      if exists k :: k in rows && rows[k].hash == hash {
        var existing :| existing in rows && rows[existing].hash == hash;
        id := existing;
        rows := rows[id := rows[id].(timestamp := now)];
      } else {
        id := nextId;
        rows, nextId := rows[id := Spec.NewRow(w, mime, body, hash, now)], nextId + 1;
        if body.InMemory? && IsChunkable(mime, |body.data|) {
          StoreChunks(id, body.data);
        }
      }
    }

    /** The rotation half of `upsert`: the same ordered query runs twice. */
    method RotateOut(max: u64) returns (expired: seq<Digest>)
      requires Valid()
      modifies this`rows, this`chunks, this`manifest
      ensures Valid()
      ensures Db() == Rotate(w, old(Db()), max)
      ensures expired == Spec.ExpiredHashes(w, old(rows), max)
    {
      Spec.RotateIsSound(w, Db(), max);
      Spec.ExpiringAreRows(w, rows, max);
      var expiring := Expiring(w, rows, max);
      for i := 0 to |expiring|
        invariant rows == old(rows) && nextId == old(nextId)
        invariant ReleaseAll(Db(), expiring[i..]) == ReleaseAll(old(Db()), expiring)
      {
        assert expiring[i..][0] == expiring[i] && expiring[i..][1..] == expiring[i + 1..];
        if rows[expiring[i]].chunked {
          ReleaseChunks(expiring[i]);
        }
      }
      expired := Spec.HashesOf(rows, expiring);
      rows := rows - Members(Expiring(w, rows, max));
    }

    // --- The facade ---

    method RemoveMany(hashes: seq<Digest>)
      modifies this`cache
      ensures cache == Spec.RemoveMany(old(cache), hashes)
    {
      for i := 0 to |hashes|
        invariant cache == Spec.RemoveMany(old(cache), hashes[..i])
      {
        ghost var done, more := hashes[..i], hashes[..i + 1];
        assert more == done + [hashes[i]];
        assert (set h | h in more) == (set h | h in done) + {hashes[i]};
        cache := cache - {hashes[i]};
      }
      assert hashes[..|hashes|] == hashes;
    }

    method InsertWithHash(mime: string, data: Bytes, hash: Digest, max: u64, now: Time) returns (id: int)
      requires Valid()
      modifies this
      ensures Valid()
      ensures (State(), id) == Spec.InsertWithHash(w, old(State()), mime, data, hash, max, now)
      ensures forall known, h | old(Shows(known, h)) && H.Known(w, known, data) && hash == w.sha(data) ::
        Shows(known, H.Remember(w, h, mime, data, max, now).0) && id == H.Remember(w, h, mime, data, max, now).1
    {
      forall known, h | Shows(known, h) && H.Known(w, known, data) && hash == w.sha(data)
        ensures H.Refines(w, known, H.UNHARMED, Spec.InsertWithHash(w, State(), mime, data, hash, max, now).0,
                          H.Remember(w, h, mime, data, max, now).0)
        ensures Spec.InsertWithHash(w, State(), mime, data, hash, max, now).1
          == H.Remember(w, h, mime, data, max, now).1
      {
        Runs.InsertRefines(w, known, H.UNHARMED, State(), h, mime, data, max, now);
      }
      if IsSkipped(mime, |data|) {
        return -1;
      }
      var isImage, expired;
      id, isImage, expired := Upsert(mime, InMemory(data), hash, max, now);
      if isImage && hash !in cache {
        cache := cache[hash := data];
      }
      RemoveMany(expired);
    }

    /** `insert_spooled` of a file holding `data` under its true digest. */
    method InsertSpooled(mime: string, data: Bytes, max: u64, now: Time) returns (id: Option<int>)
      requires Valid()
      modifies this
      ensures Valid()
      ensures (State(), id) == Spec.InsertSpooled(w, old(State()), mime, data, max, now)
      ensures forall known, h | old(Shows(known, h)) && H.Known(w, known, data) ::
        Shows(known, Runs.Meaning(w, h, Runs.InsertFromSpool(mime, data, max, now)))
    {
      forall known, h | Shows(known, h) && H.Known(w, known, data)
        ensures H.Refines(w, known, H.UNHARMED, Spec.InsertSpooled(w, State(), mime, data, max, now).0,
                          Runs.Meaning(w, h, Runs.InsertFromSpool(mime, data, max, now)))
      {
        Runs.StepRefines(w, known, H.UNHARMED, State(), h, Runs.InsertFromSpool(mime, data, max, now));
      }
      var hash := w.sha(data);
      if IsSkipped(mime, |data|) {
        return Some(-1);
      }
      if !IsDetachable(w, mime) {
        if |data| > Spec.MAX_PAYLOAD_BYTES {
          return None;
        }
        var inserted := InsertWithHash(mime, data, hash, max, now);
        return Some(inserted);
      }
      if hash !in cache {
        cache := cache[hash := data];
      }
      var stored, isImage, expired := Upsert(mime, Detached(|data|), hash, max, now);
      RemoveMany(expired);
      return Some(stored);
    }

    method GetContentById(id: int) returns (found: Option<(string, Bytes)>)
      ensures found == Spec.GetContent(State(), id)
      ensures forall known, h | Shows(known, h) :: found == H.Lookup(h, id)
    {
      forall known, h | Shows(known, h)
        ensures Spec.GetContent(State(), id) == H.Lookup(h, id)
      {
        H.RefinedIsReadable(w, known, H.UNHARMED, State(), h);
        H.ContentIsEntry(w, known, H.UNHARMED, State(), h, id);
      }
      if id !in rows {
        return None;
      }
      var row := rows[id];
      if row.chunked {
        var bytes := Reassemble(id, row.size);
        return if bytes.Some? then Some((row.mime, bytes.value)) else None;
      }
      if !row.content.Null? {
        return Some((row.mime, row.content.bytes));
      }
      return if row.hash in cache then Some((row.mime, cache[row.hash])) else None;
    }

    method LocateContentOf(id: int) returns (found: Option<(string, Spec.Location)>)
      ensures found == Spec.LocateContent(State(), id)
      ensures forall known, h | Shows(known, h) ::
        && (found.Some? <==> id in h.entries)
        && (found.Some? ==> found.value.0 == h.entries[id].mime)
        && (found.Some? && found.value.1.CacheFile? ==>
             found.value.1.hash in cache && cache[found.value.1.hash] == h.entries[id].bytes)
    {
      forall known, h | Shows(known, h)
        ensures id in rows <==> id in h.entries
        ensures id in rows ==> rows[id].mime == h.entries[id].mime
        ensures id in rows && H.IsDetached(rows[id])
          ==> rows[id].hash in cache && cache[rows[id].hash] == h.entries[id].bytes
      {
        H.RefinedIsReadable(w, known, H.UNHARMED, State(), h);
        H.LocatedFileIsPayload(w, known, H.UNHARMED, State(), h, id);
      }
      if id !in rows {
        return None;
      }
      var inline := !rows[id].content.Null? || rows[id].chunked;
      return Some((rows[id].mime, if inline then Spec.InDatabase(id) else Spec.CacheFile(rows[id].hash)));
    }

    method DeleteById(id: int) returns (deleted: bool)
      requires Valid()
      modifies this
      ensures Valid()
      ensures State() == Spec.DeleteById(old(State()), id)
      ensures deleted <==> id in old(rows)
      ensures forall known, h | old(Shows(known, h)) :: Shows(known, H.Forget(h, id)) && (deleted <==> id in h.entries)
    {
      forall known, h | Shows(known, h)
        ensures H.Refines(w, known, H.UNHARMED, Spec.DeleteById(State(), id), H.Forget(h, id))
      {
        Runs.DeleteRefines(w, known, H.UNHARMED, State(), h, id);
      }
      Spec.DeleteIsSound(State(), id);
      if id !in rows {
        return false;
      }
      var hash := rows[id].hash;
      if rows[id].chunked {
        ReleaseChunks(id);
      }
      rows := rows - {id};
      cache := cache - {hash};
      return true;
    }

    method Wipe()
      requires Valid()
      modifies this
      ensures Valid()
      ensures State() == Spec.Wipe(old(State()))
      ensures forall known, h | old(Shows(known, h)) :: Shows(known, h.(entries := map[]))
    {
      rows, chunks, manifest, cache := map[], map[], map[], map[];
    }

    method SetPinById(id: int, pinned: bool) returns (found: bool)
      requires Valid()
      modifies this`rows
      ensures Valid()
      ensures State() == Spec.SetPinned(old(State()), id, pinned)
      ensures found <==> id in old(rows)
      ensures forall known, h | old(Shows(known, h)) ::
        Shows(known, H.Pin(h, id, pinned)) && (found <==> id in h.entries)
    {
      forall known, h | Shows(known, h)
        ensures H.Refines(w, known, H.UNHARMED, Spec.SetPinned(State(), id, pinned), H.Pin(h, id, pinned))
      {
        Runs.PinRefines(w, known, H.UNHARMED, State(), h, id, pinned);
      }
      found := id in rows;
      if found {
        rows := rows[id := rows[id].(pinned := pinned)];
      }
    }

    method UpdateTimestamp(id: int, now: Time)
      requires Valid()
      modifies this`rows
      ensures Valid()
      ensures State() == Spec.UpdateTimestamp(old(State()), id, now)
      ensures forall known, h | old(Shows(known, h)) :: Shows(known, H.Touch(h, id, now))
    {
      forall known, h | Shows(known, h)
        ensures H.Refines(w, known, H.UNHARMED, Spec.UpdateTimestamp(State(), id, now), H.Touch(h, id, now))
      {
        Runs.TouchRefines(w, known, H.UNHARMED, State(), h, id, now);
      }
      if id in rows {
        rows := rows[id := rows[id].(timestamp := now)];
      }
    }
  }
}
