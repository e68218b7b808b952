/** How a spoiled payload gets well again: by deletion, by a wipe, and by storing the
    same bytes once more, but the last only if the file is missing and not truncated. */
module Repair {
  import opened Core
  import opened Tables
  import opened Store
  import opened History
  import opened Refinement
  import opened Runs
  import opened SpoolSteps
  import opened CrashStates

  /** Deleting a row takes its file along, whatever is in it. */
  lemma DeletionRepairs(w: World, known: set<Bytes>, damage: Damage, s: Store, h: History, id: int)
    requires Refines(w, known, damage, s, h) && id in s.db.rows
    ensures Refines(w, known, damage.(spoiled := damage.spoiled - {s.db.rows[id].hash}), DeleteById(s, id),
                    Forget(h, id))
  {
    DeleteRefines(w, known, damage, s, h, id);
    ForgetHolds(w, known, s, h, id);
    assert forall k | k in s.db.rows && k != id :: s.db.rows[k].hash != s.db.rows[id].hash;
  }

  lemma WipeRepairs(w: World, known: set<Bytes>, damage: Damage, s: Store, h: History)
    requires Refines(w, known, damage, s, h)
    ensures Refines(w, known, UNHARMED, Wipe(s), h.(entries := map[]))
  {
  }

  /** Storing the bytes again under an image's MIME writes a file that was missing. */
  lemma ReinsertionRestoresTheFile(w: World, known: set<Bytes>, spoiled: set<Digest>, s: Store, h: History,
                                   mime: string, data: Bytes, max: u64, now: Time)
    requires BreaksTies(w) && NoCollision(w, known) && Refines(w, known, Scarred(spoiled), s, h)
    requires Known(w, known, data)
    requires IsCacheClass(mime) && !IsSkipped(mime, |data|) && w.sha(data) !in s.cache
    ensures Refines(w, known, Scarred(spoiled - {w.sha(data)}),
                    InsertWithHash(w, s, mime, data, w.sha(data), max, now).0,
                    Remember(w, h, mime, data, max, now).0)
  {
    var hash := w.sha(data);
    var filed := s.(cache := s.cache[hash := data]);
    MoreDamage(w, known, Scarred(spoiled), spoiled - {hash} + {hash}, s, h);
    FileWritten(w, known, spoiled - {hash}, s, h, data);
    InsertRefines(w, known, Scarred(spoiled - {hash}), filed, h, mime, data, max, now);
    assert InsertWithHash(w, filed, mime, data, hash, max, now) == InsertWithHash(w, s, mime, data, hash, max, now);
  }

  // The file of a row that is stored again and stays.
  lemma FileAfterReinsertion(w: World, s: Store, mime: string, data: Bytes, hash: Digest, max: u64, now: Time, id: int)
    requires BreaksTies(w) && Sound(s.db) && !IsSkipped(mime, |data|)
    requires id in s.db.rows && s.db.rows[id].hash == hash && IsDetached(s.db.rows[id])
    ensures var s' := InsertWithHash(w, s, mime, data, hash, max, now).0;
      id in s'.db.rows ==>
        && s'.db.rows[id].hash == hash && IsDetached(s'.db.rows[id])
        && (hash in s'.cache <==> hash in s.cache || IsCacheClass(mime))
        && (hash in s'.cache ==> s'.cache[hash] == if hash in s.cache then s.cache[hash] else data)
  {
    CommittedRows(w, s.db, mime, InMemory(data), hash, max, now);
    ExpiredAreNotKept(w, s.db, mime, InMemory(data), hash, max, now);
  }

  /** Whether storing the bytes again makes a detached row readable is decided by what
      is on disk before: a missing file is written, under an image's MIME; a truncated
      one is taken for the payload and stays. */
  lemma ReinsertionRepairsIff(w: World, known: set<Bytes>, damage: Damage, s: Store, h: History, mime: string,
                              data: Bytes, max: u64, now: Time, id: int)
    requires BreaksTies(w) && NoCollision(w, known) && Refines(w, known, damage, s, h) && Known(w, known, data)
    requires !IsSkipped(mime, |data|)
    requires id in s.db.rows && s.db.rows[id].hash == w.sha(data) && IsDetached(s.db.rows[id])
    ensures var s' := InsertWithHash(w, s, mime, data, w.sha(data), max, now).0;
      id in s'.db.rows ==>
        (GetContent(s', id) == Lookup(Remember(w, h, mime, data, max, now).0, id) <==>
         if w.sha(data) in s.cache then s.cache[w.sha(data)] == data else IsCacheClass(mime))
  {
    var s' := InsertWithHash(w, s, mime, data, w.sha(data), max, now).0;
    var h' := Remember(w, h, mime, data, max, now).0;
    FileAfterReinsertion(w, s, mime, data, w.sha(data), max, now, id);
    InsertRefines(w, known, damage, s, h, mime, data, max, now);
    if id in s'.db.rows {
      assert RowHolds(w, known, s'.db.manifest, id, s'.db.rows[id], h'.entries[id]);
      assert h'.entries[id].bytes == data;
    }
  }

  // --- From a spool file ---

  /** Storing the bytes from a spool file does what storing them from memory does, unless
      it is refused, so it repairs what that repairs. */
  lemma SpoolingStoresAlike(w: World, s: Store, mime: string, data: Bytes, max: u64, now: Time)
    requires BreaksTies(w)
    ensures InsertSpooled(w, s, mime, data, max, now).0 ==
      if Refused(w, mime, data) then s else InsertWithHash(w, s, mime, data, w.sha(data), max, now).0
  {
    if IsDetachable(w, mime) {
      DetachedRowNeedsNoBytes(w, s.db, mime, data, w.sha(data), max, now);
    }
  }

  lemma SpoolingRestoresTheFile(w: World, known: set<Bytes>, spoiled: set<Digest>, s: Store, h: History,
                                mime: string, data: Bytes, max: u64, now: Time)
    requires BreaksTies(w) && NoCollision(w, known) && Refines(w, known, Scarred(spoiled), s, h)
    requires Known(w, known, data)
    requires IsCacheClass(mime) && !IsSkipped(mime, |data|) && !Refused(w, mime, data) && w.sha(data) !in s.cache
    ensures Refines(w, known, Scarred(spoiled - {w.sha(data)}), InsertSpooled(w, s, mime, data, max, now).0,
                    Remember(w, h, mime, data, max, now).0)
  {
    SpoolingStoresAlike(w, s, mime, data, max, now);
    ReinsertionRestoresTheFile(w, known, spoiled, s, h, mime, data, max, now);
  }

  lemma SpoolingRepairsIff(w: World, known: set<Bytes>, damage: Damage, s: Store, h: History, mime: string,
                           data: Bytes, max: u64, now: Time, id: int)
    requires BreaksTies(w) && NoCollision(w, known) && Refines(w, known, damage, s, h) && Known(w, known, data)
    requires !IsSkipped(mime, |data|) && !Refused(w, mime, data)
    requires id in s.db.rows && s.db.rows[id].hash == w.sha(data) && IsDetached(s.db.rows[id])
    ensures var s' := InsertSpooled(w, s, mime, data, max, now).0;
      id in s'.db.rows ==>
        (GetContent(s', id) == Lookup(Remember(w, h, mime, data, max, now).0, id) <==>
         if w.sha(data) in s.cache then s.cache[w.sha(data)] == data else IsCacheClass(mime))
  {
    SpoolingStoresAlike(w, s, mime, data, max, now);
    ReinsertionRepairsIff(w, known, damage, s, h, mime, data, max, now, id);
  }
}
