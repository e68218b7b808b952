/** A spooled insertion killed at any step, under every refusal: it shows either the
    history before it or the history after it, and what else it can leave. */
module CrashAtomicity {
  import opened Core
  import opened Tables
  import opened Store
  import opened History
  import opened Refinement
  import opened SpoolSteps
  import opened CrashStates

  /** How many of the steps happen before the commit is visible. */
  function StepsBeforeCommit(d: Disk, f: SpooledFile, r: Refusals): nat
    requires f.path in d.spool
  {
    |Adopt(d, f.digest, f.path, r).0| + 1
  }

  /** Whether a crash after step `i` comes after a successful commit. */
  predicate Committed(d: Disk, f: SpooledFile, r: Refusals, i: nat)
    requires f.path in d.spool
  {
    Adopt(d, f.digest, f.path, r).1 != Failed && !r.commit && i >= StepsBeforeCommit(d, f, r)
  }

  /** Whether a crash after step `i` comes inside a copy that was cut off. */
  predicate CopyCutOff(d: Disk, f: SpooledFile, r: Refusals, i: nat) {
    i == 0 && f.digest !in d.store.cache && r.rename && r.written < f.len
  }

  ghost predicate SpoolsKnown(w: World, known: set<Bytes>, d: Disk, f: SpooledFile, data: Bytes) {
    && f.path in d.spool && d.spool[f.path] == data && Known(w, known, data)
    && f.digest == w.sha(data) && f.len == |data|
  }

  // --- Adoption ---

  // The files during adoption: cut off, in place, or as they were.
  lemma AdoptionStates(d: Disk, f: SpooledFile, data: Bytes, r: Refusals)
    requires f.path in d.spool && d.spool[f.path] == data && f.len == |data|
    ensures var (states, answer) := Adopt(d, f.digest, f.path, r);
      && states != []
      && (forall i | 0 <= i < |states| ::
           && states[i].store.db == d.store.db
           && if CopyCutOff(d, f, r, i) then states[i].store.cache == d.store.cache[f.digest := data[..r.written]]
              else states[i].store.cache in [d.store.cache, StoreFile(d.store.cache, f.digest, data)])
      && Last(states, d).store
        == (if answer == Failed then d.store else Store(d.store.db, StoreFile(d.store.cache, f.digest, data)))
      && (answer == Placed ==> StoreFile(d.store.cache, f.digest, data) - {f.digest} == d.store.cache)
  {
    assert r.written >= |data| ==> Part(data, r.written) == data;
  }

  // Everything up to the commit, or to giving up.
  lemma UncommittedStates(w: World, d: Disk, mime: string, f: SpooledFile, data: Bytes, max: u64, now: Time,
                          r: Refusals, i: nat)
    requires BreaksTies(w) && f.path in d.spool && d.spool[f.path] == data && f.len == |data|
    requires i < |DetachedSteps(w, d, mime, f, max, now, r).0| && !Committed(d, f, r, i)
    ensures var store := DetachedSteps(w, d, mime, f, max, now, r).0[i].store;
      && store.db == d.store.db
      && if CopyCutOff(d, f, r, i) then store.cache == d.store.cache[f.digest := data[..r.written]]
         else store.cache == d.store.cache || store.cache == StoreFile(d.store.cache, f.digest, data)
  {
    AdoptionStates(d, f, data, r);
    var (adopting, answer) := Adopt(d, f.digest, f.path, r);
    if i < |adopting| {
      assert DetachedSteps(w, d, mime, f, max, now, r).0[i] == adopting[i];
    } else if i == |adopting| {
      assert DetachedSteps(w, d, mime, f, max, now, r).0[i] == Unlink(Last(adopting, d), f.path);
    }
  }

  lemma FilePlaced(w: World, known: set<Bytes>, spoiled: set<Digest>, s: Store, h: History, data: Bytes)
    requires Refines(w, known, Scarred(spoiled), s, h) && data in known
    ensures Refines(w, known, Scarred(spoiled), s.(cache := StoreFile(s.cache, w.sha(data), data)), h)
  {
    if w.sha(data) !in s.cache {
      MoreDamage(w, known, Scarred(spoiled), spoiled + {w.sha(data)}, s, h);
      FileWritten(w, known, spoiled, s, h, data);
    }
  }

  // --- From the commit on ---

  lemma CommittedStates(w: World, d: Disk, mime: string, f: SpooledFile, max: u64, now: Time, r: Refusals, i: nat)
    requires BreaksTies(w) && f.path in d.spool && i < |DetachedSteps(w, d, mime, f, max, now, r).0|
    requires Committed(d, f, r, i)
    ensures var placed := Unlink(Last(Adopt(d, f.digest, f.path, r).0, d), f.path);
      var committing := CommitSteps(w, placed, mime, Detached(f.len), f.digest, max, now).0;
      var k := i - StepsBeforeCommit(d, f, r);
      0 <= k < |committing| && DetachedSteps(w, d, mime, f, max, now, r).0[i] == committing[k]
  {
  }

  lemma CommittedStateRefines(w: World, known: set<Bytes>, spoiled: set<Digest>, d: Disk, h: History, mime: string,
                              f: SpooledFile, data: Bytes, max: u64, now: Time, r: Refusals, i: nat)
    requires BreaksTies(w) && NoCollision(w, known) && Refines(w, known, Scarred(spoiled), d.store, h)
    requires SpoolsKnown(w, known, d, f, data)
    requires IsDetachable(w, mime) && !IsSkipped(mime, f.len)
    requires i < |DetachedSteps(w, d, mime, f, max, now, r).0| && Committed(d, f, r, i)
    ensures Refines(w, known, Scarred(spoiled), DetachedSteps(w, d, mime, f, max, now, r).0[i].store,
                    Remember(w, h, mime, data, max, now).0)
  {
    AdoptionStates(d, f, data, r);
    FilePlaced(w, known, spoiled, d.store, h, data);
    CommittedStates(w, d, mime, f, max, now, r, i);
    var placed := Unlink(Last(Adopt(d, f.digest, f.path, r).0, d), f.path);
    CommitStepsRefine(w, known, spoiled, placed, h, mime, data, max, now, i - StepsBeforeCommit(d, f, r));
  }

  // The states from the commit on: so many of the expired files removed.
  lemma CommitStates(w: World, d: Disk, mime: string, body: Body, hash: Digest, max: u64, now: Time, k: nat)
    requires BreaksTies(w) && k < |CommitSteps(w, d, mime, body, hash, max, now).0|
    ensures var u := Upsert(w, d.store.db, mime, body, hash, max, now);
      && k <= |u.expired|
      && CommitSteps(w, d, mime, body, hash, max, now).0[k].store
        == Store(u.db, RemoveMany(d.store.cache, u.expired[..k]))
  {
    var u := Upsert(w, d.store.db, mime, body, hash, max, now);
    var committed := d.(store := d.store.(db := u.db));
    RemovalsHaveIndices(committed, u.expired);
    if k == 0 {
      assert RemoveMany(d.store.cache, u.expired[..0]) == d.store.cache;
    } else {
      RemovalsAt(committed, u.expired, k - 1);
    }
  }

  lemma CommitStepsRefine(w: World, known: set<Bytes>, spoiled: set<Digest>, placed: Disk, h: History, mime: string,
                          data: Bytes, max: u64, now: Time, k: nat)
    requires BreaksTies(w) && NoCollision(w, known) && Refines(w, known, Scarred(spoiled), placed.store, h)
    requires Known(w, known, data)
    requires IsDetachable(w, mime) && !IsSkipped(mime, |data|) && w.sha(data) in placed.store.cache
    requires k < |CommitSteps(w, placed, mime, Detached(|data|), w.sha(data), max, now).0|
    ensures Refines(w, known, Scarred(spoiled),
                    CommitSteps(w, placed, mime, Detached(|data|), w.sha(data), max, now).0[k].store,
                    Remember(w, h, mime, data, max, now).0)
  {
    CommitStates(w, placed, mime, Detached(|data|), w.sha(data), max, now, k);
    var expired := Upsert(w, placed.store.db, mime, Detached(|data|), w.sha(data), max, now).expired;
    var cache := placed.store.cache;
    RemovedFilesAfter(cache, expired, w.sha(data), data, None, cache, k);
    AfterCommitRefines(w, known, spoiled, placed.store, h, mime, Detached(|data|), data, max, now, None,
                       RemoveMany(cache, expired[..k]));
    assert spoiled + {} == spoiled;
  }

  // --- What a reader sees ---

  /** Atomicity at every step, under every refusal and even inside a copy: a crash
      before the commit shows the old history, one after it the new, with no row
      harmed that was not harmed before. */
  lemma DetachedRoadIsAtomic(w: World, known: set<Bytes>, spoiled: set<Digest>, d: Disk, h: History, mime: string,
                             f: SpooledFile, data: Bytes, max: u64, now: Time, r: Refusals, i: nat)
    requires BreaksTies(w) && NoCollision(w, known) && Refines(w, known, Scarred(spoiled), d.store, h)
    requires SpoolsKnown(w, known, d, f, data)
    requires IsDetachable(w, mime) && !IsSkipped(mime, f.len)
    requires i < |DetachedSteps(w, d, mime, f, max, now, r).0|
    ensures Readable(w, known, Scarred(spoiled), DetachedSteps(w, d, mime, f, max, now, r).0[i].store,
                     if Committed(d, f, r, i) then Remember(w, h, mime, data, max, now).0 else h)
  {
    var store := DetachedSteps(w, d, mime, f, max, now, r).0[i].store;
    if Committed(d, f, r, i) {
      CommittedStateRefines(w, known, spoiled, d, h, mime, f, data, max, now, r, i);
      RefinedIsReadable(w, known, Scarred(spoiled), store, Remember(w, h, mime, data, max, now).0);
    } else {
      RefinedIsReadable(w, known, Scarred(spoiled), d.store, h);
      UncommittedStates(w, d, mime, f, data, max, now, r, i);
    }
  }

  // --- What it can be carried on from ---

  lemma DetachedCutRefines(w: World, known: set<Bytes>, spoiled: set<Digest>, d: Disk, h: History, mime: string,
                           f: SpooledFile, data: Bytes, max: u64, now: Time, r: Refusals, i: nat)
    requires BreaksTies(w) && NoCollision(w, known) && Refines(w, known, Scarred(spoiled), d.store, h)
    requires SpoolsKnown(w, known, d, f, data)
    requires IsDetachable(w, mime) && !IsSkipped(mime, f.len)
    requires i < |DetachedSteps(w, d, mime, f, max, now, r).0|
    ensures Refines(w, known, Scarred(spoiled + if CopyCutOff(d, f, r, i) then {f.digest} else {}),
                    DetachedSteps(w, d, mime, f, max, now, r).0[i].store,
                    if Committed(d, f, r, i) then Remember(w, h, mime, data, max, now).0 else h)
  {
    assert spoiled + {} == spoiled;
    if Committed(d, f, r, i) {
      CommittedStateRefines(w, known, spoiled, d, h, mime, f, data, max, now, r, i);
    } else {
      UncommittedStates(w, d, mime, f, data, max, now, r, i);
      if CopyCutOff(d, f, r, i) {
        MoreDamage(w, known, Scarred(spoiled), spoiled + {f.digest}, d.store, h);
        FileCutOff(w, known, spoiled, d.store, h, data, data[..r.written]);
      } else {
        FilePlaced(w, known, spoiled, d.store, h, data);
      }
    }
  }

  /** What a kill after step `i` of `insert_spooled` spoils, whatever road it takes. */
  ghost function SpoolSpoils(w: World, d: Disk, mime: string, f: SpooledFile, max: u64, now: Time, r: Refusals,
                             i: nat): set<Digest>
    requires f.path in d.spool
  {
    if IsSkipped(mime, f.len) then {}
    else if IsDetachable(w, mime) then (if CopyCutOff(d, f, r, i) then {f.digest} else {})
    else if f.len > MAX_PAYLOAD_BYTES then {}
    else InsertSpoils(w, d.store, mime, d.spool[f.path], max, now, r.write, i)
  }

  /** What it means: the insertion happened, or it did not. */
  ghost function SpoolMeant(w: World, d: Disk, h: History, mime: string, f: SpooledFile, max: u64, now: Time,
                            r: Refusals, i: nat): History
    requires BreaksTies(w) && f.path in d.spool
  {
    if IsSkipped(mime, f.len) || (!IsDetachable(w, mime) && f.len > MAX_PAYLOAD_BYTES) then h
    else if IsDetachable(w, mime) && !Committed(d, f, r, i) then h
    else Remember(w, h, mime, d.spool[f.path], max, now).0
  }

  /** Killed after any step, on any road and under any refusal, a spooled insertion has
      happened or has not, and all that may be wrong is the file it was writing. */
  lemma SpoolCutRefines(w: World, known: set<Bytes>, spoiled: set<Digest>, d: Disk, h: History, mime: string,
                        f: SpooledFile, data: Bytes, max: u64, now: Time, r: Refusals, i: nat)
    requires BreaksTies(w) && NoCollision(w, known) && Refines(w, known, Scarred(spoiled), d.store, h)
    requires SpoolsKnown(w, known, d, f, data)
    requires i < |SpooledSteps(w, d, mime, f, max, now, r).0|
    ensures Refines(w, known, Scarred(spoiled + SpoolSpoils(w, d, mime, f, max, now, r, i)),
                    SpooledSteps(w, d, mime, f, max, now, r).0[i].store,
                    SpoolMeant(w, d, h, mime, f, max, now, r, i))
  {
    assert spoiled + {} == spoiled;
    if !IsSkipped(mime, f.len) {
      if IsDetachable(w, mime) {
        DetachedCutRefines(w, known, spoiled, d, h, mime, f, data, max, now, r, i);
      } else if f.len <= MAX_PAYLOAD_BYTES {
        InlineCutRefines(w, known, spoiled, d, h, mime, f, data, max, now, r, i);
      }
    }
  }

  // The states of the inline road: the insertion's, and the last one again, unlinked.
  lemma InlineStates(w: World, d: Disk, mime: string, f: SpooledFile, data: Bytes, max: u64, now: Time, r: Refusals,
                     i: nat)
    requires BreaksTies(w) && Sound(d.store.db) && f.path in d.spool && d.spool[f.path] == data
    requires f.digest == w.sha(data) && f.len == |data| <= MAX_PAYLOAD_BYTES
    requires !IsSkipped(mime, f.len) && !IsDetachable(w, mime) && i < |SpooledSteps(w, d, mime, f, max, now, r).0|
    ensures var inserting := InMemorySteps(w, d, mime, data, w.sha(data), max, now, r.write).0;
      var k := Min(i, |inserting| - 1);
      && 0 <= k < |inserting| && SpooledSteps(w, d, mime, f, max, now, r).0[i].store == inserting[k].store
      && InsertSpoils(w, d.store, mime, data, max, now, r.write, i)
        == InsertSpoils(w, d.store, mime, data, max, now, r.write, k)
  {
    UnlinkingSpoilsNothing(w, d, mime, data, max, now, r.write);
  }

  lemma InlineCutRefines(w: World, known: set<Bytes>, spoiled: set<Digest>, d: Disk, h: History, mime: string,
                         f: SpooledFile, data: Bytes, max: u64, now: Time, r: Refusals, i: nat)
    requires BreaksTies(w) && NoCollision(w, known) && Refines(w, known, Scarred(spoiled), d.store, h)
    requires SpoolsKnown(w, known, d, f, data)
    requires !IsSkipped(mime, f.len) && !IsDetachable(w, mime) && f.len <= MAX_PAYLOAD_BYTES
    requires i < |SpooledSteps(w, d, mime, f, max, now, r).0|
    ensures Refines(w, known, Scarred(spoiled + InsertSpoils(w, d.store, mime, data, max, now, r.write, i)),
                    SpooledSteps(w, d, mime, f, max, now, r).0[i].store, Remember(w, h, mime, data, max, now).0)
  {
    InlineStates(w, d, mime, f, data, max, now, r, i);
    var inserting := InMemorySteps(w, d, mime, data, w.sha(data), max, now, r.write).0;
    InsertCutRefines(w, known, spoiled, d, h, mime, data, max, now, r.write, Min(i, |inserting| - 1));
  }

  lemma UnlinkingSpoilsNothing(w: World, d: Disk, mime: string, data: Bytes, max: u64, now: Time, write: Write)
    requires BreaksTies(w) && Sound(d.store.db) && !IsSkipped(mime, |data|)
    ensures var n := |InMemorySteps(w, d, mime, data, w.sha(data), max, now, write).0|;
      n > 0 && InsertSpoils(w, d.store, mime, data, max, now, write, n)
            == InsertSpoils(w, d.store, mime, data, max, now, write, n - 1)
  {
    var u := Upsert(w, d.store.db, mime, InMemory(data), w.sha(data), max, now);
    var states := InMemorySteps(w, d, mime, data, w.sha(data), max, now, write).0;
    HashExpiresAt(w, d.store.db, mime, InMemory(data), w.sha(data), max, now);
    RemovalsHaveIndices(FiledState(w, d, mime, data, max, now, write), u.expired);
    assert |states| == 1 + FilingSteps(d.store, mime, w.sha(data), write) + |u.expired|;
  }

  /** What counts as spoiled is harmed in the state. */
  lemma SpoolCutHarms(w: World, known: set<Bytes>, d: Disk, mime: string, f: SpooledFile, data: Bytes, max: u64,
                      now: Time, r: Refusals, i: nat)
    requires BreaksTies(w) && NoCollision(w, known) && Sound(d.store.db) && SpoolsKnown(w, known, d, f, data)
    requires i < |SpooledSteps(w, d, mime, f, max, now, r).0|
    ensures SpoolSpoils(w, d, mime, f, max, now, r, i)
      <= Harmed(w, known, SpooledSteps(w, d, mime, f, max, now, r).0[i].store)
  {
    if SpoolSpoils(w, d, mime, f, max, now, r, i) != {} {
      if IsDetachable(w, mime) {
        AdoptionStates(d, f, data, r);
        UncommittedStates(w, d, mime, f, data, max, now, r, i);
        CutFileIsHarm(w, known, SpooledSteps(w, d, mime, f, max, now, r).0[i].store, data, r.written);
      } else {
        InlineStates(w, d, mime, f, data, max, now, r, i);
        var inserting := InMemorySteps(w, d, mime, data, w.sha(data), max, now, r.write).0;
        InsertCutHarms(w, known, d, mime, data, max, now, r.write, Min(i, |inserting| - 1));
      }
    }
  }

  /** From any store, scarred or not: on the detached road a payload that was well is
      harmed after step `i` if and only if it is the one whose copy was cut off there. A
      rename never harms anything. */
  lemma DetachedCutIsExact(w: World, known: set<Bytes>, d: Disk, h: History, mime: string, f: SpooledFile,
                           data: Bytes, max: u64, now: Time, r: Refusals, i: nat, x: Digest)
    requires BreaksTies(w) && NoCollision(w, known) && Refines(w, known, Scarred(Harmed(w, known, d.store)), d.store, h)
    requires SpoolsKnown(w, known, d, f, data) && IsDetachable(w, mime) && !IsSkipped(mime, f.len)
    requires i < |DetachedSteps(w, d, mime, f, max, now, r).0| && x !in Harmed(w, known, d.store)
    ensures x in Harmed(w, known, DetachedSteps(w, d, mime, f, max, now, r).0[i].store)
      <==> x == f.digest && CopyCutOff(d, f, r, i)
  {
    var harmed := Harmed(w, known, d.store);
    DetachedCutRefines(w, known, harmed, d, h, mime, f, data, max, now, r, i);
    OnlyHarmNeedsExcuse(w, known, harmed + if CopyCutOff(d, f, r, i) then {f.digest} else {},
                        DetachedSteps(w, d, mime, f, max, now, r).0[i].store,
                        if Committed(d, f, r, i) then Remember(w, h, mime, data, max, now).0 else h);
    SpoolCutHarms(w, known, d, mime, f, data, max, now, r, i);
  }

  // --- The other calls ---

  /** A deletion that stops before its file is removed leaves a file no row names. */
  lemma DeleteCrashLeavesAStore(w: World, known: set<Bytes>, spoiled: set<Digest>, s: Store, h: History, id: int)
    requires Refines(w, known, Scarred(spoiled), s, h)
    ensures Refines(w, known, Scarred(spoiled), Store(DeleteById(s, id).db, s.cache), Forget(h, id))
  {
    ForgetHolds(w, known, s, h, id);
  }

  /** A wipe that stops while the directory is being removed leaves any part of it. */
  lemma WipeCrashLeavesAStore(w: World, known: set<Bytes>, spoiled: set<Digest>, s: Store, h: History,
                              removed: set<Digest>)
    requires Refines(w, known, Scarred(spoiled), s, h)
    ensures Refines(w, known, Scarred(spoiled), Store(Wipe(s).db, s.cache - removed), h.(entries := map[]))
  {
  }
}
