/** What a kill or a failed write leaves behind, state by state: which history the store
    then stands for, and whether a payload's file was spoiled. */
module CrashStates {
  import opened Core
  import opened Tables
  import opened Store
  import opened History
  import opened Refinement
  import opened Rotation
  import opened SpoolSteps

  // --- Harm ---

  /** After a crash there may be files no row names. */
  function Scarred(spoiled: set<Digest>): Damage {
    Damage(true, spoiled)
  }

  /** The payloads that are harmed in a store: their file is not what its name says, or a
      detached row has none. */
  ghost function Harmed(w: World, known: set<Bytes>, s: Store): set<Digest> {
    (set x | x in s.cache && !Genuine(w, known, x, s.cache[x])) +
    (set id | id in s.db.rows && IsDetached(s.db.rows[id]) && s.db.rows[id].hash !in s.cache :: s.db.rows[id].hash)
  }

  lemma MoreDamage(w: World, known: set<Bytes>, damage: Damage, spoiled: set<Digest>, s: Store, h: History)
    requires Refines(w, known, damage, s, h) && damage.spoiled <= spoiled
    ensures Refines(w, known, Scarred(spoiled), s, h)
  {
  }

  /** Whatever a store is excused for, only what is harmed in it needs the excuse. */
  lemma OnlyHarmNeedsExcuse(w: World, known: set<Bytes>, spoiled: set<Digest>, s: Store, h: History)
    requires Refines(w, known, Scarred(spoiled), s, h)
    ensures Harmed(w, known, s) <= spoiled
    ensures Refines(w, known, Scarred(Harmed(w, known, s)), s, h)
  {
  }

  /** A file written in full makes good whatever was missing under its name. */
  lemma FileWritten(w: World, known: set<Bytes>, spoiled: set<Digest>, s: Store, h: History, data: Bytes)
    requires Refines(w, known, Scarred(spoiled + {w.sha(data)}), s, h)
    requires w.sha(data) !in s.cache && data in known
    ensures Refines(w, known, Scarred(spoiled), s.(cache := s.cache[w.sha(data) := data]), h)
  {
  }

  /** A file written in part spoils its name. */
  lemma FileCutOff(w: World, known: set<Bytes>, spoiled: set<Digest>, s: Store, h: History, data: Bytes, part: Bytes)
    requires Refines(w, known, Scarred(spoiled + {w.sha(data)}), s, h)
    requires w.sha(data) !in s.cache && data in known && part <= data
    ensures Refines(w, known, Scarred(spoiled + {w.sha(data)}), s.(cache := s.cache[w.sha(data) := part]), h)
  {
    assert Truncated(w, known, w.sha(data), part);
  }

  // A file cut short is not the file.
  lemma CutFileIsHarm(w: World, known: set<Bytes>, s: Store, data: Bytes, n: nat)
    requires NoCollision(w, known) && data in known && n < |data|
    requires w.sha(data) in s.cache && s.cache[w.sha(data)] == data[..n]
    ensures w.sha(data) in Harmed(w, known, s)
  {
    assert data[..n] != data;
  }

  // --- After the commit ---

  lemma CommitTables(w: World, known: set<Bytes>, t: Tables, h: History, mime: string, body: Body, data: Bytes,
                     max: u64, now: Time)
    requires BreaksTies(w) && NoCollision(w, known) && TablesHold(w, known, t, h) && Known(w, known, data)
    requires !IsSkipped(mime, |data|)
    requires body == InMemory(data) || (body == Detached(|data|) && IsDetachable(w, mime))
    ensures TablesHold(w, known, Upsert(w, t, mime, body, w.sha(data), max, now).db,
                       Remember(w, h, mime, data, max, now).0)
  {
    PlaceHolds(w, known, t, h, mime, body, data, now);
    EvictHolds(w, known, Place(w, t, mime, body, w.sha(data), now).0, PlaceEntry(h, mime, data, now).0, max);
  }

  /** The files at some step after a commit: those from before, less some that expired,
      and under the insertion's own hash, if that was free, a file of so many bytes. */
  ghost predicate FilesAfter(cache: map<Digest, Bytes>, expired: seq<Digest>, hash: Digest, data: Bytes,
                             file: Option<nat>, cache': map<Digest, Bytes>) {
    && (forall x | x in cache' && (x != hash || hash in cache) :: x in cache && cache'[x] == cache[x])
    && (forall x | x in cache && x !in expired :: x in cache')
    && (hash !in cache ==>
         && (hash in cache' <==> file.Some?)
         && (hash in cache' ==> cache'[hash] == Part(data, file.value)))
  }

  /** Whether the insertion's own payload is harmed then: its file is too short, or
      missing although a row needs it. */
  ghost predicate HarmedAfter(w: World, s: Store, mime: string, body: Body, data: Bytes, max: u64, now: Time,
                              file: Option<nat>) {
    && w.sha(data) !in s.cache
    && match file
       case Some(n) => n < |data|
       case None =>
         && IsDetached(NewRow(w, mime, body, w.sha(data), now))
         && FindHash(s.db.rows, w.sha(data)).None? && !Evicted(w, s.db, w.sha(data), max, now)
  }

  lemma FilesAfterHold(w: World, known: set<Bytes>, spoiled: set<Digest>, s: Store, mime: string, body: Body,
                       data: Bytes, max: u64, now: Time, file: Option<nat>, cache': map<Digest, Bytes>)
    requires BreaksTies(w) && Sound(s.db) && FilesHold(w, known, Scarred(spoiled), s.db.rows, s.cache) && data in known
    requires FilesAfter(s.cache, Upsert(w, s.db, mime, body, w.sha(data), max, now).expired, w.sha(data), data, file,
                        cache')
    requires HarmedAfter(w, s, mime, body, data, max, now, file) ==> w.sha(data) in spoiled
    ensures FilesHold(w, known, Scarred(spoiled), Upsert(w, s.db, mime, body, w.sha(data), max, now).db.rows, cache')
  {
    var hash := w.sha(data);
    var u := Upsert(w, s.db, mime, body, hash, max, now);
    CommittedRows(w, s.db, mime, body, hash, max, now);
    ExpiredAreNotKept(w, s.db, mime, body, hash, max, now);
    if hash in cache' && hash !in s.cache {
      assert file.value >= |data| ==> Part(data, file.value) == data;
      assert Truncated(w, known, hash, Part(data, file.value));
    }
    forall id | id in u.db.rows && IsDetached(u.db.rows[id]) && u.db.rows[id].hash !in spoiled
      ensures u.db.rows[id].hash in cache'
    {
      assert u.db.rows[id].hash !in u.expired;
    }
  }

  /** Every state after a commit stands for the new history; only the insertion's own
      file may be wrong that was not before. */
  lemma AfterCommitRefines(w: World, known: set<Bytes>, spoiled: set<Digest>, s: Store, h: History, mime: string,
                           body: Body, data: Bytes, max: u64, now: Time, file: Option<nat>,
                           cache': map<Digest, Bytes>)
    requires BreaksTies(w) && NoCollision(w, known) && Refines(w, known, Scarred(spoiled), s, h)
    requires Known(w, known, data)
    requires !IsSkipped(mime, |data|)
    requires body == InMemory(data) || (body == Detached(|data|) && IsDetachable(w, mime))
    requires FilesAfter(s.cache, Upsert(w, s.db, mime, body, w.sha(data), max, now).expired, w.sha(data), data, file,
                        cache')
    ensures Refines(w, known,
                    Scarred(spoiled +
                            if HarmedAfter(w, s, mime, body, data, max, now, file) then {w.sha(data)} else {}),
                    Store(Upsert(w, s.db, mime, body, w.sha(data), max, now).db, cache'),
                    Remember(w, h, mime, data, max, now).0)
  {
    var spoiled' := spoiled + if HarmedAfter(w, s, mime, body, data, max, now, file) then {w.sha(data)} else {};
    CommitTables(w, known, s.db, h, mime, body, data, max, now);
    MoreDamage(w, known, Scarred(spoiled), spoiled', s, h);
    FilesAfterHold(w, known, spoiled', s, mime, body, data, max, now, file, cache');
  }

  /** And it is wrong: what counts as harmed is. */
  lemma AfterCommitIsHarmed(w: World, known: set<Bytes>, s: Store, mime: string, body: Body, data: Bytes, max: u64,
                            now: Time, file: Option<nat>, cache': map<Digest, Bytes>)
    requires BreaksTies(w) && NoCollision(w, known) && Sound(s.db) && data in known
    requires FilesAfter(s.cache, Upsert(w, s.db, mime, body, w.sha(data), max, now).expired, w.sha(data), data, file,
                        cache')
    requires HarmedAfter(w, s, mime, body, data, max, now, file)
    ensures w.sha(data) in Harmed(w, known, Store(Upsert(w, s.db, mime, body, w.sha(data), max, now).db, cache'))
  {
    var store := Store(Upsert(w, s.db, mime, body, w.sha(data), max, now).db, cache');
    match file
    case Some(n) => CutFileIsHarm(w, known, store, data, n);
    case None =>
      CommittedRows(w, s.db, mime, body, w.sha(data), max, now);
      assert IsDetached(store.db.rows[s.db.nextId]);
  }

  lemma RemovedFilesAfter(cache: map<Digest, Bytes>, expired: seq<Digest>, hash: Digest, data: Bytes,
                          file: Option<nat>, cache': map<Digest, Bytes>, k: nat)
    requires FilesAfter(cache, expired, hash, data, file, cache') && k <= |expired|
    ensures FilesAfter(cache, expired, hash, data, if hash in expired[..k] then None else file,
                       RemoveMany(cache', expired[..k]))
  {
    assert forall x | x in expired[..k] :: x in expired;
  }

  // --- An insertion from memory ---

  function FilingSteps(s: Store, mime: string, hash: Digest, write: Write): nat {
    if !IsCacheClass(mime) then 0 else if hash !in s.cache && write.Succeeds? then 2 else 1
  }

  /** The length of the file under the insertion's own hash after step `i`, if that name
      was free before: told from the state before the call. */
  ghost function FileAt(w: World, s: Store, mime: string, data: Bytes, max: u64, now: Time, write: Write,
                        i: nat): Option<nat> {
    var removed := i - 1 - FilingSteps(s, mime, w.sha(data), write);
    if !IsCacheClass(mime) || i == 0 then None
    else if removed >= 0 && Evicted(w, s.db, w.sha(data), max, now)
         && removed >= |AheadOf(w, s.db.rows, PlaceId(s.db, w.sha(data)), now)| - Offset(max) then None
    else match write
      case Succeeds(seen) => Some(if i == 1 then seen else |data|)
      case Fails(left) => left
  }

  /** What a kill after step `i` spoils, or the failed write of an insertion that went on
      to its last step: a file that was not begun, or not finished, and is needed or has
      not been removed as expired. */
  ghost function InsertSpoils(w: World, s: Store, mime: string, data: Bytes, max: u64, now: Time, write: Write,
                              i: nat): set<Digest> {
    if !IsSkipped(mime, |data|)
      && HarmedAfter(w, s, mime, InMemory(data), data, max, now, FileAt(w, s, mime, data, max, now, write, i))
    then {w.sha(data)}
    else {}
  }

  // The states by number: the commit, the file being written, the removals.
  lemma InsertStates(w: World, d: Disk, mime: string, data: Bytes, hash: Digest, max: u64, now: Time, write: Write,
                     i: nat)
    requires BreaksTies(w) && i < |InMemorySteps(w, d, mime, data, hash, max, now, write).0|
    ensures var u := Upsert(w, d.store.db, mime, InMemory(data), hash, max, now);
      var state := InMemorySteps(w, d, mime, data, hash, max, now, write).0[i];
      var committed := d.(store := d.store.(db := u.db));
      var filing := if u.isImage then StoreSteps(committed, hash, data, write) else [];
      && !IsSkipped(mime, |data|) && |filing| == FilingSteps(d.store, mime, hash, write)
      && state == if i == 0 then committed
         else if i <= |filing| then filing[i - 1]
         else Removals(Last(filing, committed), u.expired)[i - 1 - |filing|]
  {
  }

  // The file being written, at each of its steps.
  lemma FilingFiles(w: World, d: Disk, expired: seq<Digest>, mime: string, data: Bytes, max: u64, now: Time,
                    write: Write, k: nat)
    requires IsCacheClass(mime) && k < |StoreSteps(d, w.sha(data), data, write)|
    ensures var state := StoreSteps(d, w.sha(data), data, write)[k];
      var file := match write case Succeeds(seen) => Some(if k == 0 then seen else |data|) case Fails(left) => left;
      state.store.db == d.store.db && FilesAfter(d.store.cache, expired, w.sha(data), data, file, state.store.cache)
  {
    assert Part(data, |data|) == data;
  }

  // While the file is being written.
  lemma WritingFilesAt(w: World, d: Disk, mime: string, data: Bytes, max: u64, now: Time, write: Write, k: nat)
    requires BreaksTies(w) && k < FilingSteps(d.store, mime, w.sha(data), write)
    ensures var u := Upsert(w, d.store.db, mime, InMemory(data), w.sha(data), max, now);
      var filing := StoreSteps(d.(store := d.store.(db := u.db)), w.sha(data), data, write);
      && k < |filing| && filing[k].store.db == u.db
      && FilesAfter(d.store.cache, u.expired, w.sha(data), data, FileAt(w, d.store, mime, data, max, now, write, k + 1),
                    filing[k].store.cache)
  {
    var u := Upsert(w, d.store.db, mime, InMemory(data), w.sha(data), max, now);
    FilingFiles(w, d.(store := d.store.(db := u.db)), u.expired, mime, data, max, now, write, k);
  }

  // Each state is the committed tables with files as `FileAt` says.
  lemma InsertFilesAt(w: World, d: Disk, mime: string, data: Bytes, max: u64, now: Time, write: Write, i: nat)
    requires BreaksTies(w) && Sound(d.store.db) && i < |InMemorySteps(w, d, mime, data, w.sha(data), max, now, write).0|
    ensures var u := Upsert(w, d.store.db, mime, InMemory(data), w.sha(data), max, now);
      var store := InMemorySteps(w, d, mime, data, w.sha(data), max, now, write).0[i].store;
      && store.db == u.db
      && FilesAfter(d.store.cache, u.expired, w.sha(data), data, FileAt(w, d.store, mime, data, max, now, write, i),
                    store.cache)
  {
    InsertStates(w, d, mime, data, w.sha(data), max, now, write, i);
    var filing := FilingSteps(d.store, mime, w.sha(data), write);
    if 0 < i <= filing {
      WritingFilesAt(w, d, mime, data, max, now, write, i - 1);
    } else if filing < i {
      RemovalsHaveIndices(FiledState(w, d, mime, data, max, now, write),
                          Upsert(w, d.store.db, mime, InMemory(data), w.sha(data), max, now).expired);
      RemovingFilesAt(w, d, mime, data, max, now, write, i - 1 - filing);
    }
  }

  ghost function FiledState(w: World, d: Disk, mime: string, data: Bytes, max: u64, now: Time, write: Write): Disk
    requires BreaksTies(w)
  {
    var u := Upsert(w, d.store.db, mime, InMemory(data), w.sha(data), max, now);
    var committed := d.(store := d.store.(db := u.db));
    Last(if u.isImage then StoreSteps(committed, w.sha(data), data, write) else [], committed)
  }

  // The files when the write is over, one way or the other.
  lemma FiledFiles(w: World, d: Disk, mime: string, data: Bytes, max: u64, now: Time, write: Write)
    requires BreaksTies(w)
    ensures var u := Upsert(w, d.store.db, mime, InMemory(data), w.sha(data), max, now);
      var filed := FiledState(w, d, mime, data, max, now, write);
      && filed.store.db == u.db
      && FilesAfter(d.store.cache, u.expired, w.sha(data), data, FileOnceWritten(mime, data, write), filed.store.cache)
  {
    var u := Upsert(w, d.store.db, mime, InMemory(data), w.sha(data), max, now);
    var committed := d.(store := d.store.(db := u.db));
    if u.isImage {
      var filing := StoreSteps(committed, w.sha(data), data, write);
      FilingFiles(w, committed, u.expired, mime, data, max, now, write, |filing| - 1);
    }
  }

  function FileOnceWritten(mime: string, data: Bytes, write: Write): Option<nat> {
    if !IsCacheClass(mime) then None else
      match write
      case Succeeds(_) => Some(|data|)
      case Fails(left) => left
  }

  // And while what expired is being removed.
  lemma RemovingFilesAt(w: World, d: Disk, mime: string, data: Bytes, max: u64, now: Time, write: Write, k: nat)
    requires BreaksTies(w) && Sound(d.store.db)
    requires k < |Upsert(w, d.store.db, mime, InMemory(data), w.sha(data), max, now).expired|
    ensures var u := Upsert(w, d.store.db, mime, InMemory(data), w.sha(data), max, now);
      var removing := Removals(FiledState(w, d, mime, data, max, now, write), u.expired);
      var i := k + 1 + FilingSteps(d.store, mime, w.sha(data), write);
      && k < |removing| && removing[k].store.db == u.db
      && FilesAfter(d.store.cache, u.expired, w.sha(data), data, FileAt(w, d.store, mime, data, max, now, write, i),
                    removing[k].store.cache)
  {
    var u := Upsert(w, d.store.db, mime, InMemory(data), w.sha(data), max, now);
    var filed := FiledState(w, d, mime, data, max, now, write);
    RemovalsAt(filed, u.expired, k);
    FiledFiles(w, d, mime, data, max, now, write);
    ExpiredAmong(w, d.store.db, mime, data, w.sha(data), max, now, k);
    RemovedFilesAfter(d.store.cache, u.expired, w.sha(data), data, FileOnceWritten(mime, data, write),
                      filed.store.cache, k + 1);
  }

  lemma RemovalsHaveIndices(d: Disk, hashes: seq<Digest>)
    ensures |Removals(d, hashes)| == |hashes|
  {
    if hashes != [] {
      RemovalsAt(d, hashes, 0);
    }
  }

  // By how many removals the insertion's own hash is gone.
  lemma ExpiredAmong(w: World, t: Tables, mime: string, data: Bytes, hash: Digest, max: u64, now: Time, k: nat)
    requires BreaksTies(w) && Sound(t) && k < |Upsert(w, t, mime, InMemory(data), hash, max, now).expired|
    ensures hash in Upsert(w, t, mime, InMemory(data), hash, max, now).expired[..k + 1] <==>
      Evicted(w, t, hash, max, now) && k >= |AheadOf(w, t.rows, PlaceId(t, hash), now)| - Offset(max)
  {
    var expired := Upsert(w, t, mime, InMemory(data), hash, max, now).expired;
    var place := |AheadOf(w, t.rows, PlaceId(t, hash), now)| - Offset(max);
    HashExpiresAt(w, t, mime, InMemory(data), hash, max, now);
    if Evicted(w, t, hash, max, now) && k >= place {
      assert expired[..k + 1][place] == hash;
    }
    if hash in expired[..k + 1] {
      var j :| 0 <= j < k + 1 && expired[j] == hash;
    }
  }

  /** Killed after any step, or carried through with its write lost, an insertion from
      memory has happened, and all that may be wrong is the one file it was to write. */
  lemma InsertCutRefines(w: World, known: set<Bytes>, spoiled: set<Digest>, d: Disk, h: History, mime: string,
                         data: Bytes, max: u64, now: Time, write: Write, i: nat)
    requires BreaksTies(w) && NoCollision(w, known) && Refines(w, known, Scarred(spoiled), d.store, h)
    requires Known(w, known, data)
    requires i < |InMemorySteps(w, d, mime, data, w.sha(data), max, now, write).0|
    ensures Refines(w, known, Scarred(spoiled + InsertSpoils(w, d.store, mime, data, max, now, write, i)),
                    InMemorySteps(w, d, mime, data, w.sha(data), max, now, write).0[i].store,
                    Remember(w, h, mime, data, max, now).0)
  {
    InsertFilesAt(w, d, mime, data, max, now, write, i);
    var store := InMemorySteps(w, d, mime, data, w.sha(data), max, now, write).0[i].store;
    AfterCommitRefines(w, known, spoiled, d.store, h, mime, InMemory(data), data, max, now,
                       FileAt(w, d.store, mime, data, max, now, write, i), store.cache);
  }

  /** And that damage is real: what counts as spoiled is harmed in the state. */
  lemma InsertCutHarms(w: World, known: set<Bytes>, d: Disk, mime: string, data: Bytes, max: u64, now: Time,
                       write: Write, i: nat)
    requires BreaksTies(w) && NoCollision(w, known) && Sound(d.store.db) && data in known
    requires i < |InMemorySteps(w, d, mime, data, w.sha(data), max, now, write).0|
    ensures InsertSpoils(w, d.store, mime, data, max, now, write, i)
         <= Harmed(w, known, InMemorySteps(w, d, mime, data, w.sha(data), max, now, write).0[i].store)
  {
    InsertFilesAt(w, d, mime, data, max, now, write, i);
    var file := FileAt(w, d.store, mime, data, max, now, write, i);
    var store := InMemorySteps(w, d, mime, data, w.sha(data), max, now, write).0[i].store;
    if HarmedAfter(w, d.store, mime, InMemory(data), data, max, now, file) {
      AfterCommitIsHarmed(w, known, d.store, mime, InMemory(data), data, max, now, file, store.cache);
    }
  }

  /** From any store, scarred or not: a payload that was well is harmed after step `i` if
      and only if it counts as spoiled. */
  lemma InsertCutIsExact(w: World, known: set<Bytes>, d: Disk, h: History, mime: string, data: Bytes, max: u64,
                         now: Time, write: Write, i: nat, x: Digest)
    requires BreaksTies(w) && NoCollision(w, known) && Refines(w, known, Scarred(Harmed(w, known, d.store)), d.store, h)
    requires Known(w, known, data) && i < |InMemorySteps(w, d, mime, data, w.sha(data), max, now, write).0|
    requires x !in Harmed(w, known, d.store)
    ensures x in Harmed(w, known, InMemorySteps(w, d, mime, data, w.sha(data), max, now, write).0[i].store)
      <==> x in InsertSpoils(w, d.store, mime, data, max, now, write, i)
  {
    var harmed := Harmed(w, known, d.store);
    InsertCutRefines(w, known, harmed, d, h, mime, data, max, now, write, i);
    OnlyHarmNeedsExcuse(w, known, harmed + InsertSpoils(w, d.store, mime, data, max, now, write, i),
                        InMemorySteps(w, d, mime, data, w.sha(data), max, now, write).0[i].store,
                        Remember(w, h, mime, data, max, now).0);
    InsertCutHarms(w, known, d, mime, data, max, now, write, i);
  }
}
