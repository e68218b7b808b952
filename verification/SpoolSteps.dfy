/** Insertion one step at a time, from a spool file and from memory: the states a kill
    could leave behind, with a rename, a copy or a commit that may be refused and with
    copies and writes that may be cut off at any byte. */
module SpoolSteps {
  import opened Core
  import opened FastCdc
  import opened Tables
  import opened Store
  import opened History
  import opened Refinement
  import opened Rotation

  /** The store together with the spool directory. */
  datatype Disk = Disk(store: Store, spool: map<Path, Bytes>)

  /** How the write of a cache file goes: it succeeds, `seen` bytes long on the way, or it
      fails and leaves so many bytes, or no file at all. */
  datatype Write = Succeeds(seen: nat) | Fails(left: Option<nat>)

  /** What the system refuses. A copy is not atomic either: `written` bytes of it are seen
      before it is complete, or before it fails. */
  datatype Refusals = Refusals(rename: bool, copy: bool, written: nat, commit: bool, write: Write)

  const NONE_REFUSED: Refusals := Refusals(false, false, 0, false, Succeeds(0))

  datatype Adoption = Placed | Present | Failed

  function WithCache(d: Disk, cache: map<Digest, Bytes>): Disk {
    d.(store := d.store.(cache := cache))
  }

  function Unlink(d: Disk, path: Path): Disk {
    d.(spool := d.spool - {path})
  }

  /** The states `FileCache::adopt` goes through, and what it answers. */
  function Adopt(d: Disk, hash: Digest, path: Path, r: Refusals): (seq<Disk>, Adoption)
    requires path in d.spool
  {
    var data := d.spool[path];
    if hash in d.store.cache then ([d], Present)
    else if !r.rename then ([Unlink(WithCache(d, d.store.cache[hash := data]), path)], Placed)
    else
      var partial := WithCache(d, d.store.cache[hash := Part(data, r.written)]);
      var copied := WithCache(d, d.store.cache[hash := data]);
      if r.copy then ([partial, d], Failed) else ([partial, copied, Unlink(copied, path)], Placed)
  }

  /** `remove_many`: the state after each single removal. */
  function Removals(d: Disk, hashes: seq<Digest>): seq<Disk>
    decreases |hashes|
  {
    if hashes == [] then [] else
      var d1 := WithCache(d, d.store.cache - {hashes[0]});
      [d1] + Removals(d1, hashes[1..])
  }

  function Last(states: seq<Disk>, d: Disk): Disk {
    if states == [] then d else states[|states| - 1]
  }

  /** The road of a detachable payload: place the file, then commit the row (or take
      the file out again), then remove what expired. */
  ghost function DetachedSteps(w: World, d: Disk, mime: string, f: SpooledFile, max: u64, now: Time,
                               r: Refusals): (seq<Disk>, Option<int>)
    requires BreaksTies(w) && f.path in d.spool
  {
    var (adopting, answer) := Adopt(d, f.digest, f.path, r);
    var placed := Unlink(Last(adopting, d), f.path);
    if answer == Failed then (adopting + [placed], None)
    else if r.commit then
      var back := if answer == Placed then WithCache(placed, placed.store.cache - {f.digest}) else placed;
      (adopting + [placed, back], None)
    else
      var (committing, id) := CommitSteps(w, placed, mime, Detached(f.len), f.digest, max, now);
      (adopting + ([placed] + committing), Some(id))
  }

  /** The commit, and the removal of what it expired. */
  ghost function CommitSteps(w: World, d: Disk, mime: string, body: Body, hash: Digest, max: u64,
                             now: Time): (seq<Disk>, int)
    requires BreaksTies(w)
  {
    var u := Upsert(w, d.store.db, mime, body, hash, max, now);
    var committed := d.(store := d.store.(db := u.db));
    ([committed] + Removals(committed, u.expired), u.id)
  }

  /** The states `FileCache::store` goes through; its error is ignored. */
  function StoreSteps(d: Disk, hash: Digest, data: Bytes, write: Write): seq<Disk> {
    if hash in d.store.cache then [d] else
      match write
      case Succeeds(seen) =>
        [WithCache(d, d.store.cache[hash := Part(data, seen)]), WithCache(d, d.store.cache[hash := data])]
      case Fails(Some(n)) => [WithCache(d, d.store.cache[hash := Part(data, n)])]
      case Fails(None) => [d]
  }

  function Part(data: Bytes, n: nat): Bytes {
    data[..Min(n, |data|)]
  }

  /** `insert_with_hash` in steps: commit, then write the file, then remove. */
  ghost function InMemorySteps(w: World, d: Disk, mime: string, data: Bytes, hash: Digest, max: u64, now: Time,
                               write: Write)
      : (seq<Disk>, int)
    requires BreaksTies(w)
  {
    if IsSkipped(mime, |data|) then ([], -1) else
      var u := Upsert(w, d.store.db, mime, InMemory(data), hash, max, now);
      var committed := d.(store := d.store.(db := u.db));
      var filing := if u.isImage then StoreSteps(committed, hash, data, write) else [];
      ([committed] + filing + Removals(Last(filing, committed), u.expired), u.id)
  }

  /** `insert_spooled` in steps. */
  ghost function SpooledSteps(w: World, d: Disk, mime: string, f: SpooledFile, max: u64, now: Time,
                              r: Refusals): (seq<Disk>, Option<int>)
    requires BreaksTies(w) && f.path in d.spool
  {
    if IsSkipped(mime, f.len) then ([Unlink(d, f.path)], Some(-1))
    else if IsDetachable(w, mime) then DetachedSteps(w, d, mime, f, max, now, r)
    else if f.len > MAX_PAYLOAD_BYTES || |d.spool[f.path]| != f.len then ([Unlink(d, f.path)], None)
    else
      var (states, id) := InMemorySteps(w, d, mime, d.spool[f.path], f.digest, max, now, r.write);
      (states + [Unlink(Last(states, d), f.path)], Some(id))
  }

  /** No committed detached row names a missing file. */
  ghost predicate CrashSafe(d: Disk) {
    NoneDangling(d.store.db.rows, d.store.cache)
  }

  ghost predicate AllCrashSafe(states: seq<Disk>) {
    forall i | 0 <= i < |states| :: CrashSafe(states[i])
  }

  // --- The spool road is crash safe ---

  lemma {:induction false} RemovalsAreSafe(d: Disk, hashes: seq<Digest>)
    requires CrashSafe(d)
    requires forall id | id in d.store.db.rows :: d.store.db.rows[id].hash !in hashes
    ensures AllCrashSafe(Removals(d, hashes))
    decreases |hashes|
  {
    if hashes != [] {
      RemovalsAreSafe(WithCache(d, d.store.cache - {hashes[0]}), hashes[1..]);
    }
  }

  // After `k + 1` removals the first `k + 1` hashes are gone.
  lemma {:induction false} RemovalsAt(d: Disk, hashes: seq<Digest>, k: nat)
    requires k < |hashes|
    ensures |Removals(d, hashes)| == |hashes|
    ensures Removals(d, hashes)[k] == WithCache(d, RemoveMany(d.store.cache, hashes[..k + 1]))
    decreases |hashes|
  {
    var d1 := WithCache(d, d.store.cache - {hashes[0]});
    var first, rest := hashes[..k + 1], hashes[1..];
    assert first == [hashes[0]] + rest[..k];
    if k == 0 {
      assert d.store.cache - {hashes[0]} == RemoveMany(d.store.cache, first);
    } else {
      assert (set h | h in first) == {hashes[0]} + set h | h in rest[..k];
      assert RemoveMany(d1.store.cache, rest[..k]) == RemoveMany(d.store.cache, first);
      RemovalsAt(d1, rest, k - 1);
    }
    if rest != [] {
      RemovalsAt(d1, rest, 0);
    }
  }

  lemma RemovalsEnd(d: Disk, hashes: seq<Digest>)
    ensures Last(Removals(d, hashes), d) == WithCache(d, RemoveMany(d.store.cache, hashes))
  {
    if hashes == [] {
      assert RemoveMany(d.store.cache, hashes) == d.store.cache;
    } else {
      RemovalsAt(d, hashes, |hashes| - 1);
      assert hashes[..|hashes|] == hashes;
    }
  }

  lemma PlacedRows(w: World, t: Tables, mime: string, body: Body, hash: Digest, now: Time)
    requires Sound(t)
    ensures var t' := Place(w, t, mime, body, hash, now).0;
      && Sound(t')
      && match FindHash(t.rows, hash)
         case Some(k) => t'.rows == t.rows[k := t.rows[k].(timestamp := now)]
         case None => t'.rows == t.rows[t.nextId := NewRow(w, mime, body, hash, now)]
  {
    PlaceIsSound(w, t, mime, body, hash, now);
    if FindHash(t.rows, hash).None? && body.InMemory? && IsChunkable(mime, |body.data|) {
      var added := InsertRow(t, NewRow(w, mime, body, hash, now));
      InsertRowIsSound(t, NewRow(w, mime, body, hash, now));
      ManifestOfNewId(t);
      LinkAllKeepsAccounts(w, added, t.nextId, 0, Chunks(w.gear, body.data));
    }
  }

  /** The row an insertion touches, or the one it is going to add. */
  ghost function PlaceId(t: Tables, hash: Digest): int {
    match FindHash(t.rows, hash)
    case Some(id) => id
    case None => t.nextId
  }

  /** Whether the insertion's own row will be evicted at once: it is not pinned, and at
      least as many rows as the quota allows are ahead of it. */
  ghost predicate Evicted(w: World, t: Tables, hash: Digest, max: u64, now: Time) {
    && !Pinned(t, PlaceId(t, hash))
    && |AheadOf(w, t.rows, PlaceId(t, hash), now)| >= Offset(max)
  }

  predicate Pinned(t: Tables, id: int) {
    id in t.rows && t.rows[id].pinned
  }

  // What the commit leaves: old rows, and the new one if it is not evicted at once.
  lemma CommittedRows(w: World, t: Tables, mime: string, body: Body, hash: Digest, max: u64, now: Time)
    requires BreaksTies(w) && Sound(t)
    ensures var u := Upsert(w, t, mime, body, hash, max, now);
      && (forall k | k in u.db.rows ::
           if k in t.rows then u.db.rows[k].hash == t.rows[k].hash && IsDetached(u.db.rows[k]) == IsDetached(t.rows[k])
           else k == t.nextId && u.db.rows[k] == NewRow(w, mime, body, hash, now) && FindHash(t.rows, hash).None?)
      && (FindHash(t.rows, hash).None? ==> (t.nextId in u.db.rows <==> !Evicted(w, t, hash, max, now)))
  {
    var t' := Place(w, t, mime, body, hash, now).0;
    PlacedRows(w, t, mime, body, hash, now);
    DropIsSound(t', Expiring(w, t'.rows, max));
    if FindHash(t.rows, hash).None? {
      PlacedSurvivesIff(w, t.rows, t', t.nextId, NewRow(w, mime, body, hash, now), max);
    }
  }

  // The placed row among the expiring ones: where, if anywhere.
  lemma RowExpiresAt(w: World, rows: map<int, Row>, id: int, row: Row, max: u64)
    requires BreaksTies(w)
    ensures var expiring := Expiring(w, rows[id := row], max);
      var place := |AheadOf(w, rows, id, row.timestamp)| - Offset(max);
      && (!row.pinned && 0 <= place ==> place < |expiring| && expiring[place] == id)
      && (forall k | 0 <= k < |expiring| && expiring[k] == id :: !row.pinned && k == place)
  {
    ExpiringAreRows(w, rows[id := row], max);
    if !row.pinned {
      AheadOncePlaced(w, rows, id, row);
      ExpiresAt(w, rows[id := row], max, id);
    }
  }

  // A hash among the expired ones is there for its own row.
  lemma HashExpiresWithRow(w: World, rows: map<int, Row>, max: u64, id: int)
    requires BreaksTies(w) && UniqueHashes(rows) && id in rows
    ensures var expiring, expired := Expiring(w, rows, max), ExpiredHashes(w, rows, max);
      |expired| == |expiring| && forall k | 0 <= k < |expired| :: expired[k] == rows[id].hash <==> expiring[k] == id
  {
    ExpiringAreRows(w, rows, max);
  }

  // So the insertion's own hash is among them in one place at most.
  lemma HashExpiresAt(w: World, t: Tables, mime: string, body: Body, hash: Digest, max: u64, now: Time)
    requires BreaksTies(w) && Sound(t)
    ensures var expired := Upsert(w, t, mime, body, hash, max, now).expired;
      var place := |AheadOf(w, t.rows, PlaceId(t, hash), now)| - Offset(max);
      && (Evicted(w, t, hash, max, now) ==> 0 <= place < |expired| && expired[place] == hash)
      && (forall k | 0 <= k < |expired| && expired[k] == hash :: Evicted(w, t, hash, max, now) && k == place)
  {
    var (t', id) := Place(w, t, mime, body, hash, now);
    PlacedRows(w, t, mime, body, hash, now);
    RowExpiresAt(w, t.rows, id, t'.rows[id], max);
    HashExpiresWithRow(w, t'.rows, max, id);
  }

  // What expires is not the file of a row that stays.
  lemma ExpiredAreNotKept(w: World, t: Tables, mime: string, body: Body, hash: Digest, max: u64, now: Time)
    requires BreaksTies(w) && Sound(t)
    ensures var u := Upsert(w, t, mime, body, hash, max, now);
      forall id | id in u.db.rows :: u.db.rows[id].hash !in u.expired
  {
    var t' := Place(w, t, mime, body, hash, now).0;
    PlaceIsSound(w, t, mime, body, hash, now);
    DropIsSound(t', Expiring(w, t'.rows, max));
    var rows := Rotate(w, t', max).rows;
    forall id | id in rows
      ensures rows[id].hash !in ExpiredHashes(w, t'.rows, max)
    {
      ExpiredAreEvicted(w, t', max, rows[id].hash);
    }
  }

  // The commit is safe when the file of the row it adds is already there.
  lemma CommitIsSafe(w: World, d: Disk, mime: string, body: Body, hash: Digest, max: u64, now: Time)
    requires BreaksTies(w) && Sound(d.store.db) && CrashSafe(d)
    requires IsDetached(NewRow(w, mime, body, hash, now)) ==> hash in d.store.cache
    ensures var u := Upsert(w, d.store.db, mime, body, hash, max, now);
      CrashSafe(d.(store := d.store.(db := u.db)))
  {
    CommittedRows(w, d.store.db, mime, body, hash, max, now);
  }

  lemma CommitStepsAreSafe(w: World, d: Disk, mime: string, body: Body, hash: Digest, max: u64, now: Time)
    requires BreaksTies(w) && Sound(d.store.db) && CrashSafe(d)
    requires IsDetached(NewRow(w, mime, body, hash, now)) ==> hash in d.store.cache
    ensures AllCrashSafe(CommitSteps(w, d, mime, body, hash, max, now).0)
  {
    CommitIsSafe(w, d, mime, body, hash, max, now);
    ExpiredAreNotKept(w, d.store.db, mime, body, hash, max, now);
    var u := Upsert(w, d.store.db, mime, body, hash, max, now);
    RemovalsAreSafe(d.(store := d.store.(db := u.db)), u.expired);
  }

  lemma AdoptionIsSafe(d: Disk, hash: Digest, path: Path, r: Refusals)
    requires path in d.spool && CrashSafe(d)
    ensures var (states, answer) := Adopt(d, hash, path, r);
      && states != [] && AllCrashSafe(states)
      && Last(states, d).store.db == d.store.db
      && (answer != Failed ==> hash in Last(states, d).store.cache)
      && (answer == Placed ==> Last(states, d).store.cache - {hash} == d.store.cache)
      && Unlink(Last(states, d), path).spool == d.spool - {path}
  {
  }

  /** At every step of the detached road, whatever is refused and wherever it stops,
      every committed detached row still has its file. */
  lemma DetachedRoadIsCrashSafe(w: World, d: Disk, mime: string, f: SpooledFile, max: u64, now: Time, r: Refusals)
    requires BreaksTies(w) && f.path in d.spool && Sound(d.store.db) && CrashSafe(d)
    ensures AllCrashSafe(DetachedSteps(w, d, mime, f, max, now, r).0)
  {
    var (adopting, answer) := Adopt(d, f.digest, f.path, r);
    AdoptionIsSafe(d, f.digest, f.path, r);
    var placed := Unlink(Last(adopting, d), f.path);
    if answer != Failed && !r.commit {
      CommitStepsAreSafe(w, placed, mime, Detached(f.len), f.digest, max, now);
    }
  }

  // --- The other order is not, and exactly when ---

  /** What a caller can check before an insertion from memory: it will add a row without
      content (an image, or a text-labelled GIF that is not UTF-8), whose file is not
      there yet, and which is not evicted at once. */
  ghost predicate Dangles(w: World, s: Store, mime: string, data: Bytes, hash: Digest, max: u64, now: Time) {
    && !IsSkipped(mime, |data|)
    && IsCacheClass(mime) && !(w.utf8(data) && w.textLike(mime))
    && hash !in s.cache && (forall id | id in s.db.rows :: s.db.rows[id].hash != hash)
    && !Evicted(w, s.db, hash, max, now)
  }

  lemma CommitDanglesIff(w: World, s: Store, mime: string, data: Bytes, hash: Digest, max: u64, now: Time)
    requires BreaksTies(w) && Sound(s.db) && NoneDangling(s.db.rows, s.cache) && !IsSkipped(mime, |data|)
    ensures var u := Upsert(w, s.db, mime, InMemory(data), hash, max, now);
      NoneDangling(u.db.rows, s.cache) <==> !Dangles(w, s, mime, data, hash, max, now)
  {
    var u := Upsert(w, s.db, mime, InMemory(data), hash, max, now);
    CommittedRows(w, s.db, mime, InMemory(data), hash, max, now);
    if Dangles(w, s, mime, data, hash, max, now) {
      assert IsDetached(u.db.rows[s.db.nextId]);
    }
  }

  lemma FilingIsSafe(d: Disk, isImage: bool, hash: Digest, data: Bytes, write: Write, expired: seq<Digest>)
    requires CrashSafe(d) && forall id | id in d.store.db.rows :: d.store.db.rows[id].hash !in expired
    ensures var filing := if isImage then StoreSteps(d, hash, data, write) else [];
      AllCrashSafe(filing) && AllCrashSafe(Removals(Last(filing, d), expired))
  {
    var filing := if isImage then StoreSteps(d, hash, data, write) else [];
    RemovalsAreSafe(Last(filing, d), expired);
  }

  /** Committing before the file exists, as `insert_with_hash` does, passes through a
      state with a dangling row in exactly that case. */
  lemma InMemoryCommitDangles(w: World, d: Disk, mime: string, data: Bytes, hash: Digest, max: u64, now: Time,
                              write: Write)
    requires BreaksTies(w) && Sound(d.store.db) && CrashSafe(d)
    ensures AllCrashSafe(InMemorySteps(w, d, mime, data, hash, max, now, write).0)
      <==> !Dangles(w, d.store, mime, data, hash, max, now)
  {
    if !IsSkipped(mime, |data|) {
      var u := Upsert(w, d.store.db, mime, InMemory(data), hash, max, now);
      var committed := d.(store := d.store.(db := u.db));
      CommitDanglesIff(w, d.store, mime, data, hash, max, now);
      if Dangles(w, d.store, mime, data, hash, max, now) {
        assert InMemorySteps(w, d, mime, data, hash, max, now, write).0[0] == committed;
      } else {
        ExpiredAreNotKept(w, d.store.db, mime, InMemory(data), hash, max, now);
        FilingIsSafe(committed, u.isImage, hash, data, write, u.expired);
      }
    }
  }

  // --- Where the roads end ---

  lemma CommitStepsEnd(w: World, d: Disk, mime: string, body: Body, hash: Digest, max: u64, now: Time)
    requires BreaksTies(w)
    ensures var u := Upsert(w, d.store.db, mime, body, hash, max, now);
      var (states, id) := CommitSteps(w, d, mime, body, hash, max, now);
      && id == u.id && states != []
      && Last(states, d) == d.(store := Store(u.db, RemoveMany(d.store.cache, u.expired)))
  {
    var u := Upsert(w, d.store.db, mime, body, hash, max, now);
    RemovalsEnd(d.(store := d.store.(db := u.db)), u.expired);
  }

  lemma InMemoryStepsEnd(w: World, d: Disk, mime: string, data: Bytes, hash: Digest, max: u64, now: Time, write: Write)
    requires BreaksTies(w)
    ensures var (states, id) := InMemorySteps(w, d, mime, data, hash, max, now, write);
      var (s, id') := InsertWithHash(w, d.store, mime, data, hash, max, now);
      && id == id' && Last(states, d).spool == d.spool
      && (write.Succeeds? ==> Last(states, d) == d.(store := s))
  {
    if !IsSkipped(mime, |data|) {
      var u := Upsert(w, d.store.db, mime, InMemory(data), hash, max, now);
      var committed := d.(store := d.store.(db := u.db));
      var filing := if u.isImage then StoreSteps(committed, hash, data, write) else [];
      FilingEnds(committed, u.isImage, hash, data, write);
      RemovalsEnd(Last(filing, committed), u.expired);
      var removing := Removals(Last(filing, committed), u.expired);
      LastOf([committed] + filing, removing, committed, d);
      LastOf([committed], filing, committed, d);
    }
  }

  lemma LastOf(a: seq<Disk>, b: seq<Disk>, d: Disk, d0: Disk)
    requires a != []
    ensures Last(a + b, d0) == Last(b, Last(a, d))
  {
  }

  lemma FilingEnds(d: Disk, isImage: bool, hash: Digest, data: Bytes, write: Write)
    ensures var filed := Last(if isImage then StoreSteps(d, hash, data, write) else [], d);
      && filed.spool == d.spool && filed.store.db == d.store.db
      && (write.Succeeds? ==>
           filed.store.cache == if isImage then StoreFile(d.store.cache, hash, data) else d.store.cache)
  {
  }

  /** An insertion that is refused, whatever refuses it, ends in the store it began with:
      a file it had placed is taken out again. */
  lemma RefusedLeavesNoTrace(w: World, d: Disk, mime: string, f: SpooledFile, max: u64, now: Time, r: Refusals)
    requires BreaksTies(w) && f.path in d.spool
    ensures var (states, answer) := SpooledSteps(w, d, mime, f, max, now, r);
      answer == None ==> states != [] && Last(states, d) == Disk(d.store, d.spool - {f.path})
  {
    if !IsSkipped(mime, f.len) && IsDetachable(w, mime) {
      var (adopting, answer) := Adopt(d, f.digest, f.path, r);
      if answer == Placed {
        assert Last(adopting, d).store.cache - {f.digest} == d.store.cache;
      }
      assert Unlink(Last(adopting, d), f.path).spool == d.spool - {f.path};
    }
  }

  /** Every path of `insert_spooled` consumes its spool file and touches no other. */
  lemma SpoolFileIsConsumed(w: World, d: Disk, mime: string, f: SpooledFile, max: u64, now: Time, r: Refusals)
    requires BreaksTies(w) && f.path in d.spool && CrashSafe(d)
    ensures var states := SpooledSteps(w, d, mime, f, max, now, r).0;
      states != [] && Last(states, d).spool == d.spool - {f.path}
  {
    if IsDetachable(w, mime) {
      var placed := Unlink(Last(Adopt(d, f.digest, f.path, r).0, d), f.path);
      AdoptionIsSafe(d, f.digest, f.path, r);
      CommitStepsEnd(w, placed, mime, Detached(f.len), f.digest, max, now);
    } else {
      InMemoryStepsEnd(w, d, mime, d.spool[f.path], f.digest, max, now, r.write);
    }
  }

  /** The row a detachable payload gets is the same with or without its bytes. */
  lemma DetachedRowNeedsNoBytes(w: World, t: Tables, mime: string, data: Bytes, hash: Digest, max: u64, now: Time)
    requires BreaksTies(w) && IsDetachable(w, mime)
    ensures Upsert(w, t, mime, Detached(|data|), hash, max, now) == Upsert(w, t, mime, InMemory(data), hash, max, now)
  {
    assert NewRow(w, mime, Detached(|data|), hash, now) == NewRow(w, mime, InMemory(data), hash, now);
  }

  /** Road agreement: with nothing refused, a spool file holding `data` under its
      digest ends in the very store and id that inserting the bytes from memory gives,
      unless the payload is stored inline and above the payload limit. */
  lemma RoadsAgree(w: World, d: Disk, mime: string, f: SpooledFile, max: u64, now: Time)
    requires BreaksTies(w) && f.path in d.spool && f.len == |d.spool[f.path]|
    ensures var (states, r) := SpooledSteps(w, d, mime, f, max, now, NONE_REFUSED);
      var (s, id) := InsertWithHash(w, d.store, mime, d.spool[f.path], f.digest, max, now);
      (Last(states, d) == Disk(s, d.spool - {f.path}) && r == Some(id)) <==>
      (IsSkipped(mime, f.len) || IsDetachable(w, mime) || f.len <= MAX_PAYLOAD_BYTES)
  {
    var data := d.spool[f.path];
    if IsDetachable(w, mime) && !IsSkipped(mime, f.len) {
      var placed := Unlink(Last(Adopt(d, f.digest, f.path, NONE_REFUSED).0, d), f.path);
      assert placed == Disk(d.store.(cache := StoreFile(d.store.cache, f.digest, data)), d.spool - {f.path});
      CommitStepsEnd(w, placed, mime, Detached(f.len), f.digest, max, now);
      DetachedRowNeedsNoBytes(w, d.store.db, mime, data, f.digest, max, now);
    } else {
      InMemoryStepsEnd(w, d, mime, data, f.digest, max, now, NONE_REFUSED.write);
    }
  }

  /** The steps end where the one-piece `InsertSpooled` of whole runs says. */
  lemma StepsEndInInsertSpooled(w: World, d: Disk, mime: string, f: SpooledFile, max: u64, now: Time)
    requires BreaksTies(w) && f.path in d.spool
    requires f.len == |d.spool[f.path]| && f.digest == w.sha(d.spool[f.path])
    ensures var (states, r) := SpooledSteps(w, d, mime, f, max, now, NONE_REFUSED);
      var (s, r') := InsertSpooled(w, d.store, mime, d.spool[f.path], max, now);
      Last(states, d) == Disk(s, d.spool - {f.path}) && r == r'
  {
    RoadsAgree(w, d, mime, f, max, now);
    if IsDetachable(w, mime) {
      DetachedRowNeedsNoBytes(w, d.store.db, mime, d.spool[f.path], f.digest, max, now);
    }
  }
}
