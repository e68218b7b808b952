/** Whole runs of the store, of any length and in any order of operations. */
module Runs {
  import opened Core
  import opened FastCdc
  import opened Tables
  import opened Store
  import opened History
  import opened Refinement

  datatype Op =
    | Insert(mime: string, data: Bytes, max: u64, now: Time)
    | InsertFromSpool(mime: string, data: Bytes, max: u64, now: Time)
    | TouchId(id: int, now: Time)
    | PinId(id: int, pinned: bool)
    | DeleteId(id: int)
    | WipeAll

  /** What one call does to the store. */
  ghost function Step(w: World, s: Store, op: Op): Store
    requires BreaksTies(w)
  {
    match op
    case Insert(mime, data, max, now) => InsertWithHash(w, s, mime, data, w.sha(data), max, now).0
    case InsertFromSpool(mime, data, max, now) => InsertSpooled(w, s, mime, data, max, now).0
    case TouchId(id, now) => UpdateTimestamp(s, id, now)
    case PinId(id, pinned) => SetPinned(s, id, pinned)
    case DeleteId(id) => DeleteById(s, id)
    case WipeAll => Wipe(s)
  }

  /** What it means: an inline payload above the limit is refused on the spool road. */
  ghost function Meaning(w: World, h: History, op: Op): History
    requires BreaksTies(w)
  {
    match op
    case Insert(mime, data, max, now) => Remember(w, h, mime, data, max, now).0
    case InsertFromSpool(mime, data, max, now) =>
      if Refused(w, mime, data) then h else Remember(w, h, mime, data, max, now).0
    case TouchId(id, now) => Touch(h, id, now)
    case PinId(id, pinned) => Pin(h, id, pinned)
    case DeleteId(id) => Forget(h, id)
    case WipeAll => h.(entries := map[])
  }

  predicate Refused(w: World, mime: string, data: Bytes) {
    !IsDetachable(w, mime) && |data| > MAX_PAYLOAD_BYTES
  }

  ghost function Run(w: World, ops: seq<Op>): Store
    requires BreaksTies(w)
  {
    if ops == [] then Store(EMPTY, map[]) else Step(w, Run(w, ops[..|ops| - 1]), ops[|ops| - 1])
  }

  ghost function MeaningOf(w: World, ops: seq<Op>): History
    requires BreaksTies(w)
  {
    if ops == [] then BLANK else Meaning(w, MeaningOf(w, ops[..|ops| - 1]), ops[|ops| - 1])
  }

  predicate Stores(op: Op) {
    op.Insert? || op.InsertFromSpool?
  }

  /** Everything a run hashes: its payloads and their chunks. */
  ghost function Hashed(w: World, ops: seq<Op>): set<Bytes> {
    if ops == [] then {} else
      var op := ops[|ops| - 1];
      Hashed(w, ops[..|ops| - 1]) +
      if Stores(op) then {op.data} + (set c | c in Chunks(w.gear, op.data)) else {}
  }

  /** Each operation refines its meaning. */
  lemma StepRefines(w: World, known: set<Bytes>, damage: Damage, s: Store, h: History, op: Op)
    requires BreaksTies(w) && NoCollision(w, known) && Refines(w, known, damage, s, h)
    requires Stores(op) ==> Known(w, known, op.data)
    ensures Refines(w, known, damage, Step(w, s, op), Meaning(w, h, op))
  {
    match op
    case Insert(mime, data, max, now) => InsertRefines(w, known, damage, s, h, mime, data, max, now);
    case InsertFromSpool(mime, data, max, now) => InsertSpooledRefines(w, known, damage, s, h, mime, data, max, now);
    case TouchId(id, now) => TouchRefines(w, known, damage, s, h, id, now);
    case PinId(id, pinned) => PinRefines(w, known, damage, s, h, id, pinned);
    case DeleteId(id) => DeleteRefines(w, known, damage, s, h, id);
    case WipeAll =>
  }

  lemma InsertRefines(w: World, known: set<Bytes>, damage: Damage, s: Store, h: History, mime: string, data: Bytes,
                      max: u64, now: Time)
    requires BreaksTies(w) && NoCollision(w, known) && Refines(w, known, damage, s, h) && Known(w, known, data)
    ensures var (s', id) := InsertWithHash(w, s, mime, data, w.sha(data), max, now);
      && Refines(w, known, damage, s', Remember(w, h, mime, data, max, now).0)
      && id == Remember(w, h, mime, data, max, now).1
  {
    if !IsSkipped(mime, |data|) {
      UpsertRefines(w, known, damage, s, h, mime, InMemory(data), data, max, now);
    }
  }

  lemma InsertSpooledRefines(w: World, known: set<Bytes>, damage: Damage, s: Store, h: History, mime: string,
                             data: Bytes, max: u64, now: Time)
    requires BreaksTies(w) && NoCollision(w, known) && Refines(w, known, damage, s, h) && Known(w, known, data)
    ensures var (s', r) := InsertSpooled(w, s, mime, data, max, now);
      if Refused(w, mime, data) then s' == s && (r == None || r == Some(-1))
      else
        && Refines(w, known, damage, s', Remember(w, h, mime, data, max, now).0)
        && r == Some(Remember(w, h, mime, data, max, now).1)
  {
    if !IsSkipped(mime, |data|) {
      if IsDetachable(w, mime) {
        UpsertRefines(w, known, damage, s, h, mime, Detached(|data|), data, max, now);
      } else {
        InsertRefines(w, known, damage, s, h, mime, data, max, now);
      }
    }
  }

  lemma SameFiles(w: World, known: set<Bytes>, damage: Damage, rows: map<int, Row>, rows': map<int, Row>,
                  cache: map<Digest, Bytes>)
    requires FilesHold(w, known, damage, rows, cache) && rows'.Keys == rows.Keys
    requires forall id | id in rows :: rows'[id].hash == rows[id].hash && IsDetached(rows'[id]) == IsDetached(rows[id])
    ensures FilesHold(w, known, damage, rows', cache)
  {
    forall h | h in cache && !damage.strays
      ensures exists id :: id in rows' && rows'[id].hash == h
    {
      var id :| id in rows && rows[id].hash == h;
      assert id in rows'.Keys;
    }
  }

  lemma TouchRefines(w: World, known: set<Bytes>, damage: Damage, s: Store, h: History, id: int, now: Time)
    requires Refines(w, known, damage, s, h)
    ensures Refines(w, known, damage, UpdateTimestamp(s, id, now), Touch(h, id, now))
  {
    TouchHolds(w, known, s.db, h, id, now);
    SameFiles(w, known, damage, s.db.rows, UpdateTimestamp(s, id, now).db.rows, s.cache);
  }

  lemma PinRefines(w: World, known: set<Bytes>, damage: Damage, s: Store, h: History, id: int, pinned: bool)
    requires Refines(w, known, damage, s, h)
    ensures Refines(w, known, damage, SetPinned(s, id, pinned), Pin(h, id, pinned))
  {
    PinHolds(w, known, s, h, id, pinned);
    SameFiles(w, known, damage, s.db.rows, SetPinned(s, id, pinned).db.rows, s.cache);
  }

  lemma DeleteRefines(w: World, known: set<Bytes>, damage: Damage, s: Store, h: History, id: int)
    requires Refines(w, known, damage, s, h)
    ensures Refines(w, known, damage, DeleteById(s, id), Forget(h, id))
  {
    ForgetHolds(w, known, s, h, id);
    if id in s.db.rows {
      DeletionIsExact(w, known, damage, s, id);
    }
  }

  lemma DeletionIsExact(w: World, known: set<Bytes>, damage: Damage, s: Store, id: int)
    requires UniqueHashes(s.db.rows) && id in s.db.rows && FilesHold(w, known, damage, s.db.rows, s.cache)
    ensures FilesHold(w, known, damage, s.db.rows - {id}, s.cache - {s.db.rows[id].hash})
  {
    RemovalIsExact(w, known, damage, s.db.rows, [id], s.cache);
    assert Members([id]) == {id};
    var hashes := HashesOf(s.db.rows, [id]);
    assert hashes == [s.db.rows[id].hash];
    assert (set h | h in hashes) == {s.db.rows[id].hash};
  }

  lemma {:induction false} RunRefines(w: World, known: set<Bytes>, ops: seq<Op>)
    requires BreaksTies(w) && NoCollision(w, known) && Hashed(w, ops) <= known
    ensures Refines(w, known, UNHARMED, Run(w, ops), MeaningOf(w, ops))
  {
    if ops != [] {
      var before, op := ops[..|ops| - 1], ops[|ops| - 1];
      RunRefines(w, known, before);
      if Stores(op) {
        var pieces := Chunks(w.gear, op.data);
        forall i | 0 <= i < |pieces|
          ensures pieces[i] in known
        {
          assert pieces[i] in pieces;
        }
      }
      StepRefines(w, known, UNHARMED, Run(w, before), MeaningOf(w, before), op);
    }
  }

  /** The main result. After any run without a hash collision among the strings it
      hashed, reading by id gives exactly what the plain map gives: the payload of
      every live id, nothing for any other. The chunk counts are exact, no row lacks
      its file and no file lacks its row. */
  lemma WholeRun(w: World, ops: seq<Op>)
    requires BreaksTies(w) && NoCollision(w, Hashed(w, ops))
    ensures var s, h := Run(w, ops), MeaningOf(w, ops);
      && (forall id :: GetContent(s, id) == Lookup(h, id))
      && Accounted(s.db)
      && NoneDangling(s.db.rows, s.cache) && NoneOrphaned(s.db.rows, s.cache)
  {
    var known, s, h := Hashed(w, ops), Run(w, ops), MeaningOf(w, ops);
    RunRefines(w, known, ops);
    RefinedIsReadable(w, known, UNHARMED, s, h);
    UnharmedFiles(w, known, s.db.rows, s.cache);
    forall id
      ensures GetContent(s, id) == Lookup(h, id)
    {
      ContentIsEntry(w, known, UNHARMED, s, h, id);
    }
  }

  /** The accounting half needs no assumption on the hash: it survives collisions. */
  lemma {:induction false} RunIsAccounted(w: World, ops: seq<Op>)
    requires BreaksTies(w)
    ensures Sound(Run(w, ops).db)
  {
    if ops != [] {
      var s, op := Run(w, ops[..|ops| - 1]), ops[|ops| - 1];
      RunIsAccounted(w, ops[..|ops| - 1]);
      match op
      case Insert(mime, data, max, now) =>
        PlaceIsSound(w, s.db, mime, InMemory(data), w.sha(data), now);
        RotateIsSound(w, Place(w, s.db, mime, InMemory(data), w.sha(data), now).0, max);
      case InsertFromSpool(mime, data, max, now) =>
        var body := if IsDetachable(w, mime) then Detached(|data|) else InMemory(data);
        PlaceIsSound(w, s.db, mime, body, w.sha(data), now);
        RotateIsSound(w, Place(w, s.db, mime, body, w.sha(data), now).0, max);
      case TouchId(id, now) =>
        if id in s.db.rows { ReplaceIsSound(s.db, id, s.db.rows[id].(timestamp := now)); }
      case PinId(id, pinned) =>
        if id in s.db.rows { ReplaceIsSound(s.db, id, s.db.rows[id].(pinned := pinned)); }
      case DeleteId(id) => DeleteIsSound(s, id);
      case WipeAll =>
    }
  }

  // --- The plain map keeps what was first stored ---

  lemma MeaningKeepsPayloads(w: World, h: History, op: Op, id: int)
    requires BreaksTies(w) && forall k | k in h.entries :: k < h.nextId
    ensures var h' := Meaning(w, h, op);
      && h.nextId <= h'.nextId && (forall k | k in h'.entries :: k < h'.nextId)
      && (id < h.nextId && id in h'.entries ==>
           id in h.entries && h'.entries[id].mime == h.entries[id].mime && h'.entries[id].bytes == h.entries[id].bytes)
  {
  }

  /** From any point of a run on, a live id shows the payload it showed then, and an
      id that is gone (or was never given out) by then and below the counter stays
      gone: ids are never reused. */
  lemma {:induction false} PayloadsNeverChange(w: World, ops: seq<Op>, i: nat, id: int)
    requires BreaksTies(w) && i <= |ops|
    ensures var h, h' := MeaningOf(w, ops[..i]), MeaningOf(w, ops);
      && (forall k | k in h'.entries :: k < h'.nextId) && h.nextId <= h'.nextId
      && (id < h.nextId && id in h'.entries ==>
           id in h.entries && h'.entries[id].mime == h.entries[id].mime && h'.entries[id].bytes == h.entries[id].bytes)
    decreases |ops|
  {
    if i == |ops| {
      assert ops[..i] == ops;
      if ops != [] {
        PayloadsNeverChange(w, ops[..i - 1], i - 1, id);
        MeaningKeepsPayloads(w, MeaningOf(w, ops[..i - 1]), ops[i - 1], id);
      }
    } else {
      var before := ops[..|ops| - 1];
      PayloadsNeverChange(w, before, i, id);
      assert before[..i] == ops[..i];
      MeaningKeepsPayloads(w, MeaningOf(w, before), ops[|ops| - 1], id);
    }
  }

  /** And that payload is the one some insertion of the run offered under the id's
      first number. */
  lemma {:induction false} PayloadsWereInserted(w: World, ops: seq<Op>, id: int)
    requires BreaksTies(w) && id in MeaningOf(w, ops).entries
    ensures exists i | 0 <= i < |ops| :: Offered(w, ops, i, id, MeaningOf(w, ops).entries[id])
  {
    var before, op := ops[..|ops| - 1], ops[|ops| - 1];
    var e := MeaningOf(w, ops).entries[id];
    if id in MeaningOf(w, before).entries {
      PayloadsWereInserted(w, before, id);
      var i :| 0 <= i < |before| && Offered(w, before, i, id, MeaningOf(w, before).entries[id]);
      assert before[..i] == ops[..i];
      PayloadsNeverChange(w, before, |before|, id);
      MeaningKeepsPayloads(w, MeaningOf(w, before), op, id);
      assert before[..|before|] == before;
      assert Offered(w, ops, i, id, e);
    } else {
      assert Offered(w, ops, |ops| - 1, id, e);
    }
  }

  ghost predicate Offered(w: World, ops: seq<Op>, i: nat, id: int, e: Entry)
    requires BreaksTies(w) && i < |ops|
  {
    && Stores(ops[i]) && ops[i].mime == e.mime && ops[i].data == e.bytes
    && id == MeaningOf(w, ops[..i]).nextId
  }
}
