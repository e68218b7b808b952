/** Whole runs in which the daemon may be killed at any step of any call, renames, copies
    and commits may be refused and writes may fail, any number of times. */
module CrashRuns {
  import opened Core
  import opened FastCdc
  import opened Tables
  import opened Store
  import opened History
  import opened Runs
  import opened SpoolSteps
  import opened CrashStates
  import opened CrashAtomicity

  /** A completed call, or one that did not go as meant: an insertion that stopped after
      step `at` or, if that is its last, went through under refusals or with its write
      lost; a deletion before its file went; a wipe while the files were going. */
  datatype Event =
    | Call(op: Op)
    | CutSpool(mime: string, data: Bytes, max: u64, now: Time, refusals: Refusals, at: nat)
    | CutInsert(mime: string, data: Bytes, max: u64, now: Time, write: Write, at: nat)
    | CutDelete(id: int)
    | CutWipe(removed: set<Digest>)

  function DiskFor(s: Store, data: Bytes): Disk {
    Disk(s, map[0 := data])
  }

  function FileFor(w: World, data: Bytes): SpooledFile {
    SpooledFile(0, |data|, w.sha(data))
  }

  ghost function StatesOf(w: World, s: Store, e: Event): seq<Disk>
    requires BreaksTies(w) && (e.CutSpool? || e.CutInsert?)
  {
    match e
    case CutSpool(mime, data, max, now, r, _) =>
      SpooledSteps(w, DiskFor(s, data), mime, FileFor(w, data), max, now, r).0
    case CutInsert(mime, data, max, now, write, _) =>
      InMemorySteps(w, DiskFor(s, data), mime, data, w.sha(data), max, now, write).0
  }

  ghost predicate Possible(w: World, s: Store, e: Event)
    requires BreaksTies(w)
  {
    e.CutSpool? || e.CutInsert? ==> e.at < |StatesOf(w, s, e)|
  }

  ghost function Happen(w: World, s: Store, e: Event): Store
    requires BreaksTies(w) && Possible(w, s, e)
  {
    match e
    case Call(op) => Runs.Step(w, s, op)
    case CutSpool(_, _, _, _, _, at) => StatesOf(w, s, e)[at].store
    case CutInsert(_, _, _, _, _, at) => StatesOf(w, s, e)[at].store
    case CutDelete(id) => Store(DeleteById(s, id).db, s.cache)
    case CutWipe(removed) => Store(Wipe(s).db, s.cache - removed)
  }

  /** A call that was cut off happened, or it did not. */
  ghost function Meant(w: World, s: Store, h: History, e: Event): History
    requires BreaksTies(w)
  {
    match e
    case Call(op) => Meaning(w, h, op)
    case CutSpool(mime, data, max, now, r, at) =>
      SpoolMeant(w, DiskFor(s, data), h, mime, FileFor(w, data), max, now, r, at)
    case CutInsert(mime, data, max, now, _, _) => Remember(w, h, mime, data, max, now).0
    case CutDelete(id) => Forget(h, id)
    case CutWipe(_) => h.(entries := map[])
  }

  /** The payload whose file an event spoils, told from the state before it. */
  ghost function Spoils(w: World, s: Store, e: Event): set<Digest> {
    match e
    case CutSpool(mime, data, max, now, r, at) =>
      SpoolSpoils(w, DiskFor(s, data), mime, FileFor(w, data), max, now, r, at)
    case CutInsert(mime, data, max, now, write, at) => InsertSpoils(w, s, mime, data, max, now, write, at)
    case _ => {}
  }

  datatype Life = Life(store: Store, history: History)

  /** Where a sequence of events leads, and what it should have meant. An insertion
      cannot stop after more steps than it has: that is no event. */
  ghost function Lived(w: World, events: seq<Event>): Life
    requires BreaksTies(w)
  {
    if events == [] then Life(Store(EMPTY, map[]), BLANK) else
      var Life(s, h) := Lived(w, events[..|events| - 1]);
      var e := events[|events| - 1];
      if Possible(w, s, e) then Life(Happen(w, s, e), Meant(w, s, h, e)) else Life(s, h)
  }

  lemma LivedOneMore(w: World, before: seq<Event>, e: Event)
    requires BreaksTies(w)
    ensures var Life(s, h) := Lived(w, before);
      Possible(w, s, e) ==> Lived(w, before + [e]) == Life(Happen(w, s, e), Meant(w, s, h, e))
  {
    assert (before + [e])[..|before|] == before;
  }

  function Payload(e: Event): Option<Bytes> {
    match e
    case Call(op) => if Stores(op) then Some(op.data) else None
    case CutSpool(_, data, _, _, _, _) => Some(data)
    case CutInsert(_, data, _, _, _, _) => Some(data)
    case _ => None
  }

  ghost function HashedIn(w: World, events: seq<Event>): set<Bytes> {
    if events == [] then {} else
      HashedIn(w, events[..|events| - 1]) +
      match Payload(events[|events| - 1])
      case Some(data) => {data} + (set c | c in Chunks(w.gear, data))
      case None => {}
  }

  /** Each event refines its meaning, up to what it spoils. */
  lemma EventRefines(w: World, known: set<Bytes>, spoiled: set<Digest>, s: Store, h: History, e: Event)
    requires BreaksTies(w) && NoCollision(w, known) && Refines(w, known, Scarred(spoiled), s, h) && Possible(w, s, e)
    requires KnownIn(w, known, e)
    ensures Refines(w, known, Scarred(spoiled + Spoils(w, s, e)), Happen(w, s, e), Meant(w, s, h, e))
  {
    assert spoiled + {} == spoiled;
    match e
    case Call(op) => StepRefines(w, known, Scarred(spoiled), s, h, op);
    case CutDelete(id) => DeleteCrashLeavesAStore(w, known, spoiled, s, h, id);
    case CutWipe(removed) => WipeCrashLeavesAStore(w, known, spoiled, s, h, removed);
    case CutInsert(mime, data, max, now, write, at) =>
      InsertCutRefines(w, known, spoiled, DiskFor(s, data), h, mime, data, max, now, write, at);
    case CutSpool(mime, data, max, now, r, at) =>
      SpoolCutRefines(w, known, spoiled, DiskFor(s, data), h, mime, FileFor(w, data), data, max, now, r, at);
  }

  ghost predicate KnownIn(w: World, known: set<Bytes>, e: Event) {
    Payload(e).Some? ==> Known(w, known, Payload(e).value)
  }

  lemma HashedAreKnown(w: World, known: set<Bytes>, events: seq<Event>)
    requires events != [] && HashedIn(w, events) <= known
    ensures KnownIn(w, known, events[|events| - 1]) && HashedIn(w, events[..|events| - 1]) <= known
  {
    var data := Payload(events[|events| - 1]);
    if data.Some? {
      var pieces := Chunks(w.gear, data.value);
      forall i | 0 <= i < |pieces|
        ensures pieces[i] in known
      {
        assert pieces[i] in pieces;
      }
    }
  }

  // An event harms what it spoils, and nothing else that was well.
  lemma EventHarmsWithin(w: World, known: set<Bytes>, s: Store, h: History, e: Event)
    requires BreaksTies(w) && NoCollision(w, known) && Refines(w, known, Scarred(Harmed(w, known, s)), s, h)
    requires Possible(w, s, e) && KnownIn(w, known, e)
    ensures var s' := Happen(w, s, e);
      && Harmed(w, known, s') <= Harmed(w, known, s) + Spoils(w, s, e)
      && Refines(w, known, Scarred(Harmed(w, known, s')), s', Meant(w, s, h, e))
  {
    EventRefines(w, known, Harmed(w, known, s), s, h, e);
    OnlyHarmNeedsExcuse(w, known, Harmed(w, known, s) + Spoils(w, s, e), Happen(w, s, e), Meant(w, s, h, e));
  }

  lemma SpoilsAtMostOne(w: World, s: Store, e: Event)
    ensures |Spoils(w, s, e)| <= if e.CutSpool? || e.CutInsert? then 1 else 0
  {
  }

  /** At every point of every such run, the store stands for the history with exactly the
      payloads excused that are harmed in it. */
  lemma {:induction false} LivedRefines(w: World, known: set<Bytes>, events: seq<Event>)
    requires BreaksTies(w) && NoCollision(w, known) && HashedIn(w, events) <= known
    ensures var Life(s, h) := Lived(w, events); Refines(w, known, Scarred(Harmed(w, known, s)), s, h)
  {
    if events != [] {
      var before, e := events[..|events| - 1], events[|events| - 1];
      HashedAreKnown(w, known, events);
      LivedRefines(w, known, before);
      var Life(s, h) := Lived(w, before);
      if Possible(w, s, e) {
        EventHarmsWithin(w, known, s, h, e);
      }
    }
  }

  // A detached row whose payload is harmed reads wrong: nothing, or a proper beginning.
  lemma HarmShows(w: World, known: set<Bytes>, s: Store, h: History, id: int)
    requires NoCollision(w, known) && Refines(w, known, Scarred(Harmed(w, known, s)), s, h)
    requires id in s.db.rows && Spoiled(Scarred(Harmed(w, known, s)), s.db.rows[id])
    ensures GetContent(s, id).None? || ReadsShort(GetContent(s, id).value, h.entries[id])
  {
    SpoiledContentIsPrefix(w, known, Scarred(Harmed(w, known, s)), s, h, id);
    assert RowHolds(w, known, s.db.manifest, id, s.db.rows[id], h.entries[id]);
    var hash := s.db.rows[id].hash;
    if hash in s.cache {
      assert !Genuine(w, known, hash, s.cache[hash]);
      assert s.cache[hash] != h.entries[id].bytes;
    }
  }

  predicate ReadsShort(read: (string, Bytes), e: Entry) {
    read.0 == e.mime && read.1 <= e.bytes && |read.1| < |e.bytes|
  }

  /** After any history of calls, refusals, lost writes and kills, the chunk counts are
      exact and every read answers from the plain map in which each interrupted call
      happened or did not, except of a detached row whose file is missing or cut off just
      then: that one, and no other, shows nothing or a proper beginning of its payload. */
  lemma CrashesLoseNothing(w: World, events: seq<Event>, id: int)
    requires BreaksTies(w) && NoCollision(w, HashedIn(w, events))
    ensures var Life(s, h) := Lived(w, events);
      && Accounted(s.db)
      && (id in h.entries <==> id in s.db.rows)
      && if id in s.db.rows && Spoiled(Scarred(Harmed(w, HashedIn(w, events), s)), s.db.rows[id])
         then GetContent(s, id).None? || ReadsShort(GetContent(s, id).value, h.entries[id])
         else GetContent(s, id) == Lookup(h, id)
  {
    var known := HashedIn(w, events);
    var Life(s, h) := Lived(w, events);
    LivedRefines(w, known, events);
    RefinedIsReadable(w, known, Scarred(Harmed(w, known, s)), s, h);
    if id in s.db.rows && Spoiled(Scarred(Harmed(w, known, s)), s.db.rows[id]) {
      HarmShows(w, known, s, h, id);
    } else {
      ContentIsEntry(w, known, Scarred(Harmed(w, known, s)), s, h, id);
    }
  }

  // --- How little is harmed ---

  lemma SpoilingHarms(w: World, known: set<Bytes>, s: Store, e: Event)
    requires BreaksTies(w) && NoCollision(w, known) && Sound(s.db) && Possible(w, s, e) && KnownIn(w, known, e)
    ensures Spoils(w, s, e) <= Harmed(w, known, Happen(w, s, e))
  {
    match e
    case CutInsert(mime, data, max, now, write, at) =>
      InsertCutHarms(w, known, DiskFor(s, data), mime, data, max, now, write, at);
    case CutSpool(mime, data, max, now, r, at) =>
      SpoolCutHarms(w, known, DiskFor(s, data), mime, FileFor(w, data), data, max, now, r, at);
    case _ =>
  }

  /** From any store of such a run, an event harms a payload that was well if and only if
      the state before it says so. */
  lemma SpoilingIsExact(w: World, known: set<Bytes>, s: Store, h: History, e: Event, x: Digest)
    requires BreaksTies(w) && NoCollision(w, known) && Refines(w, known, Scarred(Harmed(w, known, s)), s, h)
    requires Possible(w, s, e) && KnownIn(w, known, e) && x !in Harmed(w, known, s)
    ensures x in Harmed(w, known, Happen(w, s, e)) <==> x in Spoils(w, s, e)
  {
    EventHarmsWithin(w, known, s, h, e);
    SpoilingHarms(w, known, s, e);
  }

  /** The insertions that were killed, or refused something. */
  function Mishaps(events: seq<Event>): nat {
    if events == [] then 0 else
      var e := events[|events| - 1];
      Mishaps(events[..|events| - 1]) + if e.CutSpool? || e.CutInsert? then 1 else 0
  }

  /** A mishap harms at most one payload, and nothing else harms any. */
  lemma {:induction false} OneMishapHarmsOne(w: World, known: set<Bytes>, events: seq<Event>)
    requires BreaksTies(w) && NoCollision(w, known) && HashedIn(w, events) <= known
    ensures |Harmed(w, known, Lived(w, events).store)| <= Mishaps(events)
  {
    if events != [] {
      var before, e := events[..|events| - 1], events[|events| - 1];
      HashedAreKnown(w, known, events);
      OneMishapHarmsOne(w, known, before);
      LivedRefines(w, known, before);
      var Life(s, h) := Lived(w, before);
      if Possible(w, s, e) {
        EventHarmsWithin(w, known, s, h, e);
        SpoilsAtMostOne(w, s, e);
        WithinUnion(Harmed(w, known, Happen(w, s, e)), Harmed(w, known, s), Spoils(w, s, e));
      }
    } else {
      assert Harmed(w, known, Store(EMPTY, map[])) == {};
    }
  }

  lemma WithinUnion<T>(c: set<T>, a: set<T>, b: set<T>)
    requires c <= a + b
    ensures |c| <= |a| + |b|
  {
    var more := a + (b - a);
    assert more == a + b && more == c + (more - c);
    assert b == (b - a) + (b * a);
  }
}
