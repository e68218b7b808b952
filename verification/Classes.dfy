/** Which payloads are stored and in which form, told from the MIME type and the bytes
    with every constant written out. */
module Classes {
  import opened Core
  import opened Tables
  import opened Store
  import opened Refinement
  import opened Rotation
  import opened SpoolSteps
  import opened Runs
  import opened CrashStates
  import opened CrashAtomicity
  import opened CrashRuns
  import Repair

  // --- Reading MIME types ---

  predicate IsAround(s: string, pre: string, part: string, post: string) {
    s == pre + part + post
  }

  ghost predicate Within(part: string, s: string) {
    exists pre, post :: IsAround(s, pre, part, post)
  }

  lemma ContainsIff(s: string, part: string)
    ensures Contains(s, part) <==> Within(part, s)
  {
    if Contains(s, part) {
      var i :| 0 <= i <= |s| && part <= s[i..];
      assert IsAround(s, s[..i], part, s[i..][|part|..]);
    }
    if Within(part, s) {
      var pre, post :| IsAround(s, pre, part, post);
      assert s[|pre|..] == part + post;
    }
  }

  /** The marks of a payload that must not be kept. */
  predicate IsMark(mark: string) {
    || mark == "x-kde-passwordManagerHint" || mark == "password" || mark == "secret" || mark == "x-gnome-cliptrace"
    || mark == "keepass" || mark == "1password" || mark == "bitwarden" || mark == "concealed"
  }

  ghost predicate Sensitive(mime: string) {
    exists mark :: IsMark(mark) && Within(mark, mime)
  }

  ghost predicate Image(mime: string) {
    "image/" <= mime || Within("gif", mime)
  }

  lemma MarksAreHints(mark: string)
    ensures IsMark(mark) <==> exists i | 0 <= i < |SENSITIVE_MIME_HINTS| :: SENSITIVE_MIME_HINTS[i] == mark
  {
    var hints := SENSITIVE_MIME_HINTS;
    assert hints[0] == "x-kde-passwordManagerHint" && hints[1] == "password" && hints[2] == "secret";
    assert hints[3] == "x-gnome-cliptrace" && hints[4] == "keepass" && hints[5] == "1password";
    assert hints[6] == "bitwarden" && hints[7] == "concealed";
  }

  lemma SkippedIff(mime: string, len: nat)
    ensures IsSkipped(mime, len) <==> len == 0 || Sensitive(mime)
  {
    if Sensitive(mime) {
      var mark :| IsMark(mark) && Within(mark, mime);
      MarksAreHints(mark);
      ContainsIff(mime, mark);
    }
    if IsSkipped(mime, len) && len != 0 {
      var i :| 0 <= i < |SENSITIVE_MIME_HINTS| && Contains(mime, SENSITIVE_MIME_HINTS[i]);
      MarksAreHints(SENSITIVE_MIME_HINTS[i]);
      ContainsIff(mime, SENSITIVE_MIME_HINTS[i]);
    }
  }

  lemma ImageIff(mime: string)
    ensures IsCacheClass(mime) <==> Image(mime)
  {
    ContainsIff(mime, "gif");
  }

  // --- What is not stored ---

  /** A payload whose MIME type has one of the marks anywhere in it, and an empty one, is
      answered with -1 and leaves the store as it was, from memory and from a spool file. */
  lemma SensitiveIsNotStored(w: World, s: Store, pre: string, mark: string, post: string, data: Bytes, hash: Digest,
                             max: u64, now: Time)
    requires BreaksTies(w) && (IsMark(mark) || data == [])
    ensures InsertWithHash(w, s, pre + mark + post, data, hash, max, now) == (s, -1)
    ensures InsertSpooled(w, s, pre + mark + post, data, max, now) == (s, Some(-1))
  {
    assert IsAround(pre + mark + post, pre, mark, post);
    SkippedIff(pre + mark + post, |data|);
  }

  ghost predicate Clean(rows: map<int, Row>) {
    forall id | id in rows :: !Sensitive(rows[id].mime)
  }

  lemma {:induction false} LinkAllKeepsRows(w: World, t: Tables, id: int, seqno: int, chunks: seq<Bytes>)
    ensures LinkAll(w, t, id, seqno, chunks).rows == t.rows
    decreases |chunks|
  {
    if chunks != [] {
      LinkAllKeepsRows(w, Link(w, t, id, seqno, chunks[0]), id, seqno + 1, chunks[1..]);
    }
  }

  lemma {:induction false} ReleaseAllKeepsRows(t: Tables, ids: seq<int>)
    ensures ReleaseAll(t, ids).rows == t.rows
    decreases |ids|
  {
    if ids != [] {
      ReleaseAllKeepsRows(if ids[0] in t.rows && t.rows[ids[0]].chunked then Release(t, ids[0]) else t, ids[1..]);
    }
  }

  lemma UpsertIsClean(w: World, t: Tables, mime: string, body: Body, hash: Digest, max: u64, now: Time)
    requires BreaksTies(w) && Clean(t.rows) && !Sensitive(mime)
    ensures Clean(Upsert(w, t, mime, body, hash, max, now).db.rows)
  {
    var t' := Place(w, t, mime, body, hash, now).0;
    if FindHash(t.rows, hash).None? && body.InMemory? {
      var added := InsertRow(t, NewRow(w, mime, body, hash, now));
      LinkAllKeepsRows(w, added, t.nextId, 0, FastCdc.Chunks(w.gear, body.data));
    }
    assert Clean(t'.rows);
    ReleaseAllKeepsRows(t', Expiring(w, t'.rows, max));
  }

  lemma StepIsClean(w: World, s: Store, op: Op)
    requires BreaksTies(w) && Clean(s.db.rows)
    ensures Clean(Runs.Step(w, s, op).db.rows)
  {
    if Stores(op) {
      SkippedIff(op.mime, |op.data|);
      if !IsSkipped(op.mime, |op.data|) {
        UpsertIsClean(w, s.db, op.mime, InMemory(op.data), w.sha(op.data), op.max, op.now);
        UpsertIsClean(w, s.db, op.mime, Detached(|op.data|), w.sha(op.data), op.max, op.now);
      }
    }
  }

  /** So no store of any run holds a row under such a MIME type. */
  lemma {:induction false} NoRunStoresSensitive(w: World, ops: seq<Op>)
    requires BreaksTies(w)
    ensures Clean(Run(w, ops).db.rows)
  {
    if ops != [] {
      NoRunStoresSensitive(w, ops[..|ops| - 1]);
      StepIsClean(w, Run(w, ops[..|ops| - 1]), ops[|ops| - 1]);
    }
  }

  // The tables in the states of an insertion: those before it, or those it commits.
  lemma InMemoryTables(w: World, d: Disk, mime: string, data: Bytes, hash: Digest, max: u64, now: Time, write: Write,
                       i: nat)
    requires BreaksTies(w) && i < |InMemorySteps(w, d, mime, data, hash, max, now, write).0|
    ensures !IsSkipped(mime, |data|)
    ensures InMemorySteps(w, d, mime, data, hash, max, now, write).0[i].store.db
         == Upsert(w, d.store.db, mime, InMemory(data), hash, max, now).db
  {
    InsertStates(w, d, mime, data, hash, max, now, write, i);
    var u := Upsert(w, d.store.db, mime, InMemory(data), hash, max, now);
    var committed := d.(store := d.store.(db := u.db));
    var filing := if u.isImage then StoreSteps(committed, hash, data, write) else [];
    if i > |filing| {
      RemovalsHaveIndices(Last(filing, committed), u.expired);
      RemovalsAt(Last(filing, committed), u.expired, i - 1 - |filing|);
    }
  }

  lemma SpooledTables(w: World, d: Disk, mime: string, f: SpooledFile, data: Bytes, max: u64, now: Time, r: Refusals,
                      i: nat)
    requires BreaksTies(w) && f.path in d.spool && d.spool[f.path] == data && f.len == |data|
    requires i < |SpooledSteps(w, d, mime, f, max, now, r).0|
    ensures var db := SpooledSteps(w, d, mime, f, max, now, r).0[i].store.db;
      || db == d.store.db
      || (&& !IsSkipped(mime, f.len)
          && (|| db == Upsert(w, d.store.db, mime, InMemory(data), f.digest, max, now).db
              || db == Upsert(w, d.store.db, mime, Detached(f.len), f.digest, max, now).db))
  {
    if !IsSkipped(mime, f.len) {
      if IsDetachable(w, mime) {
        if Committed(d, f, r, i) {
          CommittedStates(w, d, mime, f, max, now, r, i);
          AdoptionStates(d, f, data, r);
          CommitStates(w, Unlink(Last(Adopt(d, f.digest, f.path, r).0, d), f.path), mime, Detached(f.len), f.digest,
                       max, now,
                       i - StepsBeforeCommit(d, f, r));
        } else {
          UncommittedStates(w, d, mime, f, data, max, now, r, i);
        }
      } else if f.len <= MAX_PAYLOAD_BYTES {
        var n := |InMemorySteps(w, d, mime, data, f.digest, max, now, r.write).0|;
        InMemoryTables(w, d, mime, data, f.digest, max, now, r.write, Min(i, n - 1));
      }
    }
  }

  lemma HappenIsClean(w: World, s: Store, e: Event)
    requires BreaksTies(w) && Clean(s.db.rows) && Possible(w, s, e)
    ensures Clean(Happen(w, s, e).db.rows)
  {
    match e
    case Call(op) => StepIsClean(w, s, op);
    case CutInsert(mime, data, max, now, write, at) =>
      InMemoryTables(w, DiskFor(s, data), mime, data, w.sha(data), max, now, write, at);
      SkippedIff(mime, |data|);
      UpsertIsClean(w, s.db, mime, InMemory(data), w.sha(data), max, now);
    case CutSpool(mime, data, max, now, r, at) =>
      SpooledTables(w, DiskFor(s, data), mime, FileFor(w, data), data, max, now, r, at);
      SkippedIff(mime, |data|);
      if !Sensitive(mime) {
        UpsertIsClean(w, s.db, mime, InMemory(data), w.sha(data), max, now);
        UpsertIsClean(w, s.db, mime, Detached(|data|), w.sha(data), max, now);
      }
    case CutDelete(_) =>
    case CutWipe(_) =>
  }

  /** Nor does any store that has lived through kills, refusals and lost writes. */
  lemma {:induction false} NoCrashStoresSensitive(w: World, events: seq<Event>)
    requires BreaksTies(w)
    ensures Clean(Lived(w, events).store.db.rows)
  {
    if events != [] {
      var before, e := events[..|events| - 1], events[|events| - 1];
      NoCrashStoresSensitive(w, before);
      if Possible(w, Lived(w, before).store, e) {
        HappenIsClean(w, Lived(w, before).store, e);
      }
    }
  }

  // --- What is stored ---

  /** Every other payload is placed: the answer is the id of the row that has its hash,
      which stays unless it is evicted at once. */
  lemma OrdinaryIsPlaced(w: World, s: Store, mime: string, data: Bytes, hash: Digest, max: u64, now: Time)
    requires BreaksTies(w) && Sound(s.db) && !Sensitive(mime) && data != []
    ensures var (s', id) := InsertWithHash(w, s, mime, data, hash, max, now);
      && 0 < id == PlaceId(s.db, hash)
      && (id in s'.db.rows <==> !Evicted(w, s.db, hash, max, now))
      && (id in s'.db.rows ==> s'.db.rows[id].hash == hash && s'.db.rows[id].timestamp == now)
  {
    SkippedIff(mime, |data|);
    var (t', id) := Place(w, s.db, mime, InMemory(data), hash, now);
    PlacedRows(w, s.db, mime, InMemory(data), hash, now);
    DropIsSound(t', Expiring(w, t'.rows, max));
    PlacedSurvivesIff(w, s.db.rows, t', id, t'.rows[id], max);
  }

  /** From a spool file the same is stored under the same id; only a payload that is not
      an image, or is text-like, is refused above 256 MiB. */
  lemma OrdinaryIsSpooled(w: World, s: Store, mime: string, data: Bytes, max: u64, now: Time)
    requires BreaksTies(w) && !Sensitive(mime) && data != []
    ensures InsertSpooled(w, s, mime, data, max, now) ==
      if |data| > 268435456 && !(Image(mime) && !w.textLike(mime)) then (s, None)
      else
        var (s', id) := InsertWithHash(w, s, mime, data, w.sha(data), max, now);
        (s', Some(id))
  {
    SkippedIff(mime, |data|);
    ImageIff(mime);
    Repair.SpoolingStoresAlike(w, s, mime, data, max, now);
    if IsDetachable(w, mime) {
      DetachedRowNeedsNoBytes(w, s.db, mime, data, w.sha(data), max, now);
    }
  }

  /** And the form of a new row: chunks above 4096 bytes unless it is an image; else text,
      a file or a blob. */
  lemma FormOfARow(w: World, s: Store, mime: string, data: Bytes, hash: Digest, max: u64, now: Time)
    requires BreaksTies(w) && Sound(s.db) && !Sensitive(mime) && data != []
    requires (forall id | id in s.db.rows :: s.db.rows[id].hash != hash) && !Evicted(w, s.db, hash, max, now)
    ensures var (s', id) := InsertWithHash(w, s, mime, data, hash, max, now);
      && id in s'.db.rows
      && var row := s'.db.rows[id];
         && row.mime == mime && row.size == |data| && row.hash == hash && row.timestamp == now && !row.pinned
         && row.preview == (if w.textLike(mime) then Some(w.preview(mime, data)) else None)
         && (row.chunked <==> !Image(mime) && |data| > 4096)
         && row.content ==
              (if row.chunked then Null
               else if w.utf8(data) && w.textLike(mime) then Text(data)
               else if Image(mime) then Null
               else Blob(data))
         && LocateContent(s', id) ==
              Some((mime, if Image(mime)
                    && !(w.utf8(data) && w.textLike(mime)) then CacheFile(hash) else InDatabase(id)))
  {
    SkippedIff(mime, |data|);
    ImageIff(mime);
    CommittedRows(w, s.db, mime, InMemory(data), hash, max, now);
  }
}
