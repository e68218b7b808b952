/** Where the code does not do what it documents, at concrete inputs. The exact
    conditions are proved where each operation is; here is one run for each. */
module Divergences {
  import opened Core
  import opened Tables
  import opened Store
  import SearchIndex
  import Splice
  import IngestRoads
  import Egress
  import opened SpoolSteps
  import opened CrashStates
  import opened CrashRuns
  import opened Watchdog

  const TWO63: u64 := 0x8000_0000_0000_0000

  // --- Reading MIME types ---

  lemma ContainsChar(s: string, part: string, j: nat)
    requires Contains(s, part) && j < |part|
    ensures part[j] in s
  {
    var i :| 0 <= i <= |s| && part <= s[i..];
    assert s[i..][j] == part[j] && s[i + j] == part[j];
  }

  lemma LacksChar(s: string, part: string, j: nat)
    requires j < |part| && part[j] !in s
    ensures !Contains(s, part)
  {
    if Contains(s, part) {
      ContainsChar(s, part, j);
    }
  }

  // A MIME type with none of these letters is not among the sensitive ones.
  lemma NotSensitive(mime: string, len: nat)
    requires len > 0
    requires 'k' !in mime && 'w' !in mime && 's' !in mime && 'o' !in mime && '1' !in mime
    ensures !IsSkipped(mime, len)
  {
    LacksChar(mime, "x-kde-passwordManagerHint", 2);
    LacksChar(mime, "password", 4);
    LacksChar(mime, "secret", 0);
    LacksChar(mime, "x-gnome-cliptrace", 4);
    LacksChar(mime, "keepass", 0);
    LacksChar(mime, "1password", 0);
    LacksChar(mime, "bitwarden", 3);
    LacksChar(mime, "concealed", 1);
  }

  lemma PngIsAnImage()
    ensures IsCacheClass("image/png") && !IsSkipped("image/png", 1)
  {
    assert HasPrefix("image/png", "image/");
    NotSensitive("image/png", 1);
  }

  lemma PlainTextIsNot(len: nat)
    requires len > 0
    ensures !IsCacheClass("text/plain") && !IsSkipped("text/plain", len)
  {
    var mime := "text/plain";
    assert !HasPrefix(mime, "image/") by {
      assert mime[0] != "image/"[0];
    }
    LacksChar(mime, "gif", 0);
    NotSensitive(mime, len);
  }

  // --- The store ---

  /** A quota of 2^63 evicts the only row there is. */
  lemma HugeQuotaEvictsAll(w: World, row: Row)
    requires BreaksTies(w) && !row.pinned && !row.chunked
    ensures 1 !in Rotate(w, Tables(map[1 := row], map[], map[], 2), TWO63).rows
  {
    Rotation.RotationKeepsTheNewest(w, Tables(map[1 := row], map[], map[], 2), TWO63, 1);
  }

  lemma EmptyEvictsNothing(w: World, hash: Digest, now: Time)
    ensures !Evicted(w, EMPTY, hash, 10, now) && FindHash(EMPTY.rows, hash).None?
  {
    assert Rotation.AheadOf(w, EMPTY.rows, 1, now) == {};
  }

  /** The first image ever stored from memory dangles until its file is written. */
  lemma FirstImageDangles(w: World, now: Time, write: Write)
    requires BreaksTies(w) && !w.textLike("image/png")
    ensures !AllCrashSafe(InMemorySteps(w, Disk(Store(EMPTY, map[]), map[]), "image/png", [7], w.sha([7]), 10, now,
                                        write).0)
  {
    PngIsAnImage();
    EmptyEvictsNothing(w, w.sha([7]), now);
    InMemoryCommitDangles(w, Disk(Store(EMPTY, map[]), map[]), "image/png", [7], w.sha([7]), 10, now, write);
  }

  /** A text one byte above the payload limit: stored from memory, refused from a file. */
  lemma LargeTextDividesTheRoads(w: World, now: Time)
    requires BreaksTies(w)
    ensures var data := seq(MAX_PAYLOAD_BYTES + 1, i => 0);
      var d := Disk(Store(EMPTY, map[]), map[0 := data]);
      && SpooledSteps(w, d, "text/plain", SpooledFile(0, |data|, w.sha(data)), 10, now, NONE_REFUSED).1 == None
      && InsertWithHash(w, d.store, "text/plain", data, w.sha(data), 10, now).1 == 1
  {
    PlainTextIsNot(MAX_PAYLOAD_BYTES + 1);
  }

  /** Killed inside a copy, the daemon leaves a truncated file under the full hash, and
      the next insertion of the same bytes then serves the truncated payload. */
  lemma TruncatedFileIsServed(w: World, now: Time)
    requires BreaksTies(w) && !w.textLike("image/png")
    ensures var cut := CutSpool("image/png", [7], 10, now, Refusals(true, false, 0, false, Succeeds(0)), 0);
      var again := Call(Runs.InsertFromSpool("image/png", [7], 10, now));
      GetContent(Lived(w, [cut, again]).store, 1) == Some(("image/png", []))
  {
    var cut := CutSpool("image/png", [7], 10, now, Refusals(true, false, 0, false, Succeeds(0)), 0);
    var again := Call(Runs.InsertFromSpool("image/png", [7], 10, now));
    CutCopyLeavesAnEmptyFile(w, now);
    LivedOneMore(w, [cut], again);
    assert [cut] + [again] == [cut, again];
    InsertionServesTheFile(w, Lived(w, [cut]).store, now);
  }

  lemma CutCopyLeavesAnEmptyFile(w: World, now: Time)
    requires BreaksTies(w) && !w.textLike("image/png")
    ensures var life := Lived(w,
                              [CutSpool("image/png", [7], 10, now, Refusals(true, false, 0, false, Succeeds(0)), 0)]);
      life.store == Store(EMPTY, map[w.sha([7]) := []])
  {
    var cut := CutSpool("image/png", [7], 10, now, Refusals(true, false, 0, false, Succeeds(0)), 0);
    PngIsAnImage();
    assert [cut][..0] == [];
    assert Lived(w, []).store == Store(EMPTY, map[]);
    assert StatesOf(w, Store(EMPTY, map[]), cut)[0].store == Store(EMPTY, map[w.sha([7]) := []]);
  }

  lemma InsertionServesTheFile(w: World, s: Store, now: Time)
    requires BreaksTies(w) && !w.textLike("image/png") && s.db == EMPTY && w.sha([7]) in s.cache
    ensures GetContent(InsertSpooled(w, s, "image/png", [7], 10, now).0, 1) == Some(("image/png", s.cache[w.sha([7])]))
  {
    PngIsAnImage();
    EmptyEvictsNothing(w, w.sha([7]), now);
    CommittedRows(w, EMPTY, "image/png", Detached(1), w.sha([7]), 10, now);
    ExpiredAreNotKept(w, EMPTY, "image/png", Detached(1), w.sha([7]), 10, now);
    var u := Upsert(w, EMPTY, "image/png", Detached(1), w.sha([7]), 10, now);
    assert u.db.rows[1] == NewRow(w, "image/png", Detached(1), w.sha([7]), now);
  }

  /** Killed inside the write of an image inserted from memory, it serves it at once. */
  lemma TruncatedWriteIsServed(w: World, now: Time)
    requires BreaksTies(w) && !w.textLike("image/png")
    ensures var cut := CutInsert("image/png", [7], 10, now, Succeeds(0), 1);
      GetContent(Lived(w, [cut]).store, 1) == Some(("image/png", []))
  {
    FirstImageSteps(w, now, Succeeds(0));
    OnlyEvent(w, CutInsert("image/png", [7], 10, now, Succeeds(0), 1));
  }

  /** When the file cannot even be created the insertion still answers with its id, and
      the row has nothing to show. */
  lemma LostWriteIsSilent(w: World, now: Time)
    requires BreaksTies(w) && !w.textLike("image/png")
    ensures var lost := CutInsert("image/png", [7], 10, now, Fails(None), 1);
      var (states, id) := InMemorySteps(w, DiskFor(Store(EMPTY, map[]), [7]), "image/png", [7], w.sha([7]), 10, now,
                                        Fails(None));
      && |states| == lost.at + 1 && id == 1
      && GetContent(Lived(w, [lost]).store, 1) == None
  {
    FirstImageSteps(w, now, Fails(None));
    OnlyEvent(w, CutInsert("image/png", [7], 10, now, Fails(None), 1));
  }

  lemma OnlyEvent(w: World, e: Event)
    requires BreaksTies(w)
    ensures Possible(w, Store(EMPTY, map[]), e) ==> Lived(w, [e]).store == Happen(w, Store(EMPTY, map[]), e)
  {
    LivedOneMore(w, [], e);
    assert [] + [e] == [e];
  }

  // Storing the first image: its row stays, and nothing expires.
  lemma FirstImageSteps(w: World, now: Time, write: Write)
    requires BreaksTies(w) && !w.textLike("image/png")
    ensures var (states, id) := InMemorySteps(w, DiskFor(Store(EMPTY, map[]), [7]), "image/png", [7], w.sha([7]), 10,
                                              now, write);
      && id == 1 && |states| == (if write.Succeeds? then 3 else 2)
      && 1 in states[1].store.db.rows
      && states[1].store.db.rows[1] == NewRow(w, "image/png", InMemory([7]), w.sha([7]), now)
      && states[1].store.cache == StoreSteps(DiskFor(Store(EMPTY, map[]), [7]), w.sha([7]), [7], write)[0].store.cache
  {
    var d := DiskFor(Store(EMPTY, map[]), [7]);
    PngIsAnImage();
    EmptyEvictsNothing(w, w.sha([7]), now);
    CommittedRows(w, EMPTY, "image/png", InMemory([7]), w.sha([7]), 10, now);
    NothingExpires(w, now);
    InsertStates(w, d, "image/png", [7], w.sha([7]), 10, now, write, 1);
  }

  lemma NothingExpires(w: World, now: Time)
    requires BreaksTies(w)
    ensures Upsert(w, EMPTY, "image/png", InMemory([7]), w.sha([7]), 10, now).expired == []
  {
    PngIsAnImage();
    EmptyEvictsNothing(w, w.sha([7]), now);
    PlacedRows(w, EMPTY, "image/png", InMemory([7]), w.sha([7]), now);
    var rows := Place(w, EMPTY, "image/png", InMemory([7]), w.sha([7]), now).0.rows;
    assert UnpinnedRanks(w, rows).Keys == {1};
    Ordering.ListingIsComplete(UnpinnedRanks(w, rows));
  }

  /** Two rows of one timestamp share an index, and one of them is not what it leads to. */
  lemma TiedRowsShareAnIndex(w: World, row: Row, hash: Digest)
    requires BreaksTies(w) && hash != row.hash
    ensures var rows := map[1 := row, 2 := row.(hash := hash)];
      && UniqueHashes(rows)
      && exists id | id in rows :: SearchIndex.Resolve(w, rows, |SearchIndex.Newer(rows, id)|, 100) != Some(id)
  {
    var rows := map[1 := row, 2 := row.(hash := hash)];
    var id := if w.tie(1) < w.tie(2) then 2 else 1;
    assert w.tie(1) != w.tie(2);
    assert 1 in rows && 2 in rows && rows[1].timestamp == rows[2].timestamp;
    SearchIndex.IndexResolves(w, rows, id, 100);
    assert id in rows && SearchIndex.Resolve(w, rows, |SearchIndex.Newer(rows, id)|, 100) != Some(id);
  }

  // --- The copies ---

  /** At the largest limit a stream one byte too long is reported as copied. */
  lemma LargestLimitTruncates()
    ensures var stream := seq(TWO64, i => 0);
      Splice.Answered(stream, TWO64 - 1) == Splice.Copied(TWO64 - 1)
        && Splice.Promised(stream, TWO64 - 1) == Splice.TooLarge
  {
  }

  /** A limit inside the inline threshold is overlooked on the streaming road only. */
  lemma SmallLimitIsOverlooked()
    ensures var stream := seq(4095, i => 0);
      IngestRoads.Accepts(stream, 4094, true) && !IngestRoads.Accepts(stream, 4094, false)
  {
  }

  /** A reader past the first of two bytes: the kernel sends both, the copy only one. */
  lemma PositionIsOverlooked()
    ensures Egress.Delivered([7, 8], 1, true, true, []) == Some([7, 8])
    ensures Egress.Delivered([7, 8], 1, true, true, [Splice.Refused]) == Some([8])
  {
    Egress.FullService(2, 0);
    Egress.FullCopy(1);
    var content: Bytes := [7, 8];
    assert Egress.SendFrom(2, 0, true, [Splice.Refused]) == (0, Egress.HandsOver, []);
    assert content[..0] + content[1..] == [8];
  }

  // --- The deadline ---

  /** A converter that closes its output and exits, leaving a helper with its standard
      error: the watchdog is stood down, the helper is never killed, and the run waits
      for it. */
  lemma HelperOutlivesTheDeadline() returns (run: seq<Action>)
    ensures Run(run).Some? && Run(run).value.dog != Absent && !Run(run).value.waitFailed
    ensures Doomed(Run(run).value) && Hangs(Run(run).value)
  {
    run := Played([], Main(StartWithDeadline));
    run := Played(run, Action.World(OutCloses));
    run := Played(run, Main(DrainOk));
    run := Played(run, Action.World(ChildExits));
    run := Played(run, Main(ExitSeen));
    run := Played(run, Main(LockFinish));
    run := Played(run, Main(DoFinish));
    run := Played(run, Main(DoNotify));
    run := Played(run, Main(DoReap));
  }

  lemma Played(run: seq<Action>, a: Action) returns (longer: seq<Action>)
    requires Run(run).Some? && Enabled(Run(run).value, a)
    ensures Run(longer) == Some(Apply(Run(run).value, a))
  {
    RunExtends(run, a);
    longer := run + [a];
  }
}
