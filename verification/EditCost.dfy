/** What deduplication saves: storing an edited copy costs the bytes around the edit. */
module EditCost {
  import opened Core
  import opened Splitting
  import opened FastCdc
  import opened Tables
  import opened Store
  import opened History
  import opened Runs

  /** Payload bytes the chunk table holds. */
  ghost function StoredBytes(chunks: map<Digest, Chunk>): nat {
    Total(Lengths(chunks))
  }

  ghost function Lengths(chunks: map<Digest, Chunk>): map<Digest, nat> {
    map h | h in chunks :: |chunks[h].data|
  }

  /** Bytes of the pieces whose hash the table does not have yet. */
  ghost function FreshBytes(w: World, chunks: map<Digest, Chunk>, pieces: seq<Bytes>): nat {
    if pieces == [] then 0 else
      (if w.sha(pieces[0]) in chunks then 0 else |pieces[0]|) + FreshBytes(w, chunks, pieces[1..])
  }

  lemma LinkCost(w: World, t: Tables, id: int, seqno: int, chunk: Bytes)
    ensures StoredBytes(Link(w, t, id, seqno, chunk).chunks) ==
      StoredBytes(t.chunks) + if w.sha(chunk) in t.chunks then 0 else |chunk|
  {
    var h := w.sha(chunk);
    var added := if h in t.chunks then |t.chunks[h].data| else |chunk|;
    TotalUpdate(Lengths(t.chunks), h, added);
    assert Lengths(Link(w, t, id, seqno, chunk).chunks) == Lengths(t.chunks)[h := added];
  }

  lemma {:induction false} FreshShrinks(w: World, chunks: map<Digest, Chunk>, chunks': map<Digest, Chunk>,
                                        pieces: seq<Bytes>)
    requires chunks.Keys <= chunks'.Keys
    ensures FreshBytes(w, chunks', pieces) <= FreshBytes(w, chunks, pieces)
  {
    if pieces != [] {
      FreshShrinks(w, chunks, chunks', pieces[1..]);
    }
  }

  lemma {:induction false} LinkAllCost(w: World, t: Tables, id: int, seqno: int, pieces: seq<Bytes>)
    ensures StoredBytes(LinkAll(w, t, id, seqno, pieces).chunks)
      <= StoredBytes(t.chunks) + FreshBytes(w, t.chunks, pieces)
    decreases |pieces|
  {
    if pieces != [] {
      var t1 := Link(w, t, id, seqno, pieces[0]);
      LinkCost(w, t, id, seqno, pieces[0]);
      LinkAllCost(w, t1, id, seqno + 1, pieces[1..]);
      FreshShrinks(w, t.chunks, t1.chunks, pieces[1..]);
    }
  }

  lemma {:induction false} FreshAppends(w: World, chunks: map<Digest, Chunk>, a: seq<Bytes>, b: seq<Bytes>)
    ensures FreshBytes(w, chunks, a + b) == FreshBytes(w, chunks, a) + FreshBytes(w, chunks, b)
  {
    if a == [] {
      assert a + b == b;
    } else {
      FreshAppends(w, chunks, a[1..], b);
      assert (a + b)[0] == a[0] && (a + b)[1..] == a[1..] + b;
    }
  }

  lemma {:induction false} FreshBounded(w: World, chunks: map<Digest, Chunk>, pieces: seq<Bytes>)
    ensures FreshBytes(w, chunks, pieces) <= |Flatten(pieces)|
    ensures (forall i | 0 <= i < |pieces| :: w.sha(pieces[i]) in chunks) ==> FreshBytes(w, chunks, pieces) == 0
  {
    if pieces != [] {
      FreshBounded(w, chunks, pieces[1..]);
      assert forall i | 0 <= i < |pieces[1..]| :: pieces[1..][i] == pieces[i + 1];
    }
  }

  /** Every chunk of `a` is in the table. */
  ghost predicate Present(w: World, t: Tables, a: Bytes) {
    forall i | 0 <= i < |Chunks(w.gear, a)| :: w.sha(Chunks(w.gear, a)[i]) in t.chunks
  }

  /** `b` is `a` edited between a common cut `o` and the cuts `i` of `a` and `j` of `b`
      from which on they are the same. */
  ghost predicate Edited(w: World, a: Bytes, b: Bytes, e: nat, o: nat, i: nat, j: nat) {
    && AgreeUpTo(a, b, e)
    && CutAt(Cutter(w.gear), a, o) && o <= e && o < |a|
    && CutAt(Cutter(w.gear), a, i) && CutAt(Cutter(w.gear), b, j)
    && o <= i <= |a| && o <= j <= |b| && a[i..] == b[j..]
  }

  // With the chunks of `a` there, linking an edited copy adds what lies between the cuts.
  lemma EditedChunksAreCheap(w: World, t: Tables, id: int, a: Bytes, b: Bytes, e: nat, o: nat, i: nat, j: nat)
    requires Present(w, t, a) && Edited(w, a, b, e, o, i, j)
    ensures StoredBytes(LinkAll(w, t, id, 0, Chunks(w.gear, b)).chunks) <= StoredBytes(t.chunks) + (j - o)
  {
    CutterIsLocal(w.gear);
    var common, inA, inB, tail := EditLocality(Cutter(w.gear), a, b, e, o, i, j);
    var all := Chunks(w.gear, a);
    forall k | 0 <= k < |common|
      ensures w.sha(common[k]) in t.chunks
    {
      assert all[k] == common[k];
    }
    forall k | 0 <= k < |tail|
      ensures w.sha(tail[k]) in t.chunks
    {
      assert all[|common + inA| + k] == tail[k];
    }
    EditedPieces(w, t, id, common, inB, tail);
  }

  lemma EditedPieces(w: World, t: Tables, id: int, common: seq<Bytes>, middle: seq<Bytes>, tail: seq<Bytes>)
    requires forall k | 0 <= k < |common| :: w.sha(common[k]) in t.chunks
    requires forall k | 0 <= k < |tail| :: w.sha(tail[k]) in t.chunks
    ensures StoredBytes(LinkAll(w, t, id, 0, common + middle + tail).chunks)
      <= StoredBytes(t.chunks) + |Flatten(middle)|
  {
    LinkAllCost(w, t, id, 0, common + middle + tail);
    FreshAppends(w, t.chunks, common + middle, tail);
    FreshAppends(w, t.chunks, common, middle);
    FreshBounded(w, t.chunks, common);
    FreshBounded(w, t.chunks, middle);
    FreshBounded(w, t.chunks, tail);
  }

  // --- In the store ---

  /** A live chunked row keeps its chunks in the table. */
  lemma LiveRowIsPresent(w: World, known: set<Bytes>, t: Tables, h: History, id: int)
    requires TablesHold(w, known, t, h) && id in t.rows && t.rows[id].chunked
    ensures Present(w, t, h.entries[id].bytes)
  {
    assert RowHolds(w, known, t.manifest, id, t.rows[id], h.entries[id]);
    var pieces := Chunks(w.gear, h.entries[id].bytes);
    forall i | 0 <= i < |pieces|
      ensures w.sha(pieces[i]) in t.chunks
    {
      assert t.manifest[Slot(id, i)] == w.sha(pieces[i]);
    }
  }

  lemma {:induction false} TotalShrinks(m': map<Digest, nat>, m: map<Digest, nat>)
    requires forall k | k in m' :: k in m && m'[k] == m[k]
    ensures Total(m') <= Total(m)
    decreases |m'|
  {
    if m'.Keys != {} {
      var k :| k in m';
      TotalRemove(m', k);
      TotalRemove(m, k);
      Below(m', k);
      TotalShrinks(m' - {k}, m - {k});
    }
  }

  lemma {:induction false} ReleasingStoresNothing(t: Tables, ids: seq<int>)
    ensures StoredBytes(ReleaseAll(t, ids).chunks) <= StoredBytes(t.chunks)
    decreases |ids|
  {
    if ids != [] {
      var t1 := if ids[0] in t.rows && t.rows[ids[0]].chunked then Release(t, ids[0]) else t;
      TotalShrinks(Lengths(t1.chunks), Lengths(t.chunks));
      ReleasingStoresNothing(t1, ids[1..]);
    }
  }

  /** In every reachable store: while a chunked row holding `a` lives, storing an edited
      copy of it, rotation included, adds at most the bytes between the two cuts. */
  lemma EditedCopyIsCheap(w: World, ops: seq<Op>, id: int, mime: string, b: Bytes, max: u64, now: Time, e: nat,
                          o: nat, i: nat, j: nat)
    requires BreaksTies(w) && NoCollision(w, Hashed(w, ops))
    requires id in Run(w, ops).db.rows && Run(w, ops).db.rows[id].chunked && id in MeaningOf(w, ops).entries
    requires Edited(w, MeaningOf(w, ops).entries[id].bytes, b, e, o, i, j)
    ensures StoredBytes(Step(w, Run(w, ops), Insert(mime, b, max, now)).db.chunks)
      <= StoredBytes(Run(w, ops).db.chunks) + (j - o)
  {
    var t := Run(w, ops).db;
    RunRefines(w, Hashed(w, ops), ops);
    LiveRowIsPresent(w, Hashed(w, ops), t, MeaningOf(w, ops), id);
    PlacedIsCheap(w, t, mime, MeaningOf(w, ops).entries[id].bytes, b, now, e, o, i, j);
    var t' := Place(w, t, mime, InMemory(b), w.sha(b), now).0;
    ReleasingStoresNothing(t', Expiring(w, t'.rows, max));
  }

  lemma PlacedIsCheap(w: World, t: Tables, mime: string, a: Bytes, b: Bytes, now: Time, e: nat, o: nat, i: nat, j: nat)
    requires Present(w, t, a) && Edited(w, a, b, e, o, i, j)
    ensures StoredBytes(Place(w, t, mime, InMemory(b), w.sha(b), now).0.chunks) <= StoredBytes(t.chunks) + (j - o)
  {
    var added := InsertRow(t, NewRow(w, mime, InMemory(b), w.sha(b), now));
    EditedChunksAreCheap(w, added, t.nextId, a, b, e, o, i, j);
  }
}
