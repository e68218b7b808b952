/** The SQLite tables behind the clipboard history and the statements run on them.
    A transaction is one function from tables to tables. */
module Tables {
  import opened Core
  import opened GearHash
  import opened FastCdc
  import opened Ordering

  type Digest = Bytes
  type Time = int

  /** What the store takes from outside: SHA3-256, the gear table, text
      classification and decoding, and how `ORDER BY` breaks timestamp ties. */
  datatype World = World(
    sha: Bytes -> Digest,
    gear: Gear,
    textLike: string -> bool,
    utf8: Bytes -> bool,
    preview: (string, Bytes) -> string,
    tie: int -> int)

  /** Ties are broken the same way every time, and no two rows tie for good. */
  ghost predicate BreaksTies(w: World) {
    forall a, b :: w.tie(a) == w.tie(b) ==> a == b
  }

  // --- Storage classes ---

  predicate HasPrefix(s: string, p: string) {
    p <= s
  }

  predicate Contains(s: string, part: string) {
    exists i | 0 <= i <= |s| :: part <= s[i..]
  }

  const SENSITIVE_MIME_HINTS: seq<string> := [
    "x-kde-passwordManagerHint", "password", "secret", "x-gnome-cliptrace",
    "keepass", "1password", "bitwarden", "concealed"]

  predicate IsCacheClass(mime: string) {
    HasPrefix(mime, "image/") || Contains(mime, "gif")
  }

  predicate IsDetachable(w: World, mime: string) {
    IsCacheClass(mime) && !w.textLike(mime)
  }

  predicate IsChunkable(mime: string, len: nat) {
    !IsCacheClass(mime) && len > MIN
  }

  predicate IsSkipped(mime: string, len: nat) {
    len == 0 || exists i | 0 <= i < |SENSITIVE_MIME_HINTS| :: Contains(mime, SENSITIVE_MIME_HINTS[i])
  }

  // --- Tables ---

  /** The `content` column. */
  datatype Column = Null | Text(bytes: Bytes) | Blob(bytes: Bytes)

  datatype Row = Row(timestamp: Time, mime: string, size: nat, preview: Option<string>, content: Column,
                     hash: Digest, chunked: bool, pinned: bool)

  datatype Chunk = Chunk(data: Bytes, refcount: int)

  /** Primary key of `manifest`. */
  datatype Slot = Slot(id: int, seqno: int)

  datatype Tables = Tables(rows: map<int, Row>, chunks: map<Digest, Chunk>, manifest: map<Slot, Digest>, nextId: int)

  const EMPTY: Tables := Tables(map[], map[], map[], 1)

  /** What a row is made from: all the bytes, or only how many there are. */
  datatype Body = InMemory(data: Bytes) | Detached(len: nat)

  function BodyLen(body: Body): nat {
    match body
    case InMemory(data) => |data|
    case Detached(len) => len
  }

  /** Preview, stored content, and whether the bytes go to `chunks` instead. */
  datatype Parts = Parts(preview: Option<string>, content: Column, chunked: bool)

  function RowParts(w: World, mime: string, data: Bytes): Parts {
    var preview := if w.textLike(mime) then Some(w.preview(mime, data)) else None;
    if IsChunkable(mime, |data|) then Parts(preview, Null, true)
    else if w.utf8(data) && w.textLike(mime) then Parts(preview, Text(data), false)
    else if IsCacheClass(mime) then Parts(preview, Null, false)
    else Parts(preview, Blob(data), false)
  }

  function PartsOf(w: World, mime: string, body: Body): Parts {
    match body
    case InMemory(data) => RowParts(w, mime, data)
    case Detached(_) => Parts(None, Null, false)
  }

  // --- Chunk accounting ---

  /** The manifest entries that name chunk `h`. */
  function References(manifest: map<Slot, Digest>, h: Digest): set<Slot> {
    set k | k in manifest && manifest[k] == h
  }

  function ReferencesOf(manifest: map<Slot, Digest>, id: int, h: Digest): set<Slot> {
    set k | k in manifest && k.id == id && manifest[k] == h
  }

  /** Each chunk's count is its number of manifest entries and is at least one; no
      entry dangles, and every entry belongs to a live chunked row. */
  ghost predicate Accounted(t: Tables) {
    && Counted(t.chunks, t.manifest)
    && forall k | k in t.manifest :: k.id in t.rows && t.rows[k.id].chunked
  }

  ghost predicate Counted(chunks: map<Digest, Chunk>, manifest: map<Slot, Digest>) {
    && (forall h | h in chunks :: chunks[h].refcount == |References(manifest, h)| >= 1)
    && (forall k | k in manifest :: manifest[k] in chunks)
  }

  /** One turn of `store_chunks`: count the chunk again or add it, then link it. */
  function Link(w: World, t: Tables, id: int, seqno: int, chunk: Bytes): Tables {
    var h := w.sha(chunk);
    var counted := if h in t.chunks then t.chunks[h].(refcount := t.chunks[h].refcount + 1) else Chunk(chunk, 1);
    t.(chunks := t.chunks[h := counted], manifest := t.manifest[Slot(id, seqno) := h])
  }

  function LinkAll(w: World, t: Tables, id: int, seqno: int, chunks: seq<Bytes>): Tables
    decreases |chunks|
  {
    if chunks == [] then t else LinkAll(w, Link(w, t, id, seqno, chunks[0]), id, seqno + 1, chunks[1..])
  }

  lemma LinkFirst(w: World, t: Tables, id: int, seqno: int, chunk: Bytes, rest: seq<Bytes>)
    ensures LinkAll(w, t, id, seqno, [chunk] + rest) == LinkAll(w, Link(w, t, id, seqno, chunk), id, seqno + 1, rest)
  {
    assert ([chunk] + rest)[1..] == rest;
  }

  /** `release_chunks`: three statements over the row's own manifest entries. */
  function Release(t: Tables, id: int): Tables {
    var counted := map h | h in t.chunks ::
      if ReferencesOf(t.manifest, id, h) != {}
        then t.chunks[h].(refcount := t.chunks[h].refcount - |ReferencesOf(t.manifest, id, h)|)
        else t.chunks[h];
    var kept := map h | h in counted && !(counted[h].refcount <= 0 && ReferencesOf(t.manifest, id, h) != {}) ::
      counted[h];
    t.(chunks := kept, manifest := map k | k in t.manifest && k.id != id :: t.manifest[k])
  }

  lemma LinkCounts(w: World, t: Tables, id: int, seqno: int, chunk: Bytes, h: Digest)
    requires Counted(t.chunks, t.manifest) && Slot(id, seqno) !in t.manifest
    ensures var t' := Link(w, t, id, seqno, chunk);
      h in t'.chunks ==> t'.chunks[h].refcount == |References(t'.manifest, h)| >= 1
  {
    var t' := Link(w, t, id, seqno, chunk);
    if h == w.sha(chunk) {
      assert References(t'.manifest, h) == References(t.manifest, h) + {Slot(id, seqno)};
      assert h !in t.chunks ==> References(t.manifest, h) == {};
    } else {
      assert References(t'.manifest, h) == References(t.manifest, h);
    }
  }

  lemma LinkKeepsAccounts(w: World, t: Tables, id: int, seqno: int, chunk: Bytes)
    requires Accounted(t) && id in t.rows && t.rows[id].chunked && Slot(id, seqno) !in t.manifest
    ensures Accounted(Link(w, t, id, seqno, chunk))
  {
    var t' := Link(w, t, id, seqno, chunk);
    forall h | h in t'.chunks
      ensures t'.chunks[h].refcount == |References(t'.manifest, h)| >= 1
    {
      LinkCounts(w, t, id, seqno, chunk, h);
    }
  }

  lemma {:induction false} LinkAllKeepsAccounts(w: World, t: Tables, id: int, seqno: int, chunks: seq<Bytes>)
    requires Accounted(t) && id in t.rows && t.rows[id].chunked
    requires forall i | seqno <= i :: Slot(id, i) !in t.manifest
    ensures Accounted(LinkAll(w, t, id, seqno, chunks))
    ensures LinkAll(w, t, id, seqno, chunks).rows == t.rows && LinkAll(w, t, id, seqno, chunks).nextId == t.nextId
    decreases |chunks|
  {
    if chunks != [] {
      LinkKeepsAccounts(w, t, id, seqno, chunks[0]);
      LinkAllKeepsAccounts(w, Link(w, t, id, seqno, chunks[0]), id, seqno + 1, chunks[1..]);
    }
  }

  lemma ReleaseCounts(t: Tables, id: int, h: Digest)
    ensures |References(t.manifest, h)| - |ReferencesOf(t.manifest, id, h)| == |References(Release(t, id).manifest, h)|
  {
    assert References(Release(t, id).manifest, h) == References(t.manifest, h) - ReferencesOf(t.manifest, id, h);
    assert ReferencesOf(t.manifest, id, h) <= References(t.manifest, h);
  }

  lemma ReleaseKeepsAccounts(t: Tables, id: int)
    requires Accounted(t)
    ensures Accounted(Release(t, id))
    ensures forall k | k in Release(t, id).manifest :: k.id != id
  {
    var t' := Release(t, id);
    forall h | h in t'.chunks
      ensures t'.chunks[h].refcount == |References(t'.manifest, h)| >= 1
    {
      ReleaseCounts(t, id, h);
    }
    forall k | k in t'.manifest
      ensures t'.manifest[k] in t'.chunks
    {
      ReleaseKeepsReferenced(t, id, k);
    }
  }

  // A chunk some other row still names survives, with its data.
  lemma ReleaseKeepsReferenced(t: Tables, id: int, k: Slot)
    requires Accounted(t) && k in t.manifest && k.id != id
    ensures k in Release(t, id).manifest && Release(t, id).manifest[k] == t.manifest[k]
    ensures t.manifest[k] in Release(t, id).chunks
    ensures Release(t, id).chunks[t.manifest[k]].data == t.chunks[t.manifest[k]].data
  {
    var h := t.manifest[k];
    ReleaseCounts(t, id, h);
    assert k in References(Release(t, id).manifest, h);
  }

  // --- Reassembly ---

  /** The join of a manifest entry with its chunk; a missing chunk joins nothing. */
  function DataAt(t: Tables, k: Slot): Bytes {
    if k in t.manifest && t.manifest[k] in t.chunks then t.chunks[t.manifest[k]].data else []
  }

  function SeqnosOf(t: Tables, id: int): set<int> {
    set k | k in t.manifest && k.id == id :: k.seqno
  }

  /** The sequence numbers of a row's manifest, `ORDER BY seq`. */
  function OrderedSeqnos(t: Tables, id: int): seq<int> {
    Listing(map s | s in SeqnosOf(t, id) :: (s, 0))
  }

  function PiecesAt(t: Tables, id: int, order: seq<int>): seq<Bytes> {
    seq(|order|, i requires 0 <= i < |order| => DataAt(t, Slot(id, order[i])))
  }

  /** A chunked row's bytes, in manifest order. */
  function Joined(t: Tables, id: int): Bytes {
    Flatten(PiecesAt(t, id, OrderedSeqnos(t, id)))
  }

  /** Non-interference: releasing one row leaves every other row's bytes alone. */
  lemma ReleaseLeavesOthers(t: Tables, id: int, other: int)
    requires Accounted(t) && other != id
    ensures Joined(Release(t, id), other) == Joined(t, other)
  {
    var t' := Release(t, id);
    assert SeqnosOf(t', other) == SeqnosOf(t, other) by {
      forall k | k in t.manifest && k.id == other
        ensures k in t'.manifest
      {
      }
    }
    var order := OrderedSeqnos(t, other);
    forall i | 0 <= i < |order|
      ensures DataAt(t', Slot(other, order[i])) == DataAt(t, Slot(other, order[i]))
    {
      var k := Slot(other, order[i]);
      if k in t.manifest {
        ReleaseKeepsReferenced(t, id, k);
      }
    }
    assert PiecesAt(t', other, order) == PiecesAt(t, other, order);
  }

  // --- Rotation ---

  /** `max_history as i64`, used as an OFFSET: a negative one counts as zero. */
  function Offset(max: u64): nat {
    if max < 0x8000_0000_0000_0000 then max else 0
  }

  /** `WHERE is_pinned = 0 ORDER BY timestamp DESC`. */
  function UnpinnedRanks(w: World, rows: map<int, Row>): Ranks {
    map id | id in rows && !rows[id].pinned :: (-rows[id].timestamp, w.tie(id))
  }

  /** `LIMIT -1 OFFSET max`: what rotation will evict. */
  function Expiring(w: World, rows: map<int, Row>, max: u64): seq<int>
    requires BreaksTies(w)
  {
    var listed := Listing(UnpinnedRanks(w, rows));
    listed[Min(Offset(max), |listed|)..]
  }

  function ReleaseAll(t: Tables, ids: seq<int>): Tables
    decreases |ids|
  {
    if ids == [] then t
    else if ids[0] in t.rows && t.rows[ids[0]].chunked then ReleaseAll(Release(t, ids[0]), ids[1..])
    else ReleaseAll(t, ids[1..])
  }

  function Members(ids: seq<int>): set<int> {
    set i | i in ids
  }

  /** Rows go after their chunks have been given back. */
  function Drop(t: Tables, ids: seq<int>): Tables {
    var released := ReleaseAll(t, ids);
    released.(rows := released.rows - Members(ids))
  }

  function Rotate(w: World, t: Tables, max: u64): Tables
    requires BreaksTies(w)
  {
    Drop(t, Expiring(w, t.rows, max))
  }

  lemma {:induction false} ReleaseAllKeepsAccounts(t: Tables, ids: seq<int>)
    requires Accounted(t)
    ensures Accounted(ReleaseAll(t, ids))
    ensures ReleaseAll(t, ids).rows == t.rows && ReleaseAll(t, ids).nextId == t.nextId
    ensures forall k | k in ReleaseAll(t, ids).manifest :: k.id !in ids
    decreases |ids|
  {
    if ids != [] {
      if ids[0] in t.rows && t.rows[ids[0]].chunked {
        ReleaseKeepsAccounts(t, ids[0]);
        ReleaseAllKeepsAccounts(Release(t, ids[0]), ids[1..]);
        ReleaseAllShrinks(Release(t, ids[0]), ids[1..]);
      } else {
        ReleaseAllKeepsAccounts(t, ids[1..]);
        ReleaseAllShrinks(t, ids[1..]);
      }
    }
  }

  lemma {:induction false} ReleaseAllShrinks(t: Tables, ids: seq<int>)
    ensures ReleaseAll(t, ids).manifest.Keys <= t.manifest.Keys
    decreases |ids|
  {
    if ids != [] {
      ReleaseAllShrinks(if ids[0] in t.rows && t.rows[ids[0]].chunked then Release(t, ids[0]) else t, ids[1..]);
    }
  }

  /** Several rows released in sequence still leave everyone else alone. */
  lemma {:induction false} ReleaseAllLeavesOthers(t: Tables, ids: seq<int>, other: int)
    requires Accounted(t) && other !in ids
    ensures Joined(ReleaseAll(t, ids), other) == Joined(t, other)
    decreases |ids|
  {
    if ids != [] {
      if ids[0] in t.rows && t.rows[ids[0]].chunked {
        ReleaseKeepsAccounts(t, ids[0]);
        ReleaseLeavesOthers(t, ids[0], other);
        ReleaseAllLeavesOthers(Release(t, ids[0]), ids[1..], other);
      } else {
        ReleaseAllLeavesOthers(t, ids[1..], other);
      }
    }
  }
}
