/** Rotation: which rows an insertion evicts, and what it reports of them. */
module Rotation {
  import opened Core
  import opened Ordering
  import opened Tables
  import opened Store

  predicate Unpinned(rows: map<int, Row>, id: int) {
    id in rows && !rows[id].pinned
  }

  /** How many unpinned rows are newer than `id`. */
  ghost function UnpinnedAhead(w: World, rows: map<int, Row>, id: int): nat
    requires Unpinned(rows, id)
  {
    |Ahead(UnpinnedRanks(w, rows), id)|
  }

  /** Where among the expiring rows a row is listed: as many places behind the quota as
      rows are newer. */
  lemma ExpiresAt(w: World, rows: map<int, Row>, max: u64, id: int)
    requires BreaksTies(w) && Unpinned(rows, id)
    ensures var expiring, place := Expiring(w, rows, max), UnpinnedAhead(w, rows, id) - Offset(max);
      && (0 <= place ==> place < |expiring| && expiring[place] == id)
      && (forall k | 0 <= k < |expiring| && expiring[k] == id :: k == place)
  {
    var ranks := UnpinnedRanks(w, rows);
    var listed, ahead := Listing(ranks), |Ahead(ranks, id)|;
    var from := Min(Offset(max), |listed|);
    PlaceOf(ranks, id);
    if from <= ahead {
      assert listed[from..][ahead - from] == id;
    }
    forall k | 0 <= k < |listed[from..]| && listed[from..][k] == id
      ensures k == ahead - Offset(max)
    {
      PlaceIsCount(ranks, from + k);
    }
  }

  lemma ExpiringIsByCount(w: World, rows: map<int, Row>, max: u64, id: int)
    requires BreaksTies(w) && Unpinned(rows, id)
    ensures id in Expiring(w, rows, max) <==> Offset(max) <= UnpinnedAhead(w, rows, id)
  {
    ExpiresAt(w, rows, max, id);
  }

  /** Pinned rows are never evicted or counted; an unpinned row survives exactly when
      fewer than the quota are newer; survivors are untouched. */
  lemma RotationKeepsTheNewest(w: World, t: Tables, max: u64, id: int)
    requires BreaksTies(w) && Accounted(t) && id in t.rows
    ensures var rows := Rotate(w, t, max).rows;
      && (t.rows[id].pinned ==> id in rows)
      && (!t.rows[id].pinned ==> (id in rows <==> UnpinnedAhead(w, t.rows, id) < Offset(max)))
      && (id in rows ==> rows[id] == t.rows[id])
      && rows.Keys <= t.rows.Keys
  {
    var ids := Expiring(w, t.rows, max);
    ReleaseAllKeepsAccounts(t, ids);
    ExpiringAreRows(w, t.rows, max);
    if !t.rows[id].pinned {
      ExpiringIsByCount(w, t.rows, max, id);
    }
  }

  /** The unpinned rows that row `id` will be listed behind once its timestamp is `now`. */
  function AheadOf(w: World, rows: map<int, Row>, id: int, now: Time): set<int> {
    set k | k in rows && k != id && !rows[k].pinned && Before((-rows[k].timestamp, w.tie(k)), (-now, w.tie(id)))
  }

  lemma AheadOncePlaced(w: World, rows: map<int, Row>, id: int, row: Row)
    requires !row.pinned
    ensures UnpinnedAhead(w, rows[id := row], id) == |AheadOf(w, rows, id, row.timestamp)|
  {
    assert Ahead(UnpinnedRanks(w, rows[id := row]), id) == AheadOf(w, rows, id, row.timestamp);
  }

  /** Whether a row that is added or touched survives the rotation that follows can be
      told beforehand. */
  lemma PlacedSurvivesIff(w: World, rows: map<int, Row>, t': Tables, id: int, row: Row, max: u64)
    requires BreaksTies(w) && Accounted(t') && t'.rows == rows[id := row]
    ensures id in Rotate(w, t', max).rows <==> row.pinned || |AheadOf(w, rows, id, row.timestamp)| < Offset(max)
  {
    RotationKeepsTheNewest(w, t', max, id);
    if !row.pinned {
      AheadOncePlaced(w, rows, id, row);
    }
  }

  function FirstOf(listed: seq<int>, n: nat): set<int>
    requires n <= |listed|
  {
    set j | 0 <= j < n :: listed[j]
  }

  // The unpinned rows that stay are the first ones listed.
  lemma KeptAreTheFirst(w: World, t: Tables, max: u64, id: int)
    requires BreaksTies(w) && Accounted(t)
    ensures var listed := Listing(UnpinnedRanks(w, t.rows));
      id in UnpinnedRanks(w, Rotate(w, t, max).rows) <==> id in FirstOf(listed, Min(Offset(max), |listed|))
  {
    var ranks := UnpinnedRanks(w, t.rows);
    var listed := Listing(ranks);
    ReleaseAllKeepsAccounts(t, Expiring(w, t.rows, max));
    ListingIsComplete(ranks);
    if id in ranks {
      ExpiringIsByCount(w, t.rows, max, id);
      PlaceOf(ranks, id);
      forall j | 0 <= j < |listed| && listed[j] == id
        ensures j == UnpinnedAhead(w, t.rows, id)
      {
        PlaceIsCount(ranks, j);
      }
    } else {
      assert id !in listed;
    }
  }

  /** At most the quota of unpinned rows remain: exactly so many, when there were. */
  lemma RotationFillsTheQuota(w: World, t: Tables, max: u64)
    requires BreaksTies(w) && Accounted(t)
    ensures |UnpinnedRanks(w, Rotate(w, t, max).rows)| == Min(Offset(max), |UnpinnedRanks(w, t.rows)|)
  {
    var ranks, ranks' := UnpinnedRanks(w, t.rows), UnpinnedRanks(w, Rotate(w, t, max).rows);
    var listed := Listing(ranks);
    var kept := FirstOf(listed, Min(Offset(max), |listed|));
    forall id
      ensures id in ranks' <==> id in kept
    {
      KeptAreTheFirst(w, t, max, id);
    }
    assert ranks'.Keys == kept;
    ListingIsComplete(ranks);
    PrefixIsDistinct(ranks, Min(Offset(max), |listed|));
  }

  /** "The newest `max` rows stay" is what the code does exactly when `max` survives
      the cast to a signed integer, or nothing is unpinned. */
  lemma QuotaIsExactUnlessItWraps(w: World, t: Tables, max: u64)
    requires BreaksTies(w) && Accounted(t)
    ensures (forall id | Unpinned(t.rows, id) :: id in Rotate(w, t, max).rows <==> UnpinnedAhead(w, t.rows, id) < max)
      <==> (max < 0x8000_0000_0000_0000 || forall id | id in t.rows :: t.rows[id].pinned)
  {
    forall id | Unpinned(t.rows, id)
      ensures id in Rotate(w, t, max).rows <==> UnpinnedAhead(w, t.rows, id) < Offset(max)
    {
      RotationKeepsTheNewest(w, t, max, id);
    }
    if max >= 0x8000_0000_0000_0000 && exists id :: id in t.rows && !t.rows[id].pinned {
      var some :| some in t.rows && !t.rows[some].pinned;
      var ranks := UnpinnedRanks(w, t.rows);
      assert some in ranks.Keys;
      var newest := HasFirst(ranks);
      assert forall x | x in ranks.Keys :: !Before(ranks[x], ranks[newest]);
      assert Ahead(ranks, newest) == {};
      assert Unpinned(t.rows, newest) && UnpinnedAhead(w, t.rows, newest) < max;
    }
  }

  /** The hashes reported as expired are those of the rows that went, no others. */
  lemma ExpiredAreEvicted(w: World, t: Tables, max: u64, h: Digest)
    requires BreaksTies(w) && Accounted(t)
    ensures h in ExpiredHashes(w, t.rows, max) <==>
      exists id :: id in t.rows && id !in Rotate(w, t, max).rows && t.rows[id].hash == h
  {
    var ids, hashes := Expiring(w, t.rows, max), ExpiredHashes(w, t.rows, max);
    ReleaseAllKeepsAccounts(t, ids);
    ExpiringAreRows(w, t.rows, max);
    if h in hashes {
      var i :| 0 <= i < |hashes| && hashes[i] == h;
      var id := ids[i];
      assert id in Members(ids);
      assert id in t.rows && id !in Rotate(w, t, max).rows && t.rows[id].hash == h;
    }
    if id :| id in t.rows && id !in Rotate(w, t, max).rows && t.rows[id].hash == h {
      assert id in ids;
      var i :| 0 <= i < |ids| && ids[i] == id;
      assert hashes[i] == h;
    }
  }
}
