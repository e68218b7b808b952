/** The index a search hit carries, and the list position it is later resolved by. */
module SearchIndex {
  import opened Core
  import opened Ordering
  import opened Tables

  /** `ORDER BY timestamp DESC` over all rows. */
  function AllRanks(w: World, rows: map<int, Row>): Ranks {
    map id | id in rows :: (-rows[id].timestamp, w.tie(id))
  }

  /** `LIMIT limit`, where a limit that wraps negative in the cast means none. */
  function Limited(listed: seq<int>, limit: u64): seq<int> {
    if limit < 0x8000_0000_0000_0000 && limit < |listed| then listed[..limit] else listed
  }

  /** `fetch_metadata`: the ids, newest first. */
  function FetchMetadata(w: World, rows: map<int, Row>, limit: u64): seq<int>
    requires BreaksTies(w)
  {
    Limited(Listing(AllRanks(w, rows)), limit)
  }

  function Newer(rows: map<int, Row>, id: int): set<int>
    requires id in rows
  {
    set k | k in rows && rows[k].timestamp > rows[id].timestamp
  }

  /** `search_metadata`: each hit with its count of newer rows. */
  function Search(w: World, rows: map<int, Row>, matches: Row -> bool, limit: u64): seq<(nat, int)>
    requires BreaksTies(w)
  {
    var ranks := map id | id in rows && matches(rows[id]) :: (-rows[id].timestamp, w.tie(id));
    ListingIsOrdered(ranks);
    var hits := Limited(Listing(ranks), limit);
    assert forall i | 0 <= i < |hits| :: hits[i] in Listing(ranks);
    seq(|hits|, i requires 0 <= i < |hits| => (|Newer(rows, hits[i])|, hits[i]))
  }

  /** `resolve_target_id` of an index. */
  function Resolve(w: World, rows: map<int, Row>, index: nat, limit: u64): Option<int>
    requires BreaksTies(w)
  {
    var listed := FetchMetadata(w, rows, limit);
    if index < |listed| then Some(listed[index]) else None
  }

  /** No row of the same timestamp is listed before `id`. */
  ghost predicate FirstOfItsTime(w: World, rows: map<int, Row>, id: int)
    requires id in rows
  {
    forall k | k in rows && rows[k].timestamp == rows[id].timestamp :: w.tie(k) >= w.tie(id)
  }

  lemma PlaceCountsNewer(w: World, rows: map<int, Row>, id: int)
    requires BreaksTies(w) && id in rows
    ensures |Newer(rows, id)| <= |Ahead(AllRanks(w, rows), id)|
    ensures |Newer(rows, id)| == |Ahead(AllRanks(w, rows), id)| <==> FirstOfItsTime(w, rows, id)
  {
    var newer, ahead := Newer(rows, id), Ahead(AllRanks(w, rows), id);
    forall k | k in rows
      ensures k in newer ==> k in ahead
      ensures k in ahead && FirstOfItsTime(w, rows, id) ==> k in newer
    {
      assert AllRanks(w, rows)[k] == (-rows[k].timestamp, w.tie(k));
      assert AllRanks(w, rows)[id] == (-rows[id].timestamp, w.tie(id));
    }
    SubsetCards(newer, ahead);
    if FirstOfItsTime(w, rows, id) {
      assert newer == ahead;
    } else {
      var k :| k in rows && rows[k].timestamp == rows[id].timestamp && w.tie(k) < w.tie(id);
      assert AllRanks(w, rows)[k] == (-rows[k].timestamp, w.tie(k));
      assert k in ahead && k !in newer;
    }
  }

  lemma {:induction false} SubsetCards<T>(a: set<T>, b: set<T>)
    requires a <= b
    ensures |a| <= |b| && (|a| == |b| ==> a == b)
  {
    assert b == a + (b - a);
    assert |b| == |a| + |b - a|;
  }

  /** A hit's index leads back to the hit exactly when it is below the list's limit
      and no row of the same timestamp is listed in front of it. */
  lemma IndexResolves(w: World, rows: map<int, Row>, id: int, limit: u64)
    requires BreaksTies(w) && id in rows
    ensures Resolve(w, rows, |Newer(rows, id)|, limit) == Some(id) <==>
      FirstOfItsTime(w, rows, id) && (|Newer(rows, id)| < limit || limit >= 0x8000_0000_0000_0000)
  {
    var ranks := AllRanks(w, rows);
    var n, listed := |Newer(rows, id)|, Listing(ranks);
    PlaceCountsNewer(w, rows, id);
    PlaceOf(ranks, id);
    if n < |listed| {
      PlaceIsCount(ranks, n);
    }
  }

  /** Search and list agree on every row exactly when timestamps are distinct. */
  lemma IndicesAgreeIffDistinct(w: World, rows: map<int, Row>)
    requires BreaksTies(w)
    ensures (forall id | id in rows :: Resolve(w, rows, |Newer(rows, id)|, TWO64 - 1) == Some(id)) <==>
      (forall a, b | a in rows && b in rows && rows[a].timestamp == rows[b].timestamp :: a == b)
  {
    forall id | id in rows
      ensures Resolve(w, rows, |Newer(rows, id)|, TWO64 - 1) == Some(id) <==> FirstOfItsTime(w, rows, id)
    {
      IndexResolves(w, rows, id, TWO64 - 1);
    }
    if a, b :| a in rows && b in rows && rows[a].timestamp == rows[b].timestamp && a != b {
      assert w.tie(a) != w.tie(b);
      assert !FirstOfItsTime(w, rows, a) || !FirstOfItsTime(w, rows, b);
    }
  }

  /** The promise of the search command: with distinct timestamps, any reported index
      below the fetch limit resolves to the very row that was shown. */
  lemma SearchThenResolve(w: World, rows: map<int, Row>, matches: Row -> bool, limit: u64, fetch: u64, i: nat)
    requires BreaksTies(w) && i < |Search(w, rows, matches, limit)|
    requires forall a, b | a in rows && b in rows && rows[a].timestamp == rows[b].timestamp :: a == b
    ensures var (index, id) := Search(w, rows, matches, limit)[i];
      && id in rows && matches(rows[id])
      && (index < fetch ==> Resolve(w, rows, index, fetch) == Some(id))
  {
    var ranks := map id | id in rows && matches(rows[id]) :: (-rows[id].timestamp, w.tie(id));
    ListingIsOrdered(ranks);
    var id := Search(w, rows, matches, limit)[i].1;
    assert id in Listing(ranks);
    IndexResolves(w, rows, id, fetch);
  }

  // --- Completeness ---

  /** Whether a limit leaves room for the `n`-th row, counted from zero. */
  predicate Reaches(limit: u64, n: nat) {
    n < limit || limit >= 0x8000_0000_0000_0000
  }

  /** The rows of a kind that are listed before `id`: later ones, and of the same time
      those the tie rule puts first. */
  ghost function ListedBefore(w: World, rows: map<int, Row>, matches: Row -> bool, id: int): set<int>
    requires id in rows
  {
    set k | k in rows && matches(rows[k]) &&
            (rows[k].timestamp > rows[id].timestamp
             || (rows[k].timestamp == rows[id].timestamp && w.tie(k) < w.tie(id)))
  }

  ghost function Matching(rows: map<int, Row>, matches: Row -> bool): set<int> {
    set k | k in rows && matches(rows[k])
  }

  predicate AnyRow(row: Row) {
    true
  }

  lemma AheadIsListedBefore(w: World, rows: map<int, Row>, matches: Row -> bool, ranks: Ranks, id: int)
    requires ranks.Keys == Matching(rows, matches) && id in ranks
    requires forall k | k in ranks :: ranks[k] == (-rows[k].timestamp, w.tie(k))
    ensures Ahead(ranks, id) == ListedBefore(w, rows, matches, id)
  {
    forall k
      ensures k in Ahead(ranks, id) <==> k in ListedBefore(w, rows, matches, id)
    {
      assert k in ranks <==> k in Matching(rows, matches);
      if k in ranks {
        assert ranks[k] == (-rows[k].timestamp, w.tie(k)) && ranks[id] == (-rows[id].timestamp, w.tie(id));
      }
    }
  }

  lemma LimitedListing(ranks: Ranks, limit: u64, id: int)
    requires Strict(ranks)
    ensures var shown := Limited(Listing(ranks), limit);
      && |shown| == (if limit >= 0x8000_0000_0000_0000 then |ranks.Keys| else Min(limit, |ranks.Keys|))
      && (id in ranks ==>
           if Reaches(limit, |Ahead(ranks, id)|) then |Ahead(ranks, id)| < |shown| && shown[|Ahead(ranks, id)|] == id
           else id !in shown)
      && (id !in ranks ==> id !in shown)
  {
    var listed, shown := Listing(ranks), Limited(Listing(ranks), limit);
    ListingIsComplete(ranks);
    assert forall k | 0 <= k < |shown| :: shown[k] == listed[k];
    if id in ranks {
      PlaceOf(ranks, id);
      forall k | 0 <= k < |shown| && shown[k] == id
        ensures k == |Ahead(ranks, id)|
      {
        PlaceIsCount(ranks, k);
      }
    }
  }

  /** What a search reports: as many matching rows as the limit allows, newest first. A
      matching row is among them if and only if the limit reaches beyond those listed
      before it; it then stands right behind them, with its count of later rows. */
  lemma SearchIsComplete(w: World, rows: map<int, Row>, matches: Row -> bool, limit: u64, id: int)
    requires BreaksTies(w)
    ensures var hits := Search(w, rows, matches, limit);
      var all := |Matching(rows, matches)|;
      && |hits| == (if limit >= 0x8000_0000_0000_0000 then all else Min(limit, all))
      && (id in rows && matches(rows[id]) && Reaches(limit, |ListedBefore(w, rows, matches, id)|) ==>
           && |ListedBefore(w, rows, matches, id)| < |hits|
           && hits[|ListedBefore(w, rows, matches, id)|] ==
                (|set k | k in rows && rows[k].timestamp > rows[id].timestamp|, id))
      && (!(id in rows && matches(rows[id]) && Reaches(limit, |ListedBefore(w, rows, matches, id)|)) ==>
           forall i | 0 <= i < |hits| :: hits[i].1 != id)
  {
    var ranks := map k | k in rows && matches(rows[k]) :: (-rows[k].timestamp, w.tie(k));
    var hits, shown := Search(w, rows, matches, limit), Limited(Listing(ranks), limit);
    assert ranks.Keys == Matching(rows, matches);
    LimitedListing(ranks, limit, id);
    assert forall i | 0 <= i < |hits| :: hits[i].1 == shown[i];
    if id in ranks {
      AheadIsListedBefore(w, rows, matches, ranks, id);
      assert Newer(rows, id) == set k | k in rows && rows[k].timestamp > rows[id].timestamp;
    }
  }

  /** And what a listing shows: the same of all rows. */
  lemma ListIsComplete(w: World, rows: map<int, Row>, limit: u64, id: int)
    requires BreaksTies(w)
    ensures var shown := FetchMetadata(w, rows, limit);
      && |shown| == (if limit >= 0x8000_0000_0000_0000 then |rows| else Min(limit, |rows|))
      && (id in rows && Reaches(limit, |ListedBefore(w, rows, AnyRow, id)|) ==>
           && |ListedBefore(w, rows, AnyRow, id)| < |shown|
           && shown[|ListedBefore(w, rows, AnyRow, id)|] == id)
      && (!(id in rows && Reaches(limit, |ListedBefore(w, rows, AnyRow, id)|)) ==> id !in shown)
  {
    var ranks := AllRanks(w, rows);
    assert ranks.Keys == rows.Keys == Matching(rows, AnyRow);
    LimitedListing(ranks, limit, id);
    if id in rows {
      AheadIsListedBefore(w, rows, AnyRow, ranks, id);
    }
  }
}
