/** `ORDER BY`: listing the keys of a table by a rank that tells them all apart. */
module Ordering {

  /** A two-part rank, compared lexicographically. */
  type Rank = (int, int)
  type Ranks = map<int, Rank>

  predicate Before(a: Rank, b: Rank) {
    a.0 < b.0 || (a.0 == b.0 && a.1 < b.1)
  }

  /** No two keys share a rank, so there is only one order. */
  ghost predicate Strict(ranks: Ranks) {
    forall a, b | a in ranks && b in ranks && ranks[a] == ranks[b] :: a == b
  }

  /** The keys that come before `k`. */
  ghost function Ahead(ranks: Ranks, k: int): set<int>
    requires k in ranks
  {
    set x | x in ranks && Before(ranks[x], ranks[k])
  }

  predicate IsFirst(ranks: Ranks, k: int) {
    k in ranks.Keys && forall x | x in ranks.Keys :: x == k || Before(ranks[k], ranks[x])
  }

  lemma Pick<T>(s: set<T>) returns (x: T)
    requires s != {}
    ensures x in s
  {
    x :| x in s;
  }

  lemma {:induction false} HasFirst(ranks: Ranks) returns (k: int)
    requires Strict(ranks) && ranks.Keys != {}
    ensures IsFirst(ranks, k)
    decreases ranks.Keys
  {
    var some := Pick(ranks.Keys);
    k := some;
    var rest := ranks - {some};
    assert rest.Keys == ranks.Keys - {some};
    if rest.Keys != {} {
      var r := HasFirst(rest);
      if Before(ranks[r], ranks[some]) {
        k := r;
      }
      forall x | x in ranks.Keys
        ensures x == k || Before(ranks[k], ranks[x])
      {
        if x != some {
          assert x in rest.Keys && rest[x] == ranks[x];
          assert rest[r] == ranks[r] && ranks[r] != ranks[some];
        }
      }
    } else {
      assert forall x | x in ranks.Keys :: x == some || x in rest.Keys;
    }
  }

  function First(ranks: Ranks): (k: int)
    requires Strict(ranks) && ranks.Keys != {}
    ensures IsFirst(ranks, k)
  {
    assert exists k :: IsFirst(ranks, k) by {
      var k := HasFirst(ranks);
    }
    var k :| k in ranks.Keys && IsFirst(ranks, k);
    k
  }

  /** The keys in order. */
  function Listing(ranks: Ranks): (l: seq<int>)
    requires Strict(ranks)
    decreases ranks.Keys
  {
    if ranks.Keys == {} then [] else
      var k := First(ranks);
      assert (ranks - {k}).Keys == ranks.Keys - {k};
      [k] + Listing(ranks - {k})
  }

  // The listing has every key, and as many places as keys.
  lemma {:induction false} ListingIsComplete(ranks: Ranks)
    requires Strict(ranks)
    ensures |Listing(ranks)| == |ranks.Keys|
    ensures forall k :: k in Listing(ranks) <==> k in ranks
    decreases ranks.Keys
  {
    if ranks.Keys != {} {
      var k := First(ranks);
      var rest := ranks - {k};
      assert rest.Keys == ranks.Keys - {k};
      ListingIsComplete(rest);
      assert Listing(ranks) == [k] + Listing(rest);
    }
  }

  ghost predicate InOrder(ranks: Ranks, l: seq<int>) {
    && (forall i | 0 <= i < |l| :: l[i] in ranks)
    && (forall i, j | 0 <= i < j < |l| :: Before(ranks[l[i]], ranks[l[j]]))
  }

  lemma FirstGoesFirst(ranks: Ranks, k: int, tail: seq<int>)
    requires IsFirst(ranks, k) && InOrder(ranks - {k}, tail)
    ensures InOrder(ranks, [k] + tail)
  {
    var l := [k] + tail;
    forall j | 0 < j < |l|
      ensures l[j] in ranks && l[j] != k && ranks[l[j]] == (ranks - {k})[l[j]]
    {
      assert l[j] == tail[j - 1];
    }
    forall i, j | 0 <= i < j < |l|
      ensures Before(ranks[l[i]], ranks[l[j]])
    {
      if i == 0 {
        assert l[j] in ranks.Keys;
      } else {
        assert Before((ranks - {k})[tail[i - 1]], (ranks - {k})[tail[j - 1]]);
      }
    }
  }

  lemma {:induction false} ListingInOrder(ranks: Ranks)
    requires Strict(ranks)
    ensures InOrder(ranks, Listing(ranks))
    decreases ranks.Keys
  {
    if ranks.Keys != {} {
      var k := First(ranks);
      assert (ranks - {k}).Keys == ranks.Keys - {k};
      ListingInOrder(ranks - {k});
      FirstGoesFirst(ranks, k, Listing(ranks - {k}));
    }
  }

  /** What the listing is: every key once, in order. */
  lemma ListingIsOrdered(ranks: Ranks)
    requires Strict(ranks)
    ensures |Listing(ranks)| == |ranks.Keys|
    ensures forall k :: k in Listing(ranks) <==> k in ranks
    ensures InOrder(ranks, Listing(ranks))
  {
    ListingIsComplete(ranks);
    ListingInOrder(ranks);
  }

  // The keys ahead of a place are those listed before it.
  lemma AheadIsFront(ranks: Ranks, i: nat)
    requires Strict(ranks) && i < |Listing(ranks)|
    ensures Listing(ranks)[i] in ranks
    ensures Ahead(ranks, Listing(ranks)[i]) == set j | 0 <= j < i :: Listing(ranks)[j]
  {
    ListingIsOrdered(ranks);
    var l := Listing(ranks);
    assert l[i] in ranks;
    forall x | x in Ahead(ranks, l[i])
      ensures exists j :: 0 <= j < i && l[j] == x
    {
      assert x in l;
      var j :| 0 <= j < |l| && l[j] == x;
      assert j < i;
    }
  }

  /** A key's place in the listing is the number of keys ahead of it. */
  lemma PlaceIsCount(ranks: Ranks, i: nat)
    requires Strict(ranks) && i < |Listing(ranks)|
    ensures Listing(ranks)[i] in ranks && |Ahead(ranks, Listing(ranks)[i])| == i
  {
    AheadIsFront(ranks, i);
    PrefixIsDistinct(ranks, i);
  }

  lemma {:induction false} PrefixIsDistinct(ranks: Ranks, i: nat)
    requires Strict(ranks) && i <= |Listing(ranks)|
    ensures |set j | 0 <= j < i :: Listing(ranks)[j]| == i
  {
    var l := Listing(ranks);
    if i > 0 {
      PrefixIsDistinct(ranks, i - 1);
      ListingInOrder(ranks);
      var front := set j | 0 <= j < i - 1 :: l[j];
      forall j | 0 <= j < i - 1
        ensures l[j] != l[i - 1]
      {
        assert Before(ranks[l[j]], ranks[l[i - 1]]);
      }
      assert (set j | 0 <= j < i :: l[j]) == front + {l[i - 1]};
    }
  }

  /** Every key has its place. */
  lemma PlaceOf(ranks: Ranks, k: int)
    requires Strict(ranks) && k in ranks
    ensures |Ahead(ranks, k)| < |Listing(ranks)| && Listing(ranks)[|Ahead(ranks, k)|] == k
  {
    ListingIsOrdered(ranks);
    var l := Listing(ranks);
    assert k in l;
    var i :| 0 <= i < |l| && l[i] == k;
    PlaceIsCount(ranks, i);
  }

  /** The numbers below `n`. */
  function Range(n: nat): (r: set<int>)
    ensures forall x :: x in r <==> 0 <= x < n
    ensures |r| == n
  {
    if n == 0 then {} else Range(n - 1) + {n - 1}
  }

  /** Consecutive integers list as themselves. */
  lemma ListingOfRange(ranks: Ranks, n: nat)
    requires ranks.Keys == Range(n)
    requires forall s | s in ranks :: ranks[s] == (s, 0)
    ensures Strict(ranks)
    ensures |Listing(ranks)| == n && forall i | 0 <= i < n :: Listing(ranks)[i] == i
  {
    ListingIsComplete(ranks);
    forall i | 0 <= i < n
      ensures Listing(ranks)[i] == i
    {
      PlaceOf(ranks, i);
      assert Ahead(ranks, i) == Range(i);
    }
  }
}
