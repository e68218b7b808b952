/** Vocabulary shared by every module: bytes, machine words, options, powers of
    two and sums over finite maps. */
module Core {
  type byte = x: int | 0 <= x < 256
  type Bytes = seq<byte>

  const TWO64: nat := 0x1_0000_0000_0000_0000

  /** An unsigned 64-bit word (`u64`, and `usize` on the 64-bit targets). */
  type u64 = x: int | 0 <= x < 0x1_0000_0000_0000_0000

  /** A name in the spool directory. */
  type Path = nat

  /** A finished spool file and the digest computed while it was written. */
  datatype SpooledFile = SpooledFile(path: Path, len: nat, digest: Bytes)

  datatype Option<+T> = None | Some(value: T)

  function Min(a: int, b: int): int {
    if a <= b then a else b
  }

  function Max(a: int, b: int): int {
    if a <= b then b else a
  }

  function Pow2(n: nat): (p: nat)
    ensures p >= 1
  {
    if n == 0 then 1 else 2 * Pow2(n - 1)
  }

  lemma {:induction false} Pow2Adds(m: nat, n: nat)
    ensures Pow2(m + n) == Pow2(m) * Pow2(n)
  {
    if m != 0 {
      Pow2Adds(m - 1, n);
      assert Pow2(m + n) == 2 * (Pow2(m - 1) * Pow2(n)) == (2 * Pow2(m - 1)) * Pow2(n);
    }
  }

  lemma Pow2Of16()
    ensures Pow2(16) == 0x1_0000
  {
    assert Pow2(4) == 16;
    Pow2Adds(4, 4);
    Pow2Adds(8, 8);
  }

  lemma Pow2Of64()
    ensures Pow2(64) == TWO64
  {
    Pow2Of16();
    Pow2Adds(16, 16);
    Pow2Adds(32, 32);
  }

  /** The bytes of a list of pieces, end to end. */
  function Flatten(pieces: seq<Bytes>): Bytes {
    if pieces == [] then [] else pieces[0] + Flatten(pieces[1..])
  }

  lemma AppendAssociates<T>(a: seq<T>, b: seq<T>, c: seq<T>)
    ensures a + (b + c) == a + b + c
  {
  }

  lemma {:induction false} FlattenAppends(a: seq<Bytes>, b: seq<Bytes>)
    ensures Flatten(a + b) == Flatten(a) + Flatten(b)
  {
    if a == [] {
      assert a + b == b;
    } else {
      FlattenAppends(a[1..], b);
      var ab := a + b;
      assert ab[0] == a[0] && ab[1..] == a[1..] + b;
      AppendAssociates(a[0], Flatten(a[1..]), Flatten(b));
    }
  }

  /** The sum of the values of a finite map. */
  ghost function Total<K(!new)>(m: map<K, nat>): nat
    decreases |m|
  {
    if m.Keys == {} then 0 else
      var k :| k in m;
      Below(m, k);
      m[k] + Total(m - {k})
  }

  lemma Below<K>(m: map<K, nat>, k: K)
    requires k in m
    ensures |m - {k}| == |m| - 1
  {
    assert (m - {k}).Keys == m.Keys - {k};
  }

  /** Any key may be counted first. */
  lemma {:induction false} TotalRemove<K(!new)>(m: map<K, nat>, k: K)
    requires k in m
    ensures Total(m) == m[k] + Total(m - {k})
    decreases |m|
  {
    var first: K :| first in m && Total(m) == m[first] + Total(m - {first});
    if first != k {
      Below(m, first);
      Below(m, k);
      TotalRemove(m - {first}, k);
      TotalRemove(m - {k}, first);
      assert m - {first} - {k} == m - {k} - {first};
    }
  }

  /** Writing one key moves the total by exactly the change at that key. */
  lemma TotalUpdate<K(!new)>(m: map<K, nat>, k: K, v: nat)
    ensures Total(m[k := v]) == Total(m) + v - (if k in m then m[k] else 0)
  {
    TotalRemove(m[k := v], k);
    assert m[k := v] - {k} == m - {k};
    if k in m {
      TotalRemove(m, k);
    } else {
      assert m - {k} == m;
    }
  }

  lemma {:induction false} TotalOfZeros<K(!new)>(m: map<K, nat>)
    requires forall k | k in m :: m[k] == 0
    ensures Total(m) == 0
    decreases |m|
  {
    if m.Keys != {} {
      var k: K :| k in m && Total(m) == m[k] + Total(m - {k});
      Below(m, k);
      TotalOfZeros(m - {k});
    }
  }
}
