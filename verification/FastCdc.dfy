/** Content-defined chunking: where chunks end, that they tile the input, and how
    far a change to the input can reach. */
module FastCdc {
  import opened Core
  import opened GearHash
  import opened Splitting

  const MIN: nat := 4 * 1024
  const AVG: nat := 16 * 1024
  const MAX: nat := 64 * 1024
  const AVG_BITS: nat := 14
  const NORMALISATION_LEVEL: nat := 2

  /** `fp & top_mask(bits) == 0`: the top `bits` bits of the word are clear. */
  predicate Passes(fp: u64, bits: nat)
    requires bits <= 64
  {
    fp < Pow2(64 - bits)
  }

  /** What the code computes: the strict mask keeps the top 16 bits, the loose one the
      top 12, and a word passes exactly when nothing is left of it. */
  lemma MasksTestTheTopBits(fp: bv64)
    ensures fp & (0xFFFF_FFFF_FFFF_FFFF << 48) == 0 <==> Passes(fp as int, AVG_BITS + NORMALISATION_LEVEL)
    ensures fp & (0xFFFF_FFFF_FFFF_FFFF << 52) == 0 <==> Passes(fp as int, AVG_BITS - NORMALISATION_LEVEL)
  {
    MaskedWord(fp);
    WordBelow(fp);
    Pow2Of48And52();
  }

  lemma MaskedWord(fp: bv64)
    ensures fp & (0xFFFF_FFFF_FFFF_FFFF << 48) == 0 <==> fp < 0x1_0000_0000_0000
    ensures fp & (0xFFFF_FFFF_FFFF_FFFF << 52) == 0 <==> fp < 0x10_0000_0000_0000
  {
  }

  lemma WordBelow(fp: bv64)
    ensures fp < 0x1_0000_0000_0000 <==> (fp as int) < 0x1_0000_0000_0000
    ensures fp < 0x10_0000_0000_0000 <==> (fp as int) < 0x10_0000_0000_0000
  {
  }

  lemma Pow2Of48And52()
    ensures Pow2(48) == 0x1_0000_0000_0000 && Pow2(52) == 0x10_0000_0000_0000
  {
    Pow2Of16();
    Pow2Adds(16, 16);
    Pow2Adds(16, 32);
    Pow2Adds(4, 48);
    assert Pow2(4) == 16;
  }

  /** A chunk may end after `c` bytes: the strict mask decides up to the average
      size, the loose one beyond it. The hash starts afresh at the minimum. */
  predicate Boundary(gear: Gear, data: Bytes, c: nat)
    requires MIN <= c <= |data|
  {
    Passes(Fingerprint(gear, data[MIN..c]),
           if c <= AVG then AVG_BITS + NORMALISATION_LEVEL else AVG_BITS - NORMALISATION_LEVEL)
  }

  /** With the constants written out: the hash starts after 4096 bytes, and its top 16 bits
      must be clear up to 16384 bytes, its top 12 beyond. */
  lemma BoundaryInNumbers(gear: Gear, data: Bytes, c: nat)
    requires 4096 <= c <= |data|
    ensures Boundary(gear, data, c) <==>
      Fingerprint(gear, data[4096..c]) < if c <= 16384 then 0x1_0000_0000_0000 else 0x10_0000_0000_0000
  {
    Pow2Of48And52();
  }

  function Limit(data: Bytes): nat {
    Min(|data|, MAX)
  }

  /** What a cut point is: the least boundary above the minimum, else the limit. */
  ghost predicate IsCutPoint(gear: Gear, data: Bytes, c: nat) {
    if Limit(data) <= MIN then c == Limit(data) else
      && MIN < c <= Limit(data)
      && (c < Limit(data) ==> Boundary(gear, data, c))
      && forall d | MIN < d < c :: !Boundary(gear, data, d)
  }

  lemma CutPointIsUnique(gear: Gear, data: Bytes, c: nat, d: nat)
    requires IsCutPoint(gear, data, c) && IsCutPoint(gear, data, d)
    ensures c == d
  {
    assert c < d ==> c < Limit(data);
    assert d < c ==> d < Limit(data);
  }

  // The first boundary after `pos`, else the limit.
  function Search(gear: Gear, data: Bytes, pos: nat): (c: nat)
    requires MIN <= pos <= Limit(data)
    ensures pos <= c <= Limit(data)
    ensures c < Limit(data) ==> pos < c && Boundary(gear, data, c)
    ensures forall d | pos < d < c :: !Boundary(gear, data, d)
    decreases Limit(data) - pos
  {
    if pos == Limit(data) then pos
    else if Boundary(gear, data, pos + 1) then pos + 1
    else Search(gear, data, pos + 1)
  }

  function CutPoint(gear: Gear, data: Bytes): (c: nat)
    ensures IsCutPoint(gear, data, c)
  {
    if Limit(data) <= MIN then Limit(data) else Search(gear, data, MIN)
  }

  lemma FingerprintExtends(gear: Gear, data: Bytes, pos: nat)
    requires MIN <= pos < |data|
    ensures Fingerprint(gear, data[MIN..pos + 1]) == Roll(gear, Fingerprint(gear, data[MIN..pos]), data[pos])
  {
    var s := data[MIN..pos + 1];
    assert s[..|s| - 1] == data[MIN..pos];
  }

  /** `cut_point`: two phases over one running fingerprint. */
  method FindCut(gear: Gear, data: Bytes) returns (c: nat)
    ensures IsCutPoint(gear, data, c)
    ensures c == CutPoint(gear, data)
  {
    var limit := Min(|data|, MAX);
    if limit <= MIN {
      return limit;
    }
    var normal := Min(AVG, limit);
    var fp: u64 := 0;
    var pos := MIN;
    for phase := 0 to 2
      invariant MIN <= pos <= limit
      invariant phase == 1 ==> pos == normal
      invariant phase == 2 ==> pos == limit
      invariant phase == 0 ==> pos == MIN
      invariant fp == Fingerprint(gear, data[MIN..pos])
      invariant forall d | MIN < d <= pos :: !Boundary(gear, data, d)
    {
      var bits, end := AVG_BITS + NORMALISATION_LEVEL, normal;
      if phase == 1 {
        bits, end := AVG_BITS - NORMALISATION_LEVEL, limit;
      }
      while pos < end
        invariant MIN <= pos <= end
        invariant phase == 1 ==> normal <= pos
        invariant fp == Fingerprint(gear, data[MIN..pos])
        invariant forall d | MIN < d <= pos :: !Boundary(gear, data, d)
      {
        FingerprintExtends(gear, data, pos);
        fp := Roll(gear, fp, data[pos]);
        pos := pos + 1;
        assert pos <= AVG <==> phase == 0;
        if Passes(fp, bits) {
          CutPointIsUnique(gear, data, pos, CutPoint(gear, data));
          return pos;
        }
      }
    }
    CutPointIsUnique(gear, data, limit, CutPoint(gear, data));
    return limit;
  }

  /** The chunks of an input, in order. */
  function Chunks(gear: Gear, data: Bytes): seq<Bytes> {
    Split(Cutter(gear), data)
  }

  function Cutter(gear: Gear): CutRule {
    data => CutPoint(gear, data)
  }

  /** `FastCdc`: an iterator that shrinks what is left of the slice. */
  class Iterator {
    const gear: Gear
    var rest: Bytes

    constructor (gear: Gear, data: Bytes)
      ensures this.gear == gear && rest == data
    {
      this.gear := gear;
      rest := data;
    }

    method Next() returns (chunk: Option<Bytes>)
      modifies this
      ensures chunk.None? <==> old(rest) == []
      ensures chunk.None? ==> rest == []
      ensures chunk.Some? ==>
        && old(rest) == chunk.value + rest
        && IsCutPoint(gear, old(rest), |chunk.value|)
        && Chunks(gear, old(rest)) == [chunk.value] + Chunks(gear, rest)
        && |rest| < |old(rest)|
    {
      if rest == [] {
        return None;
      }
      var c := FindCut(gear, rest);
      // `c <= |rest|` by the contract of `FindCut`: the split never misses.
      chunk, rest := Some(rest[..c]), rest[c..];
    }

    /** `size_hint`: the lower and upper bounds on what is still to come. */
    method SizeHint() returns (lower: nat, upper: nat)
      ensures lower <= |Chunks(gear, rest)| <= upper
      ensures upper == |rest| && 65536 * (lower - 1) < |rest| <= 65536 * lower
    {
      ChunkCount(gear, rest);
      lower, upper := (|rest| + MAX - 1) / MAX, |rest|;
    }
  }

  /** No chunk is empty or longer than the maximum, and all but the last exceed the
      minimum. */
  lemma {:induction false} ChunkSizes(gear: Gear, data: Bytes, i: nat)
    requires i < |Chunks(gear, data)|
    ensures 0 < |Chunks(gear, data)[i]| <= 65536
    ensures i + 1 < |Chunks(gear, data)| ==> |Chunks(gear, data)[i]| > 4096
  {
    FirstCut(gear, data);
    if i > 0 {
      ChunkSizes(gear, data[CutPoint(gear, data)..], i - 1);
    }
  }

  // What the other proofs need of the first cut.
  lemma FirstCut(gear: Gear, data: Bytes)
    requires data != []
    ensures var c := CutPoint(gear, data);
      && 0 < c <= |data| && c <= MAX && (c < |data| ==> c > MIN)
      && Chunks(gear, data) == [data[..c]] + Chunks(gear, data[c..])
      && (c == |data| ==> Chunks(gear, data[c..]) == [])
  {
  }

  /** Both bounds of `size_hint`, and the sharper upper one the minimum implies. */
  lemma {:induction false} ChunkCount(gear: Gear, data: Bytes)
    ensures |data| <= |Chunks(gear, data)| * MAX
    ensures |Chunks(gear, data)| <= |data|
    ensures data != [] ==> (|Chunks(gear, data)| - 1) * (MIN + 1) < |data|
  {
    if data != [] {
      FirstCut(gear, data);
      var rest := data[CutPoint(gear, data)..];
      ChunkCount(gear, rest);
      CountStep(|data|, |rest|, |Chunks(gear, rest)|);
    }
  }

  lemma CountStep(whole: nat, rest: nat, n: nat)
    requires rest < whole <= rest + MAX && (0 < rest ==> whole > rest + MIN)
    requires n <= rest <= n * MAX && (0 < rest ==> (n - 1) * (MIN + 1) < rest)
    ensures n + 1 <= whole <= (n + 1) * MAX && n * (MIN + 1) < whole
  {
  }

  /** The chunks tile the input, whatever it is. */
  lemma ChunksTile(gear: Gear, data: Bytes)
    ensures Flatten(Chunks(gear, data)) == data
  {
    PiecesTile(Cutter(gear), data);
  }

  // --- Locality ---

  lemma BoundaryIsLocal(gear: Gear, a: Bytes, b: Bytes, c: nat)
    requires MIN <= c && AgreeUpTo(a, b, c)
    ensures Boundary(gear, a, c) == Boundary(gear, b, c)
  {
    assert a[MIN..c] == a[..c][MIN..];
    assert b[MIN..c] == b[..c][MIN..];
  }

  /** Even less decides: beyond 64 bytes of hashing, the last 64. */
  lemma BoundaryNeeds64Bytes(gear: Gear, a: Bytes, b: Bytes, c: nat)
    requires MIN + 64 <= c <= |a| && c <= |b| && a[c - 64..c] == b[c - 64..c]
    ensures Boundary(gear, a, c) == Boundary(gear, b, c)
  {
    assert a[MIN..c] == a[MIN..c - 64] + a[c - 64..c];
    assert b[MIN..c] == b[MIN..c - 64] + b[c - 64..c];
    WindowDecides(gear, a[MIN..c - 64], b[MIN..c - 64], a[c - 64..c]);
  }

  // A cut that is not forced by the end of `a` is a cut of anything that starts alike.
  lemma SharedCutPoint(gear: Gear, a: Bytes, b: Bytes, e: nat)
    requires AgreeUpTo(a, b, e) && CutPoint(gear, a) <= e && CutPoint(gear, a) < |a|
    ensures CutPoint(gear, b) == CutPoint(gear, a)
  {
    var c := CutPoint(gear, a);
    assert MIN < c <= Limit(b);
    forall d | MIN < d <= c
      ensures Boundary(gear, a, d) == Boundary(gear, b, d)
    {
      SlicesAgree(a, b, e, d);
      BoundaryIsLocal(gear, a, b, d);
    }
    CutPointIsUnique(gear, b, c, CutPoint(gear, b));
  }

  /** The chunker satisfies what edit locality needs. */
  lemma CutterIsLocal(gear: Gear)
    ensures Sound(Cutter(gear)) && Local(Cutter(gear))
  {
    var cut := Cutter(gear);
    forall a, b, e | AgreeUpTo(a, b, e) && cut(a) <= e && cut(a) < |a|
      ensures cut(b) == cut(a)
    {
      SharedCutPoint(gear, a, b, e);
    }
  }
}
