/** The rolling Gear hash of the chunker. The table is any function from bytes to
    words: nothing proved here depends on its values. */
module GearHash {
  import opened Core

  type Gear = byte -> u64

  /** One step, `fp = (fp << 1) + GEAR[byte]` on wrapping 64-bit words. */
  function Roll(gear: Gear, fp: u64, b: byte): u64 {
    (fp * 2 + gear(b)) % TWO64
  }

  /** The fingerprint after all of `s`, started at zero. */
  function Fingerprint(gear: Gear, s: Bytes): u64 {
    if s == [] then 0 else Roll(gear, Fingerprint(gear, s[..|s| - 1]), s[|s| - 1])
  }

  /** The same thing without any state: each byte from `lo` on contributes its
      table word, shifted left by its age. */
  function AgedSum(gear: Gear, s: Bytes, lo: nat): nat
    requires lo <= |s|
    decreases |s| - lo
  {
    if lo == |s| then 0 else gear(s[lo]) * Pow2(|s| - 1 - lo) + AgedSum(gear, s, lo + 1)
  }

  // A window of `k` bytes, or everything when there are fewer.
  function WindowStart(s: Bytes, k: nat): nat {
    if |s| <= k then 0 else |s| - k
  }

  lemma {:induction false} AgedSumPush(gear: Gear, s: Bytes, lo: nat, b: byte)
    requires lo <= |s|
    ensures AgedSum(gear, s + [b], lo) == 2 * AgedSum(gear, s, lo) + gear(b)
    decreases |s| - lo
  {
    if lo == |s| {
      assert AgedSum(gear, s + [b], lo + 1) == 0;
      assert Pow2(0) == 1;
    } else {
      AgedSumPush(gear, s, lo + 1, b);
      var g, p := gear(s[lo]), Pow2(|s| - 1 - lo);
      assert Pow2(|s| - lo) == 2 * p;
      assert g * (2 * p) == 2 * (g * p);
    }
  }

  lemma {:induction false} AgedSumOfTail(gear: Gear, s: Bytes, lo: nat, from: nat)
    requires from <= lo <= |s|
    ensures AgedSum(gear, s, lo) == AgedSum(gear, s[from..], lo - from)
    decreases |s| - lo
  {
    if lo < |s| {
      AgedSumOfTail(gear, s, lo + 1, from);
    }
  }

  lemma ModAddsMultiple(a: nat, b: nat, m: nat)
    requires m > 0
    ensures (a * m + b) % m == b % m
  {
    var q, r := b / m, b % m;
    assert b == q * m + r;
    assert a * m + b == (a + q) * m + r;
    ModUnique(a * m + b, a + q, r, m);
  }

  lemma ModUnique(n: nat, q: nat, r: nat, m: nat)
    requires m > 0 && r < m && n == q * m + r
    ensures n % m == r
  {
    var d := n / m - q;
    assert n == (n / m) * m + n % m;
    assert d * m == r - n % m;
    assert d >= 1 ==> d * m >= m;
    assert d <= -1 ==> d * m <= -1 * m;
  }

  // A term carrying a factor `m` does not show modulo `m`.
  lemma ModDropsTerm(g: nat, f: nat, m: nat, power: nat, rest: nat)
    requires m > 0 && power == f * m
    ensures (g * power + rest) % m == rest % m
  {
    assert g * power == (g * f) * m;
    ModAddsMultiple(g * f, rest, m);
  }

  lemma ModDoubles(a: nat, g: nat, m: nat)
    requires m > 0
    ensures (2 * (a % m) + g) % m == (2 * a + g) % m
  {
    var q := a / m;
    assert 2 * a + g == (2 * q) * m + (2 * (a % m) + g);
    ModAddsMultiple(2 * q, 2 * (a % m) + g, m);
  }

  lemma {:induction false} FingerprintIsAgedSum(gear: Gear, s: Bytes)
    ensures Fingerprint(gear, s) == AgedSum(gear, s, 0) % TWO64
  {
    if s != [] {
      var init, b := s[..|s| - 1], s[|s| - 1];
      FingerprintIsAgedSum(gear, init);
      AgedSumPush(gear, init, 0, b);
      assert init + [b] == s;
      ModDoubles(AgedSum(gear, init, 0), gear(b), TWO64);
    }
  }

  // Bytes older than the window are multiples of 2^k: they have been shifted out.
  lemma {:induction false} OldBytesVanish(gear: Gear, s: Bytes, lo: nat, k: nat)
    requires lo <= WindowStart(s, k)
    ensures AgedSum(gear, s, lo) % Pow2(k) == AgedSum(gear, s, WindowStart(s, k)) % Pow2(k)
    decreases |s| - lo
  {
    if lo < WindowStart(s, k) {
      OldBytesVanish(gear, s, lo + 1, k);
      var older := |s| - 1 - lo - k;
      Pow2Adds(older, k);
      ModDropsTerm(gear(s[lo]), Pow2(older), Pow2(k), Pow2(|s| - 1 - lo), AgedSum(gear, s, lo + 1));
    }
  }

  /** The whole word is the aged sum of the last 64 bytes only, although no byte is
      ever subtracted when it leaves the window. */
  lemma FingerprintIsWindowSum(gear: Gear, s: Bytes)
    ensures Fingerprint(gear, s) == AgedSum(gear, s, WindowStart(s, 64)) % TWO64
  {
    FingerprintIsAgedSum(gear, s);
    Pow2Of64();
    OldBytesVanish(gear, s, 0, 64);
  }

  lemma ModOfMod(n: nat, k: nat)
    requires k <= 64
    ensures n % TWO64 % Pow2(k) == n % Pow2(k)
  {
    Pow2Of64();
    Pow2Adds(64 - k, k);
    ModDropsTerm(n / TWO64, Pow2(64 - k), Pow2(k), TWO64, n % TWO64);
  }

  /** The low `k` bits (bit `p` when `k == p + 1`) are a function of the last `k`
      bytes alone, whatever came before them. */
  lemma LowBitsForgetThePast(gear: Gear, before: Bytes, before': Bytes, window: Bytes, k: nat)
    requires k <= 64 && k <= |window|
    ensures Fingerprint(gear, before + window) % Pow2(k) == Fingerprint(gear, before' + window) % Pow2(k)
  {
    LowBitsOfWindow(gear, before, window, k);
    LowBitsOfWindow(gear, before', window, k);
  }

  // The low bits of the word are those of the sum over the last `k` bytes.
  lemma LowBitsOfSum(gear: Gear, s: Bytes, k: nat)
    requires k <= 64 && k <= |s|
    ensures Fingerprint(gear, s) % Pow2(k) == AgedSum(gear, s, |s| - k) % Pow2(k)
  {
    FingerprintIsAgedSum(gear, s);
    ModOfMod(AgedSum(gear, s, 0), k);
    OldBytesVanish(gear, s, 0, k);
  }

  lemma LowBitsOfWindow(gear: Gear, before: Bytes, window: Bytes, k: nat)
    requires k <= 64 && k <= |window|
    ensures Fingerprint(gear, before + window) % Pow2(k) == AgedSum(gear, window, |window| - k) % Pow2(k)
  {
    var s := before + window;
    LowBitsOfSum(gear, s, k);
    AgedSumOfTail(gear, s, |s| - k, |before|);
    assert s[|before|..] == window;
  }

  /** In particular 64 bytes of context decide the whole fingerprint. */
  lemma WindowDecides(gear: Gear, before: Bytes, before': Bytes, window: Bytes)
    requires |window| >= 64
    ensures Fingerprint(gear, before + window) == Fingerprint(gear, before' + window)
  {
    LowBitsForgetThePast(gear, before, before', window, 64);
    Pow2Of64();
  }
}
