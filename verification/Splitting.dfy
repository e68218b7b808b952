/** Splitting a byte string by repeatedly cutting off its front, for any rule that
    says where the first piece ends. */
module Splitting {
  import opened Core

  type CutRule = Bytes -> nat

  /** The pieces in order. A rule that points outside what is left (none does, see
      `Sound`) ends the splitting with the remainder. */
  function Split(cut: CutRule, data: Bytes): seq<Bytes> {
    if data == [] then []
    else if 0 < cut(data) <= |data| then [data[..cut(data)]] + Split(cut, data[cut(data)..])
    else [data]
  }

  ghost predicate Sound(cut: CutRule) {
    forall data: Bytes :: data != [] ==> 0 < cut(data) <= |data|
  }

  lemma {:induction false} PiecesTile(cut: CutRule, data: Bytes)
    ensures Flatten(Split(cut, data)) == data
  {
    if data != [] && 0 < cut(data) <= |data| {
      PiecesTile(cut, data[cut(data)..]);
      assert data[..cut(data)] + data[cut(data)..] == data;
    }
  }

  /** Some piece of `data` starts at offset `o` (or `data` ends there). */
  predicate CutAt(cut: CutRule, data: Bytes, o: nat)
    decreases |data|
  {
    if o == 0 then true
    else data != [] && 0 < cut(data) <= Min(o, |data|) && CutAt(cut, data[cut(data)..], o - cut(data))
  }

  /** The pieces in front of the cut at `o`. */
  function Front(cut: CutRule, data: Bytes, o: nat): seq<Bytes>
    requires CutAt(cut, data, o)
    decreases |data|
  {
    if o == 0 then [] else [data[..cut(data)]] + Front(cut, data[cut(data)..], o - cut(data))
  }

  lemma SliceOfSlice(data: Bytes, c: nat, o: nat)
    requires c <= o <= |data|
    ensures data[c..][o - c..] == data[o..]
    ensures data[..c] + data[c..][..o - c] == data[..o]
  {
  }

  /** A cut splits the work: what follows is split as if it stood alone. */
  lemma {:induction false} CutSplits(cut: CutRule, data: Bytes, o: nat)
    requires CutAt(cut, data, o)
    ensures o <= |data|
    ensures Split(cut, data) == Front(cut, data, o) + Split(cut, data[o..])
    ensures Flatten(Front(cut, data, o)) == data[..o]
    decreases |data|
  {
    if o == 0 {
      assert data[0..] == data;
    } else {
      var c := cut(data);
      CutSplits(cut, data[c..], o - c);
      SliceOfSlice(data, c, o);
      AppendAssociates([data[..c]], Front(cut, data[c..], o - c), Split(cut, data[o..]));
    }
  }

  /** Later cuts of the whole are cuts of the remainder. */
  lemma {:induction false} CutsCompose(cut: CutRule, data: Bytes, o: nat, j: nat)
    requires CutAt(cut, data, o) && CutAt(cut, data, j) && o <= j
    ensures o <= |data| && CutAt(cut, data[o..], j - o)
    ensures Front(cut, data, j) == Front(cut, data, o) + Front(cut, data[o..], j - o)
    decreases |data|
  {
    CutSplits(cut, data, o);
    if o == 0 {
      assert data[0..] == data;
    } else {
      var c := cut(data);
      CutsCompose(cut, data[c..], o - c, j - c);
      SliceOfSlice(data, c, o);
      AppendAssociates([data[..c]], Front(cut, data[c..], o - c), Front(cut, data[o..], j - o));
    }
  }

  /** The pieces between the cuts at `o` and `j`. */
  function Middle(cut: CutRule, data: Bytes, o: nat, j: nat): seq<Bytes>
    requires o <= j && o <= |data| && CutAt(cut, data[o..], j - o)
  {
    Front(cut, data[o..], j - o)
  }

  // The pieces before `o`, between `o` and `j`, and after `j`.
  lemma PiecesAround(cut: CutRule, data: Bytes, o: nat, j: nat)
    requires CutAt(cut, data, o) && CutAt(cut, data, j) && o <= j
    ensures o <= j <= |data| && CutAt(cut, data[o..], j - o)
    ensures Split(cut, data) == Front(cut, data, o) + Middle(cut, data, o, j) + Split(cut, data[j..])
    ensures Flatten(Front(cut, data, o)) == data[..o]
    ensures Flatten(Middle(cut, data, o, j)) == data[o..j]
  {
    CutSplits(cut, data, o);
    CutSplits(cut, data, j);
    CutsCompose(cut, data, o, j);
    CutSplits(cut, data[o..], j - o);
    assert data[o..][..j - o] == data[o..j];
  }

  ghost predicate AgreeUpTo(a: Bytes, b: Bytes, e: nat) {
    e <= |a| && e <= |b| && a[..e] == b[..e]
  }

  /** A rule is local when a cut that the end of the input did not force is decided
      by the bytes in front of it. */
  ghost predicate Local(cut: CutRule) {
    forall a, b, e | AgreeUpTo(a, b, e) && cut(a) <= e && cut(a) < |a| :: cut(b) == cut(a)
  }

  lemma SlicesAgree(a: Bytes, b: Bytes, e: nat, c: nat)
    requires c <= e && AgreeUpTo(a, b, e)
    ensures a[..c] == b[..c] && AgreeUpTo(a[c..], b[c..], e - c)
  {
    assert a[..c] == a[..e][..c] && b[..c] == b[..e][..c];
    assert a[c..][..e - c] == a[..e][c..] && b[c..][..e - c] == b[..e][c..];
  }

  /** Prefix locality: inputs that agree up to `e` have the same pieces up to every
      cut at or before `e`, the end of the input excepted. */
  lemma {:induction false} PrefixLocality(cut: CutRule, a: Bytes, b: Bytes, e: nat, o: nat)
    requires Local(cut) && AgreeUpTo(a, b, e)
    requires CutAt(cut, a, o) && o <= e && o < |a|
    ensures CutAt(cut, b, o) && Front(cut, b, o) == Front(cut, a, o)
    decreases |a|
  {
    if o != 0 {
      var c := cut(a);
      assert cut(b) == c;
      SlicesAgree(a, b, e, c);
      PrefixLocality(cut, a[c..], b[c..], e - c, o - c);
    }
  }

  /** Edit locality: with a common cut `o` in the shared prefix and cuts `i`, `j` at
      the start of the shared suffix, the two splittings differ only in between. */
  lemma EditLocality(cut: CutRule, a: Bytes, b: Bytes, e: nat, o: nat, i: nat, j: nat)
      returns (common: seq<Bytes>, inA: seq<Bytes>, inB: seq<Bytes>, tail: seq<Bytes>)
    requires Local(cut) && AgreeUpTo(a, b, e)
    requires CutAt(cut, a, o) && o <= e && o < |a|
    requires CutAt(cut, a, i) && CutAt(cut, b, j) && o <= i <= |a| && o <= j <= |b| && a[i..] == b[j..]
    ensures Split(cut, a) == common + inA + tail
    ensures Split(cut, b) == common + inB + tail
    ensures Flatten(common) == a[..o] == b[..o]
    ensures Flatten(inA) == a[o..i] && Flatten(inB) == b[o..j]
    ensures Flatten(tail) == b[j..]
  {
    PrefixLocality(cut, a, b, e, o);
    PiecesAround(cut, a, o, i);
    PiecesAround(cut, b, o, j);
    PiecesTile(cut, b[j..]);
    common, tail := Front(cut, a, o), Split(cut, b[j..]);
    inA, inB := Middle(cut, a, o, i), Middle(cut, b, o, j);
  }
}
