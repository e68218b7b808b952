/** Bounded exactly-once copying from a stream to a file and an observer, with the
    kernel as adversary: it may move any part of what was asked, interrupt, refuse or
    fail at every call. */
module Splice {
  import opened Core

  const SPLICE_CHUNK_BYTES: nat := 64 * 1024
  const SPLICE_ROUND_BYTES: nat := 1024 * 1024

  /** One answer of the kernel. A count is clipped to what was asked and what there
      is, and is zero only when one of them is. */
  datatype Reply = Count(n: nat) | Interrupted | Refused | Hard

  function Served(n: nat, asked: nat, there: nat): (served: nat)
    ensures served <= asked && served <= there
    ensures served == 0 <==> asked == 0 || there == 0
  {
    var most := Min(asked, there);
    if n == 0 && most > 0 then 1 else Min(n, most)
  }

  datatype Syscall = Moved(n: nat) | Unsupported | Failed

  datatype KernelEnd = Eof | HandOver | Overflow | Broken

  /** How a copy ends; `Copied` carries the number of bytes. */
  datatype Verdict = Copied(len: nat) | Empty | TooLarge | Io

  /** `limit + 1`: the probe byte that tells an exact fit from an overflow. */
  function Allowance(limit: u64): u64 {
    if limit == TWO64 - 1 then limit else limit + 1
  }

  /** What the documentation promises for a stream. */
  function Promised(stream: Bytes, limit: u64): Verdict {
    if stream == [] then Empty else if |stream| <= limit then Copied(|stream|) else TooLarge
  }

  /** How many bytes of a stream a copy takes: all of it, or up to the probe byte. */
  function Taken(stream: Bytes, limit: u64): nat {
    Min(|stream|, Allowance(limit))
  }

  /** What the code answers, which only knows how many bytes it took. */
  function Answered(stream: Bytes, limit: u64): Verdict {
    var n := Taken(stream, limit);
    if n == 0 then Empty else if n > limit then TooLarge else Copied(n)
  }

  // The number of bytes at which a copy ends without a fault, and what it then answers.
  lemma EndIsTaken(stream: Bytes, limit: u64, len: nat, over: bool)
    requires len <= |stream|
    requires over ==> len == limit + 1 && limit < TWO64 - 1
    requires !over ==> len <= limit && (len == |stream| || len == TWO64 - 1)
    ensures len == Taken(stream, limit)
    ensures Answered(stream, limit) == if over then TooLarge else if len == 0 then Empty else Copied(len)
  {
  }

  /** The promise is kept exactly when the limit leaves room for the probe byte, or
      the stream fits anyway: at the largest limit the probe is lost to saturation and
      a longer stream is cut short. */
  lemma PromiseKeptIff(stream: Bytes, limit: u64)
    ensures Answered(stream, limit) == Promised(stream, limit) <==> limit < TWO64 - 1 || |stream| <= limit
  {
  }

  /** The kernel's next answer; when the script has run out it serves in full. */
  function Answer(script: seq<Reply>): (Reply, seq<Reply>) {
    if script == [] then (Count(TWO64), []) else (script[0], script[1..])
  }

  /** What a script still holds is part of what it held. */
  ghost predicate Within(now: seq<Reply>, before: seq<Reply>) {
    forall r | r in now :: r in before
  }

  /** A script in which nothing is refused and nothing fails. */
  ghost predicate Willing(script: seq<Reply>) {
    Refused !in script && Hard !in script
  }

  class Machine {
    /** What the source has not given yet. */
    var src: Bytes
    var file: Bytes
    var tap: Bytes
    /** The kernel's answers to come; when they run out it serves in full. */
    var script: seq<Reply>
    /** A hard error was answered, or a round was refused after part of it had moved. */
    ghost var fault: bool

    constructor (src: Bytes, script: seq<Reply>)
      ensures this.src == src && file == [] && tap == [] && this.script == script && !fault
    {
      this.src, this.script := src, script;
      file, tap, fault := [], [], false;
    }

    method Ask() returns (r: Reply)
      modifies this`script
      ensures |script| <= |old(script)| && (!r.Count? ==> |script| < |old(script)|)
      ensures Within(script, old(script))
      ensures !r.Count? ==> r in old(script)
    {
      var (reply, left) := Answer(script);
      script := left;
      return reply;
    }

    // --- System calls ---

    /** `splice_once`: retried while interrupted; moves a prefix or nothing. */
    method SpliceOnce(len: nat) returns (r: Syscall)
      modifies this`src, this`file, this`script, this`fault
      ensures fault == (old(fault) || r.Failed?)
      ensures !r.Moved? ==> src == old(src) && file == old(file)
      ensures r.Moved? ==> r.n <= len && r.n <= |old(src)| && (r.n == 0 <==> len == 0 || old(src) == [])
      ensures r.Moved? ==> file == old(file) + old(src)[..r.n] && src == old(src)[r.n..]
      ensures Within(script, old(script))
      ensures fault ==> old(fault) || !Willing(old(script))
      ensures r.Unsupported? ==> Refused in old(script)
    {
      var reply := Ask();
      while reply.Interrupted?
        invariant src == old(src) && file == old(file) && fault == old(fault)
        invariant Within(script, old(script)) && (!reply.Count? ==> reply in old(script))
        decreases reply.Interrupted?, |script|
      {
        reply := Ask();
      }
      match reply
      case Count(n) =>
        var m := Served(n, len, |src|);
        file, src := file + src[..m], src[m..];
        return Moved(m);
      case Refused => return Unsupported;
      case Hard =>
        fault := true;
        return Failed;
    }

    /** `tee_once`: the same bytes without consuming them. */
    method TeeOnce(len: nat) returns (r: Syscall, copy: Bytes)
      modifies this`script, this`fault
      ensures fault == (old(fault) || r.Failed?)
      ensures r.Moved? ==> r.n <= len && r.n <= |src| && (r.n == 0 <==> len == 0 || src == []) && copy == src[..r.n]
      ensures Within(script, old(script))
      ensures fault ==> old(fault) || !Willing(old(script))
      ensures r.Unsupported? ==> Refused in old(script)
    {
      var reply := Ask();
      while reply.Interrupted?
        invariant fault == old(fault)
        invariant Within(script, old(script)) && (!reply.Count? ==> reply in old(script))
        decreases reply.Interrupted?, |script|
      {
        reply := Ask();
      }
      match reply
      case Count(n) =>
        var m := Served(n, len, |src|);
        return Moved(m), src[..m];
      case Refused => return Unsupported, [];
      case Hard =>
        fault := true;
        return Failed, [];
    }

    /** `splice_exact`: all `n` bytes, or a refusal before the first of them. */
    method SpliceExact(n: nat) returns (r: Syscall)
      requires n <= |src|
      modifies this`src, this`file, this`script, this`fault
      ensures r.Moved? ==> r.n == n && file == old(file) + old(src)[..n] && src == old(src)[n..] && fault == old(fault)
      ensures r.Unsupported? ==> file == old(file) && src == old(src) && fault == old(fault)
      ensures r.Failed? ==> fault && exists k | 0 <= k <= n :: file == old(file) + old(src)[..k]
      ensures Within(script, old(script))
      ensures fault ==> old(fault) || !Willing(old(script))
      ensures r.Unsupported? ==> Refused in old(script)
    {
      var moved := 0;
      while moved < n
        invariant moved <= n && fault == old(fault) && Within(script, old(script))
        invariant file == old(file) + old(src)[..moved] && src == old(src)[moved..]
      {
        var step := SpliceOnce(n - moved);
        match step {
          case Moved(m) =>
            assert old(src)[moved..][..m] == old(src)[moved..moved + m];
            assert old(src)[..moved] + old(src)[moved..moved + m] == old(src)[..moved + m];
            moved := moved + m;
          case Unsupported =>
            if moved == 0 {
              return Unsupported;
            }
            fault := true;
            return Failed;
          case Failed =>
            return Failed;
        }
      }
      return Moved(n);
    }

    /** One `read(2)`: an interrupt is the caller's to retry, any other error is hard. */
    method ReadOnce(len: nat) returns (r: Syscall, chunk: Bytes)
      modifies this`src, this`script, this`fault
      ensures fault == (old(fault) || r.Failed?)
      ensures !r.Moved? ==> src == old(src)
      ensures r.Unsupported? ==> |script| < |old(script)|
      ensures r.Moved? ==> r.n <= len && r.n <= |old(src)| && (r.n == 0 <==> len == 0 || old(src) == [])
      ensures r.Moved? ==> chunk == old(src)[..r.n] && src == old(src)[r.n..]
      ensures |script| <= |old(script)|
      ensures Within(script, old(script))
      ensures fault ==> old(fault) || !Willing(old(script))
    {
      var reply := Ask();
      match reply
      case Count(n) =>
        var m := Served(n, len, |src|);
        chunk, src := src[..m], src[m..];
        return Moved(m), chunk;
      case Interrupted => return Unsupported, [];
      case _ =>
        fault := true;
        return Failed, [];
    }

    /** `write_all`: everything, or an error after some part. */
    method WriteAll(chunk: Bytes) returns (ok: bool)
      modifies this`file, this`script, this`fault
      ensures ok ==> file == old(file) + chunk && fault == old(fault)
      ensures !ok ==> fault && exists k | 0 <= k <= |chunk| :: file == old(file) + chunk[..k]
      ensures |script| <= |old(script)|
      ensures Within(script, old(script))
      ensures fault ==> old(fault) || !Willing(old(script))
    {
      var reply := Ask();
      if reply.Hard? || reply.Refused? {
        fault := true;
        var k :| 0 <= k <= |chunk|;
        file := file + chunk[..k];
        return false;
      }
      file := file + chunk;
      return true;
    }

    // --- The copy ---

    /** `copied` bytes of the stream have left the source for the file and, when
        somebody observes, the tap. */
    ghost predicate At(stream: Bytes, file0: Bytes, tap0: Bytes, observes: bool, copied: nat)
      reads this
    {
      && copied <= |stream|
      && src == stream[copied..]
      && file == file0 + stream[..copied]
      && tap == if observes then tap0 + stream[..copied] else tap0
    }

    /** After a fault: the file holds some prefix, the tap some prefix of it. */
    ghost predicate BrokenOff(stream: Bytes, file0: Bytes, tap0: Bytes, observes: bool, limit: u64)
      reads this
    {
      && fault
      && exists k, seen | 0 <= seen <= k <= |stream| ::
           && k <= Allowance(limit)
           && file == file0 + stream[..k]
           && tap == if observes then tap0 + stream[..seen] else tap0
    }

    /** One round of the kernel loop: tee, splice exactly that much, feed the tap; or
        just splice when nobody observes. */
    method Round(observes: bool, want: nat) returns (r: Syscall)
      modifies this
      ensures r.Moved? ==> r.n <= want && r.n <= |old(src)| && (r.n == 0 <==> want == 0 || old(src) == [])
      ensures r.Moved? ==> file == old(file) + old(src)[..r.n] && src == old(src)[r.n..] && fault == old(fault)
      ensures r.Moved? ==> tap == if observes then old(tap) + old(src)[..r.n] else old(tap)
      ensures r.Unsupported? ==> file == old(file) && src == old(src) && tap == old(tap) && fault == old(fault)
      ensures r.Failed? ==> fault && tap == old(tap)
      ensures r.Failed? ==> exists k | 0 <= k <= Min(want, |old(src)|) :: file == old(file) + old(src)[..k]
      ensures Within(script, old(script))
      ensures fault ==> old(fault) || !Willing(old(script))
      ensures r.Unsupported? ==> Refused in old(script)
    {
      if !observes {
        r := SpliceOnce(want);
        assert r.Failed? ==> file == old(file) + old(src)[..0];
        return r;
      }
      var teed, copy := TeeOnce(want);
      if !teed.Moved? || teed.n == 0 {
        assert teed.Failed? ==> file == old(file) + old(src)[..0];
        assert teed.Moved? ==> old(src)[..0] == [];
        return teed;
      }
      r := SpliceExact(teed.n);
      if r.Moved? {
        TapAll(copy);
      }
    }

    /** `kernel_loop`: rounds until the end, a refusal, or one byte too many. */
    method KernelLoop(limit: u64, observes: bool, scratch: bool, ghost stream: Bytes, ghost file0: Bytes,
                      ghost tap0: Bytes)
        returns (end: KernelEnd, len: nat)
      requires !fault && At(stream, file0, tap0, observes, 0)
      modifies this
      ensures fault <==> end == Broken
      ensures end == Broken ==> BrokenOff(stream, file0, tap0, observes, limit)
      ensures end != Broken ==> At(stream, file0, tap0, observes, len)
      ensures end == Eof ==> len <= limit && (src == [] || len == TWO64 - 1)
      ensures end == HandOver ==> len <= limit
      ensures end == Overflow ==> len == limit + 1 && limit < TWO64 - 1
      ensures Within(script, old(script))
      ensures fault ==> !Willing(old(script))
      ensures end == HandOver ==> Refused in old(script) || (observes && !scratch)
    {
      len := 0;
      if observes && !scratch {
        return HandOver, len;
      }
      var allowed := Allowance(limit);
      while true
        invariant !fault && len <= limit && At(stream, file0, tap0, observes, len) && Within(script, old(script))
        decreases |src|
      {
        var want := Min(allowed - len, SPLICE_ROUND_BYTES);
        ghost var rest := src;
        var round := Round(observes, want);
        if round == Unsupported {
          return HandOver, len;
        }
        if round == Failed {
          Stopped(stream, file0, tap0, observes, limit, len, rest);
          return Broken, len;
        }
        if round.n == 0 {
          return Eof, len;
        }
        Advanced(stream, file0, tap0, observes, len, round.n);
        len := len + round.n;
        if len > limit {
          return Overflow, len;
        }
      }
    }

    // A fault in the middle of a round or a write leaves prefixes behind.
    lemma Stopped(stream: Bytes, file0: Bytes, tap0: Bytes, observes: bool, limit: u64, len: nat, rest: Bytes)
      requires fault && len <= |stream| && rest == stream[len..]
      requires exists k | 0 <= k <= Min(Allowance(limit) - len, |rest|) :: file == file0 + stream[..len] + rest[..k]
      requires tap == if observes then tap0 + stream[..len] else tap0
      ensures BrokenOff(stream, file0, tap0, observes, limit)
    {
      var k :| 0 <= k <= Min(Allowance(limit) - len, |rest|) && file == file0 + stream[..len] + rest[..k];
      assert stream[..len] + rest[..k] == stream[..len + k];
      assert file == file0 + stream[..len + k];
    }

    // A round that moved `n` bytes brings the copy `n` bytes further.
    lemma Advanced(stream: Bytes, file0: Bytes, tap0: Bytes, observes: bool, len: nat, n: nat)
      requires len + n <= |stream| && src == stream[len..][n..]
      requires file == file0 + stream[..len] + stream[len..][..n]
      requires tap == if observes then tap0 + stream[..len] + stream[len..][..n] else tap0
      ensures At(stream, file0, tap0, observes, len + n)
    {
      assert stream[..len] + stream[len..][..n] == stream[..len + n];
    }

    /** `buffered_loop`: the user-space copy, from wherever the kernel path stopped. */
    method BufferedLoop(limit: u64, observes: bool, copied: nat, ghost stream: Bytes, ghost file0: Bytes,
                        ghost tap0: Bytes)
        returns (end: KernelEnd, len: nat)
      requires !fault && copied <= limit && At(stream, file0, tap0, observes, copied)
      modifies this
      ensures fault <==> end == Broken
      ensures end == Broken ==> BrokenOff(stream, file0, tap0, observes, limit)
      ensures end != Broken ==> At(stream, file0, tap0, observes, len)
      ensures end == Eof ==> len <= limit && (src == [] || len == TWO64 - 1)
      ensures end == Overflow ==> len == limit + 1 && limit < TWO64 - 1
      ensures end != HandOver
      ensures Within(script, old(script))
      ensures fault ==> !Willing(old(script))
    {
      len := copied;
      var allowed := Allowance(limit);
      while true
        invariant !fault && len <= limit && At(stream, file0, tap0, observes, len) && Within(script, old(script))
        decreases |src|
      {
        var want := Min(allowed - len, SPLICE_CHUNK_BYTES);
        ghost var rest := src;
        var round := BufferedRound(observes, want);
        if round == Failed {
          Stopped(stream, file0, tap0, observes, limit, len, rest);
          return Broken, len;
        }
        if round.n == 0 {
          return Eof, len;
        }
        Advanced(stream, file0, tap0, observes, len, round.n);
        len := len + round.n;
        if len > limit {
          return Overflow, len;
        }
      }
    }

    /** One turn of the buffered loop: read, again while interrupted, write out, show. */
    method BufferedRound(observes: bool, want: nat) returns (r: Syscall)
      modifies this
      ensures !r.Unsupported?
      ensures r.Moved? ==> r.n <= want && r.n <= |old(src)| && (r.n == 0 <==> want == 0 || old(src) == [])
      ensures r.Moved? ==> file == old(file) + old(src)[..r.n] && src == old(src)[r.n..] && fault == old(fault)
      ensures r.Moved? ==> tap == if observes then old(tap) + old(src)[..r.n] else old(tap)
      ensures r.Failed? ==> fault && tap == old(tap)
      ensures r.Failed? ==> exists k | 0 <= k <= Min(want, |old(src)|) :: file == old(file) + old(src)[..k]
      ensures Within(script, old(script))
      ensures fault ==> old(fault) || !Willing(old(script))
    {
      var chunk;
      r, chunk := ReadOnce(want);
      while r.Unsupported?
        invariant file == old(file) && tap == old(tap) && fault == (old(fault) || r.Failed?)
        invariant !r.Moved? ==> src == old(src)
        invariant Within(script, old(script)) && (r.Failed? ==> old(fault) || !Willing(old(script)))
        invariant r.Moved? ==> r.n <= want && r.n <= |old(src)| && (r.n == 0 <==> want == 0 || old(src) == [])
        invariant r.Moved? ==> chunk == old(src)[..r.n] && src == old(src)[r.n..]
        decreases r.Unsupported?, |script|
      {
        r, chunk := ReadOnce(want);
      }
      if !r.Moved? || r.n == 0 {
        assert file == old(file) + old(src)[..0];
        return r;
      }
      var ok := WriteAll(chunk);
      if !ok {
        assert forall k | 0 <= k <= |chunk| :: chunk[..k] == old(src)[..k];
        return Failed;
      }
      if observes {
        tap := tap + chunk;
      }
    }

    /** `read_to_end` of at most `cap` bytes, as `take(cap)` gives them. */
    method ReadToEnd(cap: nat) returns (ok: bool, bytes: Bytes)
      modifies this`src, this`script, this`fault
      ensures fault == (old(fault) || !ok)
      ensures ok ==> bytes == old(src)[..Min(cap, |old(src)|)] && src == old(src)[Min(cap, |old(src)|)..]
      ensures Within(script, old(script))
      ensures fault ==> old(fault) || !Willing(old(script))
    {
      bytes := [];
      ghost var stream := src;
      while true
        invariant |bytes| <= cap && |bytes| <= |stream| && fault == old(fault) && Within(script, old(script))
        invariant bytes == stream[..|bytes|] && src == stream[|bytes|..]
        decreases |src|, |script|
      {
        var read, chunk := ReadOnce(cap - |bytes|);
        if read == Failed {
          return false, bytes;
        }
        if read.Moved? {
          if read.n == 0 {
            return true, bytes;
          }
          assert stream[..|bytes|] + stream[|bytes|..][..read.n] == stream[..|bytes| + read.n];
          bytes := bytes + chunk;
        }
      }
    }

    /** `copy_to_file`. Without a fault the verdict is fixed by the stream and the
        limit alone, and file and tap hold the stream once and in order (its first
        `limit + 1` bytes when it is too large), on the kernel path, the buffered path
        and across a hand-over between them. */
    method CopyToFile(limit: u64, isPipe: bool, observes: bool, scratch: bool)
        returns (verdict: Verdict, kernelBytes: nat)
      requires !fault
      modifies this
      ensures fault <==> verdict == Io
      ensures !fault ==> verdict == Answered(old(src), limit)
      ensures !fault ==> At(old(src), old(file), old(tap), observes, Taken(old(src), limit))
      ensures verdict.Copied? ==> kernelBytes <= verdict.len
      ensures fault ==> BrokenOff(old(src), old(file), old(tap), observes, limit)
      ensures Within(script, old(script))
      ensures fault ==> !Willing(old(script))
      ensures !fault ==> kernelBytes <= Taken(old(src), limit)
      ensures !isPipe ==> kernelBytes == 0
      ensures isPipe && Willing(old(script)) && (observes ==> scratch) ==> kernelBytes == Taken(old(src), limit)
    {
      ghost var stream, file0, tap0 := src, file, tap;
      var len := 0;
      kernelBytes := 0;
      var end := HandOver;
      if isPipe {
        end, len := KernelLoop(limit, observes, scratch, stream, file0, tap0);
        kernelBytes := len;
      }
      if end == HandOver {
        end, len := BufferedLoop(limit, observes, len, stream, file0, tap0);
      }
      if end == Broken {
        return Io, kernelBytes;
      }
      assert |src| == |stream| - len;
      EndIsTaken(stream, limit, len, end == Overflow);
      verdict := if end == Overflow then TooLarge else if len == 0 then Empty else Copied(len);
    }

    /** The observer's scratch copy, a staging buffer at a time. */
    method TapAll(copy: Bytes)
      modifies this`tap
      ensures tap == old(tap) + copy
    {
      var left := |copy|;
      while left > 0
        invariant 0 <= left <= |copy| && tap == old(tap) + copy[..|copy| - left]
      {
        var from := |copy| - left;
        var take := Min(left, SPLICE_CHUNK_BYTES);
        tap := tap + copy[from..from + take];
        assert copy[..from] + copy[from..from + take] == copy[..from + take];
        left := left - take;
      }
      assert copy[..|copy|] == copy;
    }
  }
}
