/** Serving a paste: `sendfile(2)` at an explicit offset, and a user-space copy that
    takes over wherever the kernel refuses. */
module Egress {
  import opened Core
  import opened Splice

  const SENDFILE_CHUNK: nat := 0x4000_0000

  // --- What the kernel's answers decide ---

  datatype KernelStop = Sent | HandsOver | Breaks

  /** Where `sendfile` on a source of `len` bytes stops from `offset` on, why, and what
      of the script is left. A source without offsets is handed over at once. */
  function SendFrom(len: nat, offset: nat, seekable: bool, script: seq<Reply>): (stop: (nat, KernelStop, seq<Reply>))
    requires offset <= len
    ensures offset <= stop.0 <= len
    ensures !seekable ==> stop.0 == offset && stop.1 != Sent
    ensures stop.1 == Sent ==> stop.0 == len
    decreases len - offset, |script|
  {
    var (reply, left) := Answer(script);
    match reply
    case Interrupted => SendFrom(len, offset, seekable, left)
    case Hard => (offset, Breaks, left)
    case Refused => (offset, HandsOver, left)
    case Count(n) =>
      if !seekable then (offset, HandsOver, left) else
        var m := Served(n, SENDFILE_CHUNK, len - offset);
        if m == 0 then (offset, Sent, left) else SendFrom(len, offset + m, seekable, left)
  }

  /** Whether the user-space copy of `len` bytes meets no hard error. */
  function Copies(len: nat, script: seq<Reply>): bool
    decreases len, |script|
  {
    if len == 0 then true else
      var (reply, left) := Answer(script);
      match reply
      case Interrupted => Copies(len, left)
      case Count(n) => Copies(len - Served(n, SPLICE_CHUNK_BYTES, len), left)
      case _ => false
  }

  /** What the receiver gets of a source whose reader stands at `pos`, unless there is a
      hard error: the bytes sent before the hand-over, then what the reader finds after
      skipping as many. */
  function Delivered(content: Bytes, pos: nat, hasFd: bool, seekable: bool, script: seq<Reply>): Option<Bytes>
    requires pos <= |content|
  {
    var (k, stop, left) := if hasFd then SendFrom(|content|, 0, seekable, script) else (0, HandsOver, script);
    match stop
    case Breaks => None
    case Sent => Some(content)
    case HandsOver =>
      var from := Min(pos + k, |content|);
      if Copies(|content| - from, left) then Some(content[..k] + content[from..]) else None
  }

  // --- What it amounts to ---

  predicate Yields(all: Option<Bytes>, bytes: Bytes) {
    all.Some? ==> all.value == bytes
  }

  /** Whatever the kernel answers, the receiver gets these bytes or an error. */
  ghost predicate Always(content: Bytes, pos: nat, hasFd: bool, seekable: bool, bytes: Bytes)
    requires pos <= |content|
  {
    forall script :: Yields(Delivered(content, pos, hasFd, seekable, script), bytes)
  }

  lemma {:induction false} FullService(len: nat, offset: nat)
    requires offset <= len
    ensures SendFrom(len, offset, true, []) == (len, Sent, [])
    decreases len - offset
  {
    var m := Served(TWO64, SENDFILE_CHUNK, len - offset);
    if m > 0 {
      FullService(len, offset + m);
    }
  }

  lemma {:induction false} FullCopy(len: nat)
    ensures Copies(len, [])
  {
    if len > 0 {
      FullCopy(len - Served(TWO64, SPLICE_CHUNK_BYTES, len));
    }
  }

  lemma FromStartIsWhole(content: Bytes, pos: nat, script: seq<Reply>)
    requires pos <= |content| && (pos == 0 || content == [])
    ensures Yields(Delivered(content, pos, true, true, script), content)
  {
    var k := SendFrom(|content|, 0, true, script).0;
    assert content[..k] + content[k..] == content;
  }

  /** A seekable source is served from its own start: its remaining bytes are what the
      receiver gets, for every script, exactly when that is where the reader stands. So
      is the whole content, because a refusal hands over to a reader that is not. */
  lemma RemainingIffFromStart(content: Bytes, pos: nat)
    requires pos <= |content|
    ensures Always(content, pos, true, true, content[pos..]) <==> pos == 0 || content == []
    ensures Always(content, pos, true, true, content) <==> pos == 0 || content == []
  {
    if pos == 0 || content == [] {
      assert content[pos..] == content;
      forall script
        ensures Yields(Delivered(content, pos, true, true, script), content)
      {
        FromStartIsWhole(content, pos, script);
      }
    } else {
      FullService(|content|, 0);
      assert Delivered(content, pos, true, true, []) == Some(content);
      FullCopy(|content| - pos);
      assert SendFrom(|content|, 0, true, [Refused]) == (0, HandsOver, []);
      assert Delivered(content, pos, true, true, [Refused]) == Some(content[..0] + content[pos..]);
      assert |content[..0] + content[pos..]| < |content|;
    }
  }

  /** Without a descriptor, or without offsets, it is always the remaining bytes. */
  lemma OtherwiseRemaining(content: Bytes, pos: nat, hasFd: bool, seekable: bool)
    requires pos <= |content| && !(hasFd && seekable)
    ensures Always(content, pos, hasFd, seekable, content[pos..])
  {
    forall script
      ensures Yields(Delivered(content, pos, hasFd, seekable, script), content[pos..])
    {
      assert content[..0] + content[pos..] == content[pos..];
    }
  }

  lemma DeliveredOnce(content: Bytes, pos: nat, hasFd: bool, seekable: bool, script: seq<Reply>)
    requires pos <= |content|
    ensures var all := Delivered(content, pos, hasFd, seekable, script);
      && (pos == 0 ==> Yields(all, content))
      && (!hasFd || !seekable ==> Yields(all, content[pos..]))
  {
    if hasFd && seekable {
      RemainingIffFromStart(content, pos);
    } else {
      OtherwiseRemaining(content, pos, hasFd, seekable);
    }
  }

  // --- The code ---

  class Transfer {
    const content: Bytes
    /** The reader's own position; `sendfile` with an offset never moves it. */
    var pos: nat
    var dest: Bytes
    var script: seq<Reply>
    /** A hard error, or the receiver left. */
    ghost var fault: bool

    ghost predicate Valid()
      reads this
    {
      pos <= |content|
    }

    constructor (content: Bytes, pos: nat, script: seq<Reply>)
      requires pos <= |content|
      ensures Valid() && this.content == content && this.pos == pos && dest == [] && this.script == script && !fault
    {
      this.content, this.pos, this.script := content, pos, script;
      dest, fault := [], false;
    }

    /** The `sendfile` loop of `transfer`. */
    method SendKernel(seekable: bool) returns (offset: nat, stop: KernelStop)
      requires Valid()
      modifies this`dest, this`script
      ensures (offset, stop, script) == SendFrom(|content|, 0, seekable, old(script))
      ensures dest == old(dest) + content[..offset]
    {
      offset := 0;
      while true
        invariant offset <= |content| && dest == old(dest) + content[..offset]
        invariant SendFrom(|content|, offset, seekable, script) == SendFrom(|content|, 0, seekable, old(script))
        decreases |content| - offset, |script|
      {
        var (reply, left) := Answer(script);
        script := left;
        if reply.Interrupted? {
          continue;
        }
        if reply.Hard? {
          return offset, Breaks;
        }
        if reply.Refused? || !seekable {
          return offset, HandsOver;
        }
        var m := Served(reply.n, SENDFILE_CHUNK, |content| - offset);
        dest := dest + content[offset..offset + m];
        assert content[..offset] + content[offset..offset + m] == content[..offset + m];
        offset := offset + m;
        if m == 0 {
          return offset, Sent;
        }
      }
    }

    /** `transfer`: a hard error, or exactly the bytes the script decides; so a source
        read from its start goes out once and in order, whatever counts the kernel
        answers and wherever it refuses. */
    method Run(hasFd: bool, seekable: bool)
      requires Valid() && !fault
      modifies this
      ensures Valid()
      ensures fault <==> Delivered(content, old(pos), hasFd, seekable, old(script)).None?
      ensures !fault ==> dest == old(dest) + Delivered(content, old(pos), hasFd, seekable, old(script)).value
      ensures !fault && (!hasFd || !seekable) ==> dest == old(dest) + content[old(pos)..]
      ensures !fault && old(pos) == 0 ==> dest == old(dest) + content
    {
      DeliveredOnce(content, pos, hasFd, seekable, script);
      Deliver(hasFd, seekable);
    }

    method Deliver(hasFd: bool, seekable: bool)
      requires Valid() && !fault
      modifies this
      ensures Valid()
      ensures fault <==> Delivered(content, old(pos), hasFd, seekable, old(script)).None?
      ensures !fault ==> dest == old(dest) + Delivered(content, old(pos), hasFd, seekable, old(script)).value
    {
      var offset, stop := 0, HandsOver;
      if hasFd {
        offset, stop := SendKernel(seekable);
      }
      Conclude(offset, stop);
    }

    // Reports the error, or copies what is still to come.
    method Conclude(offset: nat, stop: KernelStop)
      requires Valid() && !fault && offset <= |content| && (stop == Sent ==> offset == |content|)
      modifies this
      ensures Valid()
      ensures fault <==>
        || stop == Breaks
        || (stop == HandsOver && !Copies(|content| - Min(old(pos) + offset, |content|), old(script)))
      ensures !fault ==> dest == old(dest) + if stop == Sent then [] else content[Min(old(pos) + offset, |content|)..]
    {
      match stop
      case Breaks => fault := true;
      case Sent =>
      case HandsOver => CopyRemaining(offset);
    }

    /** `copy_remaining`: skip what has been sent, then copy the rest. */
    method CopyRemaining(alreadySent: nat)
      requires Valid() && !fault
      modifies this
      ensures Valid()
      ensures fault <==> !Copies(|content| - Min(old(pos) + alreadySent, |content|), old(script))
      ensures !fault ==> dest == old(dest) + content[Min(old(pos) + alreadySent, |content|)..]
    {
      var skipped := Min(alreadySent, |content| - pos);
      pos := pos + skipped;
      if skipped != alreadySent {
        return;
      }
      while pos < |content|
        invariant Valid() && !fault
        invariant old(pos) + alreadySent <= pos && dest == old(dest) + content[old(pos) + alreadySent..pos]
        invariant Copies(|content| - pos, script) == Copies(|content| - (old(pos) + alreadySent), old(script))
        decreases |content| - pos, |script|
      {
        var (reply, left) := Answer(script);
        script := left;
        if reply.Interrupted? {
          continue;
        }
        if !reply.Count? {
          fault := true;
          return;
        }
        var m := Served(reply.n, SPLICE_CHUNK_BYTES, |content| - pos);
        dest := dest + content[pos..pos + m];
        pos := pos + m;
      }
    }
  }
}
