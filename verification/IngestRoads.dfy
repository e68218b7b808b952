/** From the compositor's pipe to a payload: read into memory, spooled to a file, or
    handed back and read after all. The roads must deliver the same bytes. */
module IngestRoads {
  import opened Core
  import opened Splice

  const INLINE_PAYLOAD_THRESHOLD_BYTES: nat := 4096

  datatype SpoolOutcome = Spooled(file: SpooledFile) | Rejected | Unavailable

  /** The bytes of one stream, kept in memory or on disk with their first part. */
  datatype Drained = Memory(bytes: Bytes) | OnDisk(file: SpooledFile, head: Bytes)

  /** What the environment grants one ingestion. */
  datatype Grants = Grants(spooler: bool, create: bool, isPipe: bool, scratch: bool)

  /** Which streams come through: those within the limit, and on the streaming road
      also anything that ends inside the inline threshold. */
  predicate Accepts(stream: Bytes, limit: u64, streaming: bool) {
    stream != [] && (|stream| <= limit || (streaming && |stream| < INLINE_PAYLOAD_THRESHOLD_BYTES))
  }

  /** The roads accept the same streams exactly for limits that do not cut into the
      inline head, so for the limit the daemon uses. */
  lemma RoadsAgreeIff(limit: u64)
    ensures (forall stream: Bytes :: Accepts(stream, limit, true) == Accepts(stream, limit, false))
      <==> limit >= INLINE_PAYLOAD_THRESHOLD_BYTES - 1
  {
    if limit < INLINE_PAYLOAD_THRESHOLD_BYTES - 1 {
      var stream := seq(limit + 1, i => 0);
      assert Accepts(stream, limit, true) != Accepts(stream, limit, false);
    }
  }

  /** `read_bounded`. */
  method ReadBounded(m: Machine, limit: u64) returns (payload: Option<Bytes>)
    requires !m.fault
    modifies m`src, m`script, m`fault
    ensures m.fault ==> payload == None
    ensures !m.fault && limit < TWO64 - 1 ==> payload == if 0 < |old(m.src)| <= limit then Some(old(m.src)) else None
    ensures Splice.Within(m.script, old(m.script))
    ensures m.fault ==> !Willing(old(m.script))
  {
    var ok, bytes := m.ReadToEnd(Allowance(limit));
    assert bytes == old(m.src) || !ok || |bytes| == Allowance(limit);
    if !ok || bytes == [] || |bytes| > limit {
      return None;
    }
    return Some(bytes);
  }

  /** Head and remainder, contiguous, into the file and past the digest. */
  method Fill(head: Bytes, m: Machine, limit: u64, grants: Grants) returns (len: Option<nat>)
    requires !m.fault && m.file == [] && m.tap == [] && |head| <= limit
    modifies m
    ensures len.Some? ==> !m.fault
    ensures len.Some? && limit - |head| < TWO64 - 1 ==>
      m.file == m.tap == head + old(m.src) && len.value == |head + old(m.src)| <= limit
    ensures len.None? && !m.fault ==> |head| + |old(m.src)| > limit
    ensures Splice.Within(m.script, old(m.script))
    ensures m.fault ==> !Willing(old(m.script))
  {
    m.tap := m.tap + head;
    var ok := m.WriteAll(head);
    if !ok {
      return None;
    }
    ghost var rest := m.src;
    var verdict, _ := m.CopyToFile(limit - |head|, grants.isPipe, true, grants.scratch);
    if verdict == Io || verdict == TooLarge {
      return None;
    }
    assert rest[..|rest|] == rest;
    assert limit - |head| < TWO64 - 1 ==> m.file == [] + head + rest;
    return Some(|head| + if verdict.Copied? then verdict.len else 0);
  }

  /** The spool directory, shared by all ingestion threads. */
  class FileSpooler {
    const sha: Bytes -> Bytes
    var files: map<Path, Bytes>
    var next: Path

    /** Names are never given out twice. */
    ghost predicate Valid()
      reads this
    {
      forall p | p in files :: p < next
    }

    constructor (sha: Bytes -> Bytes)
      ensures Valid() && files == map[] && this.sha == sha
    {
      this.sha := sha;
      files, next := map[], 0;
    }

    /** `spool`: `head`, then the rest of the pipe, under one limit. The file that was
        created is returned as an owned file or is gone again. */
    method Spool(head: Bytes, m: Machine, limit: u64, grants: Grants) returns (outcome: SpoolOutcome)
      requires Valid() && !m.fault && m.file == [] && m.tap == []
      modifies this, m
      ensures Valid()
      ensures outcome == Unavailable <==> !grants.create
      ensures outcome == Unavailable ==> m.src == old(m.src) && !m.fault
      ensures outcome.Spooled? && limit - |head| < TWO64 - 1 ==>
        && !m.fault
        && outcome.file.path !in old(files)
        && files == old(files)[outcome.file.path := head + old(m.src)]
        && outcome.file.len == |head + old(m.src)| <= limit
        && outcome.file.digest == sha(head + old(m.src))
      ensures !outcome.Spooled? ==> files == old(files)
      ensures outcome == Rejected && !m.fault ==> |head| + |old(m.src)| > limit
      ensures Splice.Within(m.script, old(m.script))
      ensures m.fault ==> !Willing(old(m.script))
    {
      if !grants.create {
        return Unavailable;
      }
      var path := next;
      next := next + 1;
      files := files[path := []];
      if |head| > limit {
        Unlink(path);
        return Rejected;
      }
      var len := Fill(head, m, limit, grants);
      if len == None {
        Unlink(path);
        return Rejected;
      }
      files := files[path := m.file];
      return Spooled(SpooledFile(path, len.value, sha(m.tap)));
    }

    method Unlink(path: Path)
      modifies this`files
      ensures files == old(files) - {path}
    {
      files := files - {path};
    }
  }

  /** `drain_pipe`: a text-like payload, or any without a spooler, is read into memory;
      otherwise one inline threshold is read first and the rest spooled behind it. */
  method DrainPipe(m: Machine, textLike: bool, limit: u64, spooler: FileSpooler, grants: Grants)
      returns (drained: Option<Drained>)
    requires spooler.Valid() && !m.fault && m.file == [] && m.tap == []
    modifies m, spooler
    ensures spooler.Valid()
    // Whole and contiguous, on every road.
    ensures drained.Some? && drained.value.Memory? && limit < TWO64 - 1 ==>
      drained.value.bytes == old(m.src) && spooler.files == old(spooler.files)
    ensures drained.Some? && drained.value.OnDisk? ==>
      && drained.value.file.path !in old(spooler.files)
      && spooler.files == old(spooler.files)[drained.value.file.path := old(m.src)]
      && drained.value.file.len == |old(m.src)| && drained.value.file.digest == spooler.sha(old(m.src))
      && |old(m.src)| >= 4096 && drained.value.head == old(m.src)[..4096]
    // A longer stream that is not text goes to disk when it can.
    ensures drained.Some? && !textLike && grants.spooler && grants.create && |old(m.src)| >= 4096
      ==> drained.value.OnDisk?
    // Nothing yields nothing and leaves nothing.
    ensures drained == None ==> spooler.files == old(spooler.files)
    // Which streams come through is a matter of their length only.
    ensures !m.fault && limit < TWO64 - 1
      ==> (drained.Some? <==> Accepts(old(m.src), limit, !textLike && grants.spooler))
    ensures Splice.Within(m.script, old(m.script))
    ensures m.fault ==> !Willing(old(m.script))
  {
    if textLike || !grants.spooler {
      var payload := ReadBounded(m, limit);
      return if payload.Some? then Some(Memory(payload.value)) else None;
    }
    ghost var stream := m.src;
    var ok, head := m.ReadToEnd(INLINE_PAYLOAD_THRESHOLD_BYTES);
    if !ok {
      return None;
    }
    if |head| < INLINE_PAYLOAD_THRESHOLD_BYTES {
      return if head == [] then None else Some(Memory(head));
    }
    ghost var rest := m.src;
    assert head + rest == stream;
    var outcome := spooler.Spool(head, m, limit, grants);
    match outcome
    case Spooled(file) => return Some(OnDisk(file, head));
    case Rejected => return None;
    case Unavailable =>
      // A reader of the head followed by what the pipe still holds.
      m.src := head + m.src;
      var payload := ReadBounded(m, limit);
      return if payload.Some? then Some(Memory(payload.value)) else None;
  }
}
