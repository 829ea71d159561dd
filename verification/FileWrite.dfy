/**
 * The agent's write handler (internal/agent/fileshare.go, handleWrite): its
 * gates in order, the chunk loop, and the rename that installs the file. The
 * share is a map from path to contents.
 */
module FileWrite {
  import opened Common
  import opened Chunk

  type Files = map<string, string>

  /** maxTotalSize 0 means no quota. checksum "" means none was sent. */
  datatype Share = Share(writable: bool, maxFileSize: int, maxTotalSize: int)

  /**
   * size is an int64. path is the target validatePath resolves, None when it
   * refuses; extensionOk, dirOk, tempOk and renameOk say how the filesystem and
   * the extension lists answer.
   */
  datatype WriteRequest = WriteRequest(
    hasPath: bool, size: int, path: Option<string>, extensionOk: bool,
    dirOk: bool, tempOk: bool, renameOk: bool, checksum: string)

  datatype Reply =
    | Stored(size: nat)
    | ReadOnly | PathRequired | SizeRequired | BadPath | BadExtension | FileTooLarge
    | QuotaExceeded | NoDirectory | NoTempFile
    | Transfer(why: Failure) | SizeMismatch | ChecksumMismatch | NotFinalized

  ghost function Total(files: Files): nat {
    if files == map[] then 0
    else
      var k :| k in files;
      |files[k]| + Total(files - {k})
  }

  /** The total can be taken apart at any path. */
  lemma {:induction false} TotalWithout(files: Files, path: string)
    requires path in files
    ensures Total(files) == |files[path]| + Total(files - {path})
    decreases |files|
  {
    var k :| k in files && Total(files) == |files[k]| + Total(files - {k});
    if k != path {
      TotalWithout(files - {k}, path);
      TotalWithout(files - {path}, k);
      assert files - {k} - {path} == files - {path} - {k};
    }
  }

  lemma TotalOfUpdate(files: Files, path: string, data: string)
    ensures Total(files[path := data]) == |data| + Total(files - {path})
    ensures Total(files - {path}) <= Total(files)
  {
    TotalWithout(files[path := data], path);
    assert files[path := data] - {path} == files - {path};
    if path in files {
      TotalWithout(files, path);
    } else {
      assert files - {path} == files;
    }
  }

  /** int64 addition of two non-negative values. */
  function Add64(a: int, b: int): int {
    if a + b >= TWO_63 then a + b - TWO_64 else a + b
  }

  predicate OverQuota(cfg: Share, total: nat, size: int) {
    cfg.maxTotalSize > 0 && Add64(total, size) > cfg.maxTotalSize
  }

  /** The gates before the transfer, in the order they are tried. */
  function Gate(cfg: Share, total: nat, req: WriteRequest): Option<Reply> {
    if !cfg.writable then Some(ReadOnly)
    else if !req.hasPath then Some(PathRequired)
    else if req.size <= 0 then Some(SizeRequired)
    else if req.path.None? then Some(BadPath)
    else if !req.extensionOk then Some(BadExtension)
    else if req.size > cfg.maxFileSize then Some(FileTooLarge)
    else if OverQuota(cfg, total, req.size) then Some(QuotaExceeded)
    else if !req.dirOk then Some(NoDirectory)
    else if !req.tempOk then Some(NoTempFile)
    else None
  }

  /** The answer to a transfer that has ended. */
  function Verdict(hash: string -> string, req: WriteRequest, sent: Decoded): Reply {
    if sent.Failed? then Transfer(sent.why)
    else if |sent.data| != req.size then SizeMismatch
    else if req.checksum != "" && hash(sent.data) != req.checksum then ChecksumMismatch
    else if !req.renameOk then NotFinalized
    else Stored(|sent.data|)
  }

  /** What a write request leaves: the share, the reply, and the unread bytes of the connection. */
  datatype Handled = Handled(files: Files, reply: Reply, rest: string)

  ghost function Handle(cfg: Share, hash: string -> string, files: Files, req: WriteRequest, s: string): (r: Handled)
    ensures |r.rest| <= |s|
  {
    var gate := Gate(cfg, Total(files), req);
    if gate.Some? then Handled(files, gate.value, s)
    else
      var sent := Decode(AgentPolicy(req.size), s);
      var reply := Verdict(hash, req, sent);
      Handled(if reply.Stored? then files[req.path.value := sent.data] else files, reply, sent.rest)
  }

  ghost predicate WithinQuota(cfg: Share, files: Files) {
    cfg.maxTotalSize > 0 ==> Total(files) <= cfg.maxTotalSize
  }

  /** One share directory, with the single writer this model serves it by. */
  class ShareDir {
    const cfg: Share
    const hash: string -> string
    var files: Files

    constructor (cfg: Share, hash: string -> string, files: Files)
      ensures this.cfg == cfg && this.hash == hash && this.files == files
    {
      this.cfg, this.hash, this.files := cfg, hash, files;
    }

    /** dirTotalSize walks the directory. */
    method DirTotalSize() returns (total: nat)
      ensures total == Total(files)
    {
      total := 0;
      var todo := files;
      while todo != map[]
        invariant todo.Keys <= files.Keys && forall k :: k in todo ==> todo[k] == files[k]
        invariant total + Total(todo) == Total(files)
        decreases |todo|
      {
        var k :| k in todo;
        TotalWithout(todo, k);
        total := total + |todo[k]|;
        todo := todo - {k};
      }
    }

    /**
     * handleWrite. The file is installed exactly when every gate passes and the
     * transfer completes with the declared size, the checksum sent, and a
     * successful rename; otherwise the share is untouched. The reply says so.
     */
    method HandleWrite(req: WriteRequest, reader: Reader) returns (reply: Reply)
      modifies this, reader
      ensures Handled(files, reply, reader.rest) == Handle(cfg, hash, old(files), req, old(reader.rest))
      ensures
        var gate := Gate(cfg, Total(old(files)), req);
        if gate.Some? then reply == gate.value && files == old(files) && reader.rest == old(reader.rest)
        else
          var sent := Decode(AgentPolicy(req.size), old(reader.rest));
          && reader.rest == sent.rest
          && (reply.Stored? <==>
                && sent.Complete? && |sent.data| == req.size
                && (req.checksum == "" || hash(sent.data) == req.checksum)
                && req.renameOk)
          && (reply.Stored? ==> reply.size == req.size && files == old(files)[req.path.value := sent.data])
          && (!reply.Stored? ==> files == old(files))
          && (sent.Failed? ==> reply == Transfer(sent.why))
      ensures WithinQuota(cfg, old(files)) && Total(old(files)) + req.size < TWO_63 ==> WithinQuota(cfg, files)
    {
      if !cfg.writable {
        return ReadOnly;
      }
      if !req.hasPath {
        return PathRequired;
      }
      if req.size <= 0 {
        return SizeRequired;
      }
      if req.path.None? {
        return BadPath;
      }
      if !req.extensionOk {
        return BadExtension;
      }
      if req.size > cfg.maxFileSize {
        return FileTooLarge;
      }
      if cfg.maxTotalSize > 0 {
        var total := DirTotalSize();
        if Add64(total, req.size) > cfg.maxTotalSize {
          return QuotaExceeded;
        }
      }
      if !req.dirOk {
        return NoDirectory;
      }
      if !req.tempOk {
        return NoTempFile;
      }
      var sent := Receive(req.size, reader);
      if sent.Failed? {
        return Transfer(sent.why);
      }
      if |sent.data| != req.size {
        return SizeMismatch;
      }
      if req.checksum != "" && hash(sent.data) != req.checksum {
        return ChecksumMismatch;
      }
      if !req.renameOk {
        return NotFinalized;
      }
      if Total(files) + req.size < TWO_63 {
        AcceptedWriteKeepsQuota(cfg, files, req, sent.data);
      }
      files := files[req.path.value := sent.data];
      reply := Stored(|sent.data|);
    }
  }

  /** The quota gate passes exactly when the sum fits or has wrapped below zero. */
  lemma QuotaGateExactly(cfg: Share, total: nat, size: int)
    requires 0 < size < TWO_63 && total < TWO_63 && 0 < cfg.maxTotalSize
    ensures !OverQuota(cfg, total, size) <==> total + size <= cfg.maxTotalSize || total + size >= TWO_63
  {
  }

  /**
   * A write that passed the gates keeps the share within its quota and every
   * file it installs within the file limit, unless the 64-bit sum wrapped.
   */
  lemma AcceptedWriteKeepsQuota(cfg: Share, files: Files, req: WriteRequest, data: string)
    requires Gate(cfg, Total(files), req).None? && |data| == req.size
    requires Total(files) + req.size < TWO_63
    ensures |data| <= cfg.maxFileSize
    ensures WithinQuota(cfg, files[req.path.value := data])
  {
    TotalOfUpdate(files, req.path.value, data);
    if cfg.maxTotalSize > 0 {
      QuotaGateExactly(cfg, Total(files), req.size);
    }
  }

  /** The quota allows the file: there is none, or the sum fits, or it has left the int64 range. */
  ghost predicate QuotaAllows(cfg: Share, files: Files, size: int) {
    cfg.maxTotalSize <= 0 || Total(files) + size <= cfg.maxTotalSize || Total(files) + size >= TWO_63
  }

  /**
   * A file is stored exactly when everything holds that a write needs, from the
   * share's own switch to the final rename. The sizes are int64 values.
   */
  lemma StoredExactly(cfg: Share, hash: string -> string, files: Files, req: WriteRequest, s: string)
    requires req.size < TWO_63 && Total(files) < TWO_63
    ensures
      var h := Handle(cfg, hash, files, req, s);
      h.reply.Stored? <==>
        && cfg.writable && req.hasPath && req.path.Some? && req.extensionOk
        && 0 < req.size <= cfg.maxFileSize && QuotaAllows(cfg, files, req.size)
        && req.dirOk && req.tempOk && req.renameOk
        && exists data, rest ::
             && Decode(AgentPolicy(req.size), s) == Complete(data, rest)
             && |data| == req.size && (req.checksum == "" || hash(data) == req.checksum)
             && h == Handled(files[req.path.value := data], Stored(|data|), rest)
  {
    if req.size > 0 && cfg.maxTotalSize > 0 {
      QuotaGateExactly(cfg, Total(files), req.size);
    }
    if Handle(cfg, hash, files, req, s).reply.Stored? {
      var sent := Decode(AgentPolicy(req.size), s);
      assert sent == Complete(sent.data, sent.rest);
    }
  }

  /** Each refusal before the transfer names the first requirement that fails, and touches neither share nor stream. */
  lemma RefusedExactly(cfg: Share, hash: string -> string, files: Files, req: WriteRequest, s: string)
    requires req.size < TWO_63 && Total(files) < TWO_63
    ensures
      var h := Handle(cfg, hash, files, req, s);
      var sized := cfg.writable && req.hasPath && req.size > 0;
      var placed := sized && req.path.Some? && req.extensionOk;
      var fits := placed && req.size <= cfg.maxFileSize && QuotaAllows(cfg, files, req.size);
      && (h.reply.ReadOnly? <==> !cfg.writable)
      && (h.reply.PathRequired? <==> cfg.writable && !req.hasPath)
      && (h.reply.SizeRequired? <==> cfg.writable && req.hasPath && req.size <= 0)
      && (h.reply.BadPath? <==> sized && req.path.None?)
      && (h.reply.BadExtension? <==> sized && req.path.Some? && !req.extensionOk)
      && (h.reply.FileTooLarge? <==> placed && req.size > cfg.maxFileSize)
      && (h.reply.QuotaExceeded? <==>
            placed && req.size <= cfg.maxFileSize && !QuotaAllows(cfg, files, req.size))
      && (h.reply.NoDirectory? <==> fits && !req.dirOk)
      && (h.reply.NoTempFile? <==> fits && req.dirOk && !req.tempOk)
      && (!(fits && req.dirOk && req.tempOk) ==> h.files == files && h.rest == s)
  {
    if req.size > 0 && cfg.maxTotalSize > 0 {
      QuotaGateExactly(cfg, Total(files), req.size);
    }
  }

  /** Past those, the answer says how the transfer ended, and only a stored file changes the share. */
  lemma TransferAnswersExactly(cfg: Share, hash: string -> string, files: Files, req: WriteRequest, s: string)
    requires Gate(cfg, Total(files), req).None?
    ensures
      var h, sent := Handle(cfg, hash, files, req, s), Decode(AgentPolicy(req.size), s);
      var whole := sent.Complete? && |sent.data| == req.size;
      var checked := whole && (req.checksum == "" || hash(sent.data) == req.checksum);
      && h.rest == sent.rest
      && (forall why :: h.reply == Transfer(why) <==> sent.Failed? && sent.why == why)
      && (h.reply.SizeMismatch? <==> sent.Complete? && |sent.data| < req.size)
      && (h.reply.ChecksumMismatch? <==> whole && !checked)
      && (h.reply.NotFinalized? <==> checked && !req.renameOk)
      && (h.reply.Stored? <==> checked && req.renameOk)
      && (!h.reply.Stored? ==> h.files == files)
  {
    NeverMoreThanDeclared(AgentPolicy(req.size), "", s);
  }

  /**
   * An encoding sent with its own size as the declared one is consumed to its
   * end exactly when the gates pass; a refused one is not read at all.
   */
  lemma UploadStaysInFrameExactly(
      cfg: Share, hash: string -> string, files: Files, req: WriteRequest, pieces: seq<string>, tail: string)
    requires IsSplit(pieces) && req.size == |Flatten(pieces)|
    ensures
      var h := Handle(cfg, hash, files, req, Encode(pieces) + tail);
      var reply := Verdict(hash, req, Complete(Flatten(pieces), tail));
      && (h.rest == tail <==> Gate(cfg, Total(files), req).None?)
      && (Gate(cfg, Total(files), req).None? ==>
            h == Handled(if reply.Stored? then files[req.path.value := Flatten(pieces)] else files, reply, tail))
  {
    RoundTrip(pieces, tail);
    if Gate(cfg, Total(files), req).Some? {
      assert |Encode(pieces) + tail| > |tail|;
    }
  }

  /**
   * mountUploadFile sends its data as one chunk and no checksum. The file is
   * stored exactly when the gates pass, the rename succeeds and the data fits
   * one chunk. Whatever a refusal leaves unread stays in the stream: the whole
   * body for a gate, which for empty data is the size check at the latest, or
   * all but the size line when the chunk is too large.
   */
  lemma MountUploadExactly(
      cfg: Share, hash: string -> string, files: Files, req: WriteRequest, data: string, tail: string)
    requires req.size == |data| < TWO_63 && req.checksum == ""
    ensures
      var body := Frame(data) + TERMINATOR + tail;
      var h := Handle(cfg, hash, files, req, body);
      var gate := Gate(cfg, Total(files), req);
      && (h.reply.Stored? <==> gate.None? && req.renameOk && 1 <= |data| <= MAX_CHUNK)
      && (h.rest == tail <==> gate.None? && 1 <= |data| <= MAX_CHUNK)
      && (h.reply.Stored? ==> h.files == files[req.path.value := data])
      && (gate.Some? ==> h == Handled(files, gate.value, body))
      && (gate.None? && |data| > MAX_CHUNK ==> h == Handled(files, Transfer(TooLarge), data + TERMINATOR + tail))
      && (data == "" ==>
            gate == Some(if !cfg.writable then ReadOnly else if !req.hasPath then PathRequired else SizeRequired))
  {
    assert |Frame(data) + TERMINATOR + tail| > |data + TERMINATOR + tail| > |tail|;
    if data != "" {
      SingleChunkDecodes(data, tail);
    }
  }
}
