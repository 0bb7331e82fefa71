/**
 Receiving a file: receiveFile takes a flattened file object apart, UploadHandler appends its data to
 the .incomplete file and renames it when all of it has come. A cut upload is taken up again at the
 size the server reports.
 */
module Uploads {
  import opened Bytes
  import opened Streams
  import opened FlatFile

  datatype Option<T> = None | Some(value: T)

  // ---------- Receiving ----------

  /** A file opened for writing at a position; what is there is overwritten, not cut off. */
  class Sink {
    var contents: bytes
    var pos: nat

    ghost predicate Valid()
      reads this
    {
      pos <= |contents|
    }

    constructor (contents: bytes, pos: nat)
      requires pos <= |contents|
      ensures Valid() && this.contents == contents && this.pos == pos
    {
      this.contents, this.pos := contents, pos;
    }

    method Write(b: bytes)
      requires Valid()
      modifies this
      ensures Valid() && contents == Overwrite(old(contents), old(pos), b) && pos == old(pos) + |b|
    {
      contents := Overwrite(contents, pos, b);
      pos := pos + |b|;
    }
  }

  function Overwrite(old_: bytes, pos: nat, b: bytes): (r: bytes)
    requires pos <= |old_|
    ensures |r| >= pos + |b|
  {
    old_[..pos] + b + if pos + |b| < |old_| then old_[pos + |b|..] else []
  }

  class WriteCounter {
    var Total: nat

    constructor ()
      ensures Total == 0
    {
      Total := 0;
    }

    method Write(p: bytes) returns (n: nat)
      modifies this
      ensures Total == old(Total) + |p| && n == |p|
    {
      n := |p|;
      Total := Total + n;
    }
  }

  /** io.CopyN of n bytes through a TeeReader: fewer, with an error, when the source ends early. */
  method CopyN(dst: Sink, src: Reader, counter: WriteCounter, n: nat) returns (ok: bool)
    requires dst.Valid()
    modifies dst, src, counter
    ensures dst.Valid()
    ensures var got := if n <= |old(src.rest)| then n else |old(src.rest)|;
            && ok == (got == n)
            && src.rest == old(src.rest)[got..]
            && dst.contents == Overwrite(old(dst.contents), old(dst.pos), old(src.rest)[..got])
            && dst.pos == old(dst.pos) + got
            && counter.Total == old(counter.Total) + got
  {
    ghost var s := src.rest;
    var data;
    ok, data := src.ReadFull(n);
    var k := counter.Write(data);
    dst.Write(data);
    assert !ok ==> s[..|s|] == s;
  }

  datatype Outcome = Done | Failed | Panicked

  /** What one run of receiveFile takes from the stream and where it puts it. */
  datatype Receipt = Receipt(outcome: Outcome, info: bytes, data: bytes, rsrc: bytes, rest: bytes)

  const THREE_FORKS: bytes2 := [0, 3]

  function Received(s: bytes): Receipt {
    ReceivedAfter(ParseFfo(s))
  }

  function ReceivedAfter(head: FfoResult): Receipt {
    match head
    case Short => Receipt(Failed, [], [], [], [])
    case Panic => Receipt(Panicked, [], [], [], [])
    case FfoRead(o, s1) => ReceivedForks(o, s1)
  }

  /** The forks that follow a flattened file object. */
  function ReceivedForks(o: Ffo, s1: bytes): Receipt {
    var info, n := EncodeInfo(o.info), U32(o.dataHeader.dataSize);
    if |s1| < n then Receipt(Failed, info, s1, [], []) else
      var data, s2 := s1[..n], s1[n..];
      if o.header.forkCount != THREE_FORKS then Receipt(Done, info, data, [], s2)
      else if |s2| < 16 then Receipt(Failed, info, data, [], [])
      else
        var m, s3 := U32(DecodeFork(s2[..16]).dataSize), s2[16..];
        if |s3| < m then Receipt(Failed, info, data, s3, [])
        else Receipt(Done, info, data, s3[..m], s3[m..])
  }

  method ReceiveFile(r: Reader, targetFile: Sink, resForkFile: Sink, infoFork: Sink, counter: WriteCounter)
    returns (outcome: Outcome)
    requires targetFile.Valid() && resForkFile.Valid() && infoFork.Valid()
    requires targetFile != resForkFile && targetFile != infoFork && resForkFile != infoFork
    modifies r, targetFile, resForkFile, infoFork, counter
    ensures var rc := Received(old(r.rest));
            && outcome == rc.outcome
            && targetFile.contents == Overwrite(old(targetFile.contents), old(targetFile.pos), rc.data)
            && resForkFile.contents == Overwrite(old(resForkFile.contents), old(resForkFile.pos), rc.rsrc)
            && infoFork.contents == Overwrite(old(infoFork.contents), old(infoFork.pos), rc.info)
            && counter.Total == old(counter.Total) + |rc.data| + |rc.rsrc|
            && (outcome.Done? ==> r.rest == rc.rest)
  {
    NothingWritten(targetFile.contents, targetFile.pos);
    NothingWritten(resForkFile.contents, resForkFile.pos);
    NothingWritten(infoFork.contents, infoFork.pos);
    var ffo := ReadFfo(r);
    if ffo.Short? {
      return Failed;
    }
    if ffo.Panic? {
      return Panicked;
    }
    ghost var s1 := ffo.rest;
    var info := Drain(EncodeInfo(ffo.o.info), 0);
    infoFork.Write(info);
    var n := U32(ffo.o.dataHeader.dataSize);
    var ok := CopyN(targetFile, r, counter, n);
    if !ok {
      assert s1[..|s1|] == s1;
      return Failed;
    }
    if ffo.o.header.forkCount == THREE_FORKS {
      ghost var s2 := s1[n..];
      var b;
      ok, b := r.ReadFull(16);
      if !ok {
        return Failed;
      }
      ghost var s3 := s2[16..];
      ok := CopyN(resForkFile, r, counter, U32(DecodeFork(b).dataSize));
      if !ok {
        assert s3[..|s3|] == s3;
        return Failed;
      }
    }
    return Done;
  }

  lemma NothingWritten(c: bytes, pos: nat)
    requires pos <= |c|
    ensures Overwrite(c, pos, []) == c
  {
  }

  lemma AppendedOrNew(c: bytes, b: bytes)
    ensures Overwrite(c, |c|, b) == c + b
    ensures [] + b == b
  {
  }

  // ---------- The upload handler ----------

  /** The files of one upload: the final name, .incomplete, .info_ and .rsrc_. */
  datatype Files = Files(final: Option<bytes>, incomplete: Option<bytes>, info: Option<bytes>, rsrc: Option<bytes>)

  function OrEmpty(f: Option<bytes>): bytes {
    if f.Some? then f.value else []
  }

  datatype UploadResult = UploadResult(outcome: Outcome, files: Files)

  /** A sidecar that makes NewFile panic. */
  predicate BadSidecar(files: Files) {
    files.info.Some? && SidecarInfo(files.info.value).OutOfRange?
  }

  /** What goes wrong in the file system, if anything does. */
  datatype Fault =
    | NoFault | StatFails | OpenFails | NewFileFails | RsrcOpenFails | InfoOpenFails | CloseFails | RenameFails

  datatype Start = Go(files: Files) | Stop(result: UploadResult)

  /** Everything before receiving. */
  function Started(files: Files, preserveForks: bool, fault: Fault): Start {
    if fault.StatFails? || files.final.Some? || fault.OpenFails? then Stop(UploadResult(Failed, files))
    else
      var files := files.(incomplete := Some(OrEmpty(files.incomplete)));
      if fault.NewFileFails? then Stop(UploadResult(Failed, files))
      else if BadSidecar(files) then Stop(UploadResult(Panicked, files))
      else if preserveForks && fault.RsrcOpenFails? then Stop(UploadResult(Failed, files))
      else if preserveForks && fault.InfoOpenFails? then
        Stop(UploadResult(Failed, files.(rsrc := Some(OrEmpty(files.rsrc)))))
      else Go(files)
  }

  /** One upload attempt. */
  function Uploaded(files: Files, s: bytes, preserveForks: bool, fault: Fault): UploadResult {
    match Started(files, preserveForks, fault)
    case Stop(r) => r
    case Go(files) => Settled(files, Received(s), preserveForks, !fault.CloseFails? && !fault.RenameFails?)
  }

  /** Once receiving has ended: what was received is kept, and renamed if it is all of it. */
  function Settled(files: Files, rc: Receipt, preserveForks: bool, renames: bool): UploadResult {
    var files := WithReceipt(files, rc, preserveForks);
    if !rc.outcome.Done? then UploadResult(rc.outcome, files)
    else if !renames then UploadResult(Failed, files)
    else UploadResult(Done, files.(final := files.incomplete, incomplete := None))
  }

  /** The files after a receipt: data appended, the information fork replaced, the resource fork overwritten. */
  function WithReceipt(files: Files, rc: Receipt, preserveForks: bool): Files {
    var files := files.(incomplete := Some(OrEmpty(files.incomplete) + rc.data));
    if !preserveForks then files
    else files.(info := Some(rc.info), rsrc := Some(Overwrite(OrEmpty(files.rsrc), 0, rc.rsrc)))
  }

  class UploadTarget {
    var files: Files

    constructor (files: Files)
      ensures this.files == files
    {
      this.files := files;
    }

    method UploadHandler(conn: Reader, counter: WriteCounter, preserveForks: bool, fault: Fault)
      returns (outcome: Outcome)
      modifies this, conn, counter
      ensures UploadResult(outcome, files) == Uploaded(old(files), old(conn.rest), preserveForks, fault)
      ensures var sent := if Started(old(files), preserveForks, fault).Stop? then 0
                          else |Received(old(conn.rest)).data| + |Received(old(conn.rest)).rsrc|;
              counter.Total == old(counter.Total) + sent
    {
      var stopped;
      stopped, outcome := Begin(preserveForks, fault);
      if stopped {
        return;
      }
      outcome := ReceiveInto(conn, counter, preserveForks);
      if !outcome.Done? {
        return;
      }
      if fault.CloseFails? {
        return Failed;
      }
      if fault.RenameFails? {
        return Failed;
      }
      files := files.(final := files.incomplete, incomplete := None);
      return Done;
    }

    /** The checks and openings before receiving. */
    method Begin(preserveForks: bool, fault: Fault) returns (stopped: bool, outcome: Outcome)
      modifies this
      ensures var start := Started(old(files), preserveForks, fault);
              if stopped then start == Stop(UploadResult(outcome, files)) else start == Go(files)
    {
      if fault.StatFails? || files.final.Some? || fault.OpenFails? {
        return true, Failed;
      }
      // O_CREATE|O_APPEND
      files := files.(incomplete := Some(OrEmpty(files.incomplete)));
      if fault.NewFileFails? {
        return true, Failed;
      }
      if files.info.Some? {
        var info := ReadSidecar(files.info.value);
        if info.OutOfRange? {
          return true, Panicked;
        }
      }
      if preserveForks {
        if fault.RsrcOpenFails? {
          return true, Failed;
        }
        if fault.InfoOpenFails? {
          files := files.(rsrc := Some(OrEmpty(files.rsrc)));
          return true, Failed;
        }
      }
      return false, Done;
    }

    /** Opening the files to write, and receiving into them. */
    method ReceiveInto(conn: Reader, counter: WriteCounter, preserveForks: bool) returns (outcome: Outcome)
      requires files.incomplete.Some?
      modifies this, conn, counter
      ensures var rc := Received(old(conn.rest));
              && outcome == rc.outcome
              && files == WithReceipt(old(files), rc, preserveForks)
              && counter.Total == old(counter.Total) + |rc.data| + |rc.rsrc|
    {
      ghost var rc := Received(conn.rest);
      var file := new Sink(files.incomplete.value, |files.incomplete.value|);
      // O_CREATE for the resource fork, O_TRUNC as well for the information fork
      var rForkWriter := new Sink(OrEmpty(files.rsrc), 0);
      var iForkWriter := new Sink([], 0);
      outcome := ReceiveFile(conn, file, rForkWriter, iForkWriter, counter);
      AppendedOrNew(files.incomplete.value, rc.data);
      AppendedOrNew([], rc.info);
      files := files.(incomplete := Some(file.contents));
      if preserveForks {
        files := files.(info := Some(iForkWriter.contents), rsrc := Some(rForkWriter.contents));
      }
    }
  }
}
