/** Sending a file: what DownloadHandler writes, how much of it was announced, and who can read it. */
module Downloads {
  import opened Bytes
  import opened Streams
  import opened FlatFile
  import opened Uploads
  import opened ResumeData

  /** A file on the server: its data (or what there is of it) and its sidecars. */
  datatype ServedFile = ServedFile(
    name: bytes, typeCode: bytes4, creatorCode: bytes4, mTime: bytes8,
    data: Option<bytes>, info: Option<bytes>, rsrc: Option<bytes>)

  const AMAC: bytes4 := [0x41, 0x4d, 0x41, 0x43]

  // ---------- Opening the file ----------

  /** The information fork made up for a file without a sidecar. */
  function DefaultInfo(f: ServedFile): InfoFork {
    NO_INFO.(platform := AMAC, typeSignature := f.typeCode, creatorSignature := f.creatorCode,
            platformFlags := [0, 0, 1, 0], createDate := f.mTime, modifyDate := f.mTime,
            name := f.name, nameSize := PutU16(|f.name|))
  }

  function InfoOf(f: ServedFile): InfoResult {
    if f.info.None? then InfoRead(DefaultInfo(f))
    else SidecarInfo(f.info.value)
  }

  /** uint32(size - offset), of an int64 that may be negative. */
  function DataSize(f: ServedFile, dataOffset: nat): bytes4 {
    if f.data.None? then Zeros(4) else PutU32((|f.data.value| - dataOffset) % TWO32)
  }

  function ResHeader(f: ServedFile): ForkHeader {
    ForkHeader(MACR, Zeros(4), Zeros(4), if f.rsrc.None? then Zeros(4) else PutU32(|f.rsrc.value|))
  }

  function Flattened(f: ServedFile, dataOffset: nat): Ffo
    requires InfoOf(f).InfoRead?
  {
    Ffo(FlatFileHeader(FILP, [0, 1], Zeros(16), if f.info.Some? then THREE_FORKS else [0, 2]),
        InfoHeaderFor(InfoOf(f).f), InfoOf(f).f, ForkHeader(DATA, Zeros(4), Zeros(4), DataSize(f, dataOffset)))
  }

  /** NewFile with its flattened file object and resource fork header. */
  class File {
    const stored: ServedFile
    var Ffo: Ffo
    var FlatFileResForkHeader: ForkHeader

    constructor (f: ServedFile)
      ensures stored == f
    {
      stored := f;
      Ffo := FlatFile.Ffo.Ffo(FlatFileHeader(Zeros(4), Zeros(2), Zeros(16), Zeros(2)), NO_HEADER, NO_INFO, NO_HEADER);
      FlatFileResForkHeader := NO_HEADER;
    }

    /** Panicked where a malformed sidecar makes the parser panic; fault says whether a file could not be looked at. */
    method Flatten(dataOffset: nat, fault: bool) returns (outcome: Outcome)
      modifies this
      ensures outcome == if fault then Failed else if InfoOf(stored).InfoRead? then Done else Panicked
      ensures outcome.Done? ==> Ffo == Flattened(stored, dataOffset) && FlatFileResForkHeader == ResHeader(stored)
    {
      if fault {
        return Failed;
      }
      var dataSize := Zeros(4);
      if stored.data.Some? {
        dataSize := PutU32((|stored.data.value| - dataOffset) % TWO32);
      }
      Ffo := Ffo.(header := FlatFileHeader(FILP, [0, 1], Zeros(16), [0, 2]));
      if stored.info.Some? {
        Ffo := Ffo.(header := Ffo.header.(forkCount := [Ffo.header.forkCount[0], 3]));
        var info := ReadSidecar(stored.info.value);
        if info.OutOfRange? {
          return Panicked;
        }
        Ffo := Ffo.(info := info.f);
      } else {
        Ffo := Ffo.(info := NO_INFO.(platform := AMAC, typeSignature := stored.typeCode,
                                    creatorSignature := stored.creatorCode, platformFlags := [0, 0, 1, 0],
                                    createDate := stored.mTime, modifyDate := stored.mTime, name := stored.name));
        Ffo := Ffo.(info := Ffo.info.(nameSize := PutU16(|stored.name|)));
      }
      Ffo := Ffo.(infoHeader := InfoHeaderFor(Ffo.info));
      Ffo := Ffo.(dataHeader := ForkHeader(DATA, Zeros(4), Zeros(4), dataSize));
      FlatFileResForkHeader := ForkHeader(MACR, Zeros(4), Zeros(4),
        if stored.rsrc.None? then Zeros(4) else PutU32(|stored.rsrc.value|));
      return Done;
    }

    /** flattenedFileObject.TransferSize: a uint32 sum. */
    method TransferSize(offset: nat) returns (size: bytes4)
      ensures size == SumOfSizes(Ffo, FlatFileResForkHeader, offset)
    {
      var b := Drain(EncodeFfo(Ffo), 0);
      var dataSize := U32(Ffo.dataHeader.dataSize);
      var resForkSize := U32(FlatFileResForkHeader.dataSize);
      size := PutU32((dataSize + resForkSize + |b| - offset) % TWO32);
    }
  }

  function SumOfSizes(o: Ffo, res: ForkHeader, offset: nat): bytes4 {
    PutU32((U32(o.dataHeader.dataSize) + U32(res.dataSize) + |EncodeFfo(o)| - offset) % TWO32)
  }

  /** The offset in a client's resume data; None where the data or its fork list is too short to be indexed. */
  function OffsetIn(data: bytes): Option<u32> {
    if LongEnough(data) && Unmarshaled(data).forkInfoList != []
    then Some(U32(Unmarshaled(data).forkInfoList[0].dataSize)) else None
  }

  /** What a client sends to go on from n is read as n, in 32 bits. */
  lemma OffsetRead(n: nat)
    ensures OffsetIn(Marshaled(NewFileResumeData([NewForkInfoList(PutU32(n))]))) == Some(n % TWO32)
  {
    ResumeDataRoundTrip([NewForkInfoList(PutU32(n))]);
  }

  datatype Announcement = Announcement(xferSize: bytes4, resume: Option<FileResumeData>) | NoAnswer | Panics

  function AnnouncementFor(f: ServedFile, resumeData: Option<bytes>, preview: bool, fault: bool): Announcement {
    if resumeData.Some? && OffsetIn(resumeData.value).None? then Panics
    else if fault then NoAnswer
    else if InfoOf(f).OutOfRange? then Panics
    else if resumeData.None? then Announcement(Announced(f, None, preview), None)
    else Announcement(Announced(f, OffsetIn(resumeData.value), preview), Some(Unmarshaled(resumeData.value)))
  }

  /**
   HandleDownloadFile: the transfer size in the reply, and the resume data of the transfer. A preview announces the data
   fork alone. fault says whether the path or a file could not be made out.
   */
  method AnnounceDownload(f: ServedFile, resumeData: Option<bytes>, preview: bool, fault: bool)
    returns (a: Announcement)
    ensures a == AnnouncementFor(f, resumeData, preview, fault)
  {
    var dataOffset, resume := 0, None;
    if resumeData.Some? {
      var unmarshaled, frd := UnmarshalBinary(resumeData.value);
      if !unmarshaled || |frd.forkInfoList| == 0 {
        return Panics;
      }
      dataOffset, resume := U32(frd.forkInfoList[0].dataSize), Some(frd);
    }
    var hlFile := new File(f);
    var looked := hlFile.Flatten(dataOffset, fault);
    if !looked.Done? {
      return if looked.Failed? then NoAnswer else Panics;
    }
    var xferSize := hlFile.TransferSize(0);
    if preview {
      xferSize := hlFile.Ffo.dataHeader.dataSize;
    }
    return Announcement(xferSize, resume);
  }

  function Announced(f: ServedFile, resume: Option<u32>, preview: bool): bytes4
    requires InfoOf(f).InfoRead?
  {
    var o := Flattened(f, if resume.Some? then resume.value else 0);
    if preview then o.dataHeader.dataSize else SumOfSizes(o, ResHeader(f), 0)
  }

  // ---------- Sending it ----------

  datatype Sending = Sending(outcome: Outcome, sent: bytes, counted: nat)

  /** What goes out: the object unless previewing, data from the offset, the resource fork. */
  function Sent(f: ServedFile, resume: Option<u32>, preview: bool): Sending {
    if InfoOf(f).OutOfRange? then Sending(Panicked, [], 0) else
      var offset := if resume.Some? then resume.value else 0;
      var head := if preview then [] else EncodeFfo(Flattened(f, 0));
      if f.data.None? || offset > |f.data.value| then Sending(Failed, head, 0) else
        var body, rsrc := f.data.value[offset..], OrEmpty(f.rsrc);
        var macr := if resume.None? then EncodeFork(ResHeader(f)) else [];
        Sending(Done, head + body + macr + rsrc, |body| + |rsrc|)
  }

  /** The offset of a transfer; the fork list of its resume data may not be empty. */
  function ResumeFrom(resume: Option<FileResumeData>): Option<u32>
    requires resume.Some? ==> resume.value.forkInfoList != []
  {
    if resume.None? then None else Some(U32(resume.value.forkInfoList[0].dataSize))
  }

  function Downloaded(f: ServedFile, resume: Option<FileResumeData>, preview: bool, fault: bool): Sending {
    if resume.Some? && resume.value.forkInfoList == [] then Sending(Panicked, [], 0)
    else if fault then Sending(Failed, [], 0)
    else Sent(f, ResumeFrom(resume), preview)
  }

  /** fault says whether a file could not be looked at. */
  method DownloadHandler(
    w: Sink, f: ServedFile, resume: Option<FileResumeData>, preview: bool, counter: WriteCounter, fault: bool)
    returns (outcome: Outcome)
    requires w.Valid() && w.pos == |w.contents|
    modifies w, counter
    ensures var s := Downloaded(f, resume, preview, fault);
            && outcome == s.outcome
            && w.contents == old(w.contents) + s.sent
            && counter.Total == old(counter.Total) + s.counted
  {
    ghost var before := w.contents;
    var dataOffset := 0;
    if resume.Some? {
      if |resume.value.forkInfoList| == 0 {
        return Panicked;
      }
      dataOffset := U32(resume.value.forkInfoList[0].dataSize);
    }
    var hlFile := new File(f);
    var looked := hlFile.Flatten(0, fault);
    if !looked.Done? {
      return looked;
    }
    ghost var head := [];
    if !preview {
      var b := Drain(EncodeFfo(hlFile.Ffo), 0);
      Send(w, b);
      head := b;
    }
    if f.data.None? || dataOffset > |f.data.value| {
      return Failed;
    }
    ghost var macr := if resume.None? then EncodeFork(ResHeader(f)) else [];
    SendForks(w, f.data.value[dataOffset..], resume.None?, hlFile.FlatFileResForkHeader, OrEmpty(f.rsrc), counter);
    Joined(before, head, f.data.value[dataOffset..], macr, OrEmpty(f.rsrc));
    return Done;
  }

  /** The data fork, the header of the resource fork when starting, and the resource fork. */
  method SendForks(
    w: Sink, body: bytes, withHeader: bool, resHeader: ForkHeader, rsrc: bytes, counter: WriteCounter)
    requires w.Valid() && w.pos == |w.contents|
    modifies w, counter
    ensures w.contents == old(w.contents) + body + (if withHeader then EncodeFork(resHeader) else []) + rsrc
    ensures counter.Total == old(counter.Total) + |body| + |rsrc|
  {
    var n := counter.Write(body);
    Send(w, body);
    if withHeader {
      Send(w, EncodeFork(resHeader));
    }
    n := counter.Write(rsrc);
    Send(w, rsrc);
  }

  /** Writing to a connection. */
  method Send(w: Sink, b: bytes)
    requires w.Valid() && w.pos == |w.contents|
    modifies w
    ensures w.Valid() && w.pos == |w.contents| && w.contents == old(w.contents) + b
  {
    AppendedOrNew(w.contents, b);
    w.Write(b);
  }

  lemma Joined(before: bytes, head: bytes, body: bytes, macr: bytes, rsrc: bytes)
    ensures before + (head + body + macr + rsrc) == before + head + body + macr + rsrc
    ensures before + [] == before && before + head + body + [] == before + head + body
  {
  }

  lemma FlattenedLength(o: Ffo)
    ensures |EncodeFfo(o)| == 130 + |o.info.name| + |o.info.comment|
  {
  }

  /**
   Announced against sent, in the 32 bits of the announcement: the same when resuming, 16 bytes more
   (the resource fork header) when starting. A preview announces its data and sends the rest besides.
   The counter rises by the bytes of the two forks.
   */
  lemma SizesAgree(f: ServedFile, resume: Option<u32>, preview: bool)
    requires Sent(f, resume, preview).outcome.Done?
    ensures var s, size, offset := Sent(f, resume, preview), U32(Announced(f, resume, preview)),
                                   if resume.Some? then resume.value else 0;
            && (!preview && resume.Some? ==> size == |s.sent| % TWO32)
            && (!preview && resume.None? ==> size == (|s.sent| - 16) % TWO32)
            && (preview ==> size == (|f.data.value| - offset) % TWO32
                            && |s.sent| == |f.data.value| - offset + |OrEmpty(f.rsrc)|
                                           + if resume.None? then 16 else 0)
            && s.counted == |f.data.value| - offset + |OrEmpty(f.rsrc)|
  {
    var offset := if resume.Some? then resume.value else 0;
    DataHeaderSize(f, offset);
    if !preview {
      AnnouncedSum(f, offset);
    }
  }

  /** The announced sum is that of the data left, the resource fork and the object, in 32 bits. */
  lemma AnnouncedSum(f: ServedFile, offset: nat)
    requires InfoOf(f).InfoRead? && f.data.Some? && offset <= |f.data.value|
    ensures U32(SumOfSizes(Flattened(f, offset), ResHeader(f), 0)) ==
            (|f.data.value| - offset + |OrEmpty(f.rsrc)| + |EncodeFfo(Flattened(f, 0))|) % TWO32
  {
    var o, k := Flattened(f, offset), |f.data.value| - offset;
    FlattenedLength(Flattened(f, 0));
    FlattenedLength(o);
    var d: nat, r: nat, e := U32(o.dataHeader.dataSize), U32(ResHeader(f).dataSize), |EncodeFfo(o)|;
    ResHeaderSize(f);
    DataHeaderSize(f, offset);
    SumsAgree(k, |OrEmpty(f.rsrc)|, e);
    SumValue(o, ResHeader(f));
  }

  lemma SumValue(o: Ffo, res: ForkHeader)
    ensures var d: nat, r: nat := U32(o.dataHeader.dataSize), U32(res.dataSize);
            U32(SumOfSizes(o, res, 0)) == (d + r + |EncodeFfo(o)|) % TWO32
  {
    var d: nat, r: nat, e := U32(o.dataHeader.dataSize), U32(res.dataSize), |EncodeFfo(o)|;
    LowBitsKept(d + r + e);
  }

  lemma LowBitsKept(n: nat)
    ensures U32(PutU32(n % TWO32)) == n % TWO32
  {
  }

  lemma DataHeaderSize(f: ServedFile, offset: nat)
    requires f.data.Some? && offset <= |f.data.value|
    ensures U32(DataSize(f, offset)) == (|f.data.value| - offset) % TWO32
  {
    LowBitsKept(|f.data.value| - offset);
  }

  lemma ResHeaderSize(f: ServedFile)
    ensures U32(ResHeader(f).dataSize) == |OrEmpty(f.rsrc)| % TWO32
  {
    assert U32(Zeros(4)) == 0;
  }

  lemma SumsAgree(data: nat, rsrc: nat, head: nat)
    ensures (data % TWO32 + rsrc % TWO32 + head) % TWO32 == (data + rsrc + head) % TWO32
  {
    ModAway(data, rsrc % TWO32 + head);
    ModAway(rsrc, data + head);
  }

  lemma ModAway(a: nat, b: nat)
    ensures (a % TWO32 + b) % TWO32 == (a + b) % TWO32
  {
    var q, r := a / TWO32, a % TWO32;
    assert a + b == TWO32 * q + (r + b);
    var q', r' := (r + b) / TWO32, (r + b) % TWO32;
    assert a + b == TWO32 * (q + q') + r';
  }

  /** What a client sends along that wants to go on from n, or to start. */
  function ResumeRequest(from: Option<nat>): Option<bytes> {
    if from.None? then None else Some(Marshaled(NewFileResumeData([NewForkInfoList(PutU32(from.value))])))
  }

  /** Where the request is read to go on from. */
  function AskedFrom(from: Option<nat>): (n: u32)
    ensures from.Some? && from.value < TWO32 ==> n == from.value
  {
    if from.None? then 0 else from.value % TWO32
  }

  /**
   From the client's request to the bytes it is sent: the object unless previewing, and then, if the request is to go on
   from within the file, the data from there on, the resource fork's header when starting, and the resource fork. The
   counter rises by the two forks; the size announced for it is the number of bytes sent when resuming and 16 less when
   starting, and a preview announces its data.
   */
  lemma RequestIsSent(f: ServedFile, from: Option<nat>, preview: bool)
    requires InfoOf(f).InfoRead?
    ensures var a, n := AnnouncementFor(f, ResumeRequest(from), preview, false), AskedFrom(from);
            a.Announcement? &&
            var s, head := Downloaded(f, a.resume, preview, false), if preview then [] else EncodeFfo(Flattened(f, 0));
            if f.data.None? || n > |f.data.value| then s == Sending(Failed, head, 0) else
              var tail := f.data.value[n..];
              && s.outcome.Done? && s.counted == |tail| + |OrEmpty(f.rsrc)|
              && s.sent == head + tail + (if from.None? then EncodeFork(ResHeader(f)) else []) + OrEmpty(f.rsrc)
              && U32(a.xferSize) == (if preview then |tail| else |s.sent| - if from.None? then 16 else 0) % TWO32
  {
    RequestIsRead(f, from, preview);
    var offset: Option<u32> := if from.None? then None else Some(AskedFrom(from));
    if f.data.Some? && AskedFrom(from) <= |f.data.value| {
      var s := Sent(f, offset, preview);
      AnnouncedLength(f, offset, preview, if preview then |f.data.value[AskedFrom(from)..]|
                                          else |s.sent| - if from.None? then 16 else 0);
    }
  }

  lemma AnnouncedLength(f: ServedFile, resume: Option<u32>, preview: bool, n: int)
    requires Sent(f, resume, preview).outcome.Done?
    requires n == if preview then |f.data.value| - (if resume.Some? then resume.value else 0)
                  else |Sent(f, resume, preview).sent| - if resume.None? then 16 else 0
    ensures U32(Announced(f, resume, preview)) == n % TWO32
  {
    SizesAgree(f, resume, preview);
  }

  lemma RequestIsRead(f: ServedFile, from: Option<nat>, preview: bool)
    requires InfoOf(f).InfoRead?
    ensures var a := AnnouncementFor(f, ResumeRequest(from), preview, false);
            var offset: Option<u32> := if from.None? then None else Some(AskedFrom(from));
            && a.Announcement? && a.xferSize == Announced(f, offset, preview)
            && Downloaded(f, a.resume, preview, false) == Sent(f, offset, preview)
  {
    if from.Some? {
      OffsetRead(from.value);
      ResumeDataRoundTrip([NewForkInfoList(PutU32(from.value))]);
    }
  }

  /** Sizes that fit their 32 bits. */
  predicate FitsHeaders(f: ServedFile) {
    f.data.Some? && |f.data.value| < TWO32 && |OrEmpty(f.rsrc)| < TWO32
  }

  /**
   A fresh download, received: the data and the information fork are reproduced; with three forks so
   is the resource fork, with two its header and bytes are left unread.
   */
  lemma DownloadReceived(f: ServedFile)
    requires FitsHeaders(f) && InfoOf(f).InfoRead? && |InfoOf(f).f.name| <= MAX_NAME
    ensures var rc := Received(Sent(f, None, false).sent);
            && rc.outcome.Done? && rc.data == f.data.value && rc.info == EncodeInfo(InfoOf(f).f)
            && (f.info.Some? ==> rc.rsrc == OrEmpty(f.rsrc) && rc.rest == [])
            && (f.info.None? ==> rc.rsrc == [] && rc.rest == EncodeFork(ResHeader(f)) + OrEmpty(f.rsrc))
  {
    var o, data, rsrc := Flattened(f, 0), f.data.value, OrEmpty(f.rsrc);
    var more := data + (EncodeFork(ResHeader(f)) + rsrc);
    SentWhole(f);
    InfoIsSized(f);
    FfoRoundTrip(o, more);
    var o' := Ffo(o.header, InfoHeaderFor(o.info), o.info.(nameSize := PutU16(|o.info.name|)), o.dataHeader);
    NameSizeNotSent(o.info, PutU16(|o.info.name|));
    BothForks(f, o');
  }

  /** Whether it was read or made up, an information fork announces its comment. */
  lemma InfoIsSized(f: ServedFile)
    requires InfoOf(f).InfoRead?
    ensures CommentSized(InfoOf(f).f)
  {
    assert U16(Zeros(2)) == 0;
    if f.info.Some? && f.info.value != [] {
      var b := f.info.value;
      ReadForksAreSized(b + Zeros(SpareCapacity(|b|)), |b|);
    }
  }

  lemma SentWhole(f: ServedFile)
    requires f.data.Some? && InfoOf(f).InfoRead?
    ensures Sent(f, None, false).sent ==
            EncodeFfo(Flattened(f, 0)) + (f.data.value + (EncodeFork(ResHeader(f)) + OrEmpty(f.rsrc)))
  {
    assert f.data.value[0..] == f.data.value;
    Joined(EncodeFfo(Flattened(f, 0)), f.data.value, EncodeFork(ResHeader(f)), OrEmpty(f.rsrc), []);
  }

  lemma BothForks(f: ServedFile, o: Ffo)
    requires FitsHeaders(f)
    requires o.dataHeader.dataSize == DataSize(f, 0)
    requires o.header.forkCount == if f.info.Some? then THREE_FORKS else [0, 2]
    ensures var data, rsrc, macr := f.data.value, OrEmpty(f.rsrc), EncodeFork(ResHeader(f));
            ReceivedForks(o, data + (macr + rsrc)) ==
            if f.info.Some? then Receipt(Done, EncodeInfo(o.info), data, rsrc, [])
            else Receipt(Done, EncodeInfo(o.info), data, [], macr + rsrc)
  {
    DataHeaderSize(f, 0);
    ForkRoundTrip(ResHeader(f));
    ResHeaderSize(f);
    ForksOf(o, f.data.value, EncodeFork(ResHeader(f)), OrEmpty(f.rsrc));
  }

  lemma ForksOf(o: Ffo, data: bytes, macr: bytes, rsrc: bytes)
    requires U32(o.dataHeader.dataSize) == |data|
    requires |macr| == 16 && U32(DecodeFork(macr).dataSize) == |rsrc|
    ensures ReceivedForks(o, data + (macr + rsrc)) ==
            if o.header.forkCount == THREE_FORKS then Receipt(Done, EncodeInfo(o.info), data, rsrc, [])
            else Receipt(Done, EncodeInfo(o.info), data, [], macr + rsrc)
  {
    var s2, n := macr + rsrc, |data|;
    var s1 := data + s2;
    assert s1[..n] == data && s1[n..] == s2;
    assert s2[..16] == macr && s2[16..] == rsrc && rsrc[..|rsrc|] == rsrc && rsrc[|rsrc|..] == [];
  }

  /** Of a file without a sidecar a downloader learns the name, types and date it has on the server. */
  lemma MadeUpInfoArrives(f: ServedFile)
    requires FitsHeaders(f) && f.info.None? && |f.name| <= MAX_NAME
    ensures var r := InfoIn(Received(Downloaded(f, None, false, false).sent).info);
            && r.InfoRead? && r.f.name == f.name && r.f.comment == [] && r.f.platform == AMAC
            && r.f.typeSignature == f.typeCode && r.f.creatorSignature == f.creatorCode
            && r.f.createDate == f.mTime == r.f.modifyDate
  {
    DownloadReceived(f);
    InfoIsSized(f);
    InfoRoundTrip(DefaultInfo(f));
  }

  lemma ResumedSent(f: ServedFile, offset: u32)
    requires InfoOf(f).InfoRead? && f.data.Some? && offset <= |f.data.value|
    ensures Sent(f, Some(offset), false).sent ==
            EncodeFfo(Flattened(f, 0)) + (f.data.value[offset..] + OrEmpty(f.rsrc))
  {
    Joined(EncodeFfo(Flattened(f, 0)), f.data.value[offset..], [], OrEmpty(f.rsrc), []);
    assert f.data.value[offset..] + [] == f.data.value[offset..];
  }

  /** What follows the header of a file is received as its forks. */
  lemma HeaderReceived(f: ServedFile, more: bytes) returns (o: Ffo)
    requires InfoOf(f).InfoRead? && |InfoOf(f).f.name| <= MAX_NAME
    ensures Received(EncodeFfo(Flattened(f, 0)) + more) == ReceivedForks(o, more)
    ensures EncodeInfo(o.info) == EncodeInfo(InfoOf(f).f) && o.dataHeader == Flattened(f, 0).dataHeader
  {
    var sent := Flattened(f, 0);
    InfoIsSized(f);
    FfoRoundTrip(sent, more);
    o := Ffo(sent.header, InfoHeaderFor(sent.info), sent.info.(nameSize := PutU16(|sent.info.name|)), sent.dataHeader);
    NameSizeNotSent(sent.info, PutU16(|sent.info.name|));
  }

  /** At most n bytes of the second part. */
  function UpTo(b: bytes, n: nat): bytes {
    if |b| < n then b else b[..n]
  }

  /** A data fork announced longer than it is takes in what follows. */
  lemma ForkTakesMore(o: Ffo, tail: bytes, rsrc: bytes, missing: nat)
    requires U32(o.dataHeader.dataSize) == |tail| + missing
    ensures var rc := ReceivedForks(o, tail + rsrc);
            && rc.info == EncodeInfo(o.info) && !rc.outcome.Panicked? && rc.data == tail + UpTo(rsrc, missing)
            && (|rsrc| < missing ==> rc.outcome.Failed?)
  {
    if |rsrc| >= missing {
      assert (tail + rsrc)[..|tail| + missing] == tail + rsrc[..missing];
    }
  }

  /** The tail of a file that a resumed download sends behind the header of the whole file. */
  lemma ResumedReceived(f: ServedFile, offset: u32)
    requires FitsHeaders(f) && InfoOf(f).InfoRead? && |InfoOf(f).f.name| <= MAX_NAME && offset <= |f.data.value|
    ensures var rc := Received(Sent(f, Some(offset), false).sent);
            && rc.info == EncodeInfo(InfoOf(f).f) && !rc.outcome.Panicked?
            && rc.data == f.data.value[offset..] + UpTo(OrEmpty(f.rsrc), offset)
            && (|OrEmpty(f.rsrc)| < offset ==> rc.outcome.Failed?)
  {
    var tail, rsrc, s := f.data.value[offset..], OrEmpty(f.rsrc), Sent(f, Some(offset), false).sent;
    var more, rc := tail + rsrc, Received(s);
    var o := HeaderReceived(f, more);
    assert rc == ReceivedForks(o, more) by { ResumedSent(f, offset); }
    assert U32(o.dataHeader.dataSize) == |tail| + offset by { WholeSizeAnnounced(f); }
    ForkTakesMore(o, tail, rsrc, offset);
  }

  lemma WholeSizeAnnounced(f: ServedFile)
    requires FitsHeaders(f) && InfoOf(f).InfoRead?
    ensures U32(Flattened(f, 0).dataHeader.dataSize) == |f.data.value|
  {
    DataHeaderSize(f, 0);
  }

  /**
   So a client that puts what it receives behind what it has ends up with the file exactly when there was nothing to
   skip or there is no resource fork: the receiver takes as much as the whole file is long.
   */
  lemma ResumedJoins(f: ServedFile, offset: u32)
    requires FitsHeaders(f) && InfoOf(f).InfoRead? && |InfoOf(f).f.name| <= MAX_NAME && offset <= |f.data.value|
    ensures f.data.value[..offset] + Received(Sent(f, Some(offset), false).sent).data == f.data.value <==>
            offset == 0 || OrEmpty(f.rsrc) == []
  {
    ResumedReceived(f, offset);
    TailJoined(f.data.value, offset, Received(Sent(f, Some(offset), false).sent).data, UpTo(OrEmpty(f.rsrc), offset));
  }

  lemma TailJoined(data: bytes, offset: nat, got: bytes, extra: bytes)
    requires offset <= |data| && got == data[offset..] + extra
    ensures data[..offset] + got == data <==> extra == []
  {
    assert |data[..offset] + got| == |data| + |extra|;
  }

  /** Uploading where there is nothing: what is received is what there is then. */
  lemma FreshUpload(s: bytes, rc: Receipt)
    requires rc == Received(s) && rc.outcome.Done?
    ensures Uploaded(Files(None, None, None, None), s, true, NoFault) ==
            UploadResult(Done, Files(Some(rc.data), None, Some(rc.info), Some(rc.rsrc)))
  {
    assert [] + rc.data == rc.data && Overwrite([], 0, rc.rsrc) == rc.rsrc;
  }

  /** Downloaded from one server and uploaded to another, a file with a sidecar arrives whole. */
  lemma DownloadedThenUploaded(f: ServedFile)
    requires FitsHeaders(f) && InfoOf(f).InfoRead? && |InfoOf(f).f.name| <= MAX_NAME
    ensures var rsrc := if f.info.Some? then OrEmpty(f.rsrc) else [];
            Uploaded(Files(None, None, None, None), Sent(f, None, false).sent, true, NoFault) ==
            UploadResult(Done, Files(f.data, None, Some(EncodeInfo(InfoOf(f).f)), Some(rsrc)))
  {
    var s := Sent(f, None, false).sent;
    var rc := Received(s);
    DownloadReceived(f);
    FreshUpload(s, rc);
  }
}
