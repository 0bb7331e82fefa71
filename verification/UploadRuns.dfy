/** Uploading one file in any number of attempts, each cut anywhere and resumed where the server says. */
module UploadRuns {
  import opened Bytes
  import opened FlatFile
  import opened Uploads
  import ResumeData

  /** The file a client has. */
  datatype Source = Source(info: InfoFork, data: bytes, rsrc: bytes, threeForks: bool)

  predicate ValidSource(src: Source) {
    SendableInfo(src.info) && |src.data| < TWO32 && |src.rsrc| < TWO32
  }

  function ObjectFrom(src: Source, offset: nat): Ffo
    requires offset <= |src.data|
  {
    Ffo(FlatFileHeader(FILP, [0, 1], Zeros(16), if src.threeForks then THREE_FORKS else [0, 2]),
        InfoHeaderFor(src.info), src.info, ForkHeader(DATA, Zeros(4), Zeros(4), PutU32(|src.data| - offset)))
  }

  /** The resource fork and its header, when the client sends one. */
  function Tail(src: Source): bytes {
    if src.threeForks then EncodeFork(ForkHeader(MACR, Zeros(4), Zeros(4), PutU32(|src.rsrc|))) + src.rsrc else []
  }

  /** What the client sends to upload from an offset. */
  function ClientStream(src: Source, offset: nat): bytes
    requires offset <= |src.data|
  {
    EncodeFfo(ObjectFrom(src, offset)) + (src.data[offset..] + Tail(src))
  }

  function Cut(s: bytes, n: nat): bytes {
    if n < |s| then s[..n] else s
  }

  lemma ParseFfoPrefix(s: bytes, n: nat)
    requires ParseFfo(s).FfoRead? && n <= |s|
    ensures var head := |s| - |ParseFfo(s).rest|;
            head <= |s| && ParseFfo(s).rest == s[head..] &&
            ParseFfo(s[..n]) == if n < head then Short else FfoRead(ParseFfo(s).o, s[head..n])
  {
    var p := s[..n];
    if n >= 40 {
      SameSlice(p, s, 0, 24);
      SameSlice(p, s, 24, 40);
      var dataLen: nat := U32(DecodeFork(s[24..40]).dataSize);
      if n >= 40 + dataLen {
        SameSlice(p, s, 40, 40 + dataLen);
      }
      if n >= 56 + dataLen {
        SameSlice(p, s, 40 + dataLen, 56 + dataLen);
        SameSlice(p, s, 56 + dataLen, n);
      }
    }
  }

  /** What has come of a file from offset on is right, and all of it when the stream was whole. */
  predicate RightReceipt(src: Source, offset: nat, rc: Receipt, whole: bool)
    requires offset <= |src.data|
  {
    && (rc.outcome.Done? <==> whole) && !rc.outcome.Panicked?
    && rc.data <= src.data[offset..] && rc.rsrc <= src.rsrc
    && (rc.info == [] || rc.info == EncodeInfo(src.info))
    && (whole ==> rc.data == src.data[offset..] && rc.info == EncodeInfo(src.info) && rc.rest == [])
    && (whole && src.threeForks ==> rc.rsrc == src.rsrc)
  }

  lemma ClientStreamParsed(src: Source, offset: nat)
    requires ValidSource(src) && offset <= |src.data|
    ensures var r := ParseFfo(ClientStream(src, offset));
            && r.FfoRead? && r.rest == src.data[offset..] + Tail(src)
            && r.o.header == ObjectFrom(src, offset).header && r.o.dataHeader == ObjectFrom(src, offset).dataHeader
            && EncodeInfo(r.o.info) == EncodeInfo(src.info)
  {
    FfoRoundTrip(ObjectFrom(src, offset), src.data[offset..] + Tail(src));
    NameSizeNotSent(src.info, PutU16(|src.info.name|));
  }

  lemma NothingReceived(src: Source, offset: nat)
    requires offset <= |src.data|
    ensures RightReceipt(src, offset, Receipt(Failed, [], [], [], []), false)
  {
  }

  /** Receiving a prefix: nothing while the flattened file object is incomplete, then the forks as far as they come. */
  lemma PrefixReceived(s: bytes, k: nat, o: Ffo, more: bytes, head: nat)
    requires ParseFfo(s) == FfoRead(o, more) && k <= |s| && head + |more| == |s|
    ensures Received(s[..k]) == if k < head then Receipt(Failed, [], [], [], []) else ReceivedForks(o, more[..k - head])
  {
    var p := ParseFfo(s[..k]);
    assert p == if k < head then Short else FfoRead(o, s[head..k]) by { ParseFfoPrefix(s, k); }
    if k >= head {
      assert s[head..k] == more[..k - head] by { ParseFfoPrefix(s, k); }
    }
  }

  /** The forks of a stream cut k bytes after the flattened file object. */
  lemma ForksReceived(src: Source, offset: nat, k: nat, o: Ffo, more: bytes, rc: Receipt, whole: bool)
    requires ValidSource(src) && offset <= |src.data|
    requires more == src.data[offset..] + Tail(src) && k <= |more|
    requires o.header == ObjectFrom(src, offset).header && o.dataHeader == ObjectFrom(src, offset).dataHeader
    requires EncodeInfo(o.info) == EncodeInfo(src.info)
    requires rc == ReceivedForks(o, more[..k]) && whole == (k == |more|)
    ensures RightReceipt(src, offset, rc, whole)
  {
    AfterTheHead(src, offset, k);
    var n := |src.data| - offset;
    if src.threeForks && k >= n + 16 {
      InTheTail(src, k - n);
    }
  }

  /** A client's stream cut after n bytes: what is received of it. */
  lemma ReceivedCut(src: Source, offset: nat, n: nat, s: bytes) returns (head: nat, k: nat, o: Ffo, more: bytes)
    requires ValidSource(src) && offset <= |src.data| && s == ClientStream(src, offset)
    ensures more == src.data[offset..] + Tail(src) && k <= head + |more| == |s| && (k == |s| <==> n >= |s|)
    ensures k == (if n < |s| then n else |s|) && head == |EncodeFfo(ObjectFrom(src, offset))|
    ensures o.header == ObjectFrom(src, offset).header && o.dataHeader == ObjectFrom(src, offset).dataHeader
    ensures EncodeInfo(o.info) == EncodeInfo(src.info)
    ensures Received(Cut(s, n)) ==
            if k < head then Receipt(Failed, [], [], [], []) else ReceivedForks(o, more[..k - head])
  {
    k := if n < |s| then n else |s|;
    assert Cut(s, n) == s[..k];
    ClientStreamParsed(src, offset);
    ParseFfoPrefix(s, k);
    o, more := ParseFfo(s).o, ParseFfo(s).rest;
    head := |s| - |more|;
    PrefixReceived(s, k, o, more, head);
  }

  lemma CutForks(src: Source, offset: nat, head: nat, k: nat, o: Ffo, more: bytes, rc: Receipt, whole: bool)
    requires ValidSource(src) && offset <= |src.data|
    requires more == src.data[offset..] + Tail(src) && k <= head + |more|
    requires o.header == ObjectFrom(src, offset).header && o.dataHeader == ObjectFrom(src, offset).dataHeader
    requires EncodeInfo(o.info) == EncodeInfo(src.info)
    requires rc == if k < head then Receipt(Failed, [], [], [], []) else ReceivedForks(o, more[..k - head])
    requires whole <==> k == head + |more| && k >= head
    ensures RightReceipt(src, offset, rc, whole)
  {
    if k < head {
      NothingReceived(src, offset);
    } else {
      ForksReceived(src, offset, k - head, o, more, rc, whole);
    }
  }

  /** Receiving a client's stream, whole or cut: never a panic, always the right bytes. */
  lemma CutStreamReceived(src: Source, offset: nat, n: nat)
    requires ValidSource(src) && offset <= |src.data|
    ensures RightReceipt(src, offset, Received(Cut(ClientStream(src, offset), n)), n >= |ClientStream(src, offset)|)
  {
    var s := ClientStream(src, offset);
    var head, k, o, more := ReceivedCut(src, offset, n, s);
    CutForks(src, offset, head, k, o, more, Received(Cut(s, n)), n >= |s|);
  }

  /** How much of a part of that length arrives that starts behind so many bytes of a stream cut after n. */
  function Arrived(n: nat, behind: nat, length: nat): (k: nat)
    ensures k <= length
  {
    if n < behind then 0 else if n - behind < length then n - behind else length
  }

  lemma ArrivedBehind(n: nat, head: nat, total: nat, behind: nat, length: nat)
    requires behind + length <= total
    ensures var k := if n < head + total then n else head + total;
            Arrived(n, head + behind, length) == if k < head then 0 else Arrived(k - head, behind, length)
  {
  }

  /** The forks as far as they come in n bytes of a stream whose flattened file object ends at head. */
  predicate KeptUpTo(src: Source, offset: nat, rc: Receipt, n: nat, head: nat)
    requires offset <= |src.data|
  {
    var left := |src.data| - offset;
    && rc.info == (if n < head then [] else EncodeInfo(src.info))
    && rc.data == src.data[offset..][..Arrived(n, head, left)]
    && rc.rsrc == if src.threeForks then src.rsrc[..Arrived(n, head + left + 16, |src.rsrc|)] else []
  }

  /**
   Of a stream cut anywhere every byte of the forks that has arrived is kept, and the information fork with the
   flattened file object.
   */
  lemma CutStreamKept(src: Source, offset: nat, n: nat)
    requires ValidSource(src) && offset <= |src.data|
    ensures KeptUpTo(src, offset, Received(Cut(ClientStream(src, offset), n)), n, |EncodeFfo(ObjectFrom(src, offset))|)
  {
    var s := ClientStream(src, offset);
    var head, k, o, more := ReceivedCut(src, offset, n, s);
    KeptBehind(src, offset, n, head, k, o, more, Received(Cut(s, n)));
  }

  lemma KeptBehind(src: Source, offset: nat, n: nat, head: nat, k: nat, o: Ffo, more: bytes, rc: Receipt)
    requires ValidSource(src) && offset <= |src.data|
    requires more == src.data[offset..] + Tail(src) && k == if n < head + |more| then n else head + |more|
    requires o.header == ObjectFrom(src, offset).header && o.dataHeader == ObjectFrom(src, offset).dataHeader
    requires EncodeInfo(o.info) == EncodeInfo(src.info)
    requires rc == if k < head then Receipt(Failed, [], [], [], []) else ReceivedForks(o, more[..k - head])
    ensures KeptUpTo(src, offset, rc, n, head)
  {
    var left := |src.data| - offset;
    ArrivedBehind(n, head, |more|, 0, left);
    if src.threeForks {
      TailLength(src);
      ArrivedBehind(n, head, |more|, left + 16, |src.rsrc|);
    }
    if k >= head {
      assert KeptUpTo(src, offset, rc, k - head, 0) by { ForksKept(src, offset, k - head, o, more, rc); }
    } else {
      assert src.data[offset..][..0] == [] && src.rsrc[..0] == [];
    }
  }

  lemma TailLength(src: Source)
    requires src.threeForks
    ensures |Tail(src)| == 16 + |src.rsrc|
  {
  }

  lemma ForksKept(src: Source, offset: nat, k: nat, o: Ffo, more: bytes, rc: Receipt)
    requires ValidSource(src) && offset <= |src.data|
    requires more == src.data[offset..] + Tail(src) && k <= |more|
    requires o.header == ObjectFrom(src, offset).header && o.dataHeader == ObjectFrom(src, offset).dataHeader
    requires EncodeInfo(o.info) == EncodeInfo(src.info)
    requires rc == ReceivedForks(o, more[..k])
    ensures KeptUpTo(src, offset, rc, k, 0)
  {
    AfterTheHead(src, offset, k);
    var n := |src.data| - offset;
    if src.threeForks && k >= n + 16 {
      InTheTail(src, k - n);
    }
  }

  /** The part of a stream after the flattened file object, cut after k bytes. */
  lemma AfterTheHead(src: Source, offset: nat, k: nat)
    requires ValidSource(src) && offset <= |src.data|
    requires k <= |src.data[offset..] + Tail(src)|
    ensures var n, s1 := |src.data| - offset, (src.data[offset..] + Tail(src))[..k];
            && U32(ObjectFrom(src, offset).dataHeader.dataSize) == n
            && (k < n ==> s1 <= src.data[offset..])
            && (k >= n ==> s1[..n] == src.data[offset..] && s1[n..] == Tail(src)[..k - n])
  {
    CutConcat(src.data[offset..], Tail(src), k);
  }

  lemma CutConcat(a: bytes, b: bytes, k: nat)
    requires k <= |a + b|
    ensures var s := (a + b)[..k];
            if k < |a| then s <= a else s[..|a|] == a && s[|a|..] == b[..k - |a|]
  {
  }

  /** The resource fork in a tail cut after k bytes. */
  lemma InTheTail(src: Source, k: nat)
    requires ValidSource(src) && src.threeForks && 16 <= k <= |Tail(src)|
    ensures |Tail(src)| == 16 + |src.rsrc|
    ensures var s2 := Tail(src)[..k];
            U32(DecodeFork(s2[..16]).dataSize) == |src.rsrc| && s2[16..] == src.rsrc[..k - 16]
  {
    var h := ForkHeader(MACR, Zeros(4), Zeros(4), PutU32(|src.rsrc|));
    ForkRoundTrip(h);
    CutBehind(EncodeFork(h), src.rsrc, k);
  }

  lemma CutBehind(a: bytes, b: bytes, k: nat)
    requires |a| <= k <= |a + b|
    ensures (a + b)[..k][..|a|] == a && (a + b)[..k][|a|..] == b[..k - |a|]
  {
  }

  // ---------- Attempts ----------

  datatype Offer = Conflict | NoReply | Accepted(resume: Option<bytes>)

  /** HandleUploadFile: what the server answers to a request to upload, or to resume. */
  function OfferFor(files: Files, resume: bool): Offer {
    if files.final.Some? then Conflict
    else if !resume then Accepted(None)
    else if files.incomplete.None? then NoReply
    else
      var offset := PutU32(|files.incomplete.value|);
      Accepted(Some(ResumeData.Marshaled(ResumeData.NewFileResumeData([ResumeData.NewForkInfoList(offset)]))))
  }

  /** The offset a client takes from the answer. */
  function OffsetOf(resume: Option<bytes>): nat
    requires resume.Some? ==>
      ResumeData.LongEnough(resume.value) && |ResumeData.Unmarshaled(resume.value).forkInfoList| > 0
  {
    if resume.None? then 0 else U32(ResumeData.Unmarshaled(resume.value).forkInfoList[0].dataSize)
  }

  lemma OfferedOffset(files: Files)
    requires files.final.None? && files.incomplete.Some? && |files.incomplete.value| < TWO32
    ensures var offer := OfferFor(files, true);
            && offer.Accepted? && offer.resume.Some? && ResumeData.LongEnough(offer.resume.value)
            && |ResumeData.Unmarshaled(offer.resume.value).forkInfoList| > 0
            && OffsetOf(offer.resume) == |files.incomplete.value|
  {
    ResumeData.ResumeDataRoundTrip([ResumeData.NewForkInfoList(PutU32(|files.incomplete.value|))]);
  }

  /**
   A request is accepted unless the file is finished, and one to resume only if there is part of the file; it then
   offers the size of that part, in 32 bits, and one to start offers nothing to go on from.
   */
  lemma OfferAnswers(files: Files, resume: bool)
    ensures var offer := OfferFor(files, resume);
            && (offer.Conflict? <==> files.final.Some?)
            && (offer.Accepted? <==> files.final.None? && (resume ==> files.incomplete.Some?))
            && (offer.Accepted? && !resume ==> offer.resume.None?)
            && (offer.Accepted? && resume ==>
                  && offer.resume.Some? && ResumeData.LongEnough(offer.resume.value)
                  && |ResumeData.Unmarshaled(offer.resume.value).forkInfoList| == 1
                  && OffsetOf(offer.resume) == |files.incomplete.value| % TWO32)
  {
    if files.final.None? && files.incomplete.Some? {
      ResumeData.ResumeDataRoundTrip([ResumeData.NewForkInfoList(PutU32(|files.incomplete.value|))]);
    }
  }

  /** cut is the number of bytes that arrive. */
  datatype Attempt = Attempt(cut: nat, fault: Fault)

  /** Everything the server has of the file is right. */
  ghost predicate Consistent(src: Source, files: Files, preserveForks: bool) {
    && (files.final.None? ==> OrEmpty(files.incomplete) <= src.data)
    && (files.final.Some? ==> files.final.value == src.data && files.incomplete.None?)
    && OrEmpty(files.rsrc) <= src.rsrc
    && (OrEmpty(files.info) == [] || OrEmpty(files.info) == EncodeInfo(src.info))
    && (files.final.Some? && preserveForks ==>
          files.info == Some(EncodeInfo(src.info)) && (src.threeForks ==> files.rsrc == Some(src.rsrc)))
  }

  /** One attempt of a client that resumes whenever the server has part of the file. */
  ghost function AfterAttempt(src: Source, files: Files, a: Attempt, preserveForks: bool): Files
    requires ValidSource(src) && Consistent(src, files, preserveForks)
  {
    var offer := OfferFor(files, files.incomplete.Some?);
    if !offer.Accepted? then files else
      var offset := if offer.resume.None? then 0 else (OfferedOffset(files); OffsetOf(offer.resume));
      Uploaded(files, Cut(ClientStream(src, offset), a.cut), preserveForks, a.fault).files
  }

  /** Nothing goes wrong that the attempt would notice: sidecars are opened only to preserve forks. */
  predicate Clears(fault: Fault, preserveForks: bool) {
    fault.NoFault? || (!preserveForks && (fault.RsrcOpenFails? || fault.InfoOpenFails?))
  }

  /** The attempt finishes the file: all of what the client sends from where the server is arrives. */
  predicate Completes(src: Source, files: Files, a: Attempt, preserveForks: bool) {
    && files.final.None? && |OrEmpty(files.incomplete)| <= |src.data|
    && a.cut >= |ClientStream(src, |OrEmpty(files.incomplete)|)| && Clears(a.fault, preserveForks)
  }

  lemma OverwritePrefix(whole: bytes, a: bytes, b: bytes)
    requires a <= whole && b <= whole
    ensures Overwrite(a, 0, b) <= whole
    ensures b == whole ==> Overwrite(a, 0, b) == whole
  {
  }

  /**
   Every attempt keeps what the server has right and loses nothing of it, and the file appears under its final name
   exactly with an attempt that completes it.
   */
  lemma AttemptKeepsConsistent(src: Source, files: Files, a: Attempt, preserveForks: bool)
    requires ValidSource(src) && Consistent(src, files, preserveForks)
    ensures var after := AfterAttempt(src, files, a, preserveForks);
            && Consistent(src, after, preserveForks)
            && (files.final.Some? ==> after == files)
            && (after.final.Some? <==> files.final.Some? || Completes(src, files, a, preserveForks))
            && (after.final.Some? || OrEmpty(files.incomplete) <= OrEmpty(after.incomplete))
  {
    if files.final.None? {
      var offset := |OrEmpty(files.incomplete)|;
      if files.incomplete.Some? {
        OfferedOffset(files);
      }
      GoodSidecar(src, files);
      AttemptFrom(src, files, a, preserveForks, offset);
    }
  }

  lemma AttemptFrom(src: Source, files: Files, a: Attempt, preserveForks: bool, offset: nat)
    requires ValidSource(src) && Consistent(src, files, preserveForks) && files.final.None? && !BadSidecar(files)
    requires offset == |OrEmpty(files.incomplete)|
    ensures var after := Uploaded(files, Cut(ClientStream(src, offset), a.cut), preserveForks, a.fault).files;
            && Consistent(src, after, preserveForks)
            && (after.final.Some? <==> Completes(src, files, a, preserveForks))
            && (after.final.Some? || OrEmpty(files.incomplete) <= OrEmpty(after.incomplete))
  {
    var start := Started(files, preserveForks, a.fault);
    if start.Go? {
      var rc, whole := Received(Cut(ClientStream(src, offset), a.cut)), a.cut >= |ClientStream(src, offset)|;
      assert RightReceipt(src, offset, rc, whole) by { CutStreamReceived(src, offset, a.cut); }
      SettledConsistent(src, start.files, rc, whole, preserveForks, !a.fault.CloseFails? && !a.fault.RenameFails?);
    }
  }

  lemma GoodSidecar(src: Source, files: Files)
    requires SendableInfo(src.info)
    requires OrEmpty(files.info) == [] || OrEmpty(files.info) == EncodeInfo(src.info)
    ensures !BadSidecar(files)
  {
    InfoRoundTrip(src.info);
    WholeSidecar(EncodeInfo(src.info));
  }

  lemma SettledConsistent(src: Source, files: Files, rc: Receipt, whole: bool, preserveForks: bool, renames: bool)
    requires Consistent(src, files, false) && files.final.None?
    requires RightReceipt(src, |OrEmpty(files.incomplete)|, rc, whole)
    ensures var r := Settled(files, rc, preserveForks, renames);
            && Consistent(src, r.files, preserveForks)
            && (r.files.final.Some? <==> whole && renames)
            && (r.files.final.Some? || OrEmpty(files.incomplete) <= OrEmpty(r.files.incomplete))
  {
    OverwritePrefix(src.rsrc, OrEmpty(files.rsrc), rc.rsrc);
    JoinedData(src.data, OrEmpty(files.incomplete), rc.data);
  }

  lemma JoinedData(whole: bytes, a: bytes, b: bytes)
    requires a <= whole && b <= whole[|a|..]
    ensures a + b <= whole
    ensures b == whole[|a|..] ==> a + b == whole
  {
  }

  /** Nothing goes wrong before the first byte is received. */
  predicate Begins(fault: Fault, preserveForks: bool) {
    Clears(fault, preserveForks) || fault.CloseFails? || fault.RenameFails?
  }

  /** How much data an attempt brings. */
  function Brought(src: Source, offset: nat, a: Attempt, preserveForks: bool): (n: nat)
    requires offset <= |src.data|
    ensures offset + n <= |src.data|
  {
    if Begins(a.fault, preserveForks) then Arrived(a.cut, |EncodeFfo(ObjectFrom(src, offset))|, |src.data| - offset)
    else 0
  }

  /**
   An attempt from where the server is takes the file on by exactly the data that arrives, says that it is done exactly
   when it has finished the file, and leaves the sidecars alone unless it is to preserve forks.
   */
  lemma AttemptAdvances(src: Source, files: Files, a: Attempt, preserveForks: bool)
    requires ValidSource(src) && Consistent(src, files, preserveForks) && files.final.None?
    ensures var offset := |OrEmpty(files.incomplete)|;
            var r := Uploaded(files, Cut(ClientStream(src, offset), a.cut), preserveForks, a.fault);
            && (r.outcome.Done? <==> Completes(src, files, a, preserveForks))
            && (!r.outcome.Done? ==>
                  OrEmpty(r.files.incomplete) == src.data[..offset + Brought(src, offset, a, preserveForks)])
            && (!preserveForks ==> r.files.info == files.info && r.files.rsrc == files.rsrc)
  {
    var offset := |OrEmpty(files.incomplete)|;
    var s := Cut(ClientStream(src, offset), a.cut);
    assert !BadSidecar(files) by { GoodSidecar(src, files); }
    PartReceived(src, OrEmpty(files.incomplete), a.cut, offset, Received(s));
    UploadedAdvances(files, s, Received(s), preserveForks, a.fault);
  }

  /** What has come behind a part of the data that was there. */
  lemma PartReceived(src: Source, part: bytes, cut: nat, offset: nat, rc: Receipt)
    requires ValidSource(src) && part <= src.data && offset == |part|
    requires rc == Received(Cut(ClientStream(src, offset), cut))
    ensures rc.outcome.Done? <==> cut >= |ClientStream(src, offset)|
    ensures var head := |EncodeFfo(ObjectFrom(src, offset))|;
            part + rc.data == src.data[..offset + Arrived(cut, head, |src.data| - offset)]
    ensures part + [] == src.data[..offset]
  {
    CutStreamKept(src, offset, cut);
    CutStreamReceived(src, offset, cut);
    DataJoined(src.data, part, rc.data);
  }

  /** What one attempt does to the files, by what is received. */
  lemma UploadedAdvances(files: Files, s: bytes, rc: Receipt, preserveForks: bool, fault: Fault)
    requires files.final.None? && !BadSidecar(files) && rc == Received(s)
    ensures var r := Uploaded(files, s, preserveForks, fault);
            && (r.outcome.Done? <==> rc.outcome.Done? && Clears(fault, preserveForks))
            && (!r.outcome.Done? ==>
                  OrEmpty(r.files.incomplete) ==
                  OrEmpty(files.incomplete) + if Begins(fault, preserveForks) then rc.data else [])
            && (!preserveForks ==> r.files.info == files.info && r.files.rsrc == files.rsrc)
  {
    match Started(files, preserveForks, fault)
    case Stop(r) =>
      assert !Begins(fault, preserveForks);
      assert OrEmpty(files.incomplete) + [] == OrEmpty(files.incomplete);
    case Go(started) =>
      SettledAdvances(started, rc, preserveForks, !fault.CloseFails? && !fault.RenameFails?);
  }

  lemma SettledAdvances(files: Files, rc: Receipt, preserveForks: bool, renames: bool)
    ensures var r := Settled(files, rc, preserveForks, renames);
            && (r.outcome.Done? <==> rc.outcome.Done? && renames)
            && (!r.outcome.Done? ==> OrEmpty(r.files.incomplete) == OrEmpty(files.incomplete) + rc.data)
            && (!preserveForks ==> r.files.info == files.info && r.files.rsrc == files.rsrc)
  {
  }

  lemma DataJoined(whole: bytes, a: bytes, b: bytes)
    requires a <= whole && b <= whole[|a|..]
    ensures a + b == whole[..|a| + |b|] && a + [] == whole[..|a|]
  {
  }

  /** Whatever is sent for a file that is finished, it is refused and nothing changes. */
  lemma FinishedIsKept(files: Files, s: bytes, preserveForks: bool, fault: Fault)
    requires files.final.Some?
    ensures Uploaded(files, s, preserveForks, fault) == UploadResult(Failed, files)
  {
  }

  /** The states of a run of attempts. */
  ghost predicate IsRun(src: Source, run: seq<Files>, attempts: seq<Attempt>, preserveForks: bool) {
    && ValidSource(src) && |run| == |attempts| + 1
    && (forall i :: 0 <= i < |run| ==> Consistent(src, run[i], preserveForks))
    && (forall i :: 0 <= i < |attempts| ==> run[i + 1] == AfterAttempt(src, run[i], attempts[i], preserveForks))
  }

  ghost function RunFrom(src: Source, files: Files, attempts: seq<Attempt>, preserveForks: bool): (run: seq<Files>)
    requires ValidSource(src) && Consistent(src, files, preserveForks)
    ensures IsRun(src, run, attempts, preserveForks) && run[0] == files
    decreases |attempts|
  {
    if attempts == [] then [files] else
      AttemptKeepsConsistent(src, files, attempts[0], preserveForks);
      var others := RunFrom(src, AfterAttempt(src, files, attempts[0], preserveForks), attempts[1..], preserveForks);
      FirstOfRun(src, files, others, attempts, preserveForks);
      [files] + others
  }

  lemma FirstOfRun(src: Source, files: Files, others: seq<Files>, attempts: seq<Attempt>, preserveForks: bool)
    requires ValidSource(src) && Consistent(src, files, preserveForks) && attempts != []
    requires IsRun(src, others, attempts[1..], preserveForks)
    requires others[0] == AfterAttempt(src, files, attempts[0], preserveForks)
    ensures IsRun(src, [files] + others, attempts, preserveForks)
  {
    var run := [files] + others;
    forall i | 0 < i < |run|
      ensures run[i] == others[i - 1] && (i < |attempts| ==> attempts[i] == attempts[1..][i - 1])
    {
    }
  }

  const NO_FILES := Files(None, None, None, None)

  /** From nothing, a run: .incomplete is a prefix of the source, a file under the final name is the source. */
  ghost predicate Right(src: Source, f: Files) {
    && (f.final.None? ==> OrEmpty(f.incomplete) <= src.data)
    && (f.final.Some? ==> f.final.value == src.data && f.incomplete.None?)
  }

  /**
   Through attempts cut at any byte, with anything failing in the file system, .incomplete is always a prefix of the
   source and a file under the final name is the source; it is there at the end if and only if one of the attempts was
   neither cut nor failed.
   */
  lemma UploadArrives(src: Source, attempts: seq<Attempt>, preserveForks: bool)
    requires ValidSource(src)
    ensures var run := RunFrom(src, NO_FILES, attempts, preserveForks);
            && (forall f :: f in run ==> Right(src, f))
            && (run[|attempts|].final == Some(src.data) <==>
                  exists i :: 0 <= i < |attempts| && Completes(src, run[i], attempts[i], preserveForks))
  {
    var run := RunFrom(src, NO_FILES, attempts, preserveForks);
    forall i | 0 <= i < |attempts|
      ensures Latches(src, run, attempts, preserveForks, i)
    {
      AttemptLatches(src, run, attempts, preserveForks, i);
    }
    FinalExactly(src, run, attempts, preserveForks, |attempts|);
    assert Consistent(src, run[|attempts|], preserveForks);
    forall f | f in run
      ensures Right(src, f)
    {
      var i :| 0 <= i < |run| && run[i] == f;
      assert Consistent(src, run[i], preserveForks);
    }
  }

  /** A file becomes final with an attempt that completes it, and stays so. */
  ghost predicate Latches(src: Source, run: seq<Files>, attempts: seq<Attempt>, preserveForks: bool, i: nat)
    requires i < |attempts| && |run| == |attempts| + 1
  {
    run[i + 1].final.Some? <==> run[i].final.Some? || Completes(src, run[i], attempts[i], preserveForks)
  }

  lemma AttemptLatches(src: Source, run: seq<Files>, attempts: seq<Attempt>, preserveForks: bool, i: nat)
    requires IsRun(src, run, attempts, preserveForks) && i < |attempts|
    ensures Latches(src, run, attempts, preserveForks, i)
  {
    AttemptKeepsConsistent(src, run[i], attempts[i], preserveForks);
  }

  lemma {:induction false} FinalExactly(
    src: Source, run: seq<Files>, attempts: seq<Attempt>, preserveForks: bool, n: nat)
    requires |run| == |attempts| + 1 && n <= |attempts| && run[0].final.None?
    requires forall i :: 0 <= i < n ==> Latches(src, run, attempts, preserveForks, i)
    ensures run[n].final.Some? <==> exists i :: 0 <= i < n && Completes(src, run[i], attempts[i], preserveForks)
  {
    if n > 0 {
      FinalExactly(src, run, attempts, preserveForks, n - 1);
      assert Latches(src, run, attempts, preserveForks, n - 1);
      var last := Completes(src, run[n - 1], attempts[n - 1], preserveForks);
      assert run[n].final.Some? <==> run[n - 1].final.Some? || last;
    }
  }

  /** A finished file is left alone by whatever comes after. */
  lemma {:induction false} FinalStays(
    src: Source, run: seq<Files>, attempts: seq<Attempt>, preserveForks: bool, i: nat, n: nat)
    requires IsRun(src, run, attempts, preserveForks)
    requires i <= n <= |attempts| && run[i].final.Some?
    ensures run[n] == run[i] && run[n].final == Some(src.data)
    decreases n - i
  {
    if i < n {
      AttemptKeepsConsistent(src, run[i], attempts[i], preserveForks);
      FinalStays(src, run, attempts, preserveForks, i + 1, n);
    }
  }

  /** Starting over instead of resuming is right exactly when there was nothing to resume. */
  lemma NotResuming(src: Source, files: Files, preserveForks: bool)
    requires ValidSource(src) && files.final.None? && !BadSidecar(files)
    ensures OfferFor(files, false) == Accepted(None)
    ensures var r := Uploaded(files, ClientStream(src, 0), preserveForks, NoFault);
            r.outcome.Done? && (r.files.final == Some(src.data) <==> OrEmpty(files.incomplete) == [])
  {
    var s := ClientStream(src, 0);
    CutStreamReceived(src, 0, |s|);
    assert Cut(s, |s|) == s && src.data[0..] == src.data;
    var p := OrEmpty(files.incomplete);
    assert p == [] ==> p + src.data == src.data;
  }
}
