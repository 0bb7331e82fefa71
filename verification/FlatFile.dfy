/** Flattened file objects: the information fork, the headers around it, and reading them back. */
module FlatFile {
  import opened Bytes
  import opened Streams

  // ---------- The information fork ----------

  datatype InfoFork = InfoFork(
    platform: bytes4, typeSignature: bytes4, creatorSignature: bytes4, flags: bytes4, platformFlags: bytes4,
    rsvd: bytes32, createDate: bytes8, modifyDate: bytes8, nameScript: bytes2,
    nameSize: bytes2, name: bytes, commentSize: bytes2, comment: bytes)

  const NO_INFO := InfoFork(Zeros(4), Zeros(4), Zeros(4), Zeros(4), Zeros(4), Zeros(32), Zeros(8), Zeros(8), Zeros(2),
                           Zeros(2), [], Zeros(2), [])

  /** The 70 bytes before the size of the name. */
  function FixedPart(f: InfoFork): (b: bytes)
    ensures |b| == 70
  {
    f.platform + f.typeSignature + f.creatorSignature + f.flags + f.platformFlags
    + f.rsvd + f.createDate + f.modifyDate + f.nameScript
  }

  function EncodeInfo(f: InfoFork): (b: bytes)
    ensures |b| == 74 + |f.name| + |f.comment|
  {
    FixedPart(f) + PutU16(|f.name|) + f.name + f.commentSize + f.comment
  }

  datatype InfoResult = InfoRead(f: InfoFork) | OutOfRange

  /** The parts of the first 70 bytes. */
  function ReadFixed(f: InfoFork, p: bytes): InfoFork
    requires |p| >= 72
  {
    f.(platform := p[0..4], typeSignature := p[4..8], creatorSignature := p[8..12], flags := p[12..16],
       platformFlags := p[16..20], rsvd := p[20..52], createDate := p[52..60], modifyDate := p[60..68],
       nameScript := p[68..70], nameSize := p[70..72])
  }

  /**
   FlatFileInformationFork.Write: 72 + bs and total + 2 are uint16 sums. p is the slice up to its capacity and len its
   length, because a slice expression only panics past the capacity.
   */
  function ParseInfo(f: InfoFork, p: bytes, len: nat): InfoResult
    requires len <= |p|
  {
    if |p| < 72 then OutOfRange else
      var total := Add16(72, U16(p[70..72]));
      if total < 72 || total > |p| then OutOfRange else
        var g := ReadFixed(f, p).(name := p[72..total]);
        if len <= total then InfoRead(g) else
          var end := Add16(total, 2);
          if end < total || end > |p| then OutOfRange else
            var stop := total + 2 + U16(p[total..end]);
            if stop > |p| then OutOfRange
            else InfoRead(g.(commentSize := p[total..end], comment := p[total + 2..stop]))
  }

  class FlatFileInformationFork {
    var value: InfoFork

    constructor ()
      ensures value == NO_INFO
    {
      value := NO_INFO;
    }

    /** ok is false where a slice expression panics. */
    method Write(p: bytes, len: nat) returns (ok: bool)
      requires len <= |p|
      modifies this`value
      ensures ok <==> ParseInfo(old(value), p, len).InfoRead?
      ensures ok ==> value == ParseInfo(old(value), p, len).f
    {
      if |p| < 72 {
        return false;
      }
      var bs := U16(p[70..72]);
      var total := Add16(72, bs);
      value := value.(platform := p[0..4], typeSignature := p[4..8], creatorSignature := p[8..12], flags := p[12..16]);
      value := value.(platformFlags := p[16..20], rsvd := p[20..52], createDate := p[52..60], modifyDate := p[60..68]);
      value := value.(nameScript := p[68..70], nameSize := p[70..72]);
      if total < 72 || total > |p| {
        return false;
      }
      value := value.(name := p[72..total]);
      if len > total {
        var end := Add16(total, 2);
        if end < total || end > |p| {
          return false;
        }
        value := value.(commentSize := p[total..end]);
        var commentLen := U16(value.commentSize);
        var commentStartPos := total + 2;
        var commentEndPos := total + 2 + commentLen;
        if commentEndPos > |p| {
          return false;
        }
        value := value.(comment := p[commentStartPos..commentEndPos]);
      }
      return true;
    }
  }

  predicate CommentSized(f: InfoFork) {
    U16(f.commentSize) == |f.comment|
  }

  /** What is parsed announces the comment it has. */
  lemma ReadForksAreSized(p: bytes, len: nat)
    requires len <= |p|
    ensures ParseInfo(NO_INFO, p, len).InfoRead? ==> CommentSized(ParseInfo(NO_INFO, p, len).f)
  {
  }

  predicate InfoLaidOut(b: bytes, f: InfoFork, size: bytes2) {
    && |b| == 74 + |f.name| + |f.comment|
    && ReadFixed(NO_INFO, b) == NO_INFO.(platform := f.platform, typeSignature := f.typeSignature,
         creatorSignature := f.creatorSignature, flags := f.flags, platformFlags := f.platformFlags, rsvd := f.rsvd,
         createDate := f.createDate, modifyDate := f.modifyDate, nameScript := f.nameScript, nameSize := size)
    && b[72..72 + |f.name|] == f.name
    && b[72 + |f.name|..74 + |f.name|] == f.commentSize
    && b[74 + |f.name|..] == f.comment
  }

  /** Each part stands where the parts before it end. */
  lemma FixedSlices(f: InfoFork)
    ensures var h := FixedPart(f);
            && h[0..4] == f.platform && h[4..8] == f.typeSignature && h[8..12] == f.creatorSignature
            && h[12..16] == f.flags && h[16..20] == f.platformFlags && h[20..52] == f.rsvd
            && h[52..60] == f.createDate && h[60..68] == f.modifyDate && h[68..70] == f.nameScript
  {
    var a := f.platform + f.typeSignature + f.creatorSignature + f.flags;
    var b := a + f.platformFlags + f.rsvd;
    var c := b + f.createDate + f.modifyDate;
    var h := c + f.nameScript;
    assert a[0..4] == f.platform && a[4..8] == f.typeSignature;
    assert a[8..12] == f.creatorSignature && a[12..16] == f.flags;
    assert b[..16] == a && b[16..20] == f.platformFlags && b[20..52] == f.rsvd;
    assert c[..52] == b && c[52..60] == f.createDate && c[60..68] == f.modifyDate;
    assert h[..68] == c && h[68..70] == f.nameScript;
    SameSlices(a, b);
    SameSlices(b, c);
    SameSlices(c, h);
  }

  lemma SameSlices(b: bytes, p: bytes)
    requires |b| <= |p| && b == p[..|b|]
    ensures forall i, j :: 0 <= i <= j <= |b| ==> p[i..j] == b[i..j]
  {
  }

  lemma InfoLayout(f: InfoFork, size: bytes2, b: bytes)
    requires b == FixedPart(f) + size + f.name + f.commentSize + f.comment
    ensures InfoLaidOut(b, f, size)
  {
    var h := FixedPart(f);
    var named := h + size + f.name;
    FixedSlices(f);
    assert b[..70] == h;
    SameSlices(h, b);
    assert b[70..72] == size;
    assert b[72..72 + |f.name|] == f.name;
    assert b == named + (f.commentSize + f.comment);
    assert b[72 + |f.name|..74 + |f.name|] == f.commentSize;
    assert b[74 + |f.name|..] == f.comment;
  }

  /** The largest name whose end, and the comment size after it, stay within 16 bits. */
  const MAX_NAME := 65461

  lemma ShortNameRead(b: bytes, f: InfoFork, size: bytes2)
    requires InfoLaidOut(b, f, size) && CommentSized(f) && U16(size) == |f.name| <= MAX_NAME
    ensures ParseInfo(NO_INFO, b, |b|) == InfoRead(f.(nameSize := size))
  {
    var total := 72 + |f.name|;
    assert b[70..72] == ReadFixed(NO_INFO, b).nameSize;
    assert Add16(72, U16(b[70..72])) == total && Add16(total, 2) == total + 2;
    assert total + 2 + U16(b[total..total + 2]) == |b|;
    assert b[total + 2..|b|] == f.comment;
  }

  lemma LongNamePanics(b: bytes, f: InfoFork, size: bytes2)
    requires InfoLaidOut(b, f, size) && U16(size) == |f.name| > MAX_NAME
    ensures ParseInfo(NO_INFO, b, |b|).OutOfRange?
  {
    assert b[70..72] == ReadFixed(NO_INFO, b).nameSize;
    var total := Add16(72, U16(b[70..72]));
    assert total < 72 || Add16(total, 2) < total;
  }

  /**
   An information fork is read back from its encoding exactly when its name is within the bound; a longer one whose
   length still fits its two bytes makes the parser panic.
   */
  lemma InfoRoundTrip(f: InfoFork)
    requires CommentSized(f)
    ensures |f.name| <= MAX_NAME <==>
            ParseInfo(NO_INFO, EncodeInfo(f), |EncodeInfo(f)|) == InfoRead(f.(nameSize := PutU16(|f.name|)))
    ensures MAX_NAME < |f.name| < TWO16 ==> ParseInfo(NO_INFO, EncodeInfo(f), |EncodeInfo(f)|).OutOfRange?
  {
    var b, size := EncodeInfo(f), PutU16(|f.name|);
    InfoLayout(f, size, b);
    if |f.name| <= MAX_NAME {
      ShortNameRead(b, f, size);
    } else if |f.name| < TWO16 {
      LongNamePanics(b, f, size);
    } else {
      NameIsShort(b);
    }
  }

  lemma NameIsShort(p: bytes)
    ensures ParseInfo(NO_INFO, p, |p|).InfoRead? ==> |ParseInfo(NO_INFO, p, |p|).f.name| < TWO16
  {
  }

  // ---------- The whole object ----------

  const FILP: bytes4 := [0x46, 0x49, 0x4c, 0x50]
  const INFO: bytes4 := [0x49, 0x4e, 0x46, 0x4f]
  const DATA: bytes4 := [0x44, 0x41, 0x54, 0x41]
  const MACR: bytes4 := [0x4d, 0x41, 0x43, 0x52]

  datatype FlatFileHeader = FlatFileHeader(format: bytes4, version: bytes2, rsvd: bytes16, forkCount: bytes2)
  datatype ForkHeader = ForkHeader(forkType: bytes4, compressionType: bytes4, rsvd: bytes4, dataSize: bytes4)

  const NO_HEADER := ForkHeader(Zeros(4), Zeros(4), Zeros(4), Zeros(4))

  datatype Ffo = Ffo(header: FlatFileHeader, infoHeader: ForkHeader, info: InfoFork, dataHeader: ForkHeader)

  function EncodeHeader(h: FlatFileHeader): (b: bytes)
    ensures |b| == 24
  {
    h.format + h.version + h.rsvd + h.forkCount
  }

  function DecodeHeader(b: bytes): FlatFileHeader
    requires |b| == 24
  {
    FlatFileHeader(b[0..4], b[4..6], b[6..22], b[22..24])
  }

  function EncodeFork(h: ForkHeader): (b: bytes)
    ensures |b| == 16
  {
    h.forkType + h.compressionType + h.rsvd + h.dataSize
  }

  function DecodeFork(b: bytes): ForkHeader
    requires |b| == 16
  {
    ForkHeader(b[0..4], b[4..8], b[8..12], b[12..16])
  }

  lemma HeaderRoundTrip(h: FlatFileHeader)
    ensures DecodeHeader(EncodeHeader(h)) == h
  {
    var b := EncodeHeader(h);
    assert b[0..4] == h.format && b[4..6] == h.version && b[6..22] == h.rsvd && b[22..24] == h.forkCount;
  }

  lemma ForkRoundTrip(k: ForkHeader)
    ensures DecodeFork(EncodeFork(k)) == k
  {
    var b := EncodeFork(k);
    assert b[0..4] == k.forkType && b[4..8] == k.compressionType && b[8..12] == k.rsvd && b[12..16] == k.dataSize;
  }

  /** FlatFileInformationFork.Size, as the information fork header announces it. */
  function InfoHeaderFor(f: InfoFork): ForkHeader {
    ForkHeader(INFO, Zeros(4), Zeros(4), PutU32(|f.name| + |f.comment| + 74))
  }

  /** flattenedFileObject.Read: everything up to and including the data fork header. */
  function EncodeFfo(o: Ffo): bytes {
    EncodeHeader(o.header) + EncodeFork(InfoHeaderFor(o.info)) + EncodeInfo(o.info) + EncodeFork(o.dataHeader)
  }

  datatype FfoResult = FfoRead(o: Ffo, rest: bytes) | Short | Panic

  /** An empty information fork is not parsed at all. */
  function InfoIn(b: bytes): InfoResult {
    if b == [] then InfoRead(NO_INFO) else ParseInfo(NO_INFO, b, |b|)
  }

  /** os.ReadFile: at least 512 bytes, or one more than the file has. */
  function SpareCapacity(len: nat): nat {
    if len + 1 < 512 then 512 - len else 1
  }

  /** An information fork read from a file: past its end, up to the capacity of the slice, there are zeros. */
  function SidecarInfo(b: bytes): InfoResult {
    if b == [] then InfoRead(NO_INFO) else ParseInfo(NO_INFO, b + Zeros(SpareCapacity(|b|)), |b|)
  }

  /** A file that holds a whole fork is read as that fork. */
  lemma WholeSidecar(b: bytes)
    requires InfoIn(b).InfoRead?
    ensures SidecarInfo(b) == InfoIn(b)
  {
    var p := b + Zeros(SpareCapacity(|b|));
    if b != [] {
      var total := Add16(72, U16(b[70..72]));
      SameSlice(b, p, 70, 72);
      SameSlice(b, p, 72, total);
      SameFixed(b, p);
      if |b| > total {
        var end := Add16(total, 2);
        SameSlice(b, p, total, end);
        SameSlice(b, p, total + 2, total + 2 + U16(b[total..end]));
      }
    }
  }

  lemma SameSlice(b: bytes, p: bytes, i: nat, j: nat)
    requires i <= j <= |b| <= |p| && b == p[..|b|]
    ensures p[i..j] == b[i..j]
  {
  }

  lemma SameFixed(b: bytes, p: bytes)
    requires 72 <= |b| <= |p| && b == p[..|b|]
    ensures ReadFixed(NO_INFO, p) == ReadFixed(NO_INFO, b)
  {
    SameSlice(b, p, 0, 4);
    SameSlice(b, p, 4, 8);
    SameSlice(b, p, 8, 12);
    SameSlice(b, p, 12, 16);
    SameSlice(b, p, 16, 20);
    SameSlice(b, p, 20, 52);
    SameSlice(b, p, 52, 60);
    SameSlice(b, p, 60, 68);
    SameSlice(b, p, 68, 70);
    SameSlice(b, p, 70, 72);
  }

  /** A file cut off before the size of the name is read as a fork without a name, not refused. */
  lemma ShortSidecarRead(b: bytes)
    requires 0 < |b| <= 70
    ensures SidecarInfo(b).InfoRead? && SidecarInfo(b).f.name == []
  {
    var p := b + Zeros(SpareCapacity(|b|));
    assert p[70..72] == Zeros(2) && U16(Zeros(2)) == 0;
  }

  /** flattenedFileObject.ReadFrom */
  function ParseFfo(s: bytes): FfoResult {
    if |s| < 40 then Short else
      var header, infoHeader := DecodeHeader(s[..24]), DecodeFork(s[24..40]);
      var dataLen := U32(infoHeader.dataSize);
      if |s| < 40 + dataLen then Short else
        var info := InfoIn(s[40..40 + dataLen]);
        if info.OutOfRange? then Panic
        else if |s| < 56 + dataLen then Short
        else FfoRead(Ffo(header, infoHeader, info.f, DecodeFork(s[40 + dataLen..56 + dataLen])), s[56 + dataLen..])
  }

  method ReadFfo(r: Reader) returns (result: FfoResult)
    modifies r
    ensures result.FfoRead? <==> ParseFfo(old(r.rest)).FfoRead?
    ensures result.FfoRead? ==> result == ParseFfo(old(r.rest)) && r.rest == result.rest
    ensures result.Panic? <==> ParseFfo(old(r.rest)).Panic?
  {
    ghost var s := r.rest;
    var ok, b := r.ReadFull(24);
    if !ok {
      return Short;
    }
    var header := DecodeHeader(b);
    ok, b := r.ReadFull(16);
    if !ok {
      return Short;
    }
    assert b == s[24..40] && r.rest == s[40..];
    var infoHeader := DecodeFork(b);
    var dataLen := U32(infoHeader.dataSize);
    ok, b := r.ReadFull(dataLen);
    if !ok {
      return Short;
    }
    assert b == s[40..40 + dataLen] && r.rest == s[40 + dataLen..];
    var info := ReadInfo(b);
    if info.OutOfRange? {
      return Panic;
    }
    ok, b := r.ReadFull(16);
    if !ok {
      return Short;
    }
    assert b == s[40 + dataLen..56 + dataLen] && r.rest == s[56 + dataLen..];
    return FfoRead(Ffo(header, infoHeader, info.f, DecodeFork(b)), r.rest);
  }

  /** io.Copy of the information fork's bytes into a new fork. */
  method ReadInfo(b: bytes) returns (r: InfoResult)
    ensures r == InfoIn(b)
  {
    var info := new FlatFileInformationFork();
    if |b| > 0 {
      var ok := info.Write(b, |b|);
      if !ok {
        return OutOfRange;
      }
    }
    return InfoRead(info.value);
  }

  /** The same of a file's bytes. */
  method ReadSidecar(b: bytes) returns (r: InfoResult)
    ensures r == SidecarInfo(b)
  {
    var info := new FlatFileInformationFork();
    if |b| > 0 {
      var ok := info.Write(b + Zeros(SpareCapacity(|b|)), |b|);
      if !ok {
        return OutOfRange;
      }
    }
    return InfoRead(info.value);
  }

  /** The size of the name goes out as its length, whatever the field holds. */
  lemma NameSizeNotSent(f: InfoFork, size: bytes2)
    ensures EncodeInfo(f.(nameSize := size)) == EncodeInfo(f)
  {
  }

  /** Small enough to be sent: a name within the bound and a comment that announces its length. */
  predicate SendableInfo(f: InfoFork) {
    |f.name| <= MAX_NAME && CommentSized(f)
  }

  lemma FfoRoundTrip(o: Ffo, more: bytes)
    requires SendableInfo(o.info)
    ensures ParseFfo(EncodeFfo(o) + more) ==
            FfoRead(Ffo(o.header, InfoHeaderFor(o.info), o.info.(nameSize := PutU16(|o.info.name|)), o.dataHeader),
                    more)
  {
    var n := 74 + |o.info.name| + |o.info.comment|;
    assert n < TWO32 && U32(InfoHeaderFor(o.info).dataSize) == n;
    var a, b := EncodeHeader(o.header), EncodeFork(InfoHeaderFor(o.info));
    var c, d := EncodeInfo(o.info), EncodeFork(o.dataHeader);
    HeaderRoundTrip(o.header);
    ForkRoundTrip(InfoHeaderFor(o.info));
    ForkRoundTrip(o.dataHeader);
    InfoRoundTrip(o.info);
    var s := a + b + c + d + more;
    FfoPieces(a, b, c, d, more, s);
    FfoFromPieces(s, n, InfoHeaderFor(o.info), o.info.(nameSize := PutU16(|o.info.name|)));
  }

  lemma FfoFromPieces(s: bytes, n: nat, infoHeader: ForkHeader, f: InfoFork)
    requires |s| >= 56 + n && n > 0
    requires DecodeFork(s[24..40]) == infoHeader && U32(infoHeader.dataSize) == n
    requires ParseInfo(NO_INFO, s[40..40 + n], n) == InfoRead(f)
    ensures ParseFfo(s) ==
            FfoRead(Ffo(DecodeHeader(s[..24]), infoHeader, f, DecodeFork(s[40 + n..56 + n])), s[56 + n..])
  {
  }

  lemma FfoPieces(a: bytes, b: bytes, c: bytes, d: bytes, more: bytes, s: bytes)
    requires |a| == 24 && |b| == |d| == 16 && s == a + b + c + d + more
    ensures s[..24] == a && s[24..40] == b && s[40..40 + |c|] == c
    ensures s[40 + |c|..56 + |c|] == d && s[56 + |c|..] == more
  {
  }
}
