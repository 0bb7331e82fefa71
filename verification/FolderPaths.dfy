/** Folder uploads: the path of an item, its header on the wire, and how its decoder agrees with the others. */
module FolderPaths {
  import opened Bytes
  import opened Streams
  import opened Framing
  import opened ItemScanner
  import opened PathCodec
  import Paths

  // ---------- folderUpload.FormattedPath ----------

  /** Up to count segments from the front of data. */
  function Segments(data: bytes, count: nat): (names: seq<bytes>)
    ensures |names| <= count && NamesUpTo(names, 255)
  {
    if count == 0 then [] else
      match Next(PathSegments, data)
      case Tok(t, rest) => [t[3..]] + Segments(rest, count - 1)
      case _ => []
  }

  method FormattedPath(pathItemCount: bytes2, fileNamePath: bytes) returns (p: bytes)
    ensures p == Paths.Join(Segments(fileNamePath, U16(pathItemCount)))
  {
    var pathItemLen := U16(pathItemCount);
    if pathItemLen == 0 {
      return [];
    }
    var scanner := new Scanner(PathSegments, fileNamePath);
    assert [] + fileNamePath == fileNamePath;
    var pathSegments := ScanSegments(scanner, pathItemLen);
    return Paths.Join(pathSegments);
  }

  function After(sofar: seq<bytes>, names: seq<bytes>): seq<bytes> {
    sofar + names
  }

  /** The scanning loop of FormattedPath. */
  method ScanSegments(scanner: Scanner, count: nat) returns (pathSegments: seq<bytes>)
    requires scanner.Valid() && scanner.split == PathSegments
    modifies scanner
    ensures pathSegments == Segments(old(scanner.pending + scanner.arriving), count)
  {
    pathSegments := [];
    ghost var all, stream := Segments(scanner.pending + scanner.arriving, count), scanner.pending + scanner.arriving;
    assert After([], all) == all;
    while true
      invariant scanner.Valid() && stream == scanner.pending + scanner.arriving
      invariant Onward(all, pathSegments, stream, count)
      decreases |stream|
    {
      var more, name := ScanSegment(scanner);
      if !more || |pathSegments| >= count {
        NoSegments(stream, count - |pathSegments|);
        return;
      }
      OnwardStep(all, pathSegments, stream, count);
      pathSegments := pathSegments + [name];
      stream := Next(PathSegments, stream).rest;
    }
  }

  /** The names found so far and those still to come make up all of them. */
  ghost predicate Onward(all: seq<bytes>, sofar: seq<bytes>, stream: bytes, count: nat) {
    |sofar| <= count && all == After(sofar, Segments(stream, count - |sofar|))
  }

  lemma OnwardStep(all: seq<bytes>, sofar: seq<bytes>, stream: bytes, count: nat)
    requires Onward(all, sofar, stream, count) && |sofar| < count && Next(PathSegments, stream).Tok?
    ensures var next := Next(PathSegments, stream);
            |next.token| >= 3 && |next.rest| < |stream| && Onward(all, sofar + [next.token[3..]], next.rest, count)
  {
    SegmentsStep(sofar, stream, count - |sofar|);
  }

  /** One scan and the name in its segment. */
  method ScanSegment(scanner: Scanner) returns (more: bool, name: bytes)
    requires scanner.Valid() && scanner.split == PathSegments
    modifies scanner
    ensures var next := Next(PathSegments, old(scanner.pending + scanner.arriving));
            && (more <==> next.Tok?)
            && (more ==> |next.token| >= 3 && name == next.token[3..]
                         && scanner.Valid() && scanner.pending + scanner.arriving == next.rest)
  {
    var segmentData;
    more, segmentData := scanner.Scan();
    name := if more then segmentData[3..] else [];
  }

  lemma NoSegments(data: bytes, count: nat)
    requires count == 0 || !Next(PathSegments, data).Tok?
    ensures Segments(data, count) == [] && forall sofar :: After(sofar, Segments(data, count)) == sofar
  {
  }

  lemma SegmentsStep(sofar: seq<bytes>, data: bytes, count: nat)
    requires count > 0 && Next(PathSegments, data).Tok?
    ensures |Next(PathSegments, data).token| >= 3
    ensures After(sofar, Segments(data, count)) ==
            After(sofar + [Next(PathSegments, data).token[3..]], Segments(Next(PathSegments, data).rest, count - 1))
  {
    var name, others := Next(PathSegments, data).token[3..], Segments(Next(PathSegments, data).rest, count - 1);
    assert sofar + ([name] + others) == sofar + [name] + others;
  }

  lemma FirstSegment(section: bytes, rest: bytes)
    requires |section| <= 255
    ensures Next(PathSegments, EncodeItem(section) + rest) == Tok(EncodeItem(section), rest)
    ensures EncodeItem(section)[3..] == section
  {
    var first := EncodeItem(section);
    var data := first + rest;
    assert data[2] == |section| && data[..|first|] == first && data[|first|..] == rest;
  }

  lemma SegmentsFirst(section: bytes, rest: bytes, count: nat)
    requires |section| <= 255 && count > 0
    ensures Segments(EncodeItem(section) + rest, count) == [section] + Segments(rest, count - 1)
  {
    FirstSegment(section, rest);
  }

  lemma FirstItem(sections: seq<bytes>, more: bytes)
    requires sections != []
    ensures EncodeItems(sections) + more == EncodeItem(sections[0]) + (EncodeItems(sections[1..]) + more)
  {
  }

  lemma {:induction false} SegmentsRoundTrip(sections: seq<bytes>, data: bytes, more: bytes, n: nat)
    requires NamesUpTo(sections, 255) && data == EncodeItems(sections) + more && n == |sections|
    ensures Segments(data, n) == sections
  {
    if n > 0 {
      var rest := EncodeItems(sections[1..]) + more;
      FirstItem(sections, more);
      SegmentsFirst(sections[0], rest, n);
      SegmentsRoundTrip(sections[1..], rest, more, n - 1);
      assert sections == [sections[0]] + sections[1..];
    }
  }

  // ---------- The header of a folder item ----------

  datatype FileHeader = FileHeader(size: bytes2, kind: bytes2, filePath: bytes)

  function NewFileHeader(fileName: bytes, isDir: bool): FileHeader {
    var filePath := EncodedPath(Paths.Split(fileName));
    FileHeader(PutU16(|filePath| + 2), if isDir then [0, 1] else [0, 0], filePath)
  }

  function EncodeFileHeader(h: FileHeader): bytes {
    h.size + h.kind + h.filePath
  }

  datatype FolderUpload = FolderUpload(dataSize: bytes2, isFolder: bytes2, pathItemCount: bytes2, fileNamePath: bytes)
  datatype HeaderResult = HeaderRead(fu: FolderUpload, rest: bytes) | Short

  /** The header a folder upload reads per item; the length of the path is a uint16 difference. */
  function ReadHeader(s: bytes): HeaderResult {
    if |s| < 6 then Short else
      var n := Sub16(U16(s[0..2]), 4);
      if |s| < 6 + n then Short else HeaderRead(FolderUpload(s[0..2], s[2..4], s[4..6], s[6..6 + n]), s[6 + n..])
  }

  method ReadFolderItem(r: Reader) returns (result: HeaderResult)
    modifies r
    ensures result.HeaderRead? <==> ReadHeader(old(r.rest)).HeaderRead?
    ensures result.HeaderRead? ==> result == ReadHeader(old(r.rest)) && r.rest == result.rest
  {
    ghost var s := r.rest;
    var ok, dataSize := r.ReadFull(2);
    if !ok {
      return Short;
    }
    var isFolder, count, name;
    ok, isFolder := r.ReadFull(2);
    if !ok {
      return Short;
    }
    ok, count := r.ReadFull(2);
    if !ok {
      return Short;
    }
    var n := Sub16(U16(dataSize), 4);
    assert dataSize == s[0..2] && isFolder == s[2..4] && count == s[4..6] && r.rest == s[6..];
    ok, name := r.ReadFull(n);
    if !ok {
      return Short;
    }
    assert name == s[6..6 + n] && r.rest == s[6 + n..];
    return HeaderRead(FolderUpload(dataSize, isFolder, count, name), r.rest);
  }

  /** Names fit their length bytes and the path, without its count, a uint16. */
  predicate HeaderFits(sections: seq<bytes>) {
    NamesUpTo(sections, 255) && |EncodeItems(sections)| < TWO16
  }

  /**
   A sent file header is read with its size and kind, and the uint16 Size - 4 says where the path is taken to end. It
   ends where it does, and its segments are the sections of the name, exactly when they fit; longer ones run over into
   what follows.
   */
  lemma FileHeaderRoundTrip(fileName: bytes, isDir: bool, more: bytes)
    ensures var sections, h := Paths.Split(fileName), NewFileHeader(fileName, isDir);
            var r := ReadHeader(EncodeFileHeader(h) + more);
            && r.HeaderRead? && r.fu.dataSize == h.size && (r.fu.isFolder == [0, 1] <==> isDir)
            && |r.fu.fileNamePath| == Sub16(U16(h.size), 4)
            && r.fu.fileNamePath + r.rest == EncodeItems(sections) + more
            && (r.rest == more && Segments(r.fu.fileNamePath, U16(r.fu.pathItemCount)) == sections
                <==> HeaderFits(sections))
  {
    var sections, h := Paths.Split(fileName), NewFileHeader(fileName, isDir);
    var names, n := EncodeItems(sections), Sub16(U16(h.size), 4);
    HeaderAsRead(fileName, isDir, more, names, n);
    PathAsRead(sections, names, more, n, CountOf(sections));
  }

  lemma PathAsRead(sections: seq<bytes>, names: bytes, more: bytes, n: nat, count: u16)
    requires names == EncodeItems(sections) && n <= |names| && (n == |names| <==> |names| < TWO16)
    requires |sections| < TWO16 ==> count == |sections|
    ensures (names + more)[..n] + (names + more)[n..] == names + more
    ensures (names + more)[n..] == more && Segments((names + more)[..n], count) == sections <==> HeaderFits(sections)
  {
    assert |(names + more)[n..]| == |names| - n + |more|;
    if |names| < TWO16 {
      assert (names + more)[..n] == names && (names + more)[n..] == more;
      ItemsAreLonger(sections);
      SegmentsDecided(sections, count, names);
    }
  }

  lemma HeaderAsRead(fileName: bytes, isDir: bool, more: bytes, names: bytes, n: nat)
    requires names == EncodeItems(Paths.Split(fileName)) && n == Sub16(U16(NewFileHeader(fileName, isDir).size), 4)
    ensures n <= |names| && (n == |names| <==> |names| < TWO16)
    ensures var sections, h := Paths.Split(fileName), NewFileHeader(fileName, isDir);
            ReadHeader(EncodeFileHeader(h) + more) ==
            HeaderRead(FolderUpload(h.size, h.kind, PutU16(|sections|), (names + more)[..n]), (names + more)[n..])
  {
    var h, count := NewFileHeader(fileName, isDir), PutU16(|Paths.Split(fileName)|);
    assert h.filePath == count + names;
    SizeLessFour(|names|);
    HeaderPieces(h.size, h.kind, count, names, more, n);
  }

  /** The uint16 that the writer's sum of 4 and the reader's difference of 4 come to. */
  lemma SizeLessFour(n: nat)
    ensures n < TWO16 ==> Sub16(U16(PutU16(n + 4)), 4) == n
    ensures Sub16(U16(PutU16(n + 4)), 4) <= n
  {
    assert n >= TWO16 || U16(PutU16(n + 4)) == if n + 4 < TWO16 then n + 4 else n + 4 - TWO16;
  }

  lemma {:induction false} ItemsAreLonger(sections: seq<bytes>)
    ensures |sections| <= |EncodeItems(sections)|
  {
    if sections != [] {
      ItemsAreLonger(sections[1..]);
    }
  }

  lemma HeaderPieces(size: bytes2, kind: bytes2, count: bytes2, names: bytes, more: bytes, n: nat)
    requires n == Sub16(U16(size), 4) && n <= |names|
    ensures ReadHeader(size + kind + (count + names) + more) ==
            HeaderRead(FolderUpload(size, kind, count, (names + more)[..n]), (names + more)[n..])
  {
    var s := size + kind + (count + names) + more;
    assert s[0..2] == size && s[2..4] == kind && s[4..6] == count && s[6..] == names + more;
    assert s[6..6 + n] == s[6..][..n] && s[6 + n..] == s[6..][n..];
  }

  // ---------- One encoder, three decoders ----------

  /** FormattedPath finds the sections again exactly when names and count fit their bytes. */
  lemma SegmentsExactly(sections: seq<bytes>)
    ensures var b := EncodedPath(sections);
            Segments(b[2..], U16(b[..2])) == sections <==> |sections| < TWO16 && NamesUpTo(sections, 255)
  {
    PathParts(sections);
    SegmentsDecided(sections, CountOf(sections), EncodeItems(sections));
  }

  lemma SegmentsDecided(sections: seq<bytes>, n: nat, data: bytes)
    requires n < TWO16 && (|sections| < TWO16 ==> n == |sections|) && data == EncodeItems(sections)
    ensures Segments(data, n) == sections <==> |sections| < TWO16 && NamesUpTo(sections, 255)
  {
    if |sections| < TWO16 && NamesUpTo(sections, 255) {
      assert data + [] == data;
      SegmentsRoundTrip(sections, data, [], n);
    }
  }

  /** All three decoders give back the sections of a path exactly when it fits the strictest. */
  lemma DecodersAgree(filePath: bytes)
    ensures var sections := Paths.Split(filePath);
            var b := EncodedPath(sections);
            && Paths.JoinSlash(sections) == filePath
            && ((ParseFilePath(b) == Sections(sections) && ParseNewsPath(b) == Sections(sections)
                 && Segments(b[2..], U16(b[..2])) == sections) <==> Fits(sections, 252))
  {
    var sections := Paths.Split(filePath);
    FilePathRoundTrip(sections);
    NewsPathRoundTrip(sections);
    SegmentsExactly(sections);
    JoinSplit(filePath);
  }
}
