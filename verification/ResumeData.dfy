/** File resume data: how the server tells a client the offset to go on from. */
module ResumeData {
  import opened Bytes
  import FlatFile

  const RFLT: bytes4 := [0x52, 0x46, 0x4c, 0x54]

  datatype ForkInfoList = ForkInfoList(fork: bytes4, dataSize: bytes4, rsvda: bytes4, rsvdb: bytes4)
  datatype FileResumeData = FileResumeData(
    format: bytes4, version: bytes2, rsvd: bytes, forkCount: bytes2, forkInfoList: seq<ForkInfoList>)

  function NewForkInfoList(size: bytes4): ForkInfoList {
    ForkInfoList(FlatFile.DATA, size, Zeros(4), Zeros(4))
  }

  /** uint8(len(list)) */
  function ForkCount(list: seq<ForkInfoList>): (n: byte)
    ensures n <= |list| && (|list| < 256 ==> n == |list|)
  {
    |list| % 256
  }

  function NewFileResumeData(list: seq<ForkInfoList>): FileResumeData {
    FileResumeData(RFLT, [0, 1], Zeros(34), [0, ForkCount(list)], list)
  }

  function EncodeForkInfo(f: ForkInfoList): (b: bytes)
    ensures |b| == 16
  {
    f.fork + f.dataSize + f.rsvda + f.rsvdb
  }

  function DecodeForkInfo(b: bytes): ForkInfoList
    requires |b| == 16
  {
    ForkInfoList(b[0..4], b[4..8], b[8..12], b[12..16])
  }

  function EncodeForks(list: seq<ForkInfoList>): (b: bytes)
    ensures |b| == 16 * |list|
  {
    if list == [] then [] else EncodeForks(list[..|list| - 1]) + EncodeForkInfo(list[|list| - 1])
  }

  /** BinaryMarshal: every part is a byte array, so its byte order does not matter. */
  method BinaryMarshal(frd: FileResumeData) returns (b: bytes)
    ensures b == Marshaled(frd)
  {
    b := frd.format + frd.version + frd.rsvd + frd.forkCount;
    ghost var head := b;
    var i := 0;
    while i < |frd.forkInfoList|
      invariant 0 <= i <= |frd.forkInfoList| && b == head + EncodeForks(frd.forkInfoList[..i])
    {
      var upto := frd.forkInfoList[..i + 1];
      assert upto[..i] == frd.forkInfoList[..i] && upto[i] == frd.forkInfoList[i];
      b := b + EncodeForkInfo(frd.forkInfoList[i]);
      i := i + 1;
    }
    assert frd.forkInfoList[..|frd.forkInfoList|] == frd.forkInfoList;
  }

  function Marshaled(frd: FileResumeData): bytes {
    Head(frd) + EncodeForks(frd.forkInfoList)
  }

  /** The fork entries from byte 42 on. */
  function DecodeForks(b: bytes, n: nat): seq<ForkInfoList>
    requires |b| >= 42 + 16 * n
  {
    if n == 0 then [] else DecodeForks(b, n - 1) + [DecodeForkInfo(b[26 + 16 * n..42 + 16 * n])]
  }

  /** Whether UnmarshalBinary stays within the bytes it is given. */
  predicate LongEnough(b: bytes) {
    |b| >= 42 && |b| >= 42 + 16 * (b[41] as nat)
  }

  /**
   UnmarshalBinary on a new value: only the low byte of the fork count is used, and RSVD stays zero.
   ok is false where an index or a slice panics.
   */
  method UnmarshalBinary(b: bytes) returns (ok: bool, frd: FileResumeData)
    ensures ok <==> LongEnough(b)
    ensures ok ==> frd == Unmarshaled(b)
  {
    frd := FileResumeData(Zeros(4), Zeros(2), Zeros(34), Zeros(2), []);
    if |b| < 42 {
      return false, frd;
    }
    frd := frd.(format := b[0..4], version := b[4..6]);
    frd := frd.(forkCount := b[40..42]);
    var i, n: nat := 0, frd.forkCount[1];
    while i < n
      invariant i <= n && |b| >= 42 + 16 * i
      invariant frd == FileResumeData(b[0..4], b[4..6], Zeros(34), b[40..42], DecodeForks(b, i))
    {
      var start := 42 + i * 16;
      if |b| < start + 16 {
        return false, frd;
      }
      var fil := DecodeForkInfo(b[start..start + 16]);
      frd := frd.(forkInfoList := frd.forkInfoList + [fil]);
      i := i + 1;
    }
    return true, frd;
  }

  function Unmarshaled(b: bytes): FileResumeData
    requires LongEnough(b)
  {
    FileResumeData(b[0..4], b[4..6], Zeros(34), b[40..42], DecodeForks(b, b[41]))
  }

  lemma {:induction false} ForksRoundTrip(head: bytes, list: seq<ForkInfoList>, more: bytes)
    requires |head| == 42
    ensures DecodeForks(head + EncodeForks(list) + more, |list|) == list
  {
    if list != [] {
      var n, last := |list|, list[|list| - 1];
      var before := EncodeForks(list[..n - 1]);
      var b := head + before + (EncodeForkInfo(last) + more);
      assert head + EncodeForks(list) + more == b;
      ForksRoundTrip(head, list[..n - 1], EncodeForkInfo(last) + more);
      assert b[26 + 16 * n..42 + 16 * n] == EncodeForkInfo(last);
      ForkInfoRoundTrip(last);
    }
  }

  lemma ForkInfoRoundTrip(f: ForkInfoList)
    ensures DecodeForkInfo(EncodeForkInfo(f)) == f
  {
    var e := EncodeForkInfo(f);
    assert e[0..4] == f.fork && e[4..8] == f.dataSize && e[8..12] == f.rsvda && e[12..16] == f.rsvdb;
  }

  /** The 42 bytes before the forks. */
  function Head(frd: FileResumeData): bytes {
    frd.format + frd.version + frd.rsvd + frd.forkCount
  }

  lemma HeadParts(frd: FileResumeData, more: bytes)
    requires |frd.rsvd| == 34
    ensures var b := Head(frd) + more;
            |Head(frd)| == 42 && b[0..4] == frd.format && b[4..6] == frd.version && b[40..42] == frd.forkCount
  {
    var front := frd.format + frd.version;
    var b := Head(frd) + more;
    assert b == frd.format + (frd.version + frd.rsvd + frd.forkCount + more);
    assert b[0..4] == frd.format;
    assert b == front + (frd.rsvd + frd.forkCount + more);
    assert b[4..6] == frd.version;
    assert b == (front + frd.rsvd) + (frd.forkCount + more);
    assert b[40..42] == frd.forkCount;
  }

  /** Resume data is read back as it was written, exactly while the number of forks fits a byte. */
  lemma ResumeDataRoundTrip(list: seq<ForkInfoList>)
    ensures LongEnough(Marshaled(NewFileResumeData(list)))
    ensures Unmarshaled(Marshaled(NewFileResumeData(list))) == NewFileResumeData(list) <==> |list| < 256
  {
    var frd := NewFileResumeData(list);
    var b := Marshaled(frd);
    HeadParts(frd, EncodeForks(list));
    assert b[41] == b[40..42][1];
    ReadBack(Head(frd), list, b, ForkCount(list));
  }

  /** The forks that the count lets one read, of those that are there. */
  lemma ReadBack(head: bytes, list: seq<ForkInfoList>, b: bytes, n: nat)
    requires |head| == 42 && b == head + EncodeForks(list)
    requires n < 256 && n <= |list| && (|list| < 256 ==> n == |list|)
    ensures |b| >= 42 + 16 * n && (DecodeForks(b, n) == list <==> |list| < 256)
  {
    ForkCountIs(b, n);
    if |list| < 256 {
      assert b + [] == b;
      ForksRoundTrip(head, list, []);
    }
  }

  lemma {:induction false} ForkCountIs(b: bytes, n: nat)
    requires |b| >= 42 + 16 * n
    ensures |DecodeForks(b, n)| == n
  {
    if n > 0 {
      ForkCountIs(b, n - 1);
    }
  }

  /** The offset a server reports for a partial file is the one the client reads. */
  lemma OffsetRoundTrip(size: nat)
    ensures var b := Marshaled(NewFileResumeData([NewForkInfoList(PutU32(size))]));
            LongEnough(b) && U32(Unmarshaled(b).forkInfoList[0].dataSize) == size % TWO32
  {
    ResumeDataRoundTrip([NewForkInfoList(PutU32(size))]);
  }
}
