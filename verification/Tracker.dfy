/** The tracker's server list: records in batches, each batch behind a header of its own. */
module Tracker {
  import opened Bytes
  import opened Streams

  datatype ServerRecord = ServerRecord(
    ipAddr: bytes4, port: bytes2, numUsers: bytes2, tlsPort: bytes2,
    nameSize: byte, name: bytes, descriptionSize: byte, description: bytes)

  /** The size bytes are those of the strings. */
  predicate Sized(r: ServerRecord) {
    |r.name| == r.nameSize && |r.description| == r.descriptionSize
  }

  function RecordHead(r: ServerRecord): (b: bytes)
    ensures |b| == 10
  {
    r.ipAddr + r.port + r.numUsers + r.tlsPort
  }

  function EncodeRecord(r: ServerRecord): bytes {
    RecordHead(r) + ([r.nameSize] + r.name + ([r.descriptionSize] + r.description))
  }

  datatype StringResult = StringRead(size: byte, text: bytes, rest: bytes) | StringShort

  /** A size byte and that many bytes. */
  function ParseString(s: bytes): (r: StringResult)
    ensures r.StringRead? ==> |r.text| == r.size && |r.rest| < |s|
  {
    if |s| < 1 then StringShort else
      var n: nat := s[0];
      if |s| < 1 + n then StringShort else StringRead(n, s[1..1 + n], s[1 + n..])
  }

  method ReadString(reader: Reader) returns (result: StringResult)
    modifies reader
    ensures result.StringRead? <==> ParseString(old(reader.rest)).StringRead?
    ensures result.StringRead? ==> result == ParseString(old(reader.rest)) && reader.rest == result.rest
  {
    ghost var s := reader.rest;
    var ok, sizeByte := reader.ReadFull(1);
    if !ok {
      return StringShort;
    }
    var n: nat := sizeByte[0];
    var text;
    ok, text := reader.ReadFull(n);
    if !ok {
      return StringShort;
    }
    assert text == s[1..1 + n] && reader.rest == s[1 + n..];
    return StringRead(n, text, reader.rest);
  }

  datatype RecordResult = RecordRead(r: ServerRecord, rest: bytes) | RecordShort

  function ParseRecord(s: bytes): (r: RecordResult)
    ensures r.RecordRead? ==> Sized(r.r) && |r.rest| < |s|
  {
    if |s| < 10 then RecordShort else
      match ParseString(s[10..])
      case StringShort => RecordShort
      case StringRead(nameSize, name, s1) =>
        match ParseString(s1)
        case StringShort => RecordShort
        case StringRead(descSize, desc, s2) =>
          RecordRead(ServerRecord(s[0..4], s[4..6], s[6..8], s[8..10], nameSize, name, descSize, desc), s2)
  }

  method ReadServerRecord(reader: Reader) returns (result: RecordResult)
    modifies reader
    ensures result.RecordRead? <==> ParseRecord(old(reader.rest)).RecordRead?
    ensures result.RecordRead? ==> result == ParseRecord(old(reader.rest)) && reader.rest == result.rest
  {
    ghost var s := reader.rest;
    var ok, header := reader.ReadFull(10);
    if !ok {
      return RecordShort;
    }
    assert header[0..4] == s[0..4] && header[4..6] == s[4..6] && header[6..8] == s[6..8] && header[8..10] == s[8..10];
    var name := ReadString(reader);
    if name.StringShort? {
      return RecordShort;
    }
    var desc := ReadString(reader);
    if desc.StringShort? {
      return RecordShort;
    }
    return RecordRead(ServerRecord(header[0..4], header[4..6], header[6..8], header[8..10],
                                   name.size, name.text, desc.size, desc.text), reader.rest);
  }

  lemma StringRoundTrip(text: bytes, size: byte, more: bytes)
    requires |text| == size
    ensures ParseString([size] + text + more) == StringRead(size, text, more)
  {
    var s := [size] + text + more;
    assert s[1..1 + |text|] == text && s[1 + |text|..] == more;
  }

  lemma RecordRoundTrip(r: ServerRecord, more: bytes)
    requires Sized(r)
    ensures ParseRecord(EncodeRecord(r) + more) == RecordRead(r, more)
  {
    var h := RecordHead(r);
    assert h[0..4] == r.ipAddr && h[4..6] == r.port && h[6..8] == r.numUsers && h[8..10] == r.tlsPort;
    var desc := [r.descriptionSize] + r.description + more;
    var strings := [r.nameSize] + r.name + desc;
    var s := h + strings;
    assert EncodeRecord(r) + more == s;
    StringRoundTrip(r.name, r.nameSize, desc);
    StringRoundTrip(r.description, r.descriptionSize, more);
    RecordFromParts(r, s);
  }

  lemma RecordFromParts(r: ServerRecord, s: bytes)
    requires |s| >= 10
    requires s[0..4] == r.ipAddr && s[4..6] == r.port && s[6..8] == r.numUsers && s[8..10] == r.tlsPort
    requires ParseString(s[10..]).StringRead? && ParseString(ParseString(s[10..]).rest).StringRead?
    requires ParseString(s[10..]).text == r.name && ParseString(s[10..]).size == r.nameSize
    requires var d := ParseString(ParseString(s[10..]).rest); d.text == r.description && d.size == r.descriptionSize
    ensures ParseRecord(s) == RecordRead(r, ParseString(ParseString(s[10..]).rest).rest)
  {
  }

  // ---------- The list ----------

  datatype ServerInfoHeader = ServerInfoHeader(
    msgType: bytes2, msgDataSize: bytes2, srvCount: bytes2, batchSize: bytes2)

  function EncodeInfo(h: ServerInfoHeader): (b: bytes)
    ensures |b| == 8
  {
    h.msgType + h.msgDataSize + h.srvCount + h.batchSize
  }

  function DecodeInfo(b: bytes): ServerInfoHeader
    requires |b| == 8
  {
    ServerInfoHeader(b[0..2], b[2..4], b[4..6], b[6..8])
  }

  lemma InfoRoundTrip(h: ServerInfoHeader)
    ensures DecodeInfo(EncodeInfo(h)) == h
  {
    var b := EncodeInfo(h);
    assert b[0..2] == h.msgType && b[2..4] == h.msgDataSize && b[4..6] == h.srvCount && b[6..8] == h.batchSize;
  }

  datatype ListResult = Listed(servers: seq<ServerRecord>, rest: bytes) | ListShort

  /**
   The servers still to come: remaining in all, left in the current batch. A new header is read when
   exactly none are left in the batch, so a later batch announced empty sends left below zero for good.
   */
  function ListFrom(s: bytes, remaining: nat, left: int): ListResult
    decreases remaining
  {
    if remaining == 0 then Listed([], s)
    else
      var t := TakeRecord(s, left);
      if t.NotTaken? then ListShort else Prepend([t.r], ListFrom(t.rest, remaining - 1, t.left))
  }

  datatype Taken = Taken(r: ServerRecord, rest: bytes, left: int) | NotTaken

  /** One turn of the loop: a header when none are left in the batch, then a record. */
  function TakeRecord(s: bytes, left: int): Taken {
    if left == 0 then
      if |s| < 8 then NotTaken else TakeNext(s[8..], U16(DecodeInfo(s[..8]).batchSize))
    else TakeNext(s, left)
  }

  function TakeNext(s: bytes, left: int): Taken {
    var p := ParseRecord(s);
    if p.RecordShort? then NotTaken else Taken(p.r, p.rest, left - 1)
  }

  function Prepend(servers: seq<ServerRecord>, r: ListResult): ListResult {
    if r.Listed? then Listed(servers + r.servers, r.rest) else ListShort
  }

  lemma PrependTwice(a: seq<ServerRecord>, b: seq<ServerRecord>, r: ListResult)
    ensures Prepend(a, Prepend(b, r)) == Prepend(a + b, r)
    ensures Prepend([], r) == r
  {
    if r.Listed? {
      assert a + (b + r.servers) == a + b + r.servers && [] + r.servers == r.servers;
    }
  }

  const HELLO: bytes := [0x48, 0x54, 0x52, 0x4b, 0, 1]

  /** What a tracker's answer lists: six bytes of greeting, then the batches. */
  function ListingOf(s: bytes): ListResult {
    if |s| < 14 then ListShort else
      var info := DecodeInfo(s[6..14]);
      ListFrom(s[14..], U16(info.srvCount), U16(info.batchSize))
  }

  class TrackerConn {
    const input: Reader
    var sent: bytes

    constructor (input: Reader)
      ensures this.input == input && sent == []
    {
      this.input, sent := input, [];
    }

    method GetListing() returns (result: ListResult)
      modifies this, input
      ensures sent == old(sent) + HELLO
      ensures result.Listed? <==> ListingOf(old(input.rest)).Listed?
      ensures result.Listed? ==> result == ListingOf(old(input.rest)) && input.rest == result.rest
    {
      sent := sent + HELLO;
      ghost var s := input.rest;
      var ok, b := input.ReadFull(6);
      if !ok {
        return ListShort;
      }
      ok, b := input.ReadFull(8);
      if !ok {
        return ListShort;
      }
      assert b == s[6..14] && input.rest == s[14..];
      var info := DecodeInfo(b);
      result := ReadBatches(U16(info.srvCount), U16(info.batchSize));
    }

    /** The loop of GetListing. */
    method ReadBatches(totalSrv: nat, firstBatch: nat) returns (result: ListResult)
      modifies input
      ensures result.Listed? <==> ListFrom(old(input.rest), totalSrv, firstBatch).Listed?
      ensures result.Listed? ==> result == ListFrom(old(input.rest), totalSrv, firstBatch) && input.rest == result.rest
    {
      var servers: seq<ServerRecord>, batchSize: int, serversInCurrentBatch: int := [], firstBatch, 0;
      ghost var all, left, remaining := ListFrom(input.rest, totalSrv, firstBatch), batchSize, totalSrv;
      PrependTwice([], [], all);
      while |servers| < totalSrv
        invariant left == batchSize - serversInCurrentBatch && |servers| + remaining == totalSrv
        invariant ListOnward(all, servers, input.rest, remaining, left)
        decreases totalSrv - |servers|
      {
        ghost var t := TakeRecord(input.rest, left);
        ghost var fewer := remaining - 1;
        Turn(all, servers, input.rest, remaining, left, fewer);
        var srv;
        srv, batchSize, serversInCurrentBatch := ReadNext(batchSize, serversInCurrentBatch);
        if srv.RecordShort? {
          return ListShort;
        }
        assert ListOnward(all, servers + [srv.r], input.rest, fewer, t.left);
        servers := servers + [srv.r];
        serversInCurrentBatch := serversInCurrentBatch + 1;
        left, remaining := t.left, fewer;
      }
      ListDone(all, servers, input.rest, left);
      return Listed(servers, input.rest);
    }

    /** A turn of the loop: a header first if the current batch is used up, then a record. */
    method ReadNext(batchSize: int, serversInCurrentBatch: int)
      returns (srv: RecordResult, newBatchSize: int, newInBatch: int)
      modifies input
      ensures var t := TakeRecord(old(input.rest), batchSize - serversInCurrentBatch);
              && (srv.RecordRead? <==> t.Taken?)
              && (t.Taken? ==> srv.r == t.r && input.rest == t.rest && newBatchSize - newInBatch - 1 == t.left)
    {
      newBatchSize, newInBatch := batchSize, serversInCurrentBatch;
      if serversInCurrentBatch == batchSize {
        var ok, b := input.ReadFull(8);
        if !ok {
          return RecordShort, newBatchSize, newInBatch;
        }
        newBatchSize, newInBatch := U16(DecodeInfo(b).batchSize), 0;
      }
      srv := ReadServerRecord(input);
    }
  }

  /** The servers read so far and those still to come make up the whole list. */
  ghost predicate ListOnward(all: ListResult, servers: seq<ServerRecord>, s: bytes, remaining: nat, left: int) {
    all == Prepend(servers, ListFrom(s, remaining, left))
  }

  lemma Turn(all: ListResult, servers: seq<ServerRecord>, s: bytes, remaining: nat, left: int, fewer: nat)
    requires ListOnward(all, servers, s, remaining, left) && remaining == fewer + 1
    ensures var t := TakeRecord(s, left);
            if t.NotTaken? then all == ListShort else ListOnward(all, servers + [t.r], t.rest, fewer, t.left)
  {
    var t := TakeRecord(s, left);
    ListUnfolded(s, remaining, left, fewer, t);
    if t.Taken? {
      PrependTwice(servers, [t.r], ListFrom(t.rest, fewer, t.left));
    }
  }

  lemma ListDone(all: ListResult, servers: seq<ServerRecord>, s: bytes, left: int)
    requires ListOnward(all, servers, s, 0, left)
    ensures all == Listed(servers, s)
  {
    assert servers + [] == servers;
  }

  lemma ListUnfolded(s: bytes, remaining: nat, left: int, fewer: nat, t: Taken)
    requires remaining == fewer + 1 && t == TakeRecord(s, left)
    ensures ListFrom(s, remaining, left) ==
            if t.NotTaken? then ListShort else Prepend([t.r], ListFrom(t.rest, fewer, t.left))
  {
    assert remaining != 0 && remaining - 1 == fewer;
  }

  // ---------- What a tracker sends ----------

  function EncodeRecords(rs: seq<ServerRecord>): bytes {
    if rs == [] then [] else EncodeRecord(rs[0]) + EncodeRecords(rs[1..])
  }

  function BatchHeader(total: nat, batch: seq<ServerRecord>): ServerInfoHeader {
    ServerInfoHeader([0, 1], PutU16(|EncodeRecords(batch)| + 4), PutU16(total), PutU16(|batch|))
  }

  function EncodeBatches(total: nat, batches: seq<seq<ServerRecord>>): bytes {
    if batches == [] then [] else
      EncodeInfo(BatchHeader(total, batches[0])) + EncodeRecords(batches[0]) + EncodeBatches(total, batches[1..])
  }

  function All(batches: seq<seq<ServerRecord>>): seq<ServerRecord> {
    if batches == [] then [] else batches[0] + All(batches[1..])
  }

  predicate AllSized(batches: seq<seq<ServerRecord>>) {
    forall b, r :: b in batches && r in b ==> Sized(r)
  }

  datatype RecordsResult = RecordsRead(rs: seq<ServerRecord>, rest: bytes) | RecordsShort

  /** n records in a row. */
  function ParseRecords(s: bytes, n: nat): RecordsResult {
    if n == 0 then RecordsRead([], s) else
      var p := ParseRecord(s);
      if p.RecordShort? then RecordsShort else
        var others := ParseRecords(p.rest, n - 1);
        if others.RecordsShort? then RecordsShort else RecordsRead([p.r] + others.rs, others.rest)
  }

  lemma {:induction false} RecordsRoundTrip(rs: seq<ServerRecord>, more: bytes)
    requires forall r :: r in rs ==> Sized(r)
    ensures ParseRecords(EncodeRecords(rs) + more, |rs|) == RecordsRead(rs, more)
  {
    if rs == [] {
      assert EncodeRecords(rs) + more == more;
    } else {
      var rest := EncodeRecords(rs[1..]) + more;
      assert EncodeRecords(rs) + more == EncodeRecord(rs[0]) + rest;
      RecordRoundTrip(rs[0], rest);
      RecordsRoundTrip(rs[1..], more);
    }
  }

  /** The loop reads the records of a batch without looking for a header. */
  lemma {:induction false} BatchListed(s: bytes, n: nat, others: nat, total: nat)
    requires ParseRecords(s, n).RecordsRead? && total == n + others
    ensures ListFrom(s, total, n) == Prepend(ParseRecords(s, n).rs, ListFrom(ParseRecords(s, n).rest, others, 0))
  {
    if n == 0 {
      PrependTwice([], [], ListFrom(s, others, 0));
    } else {
      var m, rest := n - 1, total - 1;
      var p := ParseRecord(s);
      var q := ParseRecords(p.rest, m);
      var x, l1, l0 := ListFrom(q.rest, others, 0), ListFrom(p.rest, rest, m), ListFrom(s, total, n);
      assert l1 == Prepend(q.rs, x) by { BatchListed(p.rest, m, others, rest); }
      assert l0 == Prepend([p.r], l1) by { ListStep(s, total, n, rest, m); }
      assert l0 == Prepend([p.r] + q.rs, x) by { PrependTwice([p.r], q.rs, x); }
      assert ParseRecords(s, n) == RecordsRead([p.r] + q.rs, q.rest);
    }
  }

  lemma ListStep(s: bytes, remaining: nat, left: int, remaining': nat, left': int)
    requires left != 0 && ParseRecord(s).RecordRead?
    requires remaining == remaining' + 1 && left == left' + 1
    ensures ListFrom(s, remaining, left) ==
            Prepend([ParseRecord(s).r], ListFrom(ParseRecord(s).rest, remaining', left'))
  {
    var p := ParseRecord(s);
    ListUnfolded(s, remaining, left, remaining', Taken(p.r, p.rest, left'));
  }

  /** Records take up on the wire what their encodings take up. */
  lemma RecordLength(s: bytes)
    requires ParseRecord(s).RecordRead?
    ensures |s| == |EncodeRecord(ParseRecord(s).r)| + |ParseRecord(s).rest|
  {
  }

  lemma {:induction false} RecordsLength(s: bytes, n: nat)
    requires ParseRecords(s, n).RecordsRead?
    ensures |s| == |EncodeRecords(ParseRecords(s, n).rs)| + |ParseRecords(s, n).rest|
  {
    if n > 0 {
      var p := ParseRecord(s);
      RecordLength(s);
      RecordsLength(p.rest, n - 1);
      var others := ParseRecords(p.rest, n - 1).rs;
      assert ([p.r] + others)[1..] == others;
    }
  }

  lemma {:induction false} EncodeRecordsJoin(a: seq<ServerRecord>, b: seq<ServerRecord>)
    ensures EncodeRecords(a + b) == EncodeRecords(a) + EncodeRecords(b)
  {
    if a == [] {
      assert a + b == b;
    } else {
      assert (a + b)[1..] == a[1..] + b;
      EncodeRecordsJoin(a[1..], b);
    }
  }

  lemma {:induction false} BatchesLength(total: nat, batches: seq<seq<ServerRecord>>)
    ensures |EncodeBatches(total, batches)| == 8 * |batches| + |EncodeRecords(All(batches))|
  {
    if batches != [] {
      BatchesLength(total, batches[1..]);
      EncodeRecordsJoin(batches[0], All(batches[1..]));
    }
  }

  predicate NoneEmpty(batches: seq<seq<ServerRecord>>) {
    forall i :: 0 <= i < |batches| ==> batches[i] != []
  }

  lemma BatchFirst(total: nat, batches: seq<seq<ServerRecord>>, more: bytes)
    requires batches != []
    ensures EncodeBatches(total, batches) + more ==
            EncodeInfo(BatchHeader(total, batches[0]))
            + (EncodeRecords(batches[0]) + (EncodeBatches(total, batches[1..]) + more))
  {
  }

  lemma HeaderRoundTrip(total: nat, batch: seq<ServerRecord>, rest: bytes)
    requires |batch| < TWO16 && total < TWO16
    ensures var s, h := EncodeInfo(BatchHeader(total, batch)) + rest, BatchHeader(total, batch);
            DecodeInfo(s[..8]) == h && s[8..] == rest && U16(h.batchSize) == |batch| && U16(h.srvCount) == total
  {
    InfoRoundTrip(BatchHeader(total, batch));
    var s := EncodeInfo(BatchHeader(total, batch)) + rest;
    assert s[..8] == EncodeInfo(BatchHeader(total, batch));
  }

  lemma HeaderSkipped(s: bytes, remaining: nat, n: nat)
    requires |s| >= 8 && remaining > 0 && n > 0 && U16(DecodeInfo(s[..8]).batchSize) == n
    ensures ListFrom(s, remaining, 0) == ListFrom(s[8..], remaining, n)
  {
    assert TakeRecord(s, 0) == TakeRecord(s[8..], n);
  }

  function ListedRecords(p: RecordsResult): ListResult {
    if p.RecordsRead? then Listed(p.rs, p.rest) else ListShort
  }

  /** Below zero the loop never meets the end of a batch again: it reads records only. */
  lemma {:induction false} HeadersStop(s: bytes, remaining: nat, left: int)
    requires left < 0
    ensures ListFrom(s, remaining, left) == ListedRecords(ParseRecords(s, remaining))
  {
    if remaining > 0 {
      var p, n := ParseRecord(s), remaining - 1;
      var l := ListFrom(s, remaining, left);
      if p.RecordRead? {
        var others, l1 := ParseRecords(p.rest, n), ListFrom(p.rest, n, left - 1);
        assert l1 == ListedRecords(others) by { HeadersStop(p.rest, n, left - 1); }
        assert l == Prepend([p.r], l1) by { ListStep(s, remaining, left, n, left - 1); }
        assert ListedRecords(ParseRecords(s, remaining)) == Prepend([p.r], ListedRecords(others));
      } else {
        assert l == ListShort;
      }
    }
  }

  /** An empty batch where a header is due: what follows, headers and all, is read as records. */
  lemma EmptyBatchMisread(s: bytes, remaining: nat)
    requires |s| >= 8 && remaining > 0 && U16(DecodeInfo(s[..8]).batchSize) == 0
    ensures ListFrom(s, remaining, 0) == ListedRecords(ParseRecords(s[8..], remaining))
  {
    var s1, m := s[8..], remaining - 1;
    var p, l := ParseRecord(s1), ListFrom(s, remaining, 0);
    var t := if p.RecordRead? then Taken(p.r, p.rest, -1) else NotTaken;
    assert t == TakeRecord(s, 0);
    ListUnfolded(s, remaining, 0, m, t);
    if p.RecordRead? {
      var l1 := ListFrom(p.rest, m, -1);
      assert l == Prepend([p.r], l1);
      assert l1 == ListedRecords(ParseRecords(p.rest, m)) by { HeadersStop(p.rest, m, -1); }
    }
    ParseUnfolded(s1, remaining, m);
  }

  lemma ParseUnfolded(s: bytes, n: nat, fewer: nat)
    requires n == fewer + 1
    ensures var p := ParseRecord(s);
            ListedRecords(ParseRecords(s, n)) ==
            if p.RecordRead? then Prepend([p.r], ListedRecords(ParseRecords(p.rest, fewer))) else ListShort
  {
  }

  /** So a list that goes on with an empty batch leaves the wrong bytes unread, if it is not short. */
  lemma EmptyBatchLost(total: nat, batches: seq<seq<ServerRecord>>, more: bytes)
    requires batches != [] && batches[0] == [] && total < TWO16
    ensures ListFrom(EncodeBatches(total, batches) + more, |All(batches)|, 0) != Listed(All(batches), more)
  {
    var s, all := EncodeBatches(total, batches) + more, All(batches);
    BatchesLength(total, batches);
    assert |s| == 8 * |batches| + |EncodeRecords(all)| + |more|;
    if all != [] {
      assert |batches| > 1;
      BatchFirst(total, batches, more);
      HeaderRoundTrip(total, [], EncodeRecords([]) + (EncodeBatches(total, batches[1..]) + more));
      EmptyBatchMisread(s, |all|);
      if ParseRecords(s[8..], |all|).RecordsRead? {
        RecordsLength(s[8..], |all|);
      }
    }
  }

  lemma PrependIs(first: seq<ServerRecord>, r: ListResult, others: seq<ServerRecord>, rest: bytes)
    ensures Prepend(first, r) == Listed(first + others, rest) <==> r == Listed(others, rest)
  {
    if Prepend(first, r) == Listed(first + others, rest) {
      assert r.servers == (first + r.servers)[|first|..] == (first + others)[|first|..] == others;
    }
  }

  /** Where a header is due, the batches are listed as they are exactly when none of them is empty. */
  lemma {:induction false} BatchesListed(total: nat, batches: seq<seq<ServerRecord>>, more: bytes)
    requires AllSized(batches) && |All(batches)| < TWO16 && total < TWO16
    ensures ListFrom(EncodeBatches(total, batches) + more, |All(batches)|, 0) == Listed(All(batches), more)
            <==> NoneEmpty(batches)
    decreases |batches|, 1
  {
    if batches == [] {
      assert EncodeBatches(total, batches) + more == more;
    } else if batches[0] == [] {
      EmptyBatchLost(total, batches, more);
    } else {
      var first, n := batches[0], |batches[0]|;
      var s1 := EncodeRecords(first) + (EncodeBatches(total, batches[1..]) + more);
      BatchFirst(total, batches, more);
      HeaderRoundTrip(total, first, s1);
      HeaderSkipped(EncodeBatches(total, batches) + more, |All(batches)|, n);
      BehindHeader(total, batches, more);
      NoneEmptyStep(batches);
    }
  }

  lemma NoneEmptyStep(batches: seq<seq<ServerRecord>>)
    requires batches != []
    ensures NoneEmpty(batches) <==> batches[0] != [] && NoneEmpty(batches[1..])
  {
    assert forall i :: 1 <= i < |batches| ==> batches[i] == batches[1..][i - 1];
  }

  /** The same behind the header of the first batch, which may be empty. */
  lemma {:induction false} BehindHeader(total: nat, batches: seq<seq<ServerRecord>>, more: bytes)
    requires batches != [] && AllSized(batches) && |All(batches)| < TWO16 && total < TWO16
    ensures var s1 := EncodeRecords(batches[0]) + (EncodeBatches(total, batches[1..]) + more);
            ListFrom(s1, |All(batches)|, |batches[0]|) == Listed(All(batches), more) <==> NoneEmpty(batches[1..])
    decreases |batches|, 0
  {
    var first, others := batches[0], All(batches[1..]);
    var s2 := EncodeBatches(total, batches[1..]) + more;
    assert first in batches;
    RecordsRoundTrip(first, s2);
    BatchListed(EncodeRecords(first) + s2, |first|, |others|, |All(batches)|);
    BatchesListed(total, batches[1..], more);
    PrependIs(first, ListFrom(s2, |others|, 0), others, more);
  }

  /**
   Any list cut into batches is listed whole and in order, with one header read per batch so that what follows is left
   unread, exactly when none but the first batch is empty.
   */
  lemma ListedInOrder(greeting: bytes, batches: seq<seq<ServerRecord>>, more: bytes)
    requires |greeting| == 6 && batches != []
    requires AllSized(batches) && |All(batches)| < TWO16
    ensures ListingOf(greeting + (EncodeBatches(|All(batches)|, batches) + more)) == Listed(All(batches), more)
            <==> NoneEmpty(batches[1..])
  {
    var total := |All(batches)|;
    BatchFirst(total, batches, more);
    FirstHeader(greeting, total, batches[0], EncodeRecords(batches[0]) + (EncodeBatches(total, batches[1..]) + more));
    BehindHeader(total, batches, more);
  }

  const ZERO_RECORD := ServerRecord(Zeros(4), Zeros(2), Zeros(2), Zeros(2), 0, [], 0, [])

  lemma ZeroBatch()
    ensures EncodeRecords([ZERO_RECORD]) == Zeros(12)
    ensures EncodeBatches(2, [[ZERO_RECORD]]) == [0, 1, 0, 16, 0, 2, 0, 1] + Zeros(12)
  {
    var one := [ZERO_RECORD];
    var batches := [one];
    assert batches[1..] == [] && one[1..] == [];
    assert EncodeRecords(one) == EncodeRecord(ZERO_RECORD) + [] == Zeros(12);
    assert PutU16(16) == [0, 16] && PutU16(2) == [0, 2] && PutU16(1) == [0, 1];
    assert EncodeInfo(BatchHeader(2, one)) == [0, 1, 0, 16, 0, 2, 0, 1];
  }

  lemma HeaderAsRecord(s: bytes)
    requires s == [0, 1, 0, 16, 0, 2, 0, 1] + Zeros(12)
    ensures var p := ParseRecords(s, 1); p.RecordsRead? && |p.rs| == 1 && p.rs[0].ipAddr == [0, 1, 0, 16]
  {
    assert s[0..4] == [0, 1, 0, 16] && s[10..] == [0] + [] + Zeros(9) && Zeros(9) == [0] + [] + Zeros(8);
    StringRoundTrip([], 0, Zeros(9));
    StringRoundTrip([], 0, Zeros(8));
    assert ParseRecords(Zeros(8), 0).RecordsRead?;
  }

  /** Two servers in three batches of which the second is empty: the third's header is listed as a server's address. */
  lemma HeaderListedAsServer(greeting: bytes)
    requires |greeting| == 6
    ensures var r := ListingOf(greeting + (EncodeBatches(2, [[ZERO_RECORD], [], [ZERO_RECORD]]) + []));
            r.Listed? && |r.servers| == 2 && r.servers[1].ipAddr == [0, 1, 0, 16]
  {
    var one, none: seq<ServerRecord> := [ZERO_RECORD], [];
    var second, third := EncodeBatches(2, [none, one]) + [], EncodeBatches(2, [one]) + [];
    assert [one, none, one][1..] == [none, one] && [none, one][1..] == [one];
    BatchFirst(2, [one, none, one], []);
    FirstHeader(greeting, 2, one, EncodeRecords(one) + second);
    SecondListed(second, third);
    FirstListed(second);
  }

  lemma FirstListed(more: bytes)
    ensures ListFrom(EncodeRecords([ZERO_RECORD]) + more, 2, 1) == Prepend([ZERO_RECORD], ListFrom(more, 1, 0))
  {
    var one := [ZERO_RECORD];
    var s := EncodeRecords(one) + more;
    assert one[1..] == [] && EncodeRecords(one) == EncodeRecord(ZERO_RECORD) + [];
    assert s == EncodeRecord(ZERO_RECORD) + more;
    RecordRoundTrip(ZERO_RECORD, more);
    ListStep(s, 2, 1, 1, 0);
  }

  lemma SecondListed(second: bytes, third: bytes)
    requires second == EncodeBatches(2, [[], [ZERO_RECORD]]) + [] && third == EncodeBatches(2, [[ZERO_RECORD]]) + []
    ensures var r := ListFrom(second, 1, 0); r.Listed? && |r.servers| == 1 && r.servers[0].ipAddr == [0, 1, 0, 16]
  {
    var none: seq<ServerRecord> := [];
    var batches := [none, [ZERO_RECORD]];
    BatchFirst(2, batches, []);
    assert batches[1..] == [[ZERO_RECORD]] && EncodeRecords(none) + third == third;
    HeaderRoundTrip(2, none, third);
    EmptyBatchMisread(second, 1);
    ZeroBatch();
    HeaderAsRecord(third);
  }

  lemma FirstHeader(greeting: bytes, total: nat, batch: seq<ServerRecord>, rest: bytes)
    requires |greeting| == 6 && |batch| < TWO16 && total < TWO16
    ensures ListingOf(greeting + (EncodeInfo(BatchHeader(total, batch)) + rest)) == ListFrom(rest, total, |batch|)
  {
    var t := EncodeInfo(BatchHeader(total, batch)) + rest;
    var s := greeting + t;
    HeaderRoundTrip(total, batch, rest);
    assert s[6..14] == t[..8] && s[14..] == t[8..];
  }

  // ---------- An answer cut off ----------

  lemma StringStable(s: bytes, more: bytes)
    requires ParseString(s).StringRead?
    ensures ParseString(s + more) == ParseString(s).(rest := ParseString(s).rest + more)
  {
    var n: nat := 1 + s[0] as nat;
    assert (s + more)[1..n] == s[1..n] && (s + more)[n..] == s[n..] + more;
  }

  lemma RecordStable(s: bytes, more: bytes)
    requires ParseRecord(s).RecordRead?
    ensures ParseRecord(s + more) == ParseRecord(s).(rest := ParseRecord(s).rest + more)
  {
    var s0 := s[10..];
    var s1 := ParseString(s0).rest;
    assert (s + more)[10..] == s0 + more;
    assert (s + more)[0..4] == s[0..4] && (s + more)[4..6] == s[4..6];
    assert (s + more)[6..8] == s[6..8] && (s + more)[8..10] == s[8..10];
    StringStable(s0, more);
    StringStable(s1, more);
  }

  lemma TakenStable(s: bytes, left: int, more: bytes)
    requires TakeRecord(s, left).Taken?
    ensures TakeRecord(s + more, left) == TakeRecord(s, left).(rest := TakeRecord(s, left).rest + more)
  {
    if left == 0 {
      assert (s + more)[..8] == s[..8] && (s + more)[8..] == s[8..] + more;
      RecordStable(s[8..], more);
    } else {
      RecordStable(s, more);
    }
  }

  function Followed(r: ListResult, more: bytes): ListResult {
    if r.Listed? then Listed(r.servers, r.rest + more) else r
  }

  lemma PrependFollowed(servers: seq<ServerRecord>, r: ListResult, more: bytes)
    ensures Followed(Prepend(servers, r), more) == Prepend(servers, Followed(r, more))
  {
  }

  /** What is listed is listed from the front, whatever follows. */
  lemma {:induction false} ListStable(s: bytes, remaining: nat, left: int, more: bytes, s': bytes)
    requires ListFrom(s, remaining, left).Listed? && s' == s + more
    ensures ListFrom(s', remaining, left) == Followed(ListFrom(s, remaining, left), more)
    decreases remaining
  {
    if remaining > 0 {
      var all, all', fewer := ListFrom(s, remaining, left), ListFrom(s', remaining, left), remaining - 1;
      var t := TakeRecord(s, left);
      ListUnfolded(s, remaining, left, fewer, t);
      var rest' := t.rest + more;
      var others, others' := ListFrom(t.rest, fewer, t.left), ListFrom(rest', fewer, t.left);
      assert all' == Prepend([t.r], others') by {
        TakenStable(s, left, more);
        ListUnfolded(s', remaining, left, fewer, Taken(t.r, rest', t.left));
      }
      assert others' == Followed(others, more) by { ListStable(t.rest, fewer, t.left, more, rest'); }
      PrependFollowed([t.r], others, more);
    }
  }

  /** An answer that is listed whole with nothing left over is an error as soon as any of its bytes are missing. */
  lemma CutAnswerIsShort(s: bytes, n: nat)
    requires ListingOf(s).Listed? && ListingOf(s).rest == [] && n < |s|
    ensures ListingOf(s[..n]).ListShort?
  {
    var p, more := s[..n], s[n..];
    assert s == p + more;
    if n >= 14 {
      var info := DecodeInfo(p[6..14]);
      assert s[6..14] == p[6..14] && s[14..] == p[14..] + more;
      if ListingOf(p).Listed? {
        ListStable(p[14..], U16(info.srvCount), U16(info.batchSize), more, s[14..]);
      }
    }
  }
}
