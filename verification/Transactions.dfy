/** Fields and transactions: their wire form, reading it back, and the loop that serves a stream. */
module Transactions {
  import opened Bytes
  import opened Framing
  import opened Streams

  // ---------- Fields ----------

  datatype FieldValue = FieldValue(ftype: bytes2, size: bytes2, data: bytes)

  function NewField(ftype: bytes2, data: bytes): FieldValue {
    FieldValue(ftype, PutU16(|data|), data)
  }

  /** The size a field announces is the size of its data. */
  predicate Sized(f: FieldValue) {
    U16(f.size) == |f.data|
  }

  function EncodeField(f: FieldValue): (b: bytes) {
    f.ftype + f.size + f.data
  }

  datatype FieldResult = Read(field: FieldValue) | TooShort

  function ParseField(p: bytes): FieldResult {
    if |p| < MIN_FIELD_LEN then TooShort else
      var dataSize := U16(p[2..4]);
      if |p| < MIN_FIELD_LEN + dataSize then TooShort
      else Read(FieldValue(p[0..2], p[2..4], p[4..4 + dataSize]))
  }

  class Field {
    var value: FieldValue

    constructor ()
      ensures value == FieldValue([0, 0], [0, 0], [])
    {
      value := FieldValue([0, 0], [0, 0], []);
    }

    method Write(p: bytes) returns (n: nat, ok: bool)
      modifies this`value
      ensures ok <==> ParseField(p).Read?
      ensures ok ==> value == ParseField(p).field && n == MIN_FIELD_LEN + |value.data|
    {
      if |p| < MIN_FIELD_LEN {
        return 0, false;
      }
      value := value.(ftype := p[0..2], size := p[2..4]);
      var dataSize := U16(value.size);
      if |p| < MIN_FIELD_LEN + dataSize {
        return 0, false;
      }
      value := value.(data := p[4..4 + dataSize]);
      return MIN_FIELD_LEN + dataSize, true;
    }
  }

  /** A field is written back exactly when it announces its own size. */
  lemma FieldRoundTrip(f: FieldValue, more: bytes)
    ensures Sized(f) <==> ParseField(EncodeField(f)) == Read(f)
    ensures Sized(f) ==> FieldScanner(EncodeField(f) + more) == Token(|EncodeField(f)|, EncodeField(f))
  {
    var b := EncodeField(f);
    assert b[0..2] == f.ftype && b[2..4] == f.size && b[4..] == f.data;
    if Sized(f) {
      assert (b + more)[2..4] == f.size && (b + more)[..|b|] == b && b[4..4 + |f.data|] == f.data;
    }
  }

  /** Data of up to 65535 bytes makes a field that announces its size; longer data does not. */
  lemma NewFieldSized(ftype: bytes2, data: bytes)
    ensures Sized(NewField(ftype, data)) <==> |data| < TWO16
  {
  }

  /** Field.Write takes every token of FieldScanner whole. */
  lemma FieldTokensAccepted(data: bytes)
    requires FieldScanner(data).Token?
    ensures var t := FieldScanner(data).token;
            ParseField(t).Read? && EncodeField(ParseField(t).field) == t && Sized(ParseField(t).field)
  {
    var t := FieldScanner(data).token;
    assert t[2..4] == data[2..4];
    assert t[0..2] + t[2..4] + t[4..4 + U16(t[2..4])] == t;
  }

  // ---------- The fields of a transaction ----------

  function EncodeFields(fields: seq<FieldValue>): bytes {
    if fields == [] then [] else EncodeField(fields[0]) + EncodeFields(fields[1..])
  }

  function FieldsSize(fields: seq<FieldValue>): (n: nat) {
    if fields == [] then 0 else |fields[0].data| + 4 + FieldsSize(fields[1..])
  }

  lemma {:induction false} FieldsSizeIsLength(fields: seq<FieldValue>)
    ensures FieldsSize(fields) == |EncodeFields(fields)|
  {
    if fields != [] {
      FieldsSizeIsLength(fields[1..]);
    }
  }

  lemma {:induction false} FieldsSizeAppend(fields: seq<FieldValue>, f: FieldValue)
    ensures FieldsSize(fields + [f]) == FieldsSize(fields) + |f.data| + 4
    ensures EncodeFields(fields + [f]) == EncodeFields(fields) + EncodeField(f)
  {
    if fields == [] {
      assert [f][1..] == [];
    } else {
      assert (fields + [f])[1..] == fields[1..] + [f];
      FieldsSizeAppend(fields[1..], f);
    }
  }

  /** All the fields, or those before one that is missing. */
  datatype FieldsResult = FieldsRead(fields: seq<FieldValue>) | FieldMissing(fields: seq<FieldValue>)

  /** count fields from the front of data, found by FieldScanner. */
  function ParseFields(data: bytes, count: nat): (r: FieldsResult)
    ensures r.FieldsRead? ==> |r.fields| == count
  {
    if count == 0 then FieldsRead([]) else
      match Next(Fields, data)
      case Tok(t, rest) =>
        if ParseField(t).TooShort? then FieldMissing([]) else
          var others := ParseFields(rest, count - 1);
          others.(fields := [ParseField(t).field] + others.fields)
      case _ => FieldMissing([])
  }

  lemma {:induction false} FieldsRoundTrip(fields: seq<FieldValue>)
    requires forall f :: f in fields ==> Sized(f)
    requires |EncodeFields(fields)| <= MAX_TOKEN
    ensures ParseFields(EncodeFields(fields), |fields|) == FieldsRead(fields)
  {
    if fields != [] {
      var more := EncodeFields(fields[1..]);
      FieldRoundTrip(fields[0], more);
      var b := EncodeField(fields[0]);
      assert (b + more)[|b|..] == more;
      assert Next(Fields, b + more) == Tok(b, more);
      FieldsRoundTrip(fields[1..]);
      assert [fields[0]] + fields[1..] == fields;
    }
  }

  // ---------- Transactions ----------

  datatype TransactionValue = TransactionValue(
    flags: byte, isReply: byte, ttype: bytes2, id: bytes4, errorCode: bytes4,
    totalSize: bytes4, dataSize: bytes4, paramCount: bytes2, fields: seq<FieldValue>)

  function PayloadSize(fields: seq<FieldValue>): bytes4 {
    PutU32(FieldsSize(fields) + 2)
  }

  function Header(t: TransactionValue): (b: bytes)
    ensures |b| == 22
  {
    var size := PayloadSize(t.fields);
    [t.flags, t.isReply] + t.ttype + t.id + t.errorCode + size + size + PutU16(|t.fields|)
  }

  function Encode(t: TransactionValue): bytes {
    Header(t) + EncodeFields(t.fields)
  }

  datatype ParseResult = Parsed(t: TransactionValue) | Rejected | OutOfRange

  /** Transaction.Write on a new transaction; OutOfRange where the slice p[22:tranLen] would panic. */
  function ParseTransaction(p: bytes): (r: ParseResult)
    ensures r.Parsed? ==> |p| >= 22
  {
    if |p| < 22 then Rejected else
      var tranLen := Add32(TRAN_HEADER_LEN, U32(p[12..16]));
      if tranLen < 22 || tranLen > |p| then OutOfRange else
        var fields := ParseFields(p[22..tranLen], U16(p[20..22]));
        if fields.FieldMissing? then Rejected
        else Parsed(WithHeader(p, fields.fields))
  }

  /** The fields found before the end, or before an error. */
  function FieldsIn(p: bytes): seq<FieldValue>
    requires |p| >= 22
  {
    var tranLen := Add32(TRAN_HEADER_LEN, U32(p[12..16]));
    if tranLen < 22 || tranLen > |p| then [] else ParseFields(p[22..tranLen], U16(p[20..22])).fields
  }

  /** The 22 bytes before the fields. */
  function WithHeader(p: bytes, fields: seq<FieldValue>): TransactionValue
    requires |p| >= 22
  {
    TransactionValue(p[0], p[1], p[2..4], p[4..8], p[8..12], p[12..16], p[16..20], p[20..22], fields)
  }

  class Transaction {
    var flags: byte
    var isReply: byte
    var ttype: bytes2
    var id: bytes4
    var errorCode: bytes4
    var totalSize: bytes4
    var dataSize: bytes4
    var paramCount: bytes2
    var fields: seq<FieldValue>
    var readOffset: nat

    ghost function Value(): TransactionValue
      reads `flags, `isReply, `ttype, `id, `errorCode, `totalSize, `dataSize, `paramCount, `fields
    {
      TransactionValue(flags, isReply, ttype, id, errorCode, totalSize, dataSize, paramCount, fields)
    }

    constructor ()
      ensures fields == [] && readOffset == 0
    {
      flags, isReply, ttype, id, errorCode := 0, 0, [0, 0], [0, 0, 0, 0], [0, 0, 0, 0];
      totalSize, dataSize, paramCount := [0, 0, 0, 0], [0, 0, 0, 0], [0, 0];
      fields, readOffset := [], 0;
    }

    method Write(p: bytes) returns (r: ParseResult)
      modifies `flags, `isReply, `ttype, `id, `errorCode, `totalSize, `dataSize, `paramCount, `fields
      ensures r == ParseTransaction(p)
      ensures Value() == if |p| < 22 then old(Value()) else WithHeader(p, old(fields) + FieldsIn(p))
    {
      if |p| < 22 {
        return Rejected;
      }
      var tranLen := Add32(TRAN_HEADER_LEN, U32(p[12..16]));
      var count := U16(p[20..22]);
      ReadHeader(p);
      if tranLen < 22 || tranLen > |p| {
        return OutOfRange;
      }
      var before := |fields|;
      var ok := WriteFields(p[22..tranLen], count);
      if !ok {
        return Rejected;
      }
      return Parsed(WithHeader(p, fields[before..]));
    }

    method ReadHeader(p: bytes)
      requires |p| >= 22
      modifies `flags, `isReply, `ttype, `id, `errorCode, `totalSize, `dataSize, `paramCount
      ensures Value() == WithHeader(p, fields)
    {
      flags, isReply, ttype, id, errorCode := p[0], p[1], p[2..4], p[4..8], p[8..12];
      totalSize, dataSize, paramCount := p[12..16], p[16..20], p[20..22];
    }

    /** The loop over paramCount in Write, which appends each field it scans. */
    method WriteFields(data: bytes, count: nat) returns (ok: bool)
      modifies this`fields
      ensures ok <==> ParseFields(data, count).FieldsRead?
      ensures fields == old(fields) + ParseFields(data, count).fields
    {
      var scanner := new Scanner(Fields, data);
      assert [] + data == data;
      ghost var all, sofar := ParseFields(data, count), [];
      JoinNone(all);
      assert scanner.pending + scanner.arriving == data;
      var i := 0;
      while i < count
        invariant fresh(scanner) && scanner.Valid() && scanner.split == Fields
        invariant FieldsOnward(all, sofar, scanner.pending + scanner.arriving, i, count)
        invariant fields == old(fields) + sofar
      {
        ghost var left := scanner.pending + scanner.arriving;
        var found, field := ScanField(scanner);
        if !found {
          FieldsEnd(all, sofar, left, i, count);
          return false;
        }
        FieldsOnwardStep(all, sofar, left, i, count, field, scanner.pending + scanner.arriving);
        fields, sofar := fields + [field], sofar + [field];
        i := i + 1;
      }
      FieldsEnd(all, sofar, scanner.pending + scanner.arriving, i, count);
      return true;
    }

    /** One scan and the field it gives. */
    static method ScanField(scanner: Scanner) returns (found: bool, f: FieldValue)
      requires scanner.Valid() && scanner.split == Fields
      modifies scanner
      ensures var next := Next(Fields, old(scanner.pending + scanner.arriving));
              && (found <==> next.Tok? && ParseField(next.token).Read?)
              && (found ==> f == ParseField(next.token).field
                            && scanner.Valid() && scanner.pending + scanner.arriving == next.rest)
    {
      var field := new Field();
      var more, token := scanner.Scan();
      if !more {
        return false, field.value;
      }
      var n, ok := field.Write(token);
      return ok, field.value;
    }

    method Size() returns (bs: bytes4)
      ensures bs == PayloadSize(fields)
    {
      var fieldSize, i := 0, 0;
      while i < |fields|
        invariant 0 <= i <= |fields| && fieldSize == FieldsSize(fields[..i])
      {
        assert fields[..i + 1] == fields[..i] + [fields[i]];
        FieldsSizeAppend(fields[..i], fields[i]);
        fieldSize := fieldSize + |fields[i].data| + 4;
        i := i + 1;
      }
      assert fields[..|fields|] == fields;
      return PutU32(fieldSize + 2);
    }

    /** The bytes Read copies from: each field is drained in turn into a buffer. */
    method Bytes() returns (buf: bytes)
      ensures buf == Encode(Value())
    {
      var payloadSize := Size();
      var bbuf, i := [], 0;
      while i < |fields|
        invariant 0 <= i <= |fields| && bbuf == EncodeFields(fields[..i])
      {
        assert fields[..i + 1] == fields[..i] + [fields[i]];
        FieldsSizeAppend(fields[..i], fields[i]);
        var encoded := Drain(fields[i].ftype + fields[i].size + fields[i].data, 0);
        bbuf := bbuf + encoded;
        i := i + 1;
      }
      assert fields[..|fields|] == fields;
      buf := [flags, isReply] + ttype + id + errorCode + payloadSize + payloadSize + PutU16(|fields|) + bbuf;
    }

    method Read(p: array<byte>) returns (n: nat, eof: bool)
      requires readOffset <= |Encode(Value())|
      modifies p, this`readOffset
      ensures eof <==> old(readOffset) == |Encode(Value())|
      ensures readOffset == old(readOffset) + n <= |Encode(Value())| && n <= p.Length
      ensures p[..n] == Encode(Value())[old(readOffset)..readOffset]
      ensures !eof && p.Length > 0 ==> n > 0
    {
      var buf := Bytes();
      n, eof, readOffset := ReadFrom(p, readOffset, buf);
    }

    /** io.Copy of a transaction to a connection: any buffers, one byte string. */
    method Send() returns (out: bytes)
      requires readOffset <= |Encode(Value())|
      modifies this`readOffset
      ensures out == Encode(Value())[old(readOffset)..]
    {
      out := [];
      ghost var all, start := Encode(Value()), readOffset;
      while true
        invariant start <= readOffset <= |all| && out == all[start..readOffset]
        decreases |all| - readOffset
      {
        var size: nat :| size > 0;
        var p := new byte[size];
        ghost var before := readOffset;
        var n, eof := Read(p);
        if eof {
          return;
        }
        assert all[start..before] + all[before..readOffset] == all[start..readOffset];
        out := out + p[..n];
      }
    }
  }

  /** The fields read so far, and the outcome of the rest. */
  ghost function JoinFields(sofar: seq<FieldValue>, rest: FieldsResult): FieldsResult {
    rest.(fields := sofar + rest.fields)
  }

  lemma JoinNone(rest: FieldsResult)
    ensures JoinFields([], rest) == rest
  {
    assert [] + rest.fields == rest.fields;
  }

  lemma JoinStep(sofar: seq<FieldValue>, f: FieldValue, rest: FieldsResult)
    ensures JoinFields(sofar, rest.(fields := [f] + rest.fields)) == JoinFields(sofar + [f], rest)
  {
    assert sofar + ([f] + rest.fields) == sofar + [f] + rest.fields;
  }

  /** The i fields found so far and those still to come make up all of them. */
  ghost predicate FieldsOnward(all: FieldsResult, sofar: seq<FieldValue>, left: bytes, i: nat, count: nat) {
    i <= count && all == JoinFields(sofar, ParseFields(left, count - i))
  }

  lemma FieldsEnd(all: FieldsResult, sofar: seq<FieldValue>, left: bytes, i: nat, count: nat)
    requires FieldsOnward(all, sofar, left, i, count)
    requires i < count ==> !Next(Fields, left).Tok? || ParseField(Next(Fields, left).token).TooShort?
    ensures all == if i < count then FieldMissing(sofar) else FieldsRead(sofar)
  {
    assert sofar + [] == sofar;
  }

  lemma FieldsOnwardStep(
    all: FieldsResult, sofar: seq<FieldValue>, left: bytes, i: nat, count: nat, f: FieldValue, rest: bytes)
    requires FieldsOnward(all, sofar, left, i, count) && i < count
    requires var next := Next(Fields, left);
             next.Tok? && ParseField(next.token).Read? && f == ParseField(next.token).field && rest == next.rest
    ensures FieldsOnward(all, sofar + [f], rest, i + 1, count)
  {
    JoinStep(sofar, f, ParseFields(rest, count - i - 1));
  }

  /** A transaction that fits a token and whose fields announce their sizes. */
  predicate Sendable(t: TransactionValue) {
    && |Encode(t)| <= MAX_TOKEN
    && forall f :: f in t.fields ==> Sized(f)
  }

  /** What the receiver sees: sizes and count filled in by the sender. */
  function AsReceived(t: TransactionValue): TransactionValue {
    t.(totalSize := PayloadSize(t.fields), dataSize := PayloadSize(t.fields), paramCount := PutU16(|t.fields|))
  }

  /** Where the parts of a transaction stand in its bytes. */
  predicate LaidOut(b: bytes, r: TransactionValue, more: bytes) {
    && |b| == 22 + |more|
    && b[0] == r.flags && b[1] == r.isReply && b[2..4] == r.ttype && b[4..8] == r.id && b[8..12] == r.errorCode
    && b[12..16] == r.totalSize && b[16..20] == r.dataSize && b[20..22] == r.paramCount
    && b[22..] == more
  }

  lemma HeaderParts(t: TransactionValue, more: bytes)
    ensures LaidOut(Header(t) + more, AsReceived(t), more)
  {
  }

  lemma ParsedFromLayout(b: bytes, r: TransactionValue, more: bytes)
    requires LaidOut(b, r, more)
    requires U32(r.totalSize) + 20 == |b| < TWO32
    requires ParseFields(more, U16(r.paramCount)) == FieldsRead(r.fields)
    ensures ParseTransaction(b) == Parsed(r)
  {
    var size, count := U32(b[12..16]), U16(b[20..22]);
    assert Add32(TRAN_HEADER_LEN, size) == |b|;
    assert b[22..|b|] == more;
    var fields := ParseFields(b[22..|b|], count);
    assert fields == FieldsRead(r.fields);
  }

  lemma {:induction false} FieldsCost(fields: seq<FieldValue>)
    ensures FieldsSize(fields) >= 4 * |fields|
  {
    if fields != [] {
      FieldsCost(fields[1..]);
    }
  }

  /** Whatever follows on the stream, transactionScanner cuts off exactly the bytes of the transaction. */
  lemma TransactionCutOff(t: TransactionValue, more: bytes)
    requires Sendable(t)
    ensures TransactionScanner(Encode(t) + more) == Token(|Encode(t)|, Encode(t))
  {
    var b := Encode(t);
    TransactionLength(t);
    HeaderParts(t, EncodeFields(t.fields));
    assert (b + more)[12..16] == b[12..16] && (b + more)[..|b|] == b;
  }

  /** Transaction.Write reads the same header and fields from those bytes. */
  lemma TransactionRoundTrip(t: TransactionValue)
    requires Sendable(t)
    ensures ParseTransaction(Encode(t)) == Parsed(AsReceived(t))
  {
    var b, more := Encode(t), EncodeFields(t.fields);
    TransactionLength(t);
    HeaderParts(t, more);
    FieldsRoundTrip(t.fields);
    ParsedFromLayout(b, AsReceived(t), more);
  }

  /** The sizes a sent transaction announces are its own. */
  lemma TransactionLength(t: TransactionValue)
    requires Sendable(t)
    ensures U32(PayloadSize(t.fields)) + 20 == |Encode(t)|
    ensures U16(PutU16(|t.fields|)) == |t.fields|
  {
    FieldsSizeIsLength(t.fields);
    FieldsCost(t.fields);
  }

  /** Whatever the size field says, Transaction.Write never slices out of range on a scanned token. */
  lemma TokensNeverOutOfRange(data: bytes)
    requires TransactionScanner(data).Token?
    ensures !ParseTransaction(TransactionScanner(data).token).OutOfRange?
    ensures var t := TransactionScanner(data).token;
            |t| >= 22 ==> Add32(TRAN_HEADER_LEN, U32(t[12..16])) == |t|
  {
    var t := TransactionScanner(data).token;
    if |t| >= 22 {
      assert t[12..16] == data[12..16];
    }
  }

  // ---------- What is accepted ----------

  /** The fields announce their sizes, fit a token each, and stand one after the other at the front of data. */
  predicate FieldsOf(fields: seq<FieldValue>, data: bytes) {
    && (forall f :: f in fields ==> Sized(f) && |EncodeField(f)| <= MAX_TOKEN)
    && EncodeFields(fields) <= data
  }

  lemma FieldsCons(f: FieldValue, others: seq<FieldValue>, data: bytes, rest: bytes)
    requires Sized(f) && |EncodeField(f)| <= MAX_TOKEN && data == EncodeField(f) + rest
    ensures FieldsOf([f] + others, data) <==> FieldsOf(others, rest)
  {
    var b, more, all := EncodeField(f), EncodeFields(others), [f] + others;
    assert all[1..] == others && forall g :: g in all <==> g == f || g in others;
    assert EncodeFields(all) == b + more;
    PrefixBehind(b, more, rest);
  }

  lemma PrefixBehind(a: bytes, b: bytes, c: bytes)
    ensures a + b <= a + c <==> b <= c
  {
    assert (a + c)[|a|..] == c && (a + b)[|a|..] == b;
    if a + b <= a + c {
      assert b == (a + c)[..|a + b|][|a|..];
    }
  }

  lemma SplitBehind(a: bytes, b: bytes, data: bytes)
    requires a + b <= data
    ensures data == a + data[|a|..]
  {
    assert data[..|a|] == (a + b)[..|a|] == a;
  }

  lemma {:induction false} FoundFields(data: bytes, count: nat)
    requires ParseFields(data, count).FieldsRead?
    ensures FieldsOf(ParseFields(data, count).fields, data)
  {
    if count > 0 {
      var next := Next(Fields, data);
      var f, others := ParseField(next.token).field, ParseFields(next.rest, count - 1).fields;
      FieldTokensAccepted(data);
      FoundFields(next.rest, count - 1);
      FieldsCons(f, others, data, next.rest);
    }
  }

  lemma FieldFirst(f: FieldValue, rest: bytes)
    requires Sized(f) && |EncodeField(f)| <= MAX_TOKEN
    ensures Next(Fields, EncodeField(f) + rest) == Tok(EncodeField(f), rest)
    ensures ParseField(EncodeField(f)) == Read(f)
  {
    FieldRoundTrip(f, rest);
    assert (EncodeField(f) + rest)[|EncodeField(f)|..] == rest;
  }

  lemma ParsedFirst(f: FieldValue, rest: bytes, others: seq<FieldValue>, n: nat)
    requires Sized(f) && |EncodeField(f)| <= MAX_TOKEN && ParseFields(rest, n) == FieldsRead(others)
    ensures ParseFields(EncodeField(f) + rest, n + 1) == FieldsRead([f] + others)
  {
    FieldFirst(f, rest);
  }

  lemma {:induction false} FieldsFound(fields: seq<FieldValue>, data: bytes)
    requires FieldsOf(fields, data)
    ensures ParseFields(data, |fields|) == FieldsRead(fields)
  {
    if fields != [] {
      var b, others := EncodeField(fields[0]), fields[1..];
      assert fields == [fields[0]] + others && fields[0] in fields;
      var rest := data[|b|..];
      SplitBehind(b, EncodeFields(others), data);
      FieldsCons(fields[0], others, data, rest);
      FieldsFound(others, rest);
      ParsedFirst(fields[0], rest, others, |others|);
    }
  }

  /**
   A transaction whose announced size is there is accepted exactly when as many fields as it announces stand in its
   payload, and then with its own header and those fields.
   */
  lemma AcceptedExactly(p: bytes)
    requires |p| >= 22
    ensures var tranLen := Add32(TRAN_HEADER_LEN, U32(p[12..16]));
            22 <= tranLen <= |p| ==>
              && (ParseTransaction(p).Parsed? <==>
                    exists fields :: |fields| == U16(p[20..22]) && FieldsOf(fields, p[22..tranLen]))
              && (ParseTransaction(p).Parsed? ==>
                    var t := ParseTransaction(p).t;
                    && |t.fields| == U16(p[20..22]) && FieldsOf(t.fields, p[22..tranLen])
                    && LaidOut(p, t, p[22..]))
  {
    var tranLen := Add32(TRAN_HEADER_LEN, U32(p[12..16]));
    if 22 <= tranLen <= |p| {
      var data, n := p[22..tranLen], U16(p[20..22]);
      if ParseFields(data, n).FieldsRead? {
        FoundFields(data, n);
      }
      if fields :| |fields| == n && FieldsOf(fields, data) {
        FieldsFound(fields, data);
      }
    }
  }

  // ---------- Serving a connection ----------

  datatype Ending = StreamEnded | Refused | Panicked
  datatype Served = Served(handled: seq<TransactionValue>, ending: Ending)

  function After(handled: seq<TransactionValue>, r: Served): Served {
    Served(handled + r.handled, r.ending)
  }

  lemma AfterStep(handled: seq<TransactionValue>, t: TransactionValue, r: Served)
    ensures After(handled, After([t], r)) == After(handled + [t], r)
  {
    assert handled + ([t] + r.handled) == handled + [t] + r.handled;
  }

  /** The transactions a stream holds, up to the first token that is refused. */
  function ServedFrom(s: bytes): Served
    decreases |s|
  {
    match Next(Transactions, s)
    case Tok(t, rest) =>
      (match ParseTransaction(t)
       case Parsed(value) => After([value], ServedFrom(rest))
       case Rejected => Served([], Refused)
       case OutOfRange => Served([], Panicked))
    case _ => Served([], StreamEnded)
  }

  /** No stream, whatever its sizes say, makes the loop panic. */
  lemma {:induction false} ServingNeverPanics(s: bytes)
    ensures !ServedFrom(s).ending.Panicked?
    decreases |s|
  {
    match Next(Transactions, s)
    case Tok(t, rest) =>
      TokensNeverOutOfRange(s);
      if ParseTransaction(t).Parsed? {
        ServingNeverPanics(rest);
      }
    case _ =>
  }

  /** The loop of handleNewConnection: every token is parsed and handled until one is refused. */
  method Serve(stream: bytes) returns (r: Served)
    ensures r == ServedFrom(stream)
  {
    var scanner := new Scanner(Transactions, stream);
    var handled := [];
    assert scanner.pending + scanner.arriving == stream;
    while true
      invariant fresh(scanner) && scanner.Valid() && scanner.split == Transactions
      invariant ServedFrom(stream) == After(handled, ServedFrom(scanner.pending + scanner.arriving))
      decreases |scanner.pending + scanner.arriving|
    {
      ghost var left := scanner.pending + scanner.arriving;
      var more, token := scanner.Scan();
      if !more {
        return Served(handled, StreamEnded);
      }
      var t := new Transaction();
      var parsed := t.Write(token);
      if !parsed.Parsed? {
        return Served(handled, if parsed.Rejected? then Refused else Panicked);
      }
      AfterStep(handled, parsed.t, ServedFrom(scanner.pending + scanner.arriving));
      handled := handled + [parsed.t];
    }
  }

  lemma ServedFirst(t: TransactionValue, rest: bytes)
    requires Sendable(t)
    ensures ServedFrom(Encode(t) + rest) == After([AsReceived(t)], ServedFrom(rest))
  {
    var b := Encode(t);
    TransactionCutOff(t, rest);
    TransactionRoundTrip(t);
    assert (b + rest)[|b|..] == rest;
    assert Next(Transactions, b + rest) == Tok(b, rest);
  }

  function EncodeAll(ts: seq<TransactionValue>): bytes {
    if ts == [] then [] else Encode(ts[0]) + EncodeAll(ts[1..])
  }

  function AllAsReceived(ts: seq<TransactionValue>): seq<TransactionValue> {
    if ts == [] then [] else [AsReceived(ts[0])] + AllAsReceived(ts[1..])
  }

  lemma AfterAll(first: TransactionValue, others: seq<TransactionValue>, more: seq<TransactionValue>)
    ensures [first] + (others + more) == [first] + others + more
  {
  }

  /**
   Any list of transactions sent back to back, with any bytes after it, is handled in order; what
   follows is handled as if it stood alone.
   */
  lemma {:induction false} SentIsServed(ts: seq<TransactionValue>, more: bytes)
    requires forall t :: t in ts ==> Sendable(t)
    ensures ServedFrom(EncodeAll(ts) + more).ending == ServedFrom(more).ending
    ensures ServedFrom(EncodeAll(ts) + more).handled ==
            AllAsReceived(ts) + ServedFrom(more).handled
  {
    if ts == [] {
      assert EncodeAll(ts) + more == more;
    } else {
      var b, rest := Encode(ts[0]), EncodeAll(ts[1..]) + more;
      assert EncodeAll(ts) + more == b + rest;
      ServedFirst(ts[0], rest);
      SentIsServed(ts[1..], more);
      AfterAll(AsReceived(ts[0]), AllAsReceived(ts[1..]), ServedFrom(more).handled);
    }
  }

  /**
   A token that is refused ends the connection: what was sent before it has been handled, and nothing that follows it
   is, whatever that is.
   */
  lemma {:induction false} RefusedEndsIt(ts: seq<TransactionValue>, bad: bytes, more: bytes)
    requires forall t :: t in ts ==> Sendable(t)
    requires TransactionScanner(bad) == Token(|bad|, bad) && |bad| <= MAX_TOKEN && ParseTransaction(bad).Rejected?
    ensures ServedFrom(EncodeAll(ts) + (bad + more)) == Served(AllAsReceived(ts), Refused)
  {
    if ts == [] {
      assert EncodeAll(ts) + (bad + more) == bad + more;
      Stable(Transactions, bad, more);
      assert (bad + more)[|bad|..] == more;
      assert Next(Transactions, bad + more) == Tok(bad, more);
    } else {
      var rest := EncodeAll(ts[1..]) + (bad + more);
      assert EncodeAll(ts) + (bad + more) == Encode(ts[0]) + rest;
      ServedFirst(ts[0], rest);
      RefusedEndsIt(ts[1..], bad, more);
    }
  }
}
