/**
 Cutting a byte stream into tokens: the split functions of the wire protocol that check their bounds, and
 the scanning loop of bufio.Scanner that applies them to a buffer filled by reads of any size.
 */
module Framing {
  import opened Bytes

  const MAX_TOKEN := 65536  // bufio.MaxScanTokenSize
  const TRAN_HEADER_LEN := 20
  const MIN_FIELD_LEN := 4

  /** What a split function answers: nothing yet, or a token at the front of the data. */
  datatype Split = NeedMore | Token(advance: nat, token: bytes)

  /** transactionScanner: tranHeaderLen + totalSize is a uint32 sum, so it can wrap. */
  function TransactionScanner(data: bytes): Split {
    if |data| < 16 then NeedMore else
      var tranLen := Add32(TRAN_HEADER_LEN, U32(data[12..16]));
      if tranLen > |data| then NeedMore else Token(tranLen, data[..tranLen])
  }

  function FieldScanner(data: bytes): Split {
    if |data| < MIN_FIELD_LEN then NeedMore else
      var neededSize := MIN_FIELD_LEN + U16(data[2..4]);
      if neededSize > |data| then NeedMore else Token(neededSize, data[..neededSize])
  }

  /** pathSegmentScanner: two bytes, a length, and a name. */
  function PathSegmentScanner(data: bytes): Split {
    if |data| < 3 then NeedMore else
      var totalLen: nat := 3 + data[2] as nat;
      if |data| < totalLen then NeedMore else Token(totalLen, data[..totalLen])
  }

  datatype SplitFunc = Transactions | Fields | PathSegments
  {
    function Apply(data: bytes): (r: Split)
      ensures r.Token? ==> r.advance <= |data| && r.token == data[..r.advance]
    {
      if Transactions? then TransactionScanner(data)
      else if Fields? then FieldScanner(data)
      else PathSegmentScanner(data)
    }

    /** The bytes that must be there before the split function can tell anything. */
    const prefix: nat := if Transactions? then 16 else if Fields? then MIN_FIELD_LEN else 3
  }

  /** More data after a token does not change it. */
  lemma Stable(f: SplitFunc, data: bytes, more: bytes)
    requires f.Apply(data).Token?
    ensures f.Apply(data + more) == f.Apply(data)
  {
    var n := f.Apply(data).advance;
    assert (data + more)[..n] == data[..n];
    if f.Transactions? {
      assert (data + more)[12..16] == data[12..16];
    } else if f.Fields? {
      assert (data + more)[2..4] == data[2..4];
    }
  }

  /** A token is found as soon as it and the prefix have arrived. */
  lemma Complete(f: SplitFunc, data: bytes, more: bytes)
    requires f.Apply(data + more).Token?
    requires |data| >= f.prefix && |data| >= f.Apply(data + more).advance
    ensures f.Apply(data) == f.Apply(data + more)
  {
    var n := f.Apply(data + more).advance;
    assert (data + more)[..n] == data[..n];
    if f.Transactions? {
      assert (data + more)[12..16] == data[12..16];
    } else if f.Fields? {
      assert (data + more)[2..4] == data[2..4];
    }
  }

  /** The scanner moves past a whole header exactly when the announced size does not wrap. */
  lemma AdvancesByHeader(data: bytes)
    requires TransactionScanner(data).Token?
    ensures TransactionScanner(data).advance >= TRAN_HEADER_LEN <==> U32(data[12..16]) <= TWO32 - TRAN_HEADER_LEN - 1
  {
  }

  // ---------- One pass over a whole stream ----------

  datatype ScanResult = Tok(token: bytes, rest: bytes) | AtEOF | TooLong

  /** The next token of a stream that is all there. */
  function Next(f: SplitFunc, s: bytes): (r: ScanResult)
    ensures r.Tok? ==> s == r.token + r.rest && |r.token| <= MAX_TOKEN
  {
    match f.Apply(s)
    case Token(n, t) => if n <= MAX_TOKEN then Tok(t, s[n..]) else TooLong
    case NeedMore => if |s| < MAX_TOKEN then AtEOF else TooLong
  }

  datatype Ending = EndOfStream | TokenTooLong | NoProgress
  datatype Frames = Frames(tokens: seq<bytes>, leftover: bytes, ending: Ending)

  /** All tokens of a stream, up to its end or to a token that takes nothing from it. */
  function FramesOf(f: SplitFunc, s: bytes): Frames
    decreases |s|
  {
    match Next(f, s)
    case AtEOF => Frames([], s, EndOfStream)
    case TooLong => Frames([], s, TokenTooLong)
    case Tok(t, rest) =>
      if t == [] then Frames([], s, NoProgress) else
        var r := FramesOf(f, rest);
        r.(tokens := [t] + r.tokens)
  }

  lemma FramesStep(f: SplitFunc, s: bytes)
    requires Next(f, s).Tok? && Next(f, s).token != []
    ensures var r := FramesOf(f, Next(f, s).rest);
            FramesOf(f, s) == r.(tokens := [Next(f, s).token] + r.tokens)
  {
  }

  /** Nothing is lost or made up: the tokens and what is left over are the stream. */
  lemma {:induction false} FramesAreTheStream(f: SplitFunc, s: bytes)
    ensures Concat(FramesOf(f, s).tokens) + FramesOf(f, s).leftover == s
    decreases |s|
  {
    var next := Next(f, s);
    if next.Tok? && next.token != [] {
      FramesAreTheStream(f, next.rest);
      var r := FramesOf(f, next.rest);
      FramesStep(f, s);
      ConcatCons(next.token, r.tokens);
      Associates(next.token, Concat(r.tokens), r.leftover);
    }
  }

  lemma {:induction false} TokensAreBounded(f: SplitFunc, s: bytes)
    ensures forall t :: t in FramesOf(f, s).tokens ==> 0 < |t| <= MAX_TOKEN
    decreases |s|
  {
    var next := Next(f, s);
    if next.Tok? && next.token != [] {
      TokensAreBounded(f, next.rest);
    }
  }

  /** Every token is its own first token, once it is long enough to hold its size. */
  lemma {:induction false} TokensStandAlone(f: SplitFunc, s: bytes)
    ensures forall t :: t in FramesOf(f, s).tokens && |t| >= f.prefix ==> f.Apply(t) == Token(|t|, t)
    decreases |s|
  {
    match Next(f, s)
    case AtEOF =>
    case TooLong =>
    case Tok(t, rest) =>
      if t != [] {
        TokensStandAlone(f, rest);
        if |t| >= f.prefix {
          Complete(f, t, rest);
        }
      }
  }

  // ---------- The scanner ----------

  datatype ScanErr = NoErr | EOF | ErrTooLong

  /** bufio.Scanner over a reader; each Read delivers some of what is still to arrive. */
  class Scanner {
    const split: SplitFunc
    var pending: bytes   // buf[start:end]
    var arriving: bytes  // what the reader has not delivered yet
    var err: ScanErr

    ghost predicate Valid()
      reads this
    {
      |pending| <= MAX_TOKEN && (err.EOF? ==> arriving == [] && |pending| < MAX_TOKEN) && !err.ErrTooLong?
    }

    constructor (split: SplitFunc, stream: bytes)
      ensures Valid() && this.split == split && pending == [] && arriving == stream
    {
      this.split := split;
      pending, arriving, err := [], stream, NoErr;
    }

    /** Whatever sizes the reads have, the outcome is that of one look at the whole stream. */
    method Scan() returns (more: bool, token: bytes)
      requires Valid()
      modifies this
      ensures var next := Next(split, old(pending + arriving));
              && (more <==> next.Tok?)
              && (more ==> Valid() && token == next.token && pending + arriving == next.rest)
              && (next.AtEOF? ==> err.EOF?) && (next.TooLong? ==> err.ErrTooLong?)
    {
      ghost var stream := pending + arriving;
      token := [];
      while true
        invariant Valid() && pending + arriving == stream
        decreases |arriving|, if err.EOF? then 0 else 1
      {
        if |pending| > 0 || err.EOF? {
          var r := split.Apply(pending);
          if r.Token? {
            Stable(split, pending, arriving);
            assert (pending + arriving)[r.advance..] == pending[r.advance..] + arriving;
            pending, token := pending[r.advance..], r.token;
            return true, token;
          }
        }
        if err.EOF? {
          assert pending == stream;
          pending := [];
          return false, token;
        }
        if |pending| == MAX_TOKEN {
          if split.Apply(stream).Token? && split.Apply(stream).advance <= MAX_TOKEN {
            Complete(split, pending, arriving);
          }
          err := ErrTooLong;
          return false, token;
        }
        if arriving == [] {
          err := EOF;
        } else {
          var n: nat :| 1 <= n <= |arriving| && n <= MAX_TOKEN - |pending|;
          pending, arriving := pending + arriving[..n], arriving[n..];
        }
      }
    }

    /** Scanning until there is no token, or one that takes nothing. */
    method ScanAll() returns (tokens: seq<bytes>)
      requires Valid()
      modifies this
      ensures tokens == FramesOf(split, old(pending + arriving)).tokens
    {
      tokens := [];
      ghost var all := FramesOf(split, pending + arriving).tokens;
      while true
        invariant Valid() && tokens + FramesOf(split, pending + arriving).tokens == all
        decreases |pending + arriving|
      {
        ghost var stream := pending + arriving;
        var more, token := Scan();
        if !more || token == [] {
          assert FramesOf(split, stream).tokens == [];
          return;
        }
        assert FramesOf(split, stream).tokens == [token] + FramesOf(split, pending + arriving).tokens;
        tokens := tokens + [token];
      }
    }
  }
}
