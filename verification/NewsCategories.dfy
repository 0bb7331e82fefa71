/**
 Categories and bundles on the wire. NewsCategoryListData15.Write takes one record at most from what has come, however
 much that is, so what a category shows can depend on how the bytes were cut into writes.
 */
module NewsCategories {
  import opened Bytes
  import opened Streams
  import NewsTree

  const NEWS_CATEGORY: bytes2 := [0, 3]

  datatype CategoryData = CategoryData(kind: bytes2, guid: bytes16, addSN: bytes4, deleteSN: bytes4, name: bytes)

  const NO_CATEGORY := CategoryData([0, 0], Zeros(16), [0, 0, 0, 0], [0, 0, 0, 0], [])

  /** NewsCategoryListData15.Read; count is the number of articles and subcategories. */
  function EncodeCategory(c: CategoryData, count: nat): bytes {
    c.kind + PutU16(count) + (if c.kind == NEWS_CATEGORY then c.guid + c.addSN + c.deleteSN else [])
    + [|c.name| % 256] + c.name
  }

  lemma SameOrder(c: CategoryData, count: nat, out: bytes)
    requires out == (if c.kind == NEWS_CATEGORY then c.kind + PutU16(count) + c.guid + c.addSN + c.deleteSN
                     else c.kind + PutU16(count)) + [|c.name| % 256] + c.name
    ensures out == EncodeCategory(c, count)
  {
  }

  /** Where the length byte of the name stands. */
  function NameAt(b: bytes): nat
    requires |b| >= 5
  {
    if b[..2] == NEWS_CATEGORY then 28 else 4
  }

  /** The length of the record at the front of b, once all of it is there. */
  function RecordLen(b: bytes): (n: nat)
    ensures n == 0 || 5 <= n <= |b|
  {
    if |b| < 5 || |b| <= NameAt(b) then 0 else
      var n := NameAt(b) + 1 + b[NameAt(b)];
      if |b| < n then 0 else n
  }

  /** What a category that showed c shows after looking at b: of each part, as soon as it is there. */
  function Overlay(c: CategoryData, b: bytes): CategoryData {
    if |b| < 5 then c else
      var c := c.(kind := b[..2]);
      var c := if c.kind == NEWS_CATEGORY && |b| >= 28
               then c.(guid := b[4..20], addSN := b[20..24], deleteSN := b[24..28]) else c;
      if RecordLen(b) == 0 then c else c.(name := b[NameAt(b) + 1..RecordLen(b)])
  }

  /** What a category shows and what it still holds. */
  datatype Progress = Progress(shown: CategoryData, held: bytes)

  const NEW_CATEGORY := Progress(NO_CATEGORY, [])

  /** One write: a look at everything held, of which a complete record is let go. */
  function Written(c: Progress, p: bytes): Progress {
    var b := c.held + p;
    Progress(Overlay(c.shown, b), b[RecordLen(b)..])
  }

  function WrittenAll(c: Progress, chunks: seq<bytes>): Progress
    decreases |chunks|
  {
    if chunks == [] then c else WrittenAll(Written(c, chunks[0]), chunks[1..])
  }

  class NewsCategoryListData15 {
    var value: CategoryData
    var articles: NewsTree.ArtMap
    var subCats: NewsTree.CatMap
    var readOffset: nat
    var writeOffset: nat
    var writeBuf: bytes

    ghost function Value(): Progress
      reads `value, `writeBuf
    {
      Progress(value, writeBuf)
    }

    constructor ()
      ensures Value() == NEW_CATEGORY && writeOffset == 0 && readOffset == 0
    {
      value, readOffset, writeOffset, writeBuf := NO_CATEGORY, 0, 0, [];
      articles, subCats := NewsTree.NilArts, NewsTree.NilCats;
    }

    /** How many articles and subcategories there are. */
    function Count(): nat
      reads `articles, `subCats
    {
      (if articles.Arts? then |articles.m| else 0) + if subCats.Cats? then |subCats.m| else 0
    }

    method Read(p: array<byte>) returns (n: nat, eof: bool)
      requires readOffset <= |EncodeCategory(value, Count())|
      modifies p, this`readOffset
      ensures var b := EncodeCategory(value, Count());
              && (eof <==> old(readOffset) == |b|)
              && readOffset == old(readOffset) + n <= |b| && n <= p.Length
              && p[..n] == b[old(readOffset)..readOffset]
    {
      var arts := if articles.Arts? then |articles.m| else 0;
      var subs := if subCats.Cats? then |subCats.m| else 0;
      var out := value.kind + PutU16(arts + subs);
      if value.kind == NEWS_CATEGORY {
        out := out + value.guid + value.addSN + value.deleteSN;
      }
      out := out + [|value.name| % 256] + value.name;
      SameOrder(value, arts + subs, out);
      n, eof, readOffset := ReadFrom(p, readOffset, out);
    }

    method Write(p: bytes) returns (n: nat)
      modifies this`value, this`articles, this`subCats, this`writeOffset, this`writeBuf
      ensures Value() == Written(old(Value()), p) && n == |p|
      ensures var len := RecordLen(old(writeBuf) + p);
              && writeOffset == (if len == 0 then old(writeOffset) else len)
              && articles == (if len > 0 && old(articles).NilArts? then NewsTree.Arts(map[]) else old(articles))
              && subCats == (if len > 0 && old(subCats).NilCats? then NewsTree.Cats(map[]) else old(subCats))
    {
      writeBuf := writeBuf + p;
      n := |p|;
      if |writeBuf| < 5 {
        return;
      }
      value := value.(kind := writeBuf[0..2]);
      var offset: nat := 4;
      if value.kind == NEWS_CATEGORY {
        if |writeBuf| < offset + 24 {
          return;
        }
        assert |writeBuf[20..24]| == |writeBuf[24..28]| == 4;
        value := value.(guid := writeBuf[offset..offset + 16]);
        offset := offset + 16;
        value := value.(addSN := writeBuf[offset..offset + 4]);
        offset := offset + 4;
        value := value.(deleteSN := writeBuf[offset..offset + 4]);
        offset := offset + 4;
      }
      if |writeBuf| < offset + 1 {
        return;
      }
      var nameLen: nat := writeBuf[offset];
      offset := offset + 1;
      if |writeBuf| < offset + nameLen {
        return;
      }
      value := value.(name := writeBuf[offset..offset + nameLen]);
      offset := offset + nameLen;
      InitMaps();
      writeBuf := writeBuf[offset..];
      writeOffset := offset;
    }

    method InitMaps()
      modifies `articles, `subCats
      ensures articles == if old(articles).NilArts? then NewsTree.Arts(map[]) else old(articles)
      ensures subCats == if old(subCats).NilCats? then NewsTree.Cats(map[]) else old(subCats)
    {
      if articles.NilArts? {
        articles := NewsTree.Arts(map[]);
      }
      if subCats.NilCats? {
        subCats := NewsTree.Cats(map[]);
      }
    }
  }

  /** A list of chunks written to a new category. */
  method WriteAll(chunks: seq<bytes>) returns (shown: CategoryData)
    ensures shown == WrittenAll(NEW_CATEGORY, chunks).shown
  {
    var category := new NewsCategoryListData15();
    var i := 0;
    while i < |chunks|
      invariant 0 <= i <= |chunks| && fresh(category)
      invariant WrittenAll(category.Value(), chunks[i..]) == WrittenAll(NEW_CATEGORY, chunks)
    {
      var n := category.Write(chunks[i]);
      assert chunks[i..][1..] == chunks[i + 1..];
      i := i + 1;
    }
    assert chunks[i..] == [];
    shown := category.value;
  }

  // ---------- When the cuts do not show ----------

  /** Nothing b holds, record after record and the start of another, changes what is shown. */
  predicate Steady(c: CategoryData, b: bytes)
    decreases |b|
  {
    Overlay(c, b) == c && (RecordLen(b) > 0 ==> Steady(c, b[RecordLen(b)..]))
  }

  /** All that follows the first record shows what the first record shows. */
  predicate CutsDoNotShow(b: bytes) {
    RecordLen(b) > 0 ==> Steady(Overlay(NO_CATEGORY, b), b[RecordLen(b)..])
  }

  /** A complete record stays as it is when more comes. */
  lemma RecordGrows(b: bytes, p: bytes)
    requires RecordLen(b) > 0
    ensures RecordLen(b + p) == RecordLen(b) && b[RecordLen(b)..] + p == (b + p)[RecordLen(b)..]
    ensures forall c :: Overlay(c, b + p) == Overlay(c, b)
  {
    var d := b + p;
    var at := NameAt(b);
    assert d[..2] == b[..2] && d[at] == b[at];
    assert d[at + 1..RecordLen(b)] == b[at + 1..RecordLen(b)];
    if |b| >= 28 {
      assert d[4..20] == b[4..20] && d[20..24] == b[20..24] && d[24..28] == b[24..28];
    }
  }

  /** Having looked at the start of a record makes no difference once more of it is looked at. */
  lemma LookedAgain(c: CategoryData, b: bytes, p: bytes)
    requires RecordLen(b) == 0
    ensures Overlay(Overlay(c, b), b + p) == Overlay(c, b + p)
  {
    if |b| >= 5 {
      assert (b + p)[..2] == b[..2];
    }
  }

  /** If the whole of it changes nothing, neither does its start. */
  lemma StartIsSteady(c: CategoryData, b: bytes, p: bytes)
    requires RecordLen(b) == 0 && Overlay(c, b + p) == c
    ensures Overlay(c, b) == c
  {
    var d := b + p;
    if |b| >= 5 {
      assert d[..2] == b[..2];
      if |b| >= 28 {
        assert d[4..20] == b[4..20] && d[20..24] == b[20..24] && d[24..28] == b[24..28];
      }
    }
  }

  lemma SteadyStep(c: Progress, p: bytes, more: bytes)
    requires Steady(c.shown, c.held + p + more)
    ensures var d := Written(c, p); d.shown == c.shown && Steady(c.shown, d.held + more)
  {
    var b := c.held + p;
    if RecordLen(b) == 0 {
      StartIsSteady(c.shown, b, more);
    } else {
      RecordGrows(b, more);
    }
  }

  lemma {:induction false} SteadyAll(c: Progress, chunks: seq<bytes>)
    requires Steady(c.shown, c.held + Concat(chunks))
    ensures WrittenAll(c, chunks).shown == c.shown
    decreases |chunks|
  {
    if chunks != [] {
      var more := Concat(chunks[1..]);
      assert c.held + Concat(chunks) == c.held + chunks[0] + more;
      SteadyStep(c, chunks[0], more);
      SteadyAll(Written(c, chunks[0]), chunks[1..]);
    }
  }

  /** However the bytes are cut, a category shows what the first record shows, as long as nothing later differs. */
  lemma {:induction false} FirstRecordShown(held: bytes, chunks: seq<bytes>)
    requires RecordLen(held) == 0 && CutsDoNotShow(held + Concat(chunks))
    ensures WrittenAll(Progress(Overlay(NO_CATEGORY, held), held), chunks).shown ==
            Overlay(NO_CATEGORY, held + Concat(chunks))
    decreases |chunks|
  {
    if chunks == [] {
      assert held + [] == held;
    } else {
      var b, more := held + chunks[0], Concat(chunks[1..]);
      assert held + Concat(chunks) == b + more;
      LookedAgain(NO_CATEGORY, held, chunks[0]);
      if RecordLen(b) == 0 {
        assert b[0..] == b;
        FirstRecordShown(b, chunks[1..]);
      } else {
        RecordGrows(b, more);
        SteadyAll(Progress(Overlay(NO_CATEGORY, b), b[RecordLen(b)..]), chunks[1..]);
      }
    }
  }

  lemma WrittenFirst(c: Progress, first: bytes, others: seq<bytes>)
    ensures WrittenAll(c, [first] + others) == WrittenAll(Written(c, first), others)
    ensures WrittenAll(c, [first]) == Written(c, first) && Concat([first]) == first
  {
    assert ([first] + others)[1..] == others && [first][1..] == [];
    assert first + Concat([]) == first;
  }

  /** Writing a record that is all there shows it and holds nothing. */
  lemma WholeRecord(c: CategoryData, b: bytes)
    requires RecordLen(b) > 0
    ensures Written(Progress(c, []), b[..RecordLen(b)]) == Progress(Overlay(c, b), [])
  {
    var n := RecordLen(b);
    var first := b[..n];
    assert first[..2] == b[..2] && first[NameAt(b)] == b[NameAt(b)];
    assert RecordLen(first) == n;
    RecordGrows(first, b[n..]);
    assert first + b[n..] == b && [] + first == first && first[n..] == [];
  }

  /** Otherwise there is a cut that does show: one write per record up to one that differs. */
  lemma {:induction false} ShowingCut(c: CategoryData, b: bytes) returns (chunks: seq<bytes>)
    requires !Steady(c, b)
    ensures Concat(chunks) == b && WrittenAll(Progress(c, []), chunks).shown != c
    decreases |b|
  {
    if Overlay(c, b) != c {
      chunks := [b];
      assert [] + b == b;
      WrittenFirst(Progress(c, []), b, []);
    } else {
      var n := RecordLen(b);
      var first, rest := b[..n], b[n..];
      var others := ShowingCut(c, rest);
      chunks := [first] + others;
      ConcatCons(first, others);
      WrittenFirst(Progress(c, []), first, others);
      WholeRecord(c, b);
    }
  }

  /** The cuts of b after a first record that is followed by something else. */
  lemma SomeCutShows(b: bytes) returns (chunks: seq<bytes>)
    requires !CutsDoNotShow(b)
    ensures Concat(chunks) == b && WrittenAll(NEW_CATEGORY, chunks).shown != Overlay(NO_CATEGORY, b)
  {
    var n := RecordLen(b);
    var first, rest := b[..n], b[n..];
    assert first + rest == b;
    var c := Overlay(NO_CATEGORY, b);
    var others := ShowingCut(c, rest);
    chunks := [first] + others;
    assert Concat(chunks) == first + rest by { ConcatCons(first, others); }
    assert Written(NEW_CATEGORY, first) == Progress(c, []) by { WholeRecord(NO_CATEGORY, b); }
    WrittenFirst(NEW_CATEGORY, first, others);
  }

  lemma CutsShowFirst(chunks: seq<bytes>)
    requires CutsDoNotShow(Concat(chunks))
    ensures WrittenAll(NEW_CATEGORY, chunks).shown == Overlay(NO_CATEGORY, Concat(chunks))
  {
    assert [] + Concat(chunks) == Concat(chunks);
    FirstRecordShown([], chunks);
  }

  /**
   All ways of cutting b into writes show what one write shows if and only if everything after its first record shows
   what the first record shows.
   */
  lemma AllCutsShowTheSame(b: bytes)
    ensures CutsDoNotShow(b) <==>
            forall chunks :: Concat(chunks) == b ==>
              WrittenAll(NEW_CATEGORY, chunks).shown == Written(NEW_CATEGORY, b).shown
  {
    assert [] + b == b;
    if CutsDoNotShow(b) {
      forall chunks | Concat(chunks) == b
        ensures WrittenAll(NEW_CATEGORY, chunks).shown == Written(NEW_CATEGORY, b).shown
      {
        CutsShowFirst(chunks);
      }
    } else {
      var chunks := SomeCutShows(b);
    }
  }

  /** Two complete records: one write shows the first, a write each ends with the second. */
  lemma TwoRecordsShowTheSplit(first: bytes, second: bytes)
    requires RecordLen(first) == |first| > 0 && RecordLen(second) == |second| > 0
    ensures Written(NEW_CATEGORY, first + second).shown == Overlay(NO_CATEGORY, first)
    ensures WrittenAll(NEW_CATEGORY, [first] + [second]).shown == Overlay(Overlay(NO_CATEGORY, first), second)
  {
    var c := Overlay(NO_CATEGORY, first);
    RecordGrows(first, second);
    assert [] + (first + second) == first + second && first[..|first|] == first && second[..|second|] == second;
    WrittenFirst(NEW_CATEGORY, first, [second]);
    WholeRecord(NO_CATEGORY, first);
    WrittenFirst(Progress(c, []), second, []);
    WholeRecord(c, second);
  }

  /** For instance, a bundle called A and one called B. */
  lemma SplitSeen()
    ensures var a, b: bytes := [0, 2, 0, 0, 1, 65], [0, 2, 0, 0, 1, 66];
            && Written(NEW_CATEGORY, a + b).shown.name == [65]
            && WrittenAll(NEW_CATEGORY, [a] + [b]).shown.name == [66]
  {
    var a, b: bytes := [0, 2, 0, 0, 1, 65], [0, 2, 0, 0, 1, 66];
    assert a[..2] == b[..2] == [0, 2] && a[5..6] == [65] && b[5..6] == [66];
    assert RecordLen(a) == RecordLen(b) == 6;
    TwoRecordsShowTheSplit(a, b);
  }

  /** What goes out of a category: a bundle's numbers do not. */
  function AsSent(c: CategoryData): CategoryData {
    if c.kind == NEWS_CATEGORY then c else c.(guid := Zeros(16), addSN := [0, 0, 0, 0], deleteSN := [0, 0, 0, 0])
  }

  predicate LaidOut(b: bytes, c: CategoryData) {
    && |b| >= 5 && b[..2] == c.kind
    && |b| == NameAt(b) + 1 + |c.name| && b[NameAt(b)] == |c.name| % 256 && b[NameAt(b) + 1..] == c.name
    && (c.kind == NEWS_CATEGORY ==> b[4..20] == c.guid && b[20..24] == c.addSN && b[24..28] == c.deleteSN)
  }

  lemma Layout(c: CategoryData, count: nat)
    ensures LaidOut(EncodeCategory(c, count), c)
  {
  }

  lemma ReadFromLayout(b: bytes, c: CategoryData)
    requires LaidOut(b, c)
    ensures |c.name| < 256 <==> RecordLen(b) == |b| && Overlay(NO_CATEGORY, b) == AsSent(c)
  {
    if |c.name| < 256 {
      assert b[NameAt(b) + 1..|b|] == c.name;
    }
  }

  /**
   An encoded category is read back as it was sent exactly when its name fits its length byte; behind its type is the
   number of articles and subcategories.
   */
  lemma CategoryRoundTrip(c: CategoryData, count: nat)
    ensures U16(EncodeCategory(c, count)[2..4]) == count % TWO16
    ensures |c.name| < 256 <==> Written(NEW_CATEGORY, EncodeCategory(c, count)) == Progress(AsSent(c), [])
  {
    var b := EncodeCategory(c, count);
    Layout(c, count);
    ReadFromLayout(b, c);
    assert [] + b == b;
  }
}
