/** What clients see of the news: the article list a category sends, and the push parser that takes it in. */
module NewsListing {
  import opened Bytes
  import opened NewsTree
  import opened Sorting
  import opened Streams

  // ---------- NewsArtListData ----------

  datatype ArtListData = ArtListData(id: bytes4, count: nat, name: bytes, description: bytes, artList: bytes)

  const NO_DATA := ArtListData([0, 0, 0, 0], 0, [], [], [])

  function EncodeList(d: ArtListData): bytes {
    d.id + PutU32(d.count) + [|d.name| % 256] + d.name + [|d.description| % 256] + d.description + d.artList
  }

  function NameLen(b: bytes): nat
    requires |b| >= 10
  {
    b[8]
  }

  /** The bytes before the article list, once all of them are in b. */
  function HeaderLen(b: bytes): (n: nat)
    ensures n == 0 || 10 <= n <= |b|
  {
    if |b| < 10 || |b| < 10 + NameLen(b) then 0 else
      var n: nat := b[9 + NameLen(b)];
      if |b| < 10 + NameLen(b) + n then 0 else 10 + NameLen(b) + n
  }

  /** What a list that showed d shows after looking at b: each part as soon as it is complete. */
  function Shown(d: ArtListData, b: bytes): ArtListData {
    if |b| < 10 then d else
      var d := d.(id := b[..4], count := U32(b[4..8]));
      if |b| < 9 + NameLen(b) then d else
        var d := d.(name := b[9..9 + NameLen(b)]);
        var n := HeaderLen(b);
        if n == 0 then d else d.(description := b[10 + NameLen(b)..n], artList := b[n..])
  }

  function ParseList(b: bytes): ArtListData {
    Shown(NO_DATA, b)
  }

  /** A list being written: what it shows, where its header ended if it has, and what it holds. */
  datatype Progress = Progress(shown: ArtListData, offset: nat, held: bytes)

  const NEW_LIST := Progress(NO_DATA, 0, [])

  function Written(l: Progress, p: bytes): Progress {
    var b := l.held + p;
    if l.offset > 0 then Progress(l.shown.(artList := l.shown.artList + p), l.offset, b)
    else Progress(Shown(l.shown, b), HeaderLen(b), if HeaderLen(b) > 0 then [] else b)
  }

  class NewsArtListData {
    var value: ArtListData
    var readOffset: nat
    var writeOffset: nat
    var writeBuf: bytes

    ghost function Value(): Progress
      reads `value, `writeOffset, `writeBuf
    {
      Progress(value, writeOffset, writeBuf)
    }

    constructor ()
      ensures Value() == NEW_LIST && readOffset == 0
    {
      value, readOffset, writeOffset, writeBuf := NO_DATA, 0, 0, [];
    }

    method Write(p: bytes) returns (n: nat)
      modifies `value, `writeOffset, `writeBuf
      ensures Value() == Written(old(Value()), p) && n == |p|
    {
      writeBuf := writeBuf + p;
      n := |p|;
      if writeOffset > 0 {
        value := value.(artList := value.artList + p);
        return;
      }
      if |writeBuf| < 10 {
        return;
      }
      value := value.(id := writeBuf[0..4]);
      value := value.(count := U32(writeBuf[4..8]));
      var nameLen: nat := writeBuf[8];
      var offset: nat := 9;
      if |writeBuf| < offset + nameLen {
        return;
      }
      value := value.(name := writeBuf[offset..offset + nameLen]);
      offset := offset + nameLen;
      if |writeBuf| < offset + 1 {
        return;
      }
      var descLen: nat := writeBuf[offset];
      offset := offset + 1;
      if |writeBuf| < offset + descLen {
        return;
      }
      value := value.(description := writeBuf[offset..offset + descLen]);
      offset := offset + descLen;
      value := value.(artList := writeBuf[offset..]);
      writeOffset := offset;
      writeBuf := [];
    }

    method Read(p: array<byte>) returns (n: nat, eof: bool)
      requires readOffset <= |EncodeList(value)|
      modifies p, this`readOffset
      ensures eof <==> old(readOffset) == |EncodeList(value)|
      ensures readOffset == old(readOffset) + n <= |EncodeList(value)| && n <= p.Length
      ensures p[..n] == EncodeList(value)[old(readOffset)..readOffset]
    {
      n, eof, readOffset := ReadFrom(p, readOffset, EncodeList(value));
    }
  }

  /** The list has received b in all. */
  predicate Received(l: Progress, b: bytes) {
    l.shown == ParseList(b) && l.offset == HeaderLen(b) && (l.offset == 0 ==> l.held == b)
  }

  /** Once the header is in, more bytes only lengthen the list. */
  lemma MoreIsListed(b: bytes, p: bytes)
    requires HeaderLen(b) > 0
    ensures HeaderLen(b + p) == HeaderLen(b)
    ensures ParseList(b + p) == ParseList(b).(artList := ParseList(b).artList + p)
  {
    var c, m, n := b + p, NameLen(b), HeaderLen(b);
    assert c[..4] == b[..4] && c[4..8] == b[4..8] && c[8] == b[8] && c[9 + m] == b[9 + m];
    assert c[9..9 + m] == b[9..9 + m] && c[10 + m..n] == b[10 + m..n] && c[n..] == b[n..] + p;
  }

  /** Before, looking at more of it shows the same as looking at it for the first time. */
  lemma LookedAgain(b: bytes, p: bytes)
    requires HeaderLen(b) == 0
    ensures Shown(ParseList(b), b + p) == ParseList(b + p)
  {
    var c := b + p;
    if |b| >= 10 {
      assert c[..4] == b[..4] && c[4..8] == b[4..8] && c[8] == b[8];
    }
  }

  /** However the bytes come, the list shows what one write of all of them would show. */
  lemma WriteReceives(l: Progress, b: bytes, p: bytes)
    requires Received(l, b)
    ensures Received(Written(l, p), b + p)
  {
    if HeaderLen(b) > 0 {
      MoreIsListed(b, p);
    } else {
      LookedAgain(b, p);
    }
  }

  /** Writing a list of chunks to a new list: only their concatenation matters. */
  method WriteAll(chunks: seq<bytes>) returns (shown: ArtListData)
    ensures shown == ParseList(Concat(chunks))
  {
    var list := new NewsArtListData();
    var i := 0;
    while i < |chunks|
      invariant 0 <= i <= |chunks| && fresh(list)
      invariant Received(list.Value(), Concat(chunks[..i]))
    {
      WriteReceives(list.Value(), Concat(chunks[..i]), chunks[i]);
      var n := list.Write(chunks[i]);
      ConcatAppend(chunks[..i], chunks[i]);
      assert chunks[..i + 1] == chunks[..i] + [chunks[i]];
      i := i + 1;
    }
    assert chunks[..|chunks|] == chunks;
    shown := list.value;
  }

  /** A list survives being read out and written back exactly when its lengths and count fit their bytes. */
  lemma ListRoundTrip(d: ArtListData)
    ensures ParseList(EncodeList(d)) == d <==> |d.name| < 256 && |d.description| < 256 && d.count < TWO32
  {
    var b := EncodeList(d);
    ListLayout(d);
    if |d.name| < 256 && |d.description| < 256 {
      assert HeaderLen(b) == 10 + |d.name| + |d.description|;
      assert b[10 + NameLen(b)..HeaderLen(b)] == d.description;
    }
  }

  lemma ListLayout(d: ArtListData)
    ensures var b := EncodeList(d);
            && |b| == 10 + |d.name| + |d.description| + |d.artList|
            && b[..4] == d.id && b[4..8] == PutU32(d.count) && b[8] == |d.name| % 256
            && b[9..9 + |d.name|] == d.name && b[9 + |d.name|] == |d.description| % 256
            && b[10 + |d.name|..10 + |d.name| + |d.description|] == d.description
            && b[10 + |d.name| + |d.description|..] == d.artList
  {
  }

  // ---------- The article list of a category ----------

  const NEWS_FLAVOR: bytes := [0x74, 0x65, 0x78, 0x74, 0x2f, 0x70, 0x6c, 0x61, 0x69, 0x6e]  // text/plain

  datatype NewsArtList = NewsArtList(
    id: bytes4, timeStamp: bytes8, parentID: bytes4, flags: bytes4, title: bytes, poster: bytes, articleSize: bytes2)

  function EncodeRecord(r: NewsArtList): bytes {
    r.id + r.timeStamp + r.parentID + r.flags + [0, 1] + [|r.title| % 256] + r.title
    + [|r.poster| % 256] + r.poster + [|NEWS_FLAVOR| % 256] + NEWS_FLAVOR + r.articleSize
  }

  /** The record of an article, with the ID it is sorted by. */
  function RecordOf(id: u32, art: Article): (r: Keyed<NewsArtList>)
    ensures r.key == U32(r.item.id)
  {
    Keyed(id, NewsArtList(PutU32(id), art.date, PutU32(art.parent), [0, 0, 0, 0],
                          art.title, art.poster, PutU16(|art.data|)))
  }

  function EncodeRecords(rs: seq<Keyed<NewsArtList>>): bytes {
    if rs == [] then [] else EncodeRecord(rs[0].item) + EncodeRecords(rs[1..])
  }

  lemma {:induction false} EncodeRecordsAppend(rs: seq<Keyed<NewsArtList>>, r: Keyed<NewsArtList>)
    ensures EncodeRecords(rs + [r]) == EncodeRecords(rs) + EncodeRecord(r.item)
  {
    if rs == [] {
      assert [r][1..] == [];
    } else {
      assert (rs + [r])[1..] == rs[1..] + [r];
      EncodeRecordsAppend(rs[1..], r);
    }
  }

  /** The records are those of the articles with the given IDs. */
  ghost predicate RecordsOf(arts: map<u32, Article>, ids: set<u32>, rs: seq<Keyed<NewsArtList>>)
    requires ids <= arts.Keys
  {
    && (forall r :: r in rs ==> r.key in ids && r == RecordOf(r.key, arts[r.key]))
    && (forall id :: id in ids ==> RecordOf(id, arts[id]) in rs)
  }

  /** One record per article, in strictly increasing order of the IDs. */
  ghost predicate ListingOrder(arts: map<u32, Article>, rs: seq<Keyed<NewsArtList>>) {
    Increasing(rs) && RecordsOf(arts, arts.Keys, rs)
  }

  /** The articles determine the records and their order. */
  lemma OneListing(arts: map<u32, Article>, rs: seq<Keyed<NewsArtList>>, rs': seq<Keyed<NewsArtList>>)
    requires ListingOrder(arts, rs) && ListingOrder(arts, rs')
    ensures rs == rs'
  {
    forall r
      ensures r in rs <==> r in rs'
    {
    }
    OneOrder(rs, rs');
  }

  datatype Listing = Listing(d: ArtListData) | NilFollowed

  function ArticlesIn(articles: map<u32, ArtRef>): map<u32, Article> {
    map id | id in articles && articles[id].Art? :: articles[id].art
  }

  /** A list of all articles: their number, and one record each in increasing order of the IDs. */
  ghost predicate IsListing(arts: map<u32, Article>, d: ArtListData) {
    exists rs ::
      ListingOrder(arts, rs) && d == ArtListData([0, 0, 0, 0], |rs|, [], [], EncodeRecords(rs))
  }

  /** So there is one such list. */
  lemma OneListData(arts: map<u32, Article>, d: ArtListData, d': ArtListData)
    ensures IsListing(arts, d) && IsListing(arts, d') ==> d == d'
  {
    if IsListing(arts, d) && IsListing(arts, d') {
      var rs :| ListingOrder(arts, rs) && d == ArtListData([0, 0, 0, 0], |rs|, [], [], EncodeRecords(rs));
      var rs' :| ListingOrder(arts, rs') && d' == ArtListData([0, 0, 0, 0], |rs'|, [], [], EncodeRecords(rs'));
      OneListing(arts, rs, rs');
    }
  }

  /**
   In whatever order the range loop meets the articles, the same list comes out; a nil article, as an undone delete can
   leave one, makes it panic.
   */
  method GetNewsArtListData(articles: map<u32, ArtRef>) returns (r: Listing)
    ensures r.NilFollowed? <==> exists id :: id in articles && articles[id].NilArt?
    ensures r.Listing? ==> IsListing(ArticlesIn(articles), r.d) && r.d.count == |articles|
  {
    var ok, newsArts := CollectRecords(articles);
    if !ok {
      return NilFollowed;
    }
    var sorted := Sort(newsArts);
    forall r
      ensures r in sorted <==> r in newsArts
    {
      assert r in multiset(sorted) <==> r in multiset(newsArts);
    }
    assert |multiset(sorted)| == |multiset(newsArts)|;
    var payload := Payload(sorted);
    assert ListingOrder(ArticlesIn(articles), sorted);
    return Listing(ArtListData([0, 0, 0, 0], |sorted|, [], [], payload));
  }

  method Payload(newsArts: seq<Keyed<NewsArtList>>) returns (payload: bytes)
    ensures payload == EncodeRecords(newsArts)
  {
    payload := [];
    var i := 0;
    while i < |newsArts|
      invariant 0 <= i <= |newsArts| && payload == EncodeRecords(newsArts[..i])
    {
      var b := Drain(EncodeRecord(newsArts[i].item), 0);
      EncodeRecordsAppend(newsArts[..i], newsArts[i]);
      assert newsArts[..i + 1] == newsArts[..i] + [newsArts[i]];
      payload := payload + b;
      i := i + 1;
    }
    assert newsArts[..|newsArts|] == newsArts;
  }

  lemma OneMoreRecord(arts: map<u32, Article>, ids: set<u32>, rs: seq<Keyed<NewsArtList>>, id: u32)
    requires ids <= arts.Keys && id in arts.Keys - ids
    requires RecordsOf(arts, ids, rs) && Distinct(rs)
    ensures RecordsOf(arts, ids + {id}, rs + [RecordOf(id, arts[id])])
    ensures Distinct(rs + [RecordOf(id, arts[id])])
  {
    OneMoreDistinct(rs, RecordOf(id, arts[id]));
  }

  lemma MoveOne(done: set<u32>, rest: set<u32>, id: u32)
    requires id in rest && done !! rest
    ensures (done + {id}) + (rest - {id}) == done + rest && (done + {id}) !! (rest - {id})
    ensures |done + {id}| == |done| + 1
  {
  }

  method CollectRecords(articles: map<u32, ArtRef>) returns (ok: bool, newsArts: seq<Keyed<NewsArtList>>)
    ensures ok <==> forall id :: id in articles ==> articles[id].Art?
    ensures ok ==> |newsArts| == |articles| && Distinct(newsArts)
                   && RecordsOf(ArticlesIn(articles), ArticlesIn(articles).Keys, newsArts)
  {
    newsArts := [];
    ghost var arts := ArticlesIn(articles);
    var rest := articles.Keys;
    ghost var done: set<u32> := {};
    while rest != {}
      invariant done + rest == articles.Keys && done !! rest && |newsArts| == |done| && done <= arts.Keys
      invariant RecordsOf(arts, done, newsArts)
      invariant Distinct(newsArts)
      decreases rest
    {
      var id :| id in rest;
      if articles[id].NilArt? {
        return false, newsArts;
      }
      MoveOne(done, rest, id);
      OneMoreRecord(arts, done, newsArts, id);
      newsArts := newsArts + [RecordOf(id, articles[id].art)];
      rest, done := rest - {id}, done + {id};
    }
    assert arts.Keys == articles.Keys;
    return true, newsArts;
  }
}
