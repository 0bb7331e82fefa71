/** What a client makes of the list of a category's articles: its records, taken apart from the front. */
module NewsRows {
  import opened Bytes
  import opened NewsTree
  import opened NewsListing
  import opened Sorting

  datatype Row = Row(
    id: u32, timeStamp: bytes8, parent: u32, flags: bytes4, title: bytes, poster: bytes, flavor: bytes, size: u16)
  datatype RowResult = RowRead(row: Row, rest: bytes) | NoRow
  datatype RowsResult = RowsRead(rows: seq<Row>, rest: bytes) | NoRows

  datatype TextResult = TextRead(t: bytes, rest: bytes) | NoText

  /** A text behind its length byte. */
  function ReadText(b: bytes): (r: TextResult)
    ensures r.TextRead? ==> |r.t| <= 255
  {
    if |b| == 0 then NoText else
      var n: nat := 1 + b[0] as int;
      if |b| < n then NoText else TextRead(b[1..n], b[n..])
  }

  /** ID, date, parent, flags, a flavor count of one, title, poster, flavor and size. */
  function ReadRow(b: bytes): (r: RowResult)
    ensures r.RowRead? ==> |r.row.title| <= 255 && |r.row.poster| <= 255
  {
    if |b| < 22 || b[20..22] != [0, 1] then NoRow else
      var title := ReadText(b[22..]);
      if title.NoText? then NoRow else
        var poster := ReadText(title.rest);
        if poster.NoText? then NoRow else
          var flavor := ReadText(poster.rest);
          if flavor.NoText? || |flavor.rest| < 2 then NoRow else
            RowRead(Row(U32(b[0..4]), b[4..12], U32(b[12..16]), b[16..20], title.t, poster.t, flavor.t,
                        U16(flavor.rest[..2])),
                    flavor.rest[2..])
  }

  function ReadRows(b: bytes, n: nat): (r: RowsResult)
    ensures r.RowsRead? ==> |r.rows| == n && forall row :: row in r.rows ==> |row.title| <= 255 && |row.poster| <= 255
  {
    if n == 0 then RowsRead([], b) else
      var first := ReadRow(b);
      if first.NoRow? then NoRows else
        var others := ReadRows(first.rest, n - 1);
        if others.NoRows? then NoRows else RowsRead([first.row] + others.rows, others.rest)
  }

  /** The row says of the article what a list says: not its text, but the size of it. */
  predicate Tells(row: Row, id: u32, art: Article) {
    && row.id == id && row.timeStamp == art.date && row.parent == art.parent && row.flags == [0, 0, 0, 0]
    && row.title == art.title && row.poster == art.poster && row.flavor == NEWS_FLAVOR
    && row.size == |art.data| % TWO16
  }

  /** One row for each article, in the order of the IDs. */
  ghost predicate TellAll(rows: seq<Row>, arts: map<u32, Article>) {
    && (forall i, j :: 0 <= i < j < |rows| ==> rows[i].id < rows[j].id)
    && (forall id :: id in arts <==> exists row :: row in rows && row.id == id)
    && forall row :: row in rows ==> row.id in arts && Tells(row, row.id, arts[row.id])
  }

  predicate TitlesFit(arts: map<u32, Article>) {
    forall id :: id in arts ==> |arts[id].title| <= 255 && |arts[id].poster| <= 255
  }

  lemma TextComesBack(t: bytes, more: bytes)
    requires |t| <= 255
    ensures ReadText([|t| % 256] + t + more) == TextRead(t, more)
  {
    var b := [|t| % 256] + t + more;
    assert b[1..1 + |t|] == t && b[1 + |t|..] == more;
  }

  function RowOf(r: NewsArtList): Row {
    Row(U32(r.id), r.timeStamp, U32(r.parentID), r.flags, r.title, r.poster, NEWS_FLAVOR, U16(r.articleSize))
  }

  lemma RecordInParts(r: NewsArtList, more: bytes, t2: bytes, t1: bytes, t0: bytes)
    requires t2 == [|NEWS_FLAVOR| % 256] + NEWS_FLAVOR + (r.articleSize + more)
    requires t1 == [|r.poster| % 256] + r.poster + t2
    requires t0 == [|r.title| % 256] + r.title + t1
    ensures var b := EncodeRecord(r) + more;
            && |b| >= 22 && b[0..4] == r.id && b[4..12] == r.timeStamp && b[12..16] == r.parentID
            && b[16..20] == r.flags && b[20..22] == [0, 1] && b[22..] == t0
  {
    var h: bytes := r.id + r.timeStamp + r.parentID + r.flags + [0, 1];
    assert EncodeRecord(r) + more == h + t0;
    assert (h + t0)[..22] == h;
  }

  lemma RecordComesBack(r: NewsArtList, more: bytes)
    requires |r.title| <= 255 && |r.poster| <= 255
    ensures ReadRow(EncodeRecord(r) + more) == RowRead(RowOf(r), more)
  {
    var t2 := [|NEWS_FLAVOR| % 256] + NEWS_FLAVOR + (r.articleSize + more);
    var t1 := [|r.poster| % 256] + r.poster + t2;
    var t0 := [|r.title| % 256] + r.title + t1;
    RecordInParts(r, more, t2, t1, t0);
    TextComesBack(r.title, t1);
    TextComesBack(r.poster, t2);
    TextComesBack(NEWS_FLAVOR, r.articleSize + more);
    assert (r.articleSize + more)[..2] == r.articleSize && (r.articleSize + more)[2..] == more;
  }

  function RowsOf(rs: seq<Keyed<NewsArtList>>): (rows: seq<Row>)
    ensures |rows| == |rs| && forall i :: 0 <= i < |rs| ==> rows[i] == RowOf(rs[i].item)
  {
    if rs == [] then [] else [RowOf(rs[0].item)] + RowsOf(rs[1..])
  }

  lemma {:induction false} RecordsComeBack(rs: seq<Keyed<NewsArtList>>)
    requires forall r :: r in rs ==> |r.item.title| <= 255 && |r.item.poster| <= 255
    ensures ReadRows(EncodeRecords(rs), |rs|) == RowsRead(RowsOf(rs), [])
  {
    if rs != [] {
      assert rs[0] in rs;
      RecordComesBack(rs[0].item, EncodeRecords(rs[1..]));
      RecordsComeBack(rs[1..]);
    }
  }

  lemma RecordTells(id: u32, art: Article)
    ensures Tells(RowOf(RecordOf(id, art).item), id, art)
  {
  }

  lemma RowTells(arts: map<u32, Article>, rs: seq<Keyed<NewsArtList>>, i: nat)
    requires ListingOrder(arts, rs) && i < |rs|
    ensures var row := RowsOf(rs)[i];
            row.id == rs[i].key && row.id in arts && Tells(row, row.id, arts[row.id])
  {
    assert rs[i] in rs;
    RecordTells(rs[i].key, arts[rs[i].key]);
  }

  lemma RowThere(arts: map<u32, Article>, rs: seq<Keyed<NewsArtList>>, id: u32)
    requires ListingOrder(arts, rs) && id in arts
    ensures exists row :: row in RowsOf(rs) && row.id == id
  {
    var i := RecordAt(arts, rs, id);
    assert RowsOf(rs)[i].id == id by { RowTells(arts, rs, i); }
    assert RowsOf(rs)[i] in RowsOf(rs);
  }

  lemma RecordAt(arts: map<u32, Article>, rs: seq<Keyed<NewsArtList>>, id: u32) returns (i: nat)
    requires ListingOrder(arts, rs) && id in arts
    ensures i < |rs| && rs[i].key == id
  {
    var r := RecordOf(id, arts[id]);
    assert r in rs && r.key == id;
    i :| 0 <= i < |rs| && rs[i] == r;
  }

  lemma RowsTellAll(arts: map<u32, Article>, rs: seq<Keyed<NewsArtList>>, rows: seq<Row>)
    requires ListingOrder(arts, rs) && rows == RowsOf(rs)
    ensures TellAll(rows, arts)
  {
    forall i | 0 <= i < |rows|
      ensures rows[i].id == rs[i].key && rows[i].id in arts && Tells(rows[i], rows[i].id, arts[rows[i].id])
    {
      RowTells(arts, rs, i);
    }
    forall id | id in arts
      ensures exists row :: row in rows && row.id == id
    {
      RowThere(arts, rs, id);
    }
  }

  /** What rows tell in full fits, as they read no more than a length byte says. */
  lemma ToldFits(arts: map<u32, Article>, rows: seq<Row>)
    requires TellAll(rows, arts) && forall row :: row in rows ==> |row.title| <= 255 && |row.poster| <= 255
    ensures TitlesFit(arts)
  {
    forall id | id in arts
      ensures |arts[id].title| <= 255 && |arts[id].poster| <= 255
    {
      var row :| row in rows && row.id == id;
      assert Tells(row, row.id, arts[id]);
    }
  }

  /**
   The list of a category's articles, read record by record from the front, tells of each article what it should, in the
   order of the IDs and with nothing left over, if and only if titles and posters fit their length bytes.
   */
  lemma ListTellsAll(arts: map<u32, Article>, d: ArtListData)
    ensures var r := ReadRows(d.artList, d.count);
            IsListing(arts, d) ==> (r.RowsRead? && r.rest == [] && TellAll(r.rows, arts) <==> TitlesFit(arts))
  {
    if IsListing(arts, d) {
      var rs :| ListingOrder(arts, rs) && d == ArtListData([0, 0, 0, 0], |rs|, [], [], EncodeRecords(rs));
      var r := ReadRows(d.artList, d.count);
      if TitlesFit(arts) {
        RecordsComeBack(rs);
        RowsTellAll(arts, rs, RowsOf(rs));
      }
      if r.RowsRead? && TellAll(r.rows, arts) {
        ToldFits(arts, r.rows);
      }
    }
  }
}
