/** The path format on the wire: one encoder, three decoders, and the header of a folder item. */
module PathCodec {
  import opened Bytes
  import opened ItemScanner
  import Paths

  // ---------- The encoder ----------

  lemma {:induction false} EncodeItemsAppend(sections: seq<bytes>, e: bytes)
    ensures EncodeItems(sections + [e]) == EncodeItems(sections) + EncodeItem(e)
  {
    if sections == [] {
      assert [e][1..] == [];
    } else {
      assert (sections + [e])[1..] == sections[1..] + [e];
      EncodeItemsAppend(sections[1..], e);
    }
  }

  method EncodeFilePath(filePath: bytes) returns (b: bytes)
    ensures b == EncodedPath(Paths.Split(filePath))
  {
    var pathSections := Paths.Split(filePath);
    b := PutU16(|pathSections|);
    var i := 0;
    while i < |pathSections|
      invariant 0 <= i <= |pathSections|
      invariant b == PutU16(|pathSections|) + EncodeItems(pathSections[..i])
    {
      assert pathSections[..i + 1] == pathSections[..i] + [pathSections[i]];
      EncodeItemsAppend(pathSections[..i], pathSections[i]);
      b := b + [0, 0];
      b := b + [|pathSections[i]| % 256];
      b := b + pathSections[i];
      i := i + 1;
    }
    assert pathSections[..|pathSections|] == pathSections;
  }

  function EncodedPath(sections: seq<bytes>): bytes {
    PutU16(|sections|) + EncodeItems(sections)
  }

  /**
   Every section is at most n bytes long, their number fits its two bytes, and none runs past the buffer of the scanner
   that reads them.
   */
  predicate Fits(sections: seq<bytes>, n: nat) {
    |sections| < TWO16 && NamesUpTo(sections, n) && InWindows(sections, 0)
  }

  // ---------- FilePath.Write ----------

  /** How decoding ends, and the names found until then. */
  datatype Decoded = Sections(names: seq<bytes>) | TooSmall(names: seq<bytes>) | Panic(names: seq<bytes>)

  /** FilePathItem.Write: the end of the name is a sum of bytes. */
  function ParseItem(token: bytes): (r: Decoded)
    ensures if r.Sections? then |r.names| == 1 && |r.names[0]| <= 252 else r.names == []
  {
    if |token| < ITEM_MIN_LEN then TooSmall([]) else
      var len: nat := token[2];
      var end := (len + ITEM_MIN_LEN) % 256;
      if end < ITEM_MIN_LEN || end > |token| then Panic([]) else Sections([token[ITEM_MIN_LEN..end]])
  }

  function Before(names: seq<bytes>, rest: Decoded): Decoded {
    rest.(names := names + rest.names)
  }

  /** The loop of FilePath.Write: whatever a scan says, the scanner's last token is taken. */
  function ParseItems(w: Window, count: nat): (r: Decoded)
    requires Sound(w)
    ensures r.Sections? ==> |r.names| == count && NamesUpTo(r.names, 252)
    decreases count
  {
    if count == 0 then Sections([]) else
      var item := ItemAt(w);
      if item.Sections? then Before(item.names, ParseItems(NextItem(w).w, count - 1)) else item
  }

  function ParseFilePath(b: bytes): (r: Decoded) {
    if b == [] then Sections([])
    else if |b| == 1 then TooSmall([])
    else ParseItems(NewScanner(b[2..]), U16(b[..2]))
  }

  lemma BeforeStep(sofar: seq<bytes>, names: seq<bytes>, rest: Decoded)
    ensures Before(sofar, Before(names, rest)) == Before(sofar + names, rest)
    ensures Before([], rest) == rest
  {
    assert sofar + (names + rest.names) == sofar + names + rest.names && [] + rest.names == rest.names;
  }

  class FilePath {
    var ItemCount: nat
    var Items: seq<bytes>

    constructor ()
      ensures ItemCount == 0 && Items == []
    {
      ItemCount, Items := 0, [];
    }

    method Write(b: bytes) returns (r: Decoded)
      modifies this
      ensures r == ParseFilePath(b)
      ensures Items == old(Items) + r.names && ItemCount == if |b| < 2 then old(ItemCount) else U16(b[..2])
    {
      if |b| == 0 {
        return Sections([]);
      }
      if |b| == 1 {
        return TooSmall([]);
      }
      ItemCount := U16(b[..2]);
      r := ScanItems(b[2..], ItemCount);
    }

    /** The loop over ItemCount. */
    method ScanItems(data: bytes, count: nat) returns (r: Decoded)
      modifies this`Items
      ensures r == ParseItems(NewScanner(data), count)
      ensures Items == old(Items) + r.names
    {
      ghost var all := ParseItems(NewScanner(data), count);
      var scanner := new PathScanner(data);
      var i, names := 0, [];
      BeforeStep([], [], all);
      while i < count
        invariant fresh(scanner) && ItemsOnward(all, names, scanner.w, i, count)
        invariant Items == old(Items) + names
      {
        ItemsOnwardStep(all, names, scanner.w, i, count);
        var item := ScanItem(scanner);
        NamesAdded(old(Items), names, item);
        if !item.Sections? {
          return Before(names, item);
        }
        Items := Items + item.names;
        names, i := names + item.names, i + 1;
      }
      return Sections(names);
    }

    /** One scan and the item in its token. */
    static method ScanItem(scanner: PathScanner) returns (item: Decoded)
      requires Sound(scanner.w)
      modifies scanner
      ensures item == ItemAt(old(scanner.w))
      ensures item.Sections? ==> scanner.w == NextItem(old(scanner.w)).w
    {
      var ok, more := scanner.Scan();
      if !ok {
        return Panic([]);
      }
      return ParseItem(scanner.w.token);
    }
  }

  lemma NamesAdded(items: seq<bytes>, names: seq<bytes>, item: Decoded)
    ensures items + names + item.names == items + (names + item.names)
    ensures item.names == [] ==> Before(names, item).names == names
  {
  }

  /** The item of the next scan. */
  function ItemAt(w: Window): (r: Decoded)
    requires Sound(w)
    ensures if r.Sections? then NextItem(w).Scanned? && |r.names| == 1 && |r.names[0]| <= 252 else r.names == []
  {
    var s := NextItem(w);
    if s.Panics? then Panic([]) else ParseItem(s.w.token)
  }

  /** The names found so far and those still to come make up all of them. */
  ghost predicate ItemsOnward(all: Decoded, names: seq<bytes>, w: Window, i: nat, count: nat) {
    i <= count && Sound(w) && all == Before(names, ParseItems(w, count - i))
  }

  lemma ItemsOnwardStep(all: Decoded, names: seq<bytes>, w: Window, i: nat, count: nat)
    requires ItemsOnward(all, names, w, i, count) && i < count
    ensures var item := ItemAt(w);
            if item.Sections? then ItemsOnward(all, names + item.names, NextItem(w).w, i + 1, count)
            else all == Before(names, item)
  {
    var item := ItemAt(w);
    if item.Sections? {
      BeforeStep(names, item.names, ParseItems(NextItem(w).w, count - i - 1));
    }
  }

  lemma ItemRead(name: bytes)
    requires |name| <= 255
    ensures ParseItem(EncodeItem(name)) == if |name| <= 252 then Sections([name]) else Panic([])
  {
    if |name| <= 252 {
      assert EncodeItem(name)[3..3 + |name|] == name;
    }
  }

  lemma NamesUpToStep(names: seq<bytes>, n: nat)
    requires names != []
    ensures NamesUpTo(names, n) <==> |names[0]| <= n && NamesUpTo(names[1..], n)
  {
    assert forall i :: 1 <= i < |names| ==> names[i] == names[1..][i - 1];
  }

  lemma ItemsUnfolded(w: Window, n: nat, fewer: nat)
    requires Sound(w) && n == fewer + 1
    ensures ParseItems(w, n) ==
            if ItemAt(w).Sections? then Before(ItemAt(w).names, ParseItems(NextItem(w).w, fewer)) else ItemAt(w)
  {
  }

  /** Sections that fit their length bytes are found again if no window cuts one off and none is over 252 bytes. */
  lemma {:induction false} ItemsRead(names: seq<bytes>, n: nat, w: Window)
    requires n == |names| && Ready(w) && NamesUpTo(names, 255) && w.pending + w.rest == EncodeItems(names)
    ensures ReadOrPanic(ParseItems(w, n), names, InWindows(names, w.start) && NamesUpTo(names, 252))
  {
    if n > 0 {
      var name, rest, fewer := names[0], names[1..], n - 1;
      var r, all := NextItem(w), ParseItems(w, n);
      var whole := InWindows(names, w.start) && NamesUpTo(names, 252);
      ScanFirst(w, name, EncodeItems(rest));
      ItemRead(name);
      NamesUpToStep(names, 255);
      NamesUpToStep(names, 252);
      if r.Panics? || |name| > 252 {
        assert !whole;
        assert all == Panic([]) by { ItemsUnfolded(w, n, fewer); }
      } else {
        var others, fits := ParseItems(r.w, fewer), InWindows(rest, r.w.start) && NamesUpTo(rest, 252);
        assert fits == whole;
        assert all == Before([name], others) by { ItemsUnfolded(w, n, fewer); }
        assert ReadOrPanic(others, rest, fits) by { ItemsRead(rest, fewer, r.w); }
        ReadMore(name, rest, names, others, fits);
      }
    }
  }

  /** All the names, or a panic. */
  predicate ReadOrPanic(r: Decoded, names: seq<bytes>, fits: bool) {
    if fits then r == Sections(names) else r.Panic?
  }

  lemma ReadMore(name: bytes, rest: seq<bytes>, names: seq<bytes>, others: Decoded, fits: bool)
    requires names == [name] + rest && ReadOrPanic(others, rest, fits)
    ensures ReadOrPanic(Before([name], others), names, fits)
  {
  }

  /** The count that goes out with the sections. */
  function CountOf(sections: seq<bytes>): (n: nat)
    ensures n < TWO16 && (|sections| < TWO16 ==> n == |sections|)
  {
    U16(PutU16(|sections|))
  }

  /** What the decoders make of an encoded path is what they make of its sections. */
  lemma PathParts(sections: seq<bytes>)
    ensures var b, w, n := EncodedPath(sections), NewScanner(EncodeItems(sections)), CountOf(sections);
            && ParseFilePath(b) == ParseItems(w, n) && ParseNewsPath(b) == ParseNews(w, n)
            && b[2..] == EncodeItems(sections) && U16(b[..2]) == n
  {
    var b := EncodedPath(sections);
    assert b[..2] == PutU16(|sections|) && b[2..] == EncodeItems(sections);
  }

  /** The sections can be told from their encoding. */
  predicate Told(sections: seq<bytes>) {
    |sections| < TWO16 && NamesUpTo(sections, 255)
  }

  lemma Decided(sections: seq<bytes>, limit: nat, r: Decoded)
    requires limit <= 255
    requires Told(sections) ==> ReadOrPanic(r, sections, Fits(sections, limit))
    requires r.Sections? ==> |r.names| < TWO16 && NamesUpTo(r.names, limit)
    ensures r == Sections(sections) <==> Fits(sections, limit)
  {
    assert NamesUpTo(sections, limit) ==> NamesUpTo(sections, 255);
  }

  lemma ItemsReadExactly(sections: seq<bytes>, n: nat, w: Window, r: Decoded)
    requires Ready(w) && w.start == 0 && w.pending + w.rest == EncodeItems(sections)
    requires n < TWO16 && (|sections| < TWO16 ==> n == |sections|) && r == ParseItems(w, n)
    ensures r == Sections(sections) <==> Fits(sections, 252)
    ensures Told(sections) && !Fits(sections, 252) ==> r.Panic?
  {
    if Told(sections) {
      ItemsRead(sections, n, w);
    }
    Decided(sections, 252, r);
  }

  /**
   FilePath.Write recovers the sections exactly when names are at most 252 bytes, the count fits, and no section runs
   past the scanner's buffer; other sections that can be told from their encoding make it panic.
   */
  lemma FilePathRoundTrip(sections: seq<bytes>)
    ensures ParseFilePath(EncodedPath(sections)) == Sections(sections) <==> Fits(sections, 252)
    ensures Told(sections) && !Fits(sections, 252) ==> ParseFilePath(EncodedPath(sections)).Panic?
  {
    PathParts(sections);
    AtStart(EncodeItems(sections));
    var w := NewScanner(EncodeItems(sections));
    ItemsReadExactly(sections, CountOf(sections), w, ParseFilePath(EncodedPath(sections)));
  }

  // ---------- Field.DecodeNewsPath ----------

  /** What newsPathScanner gives of an item. */
  function TextOf(token: bytes): bytes {
    if |token| < ITEM_MIN_LEN then [] else token[ITEM_MIN_LEN..]
  }

  /** The loop of DecodeNewsPath: past the end of the data each scan gives an empty text. */
  function ParseNews(w: Window, count: nat): (r: Decoded)
    requires Sound(w)
    ensures r.Sections? ==> |r.names| == count && NamesUpTo(r.names, 255)
    decreases count
  {
    if count == 0 then Sections([]) else
      match NextItem(w)
      case Panics => Panic([])
      case Scanned(_, w') => Before([TextOf(w'.token)], ParseNews(w', count - 1))
  }

  function ParseNewsPath(b: bytes): Decoded {
    if b == [] then Sections([])
    else if |b| == 1 then Panic([])
    else ParseNews(NewScanner(b[2..]), U16(b[..2]))
  }

  method DecodeNewsPath(b: bytes) returns (r: Decoded)
    ensures r == ParseNewsPath(b)
  {
    if |b| == 0 {
      return Sections([]);
    }
    if |b| == 1 {
      return Panic([]);
    }
    r := ScanTexts(b[2..], U16(b[..2]));
  }

  /** The loop over pathCount. */
  method ScanTexts(data: bytes, count: nat) returns (r: Decoded)
    ensures r == ParseNews(NewScanner(data), count)
  {
    ghost var all := ParseNews(NewScanner(data), count);
    var scanner := new PathScanner(data);
    var i, paths: seq<bytes> := 0, [];
    BeforeStep([], [], all);
    while i < count
      invariant fresh(scanner) && TextsOnward(all, paths, scanner.w, i, count)
    {
      ghost var w := scanner.w;
      TextsOnwardStep(all, paths, w, i, count);
      var ok, more := scanner.Scan();
      if !ok {
        return Panic(paths);
      }
      paths, i := paths + [TextOf(scanner.w.token)], i + 1;
    }
    return Sections(paths);
  }

  /** The texts found so far and those still to come make up all of them. */
  ghost predicate TextsOnward(all: Decoded, texts: seq<bytes>, w: Window, i: nat, count: nat) {
    i <= count && Sound(w) && all == Before(texts, ParseNews(w, count - i))
  }

  lemma TextsOnwardStep(all: Decoded, texts: seq<bytes>, w: Window, i: nat, count: nat)
    requires TextsOnward(all, texts, w, i, count) && i < count
    ensures match NextItem(w)
            case Panics => all == Panic(texts)
            case Scanned(_, w') => TextsOnward(all, texts + [TextOf(w'.token)], w', i + 1, count)
  {
    var s := NextItem(w);
    if s.Panics? {
      assert texts + [] == texts;
    } else {
      BeforeStep(texts, [TextOf(s.w.token)], ParseNews(s.w, count - i - 1));
    }
  }

  lemma NewsUnfolded(w: Window, n: nat, fewer: nat)
    requires Sound(w) && n == fewer + 1
    ensures var r := NextItem(w);
            ParseNews(w, n) ==
            if r.Panics? then Panic([]) else Before([TextOf(r.w.token)], ParseNews(r.w, fewer))
  {
  }

  lemma {:induction false} NewsRead(names: seq<bytes>, n: nat, w: Window)
    requires n == |names| && Ready(w) && NamesUpTo(names, 255) && w.pending + w.rest == EncodeItems(names)
    ensures ReadOrPanic(ParseNews(w, n), names, InWindows(names, w.start))
  {
    if n > 0 {
      var name, rest, fewer := names[0], names[1..], n - 1;
      var r, all := NextItem(w), ParseNews(w, n);
      ScanFirst(w, name, EncodeItems(rest));
      NamesUpToStep(names, 255);
      if r.Panics? {
        assert all == Panic([]) by { NewsUnfolded(w, n, fewer); }
      } else {
        var others, fits := ParseNews(r.w, fewer), InWindows(rest, r.w.start);
        assert TextOf(EncodeItem(name)) == name;
        assert all == Before([name], others) by { NewsUnfolded(w, n, fewer); }
        assert ReadOrPanic(others, rest, fits) by { NewsRead(rest, fewer, r.w); }
        ReadMore(name, rest, names, others, fits);
      }
    }
  }

  lemma NewsReadExactly(sections: seq<bytes>, n: nat, w: Window, r: Decoded)
    requires Ready(w) && w.start == 0 && w.pending + w.rest == EncodeItems(sections)
    requires n < TWO16 && (|sections| < TWO16 ==> n == |sections|) && r == ParseNews(w, n)
    ensures r == Sections(sections) <==> Fits(sections, 255)
    ensures Told(sections) && !Fits(sections, 255) ==> r.Panic?
  {
    if Told(sections) {
      NewsRead(sections, n, w);
    }
    Decided(sections, 255, r);
  }

  /** DecodeNewsPath recovers the sections under the same condition, with names of up to 255 bytes. */
  lemma NewsPathRoundTrip(sections: seq<bytes>)
    ensures ParseNewsPath(EncodedPath(sections)) == Sections(sections) <==> Fits(sections, 255)
    ensures Told(sections) && !Fits(sections, 255) ==> ParseNewsPath(EncodedPath(sections)).Panic?
  {
    PathParts(sections);
    AtStart(EncodeItems(sections));
    var w := NewScanner(EncodeItems(sections));
    NewsReadExactly(sections, CountOf(sections), w, ParseNewsPath(EncodedPath(sections)));
  }

  // ---------- Counts that are not those of the sections ----------

  function Copies(n: nat, name: bytes): seq<bytes> {
    seq(n, _ => name)
  }

  /** With nothing left to scan, a scan empties the token. */
  lemma NothingLeft(w: Window)
    requires Sound(w) && w.pending == [] && w.rest == []
    ensures var r := NextItem(w);
            r.Scanned? && r.w.token == [] && r.w.pending == [] && r.w.rest == []
  {
    if w.err.Fine? {
      var r := Refilled(LookedAt(w));
      assert NextItem(w) == NextItem(r) && r.err.AtEnd? && r.pending == [] && r.rest == [];
    }
  }

  lemma {:induction false} TextsPastEnd(w: Window, n: nat)
    requires Sound(w) && w.pending == [] && w.rest == []
    ensures ParseNews(w, n) == Sections(Copies(n, []))
    decreases n
  {
    if n > 0 {
      NothingLeft(w);
      TextsPastEnd(NextItem(w).w, n - 1);
      NewsUnfolded(w, n, n - 1);
      assert [[]] + Copies(n - 1, []) == Copies(n, []);
    }
  }

  lemma ItemsPastEnd(w: Window, n: nat)
    requires Sound(w) && w.pending == [] && w.rest == [] && n > 0
    ensures ParseItems(w, n) == TooSmall([])
  {
    NothingLeft(w);
    ItemsUnfolded(w, n, n - 1);
  }

  /** So many of the names, or a refusal after all of them. */
  function ItemsUpTo(names: seq<bytes>, n: nat): Decoded {
    if n <= |names| then Sections(names[..n]) else TooSmall(names)
  }

  /** So many of the names, or all of them and empty ones. */
  function TextsUpTo(names: seq<bytes>, n: nat): Decoded {
    Sections(if n <= |names| then names[..n] else names + Copies(n - |names|, []))
  }

  lemma UpToStep(name: bytes, rest: seq<bytes>, names: seq<bytes>, n: nat, fewer: nat)
    requires names == [name] + rest && n == fewer + 1
    ensures ItemsUpTo(names, n) == Before([name], ItemsUpTo(rest, fewer))
    ensures TextsUpTo(names, n) == Before([name], TextsUpTo(rest, fewer))
  {
    assert n <= |names| ==> names[..n] == [name] + rest[..fewer];
    if n > |names| {
      var made := Copies(n - |names|, []);
      assert [name] + (rest + made) == [name] + rest + made;
    }
  }

  /** The next item of names that fit is scanned, and the rest fit from there. */
  lemma FirstScanned(w: Window, names: seq<bytes>, name: bytes, rest: seq<bytes>) returns (w': Window)
    requires Ready(w) && NamesUpTo(names, 252) && InWindows(names, w.start) && w.pending + w.rest == EncodeItems(names)
    requires names != [] && name == names[0] && rest == names[1..]
    ensures NextItem(w).Scanned? && NextItem(w).w == w' && |name| <= 252
    ensures TextOf(w'.token) == name && ItemAt(w) == Sections([name])
    ensures Ready(w') && NamesUpTo(rest, 252) && InWindows(rest, w'.start) && w'.pending + w'.rest == EncodeItems(rest)
  {
    NamesUpToStep(names, 252);
    ItemRead(name);
    ScanFirst(w, name, EncodeItems(rest));
    w' := NextItem(w).w;
  }

  lemma ItemsFirst(w: Window, n: nat, fewer: nat, w': Window, name: bytes)
    requires Sound(w) && n == fewer + 1
    requires ItemAt(w) == Sections([name]) && NextItem(w).w == w'
    ensures ParseItems(w, n) == Before([name], ParseItems(w', fewer))
  {
    ItemsUnfolded(w, n, fewer);
  }

  lemma {:induction false} ItemsByCount(names: seq<bytes>, w: Window, n: nat)
    requires Ready(w) && NamesUpTo(names, 252) && InWindows(names, w.start) && w.pending + w.rest == EncodeItems(names)
    ensures ParseItems(w, n) == ItemsUpTo(names, n)
    decreases |names|
  {
    if n > 0 && names == [] {
      ItemsPastEnd(w, n);
    } else if n > 0 {
      var name, rest, fewer := names[0], names[1..], n - 1;
      var w' := FirstScanned(w, names, name, rest);
      ItemsFirst(w, n, fewer, w', name);
      assert ParseItems(w', fewer) == ItemsUpTo(rest, fewer) by { ItemsByCount(rest, w', fewer); }
      UpToStep(name, rest, names, n, fewer);
    }
  }

  lemma {:induction false} TextsByCount(names: seq<bytes>, w: Window, n: nat)
    requires Ready(w) && NamesUpTo(names, 252) && InWindows(names, w.start) && w.pending + w.rest == EncodeItems(names)
    ensures ParseNews(w, n) == TextsUpTo(names, n)
    decreases |names|
  {
    if n > 0 && names == [] {
      TextsPastEnd(w, n);
      assert [] + Copies(n, []) == Copies(n, []);
    } else if n > 0 {
      var name, rest, fewer := names[0], names[1..], n - 1;
      var w' := FirstScanned(w, names, name, rest);
      assert ParseNews(w, n) == Before([name], ParseNews(w', fewer)) by { NewsUnfolded(w, n, fewer); }
      assert ParseNews(w', fewer) == TextsUpTo(rest, fewer) by { TextsByCount(rest, w', fewer); }
      UpToStep(name, rest, names, n, fewer);
    }
  }

  /**
   The count in front of a path decides how many of its sections are taken. When it announces more than there are, one
   decoder refuses the path, keeping the sections as its items, and the other makes empty sections up.
   */
  lemma CountDecides(names: seq<bytes>, n: nat)
    requires Fits(names, 252) && n < TWO16
    ensures var b := PutU16(n) + EncodeItems(names);
            && ParseFilePath(b) == (if n <= |names| then Sections(names[..n]) else TooSmall(names))
            && ParseNewsPath(b) ==
               Sections(if n <= |names| then names[..n] else names + Copies(n - |names|, []))
  {
    var b, w := PutU16(n) + EncodeItems(names), NewScanner(EncodeItems(names));
    assert b[..2] == PutU16(n) && b[2..] == EncodeItems(names);
    AtStart(EncodeItems(names));
    ItemsByCount(names, w, n);
    TextsByCount(names, w, n);
  }

  // ---------- Paths longer than the buffer ----------

  lemma {:induction false} SeventeenthCutOff(name: bytes, k: nat)
    requires |name| == 252 && k <= 16
    ensures !InWindows(Copies(17 - k, name), 255 * k)
    decreases 17 - k
  {
    assert Copies(17 - k, name)[1..] == Copies(16 - k, name);
    if k < 16 {
      SeventeenthCutOff(name, k + 1);
    }
  }

  /** Seventeen sections of 252 bytes: short enough each, and a panic in both decoders that use a window. */
  lemma LongPathPanics(name: bytes)
    requires |name| == 252
    ensures var sections := Copies(17, name);
            ParseFilePath(EncodedPath(sections)).Panic? && ParseNewsPath(EncodedPath(sections)).Panic?
  {
    var sections := Copies(17, name);
    var w := NewScanner(EncodeItems(sections));
    SeventeenthCutOff(name, 0);
    PathParts(sections);
    AtStart(EncodeItems(sections));
    ItemsRead(sections, 17, w);
    NewsRead(sections, 17, w);
  }

  // ---------- ReadPath ----------

  datatype PathResult = Resolved(fullPath: bytes) | Rejected | Panicked

  function ResolvedPath(fileRoot: bytes, filePath: bytes, fileName: bytes, decoder: Paths.Decoder): PathResult {
    match ParseFilePath(filePath)
    case Sections(items) => Resolved(Paths.FullPath(fileRoot, items, fileName, decoder))
    case TooSmall(_) => Rejected
    case Panic(_) => Panicked
  }

  /** A missing path is an empty one. */
  method ReadPath(fileRoot: bytes, filePath: bytes, fileName: bytes, decoder: Paths.Decoder) returns (r: PathResult)
    ensures r == ResolvedPath(fileRoot, filePath, fileName, decoder)
  {
    var fp := new FilePath();
    var parsed := fp.Write(filePath);
    if parsed.TooSmall? {
      return Rejected;
    }
    if parsed.Panic? {
      return Panicked;
    }
    var fullPath := Paths.ReadPath(fileRoot, fp.Items, fileName, decoder);
    assert [] + parsed.names == parsed.names;
    return Resolved(fullPath);
  }

  /** Whatever bytes a client sends as path and file name, a resolved path stays under the root. */
  lemma ResolvedUnderRoot(fileRoot: bytes, filePath: bytes, fileName: bytes, d: Paths.Decoder)
    requires Paths.AsciiPreserving(d)
    ensures var r := ResolvedPath(fileRoot, filePath, fileName, d);
            r.Resolved? ==> Paths.Under(fileRoot, r.fullPath)
  {
    var items := ParseFilePath(filePath);
    if items.Sections? {
      Paths.NeverLeavesRoot(fileRoot, items.names, fileName, d);
    }
  }

  /**
   A path encoded by one side and resolved by the other leads to the root, then the whole path cleaned and clamped at
   once, then the file name clamped on its own.
   */
  lemma EncodedPathResolved(root: bytes, filePath: bytes, fileName: bytes, d: Paths.Decoder)
    requires Paths.AsciiPreserving(d) && Fits(Paths.Split(filePath), 252)
    ensures ResolvedPath(root, EncodedPath(Paths.Split(filePath)), fileName, d) ==
            Resolved(Paths.Render(root == [] || Paths.Rooted(root),
                                  Paths.RootElements(root) + Paths.DecodeAll(d, Paths.Clamped(filePath))
                                  + Paths.Clamped(Paths.Decode(d, fileName))))
  {
    var sections := Paths.Split(filePath);
    FilePathRoundTrip(sections);
    JoinSplit(filePath);
    Paths.ItemsSplit(sections);
    Paths.ReadPathIs(root, sections, fileName, d);
  }

  lemma {:induction false} JoinSplit(s: bytes)
    ensures Paths.JoinSlash(Paths.Split(s)) == s
  {
    if s != [] {
      var rest := Paths.Split(s[1..]);
      JoinSplit(s[1..]);
      if s[0] == Paths.SLASH {
        assert ([[]] + rest)[1..] == rest;
        assert [] + [Paths.SLASH] + s[1..] == s;
      } else {
        var parts := [[s[0]] + rest[0]] + rest[1..];
        assert parts[1..] == rest[1..];
        if |rest| > 1 {
          assert [s[0]] + rest[0] + [Paths.SLASH] + Paths.JoinSlash(rest[1..]) ==
                 [s[0]] + (rest[0] + [Paths.SLASH] + Paths.JoinSlash(rest[1..]));
        }
        assert [s[0]] + s[1..] == s;
      }
    }
  }
}
