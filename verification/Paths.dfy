/**
 ReadPath: where in the file root a client's path and file name lead. Paths are cleaned lexically, as
 path.Clean documents it: by elements, dropping "." and letting ".." take one back.
 */
module Paths {
  import opened Bytes

  const SLASH: byte := 0x2f
  const DOT: bytes := [0x2e]
  const DOTDOT: bytes := [0x2e, 0x2e]

  type elements = seq<bytes>

  // ---------- path.Clean and path.Join ----------

  /** strings.Split(s, "/") */
  function Split(s: bytes): (parts: elements)
    ensures |parts| > 0
  {
    if s == [] then [[]]
    else
      var rest := Split(s[1..]);
      if s[0] == SLASH then [[]] + rest else [[s[0]] + rest[0]] + rest[1..]
  }

  /** strings.Join(parts, "/") */
  function JoinSlash(parts: elements): bytes {
    if parts == [] then [] else if |parts| == 1 then parts[0] else parts[0] + [SLASH] + JoinSlash(parts[1..])
  }

  /** One element more on a cleaned path. */
  function Step(rooted: bool, stack: elements, e: bytes): elements {
    if e == [] || e == DOT then stack
    else if e != DOTDOT then stack + [e]
    else if stack != [] && stack[|stack| - 1] != DOTDOT then stack[..|stack| - 1]
    else if rooted then stack
    else stack + [e]
  }

  function Normalised(rooted: bool, stack: elements, parts: elements): elements
    decreases |parts|
  {
    if parts == [] then stack else Normalised(rooted, Step(rooted, stack, parts[0]), parts[1..])
  }

  function Render(rooted: bool, parts: elements): bytes {
    if rooted then [SLASH] + JoinSlash(parts) else if parts == [] then DOT else JoinSlash(parts)
  }

  predicate Rooted(s: bytes) {
    |s| > 0 && s[0] == SLASH
  }

  function Clean(s: bytes): bytes {
    if s == [] then DOT else Render(Rooted(s), Normalised(Rooted(s), [], Split(s)))
  }

  /** The buffer that path.Join cleans: leading empty elements add nothing. */
  function JoinBuffer(elems: seq<bytes>): bytes {
    if elems == [] then [] else
      var n := |elems| - 1;
      var buf := JoinBuffer(elems[..n]);
      if buf == [] then elems[n] else buf + [SLASH] + elems[n]
  }

  function Join(elems: seq<bytes>): bytes {
    var buf := JoinBuffer(elems);
    if buf == [] then [] else Clean(buf)
  }

  // ---------- ReadPath ----------

  /** A text decoder, byte by byte. */
  type Decoder = byte -> bytes

  /** ASCII stays as it is, and nothing else turns into it. */
  ghost predicate AsciiPreserving(d: Decoder) {
    forall b: byte :: if b < 128 then d(b) == [b] else |d(b)| > 0 && forall i :: 0 <= i < |d(b)| ==> d(b)[i] >= 128
  }

  function Decode(d: Decoder, s: bytes): bytes {
    if s == [] then [] else d(s[0]) + Decode(d, s[1..])
  }

  /** The loop over the path items. */
  method SubPath(items: seq<bytes>) returns (subPath: bytes)
    ensures subPath == SubPathOf(items)
  {
    subPath := [];
    var i := 0;
    while i < |items|
      invariant 0 <= i <= |items| && subPath == SubPathOf(items[..i])
    {
      assert items[..i + 1][..i] == items[..i];
      subPath := Join([[SLASH], subPath, items[i]]);
      i := i + 1;
    }
    assert items[..|items|] == items;
  }

  function SubPathOf(items: seq<bytes>): bytes {
    if items == [] then [] else
      var n := |items| - 1;
      Join([[SLASH], SubPathOf(items[..n]), items[n]])
  }

  method ReadPath(fileRoot: bytes, items: seq<bytes>, fileName: bytes, decoder: Decoder) returns (fullPath: bytes)
    ensures fullPath == FullPath(fileRoot, items, fileName, decoder)
  {
    var subPath := SubPath(items);
    subPath := Decode(decoder, subPath);
    var decodedFileName := Decode(decoder, fileName);
    fullPath := Join([fileRoot, subPath, Join([[SLASH], decodedFileName])]);
  }

  function FullPath(fileRoot: bytes, items: seq<bytes>, fileName: bytes, decoder: Decoder): bytes {
    Join([fileRoot, Decode(decoder, SubPathOf(items)), Join([[SLASH], Decode(decoder, fileName)])])
  }

  // ---------- Elements ----------

  predicate SlashFree(s: bytes) {
    SLASH !in s
  }

  /** A name in a directory. */
  predicate Ordinary(e: bytes) {
    SlashFree(e) && e != [] && e != DOT && e != DOTDOT
  }

  predicate AllOrdinary(parts: elements) {
    forall e :: e in parts ==> Ordinary(e)
  }

  lemma {:induction false} SplitSlashFree(s: bytes)
    ensures forall e :: e in Split(s) ==> SlashFree(e)
  {
    if s != [] {
      SplitSlashFree(s[1..]);
      var rest := Split(s[1..]);
      assert rest[0] in rest;
      assert forall e :: e in rest[1..] ==> e in rest;
    }
  }

  lemma {:induction false} SplitAtSlash(a: bytes, b: bytes)
    ensures Split(a + [SLASH] + b) == Split(a) + Split(b)
  {
    if a == [] {
      assert (a + [SLASH] + b)[1..] == b;
    } else {
      assert (a + [SLASH] + b)[1..] == a[1..] + [SLASH] + b;
      SplitAtSlash(a[1..], b);
    }
  }

  lemma {:induction false} SplitOne(e: bytes)
    requires SlashFree(e)
    ensures Split(e) == [e]
  {
    if e != [] {
      SplitOne(e[1..]);
      assert [e[0]] + e[1..] == e;
    }
  }

  lemma {:induction false} SplitJoined(parts: elements)
    requires forall e :: e in parts ==> SlashFree(e)
    ensures Split(JoinSlash(parts)) == if parts == [] then [[]] else parts
  {
    if |parts| == 1 {
      SplitOne(parts[0]);
    } else if parts != [] {
      SplitJoined(parts[1..]);
      SplitOne(parts[0]);
      SplitAtSlash(parts[0], JoinSlash(parts[1..]));
    }
  }

  lemma {:induction false} NormaliseAppend(rooted: bool, stack: elements, a: elements, b: elements)
    ensures Normalised(rooted, stack, a + b) == Normalised(rooted, Normalised(rooted, stack, a), b)
    decreases |a|
  {
    if a == [] {
      assert a + b == b;
    } else {
      assert (a + b)[1..] == a[1..] + b;
      NormaliseAppend(rooted, Step(rooted, stack, a[0]), a[1..], b);
    }
  }

  /** Ordinary elements are pushed one after the other. */
  lemma {:induction false} NormaliseOrdinary(rooted: bool, stack: elements, parts: elements)
    requires AllOrdinary(parts)
    ensures Normalised(rooted, stack, parts) == stack + parts
    decreases |parts|
  {
    if parts == [] {
      assert stack + [] == stack;
    } else {
      assert Ordinary(parts[0]) by { assert parts[0] in parts; }
      assert Step(rooted, stack, parts[0]) == stack + [parts[0]];
      NormaliseOrdinary(rooted, stack + [parts[0]], parts[1..]);
      assert stack + [parts[0]] + parts[1..] == stack + parts;
    }
  }

  /** Below a root nothing but ordinary elements is left: ".." has been clamped. */
  lemma {:induction false} RootedIsOrdinary(stack: elements, parts: elements)
    requires AllOrdinary(stack) && forall e :: e in parts ==> SlashFree(e)
    ensures AllOrdinary(Normalised(true, stack, parts))
    decreases |parts|
  {
    if parts != [] {
      assert parts[0] in parts;
      RootedIsOrdinary(Step(true, stack, parts[0]), parts[1..]);
    }
  }

  // ---------- What joining comes to ----------

  /** The elements of a client's text taken below a root of its own. */
  function Clamped(s: bytes): elements {
    Normalised(true, [], Split(s))
  }

  lemma ClampedOrdinary(s: bytes)
    ensures AllOrdinary(Clamped(s))
  {
    SplitSlashFree(s);
    RootedIsOrdinary([], Split(s));
  }

  /** A rendered path below the root goes on where the stack is. */
  lemma RenderedSplits(rooted: bool, stack: elements, parts: elements)
    requires AllOrdinary(parts)
    ensures Normalised(rooted, stack, Split([SLASH] + JoinSlash(parts))) == stack + parts
  {
    SplitAtSlash([], JoinSlash(parts));
    assert [] + [SLASH] + JoinSlash(parts) == [SLASH] + JoinSlash(parts);
    SplitJoined(parts);
    if parts == [] {
      assert Split([SLASH] + JoinSlash(parts)) == [[], []];
      assert Normalised(rooted, stack, [[], []]) == Normalised(rooted, stack, [[]]) == stack;
      assert stack + [] == stack;
    } else {
      assert ([[]] + parts)[1..] == parts;
      NormaliseOrdinary(rooted, stack, parts);
    }
  }

  /** Everything the items say, in one run below the root. */
  function ItemElements(items: seq<bytes>): elements {
    if items == [] then [] else
      var n := |items| - 1;
      Normalised(true, ItemElements(items[..n]), Split(items[n]))
  }

  lemma {:induction false} ItemElementsOrdinary(items: seq<bytes>)
    ensures AllOrdinary(ItemElements(items))
  {
    if items != [] {
      var n := |items| - 1;
      ItemElementsOrdinary(items[..n]);
      SplitSlashFree(items[n]);
      RootedIsOrdinary(ItemElements(items[..n]), Split(items[n]));
    }
  }

  lemma JoinThree(a: bytes, b: bytes, c: bytes)
    requires a != []
    ensures JoinBuffer([a, b, c]) == a + [SLASH] + b + [SLASH] + c
    ensures JoinBuffer([a, c]) == a + [SLASH] + c
    ensures JoinBuffer([[], b, c]) == if b == [] then c else b + [SLASH] + c
  {
    JoinBufferLast([a], c);
    JoinBufferLast([a], b);
    JoinBufferLast([a, b], c);
    var e: bytes := [];
    JoinBufferLast([e], b);
    JoinBufferLast([e, b], c);
    assert [a] + [b] == [a, b] && [a] + [c] == [a, c] && [a, b] + [c] == [a, b, c];
    assert [e] + [b] == [e, b] && [e, b] + [c] == [e, b, c];
    assert JoinBuffer([a]) == a && JoinBuffer([e]) == e;
  }

  lemma JoinBufferLast(elems: seq<bytes>, e: bytes)
    ensures JoinBuffer(elems + [e]) == if JoinBuffer(elems) == [] then e else JoinBuffer(elems) + [SLASH] + e
  {
    assert (elems + [e])[..|elems|] == elems;
  }

  /** Joining one item after the other is rendering what all of them say. */
  lemma {:induction false} SubPathIs(items: seq<bytes>)
    ensures SubPathOf(items) == if items == [] then [] else [SLASH] + JoinSlash(ItemElements(items))
  {
    if items != [] {
      var n := |items| - 1;
      SubPathIs(items[..n]);
      JoinItem(SubPathOf(items[..n]), items[n]);
      SubPathElements(items[..n]);
    }
  }

  /** One turn of the loop over the items. */
  lemma JoinItem(before: bytes, item: bytes)
    ensures Join([[SLASH], before, item]) ==
            [SLASH] + JoinSlash(Normalised(true, Normalised(true, [], Split(before)), Split(item)))
  {
    JoinThree([SLASH], before, item);
    var front := [SLASH] + ([SLASH] + before);
    assert [SLASH] + [SLASH] + before + [SLASH] + item == front + [SLASH] + item;
    SplitAtSlash(front, item);
    TwoSlashes(before);
    NormaliseAppend(true, [], Split(front), Split(item));
    SkipEmpty(true, [], Split(before));
  }

  /** A joined sub path says what the items say. */
  lemma SubPathElements(items: seq<bytes>)
    ensures var p := if items == [] then [] else [SLASH] + JoinSlash(ItemElements(items));
            Normalised(true, [], Split(p)) == ItemElements(items)
  {
    if items != [] {
      ItemElementsOrdinary(items);
      RenderedSplits(true, [], ItemElements(items));
      assert [] + ItemElements(items) == ItemElements(items);
    }
  }

  lemma TwoSlashes(s: bytes)
    ensures Split([SLASH] + ([SLASH] + s)) == [[], []] + Split(s)
  {
    assert ([SLASH] + ([SLASH] + s))[1..] == [SLASH] + s && ([SLASH] + s)[1..] == s;
  }

  /** Item-by-item joining equals joining everything and cleaning once. */
  lemma {:induction false} JoinedOnce(items: seq<bytes>)
    requires items != []
    ensures SubPathOf(items) == Clean([SLASH] + JoinSlash(items))
  {
    SubPathIs(items);
    ItemsSplit(items);
    SplitAtSlash([], JoinSlash(items));
    assert [] + [SLASH] + JoinSlash(items) == [SLASH] + JoinSlash(items);
    assert ([[]] + Split(JoinSlash(items)))[1..] == Split(JoinSlash(items));
  }

  lemma {:induction false} ItemsSplit(items: seq<bytes>)
    requires items != []
    ensures ItemElements(items) == Normalised(true, [], Split(JoinSlash(items)))
  {
    var n := |items| - 1;
    if n > 0 {
      ItemsSplit(items[..n]);
      JoinSlashLast(items);
      SplitAtSlash(JoinSlash(items[..n]), items[n]);
      NormaliseAppend(true, [], Split(JoinSlash(items[..n])), Split(items[n]));
    } else {
      assert items[..0] == [];
    }
  }

  lemma {:induction false} JoinSlashLast(items: seq<bytes>)
    requires |items| > 1
    ensures JoinSlash(items) == JoinSlash(items[..|items| - 1]) + [SLASH] + items[|items| - 1]
  {
    var n := |items| - 1;
    if n == 1 {
      assert items[..1] == [items[0]] && items[1..] == [items[1]];
    } else {
      JoinSlashLast(items[1..]);
      assert items[1..][..n - 1] == items[..n][1..];
    }
  }

  // ---------- Decoding ----------

  lemma {:induction false} DecodeAppend(d: Decoder, a: bytes, b: bytes)
    ensures Decode(d, a + b) == Decode(d, a) + Decode(d, b)
  {
    if a == [] {
      assert a + b == b;
    } else {
      assert (a + b)[1..] == a[1..] + b;
      DecodeAppend(d, a[1..], b);
    }
  }

  function DecodeAll(d: Decoder, parts: elements): elements {
    if parts == [] then [] else [Decode(d, parts[0])] + DecodeAll(d, parts[1..])
  }

  predicate Ascii(s: bytes) {
    forall i :: 0 <= i < |s| ==> s[i] < 128
  }

  lemma {:induction false} DecodeKeepsNames(d: Decoder, e: bytes)
    requires AsciiPreserving(d)
    ensures SlashFree(Decode(d, e)) <==> SlashFree(e)
    ensures if Ascii(e) then Decode(d, e) == e else !Ascii(Decode(d, e))
  {
    if e != [] {
      DecodeKeepsNames(d, e[1..]);
      var first, rest := d(e[0]), Decode(d, e[1..]);
      assert e == [e[0]] + e[1..];
      assert Ascii(e) <==> e[0] < 128 && Ascii(e[1..]);
      assert Decode(d, e)[0] == first[0];
      if !Ascii(e[1..]) {
        var j :| 0 <= j < |rest| && rest[j] >= 128;
        assert (first + rest)[|first| + j] == rest[j];
      }
    }
  }

  lemma DecodeKeepsOrdinary(d: Decoder, e: bytes)
    requires AsciiPreserving(d) && Ordinary(e)
    ensures Ordinary(Decode(d, e))
  {
    DecodeKeepsNames(d, e);
  }

  lemma {:induction false} DecodeAllOrdinary(d: Decoder, parts: elements)
    requires AsciiPreserving(d) && AllOrdinary(parts)
    ensures AllOrdinary(DecodeAll(d, parts))
  {
    if parts != [] {
      DecodeKeepsOrdinary(d, parts[0]);
      DecodeAllOrdinary(d, parts[1..]);
    }
  }

  lemma {:induction false} DecodeJoined(d: Decoder, parts: elements)
    requires AsciiPreserving(d)
    ensures Decode(d, JoinSlash(parts)) == JoinSlash(DecodeAll(d, parts))
  {
    if |parts| == 1 {
      assert DecodeAll(d, parts[1..]) == [];
    } else if parts != [] {
      DecodeJoined(d, parts[1..]);
      DecodeAppend(d, parts[0] + [SLASH], JoinSlash(parts[1..]));
      DecodeAppend(d, parts[0], [SLASH]);
      assert Decode(d, [SLASH]) == [SLASH] + Decode(d, []);
      assert DecodeAll(d, parts)[1..] == DecodeAll(d, parts[1..]);
      assert |DecodeAll(d, parts[1..])| > 0;
    }
  }

  // ---------- The main result ----------

  function RootElements(root: bytes): elements {
    Normalised(root == [] || Rooted(root), [], Split(root))
  }

  /**
   For every root, items, file name and ASCII-preserving decoder: the cleaned root, then the items
   normalised with ".." clamped and decoded, then the file name clamped on its own, so that it never
   takes away a directory.
   */
  lemma ReadPathIs(root: bytes, items: seq<bytes>, fileName: bytes, d: Decoder)
    requires AsciiPreserving(d)
    ensures FullPath(root, items, fileName, d) ==
            Render(root == [] || Rooted(root),
                   RootElements(root) + DecodeAll(d, ItemElements(items)) + Clamped(Decode(d, fileName)))
  {
    var sub, file := DecodeAll(d, ItemElements(items)), Clamped(Decode(d, fileName));
    ItemElementsOrdinary(items);
    DecodeAllOrdinary(d, ItemElements(items));
    ClampedOrdinary(Decode(d, fileName));
    DecodedSubPath(items, d);
    FilePart(Decode(d, fileName));
    var subPath := Decode(d, SubPathOf(items));
    JoinThreeParts(root, subPath, items == [], sub, file);
  }

  lemma DecodedSubPath(items: seq<bytes>, d: Decoder)
    requires AsciiPreserving(d)
    ensures Decode(d, SubPathOf(items)) ==
            if items == [] then [] else [SLASH] + JoinSlash(DecodeAll(d, ItemElements(items)))
  {
    SubPathIs(items);
    if items != [] {
      DecodeAppend(d, [SLASH], JoinSlash(ItemElements(items)));
      assert Decode(d, [SLASH]) == [SLASH] + Decode(d, []);
      DecodeJoined(d, ItemElements(items));
    }
  }

  lemma FilePart(name: bytes)
    ensures Join([[SLASH], name]) == [SLASH] + JoinSlash(Clamped(name))
  {
    JoinThree([SLASH], [], name);
    TwoSlashes(name);
    assert [SLASH] + [SLASH] + name == [SLASH] + ([SLASH] + name);
    SkipEmpty(true, [], Split(name));
  }

  /** Empty elements say nothing. */
  lemma SkipEmpty(rooted: bool, stack: elements, parts: elements)
    ensures Normalised(rooted, stack, [[], []] + parts) == Normalised(rooted, stack, parts)
  {
    assert ([[], []] + parts)[1..] == [[]] + parts && ([[]] + parts)[1..] == parts;
    assert Normalised(rooted, stack, [[]] + parts) == Normalised(rooted, stack, parts);
  }

  lemma JoinThreeParts(root: bytes, subPath: bytes, noItems: bool, sub: elements, file: elements)
    requires AllOrdinary(sub) && AllOrdinary(file) && (noItems ==> sub == [])
    requires subPath == if noItems then [] else [SLASH] + JoinSlash(sub)
    ensures Join([root, subPath, [SLASH] + JoinSlash(file)]) ==
            Render(root == [] || Rooted(root), RootElements(root) + sub + file)
  {
    var last := [SLASH] + JoinSlash(file);
    var rooted := root == [] || Rooted(root);
    JoinThree(if root == [] then [SLASH] else root, subPath, last);
    var buf := JoinBuffer([root, subPath, last]);
    assert Rooted(buf) == rooted;
    var front := RootElements(root) + sub;
    assert Normalised(rooted, [], Split(buf)) == Normalised(rooted, front, Split(last)) by {
      if root == [] {
        assert RootElements(root) == [] && front == sub by { assert [] + sub == sub; }
        if subPath != [] {
          SplitAtSlash(subPath, last);
          NormaliseAppend(rooted, [], Split(subPath), Split(last));
          RenderedSplits(rooted, [], sub);
        }
      } else {
        SplitAtSlash(root + [SLASH] + subPath, last);
        SplitAtSlash(root, subPath);
        NormaliseAppend(rooted, [], Split(root) + Split(subPath), Split(last));
        NormaliseAppend(rooted, [], Split(root), Split(subPath));
        if noItems {
          assert Normalised(rooted, RootElements(root), [[]]) == RootElements(root) == front;
        } else {
          RenderedSplits(rooted, RootElements(root), sub);
        }
      }
    }
    RenderedSplits(rooted, front, file);
  }

  /** A path whose elements are those of the root, and then names only. */
  ghost predicate Under(root: bytes, p: bytes) {
    exists below: elements ::
      AllOrdinary(below) && p == Render(root == [] || Rooted(root), RootElements(root) + below)
  }

  /** So no path leads out of the root: its elements always come first. */
  lemma NeverLeavesRoot(root: bytes, items: seq<bytes>, fileName: bytes, d: Decoder)
    requires AsciiPreserving(d)
    ensures Under(root, FullPath(root, items, fileName, d))
  {
    ReadPathIs(root, items, fileName, d);
    ItemElementsOrdinary(items);
    DecodeAllOrdinary(d, ItemElements(items));
    ClampedOrdinary(Decode(d, fileName));
    NamesAreUnder(root, DecodeAll(d, ItemElements(items)), Clamped(Decode(d, fileName)));
  }

  lemma NamesAreUnder(root: bytes, sub: elements, file: elements)
    requires AllOrdinary(sub) && AllOrdinary(file)
    ensures Under(root, Render(root == [] || Rooted(root), RootElements(root) + sub + file))
  {
    var below := sub + file;
    assert RootElements(root) + sub + file == RootElements(root) + below;
    assert AllOrdinary(below);
  }
}
