/**
 Where the items of a folder upload are put: the item's joined segments are joined to the folder's path, and nothing
 stops ".." on the way.
 */
module FolderTargets {
  import opened Bytes
  import opened CleanedPaths
  import opened Paths

  /** path.Join(fullPath, fu.FormattedPath()). fullPath is what ReadPath resolved, which is never empty. */
  function ItemPath(fullPath: bytes, segments: seq<bytes>): bytes {
    Join([fullPath, Join(segments)])
  }

  // ---------- Where the segments lead ----------

  /** The elements of the joined segments. */
  function SegmentElements(segments: seq<bytes>): elements {
    var buf := JoinBuffer(segments);
    if buf == [] then [] else Normalised(Rooted(buf), [], Split(buf))
  }

  lemma ItemPathIs(fullPath: bytes, segments: seq<bytes>)
    requires fullPath != []
    ensures AllOrdinary(NamesOf(SegmentElements(segments)))
    ensures ItemPath(fullPath, segments) ==
            Render(Rooted(fullPath), Normalised(Rooted(fullPath), RootElements(fullPath), SegmentElements(segments)))
  {
    var buf, joined, rooted := JoinBuffer(segments), Join(segments), Rooted(fullPath);
    JoinThree(fullPath, [], joined);
    SplitAtSlash(fullPath, joined);
    NormaliseAppend(rooted, [], Split(fullPath), Split(joined));
    if buf != [] {
      SplitIsCleaned(Rooted(buf), buf);
      RenderedSays(rooted, RootElements(fullPath), Rooted(buf), SegmentElements(segments));
    }
  }

  // ---------- Staying in the folder ----------

  /** The names that so many levels up take back. */
  function TakenBack(names: elements, levels: nat): elements {
    if levels <= |names| then names[|names| - levels..] else names
  }

  /** Going up stops within the names or at the root, and the names taken back are named again. */
  predicate Returns(rooted: bool, names: elements, levels: nat, item: elements) {
    (rooted || levels <= |names|) && TakenBack(names, levels) <= item
  }

  lemma ReturnsExactly(rooted: bool, up: nat, names: elements, levels: nat, item: elements)
    requires AllOrdinary(names) && AllOrdinary(item) && (rooted ==> up == 0)
    ensures GoesOn(Ups(up) + names, Back(rooted, up, names, levels) + item) <==> Returns(rooted, names, levels, item)
  {
    if rooted || levels <= |names| {
      var kept, taken := Back(rooted, up, names, levels), TakenBack(names, levels);
      assert Ups(up) + names == kept + taken;
      PrefixAfter(kept, taken, item);
      if taken <= item {
        FrontNames(item, |taken|);
      }
    } else {
      NoReturn(up, names, levels - |names|, item);
    }
  }

  /** The folder's elements, and then names. */
  predicate GoesOn(folder: elements, there: elements) {
    folder <= there && AllOrdinary(there[|folder|..])
  }

  lemma NoReturn(up: nat, names: elements, more: nat, item: elements)
    requires AllOrdinary(names) && more > 0
    ensures !GoesOn(Ups(up) + names, Ups(up + more) + item)
  {
    var folder, there := Ups(up) + names, Ups(up + more) + item;
    assert there[up] == DOTDOT;
    if names != [] {
      assert folder[up] == names[0] && names[0] in names;
    } else {
      var beyond := there[|folder|..];
      assert beyond[0] == DOTDOT && beyond[0] in beyond;
    }
  }

  lemma PrefixAfter(kept: elements, taken: elements, item: elements)
    ensures kept + taken <= kept + item <==> taken <= item
    ensures taken <= item ==> (kept + item)[|kept + taken|..] == item[|taken|..]
  {
    assert (kept + item)[|kept|..] == item;
    assert taken <= item ==> (kept + item)[..|kept + taken|] == kept + item[..|taken|];
    assert kept + taken <= kept + item ==> (kept + taken)[|kept|..] == item[..|taken|];
  }

  lemma UnderExactly(root: bytes, there: elements)
    requires root != [] && Cleaned(Rooted(root), there)
    ensures Under(root, Render(Rooted(root), there)) <==> GoesOn(RootElements(root), there)
  {
    var folder, p := RootElements(root), Render(Rooted(root), there);
    SplitIsCleaned(Rooted(root), root);
    NamesAreSlashFree(folder);
    NamesAreSlashFree(there);
    if GoesOn(folder, there) {
      assert there == folder + there[|folder|..];
    }
    if Under(root, p) {
      var below :| AllOrdinary(below) && p == Render(Rooted(root), folder + below);
      RenderInjective(Rooted(root), there, folder + below);
      assert there[|folder|..] == below;
    }
  }

  /**
   An item is put under the folder being uploaded to exactly when the levels its segments lead up stop at the root or
   within the folder's names, and its segments then name again what was taken back. So it is whenever they lead up
   none.
   */
  lemma ItemUnderFolder(fullPath: bytes, segments: seq<bytes>)
    requires fullPath != []
    ensures var item := SegmentElements(segments);
            Under(fullPath, ItemPath(fullPath, segments)) <==>
            Returns(Rooted(fullPath), NamesOf(RootElements(fullPath)), UpsOf(item), NamesOf(item))
  {
    var rooted, folder, item := Rooted(fullPath), RootElements(fullPath), SegmentElements(segments);
    ItemPathIs(fullPath, segments);
    SplitIsCleaned(rooted, fullPath);
    Onwards(rooted, folder, item);
    BackIsCleaned(rooted, UpsOf(folder), NamesOf(folder), UpsOf(item), NamesOf(item));
    UpsFirst(folder);
    ReturnsExactly(rooted, UpsOf(folder), NamesOf(folder), UpsOf(item), NamesOf(item));
    UnderExactly(fullPath, Normalised(rooted, folder, item));
  }

  lemma BackIsCleaned(rooted: bool, up: nat, names: elements, levels: nat, item: elements)
    requires AllOrdinary(names) && AllOrdinary(item) && (rooted ==> up == 0)
    ensures Cleaned(rooted, Back(rooted, up, names, levels) + item)
  {
    if levels <= |names| {
      var kept := names[..|names| - levels];
      FrontNames(names, |kept|);
      UpsAndNames(up, kept + item);
      assert Ups(up) + kept + item == Ups(up) + (kept + item);
    } else {
      var up' := if rooted then 0 else up + (levels - |names|);
      UpsAndNames(up', item);
      assert Back(rooted, up, names, levels) == Ups(up');
    }
  }

  /** /a/b */
  function TwoNames(a: bytes, b: bytes): bytes {
    Render(true, [a, b])
  }

  lemma TwoElements(a: bytes, b: bytes)
    requires Ordinary(a) && Ordinary(b)
    ensures TwoNames(a, b) != [] && Rooted(TwoNames(a, b)) && RootElements(TwoNames(a, b)) == [a, b]
  {
    RenderedSplits(true, [], [a, b]);
    assert [] + [a, b] == [a, b];
  }

  lemma UpAndName(name: bytes)
    requires Ordinary(name)
    ensures SegmentElements([DOTDOT, name]) == [DOTDOT, name] == Ups(1) + [name]
    ensures UpsOf([DOTDOT, name]) == 1 && NamesOf([DOTDOT, name]) == [name]
  {
    JoinThree(DOTDOT, [], name);
    SplitOne(DOTDOT);
    SplitOne(name);
    SplitAtSlash(DOTDOT, name);
    assert Step(false, [], DOTDOT) == [DOTDOT] && [DOTDOT, name][1..] == [name];
    NormaliseOrdinary(false, [DOTDOT], [name]);
    UpsAndNames(1, [name]);
  }

  /** In an upload to /dir/folder the segments ".." and "other" name /dir/other. */
  lemma ItemBesideFolder(dir: bytes, folder: bytes, other: bytes)
    requires Ordinary(dir) && Ordinary(folder) && Ordinary(other) && folder != other
    ensures ItemPath(TwoNames(dir, folder), [DOTDOT, other]) == TwoNames(dir, other)
    ensures !Under(TwoNames(dir, folder), TwoNames(dir, other))
  {
    var fullPath := TwoNames(dir, folder);
    TwoElements(dir, folder);
    UpAndName(other);
    UpsAndNames(0, [dir, folder]);
    assert Ups(0) + [dir, folder] == [dir, folder];
    ItemPathIs(fullPath, [DOTDOT, other]);
    Onwards(true, [dir, folder], [DOTDOT, other]);
    assert Ups(0) + [dir, folder][..1] + [other] == [dir, other];
    ItemUnderFolder(fullPath, [DOTDOT, other]);
    assert TakenBack([dir, folder], 1) == [folder];
  }
}
