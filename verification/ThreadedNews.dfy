/**
 The threaded news store: four operations that change the tree in memory, write it to the news
 file, and undo the change when the write fails.

 The first part says what each operation does to the tree; the class then carries the operations
 out step by step, and the lemmas say what a run of them keeps.
 */
module ThreadedNews {
  import opened Bytes
  import opened NewsTree
  import opened Sorting

  datatype Outcome = Done | InvalidPath | NoParentPath | WriteFailed | Panicked
  datatype Effect = Effect(outcome: Outcome, tree: CatMap)

  // ---------- Article numbering ----------

  ghost function MaxKey(s: set<u32>): (k: u32)
    requires s != {}
    ensures k in s && forall j :: j in s ==> j <= k
  {
    var x :| x in s;
    if s == {x} then x else
      var y := MaxKey(s - {x});
      assert s == {x} + (s - {x});
      if x < y then y else x
  }

  /** One more than the largest ID, in uint32 arithmetic. */
  ghost function NextID(a: map<u32, ArtRef>): u32 {
    if a.Keys == {} then 1 else Add32(MaxKey(a.Keys), 1)
  }

  /** An existing article after n has been posted as its successor, its first reply, or both. */
  ghost function Relinked(x: ArtRef, n: u32, isLast: bool, isParent: bool): ArtRef {
    if x.NilArt? then x else
      Art(x.art.(next := if isLast then n else x.art.next,
                 firstChild := if isParent && x.art.firstChild == 0 then n else x.art.firstChild))
  }

  ghost function Posted(a: map<u32, ArtRef>, parent: u32, art: Article): map<u32, ArtRef> {
    var n := NextID(a);
    map k | k in a.Keys + {n} ::
      if k == n then
        Art(art.(parent := parent, prev := if a.Keys == {} then art.prev else MaxKey(a.Keys)))
      else
        Relinked(a[k], n, k == MaxKey(a.Keys), parent != 0 && k == parent)
  }

  /** The newest article linked to a successor that was never stored. */
  ghost function Dangling(a: map<u32, ArtRef>): map<u32, ArtRef> {
    map k | k in a :: Relinked(a[k], NextID(a), k == MaxKey(a.Keys), false)
  }

  /** Every link a post sets in articles that are already there. */
  ghost function Linking(a: map<u32, ArtRef>, parent: u32): map<u32, ArtRef> {
    map k | k in a :: Relinked(a[k], NextID(a), k == MaxKey(a.Keys), parent != 0 && k == parent)
  }

  lemma DanglingInSteps(a: map<u32, ArtRef>)
    requires a.Keys != {} && !LastIsNil(a)
    ensures var last := MaxKey(a.Keys);
            Dangling(a) == a[last := Art(a[last].art.(next := NextID(a)))]
  {
  }

  lemma PostedInSteps(a: map<u32, ArtRef>, parent: u32, art: Article)
    ensures var prev := if a.Keys == {} then art.prev else MaxKey(a.Keys);
            Posted(a, parent, art) == Linking(a, parent)[NextID(a) := Art(art.(parent := parent, prev := prev))]
  {
  }

  /** The first-child link, set after the next link, also when the parent is the newest article. */
  lemma LinkingInSteps(a: map<u32, ArtRef>, parent: u32)
    requires parent != 0 ==> HasArticle(a, parent)
    ensures var d := Dangling(a);
            Linking(a, parent) ==
            if parent != 0 && d[parent].art.firstChild == 0
            then d[parent := Art(d[parent].art.(firstChild := NextID(a)))] else d
  {
  }

  /** Undoing the links one by one, in the order the source does, gives back every article. */
  lemma LinkingUndone(a: map<u32, ArtRef>, parent: u32, b: map<u32, ArtRef>)
    requires parent != 0 ==> HasArticle(a, parent)
    requires a.Keys != {} && !LastIsNil(a)
    requires b == Linking(a, parent) - {NextID(a)}
    ensures var last := MaxKey(a.Keys);
            last in b && b[last].Art? &&
            var c := b[last := Art(b[last].art.(next := a[last].art.next))];
            (parent != 0 ==> parent in c && c[parent].Art?) &&
            a - {NextID(a)} ==
            if parent != 0 && a[parent].art.firstChild == 0
            then c[parent := Art(c[parent].art.(firstChild := 0))] else c
  {
  }

  function ArticlesOf(c: Category): map<u32, ArtRef> {
    if c.articles.NilArts? then map[] else c.articles.m
  }

  // ---------- What each operation does ----------

  datatype Op =
    | CreateGrouping(p: path, name: text, kind: bytes2)
    | PostArticle(p: path, parent: u32, art: Article)
    | DeleteArticle(p: path, id: u32)
    | DeleteNewsItem(p: path)

  function NewGrouping(name: text, kind: bytes2): Category {
    Category(kind, name, Arts(map[]), Cats(map[]))
  }

  ghost predicate LastIsNil(a: map<u32, ArtRef>) {
    a.Keys != {} && a[MaxKey(a.Keys)].NilArt?
  }

  predicate HasArticle(a: map<u32, ArtRef>, id: u32) {
    id in a && a[id].Art?
  }

  datatype EntryEffect = EntryEffect(outcome: Outcome, stores: bool, cat: Category)

  /** What posting does to one category, and whether the category it has changed is in the tree. */
  ghost function PostEffect(cat: Category, parent: u32, art: Article, ok: bool): EntryEffect {
    var a := ArticlesOf(cat);
    if LastIsNil(a) then EntryEffect(Panicked, false, cat)
    else if parent != 0 && !HasArticle(a, parent) then
      EntryEffect(Panicked, a.Keys != {}, cat.(articles := Arts(Dangling(a))))
    else if ok then EntryEffect(Done, true, cat.(articles := Arts(Posted(a, parent, art))))
    else EntryEffect(WriteFailed, true, cat.(articles := Arts(a - {NextID(a)})))
  }

  /** What deleting an article does to one category. Undoing a delete of nothing stores a nil pointer. */
  ghost function DeleteEffect(cat: Category, id: u32, ok: bool): EntryEffect {
    if cat.articles.NilArts? then EntryEffect(if ok then Done else Panicked, true, cat)
    else
      var a := cat.articles.m;
      if ok then EntryEffect(Done, true, cat.(articles := Arts(a - {id})))
      else EntryEffect(WriteFailed, true, cat.(articles := Arts(a[id := if id in a then a[id] else NilArt])))
  }

  /** The outcome of an operation and the tree it leaves; ok says whether the file write succeeds. */
  ghost function EffectOf(tree: CatMap, op: Op, ok: bool): Effect {
    match op
    case CreateGrouping(p, name, kind) =>
      if !Reaches(tree, p) then Effect(Panicked, tree) else
        var m := CatsAt(tree, p).m;
        if ok then Effect(Done, PutAt(tree, p, m[name := NewGrouping(name, kind)]))
        else Effect(WriteFailed, PutAt(tree, p, m - {name}))
    case PostArticle(p, parent, art) =>
      if p == [] then Effect(InvalidPath, tree)
      else if !Reaches(tree, Parent(p)) then Effect(NoParentPath, tree)
      else
        var m := CatsAt(tree, Parent(p)).m;
        var cat := Lookup(Cats(m), Name(p));
        var e := PostEffect(cat, parent, art, ok);
        Effect(e.outcome, if e.stores then PutAt(tree, Parent(p), m[Name(p) := e.cat]) else tree)
    case DeleteArticle(p, id) =>
      if p == [] then Effect(InvalidPath, tree)
      else if !Reaches(tree, Parent(p)) then Effect(Panicked, tree)
      else
        var m := CatsAt(tree, Parent(p)).m;
        var cat := Lookup(Cats(m), Name(p));
        var e := DeleteEffect(cat, id, ok);
        Effect(e.outcome, PutAt(tree, Parent(p), m[Name(p) := e.cat]))
    case DeleteNewsItem(p) =>
      if p == [] then Effect(Panicked, tree)
      else if !Reaches(tree, Parent(p)) then Effect(if ok then Done else Panicked, tree)
      else
        var m := CatsAt(tree, Parent(p)).m;
        if ok then Effect(Done, PutAt(tree, Parent(p), m - {Name(p)}))
        else Effect(WriteFailed, PutAt(tree, Parent(p), m[Name(p) := Lookup(Cats(m), Name(p))]))
  }

  // ---------- The store ----------

  /** How writing the news file ends; the rename is what replaces the old contents. */
  datatype Write = MarshalFails | TempFileFails | RenameFails | Written

  /** The largest key of the map: the keys are collected in any order, sorted, and the last one taken. */
  method LastKey(keySet: set<u32>) returns (found: bool, last: u32)
    ensures found <==> keySet != {}
    ensures found ==> last == MaxKey(keySet)
  {
    var keys: seq<Keyed<u32>>, rest := [], keySet;
    ghost var done: set<u32> := {};
    while rest != {}
      invariant done + rest == keySet && done !! rest
      invariant forall x :: x in keys <==> x.item in done && x.key == x.item
      invariant Distinct(keys)
      decreases rest
    {
      var k :| k in rest;
      OneMoreDistinct(keys, Keyed(k, k));
      keys, rest, done := keys + [Keyed(k, k)], rest - {k}, done + {k};
    }
    if |keys| == 0 {
      assert forall k :: k in keySet ==> Keyed(k, k) in keys;
      return false, 0;
    }
    assert keys[0] in keys;
    var sorted := Sort(keys);
    var top := sorted[|sorted| - 1];
    ghost var max := MaxKey(keySet);
    assert top in multiset(sorted) && top in keys;
    assert Keyed(max, max) in multiset(keys) && Keyed(max, max) in sorted;
    ButLast(sorted, Keyed(max, max));
    return true, top.item;
  }

  /** What PostArticle remembers of a post in order to take it back. */
  datatype Undo = Undo(nextID: u32, hasPrev: bool, prevID: u32, oldNextArt: u32, setFirstChild: bool, parentID: u32)
  {
    /** These are the right values for a category whose articles were a before the post. */
    ghost predicate For(a: map<u32, ArtRef>) {
      && nextID == NextID(a) && !LastIsNil(a)
      && (parentID != 0 ==> HasArticle(a, parentID))
      && (hasPrev <==> a.Keys != {})
      && (hasPrev ==> prevID == MaxKey(a.Keys) && oldNextArt == a[prevID].art.next)
      && (setFirstChild <==> parentID != 0 && a[parentID].art.firstChild == 0)
    }
  }

  class ThreadedNewsYAML {
    var categories: CatMap
    var file: CatMap  // what the news file holds

    constructor Load(contents: CatMap)
      ensures categories == file == contents
    {
      categories, file := contents, contents;
    }

    method WriteFile(w: Write) returns (ok: bool)
      modifies this`file
      ensures ok <==> w.Written?
      ensures file == if ok then categories else old(file)
    {
      if w.Written? {
        file := categories;
      }
      ok := w.Written?;
    }

    /** The tree is base but for the entry called name in the map at dir. */
    ghost predicate OnlyAt(base: CatMap, dir: path, name: text)
      reads this`categories
    {
      && Reaches(base, dir) && Reaches(categories, dir)
      && categories == PutAt(base, dir, CatsAt(categories, dir).m)
      && CatsAt(categories, dir).m - {name} == CatsAt(base, dir).m - {name}
    }

    /** cats[name] = cat, for the map at dir. */
    method SetEntry(dir: path, name: text, cat: Category, ghost base: CatMap)
      requires OnlyAt(base, dir, name)
      modifies this`categories
      ensures OnlyAt(base, dir, name)
      ensures categories == PutAt(base, dir, CatsAt(base, dir).m[name := cat])
    {
      var m := CatsAt(categories, dir).m;
      PutAtReaches(categories, dir, m[name := cat]);
      PutAtTwice(base, dir, m, m[name := cat]);
      assert m[name := cat] - {name} == m - {name};
      assert m[name := cat] == CatsAt(base, dir).m[name := cat] by {
        forall k | k != name
          ensures k in m <==> k in CatsAt(base, dir).m
          ensures k in m ==> m[k] == CatsAt(base, dir).m[k]
        {
          assert k in m <==> k in m - {name};
          assert k in CatsAt(base, dir).m <==> k in CatsAt(base, dir).m - {name};
          assert k in m ==> m[k] == (m - {name})[k] == (CatsAt(base, dir).m - {name})[k];
        }
      }
      categories := PutAt(categories, dir, m[name := cat]);
    }

    /** delete(cats, name), for the map at dir. */
    method RemoveEntry(dir: path, name: text, ghost base: CatMap)
      requires OnlyAt(base, dir, name)
      modifies this`categories
      ensures OnlyAt(base, dir, name)
      ensures categories == PutAt(base, dir, CatsAt(base, dir).m - {name})
    {
      var m := CatsAt(categories, dir).m;
      PutAtReaches(categories, dir, m - {name});
      PutAtTwice(base, dir, m, m - {name});
      categories := PutAt(categories, dir, m - {name});
    }

    method CreateGrouping(newsPath: path, name: text, kind: bytes2, w: Write) returns (r: Outcome)
      modifies this
      ensures Effect(r, categories) == EffectOf(old(categories), Op.CreateGrouping(newsPath, name, kind), w.Written?)
      ensures file == if r.Done? then categories else old(file)
    {
      if !Reaches(categories, newsPath) {
        return Panicked;
      }
      ghost var base := categories;
      PutAtSame(base, newsPath, CatsAt(base, newsPath).m);
      SetEntry(newsPath, name, Category(kind, name, Arts(map[]), Cats(map[])), base);
      var ok := WriteFile(w);
      if !ok {
        RemoveEntry(newsPath, name, base);
        return WriteFailed;
      }
      return Done;
    }

    method DeleteNewsItem(newsPath: path, w: Write) returns (r: Outcome)
      modifies this
      ensures Effect(r, categories) == EffectOf(old(categories), Op.DeleteNewsItem(newsPath), w.Written?)
      ensures file == if r.Done? then categories else old(file)
    {
      if newsPath == [] {
        return Panicked;
      }
      var dir, delName := Parent(newsPath), Name(newsPath);
      var oldVal := Lookup(CatsAt(categories, dir), delName);
      ghost var base := categories;
      if Reaches(categories, dir) {
        PutAtSame(base, dir, CatsAt(base, dir).m);
        RemoveEntry(dir, delName, base);
      }
      var ok := WriteFile(w);
      if !ok {
        if !Reaches(categories, dir) {
          return Panicked;
        }
        SetEntry(dir, delName, oldVal, base);
        return WriteFailed;
      }
      return Done;
    }

    method DeleteArticle(newsPath: path, articleID: u32, w: Write) returns (r: Outcome)
      modifies this
      ensures Effect(r, categories) == EffectOf(old(categories), Op.DeleteArticle(newsPath, articleID), w.Written?)
      ensures file == if r.Done? then categories else old(file)
    {
      if newsPath == [] {
        return InvalidPath;
      }
      var dir, catName := Parent(newsPath), Name(newsPath);
      var cat := Lookup(CatsAt(categories, dir), catName);
      var oldArticle := if cat.articles.Arts? && articleID in cat.articles.m then cat.articles.m[articleID] else NilArt;
      if cat.articles.Arts? {
        cat := cat.(articles := Arts(cat.articles.m - {articleID}));
      }
      if !Reaches(categories, dir) {
        return Panicked;
      }
      ghost var base, m := categories, CatsAt(categories, dir).m;
      ghost var a := ArticlesOf(Lookup(Cats(m), catName));
      PutAtSame(base, dir, m);
      SetEntry(dir, catName, cat, base);
      var ok := WriteFile(w);
      if !ok {
        if cat.articles.NilArts? {
          return Panicked;
        }
        cat := cat.(articles := Arts(cat.articles.m[articleID := oldArticle]));
        assert cat.articles.m == a[articleID := oldArticle];
        SetEntry(dir, catName, cat, base);
        return WriteFailed;
      }
      return Done;
    }

    method PostArticle(newsPath: path, parentArticleID: u32, post: Article, w: Write) returns (r: Outcome)
      modifies this
      ensures Effect(r, categories) ==
              EffectOf(old(categories), Op.PostArticle(newsPath, parentArticleID, post), w.Written?)
      ensures file == if r.Done? then categories else old(file)
    {
      if newsPath == [] {
        return InvalidPath;
      }
      var dir, catName := Parent(newsPath), Name(newsPath);
      if !Reaches(categories, dir) {
        return NoParentPath;
      }
      PutAtSame(categories, dir, CatsAt(categories, dir).m);
      var cat := Lookup(CatsAt(categories, dir), catName);
      if cat.articles.NilArts? {
        cat := cat.(articles := Arts(map[]));
      }
      r := PostInto(dir, catName, cat, parentArticleID, post, w, categories);
    }

    /** The part of PostArticle that works on the category it has found. */
    method PostInto(dir: path, catName: text, found: Category, parentID: u32, post: Article, w: Write,
                    ghost base: CatMap)
      returns (r: Outcome)
      requires categories == base && OnlyAt(base, dir, catName)
      requires found.articles.Arts?
      modifies this
      ensures var e := PostEffect(found, parentID, post, w.Written?);
              r == e.outcome &&
              categories == if e.stores then PutAt(base, dir, CatsAt(base, dir).m[catName := e.cat]) else base
      ensures file == if r.Done? then categories else old(file)
    {
      var article := post.(parent := parentID);
      var cat := found;
      ghost var a := found.articles.m;
      var hasPrev, prevID := LastKey(cat.articles.m.Keys);
      var nextID, oldNextArt := 1, 0;

      if hasPrev {
        nextID := Add32(prevID, 1);
        article := article.(prev := prevID);
        if cat.articles.m[prevID].NilArt? {
          return Panicked;
        }
        cat, oldNextArt := LinkNewest(dir, catName, cat, prevID, nextID, base, a);
      }
      assert cat == found.(articles := Arts(Dangling(a)));
      assert categories == if hasPrev then PutAt(base, dir, CatsAt(base, dir).m[catName := cat]) else base;

      if parentID != 0 && !HasArticle(cat.articles.m, parentID) {
        return Panicked;
      }
      var setFirstChild;
      cat, setFirstChild := LinkParent(cat, parentID, nextID, a);
      PostedInSteps(a, parentID, post);
      cat := SetArticle(cat, nextID, article);
      assert cat == found.(articles := Arts(Posted(a, parentID, post)));
      var undo := Undo(nextID, hasPrev, prevID, oldNextArt, setFirstChild, parentID);
      r := CommitPost(dir, catName, cat, undo, w, base, a, post);
    }

    /** The rest of PostArticle: store the category, write the file, take the post back if that fails. */
    method CommitPost(dir: path, catName: text, posted: Category, undo: Undo, w: Write,
                      ghost base: CatMap, ghost a: map<u32, ArtRef>, ghost post: Article)
      returns (r: Outcome)
      requires OnlyAt(base, dir, catName)
      requires undo.For(a) && posted.articles == Arts(Posted(a, undo.parentID, post))
      modifies this
      ensures r == if w.Written? then Done else WriteFailed
      ensures categories == PutAt(base, dir, CatsAt(base, dir).m[catName :=
                              if w.Written? then posted else posted.(articles := Arts(a - {undo.nextID}))])
      ensures file == if w.Written? then categories else old(file)
    {
      SetEntry(dir, catName, posted, base);
      var ok := WriteFile(w);
      if !ok {
        var cat := Unpost(posted, undo, a, post);
        SetEntry(dir, catName, cat, base);
        return WriteFailed;
      }
      return Done;
    }

    /** Pointing the newest article at its successor, in the stored category. */
    method LinkNewest(dir: path, catName: text, found: Category, prevID: u32, nextID: u32,
                      ghost base: CatMap, ghost a: map<u32, ArtRef>)
      returns (cat: Category, oldNextArt: u32)
      requires categories == base && OnlyAt(base, dir, catName)
      requires found.articles == Arts(a) && a.Keys != {} && !LastIsNil(a)
      requires prevID == MaxKey(a.Keys) && nextID == NextID(a)
      modifies this`categories
      ensures OnlyAt(base, dir, catName)
      ensures cat == found.(articles := Arts(Dangling(a))) && oldNextArt == a[prevID].art.next
      ensures categories == PutAt(base, dir, CatsAt(base, dir).m[catName := cat])
    {
      oldNextArt := found.articles.m[prevID].art.next;
      DanglingInSteps(a);
      cat := SetArticle(found, prevID, found.articles.m[prevID].art.(next := nextID));
      SetEntry(dir, catName, cat, base);
    }

    /** Updating the parent article with its first reply. */
    static method LinkParent(cat: Category, parentID: u32, nextID: u32, ghost a: map<u32, ArtRef>)
      returns (linked: Category, setFirstChild: bool)
      requires cat.articles == Arts(Dangling(a)) && nextID == NextID(a)
      requires parentID != 0 ==> HasArticle(cat.articles.m, parentID)
      ensures linked == cat.(articles := Arts(Linking(a, parentID)))
      ensures setFirstChild <==> parentID != 0 && a[parentID].art.firstChild == 0
    {
      linked, setFirstChild := cat, false;
      LinkingInSteps(a, parentID);
      if parentID != 0 {
        if cat.articles.m[parentID].art.firstChild == 0 {
          setFirstChild := true;
          linked := SetArticle(cat, parentID, cat.articles.m[parentID].art.(firstChild := nextID));
        }
      }
    }

    /** Takes the article out again and resets the links its post had set. */
    static method Unpost(posted: Category, undo: Undo, ghost a: map<u32, ArtRef>, ghost post: Article)
      returns (cat: Category)
      requires undo.For(a) && posted.articles == Arts(Posted(a, undo.parentID, post))
      ensures cat == posted.(articles := Arts(a - {undo.nextID}))
    {
      cat := posted.(articles := Arts(posted.articles.m - {undo.nextID}));
      PostedInSteps(a, undo.parentID, post);
      assert cat.articles.m == Linking(a, undo.parentID) - {undo.nextID};
      if undo.hasPrev {
        LinkingUndone(a, undo.parentID, cat.articles.m);
        cat := SetArticle(cat, undo.prevID, cat.articles.m[undo.prevID].art.(next := undo.oldNextArt));
      }
      if undo.setFirstChild {
        cat := SetArticle(cat, undo.parentID, cat.articles.m[undo.parentID].art.(firstChild := 0));
      }
    }

    /** cat.Articles[id] = &art */
    static function SetArticle(cat: Category, id: u32, art: Article): Category
      requires cat.articles.Arts?
    {
      cat.(articles := Arts(cat.articles.m[id := Art(art)]))
    }
  }
}
