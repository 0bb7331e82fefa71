/**
 The threaded news tree as a value, and what each operation of the store does to it.

 Go maps may be nil and hold nil pointers, and both show: reading a nil map gives zero values,
 writing one panics, and a nil article pointer panics when it is followed.
 */
module NewsTree {
  import opened Bytes

  type text = bytes  // a Go string
  type path = seq<text>

  datatype Article = Article(
    title: text, poster: text, date: bytes8,
    prev: u32, next: u32, parent: u32, firstChild: u32,
    data: text)

  datatype ArtRef = NilArt | Art(art: Article)
  datatype ArtMap = NilArts | Arts(m: map<u32, ArtRef>)

  datatype Category = Category(kind: bytes2, name: text, articles: ArtMap, subCats: CatMap)
  datatype CatMap = NilCats | Cats(m: map<text, Category>)

  const ZERO_CATEGORY := Category([0, 0], [], NilArts, NilCats)

  // ---------- Walking the tree ----------

  /** cats[name]: the zero value when the key, or the map itself, is missing. */
  function Lookup(cats: CatMap, name: text): Category {
    if cats.Cats? && name in cats.m then cats.m[name] else ZERO_CATEGORY
  }

  /** getCatByPath */
  function CatsAt(cats: CatMap, p: path): CatMap
    decreases |p|
  {
    if p == [] then cats else CatsAt(Lookup(cats, p[0]).subCats, p[1..])
  }

  lemma {:induction false} NilHasNoPaths(p: path)
    ensures CatsAt(NilCats, p) == NilCats
    decreases |p|
  {
    if p != [] {
      NilHasNoPaths(p[1..]);
    }
  }

  predicate Reaches(cats: CatMap, p: path) {
    CatsAt(cats, p).Cats?
  }

  lemma ReachesStep(cats: CatMap, p: path)
    requires Reaches(cats, p) && p != []
    ensures cats.Cats? && p[0] in cats.m && Reaches(cats.m[p[0]].subCats, p[1..])
  {
    NilHasNoPaths(p[1..]);
  }

  /** The tree after the map at p, shared by reference in the source, has become m. */
  function PutAt(cats: CatMap, p: path, m: map<text, Category>): CatMap
    requires Reaches(cats, p)
    decreases |p|
  {
    if p == [] then Cats(m) else
      ReachesStep(cats, p);
      var c := cats.m[p[0]];
      Cats(cats.m[p[0] := c.(subCats := PutAt(c.subCats, p[1..], m))])
  }

  lemma {:induction false} PutAtReaches(cats: CatMap, p: path, m: map<text, Category>)
    requires Reaches(cats, p)
    ensures CatsAt(PutAt(cats, p, m), p) == Cats(m)
    decreases |p|
  {
    if p != [] {
      ReachesStep(cats, p);
      PutAtReaches(cats.m[p[0]].subCats, p[1..], m);
    }
  }

  lemma {:induction false} PutAtTwice(cats: CatMap, p: path, m: map<text, Category>, m': map<text, Category>)
    requires Reaches(cats, p)
    ensures Reaches(PutAt(cats, p, m), p)
    ensures PutAt(PutAt(cats, p, m), p, m') == PutAt(cats, p, m')
    decreases |p|
  {
    PutAtReaches(cats, p, m);
    if p != [] {
      ReachesStep(cats, p);
      PutAtTwice(cats.m[p[0]].subCats, p[1..], m, m');
    }
  }

  /** Writing back what was there changes nothing, and only that. */
  lemma {:induction false} PutAtSame(cats: CatMap, p: path, m: map<text, Category>)
    requires Reaches(cats, p)
    ensures PutAt(cats, p, m) == cats <==> m == CatsAt(cats, p).m
    decreases |p|
  {
    PutAtReaches(cats, p, m);
    if p != [] {
      ReachesStep(cats, p);
      PutAtSame(cats.m[p[0]].subCats, p[1..], m);
    }
  }

  // ---------- What a path shows ----------

  datatype Content = Absent | Present(kind: bytes2, name: text, articles: ArtMap)

  function ContentOf(c: Category): Content {
    Present(c.kind, c.name, c.articles)
  }

  /** The category at a path, without its subcategories. */
  function ContentAt(cats: CatMap, q: path): Content
    requires q != []
    decreases |q|
  {
    if cats.NilCats? || q[0] !in cats.m then Absent
    else if |q| == 1 then ContentOf(cats.m[q[0]])
    else ContentAt(cats.m[q[0]].subCats, q[1..])
  }

  predicate Below(q: path, p: path) {
    |p| < |q| && p == q[..|p|]
  }

  /** Below a path means: below its rest, from the same first name on. */
  lemma BelowStep(q: path, p: path)
    requires p != [] && q != []
    ensures Below(q, p) <==> |q| > 1 && q[0] == p[0] && Below(q[1..], p[1..])
    ensures Below(q, p) ==> q[|p|..] == q[1..][|p| - 1..]
  {
    if |q| > |p| {
      assert q[..|p|] == [q[0]] + q[1..][..|p| - 1] && p == [p[0]] + p[1..];
      assert q[..|p|][1..] == q[1..][..|p| - 1];
    }
  }

  /** Changing the map at p is seen by the paths below p and by no others. */
  lemma {:induction false} PutAtFrame(cats: CatMap, p: path, m: map<text, Category>, q: path)
    requires Reaches(cats, p) && q != []
    ensures ContentAt(PutAt(cats, p, m), q) ==
            if Below(q, p) then ContentAt(Cats(m), q[|p|..]) else ContentAt(cats, q)
    ensures Below(q, p) ==> ContentAt(cats, q) == ContentAt(CatsAt(cats, p), q[|p|..])
    decreases |p|
  {
    if p == [] {
      assert q[0..] == q;
    } else {
      ReachesStep(cats, p);
      BelowStep(q, p);
      if q[0] == p[0] && |q| > 1 {
        PutAtFrame(cats.m[p[0]].subCats, p[1..], m, q[1..]);
      }
    }
  }

  function Parent(p: path): path
    requires p != []
  {
    p[..|p| - 1]
  }

  function Name(p: path): text
    requires p != []
  {
    p[|p| - 1]
  }

  /** At or below p means: below its parent, in p's own entry. */
  lemma AtOrBelow(q: path, p: path)
    requires p != []
    ensures q == p || Below(q, p) <==> Below(q, Parent(p)) && q[|p| - 1] == Name(p)
    ensures Below(q, Parent(p)) ==> q[|p| - 1..][0] == q[|p| - 1] && q[|p| - 1..][1..] == q[|p|..]
  {
    var n := |p| - 1;
    assert p == Parent(p) + [Name(p)];
    if |q| > n {
      assert q[..|p|] == q[..n] + [q[n]];
    }
  }

  /** Rewriting one entry of the map above p is seen at p and below it only. */
  lemma EntryFrame(cats: CatMap, p: path, c: Category, q: path)
    requires p != [] && q != [] && Reaches(cats, Parent(p))
    ensures var cats' := PutAt(cats, Parent(p), CatsAt(cats, Parent(p)).m[Name(p) := c]);
            ContentAt(cats', q) ==
            if q == p then ContentOf(c)
            else if Below(q, p) then ContentAt(c.subCats, q[|p|..])
            else ContentAt(cats, q)
  {
    PutAtFrame(cats, Parent(p), CatsAt(cats, Parent(p)).m[Name(p) := c], q);
    AtOrBelow(q, p);
  }

  /** What the entry named by p shows at p and below it. */
  lemma EntryShows(cats: CatMap, p: path, q: path)
    requires p != [] && Reaches(cats, Parent(p)) && (q == p || Below(q, p))
    ensures ContentAt(cats, q) ==
            var m := CatsAt(cats, Parent(p)).m;
            if Name(p) !in m then Absent
            else if q == p then ContentOf(m[Name(p)])
            else ContentAt(m[Name(p)].subCats, q[|p|..])
  {
    PutAtFrame(cats, Parent(p), map[], q);
    AtOrBelow(q, p);
  }

  /** Removing one entry is seen at that path and below it only, and nothing is left there. */
  lemma RemovedFrame(cats: CatMap, p: path, q: path)
    requires p != [] && q != [] && Reaches(cats, Parent(p))
    ensures var cats' := PutAt(cats, Parent(p), CatsAt(cats, Parent(p)).m - {Name(p)});
            ContentAt(cats', q) == if q == p || Below(q, p) then Absent else ContentAt(cats, q)
  {
    PutAtFrame(cats, Parent(p), CatsAt(cats, Parent(p)).m - {Name(p)}, q);
    AtOrBelow(q, p);
  }
}
