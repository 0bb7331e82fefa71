/**
 What the operations of the news store come to, said of what the paths of the tree show: what is there after each of
 them, whether or not its write succeeds, and how long a posted article can be read.
 */
module NewsEffects {
  import opened Bytes
  import opened NewsTree
  import opened ThreadedNews
  import opened NewsRuns

  // ---------- What is at a path ----------

  function ArticlesAt(tree: CatMap, q: path): map<u32, ArtRef>
    requires q != []
  {
    var c := ContentAt(tree, q);
    if c.Present? && c.articles.Arts? then c.articles.m else map[]
  }

  /** The path shows a category with these articles, of the kind and name there were, if there were any. */
  ghost predicate Shows(tree: CatMap, q: path, was: Content, a: map<u32, ArtRef>)
    requires q != []
  {
    var c := ContentAt(tree, q);
    && c.Present? && c.articles == Arts(a)
    && c.kind == (if was.Present? then was.kind else [0, 0])
    && c.name == if was.Present? then was.name else []
  }

  lemma {:induction false} PresentIsReached(tree: CatMap, q: path)
    requires q != [] && ContentAt(tree, q).Present?
    ensures Reaches(tree, Parent(q))
    decreases |q|
  {
    if |q| > 1 {
      PresentIsReached(tree.m[q[0]].subCats, q[1..]);
      assert Parent(q)[1..] == Parent(q[1..]);
    }
  }

  /** The category at a path that is reached, as the operations find it. */
  lemma FoundAt(tree: CatMap, p: path)
    requires p != [] && Reaches(tree, Parent(p))
    ensures var cat, c := Lookup(CatsAt(tree, Parent(p)), Name(p)), ContentAt(tree, p);
            && ArticlesOf(cat) == ArticlesAt(tree, p)
            && if c.Present? then ContentOf(cat) == c else cat == ZERO_CATEGORY
  {
    EntryShows(tree, p, p);
  }

  lemma ShownAt(tree: CatMap, p: path, c: Category)
    requires p != [] && Reaches(tree, Parent(p))
    ensures ContentAt(PutAt(tree, Parent(p), CatsAt(tree, Parent(p)).m[Name(p) := c]), p) == ContentOf(c)
  {
    EntryFrame(tree, p, c, p);
  }

  predicate AtOrUnder(q: path, p: path) {
    q == p || Below(q, p)
  }

  // ---------- Groupings and items ----------

  /** A grouping that has been created is there, empty, with nothing below it, and can be created under. */
  lemma CreatedIsThere(tree: CatMap, p: path, name: text, kind: bytes2)
    requires Reaches(tree, p)
    ensures var e := EffectOf(tree, CreateGrouping(p, name, kind), true);
            && e.outcome.Done? && Reaches(e.tree, p + [name])
            && ContentAt(e.tree, p + [name]) == Present(kind, name, Arts(map[]))
            && forall q: path :: Below(q, p + [name]) ==> ContentAt(e.tree, q).Absent?
  {
    var t, c := p + [name], NewGrouping(name, kind);
    var tree' := PutAt(tree, p, CatsAt(tree, p).m[name := c]);
    assert Parent(t) == p && Name(t) == name;
    ShownAt(tree, t, c);
    EntryReached(tree, p, name, c);
    forall q: path | Below(q, t)
      ensures ContentAt(tree', q).Absent?
    {
      EntryFrame(tree, t, c, q);
    }
  }

  lemma EntryReached(tree: CatMap, p: path, name: text, c: Category)
    requires Reaches(tree, p)
    ensures CatsAt(PutAt(tree, p, CatsAt(tree, p).m[name := c]), p + [name]) == c.subCats
  {
    var m := CatsAt(tree, p).m[name := c];
    PutAtReaches(tree, p, m);
    CatsAppend(PutAt(tree, p, m), p, [name]);
    assert [name][1..] == [] && CatsAt(c.subCats, []) == c.subCats;
  }

  lemma {:induction false} CatsAppend(tree: CatMap, p: path, q: path)
    ensures CatsAt(tree, p + q) == CatsAt(CatsAt(tree, p), q)
    decreases |p|
  {
    if p == [] {
      assert p + q == q;
    } else {
      assert (p + q)[1..] == p[1..] + q;
      CatsAppend(Lookup(tree, p[0]).subCats, p[1..], q);
    }
  }

  /** A creation that fails leaves nothing there, whatever there was before. */
  lemma FailedCreationClears(tree: CatMap, p: path, name: text, kind: bytes2, q: path)
    requires Reaches(tree, p) && AtOrUnder(q, p + [name])
    ensures var e := EffectOf(tree, CreateGrouping(p, name, kind), false);
            e.outcome.WriteFailed? && ContentAt(e.tree, q).Absent?
  {
    var t := p + [name];
    assert Parent(t) == p && Name(t) == name;
    RemovedFrame(tree, t, q);
  }

  lemma {:induction false} NotReachedIsAbsent(tree: CatMap, p: path, q: path)
    requires p != [] && !Reaches(tree, Parent(p)) && AtOrUnder(q, p)
    ensures ContentAt(tree, q).Absent?
    decreases |p|
  {
    if q != p {
      BelowStep(q, p);
    }
    if |p| > 1 {
      assert Parent(p)[1..] == Parent(p[1..]);
      if tree.Cats? && q[0] in tree.m {
        NotReachedIsAbsent(tree.m[q[0]].subCats, p[1..], q[1..]);
      }
    }
  }

  /** An item that has been deleted is gone with all below it. */
  lemma DeletedIsGone(tree: CatMap, p: path, q: path)
    requires p != [] && AtOrUnder(q, p)
    ensures var e := EffectOf(tree, DeleteNewsItem(p), true);
            e.outcome.Done? && ContentAt(e.tree, q).Absent?
  {
    if Reaches(tree, Parent(p)) {
      RemovedFrame(tree, p, q);
    } else {
      NotReachedIsAbsent(tree, p, q);
    }
  }

  /** A deletion that fails leaves an item that was there, and makes an empty one of one that was not. */
  lemma FailedDeletionShows(tree: CatMap, p: path)
    requires p != [] && Reaches(tree, Parent(p))
    ensures var e, was := EffectOf(tree, DeleteNewsItem(p), false), ContentAt(tree, p);
            && e.outcome.WriteFailed?
            && ContentAt(e.tree, p) == if was.Present? then was else Present([0, 0], [], NilArts)
  {
    FoundAt(tree, p);
    ShownAt(tree, p, Lookup(CatsAt(tree, Parent(p)), Name(p)));
  }

  // ---------- Deleting an article ----------

  ghost predicate SameBut(a: map<u32, ArtRef>, b: map<u32, ArtRef>, id: u32) {
    forall k: u32 :: k != id ==> (k in a <==> k in b) && (k in a ==> b[k] == a[k])
  }

  /** A deleted article is gone from its category, and every other is there as before. */
  lemma DeletedArticleIsGone(tree: CatMap, p: path, id: u32)
    requires p != [] && ContentAt(tree, p).Present? && ContentAt(tree, p).articles.Arts?
    ensures var e, a := EffectOf(tree, DeleteArticle(p, id), true), ArticlesAt(tree, p);
            var b := ArticlesAt(e.tree, p);
            e.outcome.Done? && Shows(e.tree, p, ContentAt(tree, p), b) && id !in b && SameBut(a, b, id)
  {
    PresentIsReached(tree, p);
    FoundAt(tree, p);
    ShownAt(tree, p, DeleteEffect(Lookup(CatsAt(tree, Parent(p)), Name(p)), id, true).cat);
  }

  /** One that could not be deleted is there as before; if it was not there, a nil pointer is. */
  lemma FailedArticleDeletion(tree: CatMap, p: path, id: u32)
    requires p != [] && ContentAt(tree, p).Present? && ContentAt(tree, p).articles.Arts?
    ensures var e, a := EffectOf(tree, DeleteArticle(p, id), false), ArticlesAt(tree, p);
            var b := ArticlesAt(e.tree, p);
            && e.outcome.WriteFailed? && Shows(e.tree, p, ContentAt(tree, p), b) && SameBut(a, b, id)
            && id in b && b[id] == if id in a then a[id] else NilArt
  {
    PresentIsReached(tree, p);
    FoundAt(tree, p);
    ShownAt(tree, p, DeleteEffect(Lookup(CatsAt(tree, Parent(p)), Name(p)), id, false).cat);
  }

  /** Without an article map there is nothing to delete; where there is no category an empty one appears. */
  lemma NothingToDelete(tree: CatMap, p: path, id: u32, ok: bool)
    requires p != [] && Reaches(tree, Parent(p))
    requires ContentAt(tree, p).Present? ==> ContentAt(tree, p).articles.NilArts?
    ensures var e, was := EffectOf(tree, DeleteArticle(p, id), ok), ContentAt(tree, p);
            && e.outcome == (if ok then Done else Panicked)
            && ContentAt(e.tree, p) == if was.Present? then was else Present([0, 0], [], NilArts)
  {
    FoundAt(tree, p);
    ShownAt(tree, p, Lookup(CatsAt(tree, Parent(p)), Name(p)));
  }

  // ---------- Posting ----------

  ghost predicate Newest(a: map<u32, ArtRef>, k: u32) {
    k in a && forall j :: j in a ==> j <= k
  }

  /** One more than the largest ID, or 1; after the largest there is comes 0. */
  ghost predicate NextNumber(a: map<u32, ArtRef>, n: u32) {
    (a.Keys == {} ==> n == 1) && forall k: u32 :: Newest(a, k) ==> if k == TWO32 - 1 then n == 0 else n == k + 1
  }

  lemma NextIDIsNext(a: map<u32, ArtRef>)
    ensures NextNumber(a, NextID(a))
  {
    forall k | Newest(a, k)
      ensures k == MaxKey(a.Keys)
    {
    }
  }

  /** What an article says, and where in the category it was put. */
  predicate SameText(x: Article, y: Article) {
    && x.title == y.title && x.poster == y.poster && x.date == y.date && x.data == y.data
    && x.parent == y.parent && x.prev == y.prev
  }

  /** An article that was there, after one numbered n has been posted: only its links may have changed. */
  ghost predicate LinkedTo(a: map<u32, ArtRef>, b: map<u32, ArtRef>, k: u32, n: u32, parent: u32)
    requires k in a && k in b
  {
    if a[k].NilArt? then b[k].NilArt? else
      && b[k].Art? && SameText(a[k].art, b[k].art)
      && b[k].art.next == (if Newest(a, k) then n else a[k].art.next)
      && b[k].art.firstChild ==
         if parent != 0 && k == parent && a[k].art.firstChild == 0 then n else a[k].art.firstChild
  }

  /** The post as it was given, under its parent and after the newest before it. */
  ghost predicate PostedAs(x: Article, post: Article, parent: u32, a: map<u32, ArtRef>) {
    && x.title == post.title && x.poster == post.poster && x.date == post.date && x.data == post.data
    && x.next == post.next && x.firstChild == post.firstChild && x.parent == parent
    && (a.Keys == {} ==> x.prev == post.prev) && forall k :: Newest(a, k) ==> x.prev == k
  }

  /** b is a with a post numbered n. */
  ghost predicate WithPost(a: map<u32, ArtRef>, b: map<u32, ArtRef>, n: u32, parent: u32, post: Article) {
    && HasArticle(b, n) && PostedAs(b[n].art, post, parent, a)
    && forall k: u32 :: k != n ==> (k in a <==> k in b) && (k in a ==> LinkedTo(a, b, k, n, parent))
  }

  lemma PostedIsWithPost(a: map<u32, ArtRef>, parent: u32, post: Article)
    ensures WithPost(a, Posted(a, parent, post), NextID(a), parent, post)
  {
    assert forall k :: Newest(a, k) <==> a.Keys != {} && k == MaxKey(a.Keys);
  }

  /**
   A post whose newest predecessor is not nil and whose parent is there, if it names one, is stored under the next
   number with the text it was given; of the other articles only the links change.
   */
  lemma PostIsThere(tree: CatMap, p: path, parent: u32, post: Article)
    requires p != [] && Reaches(tree, Parent(p))
    ensures var e, a := EffectOf(tree, PostArticle(p, parent, post), true), ArticlesAt(tree, p);
            var b := ArticlesAt(e.tree, p);
            && (e.outcome.Done? <==>
                  (forall k :: Newest(a, k) ==> a[k].Art?) && (parent == 0 || HasArticle(a, parent)))
            && (e.outcome.Done? ==>
                  && Shows(e.tree, p, ContentAt(tree, p), b)
                  && NextNumber(a, NextID(a)) && WithPost(a, b, NextID(a), parent, post))
  {
    var a := ArticlesAt(tree, p);
    FoundAt(tree, p);
    NextIDIsNext(a);
    PostedIsWithPost(a, parent, post);
    ShownAt(tree, p, PostEffect(Lookup(CatsAt(tree, Parent(p)), Name(p)), parent, post, true).cat);
    assert forall k :: Newest(a, k) <==> a.Keys != {} && k == MaxKey(a.Keys);
  }

  /** One that could not be written is taken out again: every article is as before, and its number is free. */
  lemma FailedPostIsGone(tree: CatMap, p: path, parent: u32, post: Article)
    requires p != [] && EffectOf(tree, PostArticle(p, parent, post), false).outcome.WriteFailed?
    ensures var e, a := EffectOf(tree, PostArticle(p, parent, post), false), ArticlesAt(tree, p);
            var b := ArticlesAt(e.tree, p);
            Shows(e.tree, p, ContentAt(tree, p), b) && NextID(a) !in b && SameBut(a, b, NextID(a))
  {
    FoundAt(tree, p);
    ShownAt(tree, p, PostEffect(Lookup(CatsAt(tree, Parent(p)), Name(p)), parent, post, false).cat);
  }

  /** A post that panics has linked at most the newest article, to the number that is not there. */
  lemma BrokenPostLinks(tree: CatMap, p: path, parent: u32, post: Article, ok: bool)
    requires p != [] && EffectOf(tree, PostArticle(p, parent, post), ok).outcome.Panicked?
    ensures var e, a := EffectOf(tree, PostArticle(p, parent, post), ok), ArticlesAt(tree, p);
            var b := ArticlesAt(e.tree, p);
            && b.Keys == a.Keys
            && forall k :: k in a ==> b[k] == a[k] || (Newest(a, k) && LinkedTo(a, b, k, NextID(a), 0))
  {
    var a := ArticlesAt(tree, p);
    FoundAt(tree, p);
    ShownAt(tree, p, PostEffect(Lookup(CatsAt(tree, Parent(p)), Name(p)), parent, post, ok).cat);
    assert forall k :: Newest(a, k) <==> a.Keys != {} && k == MaxKey(a.Keys);
  }

  /** An operation whose place is not there changes nothing, whatever it answers. */
  lemma RefusedChangesNothing(tree: CatMap, op: Op, ok: bool)
    requires if op.CreateGrouping? then !Reaches(tree, op.p) else op.p == [] || !Reaches(tree, Parent(op.p))
    ensures var e := EffectOf(tree, op, ok);
            && e.tree == tree
            && e.outcome == match op {
                 case CreateGrouping(_, _, _) => Panicked
                 case PostArticle(p, _, _) => if p == [] then InvalidPath else NoParentPath
                 case DeleteArticle(p, _) => if p == [] then InvalidPath else Panicked
                 case DeleteNewsItem(p) => if p != [] && ok then Done else Panicked
               }
  {
  }

  // ---------- How long a post can be read ----------

  /** The operation removes the article, what is above it, or gives its number away. */
  ghost predicate Ends(tree: CatMap, op: Op, q: path, k: u32)
    requires q != []
  {
    match op
    case CreateGrouping(_, _, _) => AtOrUnder(q, Target(op))
    case DeleteNewsItem(p) => AtOrUnder(q, p)
    case DeleteArticle(p, id) => q == p && k == id
    case PostArticle(p, _, _) => q == p && NextNumber(ArticlesAt(tree, q), k)
  }

  /** The article is there with the text. */
  ghost predicate Reads(tree: CatMap, q: path, k: u32, x: Article)
    requires q != []
  {
    HasArticle(ArticlesAt(tree, q), k) && SameText(ArticlesAt(tree, q)[k].art, x)
  }

  lemma PostKeepsText(tree: CatMap, p: path, parent: u32, post: Article, ok: bool, k: u32, x: Article)
    requires p != [] && Reads(tree, p, k, x) && k != NextID(ArticlesAt(tree, p))
    ensures Reads(EffectOf(tree, PostArticle(p, parent, post), ok).tree, p, k, x)
  {
    var a := ArticlesAt(tree, p);
    PresentIsReached(tree, p);
    FoundAt(tree, p);
    ShownAt(tree, p, PostEffect(Lookup(CatsAt(tree, Parent(p)), Name(p)), parent, post, ok).cat);
    PostedIsWithPost(a, parent, post);
  }

  /** Whatever else happens, with its write failing or not, an article keeps its text. */
  lemma StepKeepsText(tree: CatMap, step: Step, q: path, k: u32, x: Article)
    requires q != [] && Reads(tree, q, k, x) && !Ends(tree, step.op, q, k)
    ensures Reads(EffectOf(tree, step.op, step.ok).tree, q, k, x)
  {
    var op := step.op;
    if q != Target(op) {
      OtherPathsKept(tree, op, step.ok, q);
    } else if op.PostArticle? {
      NextIDIsNext(ArticlesAt(tree, q));
      PostKeepsText(tree, op.p, op.parent, op.art, step.ok, k, x);
    } else if step.ok {
      DeletedArticleIsGone(tree, op.p, op.id);
    } else {
      FailedArticleDeletion(tree, op.p, op.id);
    }
  }

  ghost predicate Lasting(s: Store, steps: seq<Step>, q: path, k: u32)
    requires q != []
    decreases |steps|
  {
    steps == [] || (!Ends(s.tree, steps[0].op, q, k) && Lasting(Take(s, steps[0]), steps[1..], q, k))
  }

  lemma {:induction false} RunKeepsText(s: Store, steps: seq<Step>, q: path, k: u32, x: Article)
    requires q != [] && Reads(s.tree, q, k, x) && Lasting(s, steps, q, k)
    ensures Reads(Run(s, steps).tree, q, k, x)
    decreases |steps|
  {
    if steps != [] {
      StepKeepsText(s.tree, steps[0], q, k, x);
      RunKeepsText(Take(s, steps[0]), steps[1..], q, k, x);
    }
  }

  /**
   A post that has succeeded is read at its path with its text and parent after any run, with writes failing anywhere,
   that neither deletes it nor creates or deletes what holds it nor comes round to its number again.
   */
  lemma PostStays(s: Store, p: path, parent: u32, post: Article, steps: seq<Step>)
    requires p != [] && EffectOf(s.tree, PostArticle(p, parent, post), true).outcome.Done?
    requires Lasting(Take(s, Step(PostArticle(p, parent, post), true)), steps, p, NextID(ArticlesAt(s.tree, p)))
    ensures var s', n := Run(Take(s, Step(PostArticle(p, parent, post), true)), steps), NextID(ArticlesAt(s.tree, p));
            var b := ArticlesAt(s'.tree, p);
            HasArticle(b, n) && b[n].art.title == post.title && b[n].art.poster == post.poster
            && b[n].art.date == post.date && b[n].art.data == post.data && b[n].art.parent == parent
  {
    var s1, n := Take(s, Step(PostArticle(p, parent, post), true)), NextID(ArticlesAt(s.tree, p));
    PostIsThere(s.tree, p, parent, post);
    RunKeepsText(s1, steps, p, n, ArticlesAt(s1.tree, p)[n].art);
  }
}
