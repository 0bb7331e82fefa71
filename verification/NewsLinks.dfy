/** The links between articles: what survives posting, deleting without relinking, and ID reuse. */
module NewsLinks {
  import opened Bytes
  import opened NewsTree
  import opened ThreadedNews
  import opened NewsRuns

  // ---------- One category ----------

  ghost predicate LinkedArticle(a: map<u32, ArtRef>, k: u32)
    requires k in a
  {
    a[k].Art? &&
    var x := a[k].art;
    && 1 <= k && x.prev == k - 1
    && (x.next == 0 || x.next == k + 1)
    && (x.next == 0 ==> k == MaxKey(a.Keys))
    && x.parent < k
    && (x.firstChild == 0 || x.firstChild > k)
    && (HasArticle(a, x.parent) ==> a[x.parent].art.firstChild != 0)
  }

  ghost predicate Linked(a: map<u32, ArtRef>) {
    forall k :: k in a ==> LinkedArticle(a, k)
  }

  /** There is an ID left after the largest one. */
  ghost predicate RoomForOne(a: map<u32, ArtRef>) {
    a.Keys == {} || MaxKey(a.Keys) < TWO32 - 1
  }

  /** An article as HandlePostNewsArt builds it: no links yet. */
  predicate Blank(art: Article) {
    art.prev == 0 && art.next == 0 && art.firstChild == 0
  }

  lemma MaxIs(s: set<u32>, k: u32)
    requires k in s && forall j :: j in s ==> j <= k
    ensures MaxKey(s) == k
  {
  }

  /** IDs are not handed out twice, unless the counter wraps onto an article numbered 0. */
  lemma NewIDIsUnused(a: map<u32, ArtRef>)
    ensures NextID(a) in a <==> !RoomForOne(a) && 0 in a
  {
  }

  /** There is an ID for the article, and the links it comes with are those of an article with that ID. */
  ghost predicate Fits(a: map<u32, ArtRef>, art: Article) {
    var n := NextID(a);
    && RoomForOne(a)
    && (a.Keys == {} ==> art.prev == 0)
    && (art.next == 0 || art.next == n + 1)
    && (art.firstChild == 0 || art.firstChild > n)
  }

  /** A stored post keeps the links exactly when its article fits; an unlinked one needs only an ID. */
  lemma PostKeepsLinks(a: map<u32, ArtRef>, parent: u32, art: Article)
    requires Linked(a) && (parent == 0 || HasArticle(a, parent))
    ensures Linked(Posted(a, parent, art)) <==> Fits(a, art)
    ensures Blank(art) ==> (Fits(a, art) <==> RoomForOne(a))
  {
    var b, n := Posted(a, parent, art), NextID(a);
    if RoomForOne(a) {
      PostLinksNew(a, parent, art);
      forall k | k in a
        ensures k in b && LinkedArticle(b, k)
      {
        PostKeepsLink(a, parent, art, k);
      }
      PostLast(a, parent, art);
    } else {
      assert n in b && !LinkedArticle(b, n);
    }
  }

  lemma PostLast(a: map<u32, ArtRef>, parent: u32, art: Article)
    requires RoomForOne(a) && (parent == 0 || HasArticle(a, parent))
    ensures Posted(a, parent, art).Keys == a.Keys + {NextID(a)}
    ensures MaxKey(Posted(a, parent, art).Keys) == NextID(a) && forall j :: j in a ==> j < NextID(a)
  {
    MaxIs(Posted(a, parent, art).Keys, NextID(a));
  }

  lemma PostLinksNew(a: map<u32, ArtRef>, parent: u32, art: Article)
    requires Linked(a) && RoomForOne(a) && (parent == 0 || HasArticle(a, parent))
    ensures NextID(a) in Posted(a, parent, art)
    ensures LinkedArticle(Posted(a, parent, art), NextID(a)) <==> Fits(a, art)
  {
    PostLast(a, parent, art);
    assert parent != 0 ==> LinkedArticle(a, parent);
    assert forall k :: k in a ==> LinkedArticle(a, k);
  }

  lemma PostKeepsLink(a: map<u32, ArtRef>, parent: u32, art: Article, k: u32)
    requires Linked(a) && RoomForOne(a) && k in a
    requires parent == 0 || HasArticle(a, parent)
    ensures k in Posted(a, parent, art) && LinkedArticle(Posted(a, parent, art), k)
  {
    PostLast(a, parent, art);
    assert LinkedArticle(a, k);
  }

  lemma DanglingKeepsLinks(a: map<u32, ArtRef>)
    requires Linked(a)
    ensures Linked(Dangling(a))
  {
    var b := Dangling(a);
    assert b.Keys == a.Keys;
    forall k | k in b
      ensures LinkedArticle(b, k)
    {
      assert LinkedArticle(a, k);
    }
  }

  /** Deleting relinks nothing, so the neighbours' links dangle; the rest of the invariant stays. */
  lemma DeleteKeepsLinks(a: map<u32, ArtRef>, id: u32)
    requires Linked(a)
    ensures Linked(a - {id})
  {
    var b := a - {id};
    forall k | k in b
      ensures LinkedArticle(b, k)
    {
      assert LinkedArticle(a, k);
      if b[k].art.next == 0 {
        assert forall j :: j in b ==> j in a;
        MaxIs(b.Keys, k);
      }
    }
  }

  /** Articles with consecutive IDs always point at each other. */
  lemma NeighboursAgree(a: map<u32, ArtRef>, k: u32)
    requires Linked(a) && k in a && k < TWO32 - 1 && k + 1 in a
    ensures a[k].art.next == k + 1 && a[k + 1].art.prev == k
  {
    assert LinkedArticle(a, k) && LinkedArticle(a, k + 1);
  }

  /** From an article up through its parents, to a top-level one or one whose parent is gone. */
  ghost function Thread(a: map<u32, ArtRef>, k: u32): (t: seq<u32>)
    requires Linked(a) && k in a
    ensures |t| > 0 && t[0] == k && forall i, j :: 0 <= i < j < |t| ==> t[i] > t[j]
    ensures forall i :: 0 <= i < |t| - 1 ==> HasArticle(a, t[i]) && a[t[i]].art.parent == t[i + 1]
    ensures HasArticle(a, t[|t| - 1]) && a[t[|t| - 1]].art.parent !in a
    decreases k
  {
    assert LinkedArticle(a, k);
    var p := a[k].art.parent;
    if p !in a then [k] else [k] + Thread(a, p)
  }

  // ---------- The whole tree ----------

  ghost predicate LinkedAt(tree: CatMap, q: path)
    requires q != []
  {
    var c := ContentAt(tree, q);
    c.Present? && c.articles.Arts? ==> Linked(c.articles.m)
  }

  ghost predicate AllLinked(tree: CatMap) {
    forall q: path :: q != [] ==> LinkedAt(tree, q)
  }

  /** What keeps the links: a post that is stored fits, and an article is there when deleting it fails. */
  ghost predicate OrderlyOn(cat: Category, op: Op, ok: bool)
    requires ActsOnArticles(op)
  {
    var a := ArticlesOf(cat);
    if op.PostArticle? then ok && (op.parent == 0 || HasArticle(a, op.parent)) ==> Fits(a, op.art)
    else !ok && cat.articles.Arts? ==> op.id in a
  }

  ghost predicate Orderly(tree: CatMap, step: Step) {
    var op := step.op;
    ActsOnArticles(op) && op.p != [] && Reaches(tree, Parent(op.p)) ==>
      OrderlyOn(Lookup(CatsAt(tree, Parent(op.p)), Name(op.p)), op, step.ok)
  }

  ghost function EntryAfter(cat: Category, op: Op, ok: bool): Category
    requires ActsOnArticles(op)
  {
    if op.PostArticle? then PostEffect(cat, op.parent, op.art, ok).cat else DeleteEffect(cat, op.id, ok).cat
  }

  /** What a post or delete makes of its category has its links kept exactly under that condition. */
  lemma EntryKeepsLinks(cat: Category, op: Op, ok: bool)
    requires ActsOnArticles(op) && Linked(ArticlesOf(cat))
    ensures Linked(ArticlesOf(EntryAfter(cat, op, ok))) <==> OrderlyOn(cat, op, ok)
  {
    var a := ArticlesOf(cat);
    if op.PostArticle? {
      PostEntryKeepsLinks(cat, op.parent, op.art, ok);
    } else if cat.articles.Arts? {
      DeleteKeepsLinks(a, op.id);
      var b := a[op.id := if op.id in a then a[op.id] else NilArt];
      assert if op.id in a then b == a else op.id in b && !LinkedArticle(b, op.id);
    }
  }

  lemma PostEntryKeepsLinks(cat: Category, parent: u32, art: Article, ok: bool)
    requires Linked(ArticlesOf(cat))
    ensures var a := ArticlesOf(cat);
            Linked(ArticlesOf(PostEffect(cat, parent, art, ok).cat)) <==>
            (ok && (parent == 0 || HasArticle(a, parent)) ==> Fits(a, art))
  {
    var a := ArticlesOf(cat);
    assert a.Keys != {} ==> LinkedArticle(a, MaxKey(a.Keys));
    if parent != 0 && !HasArticle(a, parent) {
      DanglingKeepsLinks(a);
    } else if ok {
      PostKeepsLinks(a, parent, art);
    } else {
      DeleteKeepsLinks(a, NextID(a));
    }
  }

  lemma ArticlesStepKeepsLinks(tree: CatMap, op: Op, ok: bool, q: path)
    requires AllLinked(tree) && ActsOnArticles(op) && q != []
    requires q == op.p || Orderly(tree, Step(op, ok))
    ensures LinkedAt(EffectOf(tree, op, ok).tree, q) <==> q != op.p || Orderly(tree, Step(op, ok))
  {
    var t := op.p;
    assert LinkedAt(tree, q);
    if t != [] && Reaches(tree, Parent(t)) {
      var was := Lookup(CatsAt(tree, Parent(t)), Name(t));
      assert LinkedAt(tree, t);
      EntryShows(tree, t, t);
      EntryKeepsLinks(was, op, ok);
      if q == t {
        EntryFrame(tree, t, EntryAfter(was, op, ok), t);
      } else {
        EntryKept(tree, t, EntryAfter(was, op, ok), q);
      }
    }
  }

  lemma ItemsStepKeepsLinks(tree: CatMap, op: Op, ok: bool, q: path)
    requires AllLinked(tree) && !ActsOnArticles(op) && q != []
    ensures LinkedAt(EffectOf(tree, op, ok).tree, q)
  {
    var t := Target(op);
    assert op.CreateGrouping? ==> Parent(t) == op.p && Name(t) == op.name;
    assert LinkedAt(tree, q);
    if t != [] && Reaches(tree, Parent(t)) {
      EntryShows(tree, t, if Below(q, t) then q else t);
      RemovedFrame(tree, t, q);
      EntryFrame(tree, t, if op.CreateGrouping? then NewGrouping(op.name, op.kind)
                          else Lookup(CatsAt(tree, Parent(t)), Name(t)), q);
    }
  }

  /** An operation on a tree with its links kept keeps them in every category exactly when it is orderly. */
  lemma StepKeepsLinks(tree: CatMap, op: Op, ok: bool)
    requires AllLinked(tree)
    ensures AllLinked(EffectOf(tree, op, ok).tree) <==> Orderly(tree, Step(op, ok))
  {
    if !Orderly(tree, Step(op, ok)) {
      ArticlesStepKeepsLinks(tree, op, ok, op.p);
    } else {
      forall q: path | q != []
        ensures LinkedAt(EffectOf(tree, op, ok).tree, q)
      {
        if ActsOnArticles(op) {
          ArticlesStepKeepsLinks(tree, op, ok, q);
        } else {
          ItemsStepKeepsLinks(tree, op, ok, q);
        }
      }
    }
  }

  ghost predicate OrderlyRun(s: Store, steps: seq<Step>)
    decreases |steps|
  {
    steps == [] || (Orderly(s.tree, steps[0]) && OrderlyRun(Take(s, steps[0]), steps[1..]))
  }

  /** The links are kept in every category of every state a run reaches exactly when each step was orderly. */
  lemma {:induction false} RunKeepsLinks(s: Store, steps: seq<Step>)
    requires AllLinked(s.tree)
    ensures OrderlyRun(s, steps) <==> forall k :: 0 <= k <= |steps| ==> AllLinked(Run(s, steps[..k]).tree)
    decreases |steps|
  {
    if steps != [] {
      var s1, rest := Take(s, steps[0]), steps[1..];
      StepKeepsLinks(s.tree, steps[0].op, steps[0].ok);
      RunStep(s, steps, 1);
      assert rest[..0] == [] && Run(s, steps[..1]) == s1;
      if AllLinked(s1.tree) {
        RunKeepsLinks(s1, rest);
        forall k | 0 < k <= |steps|
          ensures Run(s, steps[..k]) == Run(s1, rest[..k - 1])
        {
          RunStep(s, steps, k);
        }
        assert forall k :: 0 <= k <= |rest| ==> Run(s1, rest[..k]) == Run(s, steps[..k + 1]);
      }
    }
  }

  // ---------- Posting only ----------

  datatype Post = Post(parent: u32, art: Article)

  ghost function PostAll(posts: seq<Post>): map<u32, ArtRef> {
    if posts == [] then map[] else
      var last := posts[|posts| - 1];
      Posted(PostAll(posts[..|posts| - 1]), last.parent, last.art)
  }

  /** Every post is top-level or answers one of the posts before it. */
  predicate InThread(posts: seq<Post>) {
    && |posts| < TWO32 - 1
    && forall i :: 0 <= i < |posts| ==> posts[i].parent <= i && Blank(posts[i].art)
  }

  predicate IsReply(a: map<u32, ArtRef>, k: u32, p: u32) {
    HasArticle(a, k) && a[k].art.parent == p
  }

  /** firstChild is the least reply, or 0 when there is none. */
  ghost predicate LeastReply(a: map<u32, ArtRef>, p: u32)
    requires HasArticle(a, p)
  {
    var c := a[p].art.firstChild;
    && (c == 0 ==> forall k :: !IsReply(a, k, p))
    && (c != 0 ==> IsReply(a, c, p) && forall k :: IsReply(a, k, p) ==> c <= k)
  }

  /** Articles are numbered 1 to n, in the order of the posts, each but the last linked to the next. */
  ghost predicate InOrder(a: map<u32, ArtRef>, posts: seq<Post>) {
    && (forall k: u32 :: k in a <==> 1 <= k <= |posts|)
    && (forall k: u32 :: k in a ==>
          HasArticle(a, k) && a[k].art.parent == posts[k - 1].parent && (k < |posts| ==> a[k].art.next == k + 1))
  }

  /** Posts without deletes are numbered 1 to n in order, and first children are the least replies. */
  lemma {:induction false} PostOnly(posts: seq<Post>)
    requires InThread(posts)
    ensures Linked(PostAll(posts)) && InOrder(PostAll(posts), posts)
    ensures forall k :: k in PostAll(posts) ==> HasArticle(PostAll(posts), k) && LeastReply(PostAll(posts), k)
  {
    if posts != [] {
      var before, last := posts[..|posts| - 1], posts[|posts| - 1];
      var a := PostAll(before);
      assert posts == before + [last];
      assert PostAll(posts) == Posted(a, last.parent, last.art);
      PostOnly(before);
      PostInOrder(a, before, last);
      PostKeepsLinks(a, last.parent, last.art);
      PostAddsReply(a, last.parent, last.art);
    }
  }

  lemma PostInOrder(a: map<u32, ArtRef>, before: seq<Post>, last: Post)
    requires InThread(before + [last]) && InOrder(a, before)
    ensures RoomForOne(a) && Blank(last.art) && (last.parent == 0 || HasArticle(a, last.parent))
    ensures InOrder(Posted(a, last.parent, last.art), before + [last])
  {
    var n := |before| + 1;
    assert (before + [last])[n - 1] == last;
    if n > 1 {
      assert n - 1 in a;
      MaxIs(a.Keys, n - 1);
    } else {
      assert a.Keys == {};
    }
    assert NextID(a) == n;
    assert Blank(last.art) && last.parent <= n - 1;
  }

  lemma PostAddsReply(a: map<u32, ArtRef>, parent: u32, art: Article)
    requires Linked(a) && RoomForOne(a) && Blank(art)
    requires parent == 0 || HasArticle(a, parent)
    requires forall p :: p in a ==> LeastReply(a, p)
    ensures forall p :: p in Posted(a, parent, art) ==>
              HasArticle(Posted(a, parent, art), p) && LeastReply(Posted(a, parent, art), p)
  {
    forall p | p in Posted(a, parent, art)
      ensures HasArticle(Posted(a, parent, art), p) && LeastReply(Posted(a, parent, art), p)
    {
      PostedReply(a, parent, art, p);
    }
  }

  lemma PostedReplies(a: map<u32, ArtRef>, parent: u32, art: Article, k: u32, p: u32)
    requires Linked(a) && RoomForOne(a) && Blank(art)
    requires parent == 0 || HasArticle(a, parent)
    ensures IsReply(Posted(a, parent, art), k, p) <==> IsReply(a, k, p) || (k == NextID(a) && p == parent)
  {
    PostLast(a, parent, art);
    assert k in a ==> LinkedArticle(a, k);
  }

  lemma PostedReply(a: map<u32, ArtRef>, parent: u32, art: Article, p: u32)
    requires Linked(a) && RoomForOne(a) && Blank(art)
    requires parent == 0 || HasArticle(a, parent)
    requires p in Posted(a, parent, art) && (p in a ==> LeastReply(a, p))
    ensures HasArticle(Posted(a, parent, art), p) && LeastReply(Posted(a, parent, art), p)
  {
    PostLast(a, parent, art);
    forall k: u32
      ensures IsReply(Posted(a, parent, art), k, p) <==> IsReply(a, k, p) || (k == NextID(a) && p == parent)
    {
      PostedReplies(a, parent, art, k, p);
    }
    if p in a {
      assert LinkedArticle(a, p);
    } else {
      assert forall k :: k in a ==> LinkedArticle(a, k);
    }
  }
}
