/** What runs of the news store keep: memory agrees with the file, and other paths are left alone. */
module NewsRuns {
  import opened Bytes
  import opened NewsTree
  import opened ThreadedNews

  // ---------- Memory and file ----------

  /** The operation either reached the file or left the tree as it was. */
  ghost predicate Settled(tree: CatMap, e: Effect) {
    e.outcome.Done? || e.tree == tree
  }

  /** What a caller can check beforehand for the operation to be taken back cleanly. */
  ghost predicate Proper(tree: CatMap, op: Op) {
    match op
    case CreateGrouping(p, name, _) =>
      Reaches(tree, p) ==> name !in CatsAt(tree, p).m
    case PostArticle(p, parent, _) =>
      p != [] && Reaches(tree, Parent(p)) ==>
        var cats := CatsAt(tree, Parent(p));
        var a := ArticlesOf(Lookup(cats, Name(p)));
        if LastIsNil(a) then true
        else if parent != 0 && !HasArticle(a, parent) then
          a.Keys == {} || a[MaxKey(a.Keys)].art.next == NextID(a)
        else
          Name(p) in cats.m && cats.m[Name(p)].articles.Arts? && NextID(a) !in a
    case DeleteArticle(p, id) =>
      p != [] && Reaches(tree, Parent(p)) ==>
        var m := CatsAt(tree, Parent(p)).m;
        Name(p) in m && (m[Name(p)].articles.NilArts? || id in m[Name(p)].articles.m)
    case DeleteNewsItem(p) =>
      p != [] && Reaches(tree, Parent(p)) ==> Name(p) in CatsAt(tree, Parent(p)).m
  }

  datatype Step = Step(op: Op, ok: bool)  // ok: the file write succeeds

  /** The same for an operation whose write is known to succeed or to fail. */
  ghost predicate ProperStep(tree: CatMap, step: Step) {
    if step.ok then Unbroken(tree, step.op) else Proper(tree, step.op)
  }

  lemma EntrySame<K, V>(m: map<K, V>, k: K, v: V)
    ensures m[k := v] == m <==> k in m && m[k] == v
    ensures m - {k} == m <==> k !in m
  {
    if m[k := v] == m {
      assert k in m[k := v];
    }
    if k !in m {
      assert m - {k} == m;
    }
  }

  lemma DanglingSame(a: map<u32, ArtRef>)
    requires a.Keys != {} && !LastIsNil(a)
    ensures Dangling(a) == a <==> a[MaxKey(a.Keys)].art.next == NextID(a)
  {
    DanglingInSteps(a);
    var last := MaxKey(a.Keys);
    EntrySame(a, last, Art(a[last].art.(next := NextID(a))));
  }

  /**
   What must hold even of an operation whose write would succeed: a reply to an article that is not there panics after
   the newest article has been linked, unless there is none or the link was there before.
   */
  ghost predicate Unbroken(tree: CatMap, op: Op) {
    op.PostArticle? && op.p != [] && Reaches(tree, Parent(op.p)) ==>
      var a := ArticlesOf(Lookup(CatsAt(tree, Parent(op.p)), Name(op.p)));
      a.Keys == {} || LastIsNil(a) || op.parent == 0 || HasArticle(a, op.parent)
      || a[MaxKey(a.Keys)].art.next == NextID(a)
  }

  /** Whether a post that goes wrong is taken back, and one that goes well leaves nothing half done. */
  lemma PostSettles(tree: CatMap, p: path, parent: u32, art: Article)
    ensures Settled(tree, EffectOf(tree, PostArticle(p, parent, art), false)) <==>
            Proper(tree, PostArticle(p, parent, art))
    ensures Settled(tree, EffectOf(tree, PostArticle(p, parent, art), true)) <==>
            Unbroken(tree, PostArticle(p, parent, art))
  {
    PostFailureSettles(tree, p, parent, art);
    PostSuccessSettles(tree, p, parent, art);
  }

  lemma PostFailureSettles(tree: CatMap, p: path, parent: u32, art: Article)
    ensures Settled(tree, EffectOf(tree, PostArticle(p, parent, art), false)) <==>
            Proper(tree, PostArticle(p, parent, art))
  {
    if p != [] && Reaches(tree, Parent(p)) {
      var m := CatsAt(tree, Parent(p)).m;
      var cat := Lookup(Cats(m), Name(p));
      var a := ArticlesOf(cat);
      var c := PostEffect(cat, parent, art, false).cat;
      PutAtSame(tree, Parent(p), m[Name(p) := c]);
      EntrySame(m, Name(p), c);
      if a.Keys != {} && !LastIsNil(a) {
        DanglingSame(a);
      }
      EntrySame(a, NextID(a), NilArt);
    }
  }

  lemma PostSuccessSettles(tree: CatMap, p: path, parent: u32, art: Article)
    ensures Settled(tree, EffectOf(tree, PostArticle(p, parent, art), true)) <==>
            Unbroken(tree, PostArticle(p, parent, art))
  {
    if p != [] && Reaches(tree, Parent(p)) {
      var m := CatsAt(tree, Parent(p)).m;
      var cat := Lookup(Cats(m), Name(p));
      var a := ArticlesOf(cat);
      var c := PostEffect(cat, parent, art, true).cat;
      PutAtSame(tree, Parent(p), m[Name(p) := c]);
      EntrySame(m, Name(p), c);
      if a.Keys != {} && !LastIsNil(a) {
        DanglingSame(a);
      }
    }
  }

  /** An operation with the outcome of its write settles exactly under a condition on the tree before it. */
  lemma StepSettles(tree: CatMap, step: Step)
    ensures Settled(tree, EffectOf(tree, step.op, step.ok)) <==> ProperStep(tree, step)
  {
    match step.op
    case PostArticle(p, parent, art) =>
      PostSettles(tree, p, parent, art);
    case CreateGrouping(p, name, kind) =>
      if Reaches(tree, p) {
        var m := CatsAt(tree, p).m;
        PutAtSame(tree, p, m - {name});
        EntrySame(m, name, ZERO_CATEGORY);
      }
    case DeleteArticle(p, id) =>
      DeleteArticleSettles(tree, p, id);
    case DeleteNewsItem(p) =>
      if p != [] && Reaches(tree, Parent(p)) {
        var m := CatsAt(tree, Parent(p)).m;
        var was := Lookup(Cats(m), Name(p));
        PutAtSame(tree, Parent(p), m[Name(p) := was]);
        EntrySame(m, Name(p), was);
      }
  }

  /** Whether or not the write goes through: exactly when the operation is proper. */
  lemma ProperExactly(tree: CatMap, op: Op)
    ensures Proper(tree, op) <==> forall ok :: Settled(tree, EffectOf(tree, op, ok))
  {
    StepSettles(tree, Step(op, false));
    StepSettles(tree, Step(op, true));
    assert forall ok :: Settled(tree, EffectOf(tree, op, ok)) <==> ProperStep(tree, Step(op, ok));
  }

  lemma DeleteArticleSettles(tree: CatMap, p: path, id: u32)
    ensures Settled(tree, EffectOf(tree, DeleteArticle(p, id), true))
    ensures Settled(tree, EffectOf(tree, DeleteArticle(p, id), false)) <==> Proper(tree, DeleteArticle(p, id))
  {
    if p != [] && Reaches(tree, Parent(p)) {
      var m := CatsAt(tree, Parent(p)).m;
      var cat := Lookup(Cats(m), Name(p));
      var c := DeleteEffect(cat, id, false).cat;
      PutAtSame(tree, Parent(p), m[Name(p) := c]);
      EntrySame(m, Name(p), c);
      if cat.articles.Arts? {
        var a := cat.articles.m;
        EntrySame(a, id, if id in a then a[id] else NilArt);
      }
    }
  }

  datatype Store = Store(tree: CatMap, file: CatMap)

  ghost function Take(s: Store, step: Step): Store {
    var e := EffectOf(s.tree, step.op, step.ok);
    Store(e.tree, if e.outcome.Done? then e.tree else s.file)
  }

  ghost function Run(s: Store, steps: seq<Step>): Store
    decreases |steps|
  {
    if steps == [] then s else Run(Take(s, steps[0]), steps[1..])
  }

  ghost predicate ProperRun(s: Store, steps: seq<Step>)
    decreases |steps|
  {
    steps == [] || (ProperStep(s.tree, steps[0]) && ProperRun(Take(s, steps[0]), steps[1..]))
  }

  /** The steps whose write reached the file. */
  ghost function Successes(s: Store, steps: seq<Step>): seq<Step>
    decreases |steps|
  {
    if steps == [] then []
    else (if EffectOf(s.tree, steps[0].op, steps[0].ok).outcome.Done? then [steps[0]] else [])
         + Successes(Take(s, steps[0]), steps[1..])
  }

  ghost predicate InAgreement(s: Store) {
    s.tree == s.file
  }

  lemma TakeAgrees(s: Store, step: Step)
    requires InAgreement(s)
    ensures InAgreement(Take(s, step)) <==> ProperStep(s.tree, step)
  {
    StepSettles(s.tree, step);
  }

  lemma RunStep(s: Store, steps: seq<Step>, k: nat)
    requires 0 < k <= |steps|
    ensures Run(s, steps[..k]) == Run(Take(s, steps[0]), steps[1..][..k - 1])
  {
    assert steps[..k][1..] == steps[1..][..k - 1];
  }

  /**
   In every run with writes failing anywhere, memory agrees with the file after each operation if and only if each
   operation met its condition on the tree before it.
   */
  lemma {:induction false} MemoryIsFile(s: Store, steps: seq<Step>)
    requires InAgreement(s)
    ensures ProperRun(s, steps) <==> forall k :: 0 <= k <= |steps| ==> InAgreement(Run(s, steps[..k]))
    decreases |steps|
  {
    if steps != [] {
      var s1, rest := Take(s, steps[0]), steps[1..];
      TakeAgrees(s, steps[0]);
      RunStep(s, steps, 1);
      assert rest[..0] == [] && Run(s, steps[..1]) == s1;
      if InAgreement(s1) {
        MemoryIsFile(s1, rest);
        forall k | 0 < k <= |steps|
          ensures Run(s, steps[..k]) == Run(s1, rest[..k - 1])
        {
          RunStep(s, steps, k);
        }
        assert forall k :: 0 <= k <= |rest| ==> Run(s1, rest[..k]) == Run(s, steps[..k + 1]);
      }
    }
  }

  /** Such a run ends where the run of its successful steps alone would have ended. */
  lemma {:induction false} FailuresLeaveNothing(s: Store, steps: seq<Step>)
    requires InAgreement(s) && ProperRun(s, steps)
    ensures Run(s, steps) == Run(s, Successes(s, steps))
    decreases |steps|
  {
    if steps != [] {
      TakeAgrees(s, steps[0]);
      StepSettles(s.tree, steps[0]);
      FailuresLeaveNothing(Take(s, steps[0]), steps[1..]);
      var rest := Successes(Take(s, steps[0]), steps[1..]);
      assert ([steps[0]] + rest)[1..] == rest && [] + rest == rest;
    }
  }

  /** A reply to an article that is not there leaves a link in memory that the file never gets. */
  lemma LostParent(art: Article)
    ensures var a := map[1 as u32 := Art(art.(next := 0))];
            var tree := Cats(map[[65] := Category([0, 3], [65], Arts(a), Cats(map[]))]);
            var s := Take(Store(tree, tree), Step(PostArticle([[65]], 7, art), true));
            s.tree != s.file
  {
    var a := map[1 as u32 := Art(art.(next := 0))];
    var cat := Category([0, 3], [65], Arts(a), Cats(map[]));
    var tree := Cats(map[[65] := cat]);
    var p: path := [[65]];
    assert Parent(p) == [] && a.Keys == {1};
    assert MaxKey(a.Keys) == 1;
    PostSettles(tree, p, 7, art);
    assert !Proper(tree, PostArticle(p, 7, art));
    assert !LastIsNil(a) && !HasArticle(a, 7);
    var e := PostEffect(cat, 7, art, true);
    assert e.outcome == Panicked == PostEffect(cat, 7, art, false).outcome;
    assert EffectOf(tree, PostArticle(p, 7, art), true) == EffectOf(tree, PostArticle(p, 7, art), false);
  }

  // ---------- Other paths ----------

  function Target(op: Op): path {
    match op
    case CreateGrouping(p, name, _) => p + [name]
    case PostArticle(p, _, _) => p
    case DeleteArticle(p, _) => p
    case DeleteNewsItem(p) => p
  }

  /** The operation acts on one category and not on what lies below it. */
  predicate ActsOnArticles(op: Op) {
    op.PostArticle? || op.DeleteArticle?
  }

  /** Whatever the outcome, only the target's content changes, or what is at and below it. */
  lemma OtherPathsKept(tree: CatMap, op: Op, ok: bool, q: path)
    requires q != [] && q != Target(op)
    requires Below(q, Target(op)) ==> ActsOnArticles(op)
    ensures ContentAt(EffectOf(tree, op, ok).tree, q) == ContentAt(tree, q)
  {
    var t := Target(op);
    assert op.CreateGrouping? ==> Parent(t) == op.p && Name(t) == op.name;
    if t != [] && Reaches(tree, Parent(t)) {
      var tree' := EffectOf(tree, op, ok).tree;
      RemovedFrame(tree, t, q);
      match op
      case CreateGrouping(_, name, kind) =>
        EntryFrame(tree, t, NewGrouping(name, kind), q);
      case PostArticle(p, parent, art) =>
        var cat := Lookup(CatsAt(tree, Parent(t)), Name(t));
        EntryKept(tree, t, PostEffect(cat, parent, art, ok).cat, q);
      case DeleteArticle(p, id) =>
        var cat := Lookup(CatsAt(tree, Parent(t)), Name(t));
        EntryKept(tree, t, DeleteEffect(cat, id, ok).cat, q);
      case DeleteNewsItem(p) =>
        EntryFrame(tree, t, Lookup(CatsAt(tree, Parent(t)), Name(t)), q);
    }
  }

  /** A new entry with the old subcategories is seen at its own path only. */
  lemma EntryKept(tree: CatMap, t: path, c: Category, q: path)
    requires t != [] && Reaches(tree, Parent(t)) && q != [] && q != t
    requires c.subCats == Lookup(CatsAt(tree, Parent(t)), Name(t)).subCats
    ensures ContentAt(PutAt(tree, Parent(t), CatsAt(tree, Parent(t)).m[Name(t) := c]), q) == ContentAt(tree, q)
  {
    EntryFrame(tree, t, c, q);
    if Below(q, t) {
      EntryShows(tree, t, q);
    }
  }
}
