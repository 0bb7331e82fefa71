/**
 What path.Clean comes to: levels up, none of them below a root, and then names. Cleaning what is clean changes nothing.
 */
module CleanedPaths {
  import opened Bytes
  import opened Paths

  // ---------- The shape of cleaned paths ----------

  function Ups(n: nat): (ups: elements)
    ensures |ups| == n && forall i :: 0 <= i < n ==> ups[i] == DOTDOT
  {
    seq(n, _ => DOTDOT)
  }

  lemma OneMoreUp(n: nat)
    ensures [DOTDOT] + Ups(n) == Ups(n + 1) == Ups(n) + [DOTDOT]
  {
  }

  /** How many levels a cleaned path leads up before it names anything. */
  function UpsOf(parts: elements): (n: nat)
    ensures n <= |parts|
  {
    if parts != [] && parts[0] == DOTDOT then 1 + UpsOf(parts[1..]) else 0
  }

  function NamesOf(parts: elements): elements {
    parts[UpsOf(parts)..]
  }

  lemma {:induction false} UpsFirst(parts: elements)
    ensures parts == Ups(UpsOf(parts)) + NamesOf(parts)
  {
    if UpsOf(parts) > 0 {
      UpsFirst(parts[1..]);
      OneMoreUp(UpsOf(parts[1..]));
      assert parts == [DOTDOT] + parts[1..] && NamesOf(parts) == NamesOf(parts[1..]);
    }
  }

  /** Levels up, none below a root, and then names. */
  predicate Cleaned(rooted: bool, parts: elements) {
    AllOrdinary(NamesOf(parts)) && (rooted ==> UpsOf(parts) == 0)
  }

  lemma {:induction false} UpsAndNames(up: nat, names: elements)
    requires AllOrdinary(names)
    ensures UpsOf(Ups(up) + names) == up && NamesOf(Ups(up) + names) == names
    decreases up
  {
    var parts := Ups(up) + names;
    if up == 0 {
      assert parts == names;
      assert names != [] ==> Ordinary(names[0]);
    } else {
      assert parts[0] == DOTDOT && parts[1..] == Ups(up - 1) + names;
      UpsAndNames(up - 1, names);
    }
  }

  lemma AppendName(names: elements, e: bytes)
    requires AllOrdinary(names) && Ordinary(e)
    ensures AllOrdinary(names + [e])
  {
  }

  lemma FrontNames(names: elements, n: nat)
    requires AllOrdinary(names) && n <= |names|
    ensures AllOrdinary(names[..n]) && AllOrdinary(names[n..])
  {
    assert forall e :: e in names[..n] || e in names[n..] ==> e in names;
  }

  /** One level up takes back the last name; without names it stays at the root, or leads further up. */
  lemma OneUp(rooted: bool, up: nat, names: elements)
    requires AllOrdinary(names) && (rooted ==> up == 0)
    ensures Step(rooted, Ups(up) + names, DOTDOT) ==
            if names != [] then Ups(up) + names[..|names| - 1] else if rooted then [] else Ups(up + 1)
  {
    var stack := Ups(up) + names;
    if names != [] {
      assert stack[|stack| - 1] == names[|names| - 1] && names[|names| - 1] in names;
      assert stack[..|stack| - 1] == Ups(up) + names[..|names| - 1];
    } else {
      assert stack == Ups(up);
      OneMoreUp(up);
    }
  }

  lemma StepCleans(rooted: bool, up: nat, names: elements, e: bytes)
    requires AllOrdinary(names) && SlashFree(e) && (rooted ==> up == 0)
    ensures Cleaned(rooted, Step(rooted, Ups(up) + names, e))
  {
    if e == DOTDOT {
      UpCleans(rooted, up, names);
    } else {
      UpsAndNames(up, names);
      if Ordinary(e) {
        AppendName(names, e);
        UpsAndNames(up, names + [e]);
        assert Ups(up) + names + [e] == Ups(up) + (names + [e]);
      }
    }
  }

  lemma UpCleans(rooted: bool, up: nat, names: elements)
    requires AllOrdinary(names) && (rooted ==> up == 0)
    ensures Cleaned(rooted, Step(rooted, Ups(up) + names, DOTDOT))
  {
    OneUp(rooted, up, names);
    if names != [] {
      FrontNames(names, |names| - 1);
      UpsAndNames(up, names[..|names| - 1]);
    } else if !rooted {
      UpsAndNames(up + 1, []);
      assert Ups(up + 1) + [] == Ups(up + 1);
    }
  }

  lemma {:induction false} NormalisedIsCleaned(rooted: bool, stack: elements, parts: elements)
    requires Cleaned(rooted, stack) && forall e :: e in parts ==> SlashFree(e)
    ensures Cleaned(rooted, Normalised(rooted, stack, parts))
    decreases |parts|
  {
    if parts != [] {
      assert parts[0] in parts;
      UpsFirst(stack);
      StepCleans(rooted, UpsOf(stack), NamesOf(stack), parts[0]);
      NormalisedIsCleaned(rooted, Step(rooted, stack, parts[0]), parts[1..]);
    }
  }

  lemma SplitIsCleaned(rooted: bool, s: bytes)
    ensures Cleaned(rooted, Normalised(rooted, [], Split(s)))
  {
    SplitSlashFree(s);
    NormalisedIsCleaned(rooted, [], Split(s));
  }

  // ---------- Going up from a folder ----------

  /** Levels up take back names from the end; more of them than there are names stop at the root, or lead further up. */
  function Back(rooted: bool, up: nat, names: elements, levels: nat): elements {
    if levels <= |names| then Ups(up) + names[..|names| - levels]
    else if rooted then [] else Ups(up + (levels - |names|))
  }

  /** What there is to go up from after one level. */
  function OneBack(rooted: bool, up: nat, names: elements): (nat, elements) {
    if names != [] then (up, names[..|names| - 1]) else (if rooted then up else up + 1, [])
  }

  lemma BackInSteps(rooted: bool, up: nat, names: elements, levels: nat)
    requires rooted ==> up == 0
    ensures Back(rooted, up, names, 0) == Ups(up) + names
    ensures var (up', front) := OneBack(rooted, up, names);
            levels > 0 ==> Back(rooted, up, names, levels) == Back(rooted, up', front, levels - 1)
  {
    assert names[..|names|] == names;
    if names != [] {
      var front := names[..|names| - 1];
      assert 0 < levels <= |names| ==> front[..|front| - (levels - 1)] == names[..|names| - levels];
    }
  }

  lemma {:induction false} UpsGoBack(rooted: bool, up: nat, names: elements, levels: nat)
    requires AllOrdinary(names) && (rooted ==> up == 0)
    ensures Normalised(rooted, Ups(up) + names, Ups(levels)) == Back(rooted, up, names, levels)
    decreases levels
  {
    BackInSteps(rooted, up, names, levels);
    if levels > 0 {
      var (up', front) := OneBack(rooted, up, names);
      assert Ups(levels)[0] == DOTDOT && Ups(levels)[1..] == Ups(levels - 1);
      OneUp(rooted, up, names);
      FrontNames(names, |front|);
      assert Step(rooted, Ups(up) + names, DOTDOT) == Ups(up') + front;
      UpsGoBack(rooted, up', front, levels - 1);
    }
  }

  /** What a cleaned path leads to from a cleaned folder. */
  lemma Onwards(rooted: bool, folder: elements, item: elements)
    requires Cleaned(rooted, folder) && AllOrdinary(NamesOf(item))
    ensures Normalised(rooted, folder, item) ==
            Back(rooted, UpsOf(folder), NamesOf(folder), UpsOf(item)) + NamesOf(item)
  {
    UpsFirst(folder);
    UpsFirst(item);
    NormaliseAppend(rooted, folder, Ups(UpsOf(item)), NamesOf(item));
    UpsGoBack(rooted, UpsOf(folder), NamesOf(folder), UpsOf(item));
    NormaliseOrdinary(rooted, Back(rooted, UpsOf(folder), NamesOf(folder), UpsOf(item)), NamesOf(item));
  }

  // ---------- Cleaned text ----------

  /** The text of a cleaned path says what its elements say. */
  lemma RenderedSays(rooted: bool, stack: elements, own: bool, parts: elements)
    requires Cleaned(own, parts)
    ensures Normalised(rooted, stack, Split(Render(own, parts))) == Normalised(rooted, stack, parts)
  {
    NamesAreSlashFree(parts);
    SplitJoined(parts);
    assert Normalised(rooted, stack, [[]]) == stack;
    if own {
      SplitAtSlash([], JoinSlash(parts));
      assert [] + [SLASH] + JoinSlash(parts) == [SLASH] + JoinSlash(parts);
      assert ([[]] + Split(JoinSlash(parts)))[1..] == Split(JoinSlash(parts));
    } else if parts == [] {
      SplitOne(DOT);
    }
  }

  lemma NamesAreSlashFree(parts: elements)
    requires AllOrdinary(NamesOf(parts))
    ensures forall e :: e in parts ==> SlashFree(e) && e != [] && e != DOT
  {
    forall e | e in parts
      ensures SlashFree(e) && e != [] && e != DOT
    {
      var i :| 0 <= i < |parts| && parts[i] == e;
      var n := UpsOf(parts);
      UpsFirst(parts);
      assert if i < n then e == DOTDOT else e == NamesOf(parts)[i - n];
    }
  }

  lemma RenderInjective(rooted: bool, a: elements, b: elements)
    requires forall e :: e in a || e in b ==> SlashFree(e) && e != [] && e != DOT
    ensures Render(rooted, a) == Render(rooted, b) <==> a == b
  {
    SplitJoined(a);
    SplitJoined(b);
    SplitOne(DOT);
    assert a != [] ==> a[0] in a;
    assert b != [] ==> b[0] in b;
    if rooted {
      assert Render(rooted, a)[1..] == JoinSlash(a) && Render(rooted, b)[1..] == JoinSlash(b);
    }
  }

  lemma RenderedStarts(rooted: bool, parts: elements)
    requires AllOrdinary(NamesOf(parts))
    ensures Render(rooted, parts) != [] && Rooted(Render(rooted, parts)) == rooted
  {
    NamesAreSlashFree(parts);
    if parts != [] {
      assert parts[0] in parts && parts[0][0] in parts[0];
    }
  }

  lemma NormalisedAgain(rooted: bool, parts: elements)
    requires Cleaned(rooted, parts)
    ensures Normalised(rooted, [], parts) == parts
  {
    var none: elements := [];
    Onwards(rooted, none, parts);
    UpsFirst(parts);
    assert Back(rooted, 0, none, UpsOf(parts)) == Ups(UpsOf(parts));
  }

  /**
   path.Clean gives levels up and then names, is rooted exactly when what it is given is, never gives an empty text, and
   gives itself back.
   */
  lemma CleanIsClean(s: bytes)
    ensures Clean(s) != [] && Rooted(Clean(s)) == Rooted(s) && Clean(Clean(s)) == Clean(s)
    ensures exists parts :: Cleaned(Rooted(s), parts) && Clean(s) == Render(Rooted(s), parts)
  {
    var rooted, parts := Rooted(s), Normalised(Rooted(s), [], Split(s));
    SplitIsCleaned(rooted, s);
    RenderedStarts(rooted, parts);
    RenderedSays(rooted, [], rooted, parts);
    NormalisedAgain(rooted, parts);
    if s == [] {
      assert Split(s) == [[]] && Normalised(false, [], [[]]) == parts;
      assert Normalised(rooted, [], [[]][1..]) == [];
    }
  }
}
