/** What the back end's schedule search computes, as functions: every way to
    pick one section per course, in depth-first order, kept when it is
    compatible with the preferences and free of conflicts. */
module SearchSpec {
  import opened Catalog
  import opened Intervals
  import opened Seqs

  /** A (partial) schedule: the chosen sections, one per course so far. */
  type Schedule = seq<ChosenSection>

  /** The section as the search pushes it: annotated with its course. */
  function Annotate(c: Course, s: Section): ChosenSection {
    ChosenSection(s, c.courseId, c.name)
  }

  /** p + r for every r of rs, in the order of rs. */
  function Prefixed<T>(p: seq<T>, rs: seq<seq<T>>): seq<seq<T>> {
    seq(|rs|, k requires 0 <= k < |rs| => p + rs[k])
  }

  /** The subtrees below course c: for each of its sections, in order, that
      section followed by every choice for the remaining courses. */
  function Branches(c: Course, rest: seq<Schedule>): seq<seq<Schedule>> {
    seq(|c.sections|, j requires 0 <= j < |c.sections| => Prefixed([Annotate(c, c.sections[j])], rest))
  }

  /** Every one-section-per-course choice for cs, in depth-first order
      (the Cartesian product of the section lists). */
  function Candidates(cs: seq<Course>): seq<Schedule>
    decreases |cs|
  {
    if cs == [] then [[]] else Flatten(Branches(cs[0], Candidates(cs[1..])))
  }

  /** Every chosen section meets the preferences and conflicts with none of
      the sections chosen before it (the two tests the search applies before
      each push). */
  predicate Compatible(p: Preferences, s: Schedule)
    decreases |s|
  {
    s == [] ||
    var init, last := s[..|s| - 1], s[|s| - 1];
    Compatible(p, init) && MeetsPreferences(last.section, p) && !ConflictsWith(last.section, init)
  }

  /** The compatible schedules of ss, in their order. */
  function FilterCompatible(p: Preferences, ss: seq<Schedule>): seq<Schedule> {
    if ss == [] then []
    else FilterCompatible(p, ss[..|ss| - 1]) + if Compatible(p, ss[|ss| - 1]) then [ss[|ss| - 1]] else []
  }

  /** The schedules the search emits. */
  function Schedules(courses: seq<Course>, prefs: Preferences): seq<Schedule> {
    FilterCompatible(prefs, Candidates(courses))
  }

  // ---------------------------------------------------------------------
  // Algebra of the definitions, used by the search's proof

  lemma PrefixedAppend<T>(q: seq<T>, xs: seq<seq<T>>, ys: seq<seq<T>>)
    ensures Prefixed(q, xs + ys) == Prefixed(q, xs) + Prefixed(q, ys)
  {
  }

  lemma PrefixedPrefixed<T>(q: seq<T>, x: seq<T>, rs: seq<seq<T>>)
    ensures Prefixed(q, Prefixed(x, rs)) == Prefixed(q + x, rs)
  {
    forall k | 0 <= k < |rs|
      ensures Prefixed(q, Prefixed(x, rs))[k] == Prefixed(q + x, rs)[k]
    {
      assert q + (x + rs[k]) == (q + x) + rs[k];
    }
  }

  lemma PrefixedEmpty<T>(rs: seq<seq<T>>)
    ensures Prefixed([], rs) == rs
  {
    forall k | 0 <= k < |rs| ensures Prefixed([], rs)[k] == rs[k] {
      assert [] + rs[k] == rs[k];
    }
  }

  lemma {:induction false} FilterAppend(p: Preferences, a: seq<Schedule>, b: seq<Schedule>)
    ensures FilterCompatible(p, a + b) == FilterCompatible(p, a) + FilterCompatible(p, b)
    decreases |b|
  {
    if b == [] {
      assert a + b == a;
    } else {
      var b' := b[..|b| - 1];
      assert (a + b)[..|a + b| - 1] == a + b';
      FilterAppend(p, a, b');
    }
  }

  lemma FilterSingleton(p: Preferences, s: Schedule)
    ensures FilterCompatible(p, [s]) == if Compatible(p, s) then [s] else []
  {
    assert [s][..0] == [];
  }

  /** Adding one section keeps a schedule compatible exactly when the section
      meets the preferences and conflicts with nothing chosen so far. */
  lemma CompatibleSnoc(p: Preferences, s: Schedule, x: ChosenSection)
    ensures Compatible(p, s + [x]) <==> Compatible(p, s) && MeetsPreferences(x.section, p) && !ConflictsWith(x.section, s)
  {
    assert (s + [x])[..|s|] == s;
  }

  /** Compatibility is closed under taking prefixes. */
  lemma {:induction false} CompatiblePrefix(p: Preferences, s: Schedule, k: nat)
    requires Compatible(p, s) && k <= |s|
    ensures Compatible(p, s[..k])
    decreases |s| - k
  {
    if k < |s| {
      CompatiblePrefix(p, s[..|s| - 1], k);
      assert s[..|s| - 1][..k] == s[..k];
    } else {
      assert s[..k] == s;
    }
  }

  /** Once a prefix is incompatible, no extension of it survives: this is
      why the search may prune there. */
  lemma {:induction false} FilterIncompatiblePrefix(p: Preferences, q: Schedule, rs: seq<Schedule>)
    requires !Compatible(p, q)
    ensures FilterCompatible(p, Prefixed(q, rs)) == []
    decreases |rs|
  {
    if rs != [] {
      var n := |rs|;
      assert Prefixed(q, rs)[..n - 1] == Prefixed(q, rs[..n - 1]);
      FilterIncompatiblePrefix(p, q, rs[..n - 1]);
      var last := q + rs[n - 1];
      assert last[..|q|] == q;
      if Compatible(p, last) {
        CompatiblePrefix(p, last, |q|);
      }
    }
  }

  /** What the loop over the sections of course c has emitted once it has
      tried the first j of them, below the choice `current`. */
  function BranchesEmitted(p: Preferences, current: Schedule, c: Course, rest: seq<Schedule>, j: nat): seq<Schedule>
    requires j <= |c.sections|
  {
    FilterCompatible(p, Prefixed(current, Flatten(Branches(c, rest)[..j])))
  }

  lemma NoBranchesEmitted(p: Preferences, current: Schedule, c: Course, rest: seq<Schedule>)
    ensures BranchesEmitted(p, current, c, rest, 0) == []
  {
    assert Branches(c, rest)[..0] == [];
    assert Prefixed(current, []) == [];
  }

  /** Once every section of course i has been tried, the loop has emitted
      every compatible completion of the current choice. */
  lemma AllBranchesEmitted(p: Preferences, current: Schedule, courses: seq<Course>, i: nat)
    requires i < |courses|
    ensures BranchesEmitted(p, current, courses[i], Candidates(courses[i + 1..]), |courses[i].sections|)
         == FilterCompatible(p, Prefixed(current, Candidates(courses[i..])))
  {
    var bs := Branches(courses[i], Candidates(courses[i + 1..]));
    assert bs[..|courses[i].sections|] == bs;
    CandidatesAt(courses, i);
  }

  /** What section j of course c contributes below the choice `current`:
      the compatible schedules below current + [that section] when that
      extension is compatible, and nothing otherwise. */
  function BranchEmitted(p: Preferences, current: Schedule, c: Course, rest: seq<Schedule>, j: nat): seq<Schedule>
    requires j < |c.sections|
  {
    var x := Annotate(c, c.sections[j]);
    if Compatible(p, current + [x]) then FilterCompatible(p, Prefixed(current + [x], rest)) else []
  }

  /** One step of that loop. */
  lemma BranchStep(p: Preferences, current: Schedule, c: Course, rest: seq<Schedule>, j: nat)
    requires j < |c.sections|
    ensures BranchesEmitted(p, current, c, rest, j + 1) ==
      BranchesEmitted(p, current, c, rest, j) + BranchEmitted(p, current, c, rest, j)
  {
    var branches := Branches(c, rest);
    var x := Annotate(c, c.sections[j]);
    FlattenSnoc(branches, j);
    PrefixedAppend(current, Flatten(branches[..j]), branches[j]);
    FilterAppend(p, Prefixed(current, Flatten(branches[..j])), Prefixed(current, branches[j]));
    PrefixedPrefixed(current, [x], rest);
    if !Compatible(p, current + [x]) {
      FilterIncompatiblePrefix(p, current + [x], rest);
    }
  }

  lemma CandidatesAt(courses: seq<Course>, i: nat)
    requires i < |courses|
    ensures Candidates(courses[i..]) == Flatten(Branches(courses[i], Candidates(courses[i + 1..])))
  {
    assert courses[i..][1..] == courses[i + 1..];
  }
}
