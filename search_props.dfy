/** What the schedules the search emits are, stated without the search:
    each one picks one section per course, in course order; it meets the
    preferences and has no two conflicting sections; every such choice is
    emitted; and the choices come out in lexicographic order of the picked
    section indices. */
module SearchProps {
  import opened Catalog
  import opened Intervals
  import opened SearchSpec
  import opened Seqs

  // ---------------------------------------------------------------------
  // Choices as vectors of section indices

  /** v picks, for every course i, one of its sections by index. */
  predicate IsChoice(courses: seq<Course>, v: seq<nat>) {
    |v| == |courses| && forall i :: 0 <= i < |v| ==> v[i] < |courses[i].sections|
  }

  /** The schedule that choice v stands for. */
  function Pick(courses: seq<Course>, v: seq<nat>): Schedule
    requires IsChoice(courses, v)
  {
    seq(|v|, i requires 0 <= i < |v| => Annotate(courses[i], courses[i].sections[v[i]]))
  }

  /** How many choices there are: the product of the section counts. */
  function Product(courses: seq<Course>): nat {
    if courses == [] then 1 else |courses[0].sections| * Product(courses[1..])
  }

  /** Strict lexicographic order on equally long index vectors. */
  predicate LexLess(a: seq<nat>, b: seq<nat>) {
    a != [] && b != [] && (a[0] < b[0] || (a[0] == b[0] && LexLess(a[1..], b[1..])))
  }

  lemma ChoiceTail(courses: seq<Course>, v: seq<nat>)
    requires courses != [] && IsChoice(courses, v)
    ensures IsChoice(courses[1..], v[1..])
    ensures v[0] < |courses[0].sections|
  {
    assert forall i :: 0 <= i < |v| - 1 ==> v[1..][i] == v[i + 1];
  }

  lemma PickCons(courses: seq<Course>, v: seq<nat>)
    requires courses != [] && IsChoice(courses, v)
    ensures IsChoice(courses[1..], v[1..])
    ensures Pick(courses, v) == [Annotate(courses[0], courses[0].sections[v[0]])] + Pick(courses[1..], v[1..])
  {
    ChoiceTail(courses, v);
  }

  /** The position of choice v in the depth-first order: its mixed-radix
      value with the section counts as radices. */
  function Rank(courses: seq<Course>, v: seq<nat>): (k: nat)
    requires IsChoice(courses, v)
    ensures k < Product(courses)
    decreases |courses|
  {
    if courses == [] then 0
    else
      ChoiceTail(courses, v);
      var k := v[0] * Product(courses[1..]) + Rank(courses[1..], v[1..]);
      MixedRadixBound(v[0], |courses[0].sections|, Rank(courses[1..], v[1..]), Product(courses[1..]));
      k
  }

  /** The choice at position k of the depth-first order. */
  function Unrank(courses: seq<Course>, k: nat): (v: seq<nat>)
    requires k < Product(courses)
    ensures IsChoice(courses, v)
    decreases |courses|
  {
    if courses == [] then []
    else
      var p := Product(courses[1..]);
      DivBound(k, |courses[0].sections|, p);
      var tail := Unrank(courses[1..], k % p);
      var v := [k / p] + tail;
      assert forall i :: 1 <= i < |v| ==> v[i] == tail[i - 1];
      v
  }

  /** Rank and Unrank are inverse: positions and choices correspond one to
      one. */
  lemma {:induction false} RankUnrank(courses: seq<Course>, k: nat)
    requires k < Product(courses)
    ensures Rank(courses, Unrank(courses, k)) == k
    decreases |courses|
  {
    if courses != [] {
      var p := Product(courses[1..]);
      var v := Unrank(courses, k);
      DivBound(k, |courses[0].sections|, p);
      assert v[1..] == Unrank(courses[1..], k % p);
      RankUnrank(courses[1..], k % p);
      assert k == (k / p) * p + k % p;
    }
  }

  /** ... and the other way round: a choice is determined by its position. */
  lemma {:induction false} UnrankRank(courses: seq<Course>, v: seq<nat>)
    requires IsChoice(courses, v)
    ensures Unrank(courses, Rank(courses, v)) == v
    decreases |courses|
  {
    if courses != [] {
      ChoiceTail(courses, v);
      var p := Product(courses[1..]);
      var r := Rank(courses[1..], v[1..]);
      DivModUnique(v[0], r, p);
      UnrankRank(courses[1..], v[1..]);
      assert v == [v[0]] + v[1..];
    }
  }

  /** Positions in the depth-first order follow the lexicographic order of
      the choices. */
  lemma {:induction false} UnrankOrder(courses: seq<Course>, k1: nat, k2: nat)
    requires k1 < k2 < Product(courses)
    ensures LexLess(Unrank(courses, k1), Unrank(courses, k2))
    decreases |courses|
  {
    if courses == [] {
      assert false;
    } else {
      var p := Product(courses[1..]);
      DivBound(k1, |courses[0].sections|, p);
      DivBound(k2, |courses[0].sections|, p);
      DivOrder(k1, k2, p);
      var v1, v2 := Unrank(courses, k1), Unrank(courses, k2);
      assert v1[1..] == Unrank(courses[1..], k1 % p);
      assert v2[1..] == Unrank(courses[1..], k2 % p);
      if k1 / p == k2 / p {
        UnrankOrder(courses[1..], k1 % p, k2 % p);
      }
    }
  }

  // ---------------------------------------------------------------------
  // The candidate sequence is the enumeration of the choices by rank

  /** There are exactly Product(courses) candidates. */
  lemma {:induction false} CandidatesCount(courses: seq<Course>)
    ensures |Candidates(courses)| == Product(courses)
    decreases |courses|
  {
    if courses != [] {
      var rest := Candidates(courses[1..]);
      CandidatesCount(courses[1..]);
      FlattenUniformLength(Branches(courses[0], rest), |rest|);
    }
  }

  /** The candidate at the rank of choice v is the schedule v picks. */
  lemma {:induction false} CandidateAtRank(courses: seq<Course>, v: seq<nat>)
    requires IsChoice(courses, v)
    ensures Rank(courses, v) < |Candidates(courses)|
    ensures Candidates(courses)[Rank(courses, v)] == Pick(courses, v)
    decreases |courses|
  {
    CandidatesCount(courses);
    if courses != [] {
      PickCons(courses, v);
      var rest := Candidates(courses[1..]);
      CandidatesCount(courses[1..]);
      CandidateAtRank(courses[1..], v[1..]);
      FlattenUniformAt(Branches(courses[0], rest), |rest|, v[0], Rank(courses[1..], v[1..]));
    }
  }

  /** The candidate at position k is the schedule picked by the k-th choice. */
  lemma CandidateIsPick(courses: seq<Course>, k: nat)
    requires k < |Candidates(courses)|
    ensures k < Product(courses)
    ensures Candidates(courses)[k] == Pick(courses, Unrank(courses, k))
  {
    CandidatesCount(courses);
    RankUnrank(courses, k);
    CandidateAtRank(courses, Unrank(courses, k));
  }

  // ---------------------------------------------------------------------
  // Compatibility is validity

  /** A valid schedule: every section meets the preferences and no two
      different entries have conflicting meetings. */
  predicate Valid(p: Preferences, s: Schedule) {
    && (forall i :: 0 <= i < |s| ==> MeetsPreferences(s[i].section, p))
    && (forall i, j :: 0 <= i < |s| && 0 <= j < |s| && i != j ==> !SectionsConflict(s[i].section, s[j].section))
  }

  /** The search's incremental test (each new section meets the preferences
      and conflicts with nothing chosen before it) is exactly validity. */
  lemma {:induction false} CompatibleIffValid(p: Preferences, s: Schedule)
    ensures Compatible(p, s) <==> Valid(p, s)
    decreases |s|
  {
    if s != [] {
      var init, last := s[..|s| - 1], s[|s| - 1];
      CompatibleIffValid(p, init);
      if Valid(p, s) {
        ValidInit(p, s);
      }
      if Compatible(p, s) {
        ValidSnoc(p, init, last);
        assert s == init + [last];
      }
    }
  }

  lemma ValidInit(p: Preferences, s: Schedule)
    requires s != [] && Valid(p, s)
    ensures Valid(p, s[..|s| - 1])
    ensures forall e :: 0 <= e < |s| - 1 ==> !SectionsConflict(s[|s| - 1].section, s[e].section)
  {
    var init := s[..|s| - 1];
    forall i, j | 0 <= i < |init| && 0 <= j < |init| && i != j
      ensures !SectionsConflict(init[i].section, init[j].section)
    {
      assert init[i] == s[i] && init[j] == s[j];
    }
  }

  lemma ValidSnoc(p: Preferences, init: Schedule, last: ChosenSection)
    requires Valid(p, init) && MeetsPreferences(last.section, p)
    requires forall e :: 0 <= e < |init| ==> !SectionsConflict(last.section, init[e].section)
    ensures Valid(p, init + [last])
  {
    var s := init + [last];
    forall i, j | 0 <= i < |s| && 0 <= j < |s| && i != j
      ensures !SectionsConflict(s[i].section, s[j].section)
    {
      if i < |init| && j < |init| {
        assert init[i] == s[i] && init[j] == s[j];
      } else if i == |init| {
        assert init[j] == s[j];
      } else {
        assert init[i] == s[i];
        SectionsConflictSymmetric(s[i].section, s[j].section);
      }
    }
  }

  // ---------------------------------------------------------------------
  // Filtering keeps elements and their order

  lemma {:induction false} FilterOrigin(p: Preferences, ss: seq<Schedule>, a: nat)
    requires a < |FilterCompatible(p, ss)|
    ensures exists i :: 0 <= i < |ss| && FilterCompatible(p, ss)[a] == ss[i] && Compatible(p, ss[i])
    decreases |ss|
  {
    var init := ss[..|ss| - 1];
    if a < |FilterCompatible(p, init)| {
      FilterOrigin(p, init, a);
      var i :| 0 <= i < |init| && FilterCompatible(p, init)[a] == init[i] && Compatible(p, init[i]);
      assert ss[i] == init[i];
    } else {
      assert FilterCompatible(p, ss)[a] == ss[|ss| - 1];
    }
  }

  lemma {:induction false} FilterOrder(p: Preferences, ss: seq<Schedule>, a: nat, b: nat)
    requires a < b < |FilterCompatible(p, ss)|
    ensures exists i, j :: 0 <= i < j < |ss| && FilterCompatible(p, ss)[a] == ss[i] && FilterCompatible(p, ss)[b] == ss[j]
    decreases |ss|
  {
    var init := ss[..|ss| - 1];
    if b < |FilterCompatible(p, init)| {
      FilterOrder(p, init, a, b);
      var i, j :| 0 <= i < j < |init| && FilterCompatible(p, init)[a] == init[i] && FilterCompatible(p, init)[b] == init[j];
      assert ss[i] == init[i] && ss[j] == init[j];
    } else {
      FilterOrigin(p, init, a);
      var i :| 0 <= i < |init| && FilterCompatible(p, init)[a] == init[i] && Compatible(p, init[i]);
      assert ss[i] == init[i];
      assert FilterCompatible(p, ss)[b] == ss[|ss| - 1];
    }
  }

  lemma {:induction false} FilterComplete(p: Preferences, ss: seq<Schedule>, i: nat)
    requires i < |ss| && Compatible(p, ss[i])
    ensures ss[i] in FilterCompatible(p, ss)
    decreases |ss|
  {
    var init := ss[..|ss| - 1];
    if i < |init| {
      FilterComplete(p, init, i);
    }
  }

  // ---------------------------------------------------------------------
  // The emitted schedules

  /** Entry i of a picked schedule is a section of course i, annotated with
      that course's id and name. */
  predicate OnePerCourse(courses: seq<Course>, s: Schedule) {
    && |s| == |courses|
    && forall i :: 0 <= i < |s| ==>
         s[i].courseId == courses[i].courseId && s[i].courseName == courses[i].name &&
         s[i].section in courses[i].sections
  }

  lemma PickOnePerCourse(courses: seq<Course>, v: seq<nat>)
    requires IsChoice(courses, v)
    ensures OnePerCourse(courses, Pick(courses, v))
  {
  }

  /** Every emitted schedule has one entry per course, in course order:
      entry i is a section of course i annotated with that course's id and
      name; it meets the preferences and no two entries conflict. */
  lemma ScheduleShape(courses: seq<Course>, prefs: Preferences, a: nat)
    requires a < |Schedules(courses, prefs)|
    ensures OnePerCourse(courses, Schedules(courses, prefs)[a])
    ensures Valid(prefs, Schedules(courses, prefs)[a])
  {
    var cs := Candidates(courses);
    FilterOrigin(prefs, cs, a);
    var k :| 0 <= k < |cs| && Schedules(courses, prefs)[a] == cs[k] && Compatible(prefs, cs[k]);
    CandidateIsPick(courses, k);
    PickOnePerCourse(courses, Unrank(courses, k));
    CompatibleIffValid(prefs, cs[k]);
  }

  /** Every valid one-section-per-course choice is emitted. */
  lemma ValidChoiceEmitted(courses: seq<Course>, prefs: Preferences, v: seq<nat>)
    requires IsChoice(courses, v) && Valid(prefs, Pick(courses, v))
    ensures Pick(courses, v) in Schedules(courses, prefs)
  {
    CandidateAtRank(courses, v);
    CompatibleIffValid(prefs, Pick(courses, v));
    FilterComplete(prefs, Candidates(courses), Rank(courses, v));
  }

  /** The schedules come out in lexicographic order of their section
      indices: a pre-order walk of the choice tree in input order. */
  lemma SchedulesInOrder(courses: seq<Course>, prefs: Preferences, a: nat, b: nat)
    requires a < b < |Schedules(courses, prefs)|
    ensures exists v1, v2 ::
      && IsChoice(courses, v1) && IsChoice(courses, v2) && LexLess(v1, v2)
      && Schedules(courses, prefs)[a] == Pick(courses, v1) && Schedules(courses, prefs)[b] == Pick(courses, v2)
  {
    var cs := Candidates(courses);
    FilterOrder(prefs, cs, a, b);
    var i, j :| 0 <= i < j < |cs| && Schedules(courses, prefs)[a] == cs[i] && Schedules(courses, prefs)[b] == cs[j];
    CandidateIsPick(courses, i);
    CandidateIsPick(courses, j);
    UnrankOrder(courses, i, j);
  }

  /** A course without sections leaves nothing to emit. */
  lemma EmptyCourseNoSchedules(courses: seq<Course>, prefs: Preferences, i: nat)
    requires i < |courses| && courses[i].sections == []
    ensures Schedules(courses, prefs) == []
  {
    ProductZero(courses, i);
    CandidatesCount(courses);
  }

  lemma {:induction false} ProductZero(courses: seq<Course>, i: nat)
    requires i < |courses| && courses[i].sections == []
    ensures Product(courses) == 0
  {
    if i > 0 {
      ProductZero(courses[1..], i - 1);
    }
  }
}
