/** generateSchedules: depth-first backtracking over the courses in input
    order, with one shared buffer of chosen sections that every step pushes
    to and pops from. */
module Search {
  import opened Catalog
  import opened Intervals
  import opened SearchSpec

  /** The state the source's inner `backtrack` closes over. */
  class Backtracker {
    const courses: seq<Course>
    const prefs: Preferences
    /** The sections chosen so far, one per course before the current one. */
    var current: Schedule
    /** The schedules emitted so far. */
    var results: seq<Schedule>

    constructor (courseList: seq<Course>, preferences: Preferences)
      ensures courses == courseList && prefs == preferences
      ensures current == [] && results == []
    {
      courses := courseList;
      prefs := preferences;
      current := [];
      results := [];
    }

    /** backtrack(courseIndex): emit every compatible completion of the
        current choice, in depth-first order, and leave the buffer as it
        was found. */
    method Backtrack(courseIndex: nat)
      requires courseIndex <= |courses| && |current| == courseIndex
      requires Compatible(prefs, current)
      modifies this
      ensures current == old(current)
      ensures results == old(results) + FilterCompatible(prefs, Prefixed(old(current), Candidates(courses[courseIndex..])))
      decreases |courses| - courseIndex, 1
    {
      if courseIndex == |courses| {
        results := results + [current];
        Leaf(prefs, current, courses, courseIndex);
        return;
      }

      var course := courses[courseIndex];
      ghost var rest := Candidates(courses[courseIndex + 1..]);
      ghost var start := results;
      NoBranchesEmitted(prefs, current, course, rest);

      for j := 0 to |course.sections|
        invariant current == old(current)
        invariant results == start + BranchesEmitted(prefs, current, course, rest, j)
      {
        TrySection(courseIndex, j);
        BranchStep(prefs, current, course, rest, j);
      }
      AllBranchesEmitted(prefs, current, courses, courseIndex);
    }

    /** The body of backtrack's loop for section j of the current course:
        skip the section when it fails the preferences or conflicts with a
        chosen section; otherwise push it, search the remaining courses and
        pop it again. */
    method TrySection(courseIndex: nat, j: nat)
      requires courseIndex < |courses| && j < |courses[courseIndex].sections|
      requires |current| == courseIndex && Compatible(prefs, current)
      modifies this
      ensures current == old(current)
      ensures results == old(results) + BranchEmitted(prefs, current, courses[courseIndex], Candidates(courses[courseIndex + 1..]), j)
      decreases |courses| - courseIndex, 0
    {
      var course := courses[courseIndex];
      var section := course.sections[j];
      ghost var rest := Candidates(courses[courseIndex + 1..]);
      var meets := SectionMeetsPreferences(section, prefs);
      var conflict := false;
      if meets {
        conflict := SectionConflictsWithSchedule(section, current);
      }
      if !meets || conflict {
        // `continue`: the section is skipped
        SkippedBranch(prefs, current, course, rest, j);
      } else {
        TakenBranch(prefs, current, course, rest, j);
        ghost var saved, before := current, results;
        var chosen := ChosenSection(section, course.courseId, course.name);
        assert chosen == Annotate(course, section);
        current := current + [chosen];
        Backtrack(courseIndex + 1);
        assert results == before + FilterCompatible(prefs, Prefixed(saved + [chosen], rest));
        assert current[..|current| - 1] == saved;
        current := current[..|current| - 1];
      }
    }
  }

  /** Once every course has a section, the one compatible completion is the
      choice itself. */
  lemma Leaf(p: Preferences, current: Schedule, courses: seq<Course>, i: nat)
    requires i == |courses| && Compatible(p, current)
    ensures FilterCompatible(p, Prefixed(current, Candidates(courses[i..]))) == [current]
  {
    assert courses[i..] == [];
    assert Prefixed(current, [[]]) == [current + []];
    assert current + [] == current;
    FilterSingleton(p, current);
  }

  /** A section that fails the preferences or conflicts with the current
      choice contributes nothing. */
  lemma SkippedBranch(p: Preferences, current: Schedule, c: Course, rest: seq<Schedule>, j: nat)
    requires j < |c.sections|
    requires !MeetsPreferences(c.sections[j], p) || ConflictsWith(c.sections[j], current)
    ensures BranchEmitted(p, current, c, rest, j) == []
  {
    CompatibleSnoc(p, current, Annotate(c, c.sections[j]));
  }

  /** A section that passes both tests extends the current choice to a
      compatible one, below which the search continues. */
  lemma TakenBranch(p: Preferences, current: Schedule, c: Course, rest: seq<Schedule>, j: nat)
    requires j < |c.sections| && Compatible(p, current)
    requires MeetsPreferences(c.sections[j], p) && !ConflictsWith(c.sections[j], current)
    ensures Compatible(p, current + [Annotate(c, c.sections[j])])
    ensures BranchEmitted(p, current, c, rest, j) == FilterCompatible(p, Prefixed(current + [Annotate(c, c.sections[j])], rest))
  {
    CompatibleSnoc(p, current, Annotate(c, c.sections[j]));
  }

  /** generateSchedules(courseList, preferences): every compatible
      one-section-per-course choice, in depth-first order. */
  method GenerateSchedules(courseList: seq<Course>, preferences: Preferences) returns (results: seq<Schedule>)
    ensures results == Schedules(courseList, preferences)
  {
    var search := new Backtracker(courseList, preferences);
    search.Backtrack(0);
    results := search.results;
    assert courseList[0..] == courseList;
    PrefixedEmpty(Candidates(courseList));
  }
}
