/** The time-interval model of the back end: when two meetings conflict,
    when a section conflicts with the sections already chosen, and when a
    section lies inside the client's preference window. */
module Intervals {
  import opened Clock
  import opened Catalog

  /** Two meetings conflict when they are on the same day and their
      half-open intervals [start, end) overlap. */
  predicate SlotsConflict(a: Occurrence, b: Occurrence) {
    if a.day != b.day then false
    else
      var s1, e1 := TimeToMinutes(a.start), TimeToMinutes(a.end);
      var s2, e2 := TimeToMinutes(b.start), TimeToMinutes(b.end);
      !(e1 <= s2 || e2 <= s1)
  }

  /** Minute x of the day falls inside meeting o. */
  predicate InSlot(x: int, o: Occurrence) {
    TimeToMinutes(o.start) <= x < TimeToMinutes(o.end)
  }

  predicate NonEmptySlot(o: Occurrence) {
    TimeToMinutes(o.start) < TimeToMinutes(o.end)
  }

  lemma SlotsConflictSymmetric(a: Occurrence, b: Occurrence)
    ensures SlotsConflict(a, b) == SlotsConflict(b, a)
  {
  }

  lemma DifferentDaysNeverConflict(a: Occurrence, b: Occurrence)
    requires a.day != b.day
    ensures !SlotsConflict(a, b) && !SlotsConflict(b, a)
  {
  }

  /** A meeting that ends exactly when another starts does not conflict
      with it. */
  lemma BackToBackSlotsDoNotConflict(a: Occurrence, b: Occurrence)
    requires TimeToMinutes(a.end) == TimeToMinutes(b.start)
    ensures !SlotsConflict(a, b) && !SlotsConflict(b, a)
  {
  }

  /** For meetings of positive length, the conflict test is exactly "some
      minute of the same day belongs to both". */
  lemma SlotsConflictIffSharedMinute(a: Occurrence, b: Occurrence)
    requires NonEmptySlot(a) && NonEmptySlot(b)
    ensures SlotsConflict(a, b) <==> a.day == b.day && exists x :: InSlot(x, a) && InSlot(x, b)
  {
    var s1, s2 := TimeToMinutes(a.start), TimeToMinutes(b.start);
    if SlotsConflict(a, b) {
      var x := if s1 < s2 then s2 else s1;
      assert InSlot(x, a) && InSlot(x, b);
    }
  }

  /** Some meeting of x conflicts with some meeting of y. */
  predicate SectionsConflict(x: Section, y: Section) {
    exists a, b :: 0 <= a < |x.times| && 0 <= b < |y.times| && SlotsConflict(x.times[a], y.times[b])
  }

  /** The section-level test is symmetric too. */
  lemma SectionsConflictSymmetric(x: Section, y: Section)
    ensures SectionsConflict(x, y) <==> SectionsConflict(y, x)
  {
    forall a, b | 0 <= a < |x.times| && 0 <= b < |y.times|
      ensures SlotsConflict(x.times[a], y.times[b]) <==> SlotsConflict(y.times[b], x.times[a])
    {
      SlotsConflictSymmetric(x.times[a], y.times[b]);
    }
  }

  /** A section conflicts with the chosen sections when some meeting of it
      conflicts with some meeting of one of them. */
  predicate ConflictsWith(s: Section, current: seq<ChosenSection>) {
    exists e :: 0 <= e < |current| && SectionsConflict(s, current[e].section)
  }

  /** sectionConflictsWithSchedule: for every chosen section, every meeting
      of the candidate and every meeting of the chosen section, stop at the
      first conflicting pair. */
  method SectionConflictsWithSchedule(section: Section, currentSections: seq<ChosenSection>) returns (conflict: bool)
    ensures conflict <==> ConflictsWith(section, currentSections)
    ensures currentSections == [] ==> !conflict
  {
    for e := 0 to |currentSections|
      invariant forall e' :: 0 <= e' < e ==> !SectionsConflict(section, currentSections[e'].section)
    {
      var existing := currentSections[e].section;
      for a := 0 to |section.times|
        invariant forall a', b :: 0 <= a' < a && 0 <= b < |existing.times| ==>
          !SlotsConflict(section.times[a'], existing.times[b])
      {
        var t1 := section.times[a];
        for b := 0 to |existing.times|
          invariant forall b' :: 0 <= b' < b ==> !SlotsConflict(t1, existing.times[b'])
        {
          if SlotsConflict(t1, existing.times[b]) {
            assert SectionsConflict(section, existing);
            return true;
          }
        }
      }
    }
    return false;
  }

  /** The earliest allowed start: the client's bound, or "00:00" when it is
      absent or empty. */
  function EarliestBound(p: Preferences): Time {
    if p.earliest.None? || p.earliest.value == "" then "00:00" else p.earliest.value
  }

  /** The latest allowed end: the client's bound, or "23:59" when it is
      absent or empty. */
  function LatestBound(p: Preferences): Time {
    if p.latest.None? || p.latest.value == "" then "23:59" else p.latest.value
  }

  /** Without bounds the window is the whole day, 0 to 23 * 60 + 59 minutes. */
  lemma DefaultWindow(p: Preferences)
    ensures p.earliest.None? || p.earliest.value == "" ==> TimeToMinutes(EarliestBound(p)) == 0
    ensures p.latest.None? || p.latest.value == "" ==> TimeToMinutes(LatestBound(p)) == 23 * 60 + 59
  {
    assert ClockTime(0, 0) == "00:00";
    assert ClockTime(23, 59) == "23:59";
    ClockTimeMinutes(0, 0);
    ClockTimeMinutes(23, 59);
  }

  /** One meeting is acceptable: not a Friday when Fridays are excluded, not
      starting before the earliest bound and not ending after the latest. */
  predicate OccurrenceMeets(t: Occurrence, p: Preferences) {
    && !(p.noFriday && t.day == "Fri")
    && TimeToMinutes(t.start) >= TimeToMinutes(EarliestBound(p))
    && TimeToMinutes(t.end) <= TimeToMinutes(LatestBound(p))
  }

  /** A section is acceptable only when every one of its meetings is. */
  predicate MeetsPreferences(s: Section, p: Preferences) {
    forall i :: 0 <= i < |s.times| ==> OccurrenceMeets(s.times[i], p)
  }

  /** A window whose earliest bound is after its latest rejects every
      section with a meeting that does not end before it starts. */
  lemma InvertedWindowRejects(s: Section, p: Preferences, i: nat)
    requires TimeToMinutes(EarliestBound(p)) > TimeToMinutes(LatestBound(p))
    requires i < |s.times| && TimeToMinutes(s.times[i].start) <= TimeToMinutes(s.times[i].end)
    ensures !MeetsPreferences(s, p)
  {
    assert !OccurrenceMeets(s.times[i], p);
  }

  /** A section without meetings passes every window, an inverted one
      included: the loop has nothing to reject. */
  lemma NoMeetingsAlwaysMeets(id: string, p: Preferences)
    ensures MeetsPreferences(Section(id, []), p)
  {
  }

  /** sectionMeetsPreferences: return false at the first meeting that is
      on an excluded Friday, starts too early or ends too late. */
  method SectionMeetsPreferences(section: Section, prefs: Preferences) returns (ok: bool)
    ensures ok <==> MeetsPreferences(section, prefs)
  {
    var earliest := EarliestBound(prefs);
    var latest := LatestBound(prefs);
    var noFriday := prefs.noFriday;
    var earliestMin := TimeToMinutes(earliest);
    var latestMin := TimeToMinutes(latest);
    for i := 0 to |section.times|
      invariant forall k :: 0 <= k < i ==> OccurrenceMeets(section.times[k], prefs)
    {
      var t := section.times[i];
      if noFriday && t.day == "Fri" {
        return false;
      }
      var startMin := TimeToMinutes(t.start);
      var endMin := TimeToMinutes(t.end);
      if startMin < earliestMin {
        return false;
      }
      if endMin > latestMin {
        return false;
      }
    }
    return true;
  }
}
