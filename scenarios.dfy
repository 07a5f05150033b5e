/** The sample catalogue the back end ships with, and what the search makes
    of it: every pairing of MATH340 and CS400 within 08:00-18:00, only the
    Tuesday/Thursday MATH340 lecture when Fridays are excluded, and never
    two sections that meet at the same time. */
module Scenarios {
  import opened Clock
  import opened Catalog
  import opened Intervals
  import opened Seqs
  import opened SearchSpec
  import opened SearchProps

  /** A section meeting on each of `days` from `start` to `end`. */
  function Weekly(id: string, days: seq<string>, start: Time, end: Time): Section {
    Section(id, seq(|days|, i requires 0 <= i < |days| => Occurrence(days[i], start, end, None)))
  }

  /** A weekly section inside the window, and off Fridays when those are
      excluded, meets the preferences. */
  lemma WeeklyMeets(id: string, days: seq<string>, start: Time, end: Time, p: Preferences)
    requires p.noFriday ==> "Fri" !in days
    requires TimeToMinutes(EarliestBound(p)) <= TimeToMinutes(start)
    requires TimeToMinutes(end) <= TimeToMinutes(LatestBound(p))
    ensures MeetsPreferences(Weekly(id, days, start, end), p)
  {
    var s := Weekly(id, days, start, end);
    forall i | 0 <= i < |s.times| ensures OccurrenceMeets(s.times[i], p) {
      assert s.times[i].day == days[i];
    }
  }

  /** A weekly section with a Friday meeting fails when Fridays are excluded. */
  lemma WeeklyOnFriday(id: string, days: seq<string>, start: Time, end: Time, p: Preferences)
    requires p.noFriday && "Fri" in days
    ensures !MeetsPreferences(Weekly(id, days, start, end), p)
  {
    var s := Weekly(id, days, start, end);
    var i :| 0 <= i < |days| && days[i] == "Fri";
    assert !OccurrenceMeets(s.times[i], p);
  }

  /** Two weekly sections on disjoint days, or one over before the other
      starts, never conflict. */
  lemma WeeklyApart(x: Section, dx: seq<string>, sx: Time, ex: Time, y: Section, dy: seq<string>, sy: Time, ey: Time)
    requires x == Weekly(x.sectionId, dx, sx, ex) && y == Weekly(y.sectionId, dy, sy, ey)
    requires (forall d :: d in dx ==> d !in dy) || TimeToMinutes(ex) <= TimeToMinutes(sy) || TimeToMinutes(ey) <= TimeToMinutes(sx)
    ensures !SectionsConflict(x, y)
  {
    forall a, b | 0 <= a < |x.times| && 0 <= b < |y.times| ensures !SlotsConflict(x.times[a], y.times[b]) {
      assert x.times[a].day == dx[a] && y.times[b].day == dy[b];
      if forall d :: d in dx ==> d !in dy {
        assert dx[a] in dx;
      }
    }
  }

  // ---------------------------------------------------------------------
  // The catalogue

  const MON_WED_FRI := ["Mon", "Wed", "Fri"]
  const MON_WED := ["Mon", "Wed"]
  const TUE_THU := ["Tue", "Thu"]

  const MATH340_LEC_001 := Weekly("MATH340-LEC-001", MON_WED_FRI, ClockTime(9, 55), ClockTime(10, 45))
  const MATH340_LEC_002 := Weekly("MATH340-LEC-002", TUE_THU, ClockTime(13, 0), ClockTime(14, 15))
  const CS400_LEC_001 := Weekly("CS400-LEC-001", MON_WED, ClockTime(11, 0), ClockTime(12, 15))
  const CS400_LEC_002 := Weekly("CS400-LEC-002", TUE_THU, ClockTime(15, 0), ClockTime(16, 15))
  /** A STAT324 section at the hours of CS400-LEC-001. */
  const STAT324_CLASH := Weekly("STAT324-LEC-003", MON_WED, ClockTime(11, 0), ClockTime(12, 15))

  const MATH340 := Course("MATH340", "Elementary Matrix and Linear Algebra", [MATH340_LEC_001, MATH340_LEC_002])
  const CS400 := Course("CS400", "Programming III", [CS400_LEC_001, CS400_LEC_002])
  const STAT324 := Course("STAT324", "Introductory Probability", [STAT324_CLASH])

  /** 08:00 to 18:00, Fridays allowed or not. */
  function Window(noFriday: bool): (p: Preferences)
    ensures p.noFriday == noFriday
    ensures TimeToMinutes(EarliestBound(p)) == 8 * 60
    ensures TimeToMinutes(LatestBound(p)) == 18 * 60
  {
    ClockTimeMinutes(8, 0);
    ClockTimeMinutes(18, 0);
    Preferences(Some(ClockTime(8, 0)), Some(ClockTime(18, 0)), noFriday)
  }

  lemma DaysApart()
    ensures forall d :: d in MON_WED_FRI ==> d !in TUE_THU
    ensures forall d :: d in MON_WED ==> d !in TUE_THU
    ensures "Fri" !in TUE_THU && "Fri" !in MON_WED && "Fri" in MON_WED_FRI
  {
  }

  // ---------------------------------------------------------------------
  // The sections one by one

  lemma MathLecturesMeet(noFriday: bool)
    ensures MeetsPreferences(MATH340_LEC_001, Window(noFriday)) <==> !noFriday
    ensures MeetsPreferences(MATH340_LEC_002, Window(noFriday))
  {
    var p := Window(noFriday);
    ClockTimeMinutes(9, 55);
    ClockTimeMinutes(10, 45);
    ClockTimeMinutes(13, 0);
    ClockTimeMinutes(14, 15);
    DaysApart();
    if noFriday {
      WeeklyOnFriday("MATH340-LEC-001", MON_WED_FRI, ClockTime(9, 55), ClockTime(10, 45), p);
    } else {
      WeeklyMeets("MATH340-LEC-001", MON_WED_FRI, ClockTime(9, 55), ClockTime(10, 45), p);
    }
    WeeklyMeets("MATH340-LEC-002", TUE_THU, ClockTime(13, 0), ClockTime(14, 15), p);
  }

  lemma CsLecturesMeet(noFriday: bool)
    ensures MeetsPreferences(CS400_LEC_001, Window(noFriday))
    ensures MeetsPreferences(CS400_LEC_002, Window(noFriday))
    ensures MeetsPreferences(STAT324_CLASH, Window(noFriday))
  {
    var p := Window(noFriday);
    ClockTimeMinutes(11, 0);
    ClockTimeMinutes(12, 15);
    ClockTimeMinutes(15, 0);
    ClockTimeMinutes(16, 15);
    DaysApart();
    WeeklyMeets("CS400-LEC-001", MON_WED, ClockTime(11, 0), ClockTime(12, 15), p);
    WeeklyMeets("CS400-LEC-002", TUE_THU, ClockTime(15, 0), ClockTime(16, 15), p);
    WeeklyMeets("STAT324-LEC-003", MON_WED, ClockTime(11, 0), ClockTime(12, 15), p);
  }

  /** No CS400 lecture overlaps a MATH340 lecture: on Mondays and Wednesdays
      MATH340 ends at 10:45 and CS400 starts at 11:00, on Tuesdays and
      Thursdays MATH340 ends at 14:15 and CS400 starts at 15:00, and the
      other pairs share no day. */
  lemma CsApartFromMath()
    ensures !SectionsConflict(CS400_LEC_001, MATH340_LEC_001)
    ensures !SectionsConflict(CS400_LEC_001, MATH340_LEC_002)
    ensures !SectionsConflict(CS400_LEC_002, MATH340_LEC_001)
    ensures !SectionsConflict(CS400_LEC_002, MATH340_LEC_002)
  {
    ClockTimeMinutes(10, 45);
    ClockTimeMinutes(11, 0);
    ClockTimeMinutes(14, 15);
    ClockTimeMinutes(15, 0);
    DaysApart();
    WeeklyApart(CS400_LEC_001, MON_WED, ClockTime(11, 0), ClockTime(12, 15),
                MATH340_LEC_001, MON_WED_FRI, ClockTime(9, 55), ClockTime(10, 45));
    WeeklyApart(CS400_LEC_001, MON_WED, ClockTime(11, 0), ClockTime(12, 15),
                MATH340_LEC_002, TUE_THU, ClockTime(13, 0), ClockTime(14, 15));
    WeeklyApart(CS400_LEC_002, TUE_THU, ClockTime(15, 0), ClockTime(16, 15),
                MATH340_LEC_001, MON_WED_FRI, ClockTime(9, 55), ClockTime(10, 45));
    WeeklyApart(CS400_LEC_002, TUE_THU, ClockTime(15, 0), ClockTime(16, 15),
                MATH340_LEC_002, TUE_THU, ClockTime(13, 0), ClockTime(14, 15));
  }

  /** The STAT324 section conflicts with CS400-LEC-001: same days, same
      hours. */
  lemma StatClash()
    ensures SectionsConflict(STAT324_CLASH, CS400_LEC_001)
  {
    ClockTimeMinutes(11, 0);
    ClockTimeMinutes(12, 15);
    assert SlotsConflict(STAT324_CLASH.times[0], CS400_LEC_001.times[0]);
  }

  /** ... and with no other lecture: MATH340-LEC-001 ends at 10:45 on the
      same days, the Tuesday/Thursday lectures share no day with it. */
  lemma StatApart()
    ensures !SectionsConflict(STAT324_CLASH, CS400_LEC_002)
    ensures !SectionsConflict(STAT324_CLASH, MATH340_LEC_002)
    ensures !SectionsConflict(STAT324_CLASH, MATH340_LEC_001)
  {
    ClockTimeMinutes(10, 45);
    ClockTimeMinutes(11, 0);
    DaysApart();
    WeeklyApart(STAT324_CLASH, MON_WED, ClockTime(11, 0), ClockTime(12, 15),
                MATH340_LEC_001, MON_WED_FRI, ClockTime(9, 55), ClockTime(10, 45));
    WeeklyApart(STAT324_CLASH, MON_WED, ClockTime(11, 0), ClockTime(12, 15),
                CS400_LEC_002, TUE_THU, ClockTime(15, 0), ClockTime(16, 15));
    WeeklyApart(STAT324_CLASH, MON_WED, ClockTime(11, 0), ClockTime(12, 15),
                MATH340_LEC_002, TUE_THU, ClockTime(13, 0), ClockTime(14, 15));
  }

  // ---------------------------------------------------------------------
  // The search on MATH340 and CS400

  /** A course of one section in front of other courses: that section
      followed by every choice for the others. */
  lemma CandidatesConsOne(x: Course, ys: seq<Course>)
    requires |x.sections| == 1
    ensures Candidates([x] + ys) == Prefixed([Annotate(x, x.sections[0])], Candidates(ys))
  {
    assert ([x] + ys)[1..] == ys;
    var bs := Branches(x, Candidates(ys));
    assert bs == [bs[0]] && [bs[0]][..0] == [];
    assert Flatten(bs) == [] + bs[0];
  }

  /** A course of two sections in front of other courses: its first section
      followed by every choice for the others, then its second. */
  lemma CandidatesConsTwo(x: Course, ys: seq<Course>)
    requires |x.sections| == 2
    ensures Candidates([x] + ys) ==
      Prefixed([Annotate(x, x.sections[0])], Candidates(ys)) + Prefixed([Annotate(x, x.sections[1])], Candidates(ys))
  {
    assert ([x] + ys)[1..] == ys;
    var bs := Branches(x, Candidates(ys));
    assert bs[..1] == [bs[0]] && bs[..1][..0] == [];
    assert Flatten(bs[..1]) == [] + bs[0];
  }

  lemma PrefixedOne<T>(q: seq<T>, r0: seq<T>)
    ensures Prefixed(q, [r0]) == [q + r0]
  {
  }

  lemma PrefixedTwo<T>(q: seq<T>, r0: seq<T>, r1: seq<T>)
    ensures Prefixed(q, [r0, r1]) == [q + r0, q + r1]
  {
  }

  /** Two courses of two sections each give four choices, the first
      course's section varying slowest. */
  lemma CandidatesTwoByTwo(x: Course, y: Course)
    requires |x.sections| == 2 && |y.sections| == 2
    ensures Candidates([x, y]) ==
      [ [Annotate(x, x.sections[0]), Annotate(y, y.sections[0])]
      , [Annotate(x, x.sections[0]), Annotate(y, y.sections[1])]
      , [Annotate(x, x.sections[1]), Annotate(y, y.sections[0])]
      , [Annotate(x, x.sections[1]), Annotate(y, y.sections[1])] ]
  {
    var a0, a1 := Annotate(x, x.sections[0]), Annotate(x, x.sections[1]);
    var b0, b1 := Annotate(y, y.sections[0]), Annotate(y, y.sections[1]);
    CandidatesConsTwo(y, []);
    assert [y] + [] == [y];
    PrefixedOne([b0], []);
    PrefixedOne([b1], []);
    assert [b0] + [] == [b0] && [b1] + [] == [b1];
    assert Candidates([y]) == [[b0], [b1]];
    CandidatesConsTwo(x, [y]);
    assert [x] + [y] == [x, y];
    PrefixedTwo([a0], [b0], [b1]);
    PrefixedTwo([a1], [b0], [b1]);
    assert [a0] + [b0] == [a0, b0] && [a0] + [b1] == [a0, b1];
    assert [a1] + [b0] == [a1, b0] && [a1] + [b1] == [a1, b1];
  }

  /** Courses of two, two and one sections give four choices. */
  lemma CandidatesTwoTwoOne(x: Course, y: Course, z: Course)
    requires |x.sections| == 2 && |y.sections| == 2 && |z.sections| == 1
    ensures var a0, a1 := Annotate(x, x.sections[0]), Annotate(x, x.sections[1]);
            var b0, b1, c0 := Annotate(y, y.sections[0]), Annotate(y, y.sections[1]), Annotate(z, z.sections[0]);
      Candidates([x, y, z]) == [[a0, b0, c0], [a0, b1, c0], [a1, b0, c0], [a1, b1, c0]]
  {
    var a0, a1 := Annotate(x, x.sections[0]), Annotate(x, x.sections[1]);
    var b0, b1, c0 := Annotate(y, y.sections[0]), Annotate(y, y.sections[1]), Annotate(z, z.sections[0]);
    CandidatesConsOne(z, []);
    assert [z] + [] == [z];
    PrefixedOne([c0], []);
    assert [c0] + [] == [c0];
    assert Candidates([z]) == [[c0]];
    CandidatesConsTwo(y, [z]);
    assert [y] + [z] == [y, z];
    PrefixedOne([b0], [c0]);
    PrefixedOne([b1], [c0]);
    assert [b0] + [c0] == [b0, c0] && [b1] + [c0] == [b1, c0];
    assert Candidates([y, z]) == [[b0, c0], [b1, c0]];
    CandidatesConsTwo(x, [y, z]);
    assert [x] + [y, z] == [x, y, z];
    PrefixedTwo([a0], [b0, c0], [b1, c0]);
    PrefixedTwo([a1], [b0, c0], [b1, c0]);
    assert [a0] + [b0, c0] == [a0, b0, c0] && [a0] + [b1, c0] == [a0, b1, c0];
    assert [a1] + [b0, c0] == [a1, b0, c0] && [a1] + [b1, c0] == [a1, b1, c0];
  }

  /** A two-course choice is compatible iff both sections meet the
      preferences and the second does not conflict with the first. */
  lemma PairCompatible(p: Preferences, a: ChosenSection, b: ChosenSection)
    ensures Compatible(p, [a, b]) <==>
      MeetsPreferences(a.section, p) && MeetsPreferences(b.section, p) && !SectionsConflict(b.section, a.section)
  {
    CompatibleSnoc(p, [], a);
    CompatibleSnoc(p, [a], b);
    assert [] + [a] == [a] && [a] + [b] == [a, b];
    assert ConflictsWith(b.section, [a]) <==> SectionsConflict(b.section, [a][0].section);
  }

  /** A three-course choice is compatible iff its first two entries are and
      the third meets the preferences and conflicts with neither. */
  lemma TripleCompatible(p: Preferences, a: ChosenSection, b: ChosenSection, c: ChosenSection)
    ensures Compatible(p, [a, b, c]) <==>
      Compatible(p, [a, b]) && MeetsPreferences(c.section, p) &&
      !SectionsConflict(c.section, a.section) && !SectionsConflict(c.section, b.section)
  {
    CompatibleSnoc(p, [a, b], c);
    assert [a, b] + [c] == [a, b, c];
    assert ConflictsWith(c.section, [a, b]) <==>
      SectionsConflict(c.section, [a, b][0].section) || SectionsConflict(c.section, [a, b][1].section);
  }

  /** Keeping the compatible ones of four schedules. */
  lemma FilterFour(p: Preferences, s0: Schedule, s1: Schedule, s2: Schedule, s3: Schedule)
    ensures FilterCompatible(p, [s0, s1, s2, s3]) ==
      (if Compatible(p, s0) then [s0] else []) + (if Compatible(p, s1) then [s1] else []) +
      (if Compatible(p, s2) then [s2] else []) + (if Compatible(p, s3) then [s3] else [])
  {
    FilterSingleton(p, s0);
    FilterSingleton(p, s1);
    FilterSingleton(p, s2);
    FilterSingleton(p, s3);
    FilterAppend(p, [s0], [s1]);
    FilterAppend(p, [s0, s1], [s2]);
    FilterAppend(p, [s0, s1, s2], [s3]);
    assert [s0] + [s1] == [s0, s1] && [s0, s1] + [s2] == [s0, s1, s2] && [s0, s1, s2] + [s3] == [s0, s1, s2, s3];
  }

  /** What the search emits for two courses of two sections each. */
  lemma SchedulesTwoByTwo(x: Course, y: Course, p: Preferences)
    requires |x.sections| == 2 && |y.sections| == 2
    ensures var a0, a1, b0, b1 := Annotate(x, x.sections[0]), Annotate(x, x.sections[1]),
                                  Annotate(y, y.sections[0]), Annotate(y, y.sections[1]);
      Schedules([x, y], p) ==
        (if Compatible(p, [a0, b0]) then [[a0, b0]] else []) + (if Compatible(p, [a0, b1]) then [[a0, b1]] else []) +
        (if Compatible(p, [a1, b0]) then [[a1, b0]] else []) + (if Compatible(p, [a1, b1]) then [[a1, b1]] else [])
  {
    var a0, a1 := Annotate(x, x.sections[0]), Annotate(x, x.sections[1]);
    var b0, b1 := Annotate(y, y.sections[0]), Annotate(y, y.sections[1]);
    CandidatesTwoByTwo(x, y);
    FilterFour(p, [a0, b0], [a0, b1], [a1, b0], [a1, b1]);
  }

  /** When all four sections meet the preferences and no section of the
      second course conflicts with one of the first, all four pairings are
      emitted. */
  lemma TwoByTwoAllKept(x: Course, y: Course, p: Preferences)
    requires |x.sections| == 2 && |y.sections| == 2
    requires MeetsPreferences(x.sections[0], p) && MeetsPreferences(x.sections[1], p)
    requires MeetsPreferences(y.sections[0], p) && MeetsPreferences(y.sections[1], p)
    requires !SectionsConflict(y.sections[0], x.sections[0]) && !SectionsConflict(y.sections[1], x.sections[0])
    requires !SectionsConflict(y.sections[0], x.sections[1]) && !SectionsConflict(y.sections[1], x.sections[1])
    ensures var a0, a1, b0, b1 := Annotate(x, x.sections[0]), Annotate(x, x.sections[1]),
                                  Annotate(y, y.sections[0]), Annotate(y, y.sections[1]);
      Schedules([x, y], p) == [[a0, b0], [a0, b1], [a1, b0], [a1, b1]]
  {
    var a0, a1 := Annotate(x, x.sections[0]), Annotate(x, x.sections[1]);
    var b0, b1 := Annotate(y, y.sections[0]), Annotate(y, y.sections[1]);
    SchedulesTwoByTwo(x, y, p);
    PairCompatible(p, a0, b0);
    PairCompatible(p, a0, b1);
    PairCompatible(p, a1, b0);
    PairCompatible(p, a1, b1);
  }

  /** When the first section of the first course fails the preferences and
      everything else is acceptable, only the pairings with the second
      section are emitted. */
  lemma TwoByTwoFirstDropped(x: Course, y: Course, p: Preferences)
    requires |x.sections| == 2 && |y.sections| == 2
    requires !MeetsPreferences(x.sections[0], p) && MeetsPreferences(x.sections[1], p)
    requires MeetsPreferences(y.sections[0], p) && MeetsPreferences(y.sections[1], p)
    requires !SectionsConflict(y.sections[0], x.sections[1]) && !SectionsConflict(y.sections[1], x.sections[1])
    ensures var a1, b0, b1 := Annotate(x, x.sections[1]), Annotate(y, y.sections[0]), Annotate(y, y.sections[1]);
      Schedules([x, y], p) == [[a1, b0], [a1, b1]]
  {
    var a0, a1 := Annotate(x, x.sections[0]), Annotate(x, x.sections[1]);
    var b0, b1 := Annotate(y, y.sections[0]), Annotate(y, y.sections[1]);
    SchedulesTwoByTwo(x, y, p);
    PairCompatible(p, a0, b0);
    PairCompatible(p, a0, b1);
    PairCompatible(p, a1, b0);
    PairCompatible(p, a1, b1);
  }

  /** Within 08:00-18:00 every pairing of a MATH340 and a CS400 lecture is
      a schedule: four of them, in depth-first order. */
  lemma AllFourPairings()
    ensures Schedules([MATH340, CS400], Window(false)) ==
      [ [Annotate(MATH340, MATH340_LEC_001), Annotate(CS400, CS400_LEC_001)]
      , [Annotate(MATH340, MATH340_LEC_001), Annotate(CS400, CS400_LEC_002)]
      , [Annotate(MATH340, MATH340_LEC_002), Annotate(CS400, CS400_LEC_001)]
      , [Annotate(MATH340, MATH340_LEC_002), Annotate(CS400, CS400_LEC_002)] ]
    ensures |Schedules([MATH340, CS400], Window(false))| == 4
  {
    MathLecturesMeet(false);
    CsLecturesMeet(false);
    CsApartFromMath();
    TwoByTwoAllKept(MATH340, CS400, Window(false));
  }

  /** Excluding Fridays drops the Monday/Wednesday/Friday MATH340 lecture:
      the Tuesday/Thursday one pairs with both CS400 lectures. */
  lemma NoFridayTwoPairings()
    ensures Schedules([MATH340, CS400], Window(true)) ==
      [ [Annotate(MATH340, MATH340_LEC_002), Annotate(CS400, CS400_LEC_001)]
      , [Annotate(MATH340, MATH340_LEC_002), Annotate(CS400, CS400_LEC_002)] ]
    ensures |Schedules([MATH340, CS400], Window(true))| == 2
  {
    MathLecturesMeet(true);
    CsLecturesMeet(true);
    CsApartFromMath();
    TwoByTwoFirstDropped(MATH340, CS400, Window(true));
  }

  // ---------------------------------------------------------------------
  // A clashing section is never chosen together with what it clashes with

  /** With a STAT324 section at the hours of CS400-LEC-001, no schedule
      holds both of them. */
  lemma ClashNeverEmitted(noFriday: bool, a: nat)
    requires a < |Schedules([MATH340, CS400, STAT324], Window(noFriday))|
    ensures var s := Schedules([MATH340, CS400, STAT324], Window(noFriday))[a];
      |s| == 3 && !(s[1].section == CS400_LEC_001 && s[2].section == STAT324_CLASH)
  {
    ScheduleShape([MATH340, CS400, STAT324], Window(noFriday), a);
    StatClash();
  }

  /** Courses of two, two and one sections where the third course's section
      clashes with the second course's first section: only choices with the
      second course's second section can survive, and of those the one with
      the first course's first section survives when that section fits. */
  lemma TwoTwoOneWithClash(x: Course, y: Course, z: Course, p: Preferences)
    requires |x.sections| == 2 && |y.sections| == 2 && |z.sections| == 1
    requires SectionsConflict(z.sections[0], y.sections[0])
    requires MeetsPreferences(x.sections[1], p) && MeetsPreferences(y.sections[1], p) && MeetsPreferences(z.sections[0], p)
    requires !SectionsConflict(y.sections[1], x.sections[0]) && !SectionsConflict(y.sections[1], x.sections[1])
    requires !SectionsConflict(z.sections[0], x.sections[1]) && !SectionsConflict(z.sections[0], y.sections[1])
    ensures var a0, a1 := Annotate(x, x.sections[0]), Annotate(x, x.sections[1]);
            var b1, c0 := Annotate(y, y.sections[1]), Annotate(z, z.sections[0]);
      Schedules([x, y, z], p) ==
        (if MeetsPreferences(x.sections[0], p) && !SectionsConflict(z.sections[0], x.sections[0])
         then [[a0, b1, c0]] else []) + [[a1, b1, c0]]
  {
    var a0, a1 := Annotate(x, x.sections[0]), Annotate(x, x.sections[1]);
    var b0, b1, c0 := Annotate(y, y.sections[0]), Annotate(y, y.sections[1]), Annotate(z, z.sections[0]);
    CandidatesTwoTwoOne(x, y, z);
    FilterFour(p, [a0, b0, c0], [a0, b1, c0], [a1, b0, c0], [a1, b1, c0]);
    TripleCompatible(p, a0, b0, c0);
    TripleCompatible(p, a0, b1, c0);
    TripleCompatible(p, a1, b0, c0);
    TripleCompatible(p, a1, b1, c0);
    PairCompatible(p, a0, b1);
    PairCompatible(p, a1, b1);
  }

  /** The clash removes exactly the choices holding both clashing sections:
      with Fridays allowed, the CS400-LEC-002 choices with either MATH340
      lecture remain; without Fridays, only the one with MATH340-LEC-002. */
  lemma ClashSchedules(noFriday: bool)
    ensures Schedules([MATH340, CS400, STAT324], Window(noFriday)) ==
      (if noFriday then []
       else [[Annotate(MATH340, MATH340_LEC_001), Annotate(CS400, CS400_LEC_002), Annotate(STAT324, STAT324_CLASH)]]) +
      [[Annotate(MATH340, MATH340_LEC_002), Annotate(CS400, CS400_LEC_002), Annotate(STAT324, STAT324_CLASH)]]
  {
    MathLecturesMeet(noFriday);
    CsLecturesMeet(noFriday);
    CsApartFromMath();
    StatClash();
    StatApart();
    TwoTwoOneWithClash(MATH340, CS400, STAT324, Window(noFriday));
  }
}
