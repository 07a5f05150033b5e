/** The client's reading of a scraped "sections" page into course data:
    day-code tokens become meetings, section numbers are normalised, and
    lecture sections are combined with discussion/lab sections. The text
    matching that finds the tokens on each line is not modelled: a line
    arrives here as the pieces that matching would have extracted. */
module OcrImport {
  import opened Clock
  import opened Catalog
  import opened Intervals
  import opened Seqs

  // ---------------------------------------------------------------------
  // Day tokens

  /** The day a day code names: M, T, W, R and F are Monday to Friday. */
  function DayName(c: char): (d: Option<string>)
    ensures d.Some? <==> c in "MTWRF"
    ensures d.Some? ==> d.value in WEEKDAYS
    ensures d == Some("Fri") <==> c == 'F'
  {
    match c
    case 'M' => Some("Mon")
    case 'T' => Some("Tue")
    case 'W' => Some("Wed")
    case 'R' => Some("Thu")
    case 'F' => Some("Fri")
    case _ => None
  }

  const WEEKDAYS: seq<string> := ["Mon", "Tue", "Wed", "Thu", "Fri"]

  /** The days a token names, one per day-code character, in token order. */
  function DaysOf(token: string): seq<string> {
    if token == [] then []
    else
      var last := DayName(token[|token| - 1]);
      DaysOf(token[..|token| - 1]) + if last.Some? then [last.value] else []
  }

  /** Every expanded day is a weekday, and there is at most one per
      character. */
  lemma {:induction false} DaysOfWeekdays(token: string)
    ensures |DaysOf(token)| <= |token|
    ensures forall i :: 0 <= i < |DaysOf(token)| ==> DaysOf(token)[i] in WEEKDAYS
  {
    if token != [] {
      DaysOfWeekdays(token[..|token| - 1]);
    }
  }

  /** A token of day codes only (what the line matching extracts) expands
      to exactly one day per character, in order. */
  lemma {:induction false} DaysOfCodes(token: string)
    requires forall i :: 0 <= i < |token| ==> DayName(token[i]).Some?
    ensures |DaysOf(token)| == |token|
    ensures forall i :: 0 <= i < |token| ==> DayName(token[i]) == Some(DaysOf(token)[i])
  {
    if token != [] {
      var init := token[..|token| - 1];
      DaysOfCodes(init);
      assert forall i :: 0 <= i < |init| ==> init[i] == token[i];
    }
  }

  /** A token yields no day exactly when none of its characters is a day
      code. */
  lemma {:induction false} DaysOfEmpty(token: string)
    ensures DaysOf(token) == [] <==> forall i :: 0 <= i < |token| ==> DayName(token[i]).None?
  {
    if token != [] {
      var init := token[..|token| - 1];
      DaysOfEmpty(init);
      assert forall i :: 0 <= i < |init| ==> init[i] == token[i];
    }
  }

  /** Some character of the token is a day code. */
  predicate HasDayCode(token: string) {
    exists i :: 0 <= i < |token| && DayName(token[i]).Some?
  }

  /** The expansion names a Friday exactly when the token holds an F. */
  lemma {:induction false} DaysOfFriday(token: string)
    ensures "Fri" in DaysOf(token) <==> 'F' in token
  {
    if token != [] {
      var init := token[..|token| - 1];
      DaysOfFriday(init);
      assert token == init + [token[|token| - 1]];
    }
  }

  // ---------------------------------------------------------------------
  // Times and section numbers

  /** A clock time as written on the page ("9:55" or "09:55"): a four
      character time gets a leading zero. */
  function Norm(t: Time): (r: Time)
    ensures TimeToMinutes(r) == TimeToMinutes(t)
    ensures |t| == 4 ==> r == "0" + t
    ensures |t| != 4 ==> r == t
  {
    if |t| == 4 then
      LeadingZeroTime(t);
      "0" + t
    else t
  }

  /** s with every letter O read as the digit 0. */
  function ZeroForO(s: string): string {
    seq(|s|, i requires 0 <= i < |s| => if s[i] == 'O' then '0' else s[i])
  }

  /** JavaScript's padStart: c repeated in front of s up to length n. */
  function PadStart(s: string, n: nat, c: char): (r: string)
    ensures |r| == if |s| >= n then |s| else n
    ensures r[|r| - |s|..] == s
    ensures forall i :: 0 <= i < |r| - |s| ==> r[i] == c
  {
    if |s| >= n then s else seq(n - |s|, _ => c) + s
  }

  /** JavaScript's slice(-k): the last k characters, or all of a shorter s. */
  function SliceLast(s: string, k: nat): (r: string)
    ensures |r| == if |s| <= k then |s| else k
    ensures r == s[|s| - |r|..]
  {
    if |s| <= k then s else s[|s| - k..]
  }

  /** The section number as the client stores it: O read as 0, padded with
      zeros to three characters, and cut to the last three. */
  function SectionNumber(raw: string): (num: string)
    ensures |num| == 3
    ensures forall i :: 0 <= i < 3 ==> num[i] != 'O'
    ensures |raw| >= 3 ==> num == ZeroForO(raw[|raw| - 3..])
    ensures |raw| < 3 ==> (forall i :: 0 <= i < 3 - |raw| ==> num[i] == '0') && num[3 - |raw|..] == ZeroForO(raw)
  {
    SliceLast(PadStart(ZeroForO(raw), 3, '0'), 3)
  }

  /** A number of digits and O's (what the line matching captures) keeps its
      value when it has at most three characters. */
  lemma SectionNumberValue(raw: string)
    requires |raw| <= 3
    requires forall i :: 0 <= i < |raw| ==> IsDigit(raw[i]) || raw[i] == 'O'
    ensures AllDigits(SectionNumber(raw))
    ensures DigitsValue(SectionNumber(raw)) == DigitsValue(ZeroForO(raw))
  {
    var z := ZeroForO(raw);
    if |raw| == 3 {
      assert SectionNumber(raw) == z;
    } else if |raw| == 2 {
      assert SectionNumber(raw) == "0" + z;
      LeadingZero(z);
    } else if |raw| == 1 {
      assert SectionNumber(raw) == "0" + ("0" + z);
      LeadingZero(z);
      LeadingZero("0" + z);
    } else {
      assert SectionNumber(raw) == "0" + ("0" + ("0" + z));
      LeadingZero(z);
      LeadingZero("0" + z);
      LeadingZero("0" + ("0" + z));
    }
  }

  // ---------------------------------------------------------------------
  // One line of the page

  /** The start and end a line's time range matched, as written. */
  datatype TimeRange = TimeRange(startRaw: Time, endRaw: Time)

  /** The meetings a line describes, given its time range (None when the
      line has none) and the day-code tokens before it: one meeting per day
      of the last token, each with the normalised start and end. None when
      the line has no time range, no token, or no day in its last token. */
  function TimesOf(range: Option<TimeRange>, dayTokens: seq<string>): Option<seq<Occurrence>> {
    if range.None? || dayTokens == [] then None
    else
      var days := DaysOf(dayTokens[|dayTokens| - 1]);
      if days == [] then None
      else
        var start, end := Norm(range.value.startRaw), Norm(range.value.endRaw);
        Some(seq(|days|, i requires 0 <= i < |days| => Occurrence(days[i], start, end, None)))
  }

  /** The loop of parseTimesFromLine that turns a day token into days. */
  method ExpandDayToken(dayToken: string) returns (days: seq<string>)
    ensures days == DaysOf(dayToken)
  {
    days := [];
    for k := 0 to |dayToken|
      invariant days == DaysOf(dayToken[..k])
    {
      assert dayToken[..k + 1][..k] == dayToken[..k];
      var d := DayName(dayToken[k]);
      if d.Some? {
        days := days + [d.value];
      }
    }
    assert dayToken[..|dayToken|] == dayToken;
  }

  /** parseTimesFromLine: expand the last day token into days, then give
      every day the line's start and end. */
  method ParseTimesFromLine(range: Option<TimeRange>, dayTokens: seq<string>) returns (times: Option<seq<Occurrence>>)
    ensures times == TimesOf(range, dayTokens)
  {
    if range.None? {
      return None;
    }
    var startRaw, endRaw := range.value.startRaw, range.value.endRaw;
    if |dayTokens| == 0 {
      return None;
    }
    var dayToken := dayTokens[|dayTokens| - 1];
    var days := ExpandDayToken(dayToken);
    if |days| == 0 {
      return None;
    }
    var start := Norm(startRaw);
    var end := Norm(endRaw);
    times := Some(seq(|days|, i requires 0 <= i < |days| => Occurrence(days[i], start, end, None)));
  }

  /** The meetings of a line: one per day of the last token, in order, all
      from the line's start to its end as minutes go, and none without a
      time range, a token or a day. */
  lemma TimesOfShape(range: Option<TimeRange>, dayTokens: seq<string>)
    ensures TimesOf(range, dayTokens).Some? <==>
      range.Some? && dayTokens != [] && HasDayCode(dayTokens[|dayTokens| - 1])
    ensures TimesOf(range, dayTokens).Some? ==>
      var ts, days := TimesOf(range, dayTokens).value, DaysOf(dayTokens[|dayTokens| - 1]);
      && |ts| == |days| > 0
      && forall i :: 0 <= i < |ts| ==>
           && ts[i].day == days[i] && ts[i].tag.None?
           && TimeToMinutes(ts[i].start) == TimeToMinutes(range.value.startRaw)
           && TimeToMinutes(ts[i].end) == TimeToMinutes(range.value.endRaw)
  {
    if range.Some? && dayTokens != [] {
      DaysOfEmpty(dayTokens[|dayTokens| - 1]);
    }
  }

  // ---------------------------------------------------------------------
  // Collecting the sections of a page

  /** What the line matching extracts from a line that names a section:
      its type (LEC, DIS, LAB or SEM), its raw number, its time range and
      the day-code tokens before the time range. */
  datatype SectionLine = SectionLine(secType: string, rawNum: string, range: Option<TimeRange>, dayTokens: seq<string>)

  /** The section a line yields, if it has meetings. */
  function LineSection(l: SectionLine): Option<Section> {
    match TimesOf(l.range, l.dayTokens)
    case None => None
    case Some(times) => Some(Section(l.secType + " " + SectionNumber(l.rawNum), times))
  }

  /** The sections of the lines, in line order, that are lectures (when
      `lecture`) or not lectures (otherwise); a None line names no section. */
  function Collected(lines: seq<Option<SectionLine>>, lecture: bool): seq<Section> {
    if lines == [] then []
    else
      var last := lines[|lines| - 1];
      Collected(lines[..|lines| - 1], lecture) +
        if last.Some? && (last.value.secType == "LEC") == lecture && LineSection(last.value).Some?
        then [LineSection(last.value).value] else []
  }

  /** The loop over the lines: keep each section line that has meetings,
      as a lecture or as another section. */
  method CollectSections(lines: seq<Option<SectionLine>>) returns (lectures: seq<Section>, others: seq<Section>)
    ensures lectures == Collected(lines, true)
    ensures others == Collected(lines, false)
  {
    lectures, others := [], [];
    for n := 0 to |lines|
      invariant lectures == Collected(lines[..n], true)
      invariant others == Collected(lines[..n], false)
    {
      assert lines[..n + 1][..n] == lines[..n];
      if lines[n].None? {
        continue;
      }
      var line := lines[n].value;
      var num := SectionNumber(line.rawNum);
      var sectionId := line.secType + " " + num;
      var times := ParseTimesFromLine(line.range, line.dayTokens);
      if times.None? {
        continue;
      }
      var secObj := Section(sectionId, times.value);
      if line.secType == "LEC" {
        lectures := lectures + [secObj];
      } else {
        others := others + [secObj];
      }
    }
    assert lines[..|lines|] == lines;
  }

  /** A line's section has meetings and a "<type> <three characters>" id. */
  lemma LineSectionShape(l: SectionLine)
    requires |l.secType| == 3 && LineSection(l).Some?
    ensures var s := LineSection(l).value;
      |s.times| > 0 && |s.sectionId| == 7 && s.sectionId[3] == ' ' && s.sectionId[..3] == l.secType
  {
    TimesOfShape(l.range, l.dayTokens);
    assert (l.secType + " " + SectionNumber(l.rawNum))[..3] == l.secType;
  }

  /** Every collected section has meetings, a "<type> <three characters>"
      id, and is a lecture exactly when asked for lectures. */
  lemma {:induction false} CollectedShape(lines: seq<Option<SectionLine>>, lecture: bool)
    requires forall n :: 0 <= n < |lines| && lines[n].Some? ==> |lines[n].value.secType| == 3
    ensures forall k :: 0 <= k < |Collected(lines, lecture)| ==>
      var s := Collected(lines, lecture)[k];
      |s.times| > 0 && |s.sectionId| == 7 && s.sectionId[3] == ' ' && (s.sectionId[..3] == "LEC") == lecture
  {
    if lines != [] {
      var init := lines[..|lines| - 1];
      assert forall n :: 0 <= n < |init| ==> init[n] == lines[n];
      CollectedShape(init, lecture);
      var last := lines[|lines| - 1];
      if last.Some? && LineSection(last.value).Some? {
        LineSectionShape(last.value);
      }
    }
  }

  // ---------------------------------------------------------------------
  // Combining lectures with discussion and lab sections

  /** The meetings of a section, each tagged with the section's id. */
  function Labelled(times: seq<Occurrence>, id: string): seq<Occurrence> {
    seq(|times|, i requires 0 <= i < |times| => times[i].(tag := Some(id)))
  }

  /** A lecture taken together with one discussion or lab section. */
  function Paired(lec: Section, other: Section): Section {
    Section(lec.sectionId + " + " + other.sectionId,
            Labelled(lec.times, lec.sectionId) + Labelled(other.times, other.sectionId))
  }

  /** The row of pairings of one lecture with every other section. */
  function Row(lec: Section, others: seq<Section>): seq<Section> {
    seq(|others|, k requires 0 <= k < |others| => Paired(lec, others[k]))
  }

  function Rows(lectures: seq<Section>, others: seq<Section>): seq<seq<Section>> {
    seq(|lectures|, i requires 0 <= i < |lectures| => Row(lectures[i], others))
  }

  /** The sections the page yields: every lecture with every other section
      when there are both, otherwise the lectures and the others as they
      are. */
  function Combined(lectures: seq<Section>, others: seq<Section>): seq<Section> {
    if |lectures| > 0 && |others| > 0 then Flatten(Rows(lectures, others)) else lectures + others
  }

  /** The nested loops over lectures and other sections. */
  method CombineSections(lectures: seq<Section>, others: seq<Section>) returns (sections: seq<Section>)
    ensures sections == Combined(lectures, others)
  {
    sections := [];
    if |lectures| > 0 && |others| > 0 {
      ghost var rows := Rows(lectures, others);
      for i := 0 to |lectures|
        invariant sections == Flatten(rows[..i])
      {
        var lec := lectures[i];
        for k := 0 to |others|
          invariant sections == Flatten(rows[..i]) + rows[i][..k]
        {
          var other := others[k];
          assert rows[i][..k + 1] == rows[i][..k] + [Paired(lec, other)];
          sections := sections + [Section(lec.sectionId + " + " + other.sectionId,
                                          Labelled(lec.times, lec.sectionId) + Labelled(other.times, other.sectionId))];
        }
        assert rows[i][..|others|] == rows[i];
        FlattenSnoc(rows, i);
      }
      assert rows[..|lectures|] == rows;
    } else {
      var all := lectures + others;
      for n := 0 to |all|
        invariant sections == all[..n]
      {
        var s := all[n];
        sections := sections + [Section(s.sectionId, s.times)];
      }
      assert all[..|all|] == all;
    }
  }

  /** With lectures and other sections, the result holds |lectures| *
      |others| pairings in lecture-major order: position i * |others| + k
      pairs lecture i with other section k. */
  lemma CombinedPairs(lectures: seq<Section>, others: seq<Section>, i: nat, k: nat)
    requires i < |lectures| && k < |others|
    ensures |Combined(lectures, others)| == |lectures| * |others|
    ensures i * |others| + k < |Combined(lectures, others)|
    ensures Combined(lectures, others)[i * |others| + k] == Paired(lectures[i], others[k])
  {
    var rows := Rows(lectures, others);
    FlattenUniformLength(rows, |others|);
    FlattenUniformAt(rows, |others|, i, k);
  }

  /** Tags are never consulted: a tagged meeting meets the preferences
      exactly as the untagged one ... */
  lemma LabelledPreferences(times: seq<Occurrence>, id: string, p: Preferences)
    ensures MeetsPreferences(Section(id, Labelled(times, id)), p) <==> MeetsPreferences(Section(id, times), p)
  {
    var l := Labelled(times, id);
    assert forall i :: 0 <= i < |times| ==> (OccurrenceMeets(l[i], p) <==> OccurrenceMeets(times[i], p));
  }

  /** ... and conflicts exactly as the untagged one. */
  lemma LabelledConflicts(times: seq<Occurrence>, id: string, x: Section)
    ensures SectionsConflict(Section(id, Labelled(times, id)), x) <==> SectionsConflict(Section(id, times), x)
  {
    var l := Labelled(times, id);
    if SectionsConflict(Section(id, times), x) {
      var a, b :| 0 <= a < |times| && 0 <= b < |x.times| && SlotsConflict(times[a], x.times[b]);
      assert SlotsConflict(l[a], x.times[b]);
    }
    if SectionsConflict(Section(id, l), x) {
      var a, b :| 0 <= a < |l| && 0 <= b < |x.times| && SlotsConflict(l[a], x.times[b]);
      assert SlotsConflict(times[a], x.times[b]);
    }
  }

  lemma MeetsAppend(id: string, a: seq<Occurrence>, b: seq<Occurrence>, p: Preferences)
    ensures MeetsPreferences(Section(id, a + b), p) <==> MeetsPreferences(Section(id, a), p) && MeetsPreferences(Section(id, b), p)
  {
    var ab := a + b;
    if MeetsPreferences(Section(id, a), p) && MeetsPreferences(Section(id, b), p) {
      forall i | 0 <= i < |ab| ensures OccurrenceMeets(ab[i], p) {
        if i >= |a| {
          assert ab[i] == b[i - |a|];
        }
      }
    }
    if MeetsPreferences(Section(id, ab), p) {
      forall i | 0 <= i < |a| ensures OccurrenceMeets(a[i], p) {
        assert ab[i] == a[i];
      }
      forall i | 0 <= i < |b| ensures OccurrenceMeets(b[i], p) {
        assert ab[|a| + i] == b[i];
      }
    }
  }

  lemma ConflictsAppend(id: string, a: seq<Occurrence>, b: seq<Occurrence>, x: Section)
    ensures SectionsConflict(Section(id, a + b), x) <==> SectionsConflict(Section(id, a), x) || SectionsConflict(Section(id, b), x)
  {
    var ab := a + b;
    if SectionsConflict(Section(id, ab), x) {
      var i, j :| 0 <= i < |ab| && 0 <= j < |x.times| && SlotsConflict(ab[i], x.times[j]);
      if i < |a| {
        assert SlotsConflict(a[i], x.times[j]);
      } else {
        assert SlotsConflict(b[i - |a|], x.times[j]);
      }
    }
    if SectionsConflict(Section(id, a), x) {
      var i, j :| 0 <= i < |a| && 0 <= j < |x.times| && SlotsConflict(a[i], x.times[j]);
      assert SlotsConflict(ab[i], x.times[j]);
    }
    if SectionsConflict(Section(id, b), x) {
      var i, j :| 0 <= i < |b| && 0 <= j < |x.times| && SlotsConflict(b[i], x.times[j]);
      assert SlotsConflict(ab[|a| + i], x.times[j]);
    }
  }

  /** A pairing meets the preferences exactly when both its sections do. */
  lemma PairedPreferences(lec: Section, other: Section, p: Preferences)
    ensures MeetsPreferences(Paired(lec, other), p) <==> MeetsPreferences(lec, p) && MeetsPreferences(other, p)
  {
    var ll, lo := Labelled(lec.times, lec.sectionId), Labelled(other.times, other.sectionId);
    var id := Paired(lec, other).sectionId;
    MeetsAppend(id, ll, lo, p);
    LabelledPreferences(lec.times, lec.sectionId, p);
    LabelledPreferences(other.times, other.sectionId, p);
    assert MeetsPreferences(Section(id, ll), p) <==> MeetsPreferences(Section(lec.sectionId, ll), p);
    assert MeetsPreferences(Section(id, lo), p) <==> MeetsPreferences(Section(other.sectionId, lo), p);
  }

  /** A pairing conflicts with a section exactly when one of its two
      sections does. */
  lemma PairedConflicts(lec: Section, other: Section, x: Section)
    ensures SectionsConflict(Paired(lec, other), x) <==> SectionsConflict(lec, x) || SectionsConflict(other, x)
  {
    var ll, lo := Labelled(lec.times, lec.sectionId), Labelled(other.times, other.sectionId);
    var id := Paired(lec, other).sectionId;
    ConflictsAppend(id, ll, lo, x);
    LabelledConflicts(lec.times, lec.sectionId, x);
    LabelledConflicts(other.times, other.sectionId, x);
    assert SectionsConflict(Section(id, ll), x) <==> SectionsConflict(Section(lec.sectionId, ll), x);
    assert SectionsConflict(Section(id, lo), x) <==> SectionsConflict(Section(other.sectionId, lo), x);
  }

  // ---------------------------------------------------------------------
  // The page as a course

  /** The courses the page yields under the course id and name found in its
      header: none when no line yields a section, otherwise one course with
      the combined sections. */
  method ParsedCourses(courseId: string, courseName: string, lines: seq<Option<SectionLine>>) returns (parsed: seq<Course>)
    ensures parsed == [] <==> Collected(lines, true) == [] && Collected(lines, false) == []
    ensures parsed != [] ==>
      parsed == [Course(courseId, courseName, Combined(Collected(lines, true), Collected(lines, false)))]
  {
    var lectures, others := CollectSections(lines);
    if |lectures| == 0 && |others| == 0 {
      return [];
    }
    var sections := CombineSections(lectures, others);
    parsed := [Course(courseId, courseName, sections)];
  }
}
