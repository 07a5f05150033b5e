# Course scheduler: the schedule-combination engine, verified in Dafny

This project models the core of a student timetable builder. The back end
takes an ordered list of courses. Each course has sections, and each section
has weekly meetings (a day, a start and an end). The back end enumerates every
way to pick one section per course such that:

- no two chosen meetings overlap on the same day;
- every meeting lies inside the student's preference window (earliest start,
  latest end, optionally no Fridays).

The client turns a scraped "sections" page into course data and merges
imported courses into its course list keyed by course id. Those helpers are
modelled too.

Modules:

- `Clock` (clock.dfy): `"HH:MM"` strings and their reading as minutes since
  midnight. A time (`Time`) is a digit string, a colon and a digit string. This is
  the well-formed subset of what `split(":").map(Number)` accepts. Other
  strings that JavaScript also reads (`" 9:30"`, `"+9:30"`, `"9:30:15"`)
  fall under the malformed times left out below.
- `Catalog` (catalog.dfy): meetings, sections, courses, preferences, and a
  section as the search emits it (annotated with its course's id and name).
- `Intervals` (intervals.dfy): the half-open conflict test, the section-level
  conflict loop and the preference loop.
- `SearchSpec` (search_spec.dfy): the emitted schedules as a function. It is
  the Cartesian product of the section lists in depth-first order, filtered by
  the two tests the search applies before each push.
- `Search` (search.dfy): `generateSchedules` with its inner `backtrack`. The
  state that `backtrack` closes over is a class whose methods push to and pop
  from the shared `current` buffer and append to `results`. It is proved equal
  to the function.
- `SearchProps` (search_props.dfy): what the results are, stated without the
  search:
  - one section per course, in course order;
  - valid, meaning every section meets the preferences and no two entries
    conflict;
  - complete: every valid choice is emitted;
  - in lexicographic order of the chosen section indices;
  - empty when some course has no sections.
- `Seqs` (seqs.dfy): concatenation of blocks and mixed-radix arithmetic,
  shared by the search proofs and the lecture × discussion product.
- `OcrImport` (ocr_import.dfy): day-token expansion, time padding,
  section-number normalisation, collection of the sections on a page, and the
  combination of lectures with discussion/lab sections.
- `CourseMerge` (course_merge.dfy): the merge of imported courses. It fills a
  JavaScript `Map` with the known courses, then with the imported ones.
- `Scenarios` (scenarios.dfy): the sample catalogue of backend/data.js
  (MATH340 and CS400) as input, and what the search gives on it, proved.
  - Within 08:00-18:00 it gives four schedules.
  - Without Fridays it gives two.
  - A hypothetical STAT324 section placed at the hours of CS400-LEC-001 is
    never emitted together with CS400-LEC-001. Exactly the choices holding
    both are removed. This STAT324 section is not the catalogue's own
    STAT324.

## Model

| member | source | states |
|---|---|---|
| `Clock.TimeToMinutes` | backend/server.js:11-14 | the minutes since midnight of a time: hours * 60 + minutes; its properties are the rows below (frontend/src/App.jsx:10-13 is the same function) |
| `Clock.TimeOfParts` | backend/server.js:11-14 | a string of hour digits, ':' and minute digits is a time, and it reads as hours * 60 + minutes |
| `Clock.ClockTimeMinutes` | backend/server.js:11-14 | "HH:MM" reads as h * 60 + m |
| `Clock.ClockTimeOrder` | frontend/src/App.jsx:10-13 | times are compared as numbers of minutes: one reads as fewer minutes exactly when it is earlier on the clock (hour first, then minute); `Clock.UnpaddedTimeOrder` shows the numeric comparison differs from the string one for hours of different widths |
| `Clock.UnpaddedTimeOrder` | frontend/src/App.jsx:10-13 | "9:30" reads as 570 minutes and "10:00" as 600, so the earlier time compares smaller as a number although it comes later character by character |
| `Clock.LeadingZero` | frontend/src/App.jsx:190 | a leading '0' leaves a digit string's value unchanged |
| `Clock.LeadingZeroTime` | frontend/src/App.jsx:190 | "0" + t is still a time and reads as the same number of minutes |
| `Intervals.SlotsConflict` | backend/server.js:17-24 | the conflict test: same day and neither meeting ends at or before the other's start; characterised by the four rows below |
| `Intervals.SlotsConflictSymmetric` | backend/server.js:17-24 | conflicts(a, b) == conflicts(b, a) |
| `Intervals.DifferentDaysNeverConflict` | backend/server.js:17-18 | meetings on different days never conflict, whatever their times |
| `Intervals.BackToBackSlotsDoNotConflict` | backend/server.js:19-23 | a meeting ending exactly when another starts does not conflict with it (half-open intervals) |
| `Intervals.SlotsConflictIffSharedMinute` | backend/server.js:19-23 | for meetings of positive length, the test `!(e1 <= s2 \|\| e2 <= s1)` holds exactly when some minute of the same day lies in both |
| `Intervals.SectionsConflictSymmetric` | backend/server.js:27-38 | the section-level conflict relation is symmetric |
| `Intervals.SectionConflictsWithSchedule` | backend/server.js:27-38 | the triple loop with early return answers true iff some meeting of the candidate conflicts with some meeting of some chosen section; with no chosen sections it answers false |
| `Intervals.EarliestBound` | backend/server.js:42 | the earliest-start bound, "00:00" when absent or empty; its value in minutes is in `Intervals.DefaultWindow` |
| `Intervals.LatestBound` | backend/server.js:43 | the latest-end bound, "23:59" when absent or empty; its value in minutes is in `Intervals.DefaultWindow` |
| `Intervals.DefaultWindow` | backend/server.js:42-47 | an absent or empty earliest bound means 0 minutes; an absent or empty latest bound means 23 * 60 + 59 |
| `Intervals.SectionMeetsPreferences` | backend/server.js:41-57 | true iff every meeting is not a Friday when Fridays are excluded, does not start before the earliest bound and does not end after the latest; one bad meeting rejects the section |
| `Intervals.InvertedWindowRejects` | backend/server.js:41-56 | when the earliest bound lies after the latest, a section with any meeting that does not end before it starts is rejected |
| `Intervals.NoMeetingsAlwaysMeets` | backend/server.js:49-57 | a section without meetings meets every preference window, an inverted one included, since the loop never runs |
| `SearchSpec.Candidates` | backend/server.js:67-87 | every one-section-per-course choice in the order the search walks them; counted and indexed by `SearchProps.CandidatesCount` and `SearchProps.CandidateAtRank` |
| `SearchSpec.Schedules` | backend/server.js:61-91 | the compatible choices in walk order; `Search.GenerateSchedules` computes it, and `SearchProps` states what it holds |
| `SearchSpec.Annotate` | backend/server.js:79-83 | the pushed entry: the section with its course's id and name; `SearchProps.ScheduleShape` states that entry i of every schedule is a section of course i annotated this way |
| `SearchSpec.Compatible` | backend/server.js:76-77 | the two tests made before each push, applied to every entry of a schedule against the entries before it; characterised by `SearchSpec.CompatibleSnoc`, `SearchSpec.CompatiblePrefix` and `SearchProps.CompatibleIffValid` |
| `SearchSpec.CompatibleSnoc` | backend/server.js:76-77 | pushing a section keeps a partial schedule compatible iff the section meets the preferences and conflicts with nothing already chosen |
| `SearchSpec.CompatiblePrefix` | backend/server.js:76-77 | every prefix of a compatible schedule is compatible |
| `SearchSpec.FilterIncompatiblePrefix` | backend/server.js:76-77 | no extension of an incompatible partial schedule survives the filter, so pruning at the first failing section loses nothing |
| `SearchSpec.FilterAppend` | backend/server.js:69 | the filter distributes over concatenation, so results appended in order give the filter of the concatenation |
| `SearchSpec.FilterSingleton` | backend/server.js:68-70 | a complete choice is emitted iff it is compatible |
| `SearchSpec.BranchStep` | backend/server.js:75-86 | trying section j of a course appends exactly that section's compatible completions to what sections 0..j-1 produced |
| `SearchSpec.NoBranchesEmitted` | backend/server.js:75 | before any section is tried, nothing has been emitted below the current choice |
| `SearchSpec.AllBranchesEmitted` | backend/server.js:73-86 | after all sections of course i are tried, the loop has emitted every compatible completion of the current choice |
| `SearchSpec.CandidatesAt` | backend/server.js:73-75 | the choices for courses i.. are, for each section of course i in order, that section followed by every choice for courses i+1.. |
| `Search.Backtracker.constructor` | backend/server.js:64-65 | the search starts with an empty buffer and no results |
| `Search.Backtracker.Backtrack` | backend/server.js:67-87 | backtrack(i) appends to results exactly the compatible completions of the buffer, in depth-first order, and leaves the buffer as it found it (every push has its pop) |
| `Search.Backtracker.TrySection` | backend/server.js:75-86 | one turn of the loop: a section that fails the preferences or conflicts is skipped; otherwise it is pushed with its course's id and name, the search recurses, and the buffer is popped back to what it was |
| `Search.Leaf` | backend/server.js:68-70 | once every course has a section, the one result is a copy of the buffer |
| `Search.SkippedBranch` | backend/server.js:76-77 | a skipped section contributes no schedule |
| `Search.TakenBranch` | backend/server.js:79-84 | a section that passes both tests yields a compatible buffer, below which the search continues |
| `Search.GenerateSchedules` | backend/server.js:61-91 | the results are exactly the compatible one-section-per-course choices, in depth-first order (so two runs on the same input give the same output) |
| `SearchProps.RankUnrank` | backend/server.js:67-90 | the choice found at a position has that position: Rank(Unrank(k)) == k |
| `SearchProps.UnrankRank` | backend/server.js:67-90 | the position of a choice leads back to that choice: Unrank(Rank(v)) == v, so positions and choices correspond one to one |
| `SearchProps.UnrankOrder` | backend/server.js:67-90 | a later position in the depth-first order holds a lexicographically greater choice |
| `SearchProps.CandidatesCount` | backend/server.js:67-90 | the search walks exactly the product of the section counts many complete choices |
| `SearchProps.CandidateAtRank` | backend/server.js:67-90 | the choice with section indices v sits at the mixed-radix value of v |
| `SearchProps.CandidateIsPick` | backend/server.js:67-90 | every complete choice walked is one section per course |
| `SearchProps.CompatibleIffValid` | backend/server.js:75-84 | the incremental test (each new section meets the preferences and conflicts with nothing before it) is equivalent to: every section meets the preferences and no two different entries conflict |
| `SearchProps.FilterOrigin` | backend/server.js:69 | every result is one of the walked choices and passed the tests |
| `SearchProps.FilterOrder` | backend/server.js:69 | results keep the order in which the choices were walked |
| `SearchProps.FilterComplete` | backend/server.js:69 | every walked choice that passes the tests is a result |
| `SearchProps.ScheduleShape` | backend/server.js:68-84 | every emitted schedule has one entry per course; entry i is a section of course i carrying that course's id and name; every entry meets the preferences and no two entries conflict |
| `SearchProps.ValidChoiceEmitted` | backend/server.js:67-90 | every valid one-section-per-course choice is emitted |
| `SearchProps.SchedulesInOrder` | backend/server.js:67-90 | the schedules come out in lexicographic order of their section indices |
| `SearchProps.EmptyCourseNoSchedules` | backend/server.js:75 | a course with no sections makes the result empty |
| `SearchProps.ProductZero` | backend/server.js:75 | a course with no sections leaves no complete choice |
| `OcrImport.DaysOf` | frontend/src/App.jsx:182-187 | the days a token expands to; characterised by the four rows below |
| `OcrImport.DayName` | frontend/src/App.jsx:168 | `dayCodeMap`: exactly the codes M, T, W, R and F name a day, each one of Mon..Fri, and only F names Friday |
| `OcrImport.DaysOfWeekdays` | frontend/src/App.jsx:168-187 | every day a token expands to is one of Mon..Fri, at most one per character |
| `OcrImport.DaysOfCodes` | frontend/src/App.jsx:182-187 | a token of day codes yields one day per character, in token order |
| `OcrImport.DaysOfEmpty` | frontend/src/App.jsx:182-188 | a token yields no day exactly when none of its characters is M, T, W, R or F |
| `OcrImport.DaysOfFriday` | frontend/src/App.jsx:168-187 | the expansion names Friday exactly when the token holds an F |
| `OcrImport.ExpandDayToken` | frontend/src/App.jsx:182-187 | the loop pushes the day of each day-code character of the token, in order |
| `OcrImport.Norm` | frontend/src/App.jsx:190-192 | padding keeps the time's value in minutes, turns a four-character "H:MM" into "0H:MM" and leaves other times as they are |
| `OcrImport.ZeroForO` | frontend/src/App.jsx:207 | `replace(/O/g, "0")`: every O becomes 0 and other characters are unchanged; its effect on the stored number is stated by the ensures of `OcrImport.SectionNumber` (no O left, the last three characters of the replaced string, zero-padded when shorter) |
| `OcrImport.PadStart` | frontend/src/App.jsx:208 | `padStart(n, c)`: the result has length max(\|s\|, n), ends with s and is c before it |
| `OcrImport.SliceLast` | frontend/src/App.jsx:208 | `slice(-k)`: the last min(\|s\|, k) characters of s |
| `OcrImport.SectionNumber` | frontend/src/App.jsx:207-208 | the number always has three characters and no letter O: O's become 0's, then the number is zero-padded in front when shorter and keeps its last three characters when longer |
| `OcrImport.SectionNumberValue` | frontend/src/App.jsx:207-208 | a number of at most three digits or O's keeps its decimal value, with O read as 0 |
| `OcrImport.ParseTimesFromLine` | frontend/src/App.jsx:170-195 | gives None without a time range, without a day token or without a day in the last token; otherwise one meeting per day with the padded start and end |
| `OcrImport.TimesOf` | frontend/src/App.jsx:170-195 | the meetings a line yields, or None; characterised by `OcrImport.TimesOfShape` |
| `OcrImport.TimesOfShape` | frontend/src/App.jsx:170-195 | a line yields meetings exactly when it has a time range and its last token has a day code; then there is one meeting per day of that token, untagged, with the line's start and end in minutes |
| `OcrImport.CollectSections` | frontend/src/App.jsx:200-221 | lines with a section and meetings become sections "<type> <number>", lectures and others apart, each in line order |
| `OcrImport.LineSection` | frontend/src/App.jsx:204-214 | the section a line yields: id "<type> <number>" and the line's meetings, or none when the line has no meetings; characterised by `OcrImport.LineSectionShape` |
| `OcrImport.Collected` | frontend/src/App.jsx:200-221 | the lectures, or the other sections, of the lines in line order; `OcrImport.CollectSections` computes it and `OcrImport.CollectedShape` characterises it |
| `OcrImport.LineSectionShape` | frontend/src/App.jsx:207-215 | a line's section has meetings and an id of a three-letter type, a space and three characters |
| `OcrImport.CollectedShape` | frontend/src/App.jsx:200-221 | every collected section has meetings and an id "<type> <3 chars>", and it is a lecture exactly when it was collected as one |
| `OcrImport.Labelled` | frontend/src/App.jsx:236-237 | meetings tagged with a section id; `OcrImport.LabelledPreferences` and `OcrImport.LabelledConflicts` show the tag changes no decision |
| `OcrImport.Paired` | frontend/src/App.jsx:233-239 | the lecture + other section; `OcrImport.PairedPreferences` and `OcrImport.PairedConflicts` relate it to its two parts |
| `OcrImport.Combined` | frontend/src/App.jsx:227-250 | all lecture × other pairings when both kinds exist, otherwise lectures then others; indexed by `OcrImport.CombinedPairs` |
| `OcrImport.CombineSections` | frontend/src/App.jsx:227-250 | the nested loops push every lecture paired with every other section when both exist, otherwise the lectures and then the others unchanged |
| `OcrImport.CombinedPairs` | frontend/src/App.jsx:230-241 | with both kinds present there are \|lectures\| * \|others\| sections in lecture-major order; position i * \|others\| + k has id "<lec> + <other>" and the lecture's meetings tagged with its id followed by the other's tagged with its id |
| `OcrImport.LabelledPreferences` | frontend/src/App.jsx:236-237 | tagging meetings with a section id does not change whether they meet the preferences |
| `OcrImport.LabelledConflicts` | frontend/src/App.jsx:236-237 | tagging meetings with a section id does not change what they conflict with |
| `OcrImport.MeetsAppend` | frontend/src/App.jsx:235-238 | the meetings of two sections put together meet the preferences iff each part does |
| `OcrImport.ConflictsAppend` | frontend/src/App.jsx:235-238 | the meetings of two sections put together conflict with a section iff one part does |
| `OcrImport.PairedPreferences` | frontend/src/App.jsx:233-239 | a lecture + discussion pairing meets the preferences iff both its sections do |
| `OcrImport.PairedConflicts` | frontend/src/App.jsx:233-239 | a lecture + discussion pairing conflicts with a section iff one of its two sections does |
| `OcrImport.ParsedCourses` | frontend/src/App.jsx:223-259 | no course when no line yields a section; otherwise one course with the header's id and name and the combined sections |
| `CourseMerge.Put` | frontend/src/App.jsx:314 | `Map.set`: a new key goes at the end, a known key keeps its place and takes the new value; it keeps the map well formed (`CourseMerge.PutWf`) |
| `CourseMerge.Values` | frontend/src/App.jsx:336 | `Array.from(map.values())`: the values in key order |
| `CourseMerge.AddSections` | frontend/src/App.jsx:325-332 | the section merge: an imported section is appended unless its id is already present; characterised by the `AddSections` rows below |
| `CourseMerge.HasSectionId` | frontend/src/App.jsx:327 | the `.some` duplicate test: some section of the list has the id; `CourseMerge.AddSectionsIds` relates it before and after the section merge |
| `CourseMerge.MergeOne` | frontend/src/App.jsx:319-333 | one turn of the loop over imported courses: `Map.set` of the course when its id is new, otherwise of the known course with the sections merged; keeps the map well formed (`CourseMerge.MergeOneWf`) and is characterised by `CourseMerge.MergeOneCourse` and `CourseMerge.MergeOneIdempotent` |
| `CourseMerge.MergeOneWf` | frontend/src/App.jsx:319-333 | one turn of the loop leaves each id once in the map, filed under its own course |
| `CourseMerge.MergeAllOne` | frontend/src/App.jsx:318-334 | the loop over a single imported course is that course's turn |
| `CourseMerge.MergeImported` | frontend/src/App.jsx:310-337 | the two loops over the known and the imported courses build the course map, and the new list is its values in key order |
| `CourseMerge.Merged` | frontend/src/App.jsx:310-337 | the new course list: the values, in key order, of the map filled with the known and then the imported courses; `CourseMerge.MergeImported` computes it, and `CourseMerge.MergedIdsDistinct`, `CourseMerge.MergeOneCourse` and `CourseMerge.MergeOneIdempotent` characterise it |
| `CourseMerge.WithKnown` | frontend/src/App.jsx:312-315 | filling the map with the known courses leaves each id once, filed under its own course |
| `CourseMerge.MergeAll` | frontend/src/App.jsx:318-334 | merging imported courses keeps each id once, filed under its own course |
| `CourseMerge.MergedIdsDistinct` | frontend/src/App.jsx:312-336 | the merged list has one course per course id |
| `CourseMerge.WithKnownValues` | frontend/src/App.jsx:312-315 | with distinct ids, the map of the known courses lists them in their own order |
| `CourseMerge.MergeOneCourse` | frontend/src/App.jsx:318-336 | with distinct known ids, merging one imported course either appends it, when its id is new, or leaves every course in place and gives the known course with that id its sections followed by the imported sections it lacks |
| `CourseMerge.AddSectionsIds` | frontend/src/App.jsx:325-332 | after the section merge, an id is present iff it was among the known or the imported sections |
| `CourseMerge.AddSectionsIsKept` | frontend/src/App.jsx:325-332 | the merged sections are the known sections as a prefix, then each imported section whose id is in neither the known sections nor the imported sections before it, in order |
| `CourseMerge.AddSectionsNoDuplicates` | frontend/src/App.jsx:325-332 | no appended section repeats an id already present, and every imported id ends up present |
| `CourseMerge.AddSectionsPresent` | frontend/src/App.jsx:326-331 | merging sections whose ids are all present changes nothing |
| `CourseMerge.AddSectionsIdempotent` | frontend/src/App.jsx:325-332 | merging the same sections twice gives what merging them once gave |
| `CourseMerge.MergeOneIdempotent` | frontend/src/App.jsx:318-336 | importing the same course a second time adds no course and no section |
| `Scenarios.WeeklyMeets` | backend/server.js:49-55 | a section meeting on some days at one time meets the preferences when it lies inside the window and avoids Friday whenever Fridays are excluded |
| `Scenarios.WeeklyOnFriday` | backend/server.js:50 | such a section with a Friday meeting fails when Fridays are excluded |
| `Scenarios.WeeklyApart` | backend/server.js:17-38 | two such sections conflict with each other in no meeting when they share no day or one ends before the other starts |
| `Scenarios.MathLecturesMeet` | backend/data.js:5-25 | within 08:00-18:00, MATH340-LEC-001 (Mon/Wed/Fri 09:55-10:45) fits exactly when Fridays are allowed, and MATH340-LEC-002 (Tue/Thu 13:00-14:15) always fits |
| `Scenarios.CsLecturesMeet` | backend/data.js:26-45 | both CS400 lectures fit in 08:00-18:00, with or without Fridays, and so does a STAT324 section at the hours of CS400-LEC-001 |
| `Scenarios.CsApartFromMath` | backend/data.js:5-45 | no CS400 lecture conflicts with a MATH340 lecture |
| `Scenarios.StatClash` | backend/server.js:17-38 | a STAT324 section meeting Mon/Wed 11:00-12:15 conflicts with CS400-LEC-001 |
| `Scenarios.StatApart` | backend/server.js:17-38 | that section conflicts with neither Tue/Thu lecture |
| `Scenarios.CandidatesConsOne` | backend/server.js:73-86 | a course of one section in front of others: that section followed by every choice for the others |
| `Scenarios.CandidatesConsTwo` | backend/server.js:73-86 | a course of two sections in front of others: the choices under its first section, then those under its second |
| `Scenarios.CandidatesTwoTwoOne` | backend/server.js:67-87 | courses of two, two and one sections are walked as four choices, the first course varying slowest |
| `Scenarios.TripleCompatible` | backend/server.js:75-84 | a three-course choice passes the tests iff its first two entries do and the third fits the preferences and conflicts with neither |
| `Scenarios.CandidatesTwoByTwo` | backend/server.js:67-87 | two courses of two sections each are walked as the four pairings, the first course's section varying slowest |
| `Scenarios.PairCompatible` | backend/server.js:75-84 | a pairing passes the search's tests iff both sections meet the preferences and the second does not conflict with the first |
| `Scenarios.FilterFour` | backend/server.js:68-70 | of four walked choices, exactly the compatible ones are kept, in order |
| `Scenarios.SchedulesTwoByTwo` | backend/server.js:61-91 | the schedules for two courses of two sections are the compatible ones of the four pairings, in walk order |
| `Scenarios.TwoByTwoAllKept` | backend/server.js:61-91 | when every section fits and no pair conflicts, all four pairings are emitted |
| `Scenarios.TwoByTwoFirstDropped` | backend/server.js:61-91 | when only the first course's first section fails, only the two pairings with its second section are emitted |
| `Scenarios.AllFourPairings` | backend/server.js:61-91 | MATH340 and CS400 within 08:00-18:00 give exactly four schedules, listed in depth-first order |
| `Scenarios.NoFridayTwoPairings` | backend/server.js:61-91 | with Fridays excluded they give exactly two schedules, both with MATH340-LEC-002 |
| `Scenarios.ClashNeverEmitted` | backend/server.js:75-84 | with the clashing STAT324 section added, no schedule holds both it and CS400-LEC-001 |
| `Scenarios.TwoTwoOneWithClash` | backend/server.js:61-91 | when the third course's section clashes with the second course's first section, the emitted schedules are the second-section choices with the first course's first section (when it fits and does not clash) and with its second section |
| `Scenarios.ClashSchedules` | backend/server.js:61-91 | with the clashing STAT324 section added, the schedules are exactly the CS400-LEC-002 choices: with both MATH340 lectures when Fridays are allowed, with MATH340-LEC-002 only when they are not |

## Left out

- HTTP transport is not modelled: the Express app, CORS, JSON parsing, the
  `/api/courses` route, the 400 "No courses provided" answer and `listen`
  (backend/server.js:1-8, 93-117). So is the client's network call
  (frontend/src/api.js).
- The seed data in backend/data.js serves only as input to the scenarios.
  The route that serves it, and its STAT324 course, are not modelled.
- The UI is not modelled: React state and hooks, alerts, JSX, the calendar
  layout (floating-point geometry) and the Tesseract OCR call.
- The text matching in `parseCoursesFromText` is not modelled. This covers
  upper-casing, line splitting, course-header detection and the regular
  expressions that find a section type and number, a time range and day
  tokens on a line. A line arrives as the pieces those matches extract
  (`SectionLine`), and the course id and name arrive as parameters.
- `Clock.TimeToMinutes` reads every digit string exactly. JavaScript's
  `Number` reads each part as a double, so parts above 2^53 round and parts
  of more than about 308 digits become Infinity. The client never sends such
  times, but the route accepts any JSON.
- `Intervals.DefaultWindow` states the defaults of the two time bounds only.
  The `noFriday` field is a `bool` standing for `!!prefs.noFriday`
  (backend/server.js:44): an absent field is encoded as false, and
  non-boolean JSON values (`"false"`, `1`) are not modelled.
- Malformed times are not modelled. `Number` turns a bad string into NaN,
  and comparisons with NaN are all false. A time here is always
  digits ':' digits (the `Time` type), and an empty preference bound is the
  only non-time a bound may be.
- An inverted window (earliest bound after latest) does not reject every
  section. It rejects each section with a meeting that does not end before it
  starts (`Intervals.InvertedWindowRejects`), but a section without meetings
  passes any window (`Intervals.NoMeetingsAlwaysMeets`), because the loop of
  backend/server.js:49-56 never runs for it. The model follows the code.
- Day names are strings, as in the source. A meeting may carry any day
  string, and only "Fri" is treated specially.
- The `type` field of a scraped section is not modelled: the sections the
  page yields do not carry it.
- `CourseMerge.MergeOneCourse` is stated for a single imported course, which
  is all one page yields (`OcrImport.ParsedCourses` gives at most one). It also
  assumes known course ids are all different. For any number of imported
  courses and any known list, `CourseMerge.MergeImported` and
  `CourseMerge.MergedIdsDistinct` still hold. Known courses that share an id
  (the manual "add course" path can create them) collapse into one entry at
  the first one's place, holding the last one's value.
- `CourseMerge.MergeOneIdempotent` is stated for a single imported course,
  for the same reason.
