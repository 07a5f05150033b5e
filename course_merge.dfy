/** The client's merge of imported courses into its course list: a
    JavaScript Map keyed by course id is filled with the courses already
    known and then with the imported ones; a course already known keeps its
    place and gains the imported sections whose ids it does not have yet. */
module CourseMerge {
  import opened Catalog

  // ---------------------------------------------------------------------
  // A JavaScript Map from course ids to courses

  /** The keys in insertion order and the entry of each key. */
  datatype CourseMap = CourseMap(keys: seq<string>, entries: map<string, Course>)

  predicate Distinct(ks: seq<string>) {
    forall i, j :: 0 <= i < j < |ks| ==> ks[i] != ks[j]
  }

  /** Each key once, exactly the keys with an entry, and every entry filed
      under its own course id. */
  ghost predicate Wf(m: CourseMap) {
    && Distinct(m.keys)
    && (forall k :: k in m.entries <==> k in m.keys)
    && (forall k :: k in m.entries ==> m.entries[k].courseId == k)
  }

  const EMPTY := CourseMap([], map[])

  /** map.set(key, c): a new key goes to the end, a known key keeps its
      place and takes the new entry. */
  function Put(m: CourseMap, key: string, c: Course): CourseMap {
    if key in m.entries then CourseMap(m.keys, m.entries[key := c])
    else CourseMap(m.keys + [key], m.entries[key := c])
  }

  lemma PutWf(m: CourseMap, c: Course)
    requires Wf(m)
    ensures Wf(Put(m, c.courseId, c))
  {
  }

  /** Array.from(map.values()): the entries in key order. */
  function Values(m: CourseMap): seq<Course>
    requires forall k :: k in m.keys ==> k in m.entries
  {
    seq(|m.keys|, i requires 0 <= i < |m.keys| => m.entries[m.keys[i]])
  }

  function Ids(cs: seq<Course>): seq<string> {
    seq(|cs|, i requires 0 <= i < |cs| => cs[i].courseId)
  }

  // ---------------------------------------------------------------------
  // The merge, as functions

  /** The map after the loop over the known courses. */
  function WithKnown(prev: seq<Course>): (m: CourseMap)
    ensures Wf(m)
  {
    if prev == [] then EMPTY
    else
      var c := prev[|prev| - 1];
      PutWf(WithKnown(prev[..|prev| - 1]), c);
      Put(WithKnown(prev[..|prev| - 1]), c.courseId, c)
  }

  /** Some section of ss has the id. */
  predicate HasSectionId(ss: seq<Section>, id: string) {
    exists s :: s in ss && s.sectionId == id
  }

  /** The loop over an imported course's sections: each one whose id the
      list does not have yet is appended. */
  function AddSections(existing: seq<Section>, ns: seq<Section>): seq<Section> {
    if ns == [] then existing
    else
      var acc := AddSections(existing, ns[..|ns| - 1]);
      var s := ns[|ns| - 1];
      if HasSectionId(acc, s.sectionId) then acc else acc + [s]
  }

  /** One imported course: added as it is when its id is new, otherwise
      its sections are merged into the known course's. */
  function MergeOne(m: CourseMap, nc: Course): CourseMap {
    if nc.courseId !in m.entries then Put(m, nc.courseId, nc)
    else
      var existing := m.entries[nc.courseId];
      Put(m, nc.courseId, existing.(sections := AddSections(existing.sections, nc.sections)))
  }

  lemma MergeOneWf(m: CourseMap, nc: Course)
    requires Wf(m)
    ensures Wf(MergeOne(m, nc))
  {
    if nc.courseId in m.entries {
      var existing := m.entries[nc.courseId];
      PutWf(m, existing.(sections := AddSections(existing.sections, nc.sections)));
    }
  }

  /** The map after the loop over the imported courses. */
  function MergeAll(m: CourseMap, parsed: seq<Course>): (r: CourseMap)
    requires Wf(m)
    ensures Wf(r)
  {
    if parsed == [] then m
    else
      var r := MergeAll(m, parsed[..|parsed| - 1]);
      MergeOneWf(r, parsed[|parsed| - 1]);
      MergeOne(r, parsed[|parsed| - 1])
  }

  /** The new course list. */
  function Merged(prev: seq<Course>, parsed: seq<Course>): seq<Course> {
    Values(MergeAll(WithKnown(prev), parsed))
  }

  // ---------------------------------------------------------------------
  // The merge, as the client runs it

  /** The state updater passed to setCourses in handleImportCoursesFromOcr. */
  method MergeImported(prev: seq<Course>, parsed: seq<Course>) returns (merged: seq<Course>)
    ensures merged == Merged(prev, parsed)
  {
    var keys: seq<string> := [];
    var entries: map<string, Course> := map[];
    for i := 0 to |prev|
      invariant CourseMap(keys, entries) == WithKnown(prev[..i])
    {
      assert prev[..i + 1][..i] == prev[..i];
      var c := prev[i];
      if c.courseId !in entries {
        keys := keys + [c.courseId];
      }
      entries := entries[c.courseId := Course(c.courseId, c.name, c.sections)];
    }
    assert prev[..|prev|] == prev;
    ghost var start := CourseMap(keys, entries);
    for i := 0 to |parsed|
      invariant Wf(CourseMap(keys, entries))
      invariant CourseMap(keys, entries) == MergeAll(start, parsed[..i])
    {
      assert parsed[..i + 1][..i] == parsed[..i];
      var nc := parsed[i];
      if nc.courseId !in entries {
        keys := keys + [nc.courseId];
        entries := entries[nc.courseId := nc];
      } else {
        var existing := entries[nc.courseId];
        var mergedSections := existing.sections;
        for k := 0 to |nc.sections|
          invariant mergedSections == AddSections(existing.sections, nc.sections[..k])
        {
          assert nc.sections[..k + 1][..k] == nc.sections[..k];
          var ns := nc.sections[k];
          var dup := HasSectionId(mergedSections, ns.sectionId);
          if !dup {
            mergedSections := mergedSections + [ns];
          }
        }
        assert nc.sections[..|nc.sections|] == nc.sections;
        entries := entries[nc.courseId := existing.(sections := mergedSections)];
      }
      MergeOneWf(MergeAll(start, parsed[..i]), nc);
    }
    assert parsed[..|parsed|] == parsed;
    merged := seq(|keys|, i requires 0 <= i < |keys| => entries[keys[i]]);
  }

  // ---------------------------------------------------------------------
  // What the merge promises

  /** The merged list has one course per id. */
  lemma MergedIdsDistinct(prev: seq<Course>, parsed: seq<Course>)
    ensures Distinct(Ids(Merged(prev, parsed)))
  {
    var m := MergeAll(WithKnown(prev), parsed);
    assert Ids(Values(m)) == m.keys;
  }

  /** The sections of a known course after the merge: its own sections, in
      their order, then each imported section whose id is neither among
      them nor among the imported sections before it, in import order. */
  function Kept(existing: seq<Section>, ns: seq<Section>): seq<Section> {
    if ns == [] then []
    else
      var n := |ns| - 1;
      Kept(existing, ns[..n]) + if HasSectionId(existing + ns[..n], ns[n].sectionId) then [] else [ns[n]]
  }

  lemma {:induction false} AddSectionsIds(existing: seq<Section>, ns: seq<Section>, id: string)
    ensures HasSectionId(AddSections(existing, ns), id) <==> HasSectionId(existing + ns, id)
  {
    if ns != [] {
      var n := |ns| - 1;
      var init := ns[..n];
      AddSectionsIds(existing, init, id);
      AddSectionsIds(existing, init, ns[n].sectionId);
      var acc := AddSections(existing, init);
      assert existing + ns == (existing + init) + [ns[n]];
      if HasSectionId(existing + ns, id) {
        var s :| s in existing + ns && s.sectionId == id;
        if s !in existing + init {
          assert s == ns[n];
          if !HasSectionId(acc, id) {
            assert s in AddSections(existing, ns);
          }
        }
      }
      if HasSectionId(AddSections(existing, ns), id) {
        var s :| s in AddSections(existing, ns) && s.sectionId == id;
        if s !in acc {
          assert s == ns[n];
          assert s in existing + ns;
        }
      }
    }
  }

  /** The section merge is exactly the known sections followed by the kept
      imported ones. */
  lemma {:induction false} AddSectionsIsKept(existing: seq<Section>, ns: seq<Section>)
    ensures AddSections(existing, ns) == existing + Kept(existing, ns)
  {
    if ns != [] {
      var n := |ns| - 1;
      AddSectionsIsKept(existing, ns[..n]);
      AddSectionsIds(existing, ns[..n], ns[n].sectionId);
    }
  }

  /** No kept section repeats the id of a known section or of a kept
      section before it, and every imported id ends up present. */
  lemma {:induction false} AddSectionsNoDuplicates(existing: seq<Section>, ns: seq<Section>)
    ensures var r := AddSections(existing, ns);
      && (forall k :: |existing| <= k < |r| ==> r[k] in ns && !HasSectionId(r[..k], r[k].sectionId))
      && (forall s :: s in ns ==> HasSectionId(r, s.sectionId))
  {
    var r := AddSections(existing, ns);
    AddSectionsIsKept(existing, ns);
    if ns != [] {
      var n := |ns| - 1;
      var acc := AddSections(existing, ns[..n]);
      AddSectionsIsKept(existing, ns[..n]);
      AddSectionsNoDuplicates(existing, ns[..n]);
      assert |acc| >= |existing|;
      forall k | |existing| <= k < |r| ensures r[k] in ns && !HasSectionId(r[..k], r[k].sectionId) {
        if k < |acc| {
          assert r[..k] == acc[..k];
          assert r[k] == acc[k];
        } else {
          assert r[..k] == acc;
        }
      }
      forall s | s in ns ensures HasSectionId(r, s.sectionId) {
        AddSectionsIds(existing, ns, s.sectionId);
        assert s in existing + ns;
      }
    }
  }

  /** Merging sections whose ids are all present changes nothing. */
  lemma {:induction false} AddSectionsPresent(existing: seq<Section>, ns: seq<Section>)
    requires forall s :: s in ns ==> HasSectionId(existing, s.sectionId)
    ensures AddSections(existing, ns) == existing
  {
    if ns != [] {
      AddSectionsPresent(existing, ns[..|ns| - 1]);
    }
  }

  /** Merging the same sections twice gives what merging them once gave. */
  lemma AddSectionsIdempotent(existing: seq<Section>, ns: seq<Section>)
    ensures AddSections(AddSections(existing, ns), ns) == AddSections(existing, ns)
  {
    AddSectionsNoDuplicates(existing, ns);
    AddSectionsPresent(AddSections(existing, ns), ns);
  }

  // ---------------------------------------------------------------------
  // Merging one imported course (what one scraped page yields)

  /** With known course ids all different, the map of the known courses
      lists them in their order. */
  lemma {:induction false} WithKnownValues(prev: seq<Course>)
    requires Distinct(Ids(prev))
    ensures WithKnown(prev).keys == Ids(prev)
    ensures Values(WithKnown(prev)) == prev
  {
    if prev != [] {
      var init := prev[..|prev| - 1];
      var c := prev[|prev| - 1];
      assert Ids(prev) == Ids(init) + [c.courseId];
      DistinctSnoc(Ids(init), c.courseId);
      WithKnownValues(init);
      ValuesPutNew(WithKnown(init), c);
      assert prev == init + [c];
    }
  }

  lemma DistinctSnoc(ks: seq<string>, k: string)
    requires Distinct(ks + [k])
    ensures Distinct(ks) && k !in ks
  {
    var all := ks + [k];
    forall i | 0 <= i < |ks| ensures ks[i] != k {
      assert all[i] == ks[i] && all[|ks|] == k;
    }
    forall i, j | 0 <= i < j < |ks| ensures ks[i] != ks[j] {
      assert all[i] == ks[i] && all[j] == ks[j];
    }
  }

  /** Putting a new key appends its entry to the values. */
  lemma ValuesPutNew(m: CourseMap, c: Course)
    requires Wf(m) && c.courseId !in m.keys
    ensures Values(Put(m, c.courseId, c)) == Values(m) + [c]
  {
    var r := Put(m, c.courseId, c);
    assert r.keys == m.keys + [c.courseId];
    forall i | 0 <= i < |m.keys| ensures Values(r)[i] == Values(m)[i] {
      assert r.keys[i] == m.keys[i] != c.courseId;
    }
  }

  /** Merging one imported course into a list of courses with different
      ids: a new id is appended with the course as imported; a known id
      keeps its place, its name and its sections, and gains the imported
      sections it does not have. Every other course stays as it was. */
  lemma MergeOneCourse(prev: seq<Course>, nc: Course)
    requires Distinct(Ids(prev))
    ensures nc.courseId !in Ids(prev) ==> Merged(prev, [nc]) == prev + [nc]
    ensures forall i :: 0 <= i < |prev| && prev[i].courseId == nc.courseId ==>
      Merged(prev, [nc]) == prev[i := prev[i].(sections := AddSections(prev[i].sections, nc.sections))]
  {
    WithKnownValues(prev);
    var m := WithKnown(prev);
    MergeAllOne(m, nc);
    if nc.courseId !in Ids(prev) {
      ValuesPutNew(m, nc);
    }
    forall i | 0 <= i < |prev| && prev[i].courseId == nc.courseId
      ensures Merged(prev, [nc]) == prev[i := prev[i].(sections := AddSections(prev[i].sections, nc.sections))]
    {
      assert m.keys[i] == nc.courseId;
      ValuesPutKnown(m, i, prev[i].(sections := AddSections(prev[i].sections, nc.sections)));
    }
  }

  lemma MergeAllOne(m: CourseMap, nc: Course)
    requires Wf(m)
    ensures MergeAll(m, [nc]) == MergeOne(m, nc)
  {
    assert [nc][..0] == [];
  }

  /** Putting a known key replaces its entry in place. */
  lemma ValuesPutKnown(m: CourseMap, i: nat, c: Course)
    requires Wf(m) && i < |m.keys| && m.keys[i] == c.courseId
    ensures Values(Put(m, c.courseId, c)) == Values(m)[i := c]
  {
    var r := Put(m, c.courseId, c);
    forall j | 0 <= j < |m.keys| && j != i ensures Values(r)[j] == Values(m)[j] {
      assert m.keys[j] != m.keys[i];
    }
  }

  /** Importing the same page twice adds nothing the first import did not:
      no course and no section. */
  lemma MergeOneIdempotent(prev: seq<Course>, nc: Course)
    ensures Merged(Merged(prev, [nc]), [nc]) == Merged(prev, [nc])
  {
    var m := WithKnown(prev);
    MergeAllOne(m, nc);
    var r := MergeOne(m, nc);
    var once := Values(r);
    MergedIdsDistinct(prev, [nc]);
    assert Ids(once) == r.keys;
    var i :| 0 <= i < |r.keys| && r.keys[i] == nc.courseId;
    assert once[i] == r.entries[nc.courseId];
    MergeOneCourse(once, nc);
    if nc.courseId in m.entries {
      AddSectionsIdempotent(m.entries[nc.courseId].sections, nc.sections);
    } else {
      forall s | s in nc.sections ensures HasSectionId(nc.sections, s.sectionId) {
      }
      AddSectionsPresent(nc.sections, nc.sections);
    }
    assert once[i := once[i]] == once;
  }
}
