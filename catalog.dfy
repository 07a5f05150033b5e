/** The course data that the scheduler's client sends and the search and
    the import both work on. */
module Catalog {
  import opened Clock

  datatype Option<T> = None | Some(value: T)

  /** One weekly meeting. `day` is the day name ("Mon" ... "Fri"); `tag`
      (the source's `label`, a Dafny keyword) is a free-form tag that no
      decision ever consults. */
  datatype Occurrence = Occurrence(day: string, start: Time, end: Time, tag: Option<string>)

  /** One schedulable offering of a course. */
  datatype Section = Section(sectionId: string, times: seq<Occurrence>)

  datatype Course = Course(courseId: string, name: string, sections: seq<Section>)

  /** The client's preference window; an absent bound and an empty bound
      both mean "no bound". */
  datatype Preferences = Preferences(earliest: Option<TimeOrEmpty>, latest: Option<TimeOrEmpty>, noFriday: bool)

  /** A section as the search emits it: the section's own fields together
      with the id and name of the course it was chosen for. */
  datatype ChosenSection = ChosenSection(section: Section, courseId: string, courseName: string)
}
