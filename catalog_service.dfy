/**
 * The catalog service over constant tables: whole-table listers, the course
 * filter and course lookup.
 */
module CatalogService {
  import opened Wrappers
  import opened Seqs
  import opened Domain

  /** The optional filters `listCourses` accepts; `yearId` is accepted and ignored. */
  datatype CourseFilters = CourseFilters(majorId: Option<string>, yearId: Option<string>, semesterId: Option<string>)

  /** The predicate `listCourses` filters by. */
  predicate Matches(c: Course, filters: CourseFilters) {
    && !(Given(filters.majorId) && c.majorId != filters.majorId.value)
    && !(Given(filters.semesterId) && c.semesterId != filters.semesterId.value)
  }

  /** `listCourses(filters)`. */
  function ListCourses(courses: seq<Course>, filters: CourseFilters): (r: seq<Course>)
    ensures IsSubsequence(r, courses)
    ensures Given(filters.majorId) ==> forall c :: c in r ==> c.majorId == filters.majorId.value
    ensures Given(filters.semesterId) ==> forall c :: c in r ==> c.semesterId == filters.semesterId.value
    ensures forall c :: c in courses && Matches(c, filters) ==> c in r
    ensures forall c {:trigger multiset(r)[c]} :: multiset(r)[c] == if Matches(c, filters) then multiset(courses)[c] else 0
    ensures !Given(filters.majorId) && !Given(filters.semesterId) ==> r == courses
  {
    var r := Filter(courses, (c: Course) => Matches(c, filters));
    assert !Given(filters.majorId) && !Given(filters.semesterId) ==> r == courses by {
      if !Given(filters.majorId) && !Given(filters.semesterId) {
        FilterKeepsAll(courses, (c: Course) => Matches(c, filters));
      }
    }
    r
  }

  /** The year filter has no effect on the course listing. */
  lemma ListCoursesIgnoresYear(courses: seq<Course>, filters: CourseFilters, yearId: Option<string>)
    ensures ListCourses(courses, filters.(yearId := yearId)) == ListCourses(courses, filters)
  {
    var other := filters.(yearId := yearId);
    assert ListCourses(courses, other) == Filter(courses, (c: Course) => Matches(c, other));
    assert ListCourses(courses, filters) == Filter(courses, (c: Course) => Matches(c, filters));
    FilterCongruent(courses, (c: Course) => Matches(c, other), (c: Course) => Matches(c, filters));
  }

  /** `getCourse(id)`: the first course with the id, or `None` for `undefined`. */
  function GetCourse(courses: seq<Course>, courseId: string): (r: Option<Course>)
    ensures r.Some? ==> exists i :: 0 <= i < |courses| && courses[i] == r.value && r.value.id == courseId &&
                                    forall j :: 0 <= j < i ==> courses[j].id != courseId
    ensures r.None? <==> forall c :: c in courses ==> c.id != courseId
  {
    Find(courses, (c: Course) => c.id == courseId)
  }

  /** `listMajors()`: the whole table. */
  function ListMajors(majors: seq<Major>): (r: seq<Major>)
    ensures r == majors
  {
    majors
  }

  /** `listYears(majorId)`: the whole table, whatever the major. */
  function ListYears(years: seq<AcademicYear>, majorId: Option<string>): (r: seq<AcademicYear>)
    ensures r == years
  {
    years
  }

  /** `listSemesters(majorId)`: the whole table, whatever the major. */
  function ListSemesters(semesters: seq<Semester>, majorId: Option<string>): (r: seq<Semester>)
    ensures r == semesters
  {
    semesters
  }

  /** `listLecturers({courseId})`: the whole table, whatever the course. */
  function ListLecturers(lecturers: seq<Lecturer>, courseId: Option<string>): (r: seq<Lecturer>)
    ensures r == lecturers
  {
    lecturers
  }
}
