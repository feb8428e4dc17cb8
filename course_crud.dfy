/** The course table (`app/crud/course.py`).

    A course may be deleted only while no schedule refers to it; the
    relation `Course.schedules` is read here from the schedule table. A
    course an instructor is assigned to cannot be deleted either: the
    commit fails on the `instructor_course` rows.
    `CourseUpdate` extends the base schema, so both fields are required
    and every update writes both.
 */
module CourseCrud {
  import opened Values
  import opened Clock
  import opened Tables
  import opened ScheduleCrud

  datatype Course = Course(courseName: string, sks: int, createdAt: DateTime)

  /** The body of `CourseCreate` and of `CourseUpdate`. */
  datatype CourseRequest = CourseRequest(courseName: string, sks: int)

  /** What the request schema accepts (`sks` must be positive, the name at
      most 100 characters); anything else is refused before the table is
      touched. */
  predicate Accepted(req: CourseRequest) {
    req.sks > 0 && |req.courseName| <= 100
  }

  function NotFoundError(id: int): HttpError {
    HttpError(NotFound, "Course with ID " + IntToString(id) + " not found")
  }

  function InUseError(id: int): HttpError {
    HttpError(BadRequest, "Course with ID " + IntToString(id)
                          + " cannot be deleted because it is currently in use (has associated schedules)")
  }

  /** `get_course_by_id`. */
  function GetCourse(rows: map<int, Course>, id: int): (r: Result<Course>)
    ensures r.Ok? <==> id in rows
    ensures r.Ok? ==> r.value == rows[id]
    ensures r.Err? ==> r.error == NotFoundError(id) && r.error.status == NotFound
  {
    if id in rows then Ok(rows[id]) else Err(NotFoundError(id))
  }

  /** `db_course.schedules` is not empty. */
  predicate Scheduled(schedules: map<int, Schedule>, courseId: int) {
    exists sid :: sid in schedules && schedules[sid].courseId == courseId
  }

  /** Every schedule names a course that exists. */
  predicate CoursesResolve(schedules: map<int, Schedule>, rows: map<int, Course>) {
    forall sid :: sid in schedules ==> schedules[sid].courseId in rows
  }

  function UpdateSpec(rows: map<int, Course>, id: int, req: CourseRequest): (Result<Course>, map<int, Course>) {
    match GetCourse(rows, id)
    case Err(e) => (Err(e), rows)
    case Ok(c) =>
      var c' := c.(courseName := req.courseName, sks := req.sks);
      (Ok(c'), rows[id := c'])
  }

  /** `delete_course`, given the schedule table and the `course_id` column
      of `instructor_course`. `Course.instructors` has no delete cascade and
      its column is NOT NULL, so a course that passes the schedule check but
      has an assignment is not deleted: the commit fails. */
  function DeleteSpec(rows: map<int, Course>, id: int, schedules: map<int, Schedule>, instructorLinks: map<int, int>)
    : (Result<Course>, map<int, Course>)
  {
    match GetCourse(rows, id)
    case Err(e) => (Err(e), rows)
    case Ok(c) =>
      if Scheduled(schedules, id) then (Err(InUseError(id)), rows)
      else if Referenced(instructorLinks, id) then (Err(CommitFailed), rows)
      else (Ok(c), rows - {id})
  }

  /** 404 for an unknown id; otherwise both fields are replaced and the
      creation time kept. */
  lemma UpdateReplacesFields(rows: map<int, Course>, id: int, req: CourseRequest)
    ensures var (r, after) := UpdateSpec(rows, id, req);
            (r.Err? <==> id !in rows)
            && (r.Err? ==> r.error == NotFoundError(id) && after == rows)
            && (r.Ok? ==> r.value == Course(req.courseName, req.sks, rows[id].createdAt)
                          && after == rows[id := r.value])
  {
  }

  /** The refusals: while a schedule refers to the course, deleting it is a
      400; while an instructor is assigned to it, the commit fails with a
      500; either way the table keeps it. Otherwise the course is removed
      and returned. */
  lemma DeleteRefusedWhileScheduled(rows: map<int, Course>, id: int, schedules: map<int, Schedule>,
                                    instructorLinks: map<int, int>)
    ensures var (r, after) := DeleteSpec(rows, id, schedules, instructorLinks);
            (id !in rows ==> r == Err(NotFoundError(id)) && after == rows)
            && (id in rows && Scheduled(schedules, id) ==> r == Err(InUseError(id)) && after == rows)
            && (id in rows && !Scheduled(schedules, id) && Referenced(instructorLinks, id) ==>
                  r == Err(CommitFailed) && after == rows)
            && (id in rows && !Scheduled(schedules, id) && !Referenced(instructorLinks, id) ==>
                  r == Ok(rows[id]) && after == rows - {id})
  {
  }

  /** What the guard and the NOT NULL column are for: deleting never
      leaves a schedule or an assignment pointing at a course that is gone. */
  lemma DeleteKeepsCoursesResolved(rows: map<int, Course>, id: int, schedules: map<int, Schedule>,
                                   instructorLinks: map<int, int>)
    requires CoursesResolve(schedules, rows) && Resolved(instructorLinks, rows)
    ensures CoursesResolve(schedules, DeleteSpec(rows, id, schedules, instructorLinks).1)
    ensures Resolved(instructorLinks, DeleteSpec(rows, id, schedules, instructorLinks).1)
  {
    var (r, after) := DeleteSpec(rows, id, schedules, instructorLinks);
    if r.Ok? {
      DeleteParentKeepsResolved(rows, id, instructorLinks);
      assert after == DeleteParent(rows, id, instructorLinks).1;
      forall sid | sid in schedules
        ensures schedules[sid].courseId in after
      {
        assert schedules[sid].courseId != id;
      }
    }
  }

  class CourseTable {
    var rows: map<int, Course>
    var nextId: int

    ghost predicate Valid()
      reads this
    {
      nextId >= 1 && KeysBelow(rows.Keys, nextId)
      && forall id :: id in rows ==> rows[id].sks > 0
    }

    constructor ()
      ensures Valid() && rows == map[]
    {
      rows := map[];
      nextId := 1;
    }

    /** `create_course`. */
    method Create(req: CourseRequest, clock: Clock) returns (id: int)
      requires Valid() && Accepted(req)
      modifies this
      ensures Valid()
      ensures id == old(nextId) && id !in old(rows)
      ensures rows == old(rows)[id := Course(req.courseName, req.sks, clock.jakarta)]
    {
      id := nextId;
      rows := rows[id := Course(req.courseName, req.sks, clock.jakarta)];
      nextId := nextId + 1;
    }

    /** `update_course`: the setattr loop over both fields. */
    method Update(id: int, req: CourseRequest) returns (r: Result<Course>)
      requires Valid() && Accepted(req)
      modifies this
      ensures Valid() && nextId == old(nextId)
      ensures (r, rows) == UpdateSpec(old(rows), id, req)
    {
      r := GetCourse(rows, id);
      if r.Err? {
        return;
      }
      var c := r.value;
      c := c.(courseName := req.courseName);
      c := c.(sks := req.sks);
      rows := rows[id := c];
      r := Ok(c);
    }

    /** `delete_course`, given the schedule table it is guarded by and the
      assignments that make its commit fail. */
    method Delete(id: int, schedules: map<int, Schedule>, instructorLinks: map<int, int>) returns (r: Result<Course>)
      requires Valid()
      modifies this
      ensures Valid() && nextId == old(nextId)
      ensures (r, rows) == DeleteSpec(old(rows), id, schedules, instructorLinks)
    {
      r := GetCourse(rows, id);
      if r.Err? {
        return;
      }
      if Scheduled(schedules, id) {
        return Err(InUseError(id));
      }
      if Referenced(instructorLinks, id) {
        return Err(CommitFailed);
      }
      rows := rows - {id};
    }
  }
}
