/** The schedule table: class sessions that book a room on a date from a
    start time to an end time, and the room-conflict query.

    Times are stored as free text and compared as text, the way SQLite
    compares TEXT columns (BINARY collation: code point by code point).
 */
module ScheduleCrud {
  import opened Values
  import opened Clock
  import opened Tables
  import opened StartTime

  datatype Schedule = Schedule(
    courseId: int,
    instructorId: Option<int>,
    roomId: Option<int>,
    chapter: Option<string>,
    date: int,
    startTime: string,
    endTime: string,
    createdAt: DateTime)

  /** The body of a create request (`ScheduleCreate`). */
  datatype ScheduleCreate = ScheduleCreate(
    courseId: int,
    instructorId: Option<int>,
    roomId: Option<int>,
    chapter: Option<string>,
    date: int,
    startTime: string,
    endTime: string)

  /** The body of an update request (`ScheduleUpdate` read with
      `exclude_unset`): every field may be left out, or sent, possibly as null. */
  datatype ScheduleUpdate = ScheduleUpdate(
    courseId: Patch<Option<int>>,
    instructorId: Patch<Option<int>>,
    roomId: Patch<Option<int>>,
    chapter: Patch<Option<string>>,
    date: Patch<Option<int>>,
    startTime: Patch<Option<string>>,
    endTime: Patch<Option<string>>)

  /** The ids present in the tables a schedule refers to. */
  datatype References = References(instructors: set<int>, courses: set<int>, rooms: set<int>)

  // ---------------------------------------------------------------------
  // Text order

  /** `a < b` on TEXT values. */
  predicate TextLess(a: string, b: string)
    decreases |a|
  {
    if a == [] then b != []
    else if b == [] then false
    else if a[0] != b[0] then a[0] < b[0]
    else TextLess(a[1..], b[1..])
  }

  predicate TextLeq(a: string, b: string) {
    a == b || TextLess(a, b)
  }

  lemma {:induction false} TextLessIrreflexive(a: string)
    ensures !TextLess(a, a)
  {
    if a != [] {
      TextLessIrreflexive(a[1..]);
    }
  }

  lemma {:induction false} TextLessTransitive(a: string, b: string, c: string)
    requires TextLess(a, b) && TextLess(b, c)
    ensures TextLess(a, c)
    decreases |a|
  {
    if a != [] && b != [] && c != [] && a[0] == b[0] && b[0] == c[0] {
      TextLessTransitive(a[1..], b[1..], c[1..]);
    }
  }

  lemma {:induction false} TextLessTotal(a: string, b: string)
    ensures TextLess(a, b) || a == b || TextLess(b, a)
    decreases |a|
  {
    if a != [] && b != [] && a[0] == b[0] {
      TextLessTotal(a[1..], b[1..]);
      if a[1..] == b[1..] {
        assert a == [a[0]] + a[1..] && b == [b[0]] + b[1..];
      }
    }
  }

  lemma TextLessAsymmetric(a: string, b: string)
    requires TextLess(a, b)
    ensures !TextLess(b, a) && a != b
  {
    TextLessIrreflexive(a);
    if TextLess(b, a) {
      TextLessTransitive(a, b, a);
    }
  }

  // ---------------------------------------------------------------------
  // The conflict query

  /** The three OR-ed clauses of the overlap condition, for an existing
      schedule `s` and a proposed slot [start, end]. */
  predicate Clashes(s: Schedule, start: string, end: string) {
    (TextLeq(s.startTime, start) && TextLess(start, s.endTime))
    || (TextLess(s.startTime, end) && TextLeq(end, s.endTime))
    || (TextLeq(start, s.startTime) && TextLeq(s.endTime, end))
  }

  /** Half-open intervals [s.start, s.end) and [start, end) share a point. */
  predicate Overlaps(s: Schedule, start: string, end: string) {
    TextLess(s.startTime, end) && TextLess(start, s.endTime)
  }

  /** For well-formed slots the three clauses say exactly "the half-open
      intervals overlap". */
  lemma ClashesIsOverlap(s: Schedule, start: string, end: string)
    requires TextLess(s.startTime, s.endTime) && TextLess(start, end)
    ensures Clashes(s, start, end) <==> Overlaps(s, start, end)
  {
    var a, b := s.startTime, s.endTime;
    if TextLeq(a, start) && TextLess(start, b) {
      if a != start { TextLessTransitive(a, start, end); }
    }
    if TextLess(a, end) && TextLeq(end, b) {
      if end != b { TextLessTransitive(start, end, b); }
    }
    if TextLeq(start, a) && TextLeq(b, end) {
      if start != a { TextLessTransitive(start, a, b); }
      if b != end { TextLessTransitive(a, b, end); }
    }
    if Overlaps(s, start, end) {
      TextLessTotal(a, start);
      TextLessTotal(end, b);
    }
  }

  /** Back-to-back slots (one ends when the other starts) never clash. */
  lemma BackToBackNoClash(s: Schedule, start: string, end: string)
    requires TextLess(s.startTime, s.endTime) && TextLess(start, end)
    requires s.endTime == start || end == s.startTime
    ensures !Clashes(s, start, end)
  {
    ClashesIsOverlap(s, start, end);
    TextLessIrreflexive(start);
    TextLessIrreflexive(end);
  }

  /** One row the query selects. */
  predicate Selected(id: int, s: Schedule, roomId: int, date: int, start: string, end: string, exclude: Option<int>) {
    s.roomId == Some(roomId) && s.date == date && Clashes(s, start, end)
    && (exclude.Some? ==> id != exclude.value)
  }

  /** `check_schedule_conflict`: some schedule in the same room on the same
      date clashes with the slot, not counting the schedule `exclude`. */
  predicate HasConflict(rows: map<int, Schedule>, roomId: int, date: int, start: string, end: string, exclude: Option<int>) {
    exists id :: id in rows && Selected(id, rows[id], roomId, date, start, end, exclude)
  }

  /** Excluding a schedule is the same as asking the table without it: a
      schedule never conflicts with itself. */
  lemma ExcludeIsRemove(rows: map<int, Schedule>, roomId: int, date: int, start: string, end: string, id: int)
    ensures HasConflict(rows, roomId, date, start, end, Some(id))
        <==> HasConflict(rows - {id}, roomId, date, start, end, None)
  {
    if HasConflict(rows, roomId, date, start, end, Some(id)) {
      var k :| k in rows && Selected(k, rows[k], roomId, date, start, end, Some(id));
      assert k in rows - {id};
    }
    if HasConflict(rows - {id}, roomId, date, start, end, None) {
      var k :| k in rows - {id} && Selected(k, (rows - {id})[k], roomId, date, start, end, None);
      assert Selected(k, rows[k], roomId, date, start, end, Some(id));
    }
  }

  /** Only schedules in the same room on the same date can conflict. */
  lemma ConflictNeedsRoomAndDate(rows: map<int, Schedule>, roomId: int, date: int, start: string, end: string, exclude: Option<int>)
    requires HasConflict(rows, roomId, date, start, end, exclude)
    ensures exists id :: id in rows && rows[id].roomId == Some(roomId) && rows[id].date == date
  {
    var k :| k in rows && Selected(k, rows[k], roomId, date, start, end, exclude);
    assert rows[k].roomId == Some(roomId) && rows[k].date == date;
  }

  /** Adding a schedule in another room or on another date changes no answer. */
  lemma OtherRoomOrDateIrrelevant(rows: map<int, Schedule>, id: int, s: Schedule, roomId: int, date: int, start: string, end: string, exclude: Option<int>)
    requires id !in rows
    requires s.roomId != Some(roomId) || s.date != date
    ensures HasConflict(rows[id := s], roomId, date, start, end, exclude)
        <==> HasConflict(rows, roomId, date, start, end, exclude)
  {
    var bigger := rows[id := s];
    if HasConflict(bigger, roomId, date, start, end, exclude) {
      var k :| k in bigger && Selected(k, bigger[k], roomId, date, start, end, exclude);
      assert k != id && k in rows;
    }
    if HasConflict(rows, roomId, date, start, end, exclude) {
      var k :| k in rows && Selected(k, rows[k], roomId, date, start, end, exclude);
      assert k in bigger && bigger[k] == rows[k];
    }
  }

  /** Text order is not time order once the hours lose their leading zero:
      "10:00" sorts before "9:00", so a 09:00-10:30 booking and a
      "9:00"-"9:30" slot in the same room are not seen to clash. */
  lemma UnpaddedTimesMisorder()
    ensures TextLess("10:00", "9:00")
    ensures !Clashes(Schedule(1, None, Some(1), None, 0, "09:00", "10:30", DateTime(0, 0)), "9:00", "9:30")
  {
    assert TextLess("09:00", "10:30");
    assert TextLess("10:30", "9:00");
    assert TextLess("10:30", "9:30");
    assert TextLess("9:00", "9:30");
    assert TextLess("09:00", "9:00");
    TextLessAsymmetric("10:30", "9:00");
    TextLessAsymmetric("10:30", "9:30");
    TextLessAsymmetric("09:00", "9:00");
  }

  /** ... although both texts are valid start times, 9:00 before 10:00. */
  lemma UnpaddedTimesParse()
    ensures ParseStartTime("9:00") == Some(9 * 3600)
    ensures ParseStartTime("10:00") == Some(10 * 3600)
  {
    NineParses();
    TenParses();
  }

  lemma ZeroMinutes()
    ensures PyInt("00") == Some(0)
  {
    assert DigitsValue("00") == 0 by {
      assert ("00")[..1] == "0" && ("0")[..0] == [];
    }
    PyIntOfDigits("00");
  }

  lemma NineParses()
    ensures ParseStartTime("9:00") == Some(9 * 3600)
  {
    assert DigitsValue("9") == 9 by {
      assert ("9")[..0] == [];
    }
    PyIntOfDigits("9");
    ZeroMinutes();
    ParseOfHourMinute("9", "00");
    assert "9" + ":" + "00" == "9:00";
  }

  lemma TenParses()
    ensures ParseStartTime("10:00") == Some(10 * 3600)
  {
    assert DigitsValue("10") == 10 by {
      assert ("10")[..1] == "1" && ("1")[..0] == [];
    }
    PyIntOfDigits("10");
    ZeroMinutes();
    ParseOfHourMinute("10", "00");
    assert "10" + ":" + "00" == "10:00";
  }

  lemma ParseOfHourMinute(h: string, m: string)
    requires ':' !in h && ':' !in m
    ensures ParseStartTime(h + ":" + m)
         == if PyInt(h).Some? && PyInt(m).Some? && 0 <= PyInt(h).value < 24 && 0 <= PyInt(m).value < 60
            then Some(PyInt(h).value * 3600 + PyInt(m).value * 60) else None
  {
    SplitWhole(m, ':');
    SplitAfter(h, m, ':');
  }

  // ---------------------------------------------------------------------
  // Reads and writes

  function ShowId(id: Option<int>): string {
    match id
    case None => "None"
    case Some(i) => IntToString(i)
  }

  /** `get_schedule`. */
  function GetSchedule(rows: map<int, Schedule>, id: int): (r: Result<Schedule>)
    ensures r.Ok? <==> id in rows
    ensures r.Ok? ==> r.value == rows[id]
    ensures r.Err? ==> r.error.status == NotFound
  {
    if id in rows then Ok(rows[id])
    else Err(HttpError(NotFound, "Schedule with ID " + IntToString(id) + " not found"))
  }

  /** Why `create_schedule` refuses a request, if it does: the instructor and
      the course must exist, the room only when a (truthy) room id is given. */
  function CreateRefusal(req: ScheduleCreate, refs: References): (e: Option<HttpError>)
    ensures e.None? <==> req.instructorId.Some? && req.instructorId.value in refs.instructors
                         && req.courseId in refs.courses
                         && (req.roomId.Some? && req.roomId.value != 0 ==> req.roomId.value in refs.rooms)
    ensures e.Some? ==> e.value.status == NotFound
  {
    if req.instructorId.None? || req.instructorId.value !in refs.instructors then
      Some(HttpError(NotFound, "Instructor with ID " + ShowId(req.instructorId) + " not found"))
    else if req.courseId !in refs.courses then
      Some(HttpError(NotFound, "Course with ID " + IntToString(req.courseId) + " not found"))
    else if req.roomId.Some? && req.roomId.value != 0 && req.roomId.value !in refs.rooms then
      Some(HttpError(NotFound, "Room with ID " + ShowId(req.roomId) + " not found"))
    else None
  }

  function NewSchedule(req: ScheduleCreate, clock: Clock): Schedule {
    Schedule(req.courseId, req.instructorId, req.roomId, req.chapter, req.date,
             req.startTime, req.endTime, clock.jakarta)
  }

  /** Why `update_schedule` refuses an existing schedule's update: a referenced
      id that is supplied (not null) must exist; a null written to a NOT NULL
      column fails at commit. */
  function UpdateRefusal(p: ScheduleUpdate, refs: References): (e: Option<HttpError>)
    ensures e.None? ==> !(p.courseId == Put(None) || p.date == Put(None)
                          || p.startTime == Put(None) || p.endTime == Put(None))
    ensures p.instructorId.Put? && p.instructorId.value.Some? && p.instructorId.value.value !in refs.instructors
            ==> e == Some(HttpError(NotFound, "Instructor with ID " + ShowId(p.instructorId.value) + " not found"))
    ensures (p.instructorId.Keep? && p.courseId.Keep? && p.roomId.Keep? && p.date.Keep?
             && p.startTime.Keep? && p.endTime.Keep?) ==> e.None?
  {
    if p.instructorId.Put? && p.instructorId.value.Some? && p.instructorId.value.value !in refs.instructors then
      Some(HttpError(NotFound, "Instructor with ID " + ShowId(p.instructorId.value) + " not found"))
    else if p.courseId.Put? && p.courseId.value.Some? && p.courseId.value.value !in refs.courses then
      Some(HttpError(NotFound, "Course with ID " + ShowId(p.courseId.value) + " not found"))
    else if p.roomId.Put? && p.roomId.value.Some? && p.roomId.value.value !in refs.rooms then
      Some(HttpError(NotFound, "Room with ID " + ShowId(p.roomId.value) + " not found"))
    else if p.courseId == Put(None) || p.date == Put(None) || p.startTime == Put(None) || p.endTime == Put(None) then
      Some(HttpError(ServerError, "NOT NULL constraint failed"))
    else None
  }

  /** The `setattr` loop of `update_schedule`: exactly the supplied fields change. */
  function Updated(s: Schedule, p: ScheduleUpdate): (r: Schedule)
    ensures r.createdAt == s.createdAt
    ensures p.courseId.Keep? ==> r.courseId == s.courseId
    ensures p.instructorId.Keep? ==> r.instructorId == s.instructorId
    ensures p.instructorId.Put? ==> r.instructorId == p.instructorId.value
    ensures p.roomId.Keep? ==> r.roomId == s.roomId
    ensures p.roomId.Put? ==> r.roomId == p.roomId.value
    ensures p.chapter.Keep? ==> r.chapter == s.chapter
    ensures p.chapter.Put? ==> r.chapter == p.chapter.value
    ensures p.date.Keep? ==> r.date == s.date
    ensures p.startTime.Keep? ==> r.startTime == s.startTime
    ensures p.endTime.Keep? ==> r.endTime == s.endTime
    ensures p == ScheduleUpdate(Keep, Keep, Keep, Keep, Keep, Keep, Keep) ==> r == s
  {
    Schedule(
      Required(p.courseId, s.courseId),
      Apply(p.instructorId, s.instructorId),
      Apply(p.roomId, s.roomId),
      Apply(p.chapter, s.chapter),
      Required(p.date, s.date),
      Required(p.startTime, s.startTime),
      Required(p.endTime, s.endTime),
      s.createdAt)
  }

  /** Every supplied non-null value is what the row holds afterwards. */
  lemma UpdatedTakesSuppliedValues(s: Schedule, p: ScheduleUpdate, refs: References)
    requires UpdateRefusal(p, refs).None?
    ensures p.courseId.Put? ==> Some(Updated(s, p).courseId) == p.courseId.value
    ensures p.date.Put? ==> Some(Updated(s, p).date) == p.date.value
    ensures p.startTime.Put? ==> Some(Updated(s, p).startTime) == p.startTime.value
    ensures p.endTime.Put? ==> Some(Updated(s, p).endTime) == p.endTime.value
  {
  }

  class ScheduleTable {
    var rows: map<int, Schedule>
    var nextId: int

    ghost predicate Valid()
      reads this
    {
      nextId >= 1 && KeysBelow(rows.Keys, nextId)
    }

    constructor ()
      ensures Valid() && rows == map[]
    {
      rows := map[];
      nextId := 1;
    }

    /** `create_schedule`. */
    method Create(req: ScheduleCreate, refs: References, clock: Clock) returns (r: Result<int>)
      requires Valid()
      modifies this
      ensures Valid()
      ensures CreateRefusal(req, refs).Some? ==>
                r == Err(CreateRefusal(req, refs).value) && rows == old(rows) && nextId == old(nextId)
      ensures CreateRefusal(req, refs).None? ==>
                r == Ok(old(nextId)) && old(nextId) !in old(rows)
                && rows == old(rows)[old(nextId) := NewSchedule(req, clock)]
    {
      var refusal := CreateRefusal(req, refs);
      if refusal.Some? {
        return Err(refusal.value);
      }
      r := Ok(nextId);
      rows := rows[nextId := NewSchedule(req, clock)];
      nextId := nextId + 1;
    }

    /** `update_schedule`. */
    method Update(id: int, p: ScheduleUpdate, refs: References) returns (r: Result<Schedule>)
      requires Valid()
      modifies this
      ensures Valid() && nextId == old(nextId)
      ensures id !in old(rows) ==> r == GetSchedule(old(rows), id) && rows == old(rows)
      ensures id in old(rows) && UpdateRefusal(p, refs).Some? ==>
                r == Err(UpdateRefusal(p, refs).value) && rows == old(rows)
      ensures id in old(rows) && UpdateRefusal(p, refs).None? ==>
                r == Ok(Updated(old(rows)[id], p)) && rows == old(rows)[id := Updated(old(rows)[id], p)]
    {
      var found := GetSchedule(rows, id);
      if found.Err? {
        return Err(found.error);
      }
      var refusal := UpdateRefusal(p, refs);
      if refusal.Some? {
        return Err(refusal.value);
      }
      var s := Updated(found.value, p);
      rows := rows[id := s];
      r := Ok(s);
    }

    /** `delete_schedule`, given the `schedule_id` column of the attendance
      table: removes the row and returns it. `Schedule.attendances` has no
      delete cascade and its column is NOT NULL, so a schedule with
      attendance records is not deleted: the commit fails. */
    method Delete(id: int, attendanceSchedules: map<int, int>) returns (r: Result<Schedule>)
      requires Valid()
      modifies this
      ensures Valid() && nextId == old(nextId)
      ensures id !in old(rows) ==> r == GetSchedule(old(rows), id) && rows == old(rows)
      ensures id in old(rows) && Referenced(attendanceSchedules, id) ==> r == Err(CommitFailed) && rows == old(rows)
      ensures id in old(rows) && !Referenced(attendanceSchedules, id) ==>
                r == Ok(old(rows)[id]) && rows == old(rows) - {id}
      // no attendance record is ever left naming a schedule that is gone
      ensures Resolved(attendanceSchedules, old(rows)) ==> Resolved(attendanceSchedules, rows)
    {
      r := GetSchedule(rows, id);
      if r.Err? {
        return;
      }
      if Referenced(attendanceSchedules, id) {
        return Err(CommitFailed);
      }
      if Resolved(attendanceSchedules, rows) {
        DeleteParentKeepsResolved(rows, id, attendanceSchedules);
      }
      rows := rows - {id};
    }

    /** `check_schedule_conflict`, answered by a scan of the table. */
    method CheckConflict(roomId: int, date: int, start: string, end: string, exclude: Option<int>) returns (found: bool)
      requires Valid()
      ensures found == HasConflict(rows, roomId, date, start, end, exclude)
    {
      var ids := KeysIn(rows.Keys, 1, nextId);
      var i := 0;
      found := false;
      while i < |ids| && !found
        invariant 0 <= i <= |ids|
        invariant found ==> HasConflict(rows, roomId, date, start, end, exclude)
        invariant !found ==> forall j :: 0 <= j < i ==> !Selected(ids[j], rows[ids[j]], roomId, date, start, end, exclude)
      {
        found := Selected(ids[i], rows[ids[i]], roomId, date, start, end, exclude);
        i := i + 1;
      }
      if !found {
        forall id | id in rows
          ensures !Selected(id, rows[id], roomId, date, start, end, exclude)
        {
          assert id in ids;
        }
      }
    }
  }
}
