/** The schedule endpoints: what an instructor may do to schedules, the
    room-conflict checks before a create or an update, and the merge of an
    update with the stored row that feeds the check.

    Admins may do anything; an instructor only to schedules assigned to them.
 */
module ScheduleRouter {
  import opened Values
  import opened Clock
  import opened Tables
  import opened ScheduleCrud

  /** The caller of a schedule endpoint (`get_current_admin_or_instructor`). */
  datatype Staff = Admin | Instructor(instructorId: int)

  const ConflictDetail: string := "Schedule conflict detected. The room is already scheduled for this time."

  /** `if room_id:` — a room id that is present and not 0. */
  predicate Booked(roomId: Option<int>) {
    roomId.Some? && roomId.value != 0
  }

  // ---------------------------------------------------------------------
  // Tables without double bookings

  /** Every stored slot runs forwards (start before end, as text). */
  predicate WellFormedSlots(rows: map<int, Schedule>) {
    forall id :: id in rows ==> TextLess(rows[id].startTime, rows[id].endTime)
  }

  /** No two schedules booked in the same room on the same date overlap. */
  predicate ConflictFree(rows: map<int, Schedule>) {
    forall i, j :: i in rows && j in rows && i != j && Booked(rows[i].roomId)
                   && rows[i].roomId == rows[j].roomId && rows[i].date == rows[j].date
                   ==> !Overlaps(rows[j], rows[i].startTime, rows[i].endTime)
  }

  /** Storing a forward slot that the conflict query found free (or that
      books no room) keeps the table free of double bookings. */
  lemma StorePreservesConflictFree(rows: map<int, Schedule>, id: int, s: Schedule)
    requires ConflictFree(rows) && WellFormedSlots(rows - {id})
    requires TextLess(s.startTime, s.endTime)
    requires Booked(s.roomId) ==> !HasConflict(rows, s.roomId.value, s.date, s.startTime, s.endTime, Some(id))
    ensures ConflictFree(rows[id := s])
  {
    var after := rows[id := s];
    forall i, j | i in after && j in after && i != j && Booked(after[i].roomId)
                  && after[i].roomId == after[j].roomId && after[i].date == after[j].date
      ensures !Overlaps(after[j], after[i].startTime, after[i].endTime)
    {
      if i == id {
        assert j in rows - {id} && !Selected(j, rows[j], s.roomId.value, s.date, s.startTime, s.endTime, Some(id));
        ClashesIsOverlap(rows[j], s.startTime, s.endTime);
      } else if j == id {
        assert i in rows - {id} && !Selected(i, rows[i], s.roomId.value, s.date, s.startTime, s.endTime, Some(id));
        ClashesIsOverlap(rows[i], s.startTime, s.endTime);
      }
    }
  }

  // ---------------------------------------------------------------------
  // POST /schedules/

  /** Why the create endpoint refuses, in its order: an instructor creating
      for someone else, a booked room that conflicts, then the references. */
  function CreateDecision(rows: map<int, Schedule>, staff: Staff, req: ScheduleCreate, refs: References): (e: Option<HttpError>)
    ensures staff.Instructor? && req.instructorId != Some(staff.instructorId) ==>
              e == Some(HttpError(Forbidden, "You can only create schedules for yourself"))
    ensures e.None? <==> (staff.Admin? || req.instructorId == Some(staff.instructorId))
                         && !(Booked(req.roomId) && HasConflict(rows, req.roomId.value, req.date, req.startTime, req.endTime, None))
                         && CreateRefusal(req, refs).None?
    ensures e.Some? && e.value.status == BadRequest ==>
              Booked(req.roomId) && HasConflict(rows, req.roomId.value, req.date, req.startTime, req.endTime, None)
  {
    if staff.Instructor? && req.instructorId != Some(staff.instructorId) then
      Some(HttpError(Forbidden, "You can only create schedules for yourself"))
    else if Booked(req.roomId) && HasConflict(rows, req.roomId.value, req.date, req.startTime, req.endTime, None) then
      Some(HttpError(BadRequest, ConflictDetail))
    else CreateRefusal(req, refs)
  }

  /** An accepted create of a forward slot keeps the table free of double bookings. */
  lemma CreateKeepsConflictFree(rows: map<int, Schedule>, nextId: int, staff: Staff, req: ScheduleCreate,
                                refs: References, clock: Clock)
    requires ConflictFree(rows) && WellFormedSlots(rows) && nextId !in rows
    requires TextLess(req.startTime, req.endTime)
    requires CreateDecision(rows, staff, req, refs).None?
    ensures ConflictFree(rows[nextId := NewSchedule(req, clock)])
  {
    var s := NewSchedule(req, clock);
    if Booked(s.roomId) {
      assert !HasConflict(rows, req.roomId.value, req.date, req.startTime, req.endTime, None);
      assert rows - {nextId} == rows;
      ExcludeIsRemove(rows, req.roomId.value, req.date, req.startTime, req.endTime, nextId);
    }
    assert rows - {nextId} == rows;
    StorePreservesConflictFree(rows, nextId, s);
  }

  // ---------------------------------------------------------------------
  // GET /schedules/ and /schedules/{id}

  /** The instructor filter a listing is run with. */
  function ListFilter(staff: Staff, instructorId: Option<int>): (r: Result<Option<int>>)
    ensures staff.Admin? ==> r == Ok(instructorId)
    ensures staff.Instructor? ==> (r.Ok? <==> instructorId.None? || instructorId == Some(staff.instructorId))
    ensures staff.Instructor? && r.Ok? ==> r.value == Some(staff.instructorId)
    ensures r.Err? ==> r.error.status == Forbidden
  {
    if staff.Instructor? && instructorId.Some? && instructorId.value != staff.instructorId then
      Err(HttpError(Forbidden, "You can only view your own schedules"))
    else if staff.Instructor? then Ok(Some(staff.instructorId))
    else Ok(instructorId)
  }

  /** Reading one schedule (the table's own 404 comes first). */
  function ReadSchedule(rows: map<int, Schedule>, staff: Staff, id: int): (r: Result<Schedule>)
    ensures id !in rows ==> r == GetSchedule(rows, id)
    ensures r.Ok? ==> id in rows && r.value == rows[id]
    ensures id in rows ==> (r.Ok? <==> staff.Admin? || rows[id].instructorId == Some(staff.instructorId))
  {
    match GetSchedule(rows, id)
    case Err(e) => Err(e)
    case Ok(s) =>
      if staff.Instructor? && s.instructorId != Some(staff.instructorId) then
        Err(HttpError(Forbidden, "You can only view your own schedules"))
      else Ok(s)
  }

  // ---------------------------------------------------------------------
  // PATCH /schedules/{id}

  /** A supplied (not null) value, else the stored one. */
  function Merged<T>(p: Patch<Option<T>>, current: T): (r: T)
    ensures p.Put? && p.value.Some? ==> r == p.value.value
    ensures !(p.Put? && p.value.Some?) ==> r == current
  {
    if p.Put? && p.value.Some? then p.value.value else current
  }

  function MergedRoom(p: Patch<Option<int>>, current: Option<int>): (r: Option<int>)
    ensures p.Put? && p.value.Some? ==> r == p.value
    ensures !(p.Put? && p.value.Some?) ==> r == current
  {
    if p.Put? && p.value.Some? then p.value else current
  }

  /** Whether the update names any of room, date, start and end (not null). */
  predicate SlotTouched(p: ScheduleUpdate) {
    (p.roomId.Put? && p.roomId.value.Some?) || (p.date.Put? && p.date.value.Some?)
    || (p.startTime.Put? && p.startTime.value.Some?) || (p.endTime.Put? && p.endTime.value.Some?)
  }

  /** The conflict check of an update: run only when the slot is touched and
      the merged room is booked, and blind to the schedule itself. */
  predicate UpdateConflicts(rows: map<int, Schedule>, id: int, p: ScheduleUpdate)
    requires id in rows
  {
    var s := rows[id];
    var room := MergedRoom(p.roomId, s.roomId);
    SlotTouched(p) && Booked(room)
    && HasConflict(rows, room.value, Merged(p.date, s.date), Merged(p.startTime, s.startTime),
                   Merged(p.endTime, s.endTime), Some(id))
  }

  /** Why the update endpoint refuses, in its order. */
  function UpdateDecision(rows: map<int, Schedule>, staff: Staff, id: int, p: ScheduleUpdate, refs: References): (e: Option<HttpError>)
    ensures id !in rows ==> e == Some(GetSchedule(rows, id).error)
    ensures e.None? <==> id in rows
                         && (staff.Instructor? ==> rows[id].instructorId == Some(staff.instructorId)
                                                   && (p.instructorId.Put? && p.instructorId.value.Some? ==>
                                                         p.instructorId.value == Some(staff.instructorId)))
                         && !UpdateConflicts(rows, id, p) && UpdateRefusal(p, refs).None?
  {
    if id !in rows then Some(GetSchedule(rows, id).error)
    else if staff.Instructor? && rows[id].instructorId != Some(staff.instructorId) then
      Some(HttpError(Forbidden, "You can only update your own schedules"))
    else if staff.Instructor? && p.instructorId.Put? && p.instructorId.value.Some?
            && p.instructorId.value.value != staff.instructorId then
      Some(HttpError(Forbidden, "You cannot assign schedules to other instructors"))
    else if UpdateConflicts(rows, id, p) then Some(HttpError(BadRequest, ConflictDetail))
    else UpdateRefusal(p, refs)
  }

  /** An accepted update that leaves the slot running forwards keeps the
      table free of double bookings. */
  lemma UpdateKeepsConflictFree(rows: map<int, Schedule>, staff: Staff, id: int, p: ScheduleUpdate, refs: References)
    requires ConflictFree(rows) && WellFormedSlots(rows)
    requires UpdateDecision(rows, staff, id, p, refs).None?
    requires TextLess(Updated(rows[id], p).startTime, Updated(rows[id], p).endTime)
    ensures ConflictFree(rows[id := Updated(rows[id], p)])
  {
    var s := rows[id];
    var u := Updated(s, p);
    if Booked(u.roomId) {
      assert u.roomId == MergedRoom(p.roomId, s.roomId);
      assert u.date == Merged(p.date, s.date) && u.startTime == Merged(p.startTime, s.startTime)
             && u.endTime == Merged(p.endTime, s.endTime);
      if !SlotTouched(p) {
        // the slot is the stored one, already free of conflicts
        forall j | j in rows
          ensures !Selected(j, rows[j], u.roomId.value, u.date, u.startTime, u.endTime, Some(id))
        {
          if j != id && rows[j].roomId == u.roomId && rows[j].date == u.date {
            assert j in rows - {id};
            ClashesIsOverlap(rows[j], s.startTime, s.endTime);
          }
        }
      }
    }
    StorePreservesConflictFree(rows, id, u);
  }

  /** An instructor may clear the instructor of their own schedule (a null
      instructor id is not checked), after which they can no longer reach it. */
  lemma InstructorMayUnassign(rows: map<int, Schedule>, own: int, id: int, refs: References)
    requires id in rows && rows[id].instructorId == Some(own)
    ensures var p := ScheduleUpdate(Keep, Put(None), Keep, Keep, Keep, Keep, Keep);
            UpdateDecision(rows, Instructor(own), id, p, refs).None?
            && UpdateDecision(rows[id := Updated(rows[id], p)], Instructor(own), id, p, refs).Some?
  {
  }

  // ---------------------------------------------------------------------
  // Endpoints on the table

  method CreateEndpoint(table: ScheduleTable, staff: Staff, req: ScheduleCreate, refs: References, clock: Clock)
    returns (r: Result<int>)
    requires table.Valid()
    modifies table
    ensures table.Valid()
    ensures CreateDecision(old(table.rows), staff, req, refs).Some? ==>
              r == Err(CreateDecision(old(table.rows), staff, req, refs).value) && table.rows == old(table.rows)
    ensures CreateDecision(old(table.rows), staff, req, refs).None? ==>
              r == Ok(old(table.nextId)) && table.rows == old(table.rows)[old(table.nextId) := NewSchedule(req, clock)]
  {
    if staff.Instructor? && req.instructorId != Some(staff.instructorId) {
      return Err(HttpError(Forbidden, "You can only create schedules for yourself"));
    }
    if Booked(req.roomId) {
      var conflict := table.CheckConflict(req.roomId.value, req.date, req.startTime, req.endTime, None);
      if conflict {
        return Err(HttpError(BadRequest, ConflictDetail));
      }
    }
    r := table.Create(req, refs, clock);
  }

  method UpdateEndpoint(table: ScheduleTable, staff: Staff, id: int, p: ScheduleUpdate, refs: References)
    returns (r: Result<Schedule>)
    requires table.Valid()
    modifies table
    ensures table.Valid() && table.nextId == old(table.nextId)
    ensures UpdateDecision(old(table.rows), staff, id, p, refs).Some? ==>
              r == Err(UpdateDecision(old(table.rows), staff, id, p, refs).value) && table.rows == old(table.rows)
    ensures UpdateDecision(old(table.rows), staff, id, p, refs).None? ==>
              r == Ok(Updated(old(table.rows)[id], p))
              && table.rows == old(table.rows)[id := Updated(old(table.rows)[id], p)]
  {
    var found := GetSchedule(table.rows, id);
    if found.Err? {
      return Err(found.error);
    }
    var s := found.value;
    if staff.Instructor? && s.instructorId != Some(staff.instructorId) {
      return Err(HttpError(Forbidden, "You can only update your own schedules"));
    }
    if staff.Instructor? && p.instructorId.Put? && p.instructorId.value.Some?
       && p.instructorId.value.value != staff.instructorId {
      return Err(HttpError(Forbidden, "You cannot assign schedules to other instructors"));
    }
    if SlotTouched(p) {
      var room := MergedRoom(p.roomId, s.roomId);
      if Booked(room) {
        var conflict := table.CheckConflict(room.value, Merged(p.date, s.date), Merged(p.startTime, s.startTime),
                                            Merged(p.endTime, s.endTime), Some(id));
        if conflict {
          return Err(HttpError(BadRequest, ConflictDetail));
        }
      }
    }
    r := table.Update(id, p, refs);
  }

  /** `DELETE /schedules/{id}`, given the `schedule_id` column of the
      attendance table (a schedule with attendance records makes the commit
      fail with a 500). */
  method DeleteEndpoint(table: ScheduleTable, staff: Staff, id: int, attendanceSchedules: map<int, int>)
    returns (r: Result<string>)
    requires table.Valid()
    modifies table
    ensures table.Valid() && table.nextId == old(table.nextId)
    ensures r.Ok? <==> ReadSchedule(old(table.rows), staff, id).Ok? && !Referenced(attendanceSchedules, id)
    ensures ReadSchedule(old(table.rows), staff, id).Ok? && Referenced(attendanceSchedules, id) ==>
              r == Err(CommitFailed)
    ensures r.Ok? ==> table.rows == old(table.rows) - {id} && r.value == "Schedule successfully deleted"
    ensures r.Err? ==> table.rows == old(table.rows)
    ensures staff.Instructor? && id in old(table.rows) && old(table.rows)[id].instructorId != Some(staff.instructorId) ==>
              r == Err(HttpError(Forbidden, "You can only delete your own schedules"))
  {
    var found := GetSchedule(table.rows, id);
    if found.Err? {
      return Err(found.error);
    }
    if staff.Instructor? && found.value.instructorId != Some(staff.instructorId) {
      return Err(HttpError(Forbidden, "You can only delete your own schedules"));
    }
    var deleted := table.Delete(id, attendanceSchedules);
    if deleted.Err? {
      return Err(deleted.error);
    }
    r := Ok("Schedule successfully deleted");
  }
}
