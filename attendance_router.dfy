/** The attendance endpoints: the check-in gate and its two paths, the bulk
    create and delete validations, and the PATCH normalisation.

    Every endpoint returns `Result`: `Err` is the `HTTPException` the handler
    raises (status 500 for an exception it does not catch).
 */
module AttendanceRouter {
  import opened Values
  import opened Clock
  import opened Tables
  import opened ScheduleCrud
  import opened AttendanceCrud
  import opened AttendanceSchemas
  import opened FaceVerification

  /** The user object the token resolves to. */
  datatype Account = StudentAccount(studentId: int, nim: string) | InstructorAccount(instructorId: int) | AdminAccount

  /** The caller, with the `role` attribute the check-in handler reads by
      `getattr(current_user, "role", None)`. No user model declares it, so
      as deployed it is always None; it is an input here so that the staff
      branch can be stated at all. */
  datatype Caller = Caller(account: Account, role: Option<string>)

  /** An `instructor_course` row. */
  datatype Assignment = Assignment(instructorId: int, courseId: int)

  // ---------------------------------------------------------------------
  // "Is this instructor teaching the course?"

  /** The check as written: the handler passes the instructor and course ids
      to a `get_instructor_courses(db, skip, limit)`, so it reads a page of
      ALL assignments (OFFSET instructor id, LIMIT course id) and accepts
      when the page is not empty. Whether the instructor teaches the course
      plays no part. */
  function TeachesAsWritten(assignments: seq<Assignment>, instructorId: int, courseId: int): (r: bool)
    ensures r <==> (if instructorId < 0 then 0 else instructorId) < |assignments| && courseId != 0
  {
    Page(assignments, instructorId, courseId) != []
  }

  /** The evident intent: an assignment (instructor, course) exists. */
  function Teaches(assignments: seq<Assignment>, instructorId: int, courseId: int): (r: bool)
    ensures r <==> Assignment(instructorId, courseId) in assignments
  {
    if assignments == [] then false
    else assignments[0] == Assignment(instructorId, courseId) || Teaches(assignments[1..], instructorId, courseId)
  }

  /** The two disagree both ways: a teaching instructor is refused and a
      stranger is let in. */
  lemma TeachesAsWrittenCounterexample()
    ensures Teaches([Assignment(1, 5)], 1, 5) && !TeachesAsWritten([Assignment(1, 5)], 1, 5)
    ensures !Teaches([Assignment(2, 9)], 0, 5) && TeachesAsWritten([Assignment(2, 9)], 0, 5)
  {
  }

  // ---------------------------------------------------------------------
  // POST /attendances/{id}/check-in

  /** The uploaded photo; `extension` is `os.path.splitext(filename)[1]`. */
  datatype Photo = Photo(filename: string, contentType: string, extension: string, content: seq<bv8>)

  /** The multipart form of a check-in. */
  datatype CheckInForm = CheckInForm(location: Option<string>, face: Option<string>, smile: bool, photo: Photo)

  const ImageTypes: seq<string> := ["image/jpeg", "image/png", "image/jpg"]
  const StaffRoles: seq<string> := ["ADMIN", "INSTRUCTOR"]

  /** Which path a request that passes the gate takes. */
  datatype Route = Verified(req: CheckIn) | Direct(req: CheckIn)

  function FormField(s: Option<string>): Value {
    if s.Some? then Str(s.value) else Null
  }

  /** `AttendanceCheckIn(location_data=..., face_verification_data=...,
      smile_detected=...)` built from the form; None where pydantic raises. */
  function CheckInFromForm(form: CheckInForm, codec: JsonCodec): (r: Option<CheckIn>)
    ensures r.Some? ==> r.value.checkInTime.None? && r.value.imageCapturedUrl.None? && r.value.smile == Some(form.smile)
    ensures r.Some? ==> Some(r.value.location) == CheckInField(FormField(form.location), codec)
                        && Some(r.value.face) == CheckInField(FormField(form.face), codec)
    ensures r.None? <==> CheckInField(FormField(form.location), codec).None? || CheckInField(FormField(form.face), codec).None?
  {
    var location := CheckInField(FormField(form.location), codec);
    var face := CheckInField(FormField(form.face), codec);
    if location.None? || face.None? then None
    else Some(CheckIn(None, location.value, face.value, Some(form.smile), None))
  }

  /** Everything the handler checks before it writes, in its order. */
  function CheckInGate(rows: map<int, Attendance>, id: int, caller: Caller, form: CheckInForm,
                       schedules: map<int, Schedule>, assignments: seq<Assignment>,
                       modelPresent: bool, codec: JsonCodec): (r: Result<Route>)
    ensures id !in rows ==> r == Err(HttpError(NotFound, "Attendance record not found"))
    // students: only their own record, and always through face verification
    ensures id in rows && caller.account.StudentAccount? && caller.account.studentId != rows[id].studentId ==>
              r == Err(HttpError(Forbidden, "You can only check in to your own attendance records"))
    ensures r.Ok? ==> id in rows && (r.value.Verified? <==> caller.account.StudentAccount?)
    ensures r.Ok? && caller.account.StudentAccount? ==> caller.account.studentId == rows[id].studentId
    // everyone else: only with a staff role, and an instructor only for a course taught
    ensures r.Ok? && !caller.account.StudentAccount? ==> caller.role.Some? && caller.role.value in StaffRoles
    ensures r.Ok? && caller.account.InstructorAccount? ==>
              rows[id].scheduleId in schedules
              && Teaches(assignments, caller.account.instructorId, schedules[rows[id].scheduleId].courseId)
    // a photo of an accepted type is required, and the model file must exist
    ensures r.Ok? ==> form.photo.filename != "" && form.photo.contentType in ImageTypes && modelPresent
    ensures r.Ok? ==> Some(r.value.req) == CheckInFromForm(form, codec)
  {
    if id !in rows then Err(HttpError(NotFound, "Attendance record not found"))
    else
      var a := rows[id];
      if caller.account.StudentAccount? && caller.account.studentId != a.studentId then
        Err(HttpError(Forbidden, "You can only check in to your own attendance records"))
      else if !caller.account.StudentAccount? && (caller.role.None? || caller.role.value !in StaffRoles) then
        Err(HttpError(Forbidden, "Unauthorized to check in for this attendance"))
      else if caller.account.InstructorAccount? && a.scheduleId !in schedules then
        Err(HttpError(NotFound, "Schedule not found"))
      else if caller.account.InstructorAccount?
              && !Teaches(assignments, caller.account.instructorId, schedules[a.scheduleId].courseId) then
        Err(HttpError(Forbidden, "You can only manage attendance for courses you are teaching"))
      else
        match CheckInFromForm(form, codec)
        case None => Err(HttpError(ServerError, "validation error"))
        case Some(req) =>
          if form.photo.filename == "" then
            Err(HttpError(BadRequest, "An image is required for face verification"))
          else if form.photo.contentType !in ImageTypes then
            Err(HttpError(BadRequest, "File must be an image (JPEG, PNG, or JPG)"))
          else if !modelPresent then
            Err(HttpError(ServerError, "Face recognition model not found"))
          else if caller.account.StudentAccount? then Ok(Verified(req))
          else Ok(Direct(req))
  }

  /** With `role` absent, as on every deployed user object, nobody but a
      student gets past the gate: the staff branch cannot be reached. */
  lemma NoRoleNoStaffPath(rows: map<int, Attendance>, id: int, account: Account, form: CheckInForm,
                          schedules: map<int, Schedule>, assignments: seq<Assignment>,
                          modelPresent: bool, codec: JsonCodec)
    requires id in rows && !account.StudentAccount?
    ensures CheckInGate(rows, id, Caller(account, None), form, schedules, assignments, modelPresent, codec)
         == Err(HttpError(Forbidden, "Unauthorized to check in for this attendance"))
  {
  }

  /** A missing photo or one of another type is refused with 400 once the
      caller has been let through. */
  lemma PhotoChecked(rows: map<int, Attendance>, id: int, caller: Caller, form: CheckInForm,
                     schedules: map<int, Schedule>, assignments: seq<Assignment>,
                     modelPresent: bool, codec: JsonCodec)
    requires id in rows && caller.account.StudentAccount? && caller.account.studentId == rows[id].studentId
    requires CheckInFromForm(form, codec).Some?
    requires form.photo.filename == "" || form.photo.contentType !in ImageTypes
    ensures CheckInGate(rows, id, caller, form, schedules, assignments, modelPresent, codec).Err?
    ensures CheckInGate(rows, id, caller, form, schedules, assignments, modelPresent, codec).error.status == BadRequest
  {
  }

  /** The two paths of the handler once the gate let the request through:
      what the handler returns (the stored record) or raises, and the table.
      `get_attendance` has already normalised both payloads of the session's
      object, and the check-in's commit saves them with the rest; a request
      that ends without a commit leaves the table as it was. */
  function CheckInRoute<Img>(rows: map<int, Attendance>, id: int, route: Route, nim: string, photo: Photo,
                             schedules: map<int, Schedule>, modelError: Option<string>, vision: Vision<Img>,
                             clock: Clock, codec: JsonCodec, stamps: Stamps,
                             checkInError: string): (r: (Result<Attendance>, map<int, Attendance>))
    requires id in rows
    ensures r.0.Err? ==> r.1 == rows
    ensures r.0.Ok? ==> r.1 == rows[id := r.0.value]
    ensures route.Verified? && modelError.None? && !VerifyFace(Bytes(photo.content), nim, vision).verified ==>
              r.0 == Err(HttpError(Forbidden, "Face verification failed: " + VerifyFace(Bytes(photo.content), nim, vision).message))
  {
    var base := rows[id := ReadView(rows[id], codec)];
    if route.Verified? then
      var (reply, after) := VerifiedCheckInSpec(base, id, route.req, Upload(photo.content, photo.extension), nim, modelError,
                                                vision, schedules, clock, codec, stamps, checkInError);
      if !reply.success then (Err(HttpError(Forbidden, reply.message)), rows)
      else if reply.attendance.None? then (Err(ResponseInvalid), rows)
      else
        assert after == base[id := reply.attendance.value];
        (Ok(reply.attendance.value), after)
    else
      var url := ImageUrl(id, stamps.compact, photo.extension);
      var (outcome, after) := CheckInSpec(base, id, route.req, Some(url), schedules, clock, codec);
      match outcome
      case Missing => (Err(HttpError(NotFound, "Failed to update attendance record")), rows)
      case Failed => (Err(HttpError(ServerError, checkInError)), rows)
      case Done(a) => (Ok(a), after)
  }

  /** The whole endpoint on the table: the response and the table afterwards.
      The record the handler returns is answered through `AttendanceRead`,
      after the commit, so a reply that fails response validation (500)
      still leaves the check-in stored. */
  function CheckInEndpointSpec<Img>(rows: map<int, Attendance>, id: int, caller: Caller, form: CheckInForm,
                                    schedules: map<int, Schedule>, assignments: seq<Assignment>,
                                    modelPresent: bool, modelError: Option<string>, vision: Vision<Img>,
                                    clock: Clock, codec: JsonCodec, stamps: Stamps,
                                    checkInError: string): (r: (Result<Attendance>, map<int, Attendance>))
    // at most the record itself changes, and only by a check-in that was
    // committed: an error other than the reply's own validation changes nothing
    ensures r.1 == rows || (id in rows && id in r.1 && r.1 == rows[id := r.1[id]])
    ensures r.0.Err? && r.0.error != ResponseInvalid ==> r.1 == rows
    ensures CheckInGate(rows, id, caller, form, schedules, assignments, modelPresent, codec).Err? ==>
              r.0 == Err(CheckInGate(rows, id, caller, form, schedules, assignments, modelPresent, codec).error)
    // a student whose photo is not verified gets 403 with the service's message
    ensures var g := CheckInGate(rows, id, caller, form, schedules, assignments, modelPresent, codec);
            g.Ok? && caller.account.StudentAccount? && modelError.None?
            && !VerifyFace(Bytes(form.photo.content), caller.account.nim, vision).verified ==>
              r.0 == Err(HttpError(Forbidden, "Face verification failed: "
                                              + VerifyFace(Bytes(form.photo.content), caller.account.nim, vision).message))
    // a success answers the stored record as `AttendanceRead` reads it:
    // both payloads None or a mapping
    ensures r.0.Ok? ==> id in r.1 && r.0 == ReadResponse(r.1[id], codec)
    ensures r.0.Ok? ==> (r.0.value.location.Null? || r.0.value.location.Dict?)
                        && (r.0.value.face.Null? || r.0.value.face.Dict?)
  {
    match CheckInGate(rows, id, caller, form, schedules, assignments, modelPresent, codec)
    case Err(e) => (Err(e), rows)
    case Ok(route) =>
      var nim := if caller.account.StudentAccount? then caller.account.nim else "";
      var (handled, after) := CheckInRoute(rows, id, route, nim, form.photo, schedules, modelError, vision,
                                           clock, codec, stamps, checkInError);
      match handled
      case Err(e) => (Err(e), after)
      case Ok(a) => (ReadResponse(a, codec), after)
  }

  /** `get_attendance` normalised the stored payloads in the session, and
      the check-in's commit saves them: a payload the form leaves out is
      stored normalised (the face payload on the direct path; the verified
      path always writes its summary). */
  lemma CheckInSavesNormalisedPayloads<Img>(rows: map<int, Attendance>, id: int, route: Route, nim: string, photo: Photo,
                                            schedules: map<int, Schedule>, modelError: Option<string>, vision: Vision<Img>,
                                            clock: Clock, codec: JsonCodec, stamps: Stamps, checkInError: string)
    requires id in rows
    ensures var r := CheckInRoute(rows, id, route, nim, photo, schedules, modelError, vision, clock, codec, stamps, checkInError);
            r.0.Ok? ==>
              (!Truthy(route.req.location) ==> r.0.value.location == ProcessJsonField(rows[id].location, codec))
              && (route.Direct? && !Truthy(route.req.face) ==> r.0.value.face == ProcessJsonField(rows[id].face, codec))
  {
    var base := rows[id := ReadView(rows[id], codec)];
    var a := base[id];
    if route.Verified? {
      var (reply, after) := VerifiedCheckInSpec(base, id, route.req, Upload(photo.content, photo.extension), nim, modelError,
                                                vision, schedules, clock, codec, stamps, checkInError);
      if reply.success && reply.attendance.Some? {
        var v := VerifyFace(Bytes(photo.content), nim, vision);
        var stamped := route.req.(face := Str(codec.dumps(Summary(v, stamps.now))));
        var url := ImageUrl(id, stamps.compact, photo.extension);
        var t := EffectiveCheckIn(stamped.checkInTime, clock);
        var status := CheckInStatus(t, ScheduleOf(schedules, a.scheduleId), JakartaToday(clock));
        assert reply.attendance.value == ApplyCheckIn(a, stamped, Some(url), t, status.value, codec);
      }
    } else {
      var url := ImageUrl(id, stamps.compact, photo.extension);
      var (outcome, after) := CheckInSpec(base, id, route.req, Some(url), schedules, clock, codec);
      if outcome.Done? {
        var t := EffectiveCheckIn(route.req.checkInTime, clock);
        var status := CheckInStatus(t, ScheduleOf(schedules, a.scheduleId), JakartaToday(clock));
        assert outcome.value == ApplyCheckIn(a, route.req, Some(url), t, status.value, codec);
      }
    }
  }

  /** The endpoint as a method on the table it writes. */
  method CheckInEndpoint<Img>(table: AttendanceTable, id: int, caller: Caller, form: CheckInForm,
                              schedules: map<int, Schedule>, assignments: seq<Assignment>,
                              modelPresent: bool, modelError: Option<string>, vision: Vision<Img>,
                              clock: Clock, codec: JsonCodec, stamps: Stamps,
                              checkInError: string) returns (r: Result<Attendance>)
    requires table.Valid()
    modifies table
    ensures table.Valid() && table.nextId == old(table.nextId)
    ensures (r, table.rows) == CheckInEndpointSpec(old(table.rows), id, caller, form, schedules, assignments,
                                                   modelPresent, modelError, vision, clock, codec, stamps, checkInError)
  {
    var gate := CheckInGate(table.rows, id, caller, form, schedules, assignments, modelPresent, codec);
    if gate.Err? {
      return Err(gate.error);
    }
    var route := gate.value;
    // `get_attendance` normalises the payloads of the session's object; a
    // request that ends without a commit discards that
    var committed := table.rows;
    table.rows := table.rows[id := ReadView(table.rows[id], codec)];
    if route.Verified? {
      var reply := VerifiedCheckIn(table, id, route.req, Upload(form.photo.content, form.photo.extension),
                                   caller.account.nim, modelError, vision, schedules, clock, codec, stamps, checkInError);
      if !reply.success {
        table.rows := committed;
        return Err(HttpError(Forbidden, reply.message));
      }
      if reply.attendance.None? {
        table.rows := committed;
        return Err(ResponseInvalid);
      }
      r := ReadResponse(reply.attendance.value, codec);
    } else {
      var url := ImageUrl(id, stamps.compact, form.photo.extension);
      var outcome := table.StudentCheckIn(id, route.req, Some(url), schedules, clock, codec);
      match outcome
      case Missing =>
        table.rows := committed;
        r := Err(HttpError(NotFound, "Failed to update attendance record"));
      case Failed =>
        table.rows := committed;
        r := Err(HttpError(ServerError, checkInError));
      case Done(a) => r := ReadResponse(a, codec);
    }
  }

  // ---------------------------------------------------------------------
  // POST /attendances/ and /attendances/multiple

  /** The checks of the single create endpoint. For an instructor the
      handler reads `current_user.instructor_id` from a dict, which raises
      once the schedule is found. */
  function CreateGate(userType: string, scheduleId: int, schedules: map<int, Schedule>): (r: Option<HttpError>)
    ensures userType == "admin" ==> r.None?
    ensures r.None? ==> userType == "admin"
    ensures userType == "instructor" && scheduleId !in schedules ==> r.Some? && r.value.status == NotFound
    ensures userType == "instructor" && scheduleId in schedules ==> r.Some? && r.value.status == ServerError
  {
    if userType != "admin" && userType != "instructor" then
      Some(HttpError(Forbidden, "Only admins or instructors can create attendance records"))
    else if userType == "instructor" then
      match GetSchedule(schedules, scheduleId)
      case Err(e) => Some(e)
      case Ok(_) => Some(HttpError(ServerError, "'dict' object has no attribute 'instructor_id'"))
    else None
  }

  /** The bulk endpoint adds the empty-list check before the schedule check. */
  function BulkCreateGate(userType: string, studentIds: seq<int>, scheduleId: int,
                          schedules: map<int, Schedule>): (r: Option<HttpError>)
    ensures studentIds == [] && (userType == "admin" || userType == "instructor") ==>
              r == Some(HttpError(BadRequest, "At least one student ID must be provided"))
    ensures studentIds != [] ==> r == CreateGate(userType, scheduleId, schedules)
    ensures r.None? ==> studentIds != [] && userType == "admin"
  {
    if userType != "admin" && userType != "instructor" then
      Some(HttpError(Forbidden, "Only admins or instructors can create attendance records"))
    else if studentIds == [] then
      Some(HttpError(BadRequest, "At least one student ID must be provided"))
    else CreateGate(userType, scheduleId, schedules)
  }

  method BulkCreateEndpoint(table: AttendanceTable, userType: string, studentIds: seq<int>, scheduleId: int,
                            schedules: map<int, Schedule>, clock: Clock) returns (r: Result<seq<int>>)
    requires table.Valid()
    modifies table
    ensures table.Valid()
    ensures BulkCreateGate(userType, studentIds, scheduleId, schedules).Some? ==>
              r == Err(BulkCreateGate(userType, studentIds, scheduleId, schedules).value) && table.rows == old(table.rows)
    ensures r.Ok? ==> |r.value| == |studentIds| > 0
    ensures r.Ok? ==> forall k :: 0 <= k < |r.value| ==>
              (r.value[k] !in old(table.rows) && r.value[k] in table.rows
               && table.rows[r.value[k]] == Placeholder(studentIds[k], scheduleId, clock))
    ensures r.Ok? ==> table.rows.Keys == old(table.rows).Keys + Members(r.value)
  {
    var refusal := BulkCreateGate(userType, studentIds, scheduleId, schedules);
    if refusal.Some? {
      return Err(refusal.value);
    }
    var ids := table.CreateMultiple(studentIds, scheduleId, clock);
    if ids == [] {
      return Err(HttpError(ServerError, "Failed to create attendance records"));
    }
    r := Ok(ids);
  }

  // ---------------------------------------------------------------------
  // DELETE /attendances/multiple

  method BulkDeleteEndpoint(table: AttendanceTable, ids: seq<int>) returns (r: Result<nat>)
    requires table.Valid()
    modifies table
    ensures table.Valid()
    ensures ids == [] ==> r == Err(HttpError(BadRequest, "At least one attendance ID must be provided"))
                          && table.rows == old(table.rows)
    ensures ids != [] ==> r.Ok? && r.value == DeletedCount(old(table.rows).Keys, ids)
                          && table.rows == old(table.rows) - Members(ids)
  {
    if ids == [] {
      return Err(HttpError(BadRequest, "At least one attendance ID must be provided"));
    }
    var count := table.DeleteMultiple(ids);
    r := Ok(count);
  }

  // ---------------------------------------------------------------------
  // PATCH /attendances/{id}

  /** The handler's rewrite of the validated body: `updated_at` is always
      stamped with the UTC+7 time, and present payloads go through
      `process_json_field`. */
  function NormalisePatch(p: AttendancePatch, clock: Clock, codec: JsonCodec): (r: AttendancePatch)
    ensures r.updatedAt == Put(Some(clock.jakarta))
    ensures r.status == p.status && r.imageUrl == p.imageUrl
    ensures r.location.Keep? <==> p.location.Keep?
    ensures r.face.Keep? <==> p.face.Keep?
    ensures r.location.Put? ==> r.location.value == ProcessJsonField(p.location.value, codec)
    ensures r.face.Put? ==> r.face.value == ProcessJsonField(p.face.value, codec)
  {
    p.(updatedAt := Put(Some(clock.jakarta)),
       location := if p.location.Put? then Put(ProcessJsonField(p.location.value, codec)) else Keep,
       face := if p.face.Put? then Put(ProcessJsonField(p.face.value, codec)) else Keep)
  }

  /** A body that passed `AttendanceUpdate` validation. */
  predicate Validated(p: AttendancePatch, codec: JsonCodec) {
    (p.location.Put? ==> UpdateField(p.location.value, codec) == Some(p.location.value))
    && (p.face.Put? ==> UpdateField(p.face.value, codec) == Some(p.face.value))
  }

  /** On a validated body the payload rewrite changes nothing: only the
      timestamp is added. */
  lemma NormaliseOnlyStamps(p: AttendancePatch, clock: Clock, codec: JsonCodec)
    requires Validated(p, codec)
    ensures NormalisePatch(p, clock, codec) == p.(updatedAt := Put(Some(clock.jakarta)))
  {
  }

  /** PATCH on a body FastAPI has validated (another body is refused with
      422 before the handler runs). The record `update_attendance` returns
      is answered through `AttendanceRead`, after its commit. */
  method PatchEndpoint(table: AttendanceTable, id: int, p: AttendancePatch, clock: Clock, codec: JsonCodec)
    returns (r: Result<Attendance>)
    requires table.Valid() && Validated(p, codec)
    modifies table
    ensures table.Valid()
    ensures id !in old(table.rows) ==> r == Err(HttpError(NotFound, "Attendance not found")) && table.rows == old(table.rows)
    ensures id in old(table.rows) && p.status == Put(None) ==>
              r.Err? && r.error.status == ServerError && table.rows == old(table.rows)
    ensures id in old(table.rows) && p.status != Put(None) ==>
              var b := Patched(old(table.rows)[id], NormalisePatch(p, clock, codec));
              table.rows == old(table.rows)[id := b] && r == ReadResponse(ReadView(b, codec), codec)
              && b.updatedAt == Some(clock.jakarta)
    // a validated body changes nothing but the fields it supplies and the stamp
    ensures id in old(table.rows) && p.status != Put(None) ==>
              table.rows[id] == Patched(old(table.rows)[id], p.(updatedAt := Put(Some(clock.jakarta))))
  {
    NormaliseOnlyStamps(p, clock, codec);
    var outcome := table.Update(id, NormalisePatch(p, clock, codec), codec);
    match outcome
    case Missing => r := Err(HttpError(NotFound, "Attendance not found"));
    case Failed => r := Err(HttpError(ServerError, "NOT NULL constraint failed"));
    case Done(a) => r := ReadResponse(a, codec);
  }
}
