# Campus attendance: the check-in engine

This project models the core of a campus attendance service. The service is
a FastAPI application over SQLite. The model covers:

- **Attendance records.** A record is created as an ABSENT placeholder, singly
  or in bulk. A check-in marks it PRESENT or LATE against the schedule's
  `"HH:MM[:SS]"` start time. A direct check-in updates today's record for a
  (student, schedule) pair, or inserts one. Records can be updated and deleted.
- **Payload validators.** These normalise location and face payloads into a
  mapping.
- **Face-verification decision.** The NIM (student number) is taken from the
  classifier's label and compared with the student's own.
- **Check-in endpoint.** The gate that decides between the verified path and
  the direct path.
- **Room-conflict rule.** The rule for schedules, and the update merge that
  feeds it.
- **Small tables.** Students, instructors, admins, courses and rooms:
  successor lookup, password changes, partial updates and guarded deletes.

Each table is a class with a `rows: map<int, _>` field and the autoincrement
counter `nextId`. Each state-changing operation is a method. The method is
proved equal to a pure specification function, and the rules the service
promises are lemmas about those functions.

Some dependencies are passed in as parameters:

- password hashing (`Tables.Hasher`);
- `json.loads` / `json.dumps` (`Values.JsonCodec`);
- the clocks (`Clock.Clock`: Jakarta time, UTC and the server's naive time);
- the computer-vision stages (`FaceVerification.Vision`);
- the timestamp strings (`FaceVerification.Stamps`).

Python values are the `Values.Value` datatype. Floats are carried as their
printed text, because no decision reads them.

Modules, one per file:

- `values.dfy`: Python values, `str()`.
- `clock.dfy`: datetimes, clocks.
- `tables.dfy`: partial updates, errors, ORDER BY / OFFSET / LIMIT, the wrap-around successor.
- `start_time.dfy`: `split`, `int()`, reading a start time.
- `schedule_crud.dfy`, `schedule_router.dfy`: schedules.
- `attendance_crud.dfy`, `attendance_schemas.dfy`, `attendance_router.dfy`: attendance.
- `face_verification.dfy`: face verification.
- `student_crud.dfy`, `instructor_crud.dfy`, `admin_crud.dfy`, `course_crud.dfy`, `room_crud.dfy`: the small tables.

## Model

| member | source | states |
|---|---|---|
| Values.NatToString | app/crud/attendance.py:195-196 | `str()` of a natural number is a non-empty run of decimal digits with no leading zero |
| Values.NatToStringRoundTrip | app/crud/attendance.py:195-196 | reading back the digits `str()` printed gives the number again |
| Values.IntToStringSign | app/crud/attendance.py:195-196 | `str(i)` starts with '-' exactly when i is negative |
| Values.IntToStringInjective | app/crud/attendance.py:195-196 | distinct ints print differently, so `{"data": str(i)}` identifies i |
| Clock.Combine | app/crud/attendance.py:104-109 | `datetime.combine(today, time)` is a valid datetime on that day at exactly that whole second |
| Tables.KeysIn | app/crud/student.py:172-177 | `WHERE lo <= id < hi ORDER BY id`: exactly the keys in range, strictly ascending |
| Tables.FirstIn | app/crud/student.py:172-177 | `ORDER BY id LIMIT 1`: the smallest key in range, or None when there is none |
| Tables.NextKey | app/crud/student.py:172-184 | the smallest id greater than the current one, else the smallest id (wrap-around); None iff the table is empty |
| Tables.Page | app/crud/room.py:65 | SQLite OFFSET/LIMIT: exactly min(limit, rows left after the offset) rows, the k-th being row offset+k; all remaining rows when the limit is negative |
| Tables.PageAscending | app/crud/student.py:63 | a page of an ascending id list is ascending |
| Tables.DeleteParent | app/models/student.py:24 | deleting a parent that a NOT NULL child column names fails at commit and changes nothing; an unknown id is not found; otherwise exactly that row is removed and returned |
| Tables.DeleteParentKeepsResolved | app/models/attendance.py:12-13 | a delete that goes through never leaves a child naming a missing parent |
| StartTime.Split | app/crud/attendance.py:103 | `str.split(sep)` gives at least one piece and no piece contains the separator |
| StartTime.SplitJoin | app/crud/attendance.py:103 | joining the pieces with the separator gives back the text (the inverse of split) |
| StartTime.SplitAfter | app/crud/attendance.py:103 | a separator-free prefix followed by the separator splits off as the first piece |
| StartTime.SplitWhole | app/crud/attendance.py:103 | text without the separator is one piece |
| StartTime.SplitFirst | app/crud/attendance.py:103 | the first piece is the text up to the first separator |
| StartTime.Unsigned | app/crud/attendance.py:105-107 | a digit run is a number exactly when it is non-empty and all digits |
| StartTime.TrimNothing | app/crud/attendance.py:105-107 | `int()` trims nothing from text that neither starts nor ends with white space |
| StartTime.PyIntOfDigits | app/crud/attendance.py:105-107 | `int()` of a digit run (optionally signed) is its decimal value |
| StartTime.PyIntOfIntToString | app/crud/attendance.py:105-107 | `int(str(i)) == i` |
| StartTime.ParseStartTime | app/crud/attendance.py:103-108 | a start time that is read is a second of the day and came from at least two ':'-pieces |
| StartTime.Pad2 | app/crud/attendance.py:103-108 | a zero-padded two-digit field is two digits |
| StartTime.DigitRoundTrip | app/crud/attendance.py:105-107 | a digit character reads back as its value |
| StartTime.PyIntPad2 | app/crud/attendance.py:105-107 | `int()` of a padded two-digit field gives the number back |
| StartTime.SplitHMS | app/crud/attendance.py:103 | "HH:MM:SS" (and anything after a further ':') splits into its three fields |
| StartTime.SplitHMSTail | app/crud/attendance.py:103 | "HH:MM:SS:" + tail splits into the three fields followed by the pieces of the tail |
| StartTime.SplitHM | app/crud/attendance.py:103 | "HH:MM" splits into its two fields |
| StartTime.ParseHMS | app/crud/attendance.py:103-108 | "HH:MM:SS" reads as the second of the day it names |
| StartTime.ParseHM | app/crud/attendance.py:103-108 | "HH:MM" reads with the seconds defaulting to zero |
| StartTime.ParseIgnoresTail | app/crud/attendance.py:103-108 | pieces after the third are never looked at |
| StartTime.ParseOfFields | app/crud/attendance.py:103-108 | a text whose first three pieces read as an in-range hour, minute and second names that second of the day |
| StartTime.ParseNeedsColon | app/crud/attendance.py:103-108 | a start time without ':' cannot be read (`parts[1]` raises) |
| ScheduleCrud.TextLessIrreflexive | app/crud/schedule.py:299-301 | the TEXT order the conflict query compares with is irreflexive |
| ScheduleCrud.TextLessTransitive | app/crud/schedule.py:299-301 | the TEXT order is transitive |
| ScheduleCrud.TextLessTotal | app/crud/schedule.py:299-301 | the TEXT order is total |
| ScheduleCrud.TextLessAsymmetric | app/crud/schedule.py:299-301 | the TEXT order is asymmetric |
| ScheduleCrud.ClashesIsOverlap | app/crud/schedule.py:299-301 | for forward slots the three OR-ed clauses hold iff the half-open intervals overlap (both directions) |
| ScheduleCrud.BackToBackNoClash | app/crud/schedule.py:299-301 | back-to-back slots never conflict |
| ScheduleCrud.ExcludeIsRemove | app/crud/schedule.py:304-305 | excluding the schedule being updated answers as if it were not in the table: no self-conflict |
| ScheduleCrud.ConflictNeedsRoomAndDate | app/crud/schedule.py:296-298 | a conflict is always with a schedule in the same room on the same date |
| ScheduleCrud.OtherRoomOrDateIrrelevant | app/crud/schedule.py:296-298 | adding a schedule in another room or on another date changes no answer |
| ScheduleCrud.UnpaddedTimesMisorder | app/crud/schedule.py:299-301 | unpadded times misorder: "10:00" sorts before "9:00", so a real overlap goes undetected |
| ScheduleCrud.UnpaddedTimesParse | app/crud/attendance.py:103-108 | the same unpadded texts are valid start times for the check-in rule, 9:00 before 10:00 |
| ScheduleCrud.ParseOfHourMinute | app/crud/attendance.py:103-108 | an "h:m" text reads as h hours and m minutes when `int()` reads both fields in range, and fails otherwise |
| ScheduleCrud.GetSchedule | app/crud/schedule.py:176-181 | `get_schedule`: the row for a known id, 404 otherwise |
| ScheduleCrud.CreateRefusal | app/crud/schedule.py:35-53 | create is refused with 404 unless the instructor is set and known, the course is known, and a truthy room id is known |
| ScheduleCrud.UpdateRefusal | app/crud/schedule.py:208-228 | referenced ids are checked only when supplied; an update supplying none of them is never refused |
| ScheduleCrud.Updated | app/crud/schedule.py:230-232 | the setattr loop: every unset field keeps its value, supplied ones are taken, an empty update changes nothing |
| ScheduleCrud.UpdatedTakesSuppliedValues | app/crud/schedule.py:230-232 | every supplied non-null value is what the row holds afterwards |
| ScheduleCrud.ScheduleTable.constructor | app/crud/schedule.py:15-70 | an empty schedule table satisfies the table invariant |
| ScheduleCrud.ScheduleTable.Create | app/crud/schedule.py:15-70 | refused requests change nothing; otherwise one row with the next id is added |
| ScheduleCrud.ScheduleTable.Update | app/crud/schedule.py:206-238 | 404 or a refusal changes nothing; otherwise the row becomes `Updated(row, patch)` |
| ScheduleCrud.ScheduleTable.Delete | app/crud/schedule.py:260-263 | 404 for an unknown id; a schedule with attendance records fails at commit (500) and nothing changes; otherwise that row is removed and returned, and no attendance record is left dangling |
| ScheduleCrud.ScheduleTable.CheckConflict | app/crud/schedule.py:266-308 | the scan answers exactly the conflict predicate |
| ScheduleRouter.StorePreservesConflictFree | app/routers/schedule.py:65-78 | storing a forward slot the conflict check passed keeps the table free of double bookings |
| ScheduleRouter.CreateDecision | app/routers/schedule.py:54-78 | 403 for an instructor creating for someone else; 400 only for a room conflict; accepted otherwise |
| ScheduleRouter.CreateKeepsConflictFree | app/routers/schedule.py:54-78 | an accepted create of a forward slot keeps the table free of double bookings |
| ScheduleRouter.ListFilter | app/routers/schedule.py:115-127 | an admin's filter passes through; an instructor asking for another id gets 403, otherwise the filter is forced to their own id |
| ScheduleRouter.ReadSchedule | app/routers/schedule.py:166-180 | 404 first; then an instructor sees only their own schedules |
| ScheduleRouter.Merged | app/routers/schedule.py:249-268 | the supplied value when it is not None, else the stored one |
| ScheduleRouter.MergedRoom | app/routers/schedule.py:249-253 | the same merge for the optional room |
| ScheduleRouter.UpdateDecision | app/routers/schedule.py:213-282 | 404, ownership, reassignment, then the conflict check on the merged slot that excludes the schedule itself, in that order |
| ScheduleRouter.UpdateKeepsConflictFree | app/routers/schedule.py:242-284 | an accepted update that keeps the slot forward keeps the table free of double bookings |
| ScheduleRouter.InstructorMayUnassign | app/routers/schedule.py:231-239 | a null instructor id is not checked, so an instructor may unassign their own schedule |
| ScheduleRouter.CreateEndpoint | app/routers/schedule.py:54-78 | the table changes only when the decision and `create_schedule` both accept |
| ScheduleRouter.UpdateEndpoint | app/routers/schedule.py:213-285 | the table changes only when the decision and `update_schedule` both accept |
| ScheduleRouter.DeleteEndpoint | app/routers/schedule.py:313-334 | deletes iff the caller may read the schedule and no attendance record names it; a schedule with records gives 500; an instructor never deletes another's |
| AttendanceCrud.ProcessJsonField | app/crud/attendance.py:182-203 | None stays None, a mapping is kept, a number becomes `{"data": str(x)}`, text is parsed or wrapped |
| AttendanceCrud.ProcessJsonFieldIdempotent | app/crud/attendance.py:189-193 | normalising a mapping or None result again changes nothing |
| AttendanceCrud.ProcessJsonFieldIntInjective | app/crud/attendance.py:195-196 | different ints are wrapped differently |
| AttendanceCrud.ProcessJsonFieldBool | app/crud/attendance.py:195-196 | a bool is an int and is wrapped as "True"/"False" |
| AttendanceCrud.GetDayName | app/crud/attendance.py:350-366 | 1..7 named (Senin..Minggu), everything else "Unknown" |
| AttendanceCrud.GetDayNameInjective | app/crud/attendance.py:357-366 | distinct day numbers get distinct names |
| AttendanceCrud.EffectiveCheckIn | app/crud/attendance.py:97-98 | the supplied time (time zone dropped) or Jakarta now |
| AttendanceCrud.CheckInStatus | app/crud/attendance.py:100-120 | PRESENT without a schedule; otherwise PRESENT or LATE, and no status exactly when the start time cannot be read |
| AttendanceCrud.LateIffAfterStart | app/crud/attendance.py:100-118 | for "HH:MM:SS" a check-in is LATE iff strictly after today at that time (equality is PRESENT) |
| AttendanceCrud.LateIffAfterStartMinute | app/crud/attendance.py:100-118 | the same for "HH:MM", seconds defaulting to zero |
| AttendanceCrud.StatusIgnoresScheduleDate | app/crud/attendance.py:101-109 | the schedule's own date plays no part: the start is built on today |
| AttendanceCrud.StatusExample | app/crud/attendance.py:100-120 | against an 08:00:00 start, 07:00 and 08:00:00 are PRESENT and 08:00:01 is LATE |
| AttendanceCrud.ApplyCheckIn | app/crud/attendance.py:97-134 | payloads replaced only when truthy, smile only when not None, image only when given; ids, date and stamps kept |
| AttendanceCrud.CheckInSpec | app/crud/attendance.py:81-139 | None and no change for an unknown id; it fails (no change) exactly when the check-in rule has no answer; otherwise only that record changes, as `ApplyCheckIn` with the effective time and the rule's PRESENT/LATE |
| AttendanceCrud.CheckInLateIffAfterStart | app/crud/attendance.py:97-118 | for an "HH:MM:SS" start the check-in succeeds and stores LATE iff the effective time is on a later day than today in Jakarta or strictly after the start second that day |
| AttendanceCrud.Placeholder | app/crud/attendance.py:25-38 | a created record is ABSENT, dated Jakarta today, with no check-in, payloads or image and smile False |
| AttendanceCrud.DirectCheckInSpec | app/crud/attendance.py:659-725 | None if the schedule is missing; no change if its start time cannot be read; otherwise today's record is overwritten keeping its ids and stamps, or exactly one is inserted with the next id and the server time, and the record holds the status of the check-in rule at the server time |
| AttendanceCrud.DirectCheckInLateIffAfterStart | app/crud/attendance.py:684-698 | for an "HH:MM:SS" start the direct check-in succeeds and stores LATE iff the server time is strictly after today at the start, PRESENT otherwise |
| AttendanceCrud.DirectCheckInKeyGrowsByAtMostOne | app/crud/attendance.py:674-725 | the records for (student, schedule, today) grow by at most one and are never empty afterwards |
| AttendanceCrud.SubsetCard | app/crud/attendance.py:621-636 | a subset is no larger (helper for the delete count) |
| AttendanceCrud.StepTracks | app/crud/attendance.py:628-634 | one `db.get` + `db.delete` step keeps every listed row deleted exactly once and raises the count by at most one |
| AttendanceCrud.StepDeletes | app/crud/attendance.py:628-634 | a `get` that finds an unflushed, undeleted row makes it the one pending delete |
| AttendanceCrud.FreshStep | app/crud/attendance.py:628-634 | an id not listed before adds one to the count exactly when it names a row, as it adds one row to those deleted |
| AttendanceCrud.MembersLast | app/crud/attendance.py:628 | the ids of a list are those before the last one plus the last one |
| AttendanceCrud.BulkDeleteRunTracks | app/crud/attendance.py:621-636 | after the loop every listed existing row is deleted once and the count is between the rows deleted and the number of ids |
| AttendanceCrud.DeletedCountBounds | app/crud/attendance.py:621-636 | the reported count is at least the number of listed rows and at most the number of ids; zero iff no listed id names a row |
| AttendanceCrud.DeletedCountDistinct | app/crud/attendance.py:621-636 | with no repeated id the count is the number of rows removed |
| AttendanceCrud.RunLast | app/crud/attendance.py:628 | the loop over one more id is one more step |
| AttendanceCrud.DeletedCountRepeats | app/crud/attendance.py:628-634 | autoflush: [1, 1] counts 2 (identity-map hit) but [1, 2, 1] counts 2 over two rows (the flushed row is not found again) |
| AttendanceCrud.Patched | app/crud/attendance.py:589-591 | the setattr loop: exactly the supplied fields change |
| AttendanceCrud.StudentColumn | app/models/attendance.py:12 | the `student_id` column: one entry per record, naming exactly the students some record names |
| AttendanceCrud.ScheduleColumn | app/models/attendance.py:13 | the `schedule_id` column: one entry per record, naming exactly the schedules some record names |
| AttendanceCrud.ReadView | app/crud/attendance.py:385-389 | a read normalises only the two payloads, and leaves a mapping or None as it is |
| AttendanceCrud.AttendanceTable.constructor | app/crud/attendance.py:18-42 | an empty table satisfies the invariant |
| AttendanceCrud.AttendanceTable.Create | app/crud/attendance.py:18-42 | adds the placeholder under the next id |
| AttendanceCrud.AttendanceTable.CreateMultiple | app/crud/attendance.py:45-78 | one new placeholder per listed student, in input order, same schedule, no duplicate check; old rows kept |
| AttendanceCrud.AttendanceTable.Get | app/crud/attendance.py:369-391 | the read view of a known record, None otherwise |
| AttendanceCrud.AttendanceTable.StudentCheckIn | app/crud/attendance.py:81-139 | the table and result are those of `CheckInSpec` |
| AttendanceCrud.AttendanceTable.FindToday | app/crud/attendance.py:639-656 | a record of the (student, schedule, today) key, None iff there is none |
| AttendanceCrud.AttendanceTable.DirectCheckIn | app/crud/attendance.py:659-725 | the table and result are those of `DirectCheckInSpec` |
| AttendanceCrud.AttendanceTable.Update | app/crud/attendance.py:576-602 | None for an unknown id; a null status fails; otherwise the record becomes `Patched` and its read view is returned |
| AttendanceCrud.AttendanceTable.Delete | app/crud/attendance.py:605-618 | False iff the id is absent; exactly that id is removed |
| AttendanceCrud.AttendanceTable.DeleteMultiple | app/crud/attendance.py:621-636 | the loop follows the session step by step; every listed id is removed and the count reported is `DeletedCount` |
| AttendanceSchemas.CheckInParse | app/schemas/attendance.py:39-53 | like `process_json_field` except that other values (lists) pass through |
| AttendanceSchemas.CheckInField | app/schemas/attendance.py:31-53 | the field accepts None, a mapping or text after parsing; numbers are accepted wrapped, lists refused |
| AttendanceSchemas.EnsureDict | app/schemas/attendance.py:70-84 | `ensure_dict` agrees with `process_json_field` on every value |
| AttendanceSchemas.ReadResponse | app/schemas/attendance.py:55-84 | the `AttendanceRead` reply: `ensure_dict` on both payloads, a 500 exactly when one is then neither None nor a mapping, otherwise the read view |
| AttendanceSchemas.MappingsAnsweredAsStored | app/schemas/attendance.py:70-76 | payloads stored as None or mappings are answered as stored |
| AttendanceSchemas.StoredNumberAnsweredWrapped | app/schemas/attendance.py:84 | a stored number is answered as `{"data": str(n)}` |
| AttendanceSchemas.StoredNumberTextRefused | app/schemas/attendance.py:62-80 | stored text that parses to a number fails response validation (500) |
| AttendanceSchemas.UpdateParse | app/schemas/attendance.py:97-104 | only text is rewritten; everything else passes through |
| AttendanceSchemas.UpdateField | app/schemas/attendance.py:90-104 | the update field ends as None or a mapping; numbers and lists are refused |
| AttendanceSchemas.ValidatorsAgreeOnText | app/schemas/attendance.py:39-104 | the three validators give the same result on any text |
| AttendanceSchemas.ValidatorsKeepMappings | app/schemas/attendance.py:39-104 | the three validators return a mapping unchanged |
| AttendanceSchemas.ValidatorsDifferOnNumbersAndLists | app/schemas/attendance.py:39-104 | off text and mappings they differ: the update validator keeps numbers, `ensure_dict` wraps lists |
| AttendanceSchemas.DefaultCheckInTouchesTimeStatusSmile | app/schemas/attendance.py:33-37 | with the defaults a check-in changes only time, status and smile |
| FaceVerification.ExtractNim | app/services/face_verification_service.py:89-103 | the text before the first "_" of a non-empty label; None for an empty or missing one |
| FaceVerification.ExtractNimIff | app/services/face_verification_service.py:99-103 | a label names `nim` iff it is `nim` alone or `nim` + "_" + anything (both directions) |
| FaceVerification.NimOfLabel | app/services/face_verification_service.py:99-103 | "<nim>_<name>" names `nim` |
| FaceVerification.DetectFace | app/services/face_verification_service.py:141-148 | no face gives None, otherwise the first box |
| FaceVerification.DetectFaceFirstOnly | app/services/face_verification_service.py:144-145 | faces after the first never matter |
| FaceVerification.Refusal | app/services/face_verification_service.py:176-206 | every refusal: not verified, confidence 0.0, no prediction, no face box |
| FaceVerification.Decide | app/services/face_verification_service.py:219-241 | verified iff the NIM extracted from the predicted label is the expected non-empty NIM; the face box is reported |
| FaceVerification.VerifyFace | app/services/face_verification_service.py:145-250 | verified only for the expected NIM; every path without a prediction is a refusal; a face box is reported exactly when there is a prediction |
| FaceVerification.VerifyFaceFailures | app/services/face_verification_service.py:176-206 | bad bytes, bad text and no face each give their own message |
| FaceVerification.NoConfidenceThreshold | app/services/face_verification_service.py:216-225 | the verdict does not depend on the confidence |
| FaceVerification.SharedNimVerifiesBoth | app/services/face_verification_service.py:62-63 | two different labels both verify NIM 11322038 |
| FaceVerification.Summary | app/services/face_verification_service.py:290-297 | the stored summary is {verified, confidence, predicted_name or "", timestamp} in that order |
| FaceVerification.AfterVerdict | app/services/face_verification_service.py:303-350 | a refused photo changes nothing and reports the service message; success needs verification |
| FaceVerification.VerifiedCheckInSpec | app/services/face_verification_service.py:253-358 | the store is written only on success, which needs a loaded model and a verified photo; an exception gives success False |
| FaceVerification.CheckInStoresSummary | app/services/face_verification_service.py:326-337 | on success the record holds the summary and the saved image URL, and its status is the check-in rule's PRESENT/LATE for the effective time and the record's schedule |
| FaceVerification.VerifiedCheckIn | app/services/face_verification_service.py:253-358 | the method's reply and table are those of `VerifiedCheckInSpec` |
| AttendanceRouter.TeachesAsWritten | app/routers/attendance.py:186-188 | the check as written asks for a page of `instructor_course` rows (see Findings) |
| AttendanceRouter.Teaches | app/routers/attendance.py:186-192 | the intended check: an (instructor, course) assignment exists |
| AttendanceRouter.TeachesAsWrittenCounterexample | app/routers/attendance.py:186-188 | the as-written check refuses a teaching instructor and admits a non-teaching one |
| AttendanceRouter.CheckInFromForm | app/routers/attendance.py:194-203 | the form builds a check-in with no time, no image and the sent smile, or a validation error |
| AttendanceRouter.CheckInGate | app/routers/attendance.py:164-223 | 404 for an unknown record; a student only on their own record; staff need a staff role; an instructor must teach; image type checked; model present |
| AttendanceRouter.CheckInRoute | app/routers/attendance.py:166-276 | what the handler returns after the gate: an error leaves the table as committed; success changes only the record, on top of its normalised payloads |
| AttendanceRouter.CheckInSavesNormalisedPayloads | app/crud/attendance.py:385-389 | a payload the check-in does not replace is stored in its normalised form: the read's normalisation is committed |
| AttendanceRouter.NoRoleNoStaffPath | app/routers/attendance.py:164-179 | without a `role` attribute no staff caller passes the gate |
| AttendanceRouter.PhotoChecked | app/routers/attendance.py:205-216 | a missing photo or a non-image type is 400 |
| AttendanceRouter.CheckInEndpointSpec | app/routers/attendance.py:148-276 | only the record can change; an error other than response validation changes nothing; students take the verified path (403 on refusal), staff the direct path; a success answers the stored record through `AttendanceRead`, payloads None or mappings |
| AttendanceRouter.CheckInEndpoint | app/routers/attendance.py:148-276 | the method's reply and table are those of `CheckInEndpointSpec` |
| AttendanceRouter.CreateGate | app/routers/attendance.py:73-92 | admins pass; an instructor gets 404 for a missing schedule, else the 500 of the dict attribute access |
| AttendanceRouter.BulkCreateGate | app/routers/attendance.py:109-133 | an empty student list is 400 before the schedule check |
| AttendanceRouter.BulkCreateEndpoint | app/routers/attendance.py:98-145 | on success one new record per listed student |
| AttendanceRouter.BulkDeleteEndpoint | app/routers/attendance.py:416-438 | an empty id list is 400; otherwise every listed id is removed and `DeletedCount` is returned |
| AttendanceRouter.NormalisePatch | app/routers/attendance.py:378-388 | `updated_at` always stamped; payloads normalised only when supplied |
| AttendanceRouter.NormaliseOnlyStamps | app/routers/attendance.py:378-390 | on a validated body the rewrite changes only the stamp |
| AttendanceRouter.PatchEndpoint | app/routers/attendance.py:366-397 | on a validated body: 404 for an unknown id; otherwise only the supplied fields and the stamp change, and the patched read view is answered through `AttendanceRead` |
| StudentCrud.EncodeFaceStored | app/crud/student.py:35-36 | a face payload is stored as None, {} or JSON text |
| StudentCrud.FaceRoundTrip | app/crud/student.py:35-36 | writing a face payload and reading it back gives the payload (when loads inverts dumps) |
| StudentCrud.CorruptFaceReadsAsNone | app/crud/student.py:93-97 | stored text that does not parse reads as None |
| StudentCrud.CreateStoresHashAndFace | app/crud/student.py:30-38 | a created student stores the password hash, reads its face back as sent, and is stamped |
| StudentCrud.CreateKeepsUnique | app/crud/student.py:30-43 | NIM and username stay unique after a create |
| StudentCrud.UpdateSetsSuppliedFields | app/crud/student.py:211-222 | only supplied fields change; a non-empty password is hashed; face data encoded; `updated_at` stamped |
| StudentCrud.UpdateFailureChangesNothing | app/crud/student.py:207-209 | None for an unknown id; a failed update leaves the table as it was |
| StudentCrud.UpdateKeepsUnique | app/crud/student.py:207-234 | NIM and username stay unique after an update |
| StudentCrud.StudentTable.constructor | app/crud/student.py:13-43 | an empty table satisfies the invariant |
| StudentCrud.StudentTable.Create | app/crud/student.py:13-43 | the table and result are those of the create specification |
| StudentCrud.StudentTable.Get | app/crud/student.py:91-99 | the row with its face data decoded, None for an unknown id |
| StudentCrud.StudentTable.Next | app/crud/student.py:172-184 | some student id, None iff the table is empty (the rule is `Tables.NextKey`) |
| StudentCrud.StudentTable.PageIds | app/crud/student.py:63 | the ids at positions offset.. of the ascending key list, exactly min(limit, remaining) of them, ascending |
| StudentCrud.StudentTable.List | app/crud/student.py:63-72 | one decoded row per id of the page, in order |
| StudentCrud.StudentTable.DecodeAll | app/crud/student.py:65-70 | the loop decodes each row in turn |
| StudentCrud.StudentTable.Update | app/crud/student.py:207-234 | the table and result are those of the update specification |
| StudentCrud.StudentTable.Delete | app/crud/student.py:253-268 | not found for an unknown id; a student with attendance records fails at commit and nothing changes; otherwise exactly that row is removed |
| InstructorCrud.CreateStoresHash | app/crud/instructor.py:28-44 | the hash and both stamps are stored; a duplicate username fails and changes nothing; usernames stay unique |
| InstructorCrud.UpdateSetsSuppliedFields | app/crud/instructor.py:150-167 | None for an unknown id; only supplied fields change; the password hashed; `updated_at` stamped |
| InstructorCrud.UpdateKeepsUnique | app/crud/instructor.py:150-167 | usernames stay unique after an update |
| InstructorCrud.ChangePasswordOutcomes | app/crud/instructor.py:220-233 | None if not found, False and no change on a wrong password, else the new hash and stamp |
| InstructorCrud.NewPasswordVerifies | app/crud/instructor.py:220-233 | after a change the new password is the one that verifies |
| InstructorCrud.Unassigned | app/models/instructor.py:23 | the schedules of a deleted instructor keep everything but lose the instructor id |
| InstructorCrud.DeleteSpec | app/crud/instructor.py:187-193 | an instructor with course assignments fails at commit and nothing changes; an accepted delete removes the row and nulls `instructor_id` on their schedules |
| InstructorCrud.DeleteKeepsInstructorsResolved | app/models/instructor.py:22-23 | after a delete no schedule or assignment names a missing instructor |
| InstructorCrud.InstructorTable.constructor | app/crud/instructor.py:28-44 | an empty table satisfies the invariant |
| InstructorCrud.InstructorTable.Create | app/crud/instructor.py:28-44 | the table and result are those of the create specification |
| InstructorCrud.InstructorTable.Get | app/crud/instructor.py:109 | the row for a known id, None otherwise |
| InstructorCrud.InstructorTable.Next | app/crud/instructor.py:62-74 | some instructor id, None iff the table is empty (the rule is `Tables.NextKey`) |
| InstructorCrud.InstructorTable.Update | app/crud/instructor.py:150-167 | the table and result are those of the update specification |
| InstructorCrud.InstructorTable.Delete | app/crud/instructor.py:187-193 | the instructor and schedule tables and the result are those of `InstructorCrud.DeleteSpec` |
| InstructorCrud.InstructorTable.ChangePassword | app/crud/instructor.py:220-233 | the table and result are those of the password-change specification |
| AdminCrud.CreateOutcomes | app/crud/admin.py:16-32 | a None password fails before anything is written; the hash and stamps are stored; usernames stay unique |
| AdminCrud.UpdateSetsSuppliedFields | app/crud/admin.py:72-89 | None for an unknown id; only supplied fields change; the password hashed; `updated_at` stamped |
| AdminCrud.UpdateKeepsUnique | app/crud/admin.py:72-89 | usernames stay unique after an update |
| AdminCrud.ChangePasswordOutcomes | app/crud/admin.py:117-130 | None if not found, False and no change on a wrong password, else the new hash and stamp |
| AdminCrud.OldPasswordRefusedAfterChange | app/crud/admin.py:117-130 | after a change the old password is refused |
| AdminCrud.AdminTable.constructor | app/crud/admin.py:16-32 | an empty table satisfies the invariant |
| AdminCrud.AdminTable.Create | app/crud/admin.py:16-32 | the table and result are those of the create specification |
| AdminCrud.AdminTable.Update | app/crud/admin.py:72-89 | the table and result are those of the update specification |
| AdminCrud.AdminTable.Delete | app/crud/admin.py:99-105 | False iff the id is absent; exactly that row is removed |
| AdminCrud.AdminTable.ChangePassword | app/crud/admin.py:117-130 | the table and result are those of the password-change specification |
| CourseCrud.GetCourse | app/crud/course.py:26-32 | the row for a known id, 404 otherwise |
| CourseCrud.UpdateReplacesFields | app/crud/course.py:58-67 | 404 for an unknown id; otherwise both fields replaced and the creation time kept |
| CourseCrud.DeleteRefusedWhileScheduled | app/crud/course.py:77-87 | 400 and no change while a schedule refers to the course; 500 and no change while an instructor is assigned to it; otherwise removed and returned |
| CourseCrud.DeleteKeepsCoursesResolved | app/crud/course.py:79-83 | a delete never leaves a schedule or an assignment pointing at a missing course |
| CourseCrud.CourseTable.constructor | app/crud/course.py:42-48 | an empty table satisfies the invariant |
| CourseCrud.CourseTable.Create | app/crud/course.py:42-48 | stores name, sks and the Jakarta time under the next id |
| CourseCrud.CourseTable.Update | app/crud/course.py:58-67 | the table and result are those of the update specification |
| CourseCrud.CourseTable.Delete | app/crud/course.py:77-87 | the table and result are those of the guarded delete specification |
| RoomCrud.PercentMatchesAll | app/crud/room.py:62-63 | the LIKE pattern "%" matches every text |
| RoomCrud.PlainPrefix | app/crud/room.py:62-63 | a wildcard-free pattern followed by "%" matches exactly the texts it prefixes, up to ASCII case |
| RoomCrud.LeadingPercent | app/crud/room.py:62-63 | a leading "%" matches iff the rest matches some suffix |
| RoomCrud.FilterMeansContains | app/crud/room.py:62-63 | for a wildcard-free filter, ILIKE '%q%' holds iff the name contains q, up to ASCII case |
| RoomCrud.UnderscoreFilterMatchesAnyName | app/crud/room.py:62-63 | "_" in the filter is a wildcard, so it lists names that contain no underscore |
| RoomCrud.Matching | app/crud/room.py:62-65 | exactly the ids whose rows pass the filter, from the given ids |
| RoomCrud.RowsOf | app/crud/room.py:65 | the rows of the ids, in order |
| RoomCrud.GetRooms | app/crud/room.py:60-66 | exactly the page at the offset of the ascending passing rooms, min(limit, remaining) of them; without paging every passing room |
| RoomCrud.ListedRoomsContainFilter | app/crud/room.py:62-65 | with a plain filter every listed room contains it, and without paging every such room is listed |
| RoomCrud.GetRoom | app/crud/room.py:87-93 | the row for a known id, 404 otherwise |
| RoomCrud.UpdateSetsSuppliedFields | app/crud/room.py:116-126 | 404 for an unknown id; a null fails and changes nothing; otherwise only supplied fields change |
| RoomCrud.DeleteRefusedWhileBooked | app/crud/room.py:149-157 | 400 and no change while a schedule books the room; otherwise removed and returned |
| RoomCrud.DeleteKeepsRoomsResolved | app/crud/room.py:150-155 | a delete never leaves a schedule booking a missing room |
| RoomCrud.RoomTable.constructor | app/crud/room.py:27-38 | an empty table satisfies the invariant |
| RoomCrud.RoomTable.Create | app/crud/room.py:27-38 | stores the room under the next id |
| RoomCrud.RoomTable.Update | app/crud/room.py:116-126 | the table and result are those of the update specification |
| RoomCrud.RoomTable.Delete | app/crud/room.py:149-157 | the table and result are those of the guarded delete specification |

## Left out

- `int()` of text with underscores or non-ASCII digits is not modelled: `StartTime.PyInt` accepts ASCII digits only. `repr` escaping of nested strings is not modelled either.
- The ON_GOING status is never set by the modelled code, so it does not appear.
- `DELETE /attendances/multiple` is declared after `DELETE /attendances/{attendance_id}`, so the web framework routes it to the single delete. `AttendanceRouter.BulkDeleteEndpoint` models the handler as if it were reached.
- Floats, including room coordinates and the classifier's confidence, are carried as their printed text and never compared.
- The reflection-built responses are not modelled: `get_attendances`, `get_student_attendances` and `get_course_attendances`. They introspect objects with `dir`/`getattr`.
- `get_active_student_schedule` is not modelled. It filters on a column the schedule model no longer has.
- Database sessions are modelled only where they change what is stored or returned. Those places are the bulk delete's autoflush (`AttendanceCrud.DeleteStep`), the check-in committing `get_attendance`'s normalised payloads (`AttendanceRouter.CheckInRoute`), and a commit that raises on a NOT NULL foreign key (`Tables.DeleteParent`). Transactions otherwise and concurrent check-ins are not modelled; each operation is atomic on the maps it changes.
- File I/O is not modelled: image saving, deleting the old image, and the existence of the model file. The model file's presence is a boolean input, and image URLs are built from the timestamp the caller supplies.
- JWT and bcrypt are function parameters (`Tables.Hasher`); their correctness is assumed where a lemma needs it.
- The image decoding, face detection and Keras classifier are the `FaceVerification.Vision` parameter. Each stage may raise.
- Timestamp strings (`str(datetime.now())`, `strftime`) are the `FaceVerification.Stamps` parameter.
- The `ondelete="CASCADE"` of the attendance and `instructor_course` columns never fires: the session sets the children's column to NULL before the parent's DELETE, and the NOT NULL column makes that commit fail (`Tables.DeleteParent`). The error is modelled as FastAPI's 500 reply; the rolled-back session is not.
- SQLite rowid reuse is not modelled. Ids come from a counter that never decreases.
- Queries without ORDER BY are taken to return rows in id order.
- A `verified` value that is not a bool is read by its truthiness only. Validation-error detail texts are not modelled.
- `AttendanceRouter.CreateGate`: the single create endpoint is modelled only as its gate. For an instructor the handler raises (500) before it writes, and for an admin the write is `AttendanceCrud.AttendanceTable.Create`.
- `update_face_data`, `get_student_by_username` and `get_student_by_nim` are not modelled beyond the shared face decoding (`StudentCrud.DecodeFace`).
- The getters that only read one row by another key or list a page are not modelled: `get_instructors`, `get_admins`, `get_admin`, `get_courses`, `get_schedules`.
- Schema length and pattern checks are not modelled, except `CourseCrud.Accepted`.
- `RoomCrud.GetRooms`: containment is proved only for filters without `%` or `_`. With wildcards the filter is LIKE itself, which `RoomCrud.UnderscoreFilterMatchesAnyName` illustrates.
- `AttendanceRouter.CheckInGate`: the instructor check uses the corrected `AttendanceRouter.Teaches`, not the as-written `AttendanceRouter.TeachesAsWritten` (see Findings). The two differ (`AttendanceRouter.TeachesAsWrittenCounterexample`), but no caller reaches that check as deployed: a staff account has no `role` attribute (`AttendanceRouter.NoRoleNoStaffPath`).
- `AttendanceRouter.CheckInEndpointSpec`: does not promise that every error leaves the table unchanged. A reply that fails response validation (500) is raised after the handler has committed the check-in.
- `ScheduleRouter.UpdateKeepsConflictFree`: the service never checks that a slot starts before it ends. The conflict-freedom lemmas therefore assume forward slots (`ScheduleRouter.WellFormedSlots`) instead of proving them.

## Findings

| source | as written | input that shows it | evidently intended | confidence | as-written member | corrected member |
|---|---|---|---|---|---|---|
| app/routers/attendance.py:186-188 | `get_instructor_courses(db, instructor_id, course_id)` is called, but its parameters are `(db, skip, limit)` (app/crud/instructor_course.py:40-66). So the check asks whether the page at OFFSET instructor_id, LIMIT course_id of all assignments is non-empty. | With assignments `[(1, 5)]`, instructor 1 and course 5 is refused. With assignments `[(2, 9)]`, instructor 0 and course 5 is admitted. | Admit an instructor exactly when an assignment (instructor, course) exists. | not executed | AttendanceRouter.TeachesAsWritten, AttendanceRouter.TeachesAsWrittenCounterexample | AttendanceRouter.Teaches |
