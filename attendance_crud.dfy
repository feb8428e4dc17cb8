/** The attendance table and the check-in engine.

    A record starts as an ABSENT placeholder for one student and one
    schedule on one day; a check-in stamps the time, sets PRESENT or LATE by
    comparing the check-in with the schedule's start time on the current day,
    and stores the location and face payloads.
 */
module AttendanceCrud {
  import opened Values
  import opened Clock
  import opened Tables
  import opened StartTime
  import opened ScheduleCrud

  const Present: string := "PRESENT"
  const Late: string := "LATE"
  const Absent: string := "ABSENT"

  datatype Attendance = Attendance(
    studentId: int,
    scheduleId: int,
    date: int,
    checkInTime: Option<DateTime>,
    status: string,
    location: Value,
    face: Value,
    smile: bool,
    imageUrl: Option<string>,
    createdAt: DateTime,
    updatedAt: Option<DateTime>)

  // ---------------------------------------------------------------------
  // Payload normalisation

  /** `process_json_field`: None stays None, a mapping is kept, a JSON text
      is parsed (or wrapped as {"data": text} when it does not parse), and any
      other value becomes {"data": str(value)}. */
  function ProcessJsonField(v: Value, codec: JsonCodec): (r: Value)
    ensures v.Null? ==> r.Null?
    ensures v.Dict? ==> r == v
    ensures !v.Str? && !v.Null? ==> r.Dict?
    ensures v.Int? ==> r == DataWrap(IntToString(v.i))
    ensures v.Float? ==> r == DataWrap(v.f.repr)
    ensures v.Str? && codec.loads(v.s).None? ==> r == DataWrap(v.s)
    ensures v.Str? && codec.loads(v.s).Some? ==> r == codec.loads(v.s).value
  {
    match v
    case Null => Null
    case Dict(_) => v
    case Str(s) => if codec.loads(s).Some? then codec.loads(s).value else DataWrap(s)
    case _ => DataWrap(Show(v))
  }

  /** Normalising again changes nothing once the result is a mapping or None. */
  lemma ProcessJsonFieldIdempotent(v: Value, codec: JsonCodec)
    requires ProcessJsonField(v, codec).Dict? || ProcessJsonField(v, codec).Null?
    ensures ProcessJsonField(ProcessJsonField(v, codec), codec) == ProcessJsonField(v, codec)
  {
  }

  /** Different integers are wrapped differently: the wrapping loses nothing. */
  lemma ProcessJsonFieldIntInjective(i: int, j: int, codec: JsonCodec)
    requires ProcessJsonField(Int(i), codec) == ProcessJsonField(Int(j), codec)
    ensures i == j
  {
    assert DataWrap(IntToString(i)).entries[0].1 == Str(IntToString(i));
    IntToStringInjective(i, j);
  }

  /** A boolean is a Python int, so it is wrapped by its printed name. */
  lemma ProcessJsonFieldBool(b: bool, codec: JsonCodec)
    ensures ProcessJsonField(Bool(b), codec) == DataWrap(if b then "True" else "False")
  {
  }

  /** `get_day_name`. */
  function GetDayName(n: int): (r: string)
    ensures (1 <= n <= 7) <==> r != "Unknown"
    ensures n == 1 ==> r == "Senin"
    ensures n == 7 ==> r == "Minggu"
  {
    if n == 1 then "Senin"
    else if n == 2 then "Selasa"
    else if n == 3 then "Rabu"
    else if n == 4 then "Kamis"
    else if n == 5 then "Jumat"
    else if n == 6 then "Sabtu"
    else if n == 7 then "Minggu"
    else "Unknown"
  }

  /** Distinct day numbers get distinct names. */
  lemma GetDayNameInjective(n: int, m: int)
    requires 1 <= n <= 7 && 1 <= m <= 7 && GetDayName(n) == GetDayName(m)
    ensures n == m
  {
  }

  // ---------------------------------------------------------------------
  // The status rule

  /** `check_in_data.check_in_time or now`, with any time zone dropped. */
  function EffectiveCheckIn(given: Option<Instant>, clock: Clock): (t: DateTime)
    ensures given.Some? ==> t == given.value.wall
    ensures given.None? ==> t == clock.jakarta
  {
    StripTz(if given.Some? then given.value else JakartaNow(clock))
  }

  /** The status a check-in at wall time `t` earns on `today`: with no
      schedule PRESENT; otherwise LATE exactly when `t` is strictly after the
      start time on `today`. None when the start time cannot be read. */
  function CheckInStatus(t: DateTime, schedule: Option<Schedule>, today: int): (r: Option<string>)
    ensures schedule.None? ==> r == Some(Present)
    ensures schedule.Some? ==> (r.None? <==> ParseStartTime(schedule.value.startTime).None?)
    ensures r.Some? ==> r.value == Present || r.value == Late
  {
    match schedule
    case None => Some(Present)
    case Some(s) =>
      match ParseStartTime(s.startTime)
      case None => None
      case Some(second) => Some(if Later(t, Combine(today, second)) then Late else Present)
  }

  /** For a start time written "HH:MM:SS", a check-in is LATE exactly when it
      falls on a later day, or on the same day strictly after that second;
      checking in at the start second itself is PRESENT. */
  lemma LateIffAfterStart(t: DateTime, s: Schedule, today: int, h: nat, m: nat, sec: nat)
    requires h < 24 && m < 60 && sec < 60 && s.startTime == FormatHMS(h, m, sec)
    ensures CheckInStatus(t, Some(s), today).Some?
    ensures CheckInStatus(t, Some(s), today).value == Late
        <==> t.day > today || (t.day == today && t.micros > (h * 3600 + m * 60 + sec) * MicrosPerSecond)
  {
    ParseHMS(h, m, sec);
  }

  /** "HH:MM" start times count from second zero of that minute. */
  lemma LateIffAfterStartMinute(t: DateTime, s: Schedule, today: int, h: nat, m: nat)
    requires h < 24 && m < 60 && s.startTime == FormatHM(h, m)
    ensures CheckInStatus(t, Some(s), today).Some?
    ensures CheckInStatus(t, Some(s), today).value == Late
        <==> t.day > today || (t.day == today && t.micros > (h * 3600 + m * 60) * MicrosPerSecond)
  {
    ParseHM(h, m);
  }

  /** The schedule's own date plays no part: the start instant is built on
      the day of the check-in request, so a check-in for yesterday's class
      made today at 07:00 against an 08:00 start is PRESENT. */
  lemma StatusIgnoresScheduleDate(t: DateTime, s: Schedule, today: int, otherDate: int)
    ensures CheckInStatus(t, Some(s), today) == CheckInStatus(t, Some(s.(date := otherDate)), today)
  {
  }

  /** Against an 08:00:00 start on day 10: 07:00 and 08:00:00 itself are
      PRESENT, one second later is LATE. */
  lemma StatusExample()
    ensures var s := Some(Schedule(1, None, None, None, 9, FormatHMS(8, 0, 0), FormatHMS(10, 0, 0), DateTime(0, 0)));
            CheckInStatus(DateTime(10, 7 * 3600 * MicrosPerSecond), s, 10) == Some(Present)
            && CheckInStatus(DateTime(10, 8 * 3600 * MicrosPerSecond), s, 10) == Some(Present)
            && CheckInStatus(DateTime(10, (8 * 3600 + 1) * MicrosPerSecond), s, 10) == Some(Late)
  {
    ParseHMS(8, 0, 0);
  }

  // ---------------------------------------------------------------------
  // Check-in

  /** The validated body of a check-in (`AttendanceCheckIn`); `location` and
      `face` use Null for None. */
  datatype CheckIn = CheckIn(
    checkInTime: Option<Instant>,
    location: Value,
    face: Value,
    smile: Option<bool>,
    imageCapturedUrl: Option<string>)

  /** The in-place changes of `student_check_in` to an existing record, once
      the status is known. */
  function ApplyCheckIn(a: Attendance, req: CheckIn, imageUrl: Option<string>, t: DateTime, status: string, codec: JsonCodec): (r: Attendance)
    // who, which class, which day and the timestamps are untouched
    ensures r.studentId == a.studentId && r.scheduleId == a.scheduleId && r.date == a.date
    ensures r.createdAt == a.createdAt && r.updatedAt == a.updatedAt
    ensures r.checkInTime == Some(t) && r.status == status
    // payloads are replaced only by truthy input
    ensures r.location == (if Truthy(req.location) then ProcessJsonField(req.location, codec) else a.location)
    ensures r.face == (if Truthy(req.face) then ProcessJsonField(req.face, codec) else a.face)
    // smile only when given, the image only when a URL is passed
    ensures r.smile == (if req.smile.Some? then req.smile.value else a.smile)
    ensures r.imageUrl == (if imageUrl.Some? then imageUrl else a.imageUrl)
  {
    a.(checkInTime := Some(t),
       status := status,
       location := if Truthy(req.location) then ProcessJsonField(req.location, codec) else a.location,
       face := if Truthy(req.face) then ProcessJsonField(req.face, codec) else a.face,
       smile := if req.smile.Some? then req.smile.value else a.smile,
       imageUrl := if imageUrl.Some? then imageUrl else a.imageUrl)
  }

  function ScheduleOf(schedules: map<int, Schedule>, id: int): Option<Schedule> {
    if id in schedules then Some(schedules[id]) else None
  }

  /** `student_check_in` on a table: the outcome and the table afterwards. */
  function CheckInSpec(rows: map<int, Attendance>, id: int, req: CheckIn, imageUrl: Option<string>,
                       schedules: map<int, Schedule>, clock: Clock, codec: JsonCodec): (r: (Outcome<Attendance>, map<int, Attendance>))
    ensures id !in rows ==> r == (Missing, rows)
    ensures r.0.Failed? ==> r.1 == rows
    ensures r.0.Done? ==> id in rows && r.1 == rows[id := r.0.value]
    ensures r.0.Done? ==> r.0.value.status == Present || r.0.value.status == Late
    ensures r.0.Done? ==> r.0.value.checkInTime == Some(EffectiveCheckIn(req.checkInTime, clock))
    ensures r.0.Done? ==> r.0.value.studentId == rows[id].studentId && r.0.value.scheduleId == rows[id].scheduleId
                          && r.0.value.date == rows[id].date
    ensures id in rows && rows[id].scheduleId !in schedules ==> r.0.Done? && r.0.value.status == Present
    // it fails exactly when the check-in rule has no answer (an unreadable start time)
    ensures r.0.Failed? <==> id in rows && CheckInStatus(EffectiveCheckIn(req.checkInTime, clock),
                                                         ScheduleOf(schedules, rows[id].scheduleId), JakartaToday(clock)).None?
    // otherwise the record holds that rule's answer, and changes only as `ApplyCheckIn` says
    ensures r.0.Done? ==> Some(r.0.value.status) == CheckInStatus(EffectiveCheckIn(req.checkInTime, clock),
                                                                  ScheduleOf(schedules, rows[id].scheduleId), JakartaToday(clock))
    ensures r.0.Done? ==> r.0.value == ApplyCheckIn(rows[id], req, imageUrl, EffectiveCheckIn(req.checkInTime, clock),
                                                    r.0.value.status, codec)
  {
    if id !in rows then (Missing, rows)
    else
      var a := rows[id];
      var t := EffectiveCheckIn(req.checkInTime, clock);
      match CheckInStatus(t, ScheduleOf(schedules, a.scheduleId), JakartaToday(clock))
      case None => (Failed, rows)
      case Some(status) =>
        var b := ApplyCheckIn(a, req, imageUrl, t, status, codec);
        (Done(b), rows[id := b])
  }

  /** For a schedule whose start is written "HH:MM:SS", `student_check_in`
      always succeeds, and stores LATE exactly when the effective check-in
      time falls on a later day than today in Jakarta, or on that day
      strictly after the start second. */
  lemma CheckInLateIffAfterStart(rows: map<int, Attendance>, id: int, req: CheckIn, imageUrl: Option<string>,
                                 schedules: map<int, Schedule>, clock: Clock, codec: JsonCodec,
                                 h: nat, m: nat, sec: nat)
    requires id in rows && rows[id].scheduleId in schedules
    requires h < 24 && m < 60 && sec < 60 && schedules[rows[id].scheduleId].startTime == FormatHMS(h, m, sec)
    ensures var r := CheckInSpec(rows, id, req, imageUrl, schedules, clock, codec);
            var t := EffectiveCheckIn(req.checkInTime, clock);
            r.0.Done?
            && (r.0.value.status == Late
                <==> t.day > JakartaToday(clock)
                     || (t.day == JakartaToday(clock) && t.micros > (h * 3600 + m * 60 + sec) * MicrosPerSecond))
  {
    LateIffAfterStart(EffectiveCheckIn(req.checkInTime, clock), schedules[rows[id].scheduleId], JakartaToday(clock), h, m, sec);
  }

  /** The record a create writes: ABSENT, dated today, with no check-in. */
  function Placeholder(studentId: int, scheduleId: int, clock: Clock): (a: Attendance)
    ensures a.status == Absent && a.checkInTime.None? && !a.smile
    ensures a.location.Null? && a.face.Null? && a.imageUrl.None?
    ensures a.date == JakartaToday(clock) && a.studentId == studentId && a.scheduleId == scheduleId
  {
    Attendance(studentId, scheduleId, JakartaToday(clock), None, Absent, Null, Null, false, None, clock.utc, None)
  }

  // ---------------------------------------------------------------------
  // Direct check-in (create or overwrite today's record)

  predicate SameKey(a: Attendance, studentId: int, scheduleId: int, day: int) {
    a.studentId == studentId && a.scheduleId == scheduleId && a.date == day
  }

  /** The ids of the records for one student, schedule and day. */
  function KeyIds(rows: map<int, Attendance>, studentId: int, scheduleId: int, day: int): set<int> {
    set id | id in rows && SameKey(rows[id], studentId, scheduleId, day)
  }

  /** `student_direct_check_in` on a table whose ids lie in [1, nextId): the
      outcome (the id written) and the table afterwards. */
  function DirectCheckInSpec(rows: map<int, Attendance>, nextId: int, studentId: int, scheduleId: int,
                             location: Value, face: Value, smile: bool, imageUrl: Option<string>,
                             schedules: map<int, Schedule>, clock: Clock, codec: JsonCodec): (r: (Outcome<int>, map<int, Attendance>))
    requires KeysBelow(rows.Keys, nextId)
    ensures scheduleId !in schedules ==> r == (Missing, rows)
    // a start time that cannot be read raises, and nothing is written
    ensures scheduleId in schedules && ParseStartTime(schedules[scheduleId].startTime).None? ==> r == (Failed, rows)
    ensures scheduleId in schedules && ParseStartTime(schedules[scheduleId].startTime).Some? ==> r.0.Done?
    ensures !r.0.Done? ==> r.1 == rows
    ensures r.0.Done? ==> r.1.Keys == rows.Keys + {r.0.value}
    ensures r.0.Done? ==> forall id :: id in rows && id != r.0.value ==> r.1[id] == rows[id]
    // the status is the check-in rule at the server's clock on the server's day
    ensures r.0.Done? ==> Some(r.1[r.0.value].status)
                          == CheckInStatus(clock.server, Some(schedules[scheduleId]), ServerToday(clock))
    ensures r.0.Done? ==> var a := r.1[r.0.value];
              SameKey(a, studentId, scheduleId, ServerToday(clock)) && a.checkInTime == Some(clock.server)
              && a.location == ProcessJsonField(location, codec) && a.face == ProcessJsonField(face, codec)
              && a.smile == smile && a.imageUrl == imageUrl
    // an existing record for the day is reused, so at most one record is added
    ensures r.0.Done? && KeyIds(rows, studentId, scheduleId, ServerToday(clock)) != {} ==> r.0.value in rows
    ensures r.0.Done? && KeyIds(rows, studentId, scheduleId, ServerToday(clock)) == {} ==> r.0.value == nextId
    // a reused record keeps its creation and update stamps; a new one is created now
    ensures r.0.Done? && r.0.value in rows ==>
              r.1[r.0.value].createdAt == rows[r.0.value].createdAt && r.1[r.0.value].updatedAt == rows[r.0.value].updatedAt
    ensures r.0.Done? && r.0.value !in rows ==> r.1[r.0.value].createdAt == clock.server && r.1[r.0.value].updatedAt.None?
  {
    var today := ServerToday(clock);
    var existing := FirstIn(KeyIds(rows, studentId, scheduleId, today), 1, nextId);
    var loc := ProcessJsonField(location, codec);
    var fv := ProcessJsonField(face, codec);
    if scheduleId !in schedules then (Missing, rows)
    else
      var now := clock.server;
      match ParseStartTime(schedules[scheduleId].startTime)
      case None => (Failed, rows)
      case Some(second) =>
        var status := if Later(now, Combine(today, second)) then Late else Present;
        if existing.Some? then
          var id := existing.value;
          var b := rows[id].(checkInTime := Some(now), status := status, location := loc,
                             face := fv, smile := smile, imageUrl := imageUrl);
          (Done(id), rows[id := b])
        else
          assert nextId !in rows;
          var b := Attendance(studentId, scheduleId, today, Some(now), status, loc, fv, smile, imageUrl, now, None);
          (Done(nextId), rows[nextId := b])
  }

  /** For an "HH:MM:SS" start a direct check-in is written, LATE exactly
      when the server's clock is strictly past the start second of the day. */
  lemma DirectCheckInLateIffAfterStart(rows: map<int, Attendance>, nextId: int, studentId: int, scheduleId: int,
                                       location: Value, face: Value, smile: bool, imageUrl: Option<string>,
                                       schedules: map<int, Schedule>, clock: Clock, codec: JsonCodec,
                                       h: nat, m: nat, sec: nat)
    requires KeysBelow(rows.Keys, nextId)
    requires scheduleId in schedules && h < 24 && m < 60 && sec < 60
    requires schedules[scheduleId].startTime == FormatHMS(h, m, sec)
    ensures var r := DirectCheckInSpec(rows, nextId, studentId, scheduleId, location, face, smile, imageUrl, schedules, clock, codec);
            r.0.Done?
            && (r.1[r.0.value].status == Late <==> clock.server.micros > (h * 3600 + m * 60 + sec) * MicrosPerSecond)
            && (r.1[r.0.value].status == Present <==> clock.server.micros <= (h * 3600 + m * 60 + sec) * MicrosPerSecond)
  {
    LateIffAfterStart(clock.server, schedules[scheduleId], ServerToday(clock), h, m, sec);
  }

  /** A direct check-in leaves at most one more record for the (student,
      schedule, day) key, and at least one. */
  lemma DirectCheckInKeyGrowsByAtMostOne(rows: map<int, Attendance>, nextId: int, studentId: int, scheduleId: int,
                                         location: Value, face: Value, smile: bool, imageUrl: Option<string>,
                                         schedules: map<int, Schedule>, clock: Clock, codec: JsonCodec)
    requires KeysBelow(rows.Keys, nextId)
    ensures var r := DirectCheckInSpec(rows, nextId, studentId, scheduleId, location, face, smile, imageUrl, schedules, clock, codec);
            var day := ServerToday(clock);
            |KeyIds(r.1, studentId, scheduleId, day)| <= |KeyIds(rows, studentId, scheduleId, day)| + 1
            && (r.0.Done? ==> |KeyIds(r.1, studentId, scheduleId, day)| >= 1)
  {
    var r := DirectCheckInSpec(rows, nextId, studentId, scheduleId, location, face, smile, imageUrl, schedules, clock, codec);
    var day := ServerToday(clock);
    var before := KeyIds(rows, studentId, scheduleId, day);
    var after := KeyIds(r.1, studentId, scheduleId, day);
    if r.0.Done? {
      var w := r.0.value;
      assert after <= before + {w};
      assert w in after;
      if w in rows {
        assert w in before by {
          var e := FirstIn(before, 1, nextId);
          assert e.Some?;
        }
        assert after <= before;
        SubsetCard(after, before);
      } else {
        SubsetCard(after, before + {w});
      }
      assert {w} <= after;
      SubsetCard({w}, after);
    }
  }

  lemma SubsetCard(a: set<int>, b: set<int>)
    requires a <= b
    ensures |a| <= |b|
  {
    assert b == a + (b - a);
  }

  // ---------------------------------------------------------------------
  // Bulk delete
  //
  // `delete_multiple_attendances` gets each listed id with `db.get` and
  // deletes what it finds, then commits once. The session autoflushes: a
  // `get` answered from the identity map runs no SQL, so a row whose delete
  // is still pending is returned (and counted) again; a `get` that misses
  // the identity map first flushes the pending deletes, and a row deleted
  // by that flush is no longer found.

  /** The session during the loop: deletes not yet flushed (those rows are
      still in the identity map), deletes already flushed, and the count. */
  datatype BulkDelete = BulkDelete(pending: set<int>, flushed: set<int>, count: nat)

  /** One iteration of the loop for id `x` over a table with keys `keys`. */
  function DeleteStep(keys: set<int>, st: BulkDelete, x: int): BulkDelete {
    if x in st.pending then st.(count := st.count + 1)
    else
      var flushed := st.flushed + st.pending;
      if x in keys && x !in flushed then BulkDelete({x}, flushed, st.count + 1)
      else BulkDelete({}, flushed, st.count)
  }

  /** The session after the loop has seen the ids in `seen`: every listed
      row is deleted exactly once (pending or flushed), the count is at
      least the number of rows deleted, and it is zero only while nothing
      has been deleted. */
  predicate Tracks(keys: set<int>, seen: set<int>, st: BulkDelete) {
    st.pending !! st.flushed && st.pending + st.flushed == keys * seen
    && |st.pending + st.flushed| <= st.count
    && (st.count > 0 ==> st.pending + st.flushed != {})
  }

  lemma StepTracks(keys: set<int>, seen: set<int>, st: BulkDelete, x: int)
    requires Tracks(keys, seen, st)
    ensures Tracks(keys, seen + {x}, DeleteStep(keys, st, x))
    ensures DeleteStep(keys, st, x).count <= st.count + 1
  {
    var done := st.pending + st.flushed;
    if x in st.pending {
      assert keys * (seen + {x}) == keys * seen;
    } else if x in keys && x !in st.flushed {
      StepDeletes(keys, seen, st, x);
    } else {
      assert keys * (seen + {x}) == keys * seen;
      assert {} + (st.flushed + st.pending) == done;
    }
  }

  /** The step that finds a row: it becomes the one pending delete. */
  lemma StepDeletes(keys: set<int>, seen: set<int>, st: BulkDelete, x: int)
    requires Tracks(keys, seen, st) && x !in st.pending && x in keys && x !in st.flushed
    ensures Tracks(keys, seen + {x}, DeleteStep(keys, st, x))
  {
    var done := st.pending + st.flushed;
    var r := DeleteStep(keys, st, x);
    assert r == BulkDelete({x}, done, st.count + 1);
    assert x !in done;
    assert |done + {x}| == |done| + 1;
    assert keys * (seen + {x}) == done + {x};
    assert {x} + done == done + {x};
  }

  lemma MembersLast(ids: seq<int>)
    requires ids != []
    ensures Members(ids) == Members(ids[..|ids| - 1]) + {ids[|ids| - 1]}
  {
    assert ids == ids[..|ids| - 1] + [ids[|ids| - 1]];
  }

  /** The loop over `ids` from an empty session. */
  function BulkDeleteRun(keys: set<int>, ids: seq<int>): BulkDelete {
    if ids == [] then BulkDelete({}, {}, 0)
    else DeleteStep(keys, BulkDeleteRun(keys, ids[..|ids| - 1]), ids[|ids| - 1])
  }

  /** What the loop keeps: every listed row is deleted exactly once, and the
      count lies between the number of rows deleted and the number of ids. */
  lemma {:induction false} BulkDeleteRunTracks(keys: set<int>, ids: seq<int>)
    ensures Tracks(keys, Members(ids), BulkDeleteRun(keys, ids))
    ensures BulkDeleteRun(keys, ids).count <= |ids|
  {
    if ids == [] {
      assert Members(ids) == {};
    } else {
      BulkDeleteRunTracks(keys, ids[..|ids| - 1]);
      MembersLast(ids);
      StepTracks(keys, Members(ids[..|ids| - 1]), BulkDeleteRun(keys, ids[..|ids| - 1]), ids[|ids| - 1]);
    }
  }

  /** The number the bulk delete reports. */
  function DeletedCount(keys: set<int>, ids: seq<int>): nat {
    BulkDeleteRun(keys, ids).count
  }

  /** The count is at least the number of rows deleted and at most the
      number of ids, and it is zero exactly when no listed id names a row. */
  lemma DeletedCountBounds(keys: set<int>, ids: seq<int>)
    ensures |keys * Members(ids)| <= DeletedCount(keys, ids) <= |ids|
    ensures DeletedCount(keys, ids) == 0 <==> keys * Members(ids) == {}
  {
    BulkDeleteRunTracks(keys, ids);
  }

  /** With no id repeated, the count is the number of rows removed. */
  lemma {:induction false} DeletedCountDistinct(keys: set<int>, ids: seq<int>)
    requires forall i, j :: 0 <= i < j < |ids| ==> ids[i] != ids[j]
    ensures DeletedCount(keys, ids) == |keys * Members(ids)|
  {
    if ids != [] {
      var init := ids[..|ids| - 1];
      var x := ids[|ids| - 1];
      DeletedCountDistinct(keys, init);
      BulkDeleteRunTracks(keys, init);
      MembersLast(ids);
      assert x !in Members(init) by {
        forall k | 0 <= k < |init|
          ensures init[k] != x
        {
          assert ids[k] != ids[|ids| - 1];
        }
      }
      FreshStep(keys, Members(init), BulkDeleteRun(keys, init), x);
    }
  }

  /** A step for an id not seen before counts exactly the row it deletes. */
  lemma FreshStep(keys: set<int>, seen: set<int>, st: BulkDelete, x: int)
    requires Tracks(keys, seen, st) && x !in seen
    ensures DeleteStep(keys, st, x).count == st.count + (if x in keys then 1 else 0)
    ensures |keys * (seen + {x})| == |keys * seen| + (if x in keys then 1 else 0)
  {
    assert x !in st.pending + st.flushed;
    if x in keys {
      assert keys * (seen + {x}) == keys * seen + {x};
    } else {
      assert keys * (seen + {x}) == keys * seen;
    }
  }

  /** The loop over one more id is one more step. */
  lemma RunLast(keys: set<int>, ids: seq<int>, x: int)
    ensures BulkDeleteRun(keys, ids + [x]) == DeleteStep(keys, BulkDeleteRun(keys, ids), x)
  {
    assert (ids + [x])[..|ids|] == ids;
  }

  /** A row listed twice in a row is counted twice (the second `get` is
      answered from the identity map), but listed again after another id
      the session has not loaded it is counted once: the `get` in between
      flushed its delete. */
  lemma DeletedCountRepeats()
    ensures DeletedCount({1, 2}, [1, 1]) == 2
    ensures DeletedCount({1, 2}, [1, 2, 1]) == 2
  {
    var keys := {1, 2};
    var empty := BulkDelete({}, {}, 0);
    assert BulkDeleteRun(keys, []) == empty;
    RunLast(keys, [], 1);
    assert [] + [1] == [1];
    var one := DeleteStep(keys, empty, 1);
    assert one == BulkDelete({1}, {}, 1);
    RunLast(keys, [1], 1);
    assert [1] + [1] == [1, 1];
    assert DeleteStep(keys, one, 1).count == 2;
    RunLast(keys, [1], 2);
    assert [1] + [2] == [1, 2];
    var two := DeleteStep(keys, one, 2);
    assert two == BulkDelete({2}, {1}, 2);
    RunLast(keys, [1, 2], 1);
    assert [1, 2] + [1] == [1, 2, 1];
    assert DeleteStep(keys, two, 1) == BulkDelete({}, {1, 2}, 2);
  }

  // ---------------------------------------------------------------------
  // Updates

  /** The body of `update_attendance` (`AttendanceUpdate` read with
      `exclude_unset`). */
  datatype AttendancePatch = AttendancePatch(
    status: Patch<Option<string>>,
    updatedAt: Patch<Option<DateTime>>,
    location: Patch<Value>,
    face: Patch<Value>,
    imageUrl: Patch<Option<string>>)

  /** The `setattr` loop: exactly the supplied fields change. */
  function Patched(a: Attendance, p: AttendancePatch): (r: Attendance)
    requires p.status != Put(None)
    ensures p.status.Put? ==> Some(r.status) == p.status.value
    ensures p.status.Keep? ==> r.status == a.status
    ensures r.updatedAt == Apply(p.updatedAt, a.updatedAt)
    ensures r.location == Apply(p.location, a.location) && r.face == Apply(p.face, a.face)
    ensures r.imageUrl == Apply(p.imageUrl, a.imageUrl)
    ensures r.(status := a.status, updatedAt := a.updatedAt, location := a.location, face := a.face, imageUrl := a.imageUrl) == a
  {
    a.(status := if p.status.Put? then p.status.value.value else a.status,
       updatedAt := Apply(p.updatedAt, a.updatedAt),
       location := Apply(p.location, a.location),
       face := Apply(p.face, a.face),
       imageUrl := Apply(p.imageUrl, a.imageUrl))
  }

  /** The `student_id` column of the attendance table, as the student
      table's delete reads it. */
  function StudentColumn(rows: map<int, Attendance>): (fks: map<int, int>)
    ensures fks.Keys == rows.Keys
    ensures forall s :: Referenced(fks, s) <==> exists id :: id in rows && rows[id].studentId == s
  {
    var fks := map id | id in rows :: rows[id].studentId;
    assert forall s :: (exists id :: id in rows && rows[id].studentId == s) ==> Referenced(fks, s) by {
      forall s | exists id :: id in rows && rows[id].studentId == s
        ensures Referenced(fks, s)
      {
        var id :| id in rows && rows[id].studentId == s;
        assert fks[id] == s;
      }
    }
    fks
  }

  /** The `schedule_id` column of the attendance table, as the schedule
      table's delete reads it. */
  function ScheduleColumn(rows: map<int, Attendance>): (fks: map<int, int>)
    ensures fks.Keys == rows.Keys
    ensures forall s :: Referenced(fks, s) <==> exists id :: id in rows && rows[id].scheduleId == s
  {
    var fks := map id | id in rows :: rows[id].scheduleId;
    assert forall s :: (exists id :: id in rows && rows[id].scheduleId == s) ==> Referenced(fks, s) by {
      forall s | exists id :: id in rows && rows[id].scheduleId == s
        ensures Referenced(fks, s)
      {
        var id :| id in rows && rows[id].scheduleId == s;
        assert fks[id] == s;
      }
    }
    fks
  }

  /** What a read returns: the stored row with both payloads normalised. */
  function ReadView(a: Attendance, codec: JsonCodec): (r: Attendance)
    ensures r.(location := a.location, face := a.face) == a
    ensures a.location.Dict? || a.location.Null? ==> r.location == a.location
    ensures a.face.Dict? || a.face.Null? ==> r.face == a.face
  {
    a.(location := ProcessJsonField(a.location, codec), face := ProcessJsonField(a.face, codec))
  }

  // ---------------------------------------------------------------------
  // The table

  class AttendanceTable {
    var rows: map<int, Attendance>
    var nextId: int

    ghost predicate Valid()
      reads this
    {
      nextId >= 1 && KeysBelow(rows.Keys, nextId)
    }

    constructor ()
      ensures Valid() && rows == map[]
    {
      rows := map[];
      nextId := 1;
    }

    /** `create_attendance`. */
    method Create(studentId: int, scheduleId: int, clock: Clock) returns (id: int)
      requires Valid()
      modifies this
      ensures Valid()
      ensures id == old(nextId) && id !in old(rows)
      ensures rows == old(rows)[id := Placeholder(studentId, scheduleId, clock)]
    {
      id := nextId;
      rows := rows[id := Placeholder(studentId, scheduleId, clock)];
      nextId := nextId + 1;
    }

    /** `create_multiple_attendances`: one placeholder per listed student, in
      order, with no duplicate check. */
    method CreateMultiple(studentIds: seq<int>, scheduleId: int, clock: Clock) returns (ids: seq<int>)
      requires Valid()
      modifies this
      ensures Valid()
      ensures |ids| == |studentIds|
      ensures forall k :: 0 <= k < |ids| ==> ids[k] !in old(rows) && ids[k] in rows
                                              && rows[ids[k]] == Placeholder(studentIds[k], scheduleId, clock)
      ensures forall i, j :: 0 <= i < j < |ids| ==> ids[i] < ids[j]
      ensures rows.Keys == old(rows).Keys + Members(ids)
      ensures forall id :: id in old(rows) ==> rows[id] == old(rows)[id]
    {
      ids := [];
      var i := 0;
      while i < |studentIds|
        invariant 0 <= i <= |studentIds| && |ids| == i
        invariant Valid() && nextId == old(nextId) + i
        invariant forall k :: 0 <= k < i ==> ids[k] == old(nextId) + k
        invariant forall k :: 0 <= k < i ==> ids[k] in rows && rows[ids[k]] == Placeholder(studentIds[k], scheduleId, clock)
        invariant rows.Keys == old(rows).Keys + Members(ids)
        invariant forall id :: id in old(rows) ==> rows[id] == old(rows)[id]
      {
        rows := rows[nextId := Placeholder(studentIds[i], scheduleId, clock)];
        ids := ids + [nextId];
        nextId := nextId + 1;
        i := i + 1;
      }
    }

    /** `get_attendance`. */
    function Get(id: int, codec: JsonCodec): (r: Option<Attendance>)
      reads this
      ensures r.Some? <==> id in rows
      ensures r.Some? ==> r.value == ReadView(rows[id], codec)
    {
      if id in rows then Some(ReadView(rows[id], codec)) else None
    }

    /** `student_check_in`. */
    method StudentCheckIn(id: int, req: CheckIn, imageUrl: Option<string>,
                          schedules: map<int, Schedule>, clock: Clock, codec: JsonCodec) returns (r: Outcome<Attendance>)
      requires Valid()
      modifies this
      ensures Valid() && nextId == old(nextId)
      ensures (r, rows) == CheckInSpec(old(rows), id, req, imageUrl, schedules, clock, codec)
    {
      if id !in rows {
        return Missing;
      }
      var a := rows[id];
      var t := EffectiveCheckIn(req.checkInTime, clock);
      var status := CheckInStatus(t, ScheduleOf(schedules, a.scheduleId), JakartaToday(clock));
      if status.None? {
        return Failed;
      }
      var b := ApplyCheckIn(a, req, imageUrl, t, status.value, codec);
      rows := rows[id := b];
      r := Done(b);
    }

    /** `find_student_attendance`: the first record of the key for today. */
    function FindToday(studentId: int, scheduleId: int, clock: Clock): (r: Option<int>)
      reads this
      requires Valid()
      ensures r.Some? ==> r.value in rows && SameKey(rows[r.value], studentId, scheduleId, ServerToday(clock))
      ensures r.None? <==> KeyIds(rows, studentId, scheduleId, ServerToday(clock)) == {}
    {
      var keys := KeyIds(rows, studentId, scheduleId, ServerToday(clock));
      assert keys <= rows.Keys;
      FirstIn(keys, 1, nextId)
    }

    /** `student_direct_check_in`. */
    method DirectCheckIn(studentId: int, scheduleId: int, location: Value, face: Value, smile: bool,
                         imageUrl: Option<string>, schedules: map<int, Schedule>, clock: Clock, codec: JsonCodec)
      returns (r: Outcome<int>)
      requires Valid()
      modifies this
      ensures Valid()
      ensures (r, rows) == DirectCheckInSpec(old(rows), old(nextId), studentId, scheduleId, location, face, smile,
                                              imageUrl, schedules, clock, codec)
    {
      var spec := DirectCheckInSpec(rows, nextId, studentId, scheduleId, location, face, smile, imageUrl, schedules, clock, codec);
      r, rows := spec.0, spec.1;
      if r.Done? && r.value == nextId {
        nextId := nextId + 1;
      }
    }

    /** `update_attendance`: returns the read view of the updated row. */
    method Update(id: int, p: AttendancePatch, codec: JsonCodec) returns (r: Outcome<Attendance>)
      requires Valid()
      modifies this
      ensures Valid() && nextId == old(nextId)
      ensures id !in old(rows) ==> r == Missing && rows == old(rows)
      ensures id in old(rows) && p.status == Put(None) ==> r == Failed && rows == old(rows)
      ensures id in old(rows) && p.status != Put(None) ==>
                rows == old(rows)[id := Patched(old(rows)[id], p)]
                && r == Done(ReadView(Patched(old(rows)[id], p), codec))
    {
      if id !in rows {
        return Missing;
      }
      if p.status == Put(None) {
        return Failed;
      }
      var b := Patched(rows[id], p);
      rows := rows[id := b];
      r := Done(ReadView(b, codec));
    }

    /** `delete_attendance`. */
    method Delete(id: int) returns (ok: bool)
      requires Valid()
      modifies this
      ensures Valid() && nextId == old(nextId)
      ensures ok <==> id in old(rows)
      ensures rows == old(rows) - {id}
    {
      ok := id in rows;
      rows := rows - {id};
    }

    /** `delete_multiple_attendances`: the loop keeps the session's pending
      and flushed deletes, and the commit removes every listed row. */
    method DeleteMultiple(ids: seq<int>) returns (count: nat)
      requires Valid()
      modifies this
      ensures Valid() && nextId == old(nextId)
      ensures count == DeletedCount(old(rows).Keys, ids)
      ensures rows == old(rows) - Members(ids)
    {
      var keys := rows.Keys;
      var pending: set<int> := {};
      var flushed: set<int> := {};
      count := 0;
      var i := 0;
      while i < |ids|
        invariant 0 <= i <= |ids|
        invariant keys == old(rows).Keys && rows == old(rows)
        invariant BulkDelete(pending, flushed, count) == BulkDeleteRun(keys, ids[..i])
      {
        var x := ids[i];
        if x in pending {
          count := count + 1;
        } else {
          flushed := flushed + pending;
          if x in keys && x !in flushed {
            pending := {x};
            count := count + 1;
          } else {
            pending := {};
          }
        }
        assert ids[..i + 1][..i] == ids[..i];
        i := i + 1;
      }
      assert ids[..|ids|] == ids;
      BulkDeleteRunTracks(keys, ids);
      rows := rows - (pending + flushed);
      assert rows.Keys == old(rows).Keys - Members(ids);
    }
  }
}
