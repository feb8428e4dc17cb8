/** The student table (`app/crud/student.py`).

    A student's `face_data` column holds the JSON text of the face payload
    (written by `json.dumps` when the payload is non-empty) and every read
    decodes it again, replacing corrupted text by None. `nim` and
    `username` are UNIQUE columns; a write that would duplicate one fails
    at commit. Every NOT NULL column that receives None fails the same way.
 */
module StudentCrud {
  import opened Values
  import opened Clock
  import opened Tables

  datatype Student = Student(
    nim: string,
    username: string,
    password: string,             // the bcrypt hash
    fullName: string,
    majorName: string,
    profilePictureUrl: Option<string>,
    faceData: Value,              // as stored: None, {} or JSON text
    year: string,
    isApproved: bool,
    createdAt: DateTime,
    updatedAt: DateTime)

  /** `StudentCreate`: `face_data` is an optional mapping. */
  datatype StudentCreate = StudentCreate(
    nim: string,
    username: string,
    fullName: string,
    majorName: string,
    profilePictureUrl: Option<string>,
    faceData: Value,
    year: string,
    isApproved: bool,
    password: string)

  /** `StudentUpdate` read with `exclude_unset=True`. `year` is declared
      `Optional[str]` with a pattern but no default, which makes it a
      required field: it is always present, possibly None. */
  datatype StudentUpdate = StudentUpdate(
    nim: Patch<Option<string>>,
    fullName: Patch<Option<string>>,
    majorName: Patch<Option<string>>,
    profilePictureUrl: Patch<Option<string>>,
    faceData: Patch<Value>,
    year: Option<string>,
    isApproved: Patch<Option<bool>>,
    password: Patch<Option<string>>)

  // ---------------------------------------------------------------------
  // face_data on the way in and on the way out

  /** What a request may carry as `face_data` (`Optional[Dict]`). */
  predicate FacePayload(v: Value) {
    v.Null? || v.Dict?
  }

  /** What the column can hold after a write of this module. */
  predicate StoredFace(v: Value) {
    v.Null? || v == Dict([]) || v.Str?
  }

  /** The write side: a truthy payload becomes its JSON text. */
  function EncodeFace(v: Value, codec: JsonCodec): Value {
    if Truthy(v) then Str(codec.dumps(v)) else v
  }

  /** The read side: truthy text is parsed again, text that does not parse
      reads as None, and a falsy value is returned as it is. */
  function DecodeFace(stored: Value, codec: JsonCodec): Value
    requires StoredFace(stored)
  {
    if Truthy(stored) then
      match codec.loads(stored.s)
      case Some(v) => v
      case None => Null
    else stored
  }

  /** A student as the read functions return it. */
  function View(s: Student, codec: JsonCodec): Student
    requires StoredFace(s.faceData)
  {
    s.(faceData := DecodeFace(s.faceData, codec))
  }

  /** Whatever payload a request carries, the column holds one of the
      stored shapes afterwards. */
  lemma EncodeFaceStored(v: Value, codec: JsonCodec)
    requires FacePayload(v)
    ensures StoredFace(EncodeFace(v, codec))
  {
  }

  /** Writing a payload and reading it back gives the payload, whenever
      `json.loads` inverts `json.dumps` on it. */
  lemma FaceRoundTrip(v: Value, codec: JsonCodec)
    requires FacePayload(v)
    requires Truthy(v) ==> codec.dumps(v) != "" && codec.loads(codec.dumps(v)) == Some(v)
    ensures StoredFace(EncodeFace(v, codec)) && DecodeFace(EncodeFace(v, codec), codec) == v
  {
  }

  /** Stored text that does not parse reads as None. */
  lemma CorruptFaceReadsAsNone(s: string, codec: JsonCodec)
    requires s != "" && codec.loads(s).None?
    ensures DecodeFace(Str(s), codec) == Null
  {
  }

  predicate FacesStored(rows: map<int, Student>) {
    forall id :: id in rows ==> StoredFace(rows[id].faceData)
  }

  // ---------------------------------------------------------------------
  // The UNIQUE columns

  predicate Unique(rows: map<int, Student>) {
    forall i, j :: i in rows && j in rows && i != j ==>
      rows[i].nim != rows[j].nim && rows[i].username != rows[j].username
  }

  predicate NimTaken(rows: map<int, Student>, nim: string) {
    exists j :: j in rows && rows[j].nim == nim
  }

  predicate UsernameTaken(rows: map<int, Student>, username: string) {
    exists j :: j in rows && rows[j].username == username
  }

  // ---------------------------------------------------------------------
  // create_student

  function NewStudent(req: StudentCreate, hasher: Hasher, codec: JsonCodec, clock: Clock): Student {
    Student(req.nim, req.username, hasher.hash(req.password), req.fullName, req.majorName,
            req.profilePictureUrl, EncodeFace(req.faceData, codec), req.year, req.isApproved,
            clock.utc, clock.utc)
  }

  /** The insert fails on a duplicate NIM or username; otherwise the new
      row takes the next id. */
  function CreateSpec(rows: map<int, Student>, nextId: int, req: StudentCreate,
                      hasher: Hasher, codec: JsonCodec, clock: Clock): (Outcome<int>, map<int, Student>)
  {
    if NimTaken(rows, req.nim) || UsernameTaken(rows, req.username) then (Failed, rows)
    else (Done(nextId), rows[nextId := NewStudent(req, hasher, codec, clock)])
  }

  /** A created student keeps the hash of the password, never the password
      itself, and its face payload reads back as sent. */
  lemma CreateStoresHashAndFace(rows: map<int, Student>, nextId: int, req: StudentCreate,
                                hasher: Hasher, codec: JsonCodec, clock: Clock)
    requires FacePayload(req.faceData)
    requires Truthy(req.faceData) ==> codec.dumps(req.faceData) != ""
                                      && codec.loads(codec.dumps(req.faceData)) == Some(req.faceData)
    requires CreateSpec(rows, nextId, req, hasher, codec, clock).0.Done?
    ensures var after := CreateSpec(rows, nextId, req, hasher, codec, clock).1;
            nextId in after && after[nextId].password == hasher.hash(req.password)
            && StoredFace(after[nextId].faceData)
            && View(after[nextId], codec).faceData == req.faceData
            && after[nextId].createdAt == clock.utc && after[nextId].updatedAt == clock.utc
  {
    FaceRoundTrip(req.faceData, codec);
  }

  /** Creating never breaks the uniqueness of NIM and username. */
  lemma CreateKeepsUnique(rows: map<int, Student>, nextId: int, req: StudentCreate,
                          hasher: Hasher, codec: JsonCodec, clock: Clock)
    requires Unique(rows) && nextId !in rows
    ensures Unique(CreateSpec(rows, nextId, req, hasher, codec, clock).1)
  {
    var (r, after) := CreateSpec(rows, nextId, req, hasher, codec, clock);
    if r.Done? {
      forall i, j | i in after && j in after && i != j
        ensures after[i].nim != after[j].nim && after[i].username != after[j].username
      {
        if i == nextId {
          assert !NimTaken(rows, req.nim) && !UsernameTaken(rows, req.username);
          assert rows[j].nim != req.nim && rows[j].username != req.username;
        } else if j == nextId {
          assert rows[i].nim != req.nim && rows[i].username != req.username;
        }
      }
    }
  }

  // ---------------------------------------------------------------------
  // update_student

  /** A NOT NULL column would receive None: the commit fails. */
  predicate NullIntoRequired(p: StudentUpdate) {
    p.nim == Put(None) || p.fullName == Put(None) || p.majorName == Put(None)
    || p.isApproved == Put(None) || p.password == Put(None) || p.year.None?
  }

  /** The stored password: a non-empty new password is hashed, an empty one
      is stored as it is (the hashing is guarded by truthiness). */
  function NewPassword(p: Patch<Option<string>>, current: string, hasher: Hasher): string {
    if p.Put? && p.value.Some? then
      (if p.value.value != "" then hasher.hash(p.value.value) else p.value.value)
    else current
  }

  function Updated(s: Student, p: StudentUpdate, hasher: Hasher, codec: JsonCodec, clock: Clock): Student {
    s.(nim := Required(p.nim, s.nim),
       fullName := Required(p.fullName, s.fullName),
       majorName := Required(p.majorName, s.majorName),
       profilePictureUrl := Apply(p.profilePictureUrl, s.profilePictureUrl),
       faceData := if p.faceData.Put? then EncodeFace(p.faceData.value, codec) else s.faceData,
       year := if p.year.Some? then p.year.value else s.year,
       isApproved := Required(p.isApproved, s.isApproved),
       password := NewPassword(p.password, s.password, hasher),
       updatedAt := clock.jakarta)
  }

  /** `update_student`: None for an unknown id, an escaping exception when a
      NOT NULL column receives None or the NIM is taken, otherwise the
      updated row as it is read back (face data decoded). */
  function UpdateSpec(rows: map<int, Student>, id: int, p: StudentUpdate,
                      hasher: Hasher, codec: JsonCodec, clock: Clock): (Outcome<Student>, map<int, Student>)
    requires id in rows ==> StoredFace(rows[id].faceData)
    requires p.faceData.Put? ==> FacePayload(p.faceData.value)
  {
    if id !in rows then (Missing, rows)
    else if NullIntoRequired(p) || (p.nim.Put? && p.nim.value.Some? && NimTaken(rows - {id}, p.nim.value.value)) then
      (Failed, rows)
    else
      var s := Updated(rows[id], p, hasher, codec, clock);
      (Done(View(s, codec)), rows[id := s])
  }

  /** Only the supplied fields change: an unset field keeps its value, a
      supplied value is stored (a non-empty password as its hash), and
      `updated_at` is always stamped. */
  lemma UpdateSetsSuppliedFields(rows: map<int, Student>, id: int, p: StudentUpdate,
                                 hasher: Hasher, codec: JsonCodec, clock: Clock)
    requires id in rows && StoredFace(rows[id].faceData)
    requires p.faceData.Put? ==> FacePayload(p.faceData.value)
    requires UpdateSpec(rows, id, p, hasher, codec, clock).0.Done?
    ensures var (old_, new_) := (rows[id], UpdateSpec(rows, id, p, hasher, codec, clock).1[id]);
            (p.nim.Keep? ==> new_.nim == old_.nim)
            && (p.nim.Put? ==> Some(new_.nim) == p.nim.value)
            && (p.fullName.Keep? ==> new_.fullName == old_.fullName)
            && (p.fullName.Put? ==> Some(new_.fullName) == p.fullName.value)
            && (p.majorName.Keep? ==> new_.majorName == old_.majorName)
            && (p.majorName.Put? ==> Some(new_.majorName) == p.majorName.value)
            && (p.profilePictureUrl.Keep? ==> new_.profilePictureUrl == old_.profilePictureUrl)
            && (p.profilePictureUrl.Put? ==> new_.profilePictureUrl == p.profilePictureUrl.value)
            && (p.faceData.Keep? ==> new_.faceData == old_.faceData)
            && (p.faceData.Put? && Truthy(p.faceData.value) ==> new_.faceData == Str(codec.dumps(p.faceData.value)))
            && Some(new_.year) == p.year
            && (p.isApproved.Keep? ==> new_.isApproved == old_.isApproved)
            && (p.isApproved.Put? ==> Some(new_.isApproved) == p.isApproved.value)
            && (p.password.Keep? ==> new_.password == old_.password)
            && (p.password.Put? && p.password.value != Some("") ==> new_.password == hasher.hash(p.password.value.value))
            && new_.username == old_.username && new_.createdAt == old_.createdAt
            && new_.updatedAt == clock.jakarta
  {
  }

  /** A refused or failed update leaves the table as it was. */
  lemma UpdateFailureChangesNothing(rows: map<int, Student>, id: int, p: StudentUpdate,
                                    hasher: Hasher, codec: JsonCodec, clock: Clock)
    requires id in rows ==> StoredFace(rows[id].faceData)
    requires p.faceData.Put? ==> FacePayload(p.faceData.value)
    ensures UpdateSpec(rows, id, p, hasher, codec, clock).0.Missing? <==> id !in rows
    ensures !UpdateSpec(rows, id, p, hasher, codec, clock).0.Done? ==> UpdateSpec(rows, id, p, hasher, codec, clock).1 == rows
  {
  }

  /** Updating never breaks the uniqueness of NIM and username. */
  lemma UpdateKeepsUnique(rows: map<int, Student>, id: int, p: StudentUpdate,
                          hasher: Hasher, codec: JsonCodec, clock: Clock)
    requires Unique(rows)
    requires id in rows ==> StoredFace(rows[id].faceData)
    requires p.faceData.Put? ==> FacePayload(p.faceData.value)
    ensures Unique(UpdateSpec(rows, id, p, hasher, codec, clock).1)
  {
    var (r, after) := UpdateSpec(rows, id, p, hasher, codec, clock);
    if r.Done? {
      forall i, j | i in after && j in after && i != j
        ensures after[i].nim != after[j].nim && after[i].username != after[j].username
      {
        if i == id {
          assert j in rows - {id};
        } else if j == id {
          assert i in rows - {id};
        }
      }
    }
  }

  // ---------------------------------------------------------------------
  // The table

  class StudentTable {
    var rows: map<int, Student>
    var nextId: int

    ghost predicate Valid()
      reads this
    {
      nextId >= 1 && KeysBelow(rows.Keys, nextId) && Unique(rows) && FacesStored(rows)
    }

    constructor ()
      ensures Valid() && rows == map[]
    {
      rows := map[];
      nextId := 1;
    }

    /** `create_student`. */
    method Create(req: StudentCreate, hasher: Hasher, codec: JsonCodec, clock: Clock) returns (r: Outcome<int>)
      requires Valid() && FacePayload(req.faceData)
      modifies this
      ensures Valid()
      ensures (r, rows) == CreateSpec(old(rows), old(nextId), req, hasher, codec, clock)
    {
      CreateKeepsUnique(rows, nextId, req, hasher, codec, clock);
      var outcome, after := CreateSpec(rows, nextId, req, hasher, codec, clock).0, CreateSpec(rows, nextId, req, hasher, codec, clock).1;
      r := outcome;
      if r.Done? {
        rows := after;
        nextId := nextId + 1;
      }
    }

    /** `get_student`: the row with its face data decoded. */
    function Get(id: int, codec: JsonCodec): (r: Option<Student>)
      reads this
      requires Valid()
      ensures r.Some? <==> id in rows
      ensures r.Some? ==> r.value.faceData == DecodeFace(rows[id].faceData, codec)
                          && r.value.(faceData := rows[id].faceData) == rows[id]
    {
      if id in rows then Some(View(rows[id], codec)) else None
    }

    /** `get_next_student`. */
    function Next(current: int): (r: Option<int>)
      reads this
      requires Valid()
      ensures r.None? <==> rows == map[]
      ensures r.Some? ==> r.value in rows
    {
      NextKey(rows.Keys, current, nextId)
    }

    /** The ids of one page of `SELECT ... OFFSET skip LIMIT limit`, in id
      order. */
    function PageIds(skip: int, limit: int): (ids: seq<int>)
      reads this
      ensures forall k :: 0 <= k < |ids| ==> ids[k] in rows
      ensures forall i, j :: 0 <= i < j < |ids| ==> ids[i] < ids[j]
      // the ids from position `skip` of the ordered table, exactly
      // min(limit, what remains) of them
      ensures var all := KeysIn(rows.Keys, 1, nextId);
              var o := if skip < 0 then 0 else skip;
              |ids| == (if o >= |all| then 0 else if 0 <= limit < |all| - o then limit else |all| - o)
              && forall k :: 0 <= k < |ids| ==> ids[k] == all[o + k]
    {
      var all := KeysIn(rows.Keys, 1, nextId);
      PageAscending(all, skip, limit);
      var ids := Page(all, skip, limit);
      assert forall k :: 0 <= k < |ids| ==> ids[k] in all;
      ids
    }

    /** `get_students`: a page of rows, each decoded in turn. */
    method List(skip: int, limit: int, codec: JsonCodec) returns (r: seq<Student>)
      requires FacesStored(rows)
      ensures |r| == |PageIds(skip, limit)|
      ensures forall k :: 0 <= k < |r| ==> r[k] == View(rows[PageIds(skip, limit)[k]], codec)
    {
      r := DecodeAll(PageIds(skip, limit), codec);
    }

    /** The loop of `get_students` that decodes each row's face data. */
    method DecodeAll(ids: seq<int>, codec: JsonCodec) returns (r: seq<Student>)
      requires forall k :: 0 <= k < |ids| ==> ids[k] in rows && StoredFace(rows[ids[k]].faceData)
      ensures |r| == |ids|
      ensures forall k :: 0 <= k < |r| ==> r[k] == View(rows[ids[k]], codec)
    {
      r := [];
      var i := 0;
      while i < |ids|
        invariant 0 <= i <= |ids| && |r| == i
        invariant forall k :: 0 <= k < i ==> r[k] == View(rows[ids[k]], codec)
      {
        r := r + [View(rows[ids[i]], codec)];
        i := i + 1;
      }
    }

    /** `update_student`. */
    method Update(id: int, p: StudentUpdate, hasher: Hasher, codec: JsonCodec, clock: Clock)
      returns (r: Outcome<Student>)
      requires Valid()
      requires p.faceData.Put? ==> FacePayload(p.faceData.value)
      modifies this
      ensures Valid() && nextId == old(nextId)
      ensures (r, rows) == UpdateSpec(old(rows), id, p, hasher, codec, clock)
    {
      UpdateKeepsUnique(rows, id, p, hasher, codec, clock);
      if p.faceData.Put? {
        EncodeFaceStored(p.faceData.value, codec);
      }
      r := UpdateSpec(rows, id, p, hasher, codec, clock).0;
      rows := UpdateSpec(rows, id, p, hasher, codec, clock).1;
    }

    /** `delete_student`, given the `student_id` column of the attendance
      table. The statement that tries to delete the student's schedules
      names a column `Schedule` does not have, raises AttributeError and is
      passed over. `Student.attendances` has no delete cascade, so a
      student with attendance records cannot be deleted: the commit fails
      (Failed, a 500) and the row stays. Missing is the False reply. */
    method Delete(id: int, attendanceStudents: map<int, int>) returns (r: Outcome<Student>)
      requires Valid()
      modifies this
      ensures Valid() && nextId == old(nextId)
      ensures (r, rows) == DeleteParent(old(rows), id, attendanceStudents)
    {
      if id !in rows {
        return Missing;
      }
      if Referenced(attendanceStudents, id) {
        return Failed;
      }
      r := Done(rows[id]);
      rows := rows - {id};
    }
  }
}
