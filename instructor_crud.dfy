/** The instructor table (`app/crud/instructor.py`).

    `username` is a UNIQUE column. `InstructorUpdate` extends the base
    schema, so nidn, full name, username, e-mail and phone number are
    required in every update and always written; only the profile picture
    and the password may be left out.
 */
module InstructorCrud {
  import opened Values
  import opened Clock
  import opened Tables
  import opened ScheduleCrud

  datatype Instructor = Instructor(
    nidn: string,
    fullName: string,
    username: string,
    password: string,             // the bcrypt hash
    email: string,
    phoneNumber: string,
    profilePictureUrl: Option<string>,
    createdAt: DateTime,
    updatedAt: DateTime)

  datatype InstructorCreate = InstructorCreate(
    nidn: string,
    fullName: string,
    username: string,
    email: string,
    phoneNumber: string,
    profilePictureUrl: Option<string>,
    password: string)

  /** `InstructorUpdate` read with `exclude_unset=True`. */
  datatype InstructorUpdate = InstructorUpdate(
    nidn: string,
    fullName: string,
    username: string,
    email: string,
    phoneNumber: string,
    profilePictureUrl: Patch<Option<string>>,
    password: Patch<Option<string>>)

  predicate Unique(rows: map<int, Instructor>) {
    forall i, j :: i in rows && j in rows && i != j ==> rows[i].username != rows[j].username
  }

  predicate UsernameTaken(rows: map<int, Instructor>, username: string) {
    exists j :: j in rows && rows[j].username == username
  }

  // ---------------------------------------------------------------------
  // create_instructor

  function NewInstructor(req: InstructorCreate, hasher: Hasher, clock: Clock): Instructor {
    Instructor(req.nidn, req.fullName, req.username, hasher.hash(req.password), req.email,
               req.phoneNumber, req.profilePictureUrl, clock.jakarta, clock.jakarta)
  }

  function CreateSpec(rows: map<int, Instructor>, nextId: int, req: InstructorCreate,
                      hasher: Hasher, clock: Clock): (Outcome<int>, map<int, Instructor>)
  {
    if UsernameTaken(rows, req.username) then (Failed, rows)
    else (Done(nextId), rows[nextId := NewInstructor(req, hasher, clock)])
  }

  /** A created instructor stores the hash of the password and the two
      timestamps; a duplicate username fails and changes nothing; the
      usernames stay unique. */
  lemma CreateStoresHash(rows: map<int, Instructor>, nextId: int, req: InstructorCreate,
                         hasher: Hasher, clock: Clock)
    requires Unique(rows) && nextId !in rows
    ensures var (r, after) := CreateSpec(rows, nextId, req, hasher, clock);
            (r.Failed? <==> UsernameTaken(rows, req.username))
            && (r.Failed? ==> after == rows)
            && (r.Done? ==> r.value == nextId && after.Keys == rows.Keys + {nextId}
                            && after[nextId].password == hasher.hash(req.password)
                            && after[nextId].createdAt == clock.jakarta
                            && after[nextId].updatedAt == clock.jakarta)
            && Unique(after)
  {
    var (r, after) := CreateSpec(rows, nextId, req, hasher, clock);
    if r.Done? {
      forall i, j | i in after && j in after && i != j
        ensures after[i].username != after[j].username
      {
        if i == nextId {
          assert rows[j].username != req.username;
        } else if j == nextId {
          assert rows[i].username != req.username;
        }
      }
    }
  }

  // ---------------------------------------------------------------------
  // update_instructor

  /** A supplied password is hashed whatever it is; hashing None raises. */
  function Updated(s: Instructor, p: InstructorUpdate, hasher: Hasher, clock: Clock): Instructor
    requires p.password != Put(None)
  {
    s.(nidn := p.nidn, fullName := p.fullName, username := p.username, email := p.email,
       phoneNumber := p.phoneNumber,
       profilePictureUrl := Apply(p.profilePictureUrl, s.profilePictureUrl),
       password := if p.password.Put? then hasher.hash(p.password.value.value) else s.password,
       updatedAt := clock.jakarta)
  }

  function UpdateSpec(rows: map<int, Instructor>, id: int, p: InstructorUpdate,
                      hasher: Hasher, clock: Clock): (Outcome<Instructor>, map<int, Instructor>)
  {
    if id !in rows then (Missing, rows)
    else if p.password == Put(None) || UsernameTaken(rows - {id}, p.username) then (Failed, rows)
    else
      var s := Updated(rows[id], p, hasher, clock);
      (Done(s), rows[id := s])
  }

  /** None for an unknown id; otherwise the supplied fields are set (the
      password as its hash), the rest is kept, `updated_at` is stamped and
      no other row changes. */
  lemma UpdateSetsSuppliedFields(rows: map<int, Instructor>, id: int, p: InstructorUpdate,
                                 hasher: Hasher, clock: Clock)
    ensures var (r, after) := UpdateSpec(rows, id, p, hasher, clock);
            (r.Missing? <==> id !in rows)
            && (!r.Done? ==> after == rows)
            && (r.Done? ==>
                  after == rows[id := r.value]
                  && r.value.nidn == p.nidn && r.value.fullName == p.fullName
                  && r.value.username == p.username && r.value.email == p.email
                  && r.value.phoneNumber == p.phoneNumber
                  && (p.profilePictureUrl.Keep? ==> r.value.profilePictureUrl == rows[id].profilePictureUrl)
                  && (p.profilePictureUrl.Put? ==> r.value.profilePictureUrl == p.profilePictureUrl.value)
                  && (p.password.Keep? ==> r.value.password == rows[id].password)
                  && (p.password.Put? ==> Some(r.value.password) == Some(hasher.hash(p.password.value.value)))
                  && r.value.createdAt == rows[id].createdAt
                  && r.value.updatedAt == clock.jakarta)
  {
  }

  lemma UpdateKeepsUnique(rows: map<int, Instructor>, id: int, p: InstructorUpdate,
                          hasher: Hasher, clock: Clock)
    requires Unique(rows)
    ensures Unique(UpdateSpec(rows, id, p, hasher, clock).1)
  {
    var (r, after) := UpdateSpec(rows, id, p, hasher, clock);
    if r.Done? {
      forall i, j | i in after && j in after && i != j
        ensures after[i].username != after[j].username
      {
        if i == id {
          assert j in rows - {id};
        } else if j == id {
          assert i in rows - {id};
        }
      }
    }
  }

  // ---------------------------------------------------------------------
  // change_instructor_password

  function ChangePasswordSpec(rows: map<int, Instructor>, id: int, current: string, newPassword: string,
                              hasher: Hasher, clock: Clock): (Change<Instructor>, map<int, Instructor>)
  {
    if id !in rows then (NoAccount, rows)
    else if !hasher.verify(current, rows[id].password) then (WrongPassword, rows)
    else
      var s := rows[id].(password := hasher.hash(newPassword), updatedAt := clock.jakarta);
      (Changed(s), rows[id := s])
  }

  /** The three outcomes: None for an unknown id, False (and no change) when
      the current password does not verify, otherwise the new hash and a
      fresh `updated_at` with every other field kept. */
  lemma ChangePasswordOutcomes(rows: map<int, Instructor>, id: int, current: string, newPassword: string,
                               hasher: Hasher, clock: Clock)
    ensures var (r, after) := ChangePasswordSpec(rows, id, current, newPassword, hasher, clock);
            (r.NoAccount? <==> id !in rows)
            && (r.WrongPassword? <==> id in rows && !hasher.verify(current, rows[id].password))
            && (!r.Changed? ==> after == rows)
            && (r.Changed? ==>
                  after == rows[id := r.value]
                  && r.value == rows[id].(password := hasher.hash(newPassword), updatedAt := clock.jakarta))
  {
  }

  /** Once changed, the new password is the one that verifies: changing it
      again with the new password as the current one is accepted. */
  lemma NewPasswordVerifies(rows: map<int, Instructor>, id: int, current: string, newPassword: string,
                            newer: string, hasher: Hasher, clock: Clock, later: Clock)
    requires hasher.verify(newPassword, hasher.hash(newPassword))
    requires ChangePasswordSpec(rows, id, current, newPassword, hasher, clock).0.Changed?
    ensures var after := ChangePasswordSpec(rows, id, current, newPassword, hasher, clock).1;
            ChangePasswordSpec(after, id, newPassword, newer, hasher, later).0.Changed?
  {
  }

  // ---------------------------------------------------------------------
  // delete_instructor

  /** What the session does to `Instructor.schedules` when the instructor
      is deleted: the nullable `instructor_id` of each of their schedules is
      set to None, and nothing else changes. */
  function Unassigned(schedules: map<int, Schedule>, id: int): (r: map<int, Schedule>)
    ensures r.Keys == schedules.Keys
    ensures forall sid :: sid in r ==> r[sid].instructorId != Some(id)
    ensures forall sid :: sid in r ==> r[sid].(instructorId := schedules[sid].instructorId) == schedules[sid]
    ensures forall sid :: sid in r && schedules[sid].instructorId != Some(id) ==> r[sid] == schedules[sid]
  {
    map sid | sid in schedules ::
      if schedules[sid].instructorId == Some(id) then schedules[sid].(instructorId := None) else schedules[sid]
  }

  /** `delete_instructor`, given the `instructor_id` column of
      `instructor_course` and the schedule table. `Instructor.courses` has
      no delete cascade and its column is NOT NULL, so an instructor with
      an assignment cannot be deleted (Failed, a 500) and nothing changes;
      otherwise the row goes and their schedules lose their instructor. */
  function DeleteSpec(rows: map<int, Instructor>, id: int, courseLinks: map<int, int>, schedules: map<int, Schedule>)
    : (r: (Outcome<Instructor>, map<int, Instructor>, map<int, Schedule>))
    ensures (r.0, r.1) == DeleteParent(rows, id, courseLinks)
    ensures r.2 == if r.0.Done? then Unassigned(schedules, id) else schedules
  {
    var (outcome, after) := DeleteParent(rows, id, courseLinks);
    (outcome, after, if outcome.Done? then Unassigned(schedules, id) else schedules)
  }

  /** Every schedule with an instructor names one that exists. */
  predicate InstructorsResolve(schedules: map<int, Schedule>, rows: map<int, Instructor>) {
    forall sid :: sid in schedules && schedules[sid].instructorId.Some? ==> schedules[sid].instructorId.value in rows
  }

  /** A delete never leaves an assignment or a schedule naming an
      instructor that is gone: assignments block it, schedules are
      unassigned. */
  lemma DeleteKeepsInstructorsResolved(rows: map<int, Instructor>, id: int, courseLinks: map<int, int>,
                                       schedules: map<int, Schedule>)
    requires Resolved(courseLinks, rows) && InstructorsResolve(schedules, rows)
    ensures var (_, after, schedulesAfter) := DeleteSpec(rows, id, courseLinks, schedules);
            Resolved(courseLinks, after) && InstructorsResolve(schedulesAfter, after)
  {
    var (r, after, schedulesAfter) := DeleteSpec(rows, id, courseLinks, schedules);
    DeleteParentKeepsResolved(rows, id, courseLinks);
    if r.Done? {
      forall sid | sid in schedulesAfter && schedulesAfter[sid].instructorId.Some?
        ensures schedulesAfter[sid].instructorId.value in after
      {
        assert schedulesAfter[sid] == schedules[sid];
      }
    }
  }

  // ---------------------------------------------------------------------
  // The table

  class InstructorTable {
    var rows: map<int, Instructor>
    var nextId: int

    ghost predicate Valid()
      reads this
    {
      nextId >= 1 && KeysBelow(rows.Keys, nextId) && Unique(rows)
    }

    constructor ()
      ensures Valid() && rows == map[]
    {
      rows := map[];
      nextId := 1;
    }

    /** `create_instructor`. */
    method Create(req: InstructorCreate, hasher: Hasher, clock: Clock) returns (r: Outcome<int>)
      requires Valid()
      modifies this
      ensures Valid()
      ensures (r, rows) == CreateSpec(old(rows), old(nextId), req, hasher, clock)
    {
      CreateStoresHash(rows, nextId, req, hasher, clock);
      r := CreateSpec(rows, nextId, req, hasher, clock).0;
      if r.Done? {
        rows := CreateSpec(rows, nextId, req, hasher, clock).1;
        nextId := nextId + 1;
      }
    }

    /** `get_instructor`. */
    function Get(id: int): (r: Option<Instructor>)
      reads this
      ensures r.Some? <==> id in rows
      ensures r.Some? ==> r.value == rows[id]
    {
      if id in rows then Some(rows[id]) else None
    }

    /** `get_next_instructor`. */
    function Next(current: int): (r: Option<int>)
      reads this
      requires Valid()
      ensures r.None? <==> rows == map[]
      ensures r.Some? ==> r.value in rows
    {
      NextKey(rows.Keys, current, nextId)
    }

    /** `update_instructor`. */
    method Update(id: int, p: InstructorUpdate, hasher: Hasher, clock: Clock) returns (r: Outcome<Instructor>)
      requires Valid()
      modifies this
      ensures Valid() && nextId == old(nextId)
      ensures (r, rows) == UpdateSpec(old(rows), id, p, hasher, clock)
    {
      UpdateKeepsUnique(rows, id, p, hasher, clock);
      r := UpdateSpec(rows, id, p, hasher, clock).0;
      rows := UpdateSpec(rows, id, p, hasher, clock).1;
    }

    /** `delete_instructor`; Missing is the False reply. */
    method Delete(id: int, courseLinks: map<int, int>, schedules: ScheduleTable) returns (r: Outcome<Instructor>)
      requires Valid() && schedules.Valid()
      modifies this, schedules
      ensures Valid() && nextId == old(nextId)
      ensures schedules.Valid() && schedules.nextId == old(schedules.nextId)
      ensures (r, rows, schedules.rows) == DeleteSpec(old(rows), id, courseLinks, old(schedules.rows))
    {
      if id !in rows {
        return Missing;
      }
      if Referenced(courseLinks, id) {
        return Failed;
      }
      r := Done(rows[id]);
      rows := rows - {id};
      schedules.rows := Unassigned(schedules.rows, id);
    }

    /** `change_instructor_password`: assigns the two fields of the row. */
    method ChangePassword(id: int, current: string, newPassword: string, hasher: Hasher, clock: Clock)
      returns (r: Change<Instructor>)
      requires Valid()
      modifies this
      ensures Valid() && nextId == old(nextId)
      ensures (r, rows) == ChangePasswordSpec(old(rows), id, current, newPassword, hasher, clock)
    {
      if id !in rows {
        return NoAccount;
      }
      if !hasher.verify(current, rows[id].password) {
        return WrongPassword;
      }
      var s := rows[id];
      s := s.(password := hasher.hash(newPassword));
      s := s.(updatedAt := clock.jakarta);
      rows := rows[id := s];
      r := Changed(s);
    }
  }
}
