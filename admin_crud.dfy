/** The admin table (`app/crud/admin.py`).

    `username` is a UNIQUE column. `AdminUpdate` extends the base schema,
    so full name and username are required in every update and always
    written; the profile picture and the password may be left out.
 */
module AdminCrud {
  import opened Values
  import opened Clock
  import opened Tables

  datatype Admin = Admin(
    fullName: string,
    username: string,
    password: string,             // the bcrypt hash
    profilePictureUrl: Option<string>,
    createdAt: DateTime,
    updatedAt: DateTime)

  /** `AdminCreate`; the password is declared a string, and the helper
      still checks it for None. */
  datatype AdminCreate = AdminCreate(
    fullName: string,
    username: string,
    profilePictureUrl: Option<string>,
    password: Option<string>)

  /** `AdminUpdate` read with `exclude_unset=True`. */
  datatype AdminUpdate = AdminUpdate(
    fullName: string,
    username: string,
    profilePictureUrl: Patch<Option<string>>,
    password: Patch<Option<string>>)

  predicate Unique(rows: map<int, Admin>) {
    forall i, j :: i in rows && j in rows && i != j ==> rows[i].username != rows[j].username
  }

  predicate UsernameTaken(rows: map<int, Admin>, username: string) {
    exists j :: j in rows && rows[j].username == username
  }

  // ---------------------------------------------------------------------
  // create_admin

  /** `ValueError` for a None password, before anything is hashed or
      written; a duplicate username fails at commit. */
  function CreateSpec(rows: map<int, Admin>, nextId: int, req: AdminCreate,
                      hasher: Hasher, clock: Clock): (Outcome<int>, map<int, Admin>)
  {
    if req.password.None? || UsernameTaken(rows, req.username) then (Failed, rows)
    else
      var a := Admin(req.fullName, req.username, hasher.hash(req.password.value),
                     req.profilePictureUrl, clock.jakarta, clock.jakarta);
      (Done(nextId), rows[nextId := a])
  }

  lemma CreateOutcomes(rows: map<int, Admin>, nextId: int, req: AdminCreate, hasher: Hasher, clock: Clock)
    requires Unique(rows) && nextId !in rows
    ensures var (r, after) := CreateSpec(rows, nextId, req, hasher, clock);
            (req.password.None? ==> r.Failed?)
            && (r.Failed? <==> req.password.None? || UsernameTaken(rows, req.username))
            && (r.Failed? ==> after == rows)
            && (r.Done? ==> r.value == nextId && after.Keys == rows.Keys + {nextId}
                            && after[nextId].password == hasher.hash(req.password.value)
                            && after[nextId].createdAt == clock.jakarta
                            && after[nextId].updatedAt == clock.jakarta)
            && Unique(after)
  {
    var (r, after) := CreateSpec(rows, nextId, req, hasher, clock);
    if r.Done? {
      forall i, j | i in after && j in after && i != j
        ensures after[i].username != after[j].username
      {
        if i == nextId {
          assert rows[j].username != req.username;
        } else if j == nextId {
          assert rows[i].username != req.username;
        }
      }
    }
  }

  // ---------------------------------------------------------------------
  // update_admin

  function Updated(s: Admin, p: AdminUpdate, hasher: Hasher, clock: Clock): Admin
    requires p.password != Put(None)
  {
    s.(fullName := p.fullName, username := p.username,
       profilePictureUrl := Apply(p.profilePictureUrl, s.profilePictureUrl),
       password := if p.password.Put? then hasher.hash(p.password.value.value) else s.password,
       updatedAt := clock.jakarta)
  }

  /** A supplied None password makes the hashing raise; a username held by
      another admin fails at commit. */
  function UpdateSpec(rows: map<int, Admin>, id: int, p: AdminUpdate,
                      hasher: Hasher, clock: Clock): (Outcome<Admin>, map<int, Admin>)
  {
    if id !in rows then (Missing, rows)
    else if p.password == Put(None) || UsernameTaken(rows - {id}, p.username) then (Failed, rows)
    else
      var s := Updated(rows[id], p, hasher, clock);
      (Done(s), rows[id := s])
  }

  lemma UpdateSetsSuppliedFields(rows: map<int, Admin>, id: int, p: AdminUpdate, hasher: Hasher, clock: Clock)
    ensures var (r, after) := UpdateSpec(rows, id, p, hasher, clock);
            (r.Missing? <==> id !in rows)
            && (!r.Done? ==> after == rows)
            && (r.Done? ==>
                  after == rows[id := r.value]
                  && r.value.fullName == p.fullName && r.value.username == p.username
                  && (p.profilePictureUrl.Keep? ==> r.value.profilePictureUrl == rows[id].profilePictureUrl)
                  && (p.profilePictureUrl.Put? ==> r.value.profilePictureUrl == p.profilePictureUrl.value)
                  && (p.password.Keep? ==> r.value.password == rows[id].password)
                  && (p.password.Put? ==> Some(r.value.password) == Some(hasher.hash(p.password.value.value)))
                  && r.value.createdAt == rows[id].createdAt
                  && r.value.updatedAt == clock.jakarta)
  {
  }

  lemma UpdateKeepsUnique(rows: map<int, Admin>, id: int, p: AdminUpdate, hasher: Hasher, clock: Clock)
    requires Unique(rows)
    ensures Unique(UpdateSpec(rows, id, p, hasher, clock).1)
  {
    var (r, after) := UpdateSpec(rows, id, p, hasher, clock);
    if r.Done? {
      forall i, j | i in after && j in after && i != j
        ensures after[i].username != after[j].username
      {
        if i == id {
          assert j in rows - {id};
        } else if j == id {
          assert i in rows - {id};
        }
      }
    }
  }

  // ---------------------------------------------------------------------
  // change_admin_password

  function ChangePasswordSpec(rows: map<int, Admin>, id: int, current: string, newPassword: string,
                              hasher: Hasher, clock: Clock): (Change<Admin>, map<int, Admin>)
  {
    if id !in rows then (NoAccount, rows)
    else if !hasher.verify(current, rows[id].password) then (WrongPassword, rows)
    else
      var s := rows[id].(password := hasher.hash(newPassword), updatedAt := clock.jakarta);
      (Changed(s), rows[id := s])
  }

  lemma ChangePasswordOutcomes(rows: map<int, Admin>, id: int, current: string, newPassword: string,
                               hasher: Hasher, clock: Clock)
    ensures var (r, after) := ChangePasswordSpec(rows, id, current, newPassword, hasher, clock);
            (r.NoAccount? <==> id !in rows)
            && (r.WrongPassword? <==> id in rows && !hasher.verify(current, rows[id].password))
            && (!r.Changed? ==> after == rows)
            && (r.Changed? ==>
                  after == rows[id := r.value]
                  && r.value == rows[id].(password := hasher.hash(newPassword), updatedAt := clock.jakarta))
  {
  }

  /** The old password stops working as soon as a new one is set, provided
      the hash of the new password does not also verify the old one. */
  lemma OldPasswordRefusedAfterChange(rows: map<int, Admin>, id: int, current: string, newPassword: string,
                                      hasher: Hasher, clock: Clock, later: Clock)
    requires !hasher.verify(current, hasher.hash(newPassword))
    requires ChangePasswordSpec(rows, id, current, newPassword, hasher, clock).0.Changed?
    ensures var after := ChangePasswordSpec(rows, id, current, newPassword, hasher, clock).1;
            ChangePasswordSpec(after, id, current, current, hasher, later) == (WrongPassword, after)
  {
  }

  // ---------------------------------------------------------------------
  // The table

  class AdminTable {
    var rows: map<int, Admin>
    var nextId: int

    ghost predicate Valid()
      reads this
    {
      nextId >= 1 && KeysBelow(rows.Keys, nextId) && Unique(rows)
    }

    constructor ()
      ensures Valid() && rows == map[]
    {
      rows := map[];
      nextId := 1;
    }

    /** `create_admin`. */
    method Create(req: AdminCreate, hasher: Hasher, clock: Clock) returns (r: Outcome<int>)
      requires Valid()
      modifies this
      ensures Valid()
      ensures (r, rows) == CreateSpec(old(rows), old(nextId), req, hasher, clock)
    {
      CreateOutcomes(rows, nextId, req, hasher, clock);
      r := CreateSpec(rows, nextId, req, hasher, clock).0;
      if r.Done? {
        rows := CreateSpec(rows, nextId, req, hasher, clock).1;
        nextId := nextId + 1;
      }
    }

    /** `update_admin`: the password is popped and hashed, the remaining
      fields are set one by one, and `updated_at` is stamped last. */
    method Update(id: int, p: AdminUpdate, hasher: Hasher, clock: Clock) returns (r: Outcome<Admin>)
      requires Valid()
      modifies this
      ensures Valid() && nextId == old(nextId)
      ensures (r, rows) == UpdateSpec(old(rows), id, p, hasher, clock)
    {
      UpdateKeepsUnique(rows, id, p, hasher, clock);
      if id !in rows {
        return Missing;
      }
      if p.password == Put(None) || UsernameTaken(rows - {id}, p.username) {
        return Failed;
      }
      var s := rows[id];
      if p.password.Put? {
        s := s.(password := hasher.hash(p.password.value.value));
      }
      s := s.(fullName := p.fullName, username := p.username,
              profilePictureUrl := Apply(p.profilePictureUrl, s.profilePictureUrl));
      s := s.(updatedAt := clock.jakarta);
      rows := rows[id := s];
      r := Done(s);
    }

    /** `delete_admin`. */
    method Delete(id: int) returns (deleted: bool)
      requires Valid()
      modifies this
      ensures Valid() && nextId == old(nextId)
      ensures deleted <==> id in old(rows)
      ensures rows == old(rows) - {id}
    {
      deleted := id in rows;
      rows := rows - {id};
    }

    /** `change_admin_password`. */
    method ChangePassword(id: int, current: string, newPassword: string, hasher: Hasher, clock: Clock)
      returns (r: Change<Admin>)
      requires Valid()
      modifies this
      ensures Valid() && nextId == old(nextId)
      ensures (r, rows) == ChangePasswordSpec(old(rows), id, current, newPassword, hasher, clock)
    {
      if id !in rows {
        return NoAccount;
      }
      if !hasher.verify(current, rows[id].password) {
        return WrongPassword;
      }
      var s := rows[id].(password := hasher.hash(newPassword));
      s := s.(updatedAt := clock.jakarta);
      rows := rows[id := s];
      r := Changed(s);
    }
  }
}
