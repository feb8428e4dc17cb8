/** What every table of the service shares: primary keys, partial updates,
    HTTP errors and the SQL clauses the queries use (ORDER BY id, OFFSET,
    LIMIT).
 */
module Tables {
  import opened Values

  /** One field of a pydantic update model read with `exclude_unset=True`:
      either the client left it unset or it set a value. */
  datatype Patch<T> = Keep | Put(value: T)

  /** `setattr(row, key, value)` for a field that is present. */
  function Apply<T>(p: Patch<T>, current: T): T {
    match p
    case Keep => current
    case Put(v) => v
  }

  /** The value a NOT NULL column keeps or receives (a null sent for it
      makes the commit fail, which the callers check separately). */
  function Required<T>(p: Patch<Option<T>>, current: T): T {
    if p.Put? && p.value.Some? then p.value.value else current
  }

  /** Password hashing (bcrypt), as two functions: `hash` for
      `get_password_hash` and `verify(plain, hashed)` for `verify_password`. */
  datatype Hasher = Hasher(hash: string -> string, verify: (string, string) -> bool)

  /** The three results of a password change: no such account (None), the
      current password does not verify (False), or the updated row. */
  datatype Change<T> = NoAccount | WrongPassword | Changed(value: T)

  /** An `HTTPException(status_code, detail)`; status 500 stands for an
      exception the handlers do not catch. */
  datatype HttpError = HttpError(status: int, detail: string)

  datatype Result<T> = Ok(value: T) | Err(error: HttpError)

  /** The result of a CRUD helper that returns None for a missing row and
      may raise: `Missing` is the None, `Failed` an exception that escapes
      (the request ends with status 500 and nothing is committed). */
  datatype Outcome<T> = Missing | Failed | Done(value: T)

  const NotFound := 404
  const Forbidden := 403
  const BadRequest := 400
  const ServerError := 500

  // ---------------------------------------------------------------------
  // ORDER BY id
  //
  // Every table draws its ids from an autoincrement counter, so all keys lie
  // in [1, nextId); ordered queries scan that range upwards.

  /** The keys in [lo, hi), ascending (`WHERE lo <= id < hi ORDER BY id`). */
  function KeysIn(keys: set<int>, lo: int, hi: int): (r: seq<int>)
    ensures forall i :: 0 <= i < |r| ==> r[i] in keys && lo <= r[i] < hi
    ensures forall k :: k in keys && lo <= k < hi ==> k in r
    ensures forall i, j :: 0 <= i < j < |r| ==> r[i] < r[j]
    decreases hi - lo
  {
    if lo >= hi then []
    else if lo in keys then [lo] + KeysIn(keys, lo + 1, hi)
    else KeysIn(keys, lo + 1, hi)
  }

  /** The smallest key in [lo, hi), if there is one. */
  function FirstIn(keys: set<int>, lo: int, hi: int): (r: Option<int>)
    ensures r.Some? ==> r.value in keys && lo <= r.value < hi
    ensures r.Some? ==> forall k :: k in keys && lo <= k < hi ==> r.value <= k
    ensures r.None? ==> forall k :: k in keys ==> !(lo <= k < hi)
  {
    var ks := KeysIn(keys, lo, hi);
    if ks == [] then None
    else
      assert forall k :: k in keys && lo <= k < hi ==> ks[0] <= k by {
        forall k | k in keys && lo <= k < hi
          ensures ks[0] <= k
        {
          var i :| 0 <= i < |ks| && ks[i] == k;
          assert i == 0 || ks[0] < ks[i];
        }
      }
      Some(ks[0])
  }

  predicate KeysBelow(keys: set<int>, bound: int) {
    forall k :: k in keys ==> 1 <= k < bound
  }

  /** The "next record" rule of `get_next_student` / `get_next_instructor`
      over a table whose ids lie in [1, bound): the smallest id greater than
      `current`, or else the smallest id overall (wrap-around); None only
      for an empty table. */
  function NextKey(keys: set<int>, current: int, bound: int): (r: Option<int>)
    requires KeysBelow(keys, bound)
    ensures r.None? <==> keys == {}
    ensures r.Some? ==> r.value in keys
    // the successor, when there is one
    ensures (exists k :: k in keys && k > current) ==>
              current < r.value && forall k :: k in keys && k > current ==> r.value <= k
    // otherwise the wrap-around to the first id
    ensures (forall k :: k in keys ==> k <= current) && r.Some? ==>
              forall k :: k in keys ==> r.value <= k
  {
    var after := FirstIn(keys, current + 1, bound);
    if after.Some? then after else FirstIn(keys, 1, bound)
  }

  // ---------------------------------------------------------------------
  // Deleting a parent row
  //
  // A child table's NOT NULL foreign-key column is given as a map from the
  // child's id to the parent id it names.

  /** Some child row names `id`. */
  predicate Referenced(fks: map<int, int>, id: int) {
    exists c :: c in fks && fks[c] == id
  }

  /** Every child row names a parent that exists. */
  predicate Resolved<T>(fks: map<int, int>, parents: map<int, T>) {
    forall c :: c in fks ==> fks[c] in parents
  }

  /** The error of a commit that raises (FastAPI's reply to an uncaught
      exception). */
  const CommitFailed := HttpError(ServerError, "Internal Server Error")

  /** `db.delete(parent); db.commit()` when the relationship to a child
      table has no delete cascade: the session loads the children and sets
      their foreign key to NULL, the NOT NULL column refuses it, the commit
      raises and nothing is deleted (Failed). A parent no child names is
      removed. */
  function DeleteParent<T>(rows: map<int, T>, id: int, fks: map<int, int>): (r: (Outcome<T>, map<int, T>))
    ensures id !in rows ==> r == (Missing, rows)
    ensures r.0.Failed? <==> id in rows && Referenced(fks, id)
    ensures r.0.Failed? ==> r.1 == rows
    ensures r.0.Done? ==> id in rows && r.0.value == rows[id] && r.1 == rows - {id}
  {
    if id !in rows then (Missing, rows)
    else if Referenced(fks, id) then (Failed, rows)
    else (Done(rows[id]), rows - {id})
  }

  /** What the NOT NULL column guarantees: a delete that goes through never
      leaves a child naming a parent that is gone. */
  lemma DeleteParentKeepsResolved<T>(rows: map<int, T>, id: int, fks: map<int, int>)
    requires Resolved(fks, rows)
    ensures Resolved(fks, DeleteParent(rows, id, fks).1)
  {
    var r := DeleteParent(rows, id, fks);
    if r.0.Done? {
      forall c | c in fks
        ensures fks[c] in r.1
      {
        assert fks[c] != id;
      }
    }
  }

  /** The ids a list names. */
  function Members(ids: seq<int>): set<int> {
    set k | k in ids
  }

  // ---------------------------------------------------------------------
  // OFFSET / LIMIT as SQLite applies them

  /** A page of an ascending list is ascending. */
  lemma PageAscending(rows: seq<int>, skip: int, limit: int)
    requires forall i, j :: 0 <= i < j < |rows| ==> rows[i] < rows[j]
    ensures var r := Page(rows, skip, limit);
            forall i, j :: 0 <= i < j < |r| ==> r[i] < r[j]
  {
    var r := Page(rows, skip, limit);
    var o := if skip < 0 then 0 else skip;
    forall i, j | 0 <= i < j < |r|
      ensures r[i] < r[j]
    {
      assert r[i] == rows[o + i] && r[j] == rows[o + j];
    }
  }

  /** SQLite's `LIMIT limit OFFSET skip`: a negative offset counts as zero
      and a negative limit means "no limit". */
  function Page<T>(rows: seq<T>, skip: int, limit: int): (r: seq<T>)
    ensures limit >= 0 ==> |r| <= limit
    ensures forall x :: x in r ==> x in rows
    // exactly min(limit, what remains) rows, those from position `skip` on
    ensures var o := if skip < 0 then 0 else skip;
            |r| == (if o >= |rows| then 0 else if 0 <= limit < |rows| - o then limit else |rows| - o)
    ensures var o := if skip < 0 then 0 else skip;
            forall k :: 0 <= k < |r| ==> o + k < |rows| && r[k] == rows[o + k]
  {
    var o := if skip < 0 then 0 else skip;
    if o >= |rows| then []
    else
      var rest := rows[o..];
      if limit < 0 || limit >= |rest| then rest else rest[..limit]
  }
}
