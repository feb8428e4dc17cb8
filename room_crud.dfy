/** The room table (`app/crud/room.py`).

    The listing filters by name with `name ILIKE '%<filter>%'`, which
    SQLite evaluates as `lower(name) LIKE lower(pattern)`: ASCII letters
    compare without case, `%` matches any run of characters and `_` any
    one character, also when they come from the filter text itself. A room
    may be deleted only while no schedule books it.
 */
module RoomCrud {
  import opened Values
  import opened Clock
  import opened Tables
  import opened ScheduleCrud

  /** Coordinates and radius are carried as they are and never read. */
  datatype Room = Room(name: string, latitude: PyFloat, longitude: PyFloat, radius: PyFloat)

  /** `RoomCreate`. */
  datatype RoomCreate = RoomCreate(name: string, latitude: PyFloat, longitude: PyFloat, radius: PyFloat)

  /** `RoomUpdate` read with `exclude_unset=True`; every column is NOT NULL. */
  datatype RoomUpdate = RoomUpdate(
    name: Patch<Option<string>>,
    latitude: Patch<Option<PyFloat>>,
    longitude: Patch<Option<PyFloat>>,
    radius: Patch<Option<PyFloat>>)

  // ---------------------------------------------------------------------
  // LIKE, as SQLite evaluates it on lower-cased operands

  /** SQLite's `lower()`: ASCII letters only. */
  function Lower(c: char): char {
    if 'A' <= c <= 'Z' then (c as int + 32) as char else c
  }

  /** `text LIKE pattern`, without an ESCAPE clause. */
  predicate Like(pattern: string, text: string)
    decreases |pattern| + |text|
  {
    if pattern == [] then text == []
    else if pattern[0] == '%' then
      Like(pattern[1..], text) || (text != [] && Like(pattern, text[1..]))
    else
      text != [] && (pattern[0] == '_' || Lower(pattern[0]) == Lower(text[0]))
      && Like(pattern[1..], text[1..])
  }

  /** A filter without wildcard characters. */
  predicate Plain(q: string) {
    forall i :: 0 <= i < |q| ==> q[i] != '%' && q[i] != '_'
  }

  /** `q` is a prefix of `text` up to ASCII case. */
  predicate PrefixFolded(q: string, text: string) {
    |q| <= |text| && forall i :: 0 <= i < |q| ==> Lower(q[i]) == Lower(text[i])
  }

  /** `q` occurs somewhere in `text` up to ASCII case: the reference
      meaning of "the name contains the filter, case-insensitively". */
  predicate ContainsFolded(text: string, q: string) {
    exists k :: 0 <= k <= |text| && PrefixFolded(q, text[k..])
  }

  lemma {:induction false} PercentMatchesAll(text: string)
    ensures Like("%", text)
    decreases |text|
  {
    if text != [] {
      PercentMatchesAll(text[1..]);
    }
  }

  /** A plain filter followed by `%` matches exactly the texts it prefixes. */
  lemma {:induction false} PlainPrefix(q: string, text: string)
    requires Plain(q)
    ensures Like(q + "%", text) <==> PrefixFolded(q, text)
    decreases |q|
  {
    var p := q + "%";
    if q == [] {
      assert p == "%";
      PercentMatchesAll(text);
    } else {
      assert p[0] == q[0] && p[1..] == q[1..] + "%";
      assert q[0] != '%' && q[0] != '_';
      if text != [] {
        PlainPrefix(q[1..], text[1..]);
        if PrefixFolded(q, text) {
          assert PrefixFolded(q[1..], text[1..]) by {
            forall i | 0 <= i < |q| - 1
              ensures Lower(q[1..][i]) == Lower(text[1..][i])
            {
              assert q[1..][i] == q[i + 1] && text[1..][i] == text[i + 1];
            }
          }
        }
        if Lower(q[0]) == Lower(text[0]) && PrefixFolded(q[1..], text[1..]) {
          forall i | 0 <= i < |q|
            ensures Lower(q[i]) == Lower(text[i])
          {
            if i > 0 {
              assert q[1..][i - 1] == q[i] && text[1..][i - 1] == text[i];
            }
          }
        }
      }
    }
  }

  /** A leading `%` lets the rest of the pattern match any suffix. */
  lemma {:induction false} LeadingPercent(rest: string, text: string)
    ensures Like("%" + rest, text) <==> exists k :: 0 <= k <= |text| && Like(rest, text[k..])
    decreases |text|
  {
    var p := "%" + rest;
    assert p[0] == '%' && p[1..] == rest;
    assert text[0..] == text;
    if text != [] {
      LeadingPercent(rest, text[1..]);
      if Like(p, text[1..]) {
        var k :| 0 <= k <= |text[1..]| && Like(rest, text[1..][k..]);
        assert text[1..][k..] == text[k + 1..];
      }
      if exists k :: 0 <= k <= |text| && Like(rest, text[k..]) {
        var k :| 0 <= k <= |text| && Like(rest, text[k..]);
        if k > 0 {
          assert text[1..][k - 1..] == text[k..];
        }
      }
    }
  }

  /** The name filter means containment up to ASCII case, whenever the
      filter text has no wildcard characters. */
  lemma FilterMeansContains(q: string, text: string)
    requires Plain(q)
    ensures Like("%" + q + "%", text) <==> ContainsFolded(text, q)
  {
    assert "%" + q + "%" == "%" + (q + "%");
    LeadingPercent(q + "%", text);
    forall k | 0 <= k <= |text|
      ensures Like(q + "%", text[k..]) <==> PrefixFolded(q, text[k..])
    {
      PlainPrefix(q, text[k..]);
    }
  }

  /** Wildcards in the filter are not escaped: "_" lists every room whose
      name has at least one character, underscore or not. */
  lemma UnderscoreFilterMatchesAnyName()
    ensures Like("%" + "_" + "%", "A101")
    ensures !ContainsFolded("A101", "_")
  {
    assert Like("%", "101") by { PercentMatchesAll("101"); }
    assert "%_%"[1..] == "_%" && "_%"[1..] == "%";
    assert "A101"[1..] == "101";
    assert Like("_%", "A101");
    assert "%" + "_" + "%" == "%_%";
  }

  // ---------------------------------------------------------------------
  // get_rooms

  /** The filter of a listing: a truthy name adds the ILIKE clause. */
  predicate Listed(name: Option<string>, room: Room) {
    name.None? || name.value == "" || Like("%" + name.value + "%", room.name)
  }

  /** The ids, in order, whose rows pass the filter. */
  function Matching(ids: seq<int>, rows: map<int, Room>, name: Option<string>): (r: seq<int>)
    requires forall k :: 0 <= k < |ids| ==> ids[k] in rows
    ensures forall k :: 0 <= k < |r| ==> r[k] in rows && Listed(name, rows[r[k]])
    ensures forall k :: 0 <= k < |r| ==> r[k] in ids
    ensures forall k :: 0 <= k < |ids| && Listed(name, rows[ids[k]]) ==> ids[k] in r
  {
    if ids == [] then []
    else
      var rest := Matching(ids[1..], rows, name);
      if Listed(name, rows[ids[0]]) then [ids[0]] + rest else rest
  }

  function RowsOf(ids: seq<int>, rows: map<int, Room>): (r: seq<Room>)
    requires forall k :: 0 <= k < |ids| ==> ids[k] in rows
    ensures |r| == |ids| && forall k :: 0 <= k < |ids| ==> r[k] == rows[ids[k]]
  {
    if ids == [] then [] else [rows[ids[0]]] + RowsOf(ids[1..], rows)
  }

  /** `get_rooms`: the rows passing the filter, in id order, then OFFSET
      and LIMIT. */
  function GetRooms(rows: map<int, Room>, bound: int, skip: int, limit: int, name: Option<string>): (r: seq<Room>)
    ensures limit >= 0 ==> |r| <= limit
    ensures forall k :: 0 <= k < |r| ==> Listed(name, r[k])
    ensures skip <= 0 && limit < 0 ==>
              forall id :: id in rows && 1 <= id < bound && Listed(name, rows[id]) ==> rows[id] in r
    // the rows from position `skip` of the filtered, ordered ids, exactly
    // min(limit, what remains) of them
    ensures var m := Matching(KeysIn(rows.Keys, 1, bound), rows, name);
            var o := if skip < 0 then 0 else skip;
            |r| == (if o >= |m| then 0 else if 0 <= limit < |m| - o then limit else |m| - o)
            && forall k :: 0 <= k < |r| ==> r[k] == rows[m[o + k]]
  {
    var all := KeysIn(rows.Keys, 1, bound);
    var ids := Matching(all, rows, name);
    var page := Page(ids, skip, limit);
    assert forall k :: 0 <= k < |page| ==> page[k] in ids;
    RowsOf(page, rows)
  }

  /** With a plain, non-empty filter every listed room contains it, up to
      ASCII case, and with no paging every such room is listed. */
  lemma ListedRoomsContainFilter(rows: map<int, Room>, bound: int, skip: int, limit: int, q: string)
    requires Plain(q) && q != ""
    ensures forall k :: 0 <= k < |GetRooms(rows, bound, skip, limit, Some(q))| ==>
              ContainsFolded(GetRooms(rows, bound, skip, limit, Some(q))[k].name, q)
    ensures skip <= 0 && limit < 0 ==>
              forall id :: id in rows && 1 <= id < bound && ContainsFolded(rows[id].name, q) ==>
                rows[id] in GetRooms(rows, bound, skip, limit, Some(q))
  {
    var r := GetRooms(rows, bound, skip, limit, Some(q));
    forall k | 0 <= k < |r|
      ensures ContainsFolded(r[k].name, q)
    {
      FilterMeansContains(q, r[k].name);
    }
    forall id | id in rows && 1 <= id < bound && ContainsFolded(rows[id].name, q)
      ensures Listed(Some(q), rows[id])
    {
      FilterMeansContains(q, rows[id].name);
    }
  }

  // ---------------------------------------------------------------------
  // get_room, update_room, delete_room

  function NotFoundError(id: int): HttpError {
    HttpError(NotFound, "Room with ID " + IntToString(id) + " not found")
  }

  function InUseError(id: int): HttpError {
    HttpError(BadRequest, "Room with ID " + IntToString(id)
                          + " cannot be deleted because it is currently in use (has associated schedules)")
  }

  /** `get_room`. */
  function GetRoom(rows: map<int, Room>, id: int): (r: Result<Room>)
    ensures r.Ok? <==> id in rows
    ensures r.Ok? ==> r.value == rows[id]
    ensures r.Err? ==> r.error == NotFoundError(id) && r.error.status == NotFound
  {
    if id in rows then Ok(rows[id]) else Err(NotFoundError(id))
  }

  /** `db_room.schedules` is not empty. */
  predicate Booked(schedules: map<int, Schedule>, roomId: int) {
    exists sid :: sid in schedules && schedules[sid].roomId == Some(roomId)
  }

  /** Every schedule that names a room names one that exists. */
  predicate RoomsResolve(schedules: map<int, Schedule>, rows: map<int, Room>) {
    forall sid :: sid in schedules && schedules[sid].roomId.Some? ==> schedules[sid].roomId.value in rows
  }

  predicate NullIntoRequired(p: RoomUpdate) {
    p.name == Put(None) || p.latitude == Put(None) || p.longitude == Put(None) || p.radius == Put(None)
  }

  function UpdateSpec(rows: map<int, Room>, id: int, p: RoomUpdate): (Result<Room>, map<int, Room>) {
    match GetRoom(rows, id)
    case Err(e) => (Err(e), rows)
    case Ok(room) =>
      if NullIntoRequired(p) then (Err(HttpError(ServerError, "NOT NULL constraint failed")), rows)
      else
        var room' := Room(Required(p.name, room.name), Required(p.latitude, room.latitude),
                          Required(p.longitude, room.longitude), Required(p.radius, room.radius));
        (Ok(room'), rows[id := room'])
  }

  /** Only the supplied columns change; a null for any of them fails and
      changes nothing. */
  lemma UpdateSetsSuppliedFields(rows: map<int, Room>, id: int, p: RoomUpdate)
    ensures var (r, after) := UpdateSpec(rows, id, p);
            (id !in rows ==> r == Err(NotFoundError(id)) && after == rows)
            && (id in rows && NullIntoRequired(p) ==> r.Err? && r.error.status == ServerError && after == rows)
            && (r.Ok? ==>
                  after == rows[id := r.value]
                  && (p.name.Keep? ==> r.value.name == rows[id].name)
                  && (p.name.Put? ==> Some(r.value.name) == p.name.value)
                  && (p.latitude.Keep? ==> r.value.latitude == rows[id].latitude)
                  && (p.latitude.Put? ==> Some(r.value.latitude) == p.latitude.value)
                  && (p.longitude.Keep? ==> r.value.longitude == rows[id].longitude)
                  && (p.longitude.Put? ==> Some(r.value.longitude) == p.longitude.value)
                  && (p.radius.Keep? ==> r.value.radius == rows[id].radius)
                  && (p.radius.Put? ==> Some(r.value.radius) == p.radius.value))
  {
  }

  function DeleteSpec(rows: map<int, Room>, id: int, schedules: map<int, Schedule>): (Result<Room>, map<int, Room>) {
    match GetRoom(rows, id)
    case Err(e) => (Err(e), rows)
    case Ok(room) =>
      if Booked(schedules, id) then (Err(InUseError(id)), rows)
      else (Ok(room), rows - {id})
  }

  lemma DeleteRefusedWhileBooked(rows: map<int, Room>, id: int, schedules: map<int, Schedule>)
    ensures var (r, after) := DeleteSpec(rows, id, schedules);
            (id !in rows ==> r == Err(NotFoundError(id)) && after == rows)
            && (id in rows && Booked(schedules, id) ==> r == Err(InUseError(id)) && after == rows)
            && (id in rows && !Booked(schedules, id) ==> r == Ok(rows[id]) && after == rows - {id})
  {
  }

  /** Deleting never leaves a schedule booking a room that is gone. */
  lemma DeleteKeepsRoomsResolved(rows: map<int, Room>, id: int, schedules: map<int, Schedule>)
    requires RoomsResolve(schedules, rows)
    ensures RoomsResolve(schedules, DeleteSpec(rows, id, schedules).1)
  {
    var (r, after) := DeleteSpec(rows, id, schedules);
    if r.Ok? {
      forall sid | sid in schedules && schedules[sid].roomId.Some?
        ensures schedules[sid].roomId.value in after
      {
        assert schedules[sid].roomId != Some(id);
      }
    }
  }

  class RoomTable {
    var rows: map<int, Room>
    var nextId: int

    ghost predicate Valid()
      reads this
    {
      nextId >= 1 && KeysBelow(rows.Keys, nextId)
    }

    constructor ()
      ensures Valid() && rows == map[]
    {
      rows := map[];
      nextId := 1;
    }

    /** `create_room`. */
    method Create(req: RoomCreate) returns (id: int)
      requires Valid()
      modifies this
      ensures Valid()
      ensures id == old(nextId) && id !in old(rows)
      ensures rows == old(rows)[id := Room(req.name, req.latitude, req.longitude, req.radius)]
    {
      id := nextId;
      rows := rows[id := Room(req.name, req.latitude, req.longitude, req.radius)];
      nextId := nextId + 1;
    }

    /** `update_room`: the setattr loop over the supplied columns. */
    method Update(id: int, p: RoomUpdate) returns (r: Result<Room>)
      requires Valid()
      modifies this
      ensures Valid() && nextId == old(nextId)
      ensures (r, rows) == UpdateSpec(old(rows), id, p)
    {
      r := GetRoom(rows, id);
      if r.Err? {
        return;
      }
      if NullIntoRequired(p) {
        return Err(HttpError(ServerError, "NOT NULL constraint failed"));
      }
      var room := r.value;
      room := room.(name := Required(p.name, room.name));
      room := room.(latitude := Required(p.latitude, room.latitude));
      room := room.(longitude := Required(p.longitude, room.longitude));
      room := room.(radius := Required(p.radius, room.radius));
      rows := rows[id := room];
      r := Ok(room);
    }

    /** `delete_room`, given the schedule table it is guarded by. */
    method Delete(id: int, schedules: map<int, Schedule>) returns (r: Result<Room>)
      requires Valid()
      modifies this
      ensures Valid() && nextId == old(nextId)
      ensures (r, rows) == DeleteSpec(old(rows), id, schedules)
    {
      r := GetRoom(rows, id);
      if r.Err? {
        return;
      }
      if Booked(schedules, id) {
        return Err(InUseError(id));
      }
      rows := rows - {id};
    }
  }
}
