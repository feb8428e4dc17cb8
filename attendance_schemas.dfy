/** The request and response schemas of an attendance record: the three
    validators that turn a payload field into a mapping, and the check-in
    body's defaults.
 */
module AttendanceSchemas {
  import opened Values
  import opened Tables
  import opened AttendanceCrud

  /** `AttendanceCheckIn.parse_json_string`: numbers (booleans included) are
      wrapped, text is parsed, anything else passes through unchanged. It is
      `process_json_field` except on lists, which it does not wrap. */
  function CheckInParse(v: Value, codec: JsonCodec): (r: Value)
    ensures !v.List? ==> r == ProcessJsonField(v, codec)
    ensures v.List? ==> r == v
  {
    match v
    case Null => Null
    case Int(_) => DataWrap(Show(v))
    case Bool(_) => DataWrap(Show(v))
    case Float(_) => DataWrap(Show(v))
    case Str(s) => if codec.loads(s).Some? then codec.loads(s).value else DataWrap(s)
    case _ => v
  }

  /** The check-in field's declared type, `Optional[Union[Dict, str]]`, checked
      after the validator: None where pydantic raises a validation error. */
  function CheckInField(v: Value, codec: JsonCodec): (r: Option<Value>)
    ensures r.Some? ==> r.value == CheckInParse(v, codec)
    ensures r.Some? <==> CheckInParse(v, codec).Null? || CheckInParse(v, codec).Dict? || CheckInParse(v, codec).Str?
    ensures v.Null? || v.Dict? || v.Int? || v.Bool? || v.Float? ==> r.Some?
    ensures v.List? ==> r.None?
  {
    var p := CheckInParse(v, codec);
    if p.Null? || p.Dict? || p.Str? then Some(p) else None
  }

  /** `AttendanceRead.ensure_dict`. */
  function EnsureDict(v: Value, codec: JsonCodec): (r: Value)
    ensures r == ProcessJsonField(v, codec)
  {
    match v
    case Null => Null
    case Dict(_) => v
    case Str(s) => if codec.loads(s).Some? then codec.loads(s).value else DataWrap(s)
    case _ => DataWrap(Show(v))
  }

  /** A reply FastAPI cannot build (status 500). */
  const ResponseInvalid := HttpError(ServerError, "response validation error")

  /** The reply of an endpoint that returns an attendance object under
      `response_model=AttendanceRead`, built after the handler has
      committed: `ensure_dict` runs on both payloads, and a payload that is
      then neither None nor a mapping fails the declared `Optional[Dict]`. */
  function ReadResponse(a: Attendance, codec: JsonCodec): (r: Result<Attendance>)
    ensures r.Ok? <==> ((EnsureDict(a.location, codec).Null? || EnsureDict(a.location, codec).Dict?)
                        && (EnsureDict(a.face, codec).Null? || EnsureDict(a.face, codec).Dict?))
    ensures r.Ok? ==> r.value == ReadView(a, codec)
    ensures r.Ok? ==> (r.value.location.Null? || r.value.location.Dict?) && (r.value.face.Null? || r.value.face.Dict?)
    ensures r.Err? ==> r.error == ResponseInvalid
  {
    var v := a.(location := EnsureDict(a.location, codec), face := EnsureDict(a.face, codec));
    if (v.location.Null? || v.location.Dict?) && (v.face.Null? || v.face.Dict?) then Ok(v) else Err(ResponseInvalid)
  }

  /** Payloads stored as mappings or None are answered as stored. */
  lemma MappingsAnsweredAsStored(a: Attendance, codec: JsonCodec)
    requires (a.location.Null? || a.location.Dict?) && (a.face.Null? || a.face.Dict?)
    ensures ReadResponse(a, codec) == Ok(a)
  {
  }

  /** A number stored as the location is answered wrapped, `{"data": str(n)}`. */
  lemma StoredNumberAnsweredWrapped(a: Attendance, n: int, codec: JsonCodec)
    requires a.location == Int(n) && (a.face.Null? || a.face.Dict?)
    ensures ReadResponse(a, codec) == Ok(a.(location := DataWrap(IntToString(n))))
  {
  }

  /** Text stored as the location that `json.loads` reads as a number is
      still no mapping after `ensure_dict`: the committed check-in is
      answered with a 500. */
  lemma StoredNumberTextRefused(a: Attendance, s: string, n: int, codec: JsonCodec)
    requires a.location == Str(s) && codec.loads(s) == Some(Int(n))
    ensures ReadResponse(a, codec) == Err(ResponseInvalid)
  {
  }

  /** `AttendanceUpdate.parse_json_string`: only text is rewritten. */
  function UpdateParse(v: Value, codec: JsonCodec): (r: Value)
    ensures !v.Str? ==> r == v
    ensures v.Str? ==> r == ProcessJsonField(v, codec)
  {
    if v.Str? then (if codec.loads(v.s).Some? then codec.loads(v.s).value else DataWrap(v.s)) else v
  }

  /** The update field's declared type, `Optional[Dict]`, checked after the
      validator: None where the request is refused (422). */
  function UpdateField(v: Value, codec: JsonCodec): (r: Option<Value>)
    ensures r.Some? ==> r.value == UpdateParse(v, codec) && (r.value.Null? || r.value.Dict?)
    ensures v.Null? || v.Dict? ==> r == Some(v)
    ensures v.Int? || v.Bool? || v.Float? || v.List? ==> r.None?
  {
    var p := UpdateParse(v, codec);
    if p.Null? || p.Dict? then Some(p) else None
  }

  /** All three validators read text the same way. */
  lemma ValidatorsAgreeOnText(s: string, codec: JsonCodec)
    ensures CheckInParse(Str(s), codec) == EnsureDict(Str(s), codec) == UpdateParse(Str(s), codec)
    ensures codec.loads(s).None? ==> CheckInParse(Str(s), codec) == DataWrap(s)
  {
  }

  /** All three validators return a mapping unchanged. */
  lemma ValidatorsKeepMappings(entries: seq<(string, Value)>, codec: JsonCodec)
    ensures CheckInParse(Dict(entries), codec) == Dict(entries)
    ensures EnsureDict(Dict(entries), codec) == Dict(entries)
    ensures UpdateParse(Dict(entries), codec) == Dict(entries)
  {
  }

  /** The three differ only off the text and mapping cases: on a number the
      update validator passes the value through while the other two wrap it,
      and on a list only the read validator wraps it. */
  lemma ValidatorsDifferOnNumbersAndLists(i: int, items: seq<Value>, codec: JsonCodec)
    ensures UpdateParse(Int(i), codec) == Int(i) != CheckInParse(Int(i), codec) == EnsureDict(Int(i), codec)
    ensures CheckInParse(List(items), codec) == UpdateParse(List(items), codec) == List(items) != EnsureDict(List(items), codec)
  {
  }

  /** Defaults of `AttendanceCheckIn`: no time, no payloads, smile False, no URL. */
  const DefaultCheckIn: CheckIn := CheckIn(None, Null, Null, Some(false), None)

  /** A check-in built from defaults changes only the time and the status
      and sets smile to False; payloads and image stay as they were. */
  lemma DefaultCheckInTouchesTimeStatusSmile(a: Attendance, t: Clock.DateTime, status: string, codec: JsonCodec)
    ensures ApplyCheckIn(a, DefaultCheckIn, None, t, status, codec)
         == a.(checkInTime := Some(t), status := status, smile := false)
  {
  }
}
