/** Face verification of a check-in photo.

    The image pipeline (base64 and image decoding, Haar-cascade detection,
    cropping, resizing and the Keras classifier) is foreign code; it is a
    `Vision` value of functions, each of which may raise. What is modelled is
    the decision built on top of it: which failure message each stage gives,
    how the NIM is read off the predicted label, when a photo counts as
    verified, and the rule that the attendance table is written only for a
    verified photo.
 */
module FaceVerification {
  import opened Values
  import opened Clock
  import opened Tables
  import opened StartTime
  import opened ScheduleCrud
  import opened AttendanceCrud

  /** The classifier's labels, "<NIM>_<name>", in output order. Two students
      share NIM 11322038 (indices 18 and 19). */
  const ClassLabels: seq<string> := [
    "11322005_Maria Sibarani", "11322007_Putri", "11322008_Maria Pangaribuan",
    "11322009_Iqbal", "11322012_Carloka", "11322014_Daniel Siahaan",
    "11322016_Horas", "11322017_Jessica", "11322018_Maranatha",
    "11322019_Silvi", "11322020_Okta", "11322022_Keren",
    "11322023_Mananda", "11322026_Aqustin", "11322031_Daniel Manalu",
    "11322032_Sabar", "11322036_Tom", "11322037_Hasan",
    "11322038_Samuel", "11322038_Kenan", "11322041_Cecilia",
    "11322042_Kesia", "11322043_Risna", "11322044_Kristina",
    "11322046_Indah", "11322047_Olivia", "11322048_Resa",
    "11322049_Trinita", "11322050_Elisabeth", "11322051_Sarah",
    "11322052_Blessherin", "11322057_Citra", "11322058_Dian",
    "11322059_Cesia", "11322060_Vanessa", "11322061_Johanna",
    "11322062_Monica", "11322063_Hagai"]

  // ---------------------------------------------------------------------
  // The NIM of a label

  predicate StartsWith(s: string, prefix: string) {
    |prefix| <= |s| && s[..|prefix|] == prefix
  }

  /** `extract_nim`: the text before the first "_" of a non-empty label. */
  function ExtractNim(prediction: Option<string>): (r: Option<string>)
    ensures r.Some? <==> prediction.Some? && prediction.value != ""
    ensures r.Some? ==> '_' !in r.value && StartsWith(prediction.value, r.value)
    ensures r.Some? && |r.value| < |prediction.value| ==> prediction.value[|r.value|] == '_'
  {
    if prediction.Some? && prediction.value != "" then
      SplitFirst(prediction.value, '_');
      Some(Split(prediction.value, '_')[0])
    else None
  }

  /** A label names `nim` exactly when it is `nim` alone or `nim` followed by
      "_" (and `nim` has no "_" of its own). */
  lemma ExtractNimIff(className: string, nim: string)
    ensures ExtractNim(Some(className)) == Some(nim) <==>
              className != "" && '_' !in nim && (className == nim || StartsWith(className, nim + "_"))
  {
    if ExtractNim(Some(className)) == Some(nim) {
      if |nim| < |className| {
        assert className[..|nim| + 1] == className[..|nim|] + [className[|nim|]];
      } else {
        assert className == className[..|nim|];
      }
    }
    if className != "" && '_' !in nim && (className == nim || StartsWith(className, nim + "_")) {
      var f := ExtractNim(Some(className)).value;
      if className == nim {
        assert f == className[..|className|] == className;
      } else {
        assert className[..|nim|] == nim && className[|nim|] == '_' by {
          assert className[..|nim| + 1] == nim + "_";
          assert className[..|nim|] == className[..|nim| + 1][..|nim|];
        }
        assert f == className[..|nim|];
      }
    }
  }

  /** "<nim>_<name>" names `nim`. */
  lemma NimOfLabel(nim: string, name: string)
    requires nim != "" && '_' !in nim
    ensures ExtractNim(Some(nim + "_" + name)) == Some(nim)
  {
    var c := nim + "_" + name;
    assert c[..|nim| + 1] == nim + "_";
    ExtractNimIff(c, nim);
  }

  // ---------------------------------------------------------------------
  // The image pipeline

  datatype Attempt<T> = Succeeded(value: T) | Raised(msg: string)

  /** A face box (x, y, w, h) as the detector reports it. */
  datatype Box = Box(x: int, y: int, w: int, h: int)

  /** The classifier's answer: the argmax index and its probability. */
  datatype Prediction = Prediction(classIndex: nat, confidence: PyFloat)

  /** The foreign stages; each may raise, with the exception's text. */
  datatype Vision<!Img> = Vision(
    decodeBase64: string -> Attempt<Img>,   // base64 decode, open, to array
    openBytes: seq<bv8> -> Attempt<Img>,    // open raw bytes, to array
    fileExists: string -> bool,
    readFile: string -> Attempt<Img>,       // cv2.imread
    detect: Img -> Attempt<seq<Box>>,       // preprocess, grey, detect
    classify: (Img, Box) -> Attempt<Prediction>)  // crop, resize, predict

  /** What `verify_face` is given: text (a data URL, a path or base64) or bytes. */
  datatype ImageInput = Text(s: string) | Bytes(b: seq<bv8>)

  /** `detect_face`: no face means None; otherwise the first box is used. */
  function DetectFace(faces: seq<Box>): (r: Option<Box>)
    ensures r.None? <==> faces == []
    ensures r.Some? ==> r.value == faces[0]
  {
    if |faces| == 0 then None else Some(faces[0])
  }

  /** Faces after the first never matter. */
  lemma DetectFaceFirstOnly(faces: seq<Box>, more: seq<Box>)
    requires faces != []
    ensures DetectFace(faces + more) == DetectFace(faces[..1])
  {
  }

  /** The dictionary `verify_face` returns. Python's `verified` can be a
      falsy non-boolean (None, ""); it is read here by truthiness. */
  datatype Verification = Verification(
    verified: bool,
    message: string,
    confidence: PyFloat,
    predictedNim: Option<string>,
    predictedName: Option<string>,
    faceCoords: Option<Box>)

  /** Every refusal: not verified, confidence 0.0, no prediction and no
      face box. */
  function Refusal(message: string): (r: Verification)
    ensures !r.verified && r.confidence == ZeroFloat && r.predictedName.None? && r.faceCoords.None? && r.message == message
  {
    Verification(false, message, ZeroFloat, None, None, None)
  }

  const ErrorPrefix: string := "Error during face verification: "

  datatype Loaded<Img> = Loaded(img: Img) | Refused(message: string) | Thrown(msg: string)

  /** The loading branches at the top of `verify_face`. */
  function LoadImage<Img>(input: ImageInput, vision: Vision<Img>): Loaded<Img>
  {
    match input
    case Text(s) =>
      if StartsWith(s, "data:image") then
        var parts := Split(s, ',');
        if |parts| < 2 then Thrown("list index out of range")
        else Reached(vision.decodeBase64(parts[1]))
      else if vision.fileExists(s) then Reached(vision.readFile(s))
      else if vision.decodeBase64(s).Succeeded? then Loaded(vision.decodeBase64(s).value)
      else Refused("Invalid image data format")
    case Bytes(b) =>
      if vision.openBytes(b).Succeeded? then Loaded(vision.openBytes(b).value)
      else Refused("Could not process image data")
  }

  /** A stage whose exception reaches the outer handler. */
  function Reached<Img>(a: Attempt<Img>): Loaded<Img> {
    match a
    case Succeeded(img) => Loaded(img)
    case Raised(e) => Thrown(e)
  }

  /** The decision once a label is predicted for the face in `box`. No
      confidence threshold. */
  function Decide(className: string, confidence: PyFloat, box: Box, nim: string): (r: Verification)
    ensures r.verified <==> nim != "" && ExtractNim(Some(className)) == Some(nim)
    ensures r.confidence == confidence && r.predictedName == Some(className) && r.faceCoords == Some(box)
    ensures r.predictedNim == ExtractNim(Some(className))
    ensures r.message == (if r.verified then "Face verified successfully" else "Face verification failed")
  {
    var predicted := ExtractNim(Some(className));
    var ok := predicted.Some? && predicted.value != "" && predicted.value == nim;
    Verification(ok, if ok then "Face verified successfully" else "Face verification failed",
                 confidence, predicted, Some(className), Some(box))
  }

  /** `verify_face`. */
  function VerifyFace<Img>(input: ImageInput, nim: string, vision: Vision<Img>): (r: Verification)
    // a verified photo is one whose predicted label carries the expected NIM
    ensures r.verified ==> nim != "" && r.predictedNim == Some(nim)
                           && r.predictedName.Some? && r.predictedName.value in ClassLabels
    // every path that does not reach a prediction is a refusal with confidence 0.0
    ensures r.predictedName.None? ==> r == Refusal(r.message)
    // a prediction always comes with the box of the face it was made on
    ensures r.predictedName.Some? <==> r.faceCoords.Some?
    ensures r.predictedName.Some? ==> r.predictedNim == ExtractNim(r.predictedName)
                                      && (r.verified <==> nim != "" && r.predictedNim == Some(nim))
  {
    match LoadImage(input, vision)
    case Refused(m) => Refusal(m)
    case Thrown(e) => Refusal(ErrorPrefix + e)
    case Loaded(img) =>
      match vision.detect(img)
      case Raised(e) => Refusal(ErrorPrefix + e)
      case Succeeded(faces) =>
        match DetectFace(faces)
        case None => Refusal("No face detected in the image")
        case Some(box) =>
          match vision.classify(img, box)
          case Raised(e) => Refusal(ErrorPrefix + e)
          case Succeeded(p) =>
            if p.classIndex >= |ClassLabels| then Refusal(ErrorPrefix + "list index out of range")
            else Decide(ClassLabels[p.classIndex], p.confidence, box, nim)
  }

  /** The named failure messages, one per stage that is caught. */
  lemma VerifyFaceFailures<Img>(input: ImageInput, nim: string, vision: Vision<Img>)
    ensures input.Bytes? && vision.openBytes(input.b).Raised? ==>
              VerifyFace(input, nim, vision) == Refusal("Could not process image data")
    ensures input.Text? && !StartsWith(input.s, "data:image") && !vision.fileExists(input.s)
            && vision.decodeBase64(input.s).Raised? ==>
              VerifyFace(input, nim, vision) == Refusal("Invalid image data format")
    ensures LoadImage(input, vision).Loaded? && vision.detect(LoadImage(input, vision).img) == Succeeded([]) ==>
              VerifyFace(input, nim, vision) == Refusal("No face detected in the image")
  {
  }

  /** Photos whose predictions name the same class get the same verdict,
      whatever the two confidences are. */
  lemma NoConfidenceThreshold(className: string, c1: PyFloat, c2: PyFloat, box: Box, nim: string)
    ensures Decide(className, c1, box, nim).verified == Decide(className, c2, box, nim).verified
  {
  }

  /** A prediction of either class 18 or class 19 verifies NIM 11322038. */
  lemma SharedNimVerifiesBoth(c: PyFloat, box: Box)
    ensures ClassLabels[18] != ClassLabels[19]
    ensures Decide(ClassLabels[18], c, box, "11322038").verified
    ensures Decide(ClassLabels[19], c, box, "11322038").verified
  {
    var nim := "11322038";
    assert '_' !in nim;
    assert ClassLabels[18] == nim + "_" + "Samuel";
    assert ClassLabels[19] == nim + "_" + "Kenan";
    NimOfLabel(nim, "Samuel");
    NimOfLabel(nim, "Kenan");
  }

  // ---------------------------------------------------------------------
  // student_check_in_with_verification

  /** The `verification` entry of the reply: the full result, or the short
      `{"verified": False, "message": ...}` of the outer exception handler. */
  datatype Report = Full(v: Verification) | Brief(message: string)

  datatype Reply = Reply(success: bool, message: string, attendance: Option<Attendance>, report: Report)

  /** The record stored as `face_verification_data` on success. */
  function Summary(v: Verification, timestamp: string): (r: Value)
    ensures r.Dict? && |r.entries| == 4
    ensures r.entries[0] == ("verified", Bool(v.verified)) && r.entries[1] == ("confidence", Float(v.confidence))
    ensures r.entries[2].1 == Str(if v.predictedName.Some? then v.predictedName.value else "")
    ensures r.entries[3] == ("timestamp", Str(timestamp))
  {
    Dict([("verified", Bool(v.verified)),
          ("confidence", Float(v.confidence)),
          ("predicted_name", Str(if v.predictedName.Some? then v.predictedName.value else "")),
          ("timestamp", Str(timestamp))])
  }

  /** "/uploads/attendance_images/attendance_<id>_<stamp><ext>". */
  function ImageUrl(id: int, stamp: string, extension: string): string {
    "/uploads/attendance_images/attendance_" + IntToString(id) + "_" + stamp + extension
  }

  /** The environment of one call: the server's clock as `str(datetime.now())`
      and as "%Y%m%d%H%M%S", the photo's extension, and the text of an
      exception the check-in raises (a start time that cannot be read). */
  datatype Upload = Upload(content: seq<bv8>, extension: string)
  datatype Stamps = Stamps(now: string, compact: string)

  /** What follows the verdict: a refused photo changes nothing; a verified
      one is checked in with the summary as its face data and the saved
      photo's URL. */
  function AfterVerdict(rows: map<int, Attendance>, id: int, req: CheckIn, v: Verification, photo: Upload,
                        schedules: map<int, Schedule>, clock: Clock, codec: JsonCodec,
                        stamps: Stamps, checkInError: string): (r: (Reply, map<int, Attendance>))
    ensures !r.0.success ==> r.1 == rows
    ensures r.0.success ==> v.verified
    ensures !v.verified ==> !r.0.success && r.0.message == "Face verification failed: " + v.message
    ensures r.0.report.Brief? ==> !r.0.success
    // a check-in that went through changes only its own record
    ensures r.0.attendance.Some? ==> r.0.success && id in rows && r.1 == rows[id := r.0.attendance.value]
  {
    if !v.verified then (Reply(false, "Face verification failed: " + v.message, None, Full(v)), rows)
    else
      var stamped := req.(face := Str(codec.dumps(Summary(v, stamps.now))));
      var url := ImageUrl(id, stamps.compact, photo.extension);
      var (outcome, after) := CheckInSpec(rows, id, stamped, Some(url), schedules, clock, codec);
      match outcome
      case Failed => (Reply(false, "Error during check-in: " + checkInError, None, Brief(checkInError)), rows)
      case Missing => (Reply(true, "Check-in successful", None, Full(v)), after)
      case Done(a) => (Reply(true, "Check-in successful", Some(a), Full(v)), after)
  }

  /** `student_check_in_with_verification` on a table: the reply and the
      table afterwards. `modelError` is the text of the exception raised
      when the model cannot be loaded. */
  function VerifiedCheckInSpec<Img>(rows: map<int, Attendance>, id: int, req: CheckIn, photo: Upload, nim: string,
                                    modelError: Option<string>, vision: Vision<Img>,
                                    schedules: map<int, Schedule>, clock: Clock, codec: JsonCodec,
                                    stamps: Stamps, checkInError: string): (r: (Reply, map<int, Attendance>))
    // all or nothing: the table changes only for a verified photo
    ensures !r.0.success ==> r.1 == rows
    ensures r.0.success ==> modelError.None? && VerifyFace(Bytes(photo.content), nim, vision).verified
    ensures r.0.attendance.Some? ==> r.0.success && id in rows && r.1 == rows[id := r.0.attendance.value]
    ensures modelError.None? && !VerifyFace(Bytes(photo.content), nim, vision).verified ==>
              r.1 == rows && !r.0.success
              && r.0.message == "Face verification failed: " + VerifyFace(Bytes(photo.content), nim, vision).message
  {
    match modelError
    case Some(e) => (Reply(false, "Error during check-in: " + e, None, Brief(e)), rows)
    case None => AfterVerdict(rows, id, req, VerifyFace(Bytes(photo.content), nim, vision), photo,
                              schedules, clock, codec, stamps, checkInError)
  }

  /** On success the record holds the summary (when `json.loads` reads back
      the text `json.dumps` wrote, which is never empty for a mapping), the
      photo's URL, the check-in time and the PRESENT or LATE status the
      check-in rule gives it. */
  lemma CheckInStoresSummary(rows: map<int, Attendance>, id: int, req: CheckIn, v: Verification, photo: Upload,
                             schedules: map<int, Schedule>, clock: Clock, codec: JsonCodec,
                             stamps: Stamps, checkInError: string)
    requires codec.dumps(Summary(v, stamps.now)) != ""
    requires codec.loads(codec.dumps(Summary(v, stamps.now))) == Some(Summary(v, stamps.now))
    ensures var r := AfterVerdict(rows, id, req, v, photo, schedules, clock, codec, stamps, checkInError);
            r.0.attendance.Some? ==>
              r.0.success && id in rows && r.1 == rows[id := r.0.attendance.value]
              && r.0.attendance.value.face == Summary(v, stamps.now)
              && r.0.attendance.value.imageUrl == Some(ImageUrl(id, stamps.compact, photo.extension))
              && r.0.attendance.value.checkInTime == Some(EffectiveCheckIn(req.checkInTime, clock))
              && Some(r.0.attendance.value.status)
                 == CheckInStatus(EffectiveCheckIn(req.checkInTime, clock), ScheduleOf(schedules, rows[id].scheduleId),
                                  JakartaToday(clock))
              && (r.0.attendance.value.status == Present || r.0.attendance.value.status == Late)
  {
    if v.verified {
      var s := Summary(v, stamps.now);
      var stamped := req.(face := Str(codec.dumps(s)));
      assert ProcessJsonField(stamped.face, codec) == s;
      var url := ImageUrl(id, stamps.compact, photo.extension);
      var cs := CheckInSpec(rows, id, stamped, Some(url), schedules, clock, codec);
      if cs.0.Done? {
        var a := rows[id];
        var t := EffectiveCheckIn(stamped.checkInTime, clock);
        var status := CheckInStatus(t, ScheduleOf(schedules, a.scheduleId), JakartaToday(clock));
        assert cs.0.value == ApplyCheckIn(a, stamped, Some(url), t, status.value, codec);
      }
    }
  }

  /** The service call, as a method on the table it writes. */
  method VerifiedCheckIn<Img>(table: AttendanceTable, id: int, req: CheckIn, photo: Upload, nim: string,
                              modelError: Option<string>, vision: Vision<Img>,
                              schedules: map<int, Schedule>, clock: Clock, codec: JsonCodec,
                              stamps: Stamps, checkInError: string) returns (r: Reply)
    requires table.Valid()
    modifies table
    ensures table.Valid() && table.nextId == old(table.nextId)
    ensures (r, table.rows) == VerifiedCheckInSpec(old(table.rows), id, req, photo, nim, modelError, vision,
                                                   schedules, clock, codec, stamps, checkInError)
  {
    if modelError.Some? {
      return Reply(false, "Error during check-in: " + modelError.value, None, Brief(modelError.value));
    }
    var v := VerifyFace(Bytes(photo.content), nim, vision);
    assert VerifiedCheckInSpec(old(table.rows), id, req, photo, nim, modelError, vision, schedules, clock, codec, stamps, checkInError)
        == AfterVerdict(old(table.rows), id, req, v, photo, schedules, clock, codec, stamps, checkInError);
    if !v.verified {
      return Reply(false, "Face verification failed: " + v.message, None, Full(v));
    }
    var stamped := req.(face := Str(codec.dumps(Summary(v, stamps.now))));
    var url := ImageUrl(id, stamps.compact, photo.extension);
    var outcome := table.StudentCheckIn(id, stamped, Some(url), schedules, clock, codec);
    match outcome
    case Failed => r := Reply(false, "Error during check-in: " + checkInError, None, Brief(checkInError));
    case Missing => r := Reply(true, "Check-in successful", None, Full(v));
    case Done(a) => r := Reply(true, "Check-in successful", Some(a), Full(v));
  }
}
