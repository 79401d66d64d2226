/**
  The JSON-protocol coordinator (`rpi_master.py`). Each message carries a JSON
  object `{uuid, session_id, xyz: {x, y, z}}`; the coordinator keys it by its
  `uuid` field, and whenever the buffer holds three or more distinct uuids it
  tries to publish their rounded centroid under a constant id. The buffer is
  cleared only when that calculation succeeds.
*/
module MasterJson {
  import opened Wrappers
  import opened OrderedBuffer
  import opened Fusion
  import opened Json

  /** The literal `3` of the quorum test `len(incoming_data) >= 3`. */
  const Quorum: nat := 3

  /** The constant id stamped on every published position. */
  const OutputUuid: string := "iphone_tracked_device"

  /** A dict key as Python compares it: `true` equals `1` and `false` equals `0`. */
  datatype Key = KNull | KNum(n: real) | KStr(s: string)

  /** The exceptions a message can raise; each is caught and logged. */
  datatype Failure =
    | JsonDecodeError          // json.loads rejected the text
    | KeyError(name: string)   // an object lacks a field
    | TypeError                // indexing a non-object, an unhashable key, or summing a non-number

  /** The record published on `uwb/position`. */
  datatype Position = Position(uuid: string, session: JValue, pos: Vec3)

  datatype StepResult = StepResult(buffer: Buffer<Key, JValue>, published: Option<Position>)

  /** `v[name]` on a decoded value. */
  function Index(v: JValue, name: string): (r: Result<JValue, Failure>)
    ensures r.Ok? <==> v.JObj? && name in v.fields
    ensures r.Ok? ==> r.value == v.fields[name]
    ensures v.JObj? && name !in v.fields ==> r == Err(KeyError(name))
  {
    match v
    case JObj(fields) => if name in fields then Ok(fields[name]) else Err(KeyError(name))
    case _ => Err(TypeError)
  }

  /** The dict key a value becomes: lists and objects are unhashable. */
  function KeyOf(v: JValue): (r: Result<Key, Failure>)
    ensures r.Ok? <==> !v.JArr? && !v.JObj?
    ensures v.JBool? ==> r == Ok(KNum(if v.b then 1.0 else 0.0))
    ensures v.JNum? ==> r == Ok(KNum(v.n))
    ensures v.JStr? ==> r == Ok(KStr(v.s))
  {
    match v
    case JNull => Ok(KNull)
    case JBool(b) => Ok(KNum(if b then 1.0 else 0.0))
    case JNum(n) => Ok(KNum(n))
    case JStr(s) => Ok(KStr(s))
    case _ => Err(TypeError)
  }

  /** Python's `==` between two decoded JSON scalars: `null` equals only
      `null`, strings compare by content, and booleans compare with numbers as
      0 and 1 (`True == 1`, `1 == 1.0`). */
  predicate PyEq(a: JValue, b: JValue)
  {
    match (a, b)
    case (JNull, JNull) => true
    case (JStr(s), JStr(t)) => s == t
    case (JNum(m), JNum(n)) => m == n
    case (JBool(p), JBool(q)) => p == q
    case (JBool(p), JNum(n)) => n == (if p then 1.0 else 0.0)
    case (JNum(n), JBool(p)) => n == (if p then 1.0 else 0.0)
    case _ => false
  }

  /** Two hashable values become the same dict key exactly when Python
      considers them equal. */
  lemma KeyOfMatchesPyEq(a: JValue, b: JValue)
    requires KeyOf(a).Ok? && KeyOf(b).Ok?
    ensures KeyOf(a) == KeyOf(b) <==> PyEq(a, b)
  {
  }

  /** `data['uuid']`, used as the buffer key. */
  function ReadUuid(data: JValue): (r: Result<Key, Failure>)
    ensures r.Ok? <==> data.JObj? && "uuid" in data.fields && KeyOf(data.fields["uuid"]).Ok?
    ensures r.Ok? ==> r == KeyOf(data.fields["uuid"])
  {
    match Index(data, "uuid")
    case Err(e) => Err(e)
    case Ok(u) => KeyOf(u)
  }

  /** Two decoded reports with readable uuids share a buffer slot exactly when
      their `uuid` fields are equal under Python's `==`. */
  lemma SameSlotIffPyEq(d1: JValue, d2: JValue)
    requires ReadUuid(d1).Ok? && ReadUuid(d2).Ok?
    ensures ReadUuid(d1) == ReadUuid(d2) <==> PyEq(d1.fields["uuid"], d2.fields["uuid"])
  {
    KeyOfMatchesPyEq(d1.fields["uuid"], d2.fields["uuid"]);
  }

  /** A summand of Python's `sum`: numbers, and booleans as 0 or 1. */
  function Number(v: JValue): (r: Result<real, Failure>)
    ensures r.Ok? <==> v.JNum? || v.JBool?
  {
    match v
    case JNum(n) => Ok(n)
    case JBool(b) => Ok(if b then 1.0 else 0.0)
    case _ => Err(TypeError)
  }

  /** `d['xyz'][axis]` as a number. */
  function Coordinate(d: JValue, axis: string): Result<real, Failure>
  {
    match Index(d, "xyz")
    case Err(e) => Err(e)
    case Ok(xyz) =>
      match Index(xyz, axis)
      case Err(e) => Err(e)
      case Ok(c) => Number(c)
  }

  /** One axis over the whole buffer, in insertion order; the first failure wins. */
  function Axis(b: Buffer<Key, JValue>, axis: string): (r: Result<seq<real>, Failure>)
    ensures r.Ok? <==> forall i :: 0 <= i < |b| ==> Coordinate(b[i].1, axis).Ok?
    ensures r.Ok? ==> |r.value| == |b|
    ensures r.Ok? ==> forall i :: 0 <= i < |b| ==> r.value[i] == Coordinate(b[i].1, axis).value
    decreases |b|
  {
    if |b| == 0 then Ok([])
    else
      match Coordinate(b[0].1, axis)
      case Err(e) => Err(e)
      case Ok(c) =>
        match Axis(b[1..], axis)
        case Err(e) => Err(e)
        case Ok(rest) =>
          assert forall i :: 1 <= i < |b| ==> b[1..][i - 1] == b[i];
          Ok([c] + rest)
  }

  /** A buffer `perform_calculation` can handle: every entry has numeric
      `xyz.x`, `xyz.y`, `xyz.z`, and the first entry has a `session_id`. */
  predicate Computable(b: Buffer<Key, JValue>)
    requires |b| > 0
  {
    && (forall i :: 0 <= i < |b| ==> Coordinate(b[i].1, "x").Ok?)
    && (forall i :: 0 <= i < |b| ==> Coordinate(b[i].1, "y").Ok?)
    && (forall i :: 0 <= i < |b| ==> Coordinate(b[i].1, "z").Ok?)
    && Index(b[0].1, "session_id").Ok?
  }

  /** `perform_calculation`: sum x, then y, then z, then read the first entry's
      `session_id`; publish under the constant id. */
  function Calculate(b: Buffer<Key, JValue>, round2: real -> real): (r: Result<Position, Failure>)
    requires |b| > 0
    ensures r.Ok? <==> Computable(b)
    ensures r.Ok? ==>
      && r.value.uuid == OutputUuid
      && r.value.session == b[0].1.fields["session_id"]
      && r.value.pos.x == round2(Mean(Axis(b, "x").value))
      && r.value.pos.y == round2(Mean(Axis(b, "y").value))
      && r.value.pos.z == round2(Mean(Axis(b, "z").value))
  {
    match Axis(b, "x")
    case Err(e) => Err(e)
    case Ok(xs) =>
      match Axis(b, "y")
      case Err(e) => Err(e)
      case Ok(ys) =>
        match Axis(b, "z")
        case Err(e) => Err(e)
        case Ok(zs) =>
          match Index(b[0].1, "session_id")
          case Err(e) => Err(e)
          case Ok(session) =>
            Ok(Position(OutputUuid, session, Vec3(round2(Mean(xs)), round2(Mean(ys)), round2(Mean(zs)))))
  }

  /** `on_message`: decode, key by `uuid`, store, and when three or more
      entries are present try the calculation; clear only after it succeeds.
      Anything published is the calculation over the stored reports, and
      without a publication the buffer never shrinks and keys stay distinct. */
  function OnMessage(b: Buffer<Key, JValue>, topic: string, payload: string,
                     parseJson: string -> Option<JValue>, round2: real -> real): (r: StepResult)
    ensures parseJson(payload).None? ==> r == StepResult(b, None)
    ensures parseJson(payload).Some? && ReadUuid(parseJson(payload).value).Err? ==> r == StepResult(b, None)
    ensures r.published.Some? ==>
      && r.buffer == []
      && Accepted(payload, parseJson)
      && var data := parseJson(payload).value;
         var stored := Upsert(b, ReadUuid(data).value, data);
         |stored| >= Quorum && Calculate(stored, round2) == Ok(r.published.value)
    ensures r.published.None? ==> |r.buffer| >= |b|
    ensures Distinct(b) ==> Distinct(r.buffer)
  {
    match parseJson(payload)
    case None => StepResult(b, None)
    case Some(data) =>
      match ReadUuid(data)
      case Err(_) => StepResult(b, None)
      case Ok(key) =>
        var stored := Upsert(b, key, data);
        if |stored| >= Quorum then
          match Calculate(stored, round2)
          case Ok(p) => StepResult([], Some(p))
          case Err(_) => StepResult(stored, None)
        else StepResult(stored, None)
  }

  /** A payload that decodes to an object with a hashable `uuid`. */
  predicate Accepted(payload: string, parseJson: string -> Option<JValue>)
  {
    parseJson(payload).Some? && ReadUuid(parseJson(payload).value).Ok?
  }

  /** An accepted report is filed under its own `uuid` field, whatever topic it
      arrived on; fusion is attempted exactly when the buffer then holds at
      least `Quorum` distinct uuids, and succeeds exactly when every stored
      report is computable. Success publishes under the constant id with the
      first entry's `session_id` and empties the buffer; failure keeps every
      stored report. */
  lemma AcceptedReport(b: Buffer<Key, JValue>, topic: string, other: string, payload: string,
                       parseJson: string -> Option<JValue>, round2: real -> real)
    requires Accepted(payload, parseJson)
    ensures var data := parseJson(payload).value;
      var key := ReadUuid(data).value;
      var stored := Upsert(b, key, data);
      var r := OnMessage(b, topic, payload, parseJson, round2);
      && r == OnMessage(b, other, payload, parseJson, round2)
      && (r.published.Some? <==> |stored| >= Quorum && Computable(stored))
      && (r.published.Some? ==>
            && r.buffer == []
            && r.published.value.uuid == OutputUuid
            && r.published.value.session == stored[0].1.fields["session_id"]
            && Calculate(stored, round2) == Ok(r.published.value)
            && stored[0].1 == (if |b| > 0 && b[0].0 != key then b[0].1 else data))
      && (r.published.None? ==> r.buffer == stored && Get(r.buffer, key) == Some(data))
  {
  }

  /** A repeated uuid replaces its report in place and does not grow the buffer. */
  lemma RepeatedUuidDoesNotGrow(b: Buffer<Key, JValue>, topic: string, payload: string,
                                parseJson: string -> Option<JValue>, round2: real -> real)
    requires Accepted(payload, parseJson)
    requires HasKey(b, ReadUuid(parseJson(payload).value).value)
    ensures var r := OnMessage(b, topic, payload, parseJson, round2);
      r.published.Some? || |r.buffer| == |b|
  {
  }

  /** The state between two messages: a dict that, if it has reached the
      quorum, holds a report the calculation cannot handle. */
  predicate Inv(b: Buffer<Key, JValue>)
  {
    Distinct(b) && (|b| >= Quorum ==> !Computable(b))
  }

  lemma OnMessagePreservesInv(b: Buffer<Key, JValue>, topic: string, payload: string,
                              parseJson: string -> Option<JValue>, round2: real -> real)
    requires Inv(b)
    ensures Inv(OnMessage(b, topic, payload, parseJson, round2).buffer)
  {
  }

  /** A stored report without a readable `xyz.x` blocks every fusion until a
      report with the same uuid replaces it; meanwhile the buffer keeps it and
      never shrinks. */
  lemma BadReportBlocksFusion(b: Buffer<Key, JValue>, i: nat, topic: string, payload: string,
                              parseJson: string -> Option<JValue>, round2: real -> real)
    requires Distinct(b) && i < |b|
    requires Coordinate(b[i].1, "x").Err?
    requires !Accepted(payload, parseJson) || ReadUuid(parseJson(payload).value).value != b[i].0
    ensures var r := OnMessage(b, topic, payload, parseJson, round2);
      && r.published.None?
      && |r.buffer| >= |b|
      && Get(r.buffer, b[i].0) == Some(b[i].1)
  {
    GetAt(b, i);
    if Accepted(payload, parseJson) {
      var data := parseJson(payload).value;
      var stored := Upsert(b, ReadUuid(data).value, data);
      assert stored[i] == b[i];
    }
  }
}
