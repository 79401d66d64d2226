/**
  A sensor node (`rpi_nodenew.py`; `rpi_nodeB.py` differs only in its fixed
  name). Every tick it advances its session id, formats one report
  `uuid/session/x,y,z` and publishes it on `home/nodes/<name>`; it publishes its
  presence on `home/status/<name>`.

  Python's `:.2f` formatting is the parameter `fmt`; the host name and the
  uuid4 strings are inputs.
*/
module Node {
  import opened Wrappers
  import opened Numerals
  import opened Fusion
  import opened Text

  /** The session id keeps at most this many trailing characters (`[-8:]`). */
  const SessionWidth: nat := 8

  /** `f"home/nodes/{node_name}"`: where a node publishes its reports. */
  function DataTopic(nodeName: string): string
  {
    "home/nodes/" + nodeName
  }

  /** `f"home/status/{node_name}"`: where a node publishes its presence. */
  function StatusTopic(nodeName: string): string
  {
    "home/status/" + nodeName
  }

  /** `str(uuid.uuid4())`: 36 characters, lower-case hex digits in groups
      8-4-4-4-12 separated by dashes. */
  predicate IsUuidText(s: string)
  {
    && |s| == 36
    && forall i :: 0 <= i < 36 ==>
         if i == 8 || i == 13 || i == 18 || i == 23 then s[i] == '-'
         else IsHexDigit(s[i]) && !('A' <= s[i] <= 'F')
  }

  /** The node name: the host name, or a fresh uuid string when the host name
      cannot be read (`socket.error`). */
  function NodeName(hostname: Option<string>, fallbackUuid: string): string
  {
    match hostname
    case Some(h) => h
    case None => fallbackUuid
  }

  /** `str(uuid.uuid4())[:8]`: the first session id. */
  function InitialSession(uuidText: string): (s: string)
    requires IsUuidText(uuidText)
    ensures |s| == SessionWidth && AllDigits(s, 16)
    ensures forall i :: 0 <= i < |s| ==> s[i] == uuidText[i]
  {
    uuidText[..SessionWidth]
  }

  /** A session id the counter step can read: non-empty hex text. */
  predicate ValidSession(s: string)
  {
    |s| > 0 && AllDigits(s, 16)
  }

  /** `str(int(session_id, 16) + 1)[-8:]`: read the old id as hex, add one,
      render in decimal and keep the last eight characters. `None` is the
      `ValueError` of an unreadable id. */
  function NextSession(current: string): (r: Option<string>)
    ensures r.Some? <==> ValidSession(current)
    ensures r.Some? ==> r.value == Renumber(Value(current, 16))
    ensures r.Some? ==> |r.value| <= SessionWidth && ValidSession(r.value)
  {
    match ParseHex(current)
    case None => None
    case Some(v) => Some(Renumber(v))
  }

  /** `str(v + 1)[-8:]`: the id that follows an id whose hex value is `v`:
      1 to 8 decimal digits, so again a valid id. */
  function Renumber(v: nat): (s: string)
    ensures 1 <= |s| <= SessionWidth && AllDigits(s, 10)
    ensures ValidSession(s)
  {
    KeepLastDigits(Decimal(v + 1), SessionWidth);
    Suffix(Decimal(v + 1), SessionWidth)
  }

  /** The id that follows hex value `v` denotes `v + 1` modulo 10^8. */
  lemma RenumberValue(v: nat)
    ensures Value(Renumber(v), 10) == (v + 1) % Pow(10, SessionWidth)
  {
    KeepLastDigits(Decimal(v + 1), SessionWidth);
  }

  /** Keeping the last `k >= 1` characters of a decimal rendering leaves 1 to
      `k` decimal digits denoting the number modulo 10^k, which read as hex too. */
  lemma KeepLastDigits(d: string, k: nat)
    requires k >= 1 && |d| >= 1 && AllDigits(d, 10)
    ensures var s := Suffix(d, k);
      && 1 <= |s| <= k
      && AllDigits(s, 10)
      && Value(s, 10) == Value(d, 10) % Pow(10, k)
      && ValidSession(s)
  {
    SuffixValue(d, k, 10);
  }

  /** The node's mutable globals: its uuid and its current session id. */
  datatype NodeState = NodeState(nodeUuid: string, session: string)

  /** `f"{node_uuid}/{session_id}/{x:.2f},{y:.2f},{z:.2f}"`: the three
      formatted coordinates joined by `,`, then uuid, session and coordinates
      joined by `/`. */
  function WireReport(nodeUuid: string, session: string, fmt: real -> string, pos: Vec3): (r: string)
    ensures r == Join([nodeUuid, session, Join([fmt(pos.x), fmt(pos.y), fmt(pos.z)], ',')], '/')
  {
    JoinThree(fmt(pos.x), fmt(pos.y), fmt(pos.z), ',');
    JoinThree(nodeUuid, session, Join([fmt(pos.x), fmt(pos.y), fmt(pos.z)], ','), '/');
    nodeUuid + "/" + session + "/" + fmt(pos.x) + "," + fmt(pos.y) + "," + fmt(pos.z)
  }

  /** `get_uwb_data`: advance the session id, then format the report with it.
      `None` is the exception that ends the publishing loop. A tick that
      succeeds leaves an id of at most eight characters that the next tick
      can read again, so once a tick succeeds every later one does. */
  function Tick(st: NodeState, fmt: real -> string, pos: Vec3): (r: Option<(NodeState, string)>)
    ensures r.Some? <==> ValidSession(st.session)
    ensures r.Some? ==>
      && r.value.0 == NodeState(st.nodeUuid, NextSession(st.session).value)
      && r.value.1 == WireReport(st.nodeUuid, r.value.0.session, fmt, pos)
    ensures r.Some? ==> |r.value.0.session| <= SessionWidth && ValidSession(r.value.0.session)
  {
    match NextSession(st.session)
    case None => None
    case Some(s) => Some((NodeState(st.nodeUuid, s), WireReport(st.nodeUuid, s, fmt, pos)))
  }

  /** The `while True` publishing loop over a sequence of sampled positions:
      the reports it publishes, in order, until a tick raises. An unreadable
      start id publishes nothing; otherwise the first report is the first
      tick's. */
  function Loop(st: NodeState, fmt: real -> string, positions: seq<Vec3>): (msgs: seq<string>)
    ensures |msgs| <= |positions|
    ensures !ValidSession(st.session) ==> msgs == []
    ensures ValidSession(st.session) && |positions| > 0 ==>
      |msgs| > 0 && msgs[0] == Tick(st, fmt, positions[0]).value.1
    decreases |positions|
  {
    if |positions| == 0 then []
    else
      match Tick(st, fmt, positions[0])
      case None => []
      case Some((st', m)) => [m] + Loop(st', fmt, positions[1..])
  }

  /** The session id that tick `i` (counting from 0) reports, for a node whose
      id starts as `s`; `None` once a counter step raises. */
  function TickSession(s: string, i: nat): Option<string>
    decreases i
  {
    match NextSession(s)
    case None => None
    case Some(t) => if i == 0 then Some(t) else TickSession(t, i - 1)
  }

  /** One successful tick: the loop publishes its report, then carries on from the advanced state. */
  lemma LoopStep(st: NodeState, fmt: real -> string, positions: seq<Vec3>)
    requires |positions| > 0 && ValidSession(st.session)
    ensures var t := NextSession(st.session).value;
      Loop(st, fmt, positions) ==
        [WireReport(st.nodeUuid, t, fmt, positions[0])] + Loop(NodeState(st.nodeUuid, t), fmt, positions[1..])
  {
  }

  /** Report `i` of the loop carries the node's uuid, the id tick `i` reports
      and the `i`-th sampled position, in that format. */
  lemma {:induction false} LoopReports(st: NodeState, fmt: real -> string, positions: seq<Vec3>)
    ensures var msgs := Loop(st, fmt, positions);
      forall i :: 0 <= i < |msgs| ==>
        && TickSession(st.session, i).Some?
        && msgs[i] == WireReport(st.nodeUuid, TickSession(st.session, i).value, fmt, positions[i])
    decreases |positions|
  {
    if |positions| > 0 && ValidSession(st.session) {
      var t := NextSession(st.session).value;
      var st' := NodeState(st.nodeUuid, t);
      LoopReports(st', fmt, positions[1..]);
      LoopStep(st, fmt, positions);
      var msgs := Loop(st, fmt, positions);
      var rest := Loop(st', fmt, positions[1..]);
      assert msgs[1..] == rest;
      forall i | 0 <= i < |msgs|
        ensures TickSession(st.session, i).Some?
        ensures msgs[i] == WireReport(st.nodeUuid, TickSession(st.session, i).value, fmt, positions[i])
      {
        if i > 0 {
          assert TickSession(st.session, i) == TickSession(t, i - 1);
          ShiftIndex(msgs, rest, positions, i);
        }
      }
    }
  }

  /** Index `i > 0` of `[x] + rest` is index `i - 1` of `rest`, and likewise
      for the positions after the first one. */
  lemma ShiftIndex<T, U>(msgs: seq<T>, rest: seq<T>, positions: seq<U>, i: nat)
    requires |msgs| == |rest| + 1 && msgs[1..] == rest
    requires 0 < i < |msgs| && |msgs| <= |positions|
    ensures msgs[i] == rest[i - 1] && positions[1..][i - 1] == positions[i]
  {
    assert msgs[1..][i - 1] == msgs[i];
  }

  /** The loop stops before the positions run out exactly where a counter step raises. */
  lemma {:induction false} LoopStopsWhereTickFails(st: NodeState, fmt: real -> string, positions: seq<Vec3>)
    ensures var n := |Loop(st, fmt, positions)|;
      n < |positions| ==> TickSession(st.session, n).None?
    decreases |positions|
  {
    if |positions| > 0 && ValidSession(st.session) {
      var t := NextSession(st.session).value;
      var st' := NodeState(st.nodeUuid, t);
      LoopStopsWhereTickFails(st', fmt, positions[1..]);
      LoopStep(st, fmt, positions);
      var rest := Loop(st', fmt, positions[1..]);
      assert TickSession(st.session, |rest| + 1) == TickSession(t, |rest|);
    }
  }

  /** A node whose session id is readable hex never stops early: every tick's
      hex parse succeeds, so it publishes one report per sampled position. */
  lemma {:induction false} LoopNeverStops(st: NodeState, fmt: real -> string, positions: seq<Vec3>)
    requires ValidSession(st.session)
    ensures |Loop(st, fmt, positions)| == |positions|
    decreases |positions|
  {
    if |positions| > 0 {
      var st' := NodeState(st.nodeUuid, NextSession(st.session).value);
      LoopNeverStops(st', fmt, positions[1..]);
    }
  }

  /** The first tick after start-up succeeds: the initial id is hex. */
  lemma FreshNodeRuns(nodeUuid: string, sessionUuid: string, fmt: real -> string, positions: seq<Vec3>)
    requires IsUuidText(sessionUuid)
    ensures |Loop(NodeState(nodeUuid, InitialSession(sessionUuid)), fmt, positions)| == |positions|
  {
    LoopNeverStops(NodeState(nodeUuid, InitialSession(sessionUuid)), fmt, positions);
  }

  /** A retained presence message. */
  datatype StatusMessage = StatusMessage(topic: string, payload: string, retain: bool)

  /** `on_connect`: announce "online" only when the broker accepted (`rc == 0`). */
  function OnConnect(nodeName: string, rc: int): (r: Option<StatusMessage>)
    ensures r.Some? <==> rc == 0
    ensures r.Some? ==> r.value.payload == "online" && r.value.retain && r.value.topic == StatusTopic(nodeName)
  {
    if rc == 0 then Some(StatusMessage(StatusTopic(nodeName), "online", true)) else None
  }

  /** `on_disconnect`: announce "offline" only for an unexpected disconnect (`rc != 0`). */
  function OnDisconnect(nodeName: string, rc: int): (r: Option<StatusMessage>)
    ensures r.Some? <==> rc != 0
    ensures r.Some? ==> r.value.payload == "offline" && r.value.retain && r.value.topic == StatusTopic(nodeName)
  {
    if rc != 0 then Some(StatusMessage(StatusTopic(nodeName), "offline", true)) else None
  }

  /** "online" is retained on the node's status topic exactly when the connect
      succeeded, "offline" exactly when the disconnect was unexpected; that
      topic ends in the node's name exactly when the name has no `/`. */
  lemma Presence(nodeName: string, rc: int)
    ensures OnConnect(nodeName, rc).Some? <==> rc == 0
    ensures OnDisconnect(nodeName, rc).Some? <==> rc != 0
    ensures OnConnect(nodeName, rc).Some? ==>
      OnConnect(nodeName, rc).value == StatusMessage(StatusTopic(nodeName), "online", true)
    ensures OnDisconnect(nodeName, rc).Some? ==>
      OnDisconnect(nodeName, rc).value == StatusMessage(StatusTopic(nodeName), "offline", true)
    ensures LastSegment(StatusTopic(nodeName), '/') == nodeName <==> '/' !in nodeName
  {
    assert StatusTopic(nodeName) == "home/status" + ['/'] + nodeName;
    LastSegmentAfterSeparator("home/status", nodeName, '/');
  }
}
