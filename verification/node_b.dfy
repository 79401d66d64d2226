/**
  The fixed-name node (`rpi_nodeB.py`): the same counter, report format and
  presence logic as the host-named node, under the constant name `node_a`.
*/
module NodeB {
  import opened Wrappers
  import opened Text
  import opened Numerals
  import opened Fusion
  import opened Node

  /** `node_name = "node_a"`. */
  const NodeName: string := "node_a"

  /** Start-up: a uuid4 string for the board and the first eight characters of
      another one as the session id. */
  function Start(nodeUuid: string, sessionUuid: string): (st: NodeState)
    requires IsUuidText(sessionUuid)
    ensures st.nodeUuid == nodeUuid
    ensures |st.session| == SessionWidth && ValidSession(st.session)
  {
    NodeState(nodeUuid, InitialSession(sessionUuid))
  }

  /** A freshly started `node_a` publishes one report per sampled position:
      report `i` carries the board uuid, the session id reached after `i + 1`
      counter steps from the start-up id, and the `i`-th position. */
  lemma StartedNodePublishes(nodeUuid: string, sessionUuid: string, fmt: real -> string, positions: seq<Vec3>)
    requires IsUuidText(sessionUuid)
    ensures var msgs := Loop(Start(nodeUuid, sessionUuid), fmt, positions);
      |msgs| == |positions| &&
      forall i :: 0 <= i < |msgs| ==>
        TickSession(InitialSession(sessionUuid), i).Some? &&
        msgs[i] == WireReport(nodeUuid, TickSession(InitialSession(sessionUuid), i).value, fmt, positions[i])
    ensures TickSession(InitialSession(sessionUuid), 0) ==
      Some(Renumber(Value(InitialSession(sessionUuid), 16)))
  {
    var st := Start(nodeUuid, sessionUuid);
    LoopNeverStops(st, fmt, positions);
    LoopReports(st, fmt, positions);
  }

  /** Presence goes to `home/status/node_a`: "online" exactly on an accepted
      connect, "offline" exactly on an unexpected disconnect. */
  lemma Presence(rc: int)
    ensures OnConnect(NodeName, rc) == if rc == 0 then Some(StatusMessage("home/status/node_a", "online", true)) else None
    ensures OnDisconnect(NodeName, rc) == if rc != 0 then Some(StatusMessage("home/status/node_a", "offline", true)) else None
    ensures LastSegment(StatusTopic(NodeName), '/') == NodeName
  {
    assert '/' !in NodeName by {
      assert forall k | 0 <= k < |NodeName| :: NodeName[k] in "node_a";
    }
    Node.Presence(NodeName, rc);
    assert StatusTopic(NodeName) == "home/status/node_a";
  }
}
