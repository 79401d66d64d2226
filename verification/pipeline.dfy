/**
  What a node produces and the string-protocol coordinator consumes: the
  report format and the topic name round-trip through the coordinator's
  parser, which is what lets reports from different nodes meet in one round.
*/
module Pipeline {
  import opened Wrappers
  import opened Text
  import opened OrderedBuffer
  import opened Fusion
  import opened Node
  import NodeB
  import opened MasterNew

  /** A formatted coordinate that cannot be confused with a separator. */
  predicate CleanField(t: string)
  {
    '/' !in t && ',' !in t
  }

  /** The coordinator's parser recovers exactly the fields a node formatted,
      provided none of them contains a `/` and no coordinate contains a `,`;
      the coordinates are then whatever `float()` makes of the formatted text. */
  lemma ReportRoundTrip(nodeUuid: string, session: string, fmt: real -> string, pos: Vec3,
                        parseFloat: string -> Option<real>)
    requires '/' !in nodeUuid && '/' !in session
    requires CleanField(fmt(pos.x)) && CleanField(fmt(pos.y)) && CleanField(fmt(pos.z))
    ensures var d := Decode(WireReport(nodeUuid, session, fmt, pos), parseFloat);
      var px, py, pz := parseFloat(fmt(pos.x)), parseFloat(fmt(pos.y)), parseFloat(fmt(pos.z));
      && !d.Ignored?
      && (d.Report? <==> px.Some? && py.Some? && pz.Some?)
      && (d.Report? ==> d.sample == Sample(nodeUuid, session, Vec3(px.value, py.value, pz.value)))
  {
    var coords := [fmt(pos.x), fmt(pos.y), fmt(pos.z)];
    var xyz := Join(coords, ',');
    SplitJoin(coords, ',');
    assert '/' !in xyz by {
      JoinThree(fmt(pos.x), fmt(pos.y), fmt(pos.z), ',');
    }
    var parts := [nodeUuid, session, xyz];
    SplitJoin(parts, '/');
  }

  /** A report published by a node decodes to that node's uuid and the session
      id of the same tick. */
  lemma TickRoundTrip(st: NodeState, fmt: real -> string, pos: Vec3, parseFloat: string -> Option<real>)
    requires ValidSession(st.session)
    requires IsUuidText(st.nodeUuid)
    requires CleanField(fmt(pos.x)) && CleanField(fmt(pos.y)) && CleanField(fmt(pos.z))
    requires parseFloat(fmt(pos.x)).Some? && parseFloat(fmt(pos.y)).Some? && parseFloat(fmt(pos.z)).Some?
    ensures var (st', msg) := Tick(st, fmt, pos).value;
      var d := Decode(msg, parseFloat);
      d.Report? && d.sample.uuid == st.nodeUuid && d.sample.session == st'.session
  {
    UuidHasNoSlash(st.nodeUuid);
    var s := NextSession(st.session).value;
    assert '/' !in s by {
      assert forall i :: 0 <= i < |s| ==> Numerals.IsDecDigit(s[i]);
    }
    ReportRoundTrip(st.nodeUuid, s, fmt, pos, parseFloat);
  }

  lemma UuidHasNoSlash(u: string)
    requires IsUuidText(u)
    ensures '/' !in u
  {
    forall i | 0 <= i < |u| ensures u[i] != '/' {
    }
  }

  /** The coordinator files a report from `home/nodes/<name>` under `<name>`
      exactly when the name contains no `/`. */
  lemma DataTopicKey(nodeName: string)
    ensures TopicKey(DataTopic(nodeName)) == nodeName <==> '/' !in nodeName
  {
    assert DataTopic(nodeName) == "home/nodes" + ['/'] + nodeName;
    LastSegmentAfterSeparator("home/nodes", nodeName, '/');
  }

  /** A node named after its host, or after a uuid4 string when the host name
      is unavailable, is filed under that name, provided the host name has no
      `/`. */
  lemma NodeNameIsKey(hostname: Option<string>, fallbackUuid: string)
    requires hostname.Some? ==> '/' !in hostname.value
    requires IsUuidText(fallbackUuid)
    ensures TopicKey(DataTopic(NodeName(hostname, fallbackUuid))) == NodeName(hostname, fallbackUuid)
  {
    UuidHasNoSlash(fallbackUuid);
    DataTopicKey(NodeName(hostname, fallbackUuid));
  }

  /** Every `node_a` instance is filed under the key `node_a`. */
  lemma NodeBKey()
    ensures TopicKey(DataTopic(NodeB.NodeName)) == "node_a"
  {
    DataTopicKey(NodeB.NodeName);
  }

  /** Two `node_a` instances overwrite each other: when the first report does
      not complete a round, the pair has exactly the effect of the second
      report alone, so the two count once towards the quorum. */
  lemma NodeBInstancesCollapse(b: Buffer<string, Sample>, p1: string, p2: string,
                               parseFloat: string -> Option<real>, round2: real -> real)
    requires Decode(p2, parseFloat).Report?
    requires OnMessage(b, DataTopic(NodeB.NodeName), p1, parseFloat, round2).published.None?
    ensures var r1 := OnMessage(b, DataTopic(NodeB.NodeName), p1, parseFloat, round2);
      OnMessage(r1.buffer, DataTopic(NodeB.NodeName), p2, parseFloat, round2)
        == OnMessage(b, DataTopic(NodeB.NodeName), p2, parseFloat, round2)
  {
    NodeBKey();
    var key := TopicKey(DataTopic(NodeB.NodeName));
    if Decode(p1, parseFloat).Report? {
      UpsertTwice(b, key, Decode(p1, parseFloat).sample, Decode(p2, parseFloat).sample);
    }
  }

  /** `fmt` and `parseFloat` agree on `v`: the formatted text is a clean field
      that parses back to `v`. */
  predicate RoundTrips(fmt: real -> string, parseFloat: string -> Option<real>, v: real)
  {
    CleanField(fmt(v)) && parseFloat(fmt(v)) == Some(v)
  }

  /** Three nodes A, B, C report (1,1,1), (2,2,2), (3,3,3) in turn: nothing is
      published until C, then exactly one position (2,2,2) after rounding,
      labelled with A's uuid and session, and the buffer is empty again. */
  lemma EndToEnd(uA: string, sA: string, uB: string, sB: string, uC: string, sC: string,
                 fmt: real -> string, parseFloat: string -> Option<real>, round2: real -> real)
    requires '/' !in uA && '/' !in sA && '/' !in uB && '/' !in sB && '/' !in uC && '/' !in sC
    requires RoundTrips(fmt, parseFloat, 1.0) && RoundTrips(fmt, parseFloat, 2.0)
    requires RoundTrips(fmt, parseFloat, 3.0)
    ensures var r1 := OnMessage([], DataTopic("A"), WireReport(uA, sA, fmt, Vec3(1.0, 1.0, 1.0)), parseFloat, round2);
      var r2 := OnMessage(r1.buffer, DataTopic("B"), WireReport(uB, sB, fmt, Vec3(2.0, 2.0, 2.0)), parseFloat, round2);
      var r3 := OnMessage(r2.buffer, DataTopic("C"), WireReport(uC, sC, fmt, Vec3(3.0, 3.0, 3.0)), parseFloat, round2);
      && r1.published.None? && r2.published.None?
      && r3.published == Some(Position(uA, sA, Vec3(round2(2.0), round2(2.0), round2(2.0))))
      && r3.buffer == []
  {
    var a, b, c := Vec3(1.0, 1.0, 1.0), Vec3(2.0, 2.0, 2.0), Vec3(3.0, 3.0, 3.0);
    ReportRoundTrip(uA, sA, fmt, a, parseFloat);
    ReportRoundTrip(uB, sB, fmt, b, parseFloat);
    ReportRoundTrip(uC, sC, fmt, c, parseFloat);
    DataTopicKey("A");
    DataTopicKey("B");
    DataTopicKey("C");
    ThreeNodeRound(Sample(uA, sA, a), Sample(uB, sB, b), Sample(uC, sC, c), round2);
  }

  /** The coordinator's side of the three-node round: samples at (1,1,1),
      (2,2,2) and (3,3,3) stored under `A`, `B` and `C` publish once, on the
      third, with `A`'s labels and the rounded mean 2 on every axis. */
  lemma ThreeNodeRound(sa: Sample, sb: Sample, sc: Sample, round2: real -> real)
    requires sa.pos == Vec3(1.0, 1.0, 1.0) && sb.pos == Vec3(2.0, 2.0, 2.0) && sc.pos == Vec3(3.0, 3.0, 3.0)
    ensures var r1 := Accept([], "A", sa, round2);
      var r2 := Accept(r1.buffer, "B", sb, round2);
      var r3 := Accept(r2.buffer, "C", sc, round2);
      && r1.published.None? && r2.published.None?
      && r3.published == Some(Position(sa.uuid, sa.session, Vec3(round2(2.0), round2(2.0), round2(2.0))))
      && r3.buffer == []
  {
    TwoQuietReports(sa, sb, round2);
    ThirdReportFuses(sa, sb, sc, round2);
  }

  /** The first two nodes' reports are stored in arrival order and publish nothing. */
  lemma TwoQuietReports(sa: Sample, sb: Sample, round2: real -> real)
    ensures Accept([], "A", sa, round2) == StepResult([("A", sa)], None)
    ensures Accept([("A", sa)], "B", sb, round2) == StepResult([("A", sa), ("B", sb)], None)
  {
    NewNodeAppends([], "A", sa, round2);
    assert !HasKey([("A", sa)], "B");
    NewNodeAppends([("A", sa)], "B", sb, round2);
    assert [("A", sa)] + [("B", sb)] == [("A", sa), ("B", sb)];
  }

  /** A third node's report completes the round: the record carries the first
      node's labels and the rounded mean 2 on every axis. */
  lemma ThirdReportFuses(sa: Sample, sb: Sample, sc: Sample, round2: real -> real)
    requires sa.pos == Vec3(1.0, 1.0, 1.0) && sb.pos == Vec3(2.0, 2.0, 2.0) && sc.pos == Vec3(3.0, 3.0, 3.0)
    ensures Accept([("A", sa), ("B", sb)], "C", sc, round2) ==
      StepResult([], Some(Position(sa.uuid, sa.session, Vec3(round2(2.0), round2(2.0), round2(2.0)))))
  {
    var b2 := [("A", sa), ("B", sb)];
    assert Inv(b2) && |b2| == Quorum - 1 && !HasKey(b2, "C");
    PublishedRecord(b2, "C", sc, round2);
    assert [sa.pos, sb.pos, sc.pos] == [Vec3(1.0, 1.0, 1.0), Vec3(2.0, 2.0, 2.0), Vec3(3.0, 3.0, 3.0)];
    FuseOneTwoThree(round2);
  }
}
