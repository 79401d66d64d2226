/**
  The string-protocol coordinator (`rpi_masternew.py`). Each message on
  `home/nodes/<name>` carries `uuid/session/x,y,z`; the coordinator keys the
  sample by `<name>`, and as soon as three distinct names are buffered it
  publishes their rounded centroid and clears the buffer.

  One call of `OnMessage` is one run of the MQTT callback; the broker client
  delivers messages one at a time, so a call is atomic.
*/
module MasterNew {
  import opened Wrappers
  import opened Text
  import opened OrderedBuffer
  import opened Fusion

  /** The literal `3` of the quorum test `len(incoming_data) >= 3`. */
  const Quorum: nat := 3

  /** One decoded report. */
  datatype Sample = Sample(uuid: string, session: string, pos: Vec3)

  /** The record published on `home/position`. */
  datatype Position = Position(uuid: string, session: string, pos: Vec3)

  /** What the parser makes of one payload. `Ignored` is the silent drop of a
      payload without exactly three `/`-separated parts; `Malformed` is the
      `ValueError` raised while reading the coordinates. */
  datatype Decoded = Ignored | Malformed | Report(sample: Sample)

  /** The buffer after a message, and what (if anything) was published. */
  datatype StepResult = StepResult(buffer: Buffer<string, Sample>, published: Option<Position>)

  /** `msg.topic.split("/")[-1]`: the node name a message is filed under, the
      longest `/`-free tail of the topic. */
  function TopicKey(topic: string): (key: string)
    ensures '/' !in key
    ensures |key| <= |topic| && key == topic[|topic| - |key|..]
    ensures |key| < |topic| ==> topic[|topic| - |key| - 1] == '/'
  {
    LastSegmentIsSuffix(topic, '/');
    LastSegment(topic, '/')
  }

  /** `x, y, z = map(float, text.split(','))`: exactly three comma-separated
      fields, each accepted by `float()`; anything else raises `ValueError`.
      Accepted text is precisely three comma-free fields joined by commas. */
  function ParseCoords(text: string, parseFloat: string -> Option<real>): (r: Option<Vec3>)
    ensures r.Some? <==>
      |Split(text, ',')| == 3 && forall i :: 0 <= i < 3 ==> parseFloat(Split(text, ',')[i]).Some?
    ensures r.Some? ==>
      var f := Split(text, ',');
      && text == f[0] + "," + f[1] + "," + f[2]
      && ',' !in f[0] && ',' !in f[1] && ',' !in f[2]
      && r.value == Vec3(parseFloat(f[0]).value, parseFloat(f[1]).value, parseFloat(f[2]).value)
  {
    var f := Split(text, ',');
    if |f| == 3 && parseFloat(f[0]).Some? && parseFloat(f[1]).Some? && parseFloat(f[2]).Some? then
      JoinSplit(text, ',');
      assert f == [f[0], f[1], f[2]];
      JoinThree(f[0], f[1], f[2], ',');
      Some(Vec3(parseFloat(f[0]).value, parseFloat(f[1]).value, parseFloat(f[2]).value))
    else
      None
  }

  /** Parse one payload: `uuid/session/x,y,z`. A report's uuid and session
      are slash-free and, with the coordinate text, spell the payload back. */
  function Decode(payload: string, parseFloat: string -> Option<real>): (d: Decoded)
    ensures d.Ignored? <==> |Split(payload, '/')| != 3
    ensures d.Report? ==>
      var parts := Split(payload, '/');
      && d.sample.uuid == parts[0] && d.sample.session == parts[1]
      && Some(d.sample.pos) == ParseCoords(parts[2], parseFloat)
      && payload == d.sample.uuid + "/" + d.sample.session + "/" + parts[2]
      && '/' !in d.sample.uuid && '/' !in d.sample.session
    ensures d.Malformed? ==> ParseCoords(Split(payload, '/')[2], parseFloat).None?
  {
    var parts := Split(payload, '/');
    if |parts| != 3 then Ignored
    else
      JoinSplit(payload, '/');
      assert parts == [parts[0], parts[1], parts[2]];
      JoinThree(parts[0], parts[1], parts[2], '/');
      match ParseCoords(parts[2], parseFloat)
      case None => Malformed
      case Some(pos) => Report(Sample(parts[0], parts[1], pos))
  }

  function Positions(b: Buffer<string, Sample>): (ps: seq<Vec3>)
    ensures |ps| == |b| && forall i :: 0 <= i < |b| ==> ps[i] == b[i].1.pos
  {
    seq(|b|, i requires 0 <= i < |b| => b[i].1.pos)
  }

  /** `perform_calculation`: the rounded centroid of every buffered sample,
      labelled with the uuid and session of the first entry in insertion order;
      when every node reports the same point, that point, rounded. */
  function Calculate(b: Buffer<string, Sample>, round2: real -> real): (p: Position)
    requires |b| > 0
    ensures p.uuid == b[0].1.uuid && p.session == b[0].1.session
    ensures p.pos == Fuse(Positions(b), round2)
    ensures (forall i :: 0 <= i < |b| ==> b[i].1.pos == b[0].1.pos) ==> p.pos == RoundEach(b[0].1.pos, round2)
  {
    assert (forall i :: 0 <= i < |b| ==> b[i].1.pos == b[0].1.pos) ==> AllSame(Positions(b));
    Position(b[0].1.uuid, b[0].1.session, Fuse(Positions(b), round2))
  }

  /** Store a decoded sample under `key`, then fuse and clear once the quorum is met. */
  function Accept(b: Buffer<string, Sample>, key: string, s: Sample, round2: real -> real): (r: StepResult)
    ensures r.published.Some? <==> |b| + (if HasKey(b, key) then 0 else 1) >= Quorum
    ensures r.published.Some? ==> r.buffer == [] && r.published.value == Calculate(Upsert(b, key, s), round2)
    ensures r.published.None? ==> r.buffer == Upsert(b, key, s)
  {
    var stored := Upsert(b, key, s);
    if |stored| >= Quorum then StepResult([], Some(Calculate(stored, round2)))
    else StepResult(stored, None)
  }

  /** `on_message`: decode, then store / fuse; a dropped or malformed payload
      leaves the buffer untouched and publishes nothing. A publication always
      leaves the buffer empty; otherwise a decoded report is now stored under
      its topic's last segment. Every message keeps the between-messages
      invariant, so the buffer never holds more than two entries. */
  function OnMessage(b: Buffer<string, Sample>, topic: string, payload: string,
                     parseFloat: string -> Option<real>, round2: real -> real): (r: StepResult)
    ensures !Decode(payload, parseFloat).Report? ==> r == StepResult(b, None)
    ensures Decode(payload, parseFloat).Report? ==>
      r == Accept(b, TopicKey(topic), Decode(payload, parseFloat).sample, round2)
    ensures r.published.Some? ==> r.buffer == []
    ensures Decode(payload, parseFloat).Report? && r.published.None? ==>
      Get(r.buffer, TopicKey(topic)) == Some(Decode(payload, parseFloat).sample)
    ensures Inv(b) ==> Inv(r.buffer)
  {
    match Decode(payload, parseFloat)
    case Report(s) => Accept(b, TopicKey(topic), s, round2)
    case _ => StepResult(b, None)
  }

  /** The state between two messages: a dict with fewer than `Quorum` entries. */
  predicate Inv(b: Buffer<string, Sample>)
  {
    Distinct(b) && |b| < Quorum
  }

  /** Fusion fires exactly when a decodable report arrives from a node not yet
      buffered while two other nodes are; it then clears the buffer. */
  lemma FusionIffNewThirdNode(b: Buffer<string, Sample>, topic: string, payload: string,
                              parseFloat: string -> Option<real>, round2: real -> real)
    requires Inv(b)
    ensures var r := OnMessage(b, topic, payload, parseFloat, round2);
      && (r.published.Some? <==>
           Decode(payload, parseFloat).Report? && !HasKey(b, TopicKey(topic)) && |b| == Quorum - 1)
      && (r.published.Some? ==> r.buffer == [])
  {
  }

  /** A report from an already-buffered node overwrites that node's sample in
      place: same size, same order, nothing published. */
  lemma RepeatNodeOverwrites(b: Buffer<string, Sample>, topic: string, payload: string,
                             parseFloat: string -> Option<real>, round2: real -> real)
    requires Inv(b)
    requires HasKey(b, TopicKey(topic))
    requires Decode(payload, parseFloat).Report?
    ensures var r := OnMessage(b, topic, payload, parseFloat, round2);
      && r.published.None?
      && |r.buffer| == |b|
      && (forall i :: 0 <= i < |b| ==> r.buffer[i].0 == b[i].0)
      && Get(r.buffer, TopicKey(topic)) == Some(Decode(payload, parseFloat).sample)
  {
  }

  /** When a third, new node reports — the only way fusion fires, by
      `FusionIffNewThirdNode` — the buffer is cleared and the published record
      names the first-inserted node's uuid and session (that node's latest
      sample); its position is the rounded mean of the two buffered samples and
      the new one. */
  lemma PublishedRecord(b: Buffer<string, Sample>, key: string, s: Sample, round2: real -> real)
    requires Inv(b) && |b| == Quorum - 1 && !HasKey(b, key)
    ensures var r := Accept(b, key, s, round2);
      && r.buffer == []
      && r.published == Some(Position(b[0].1.uuid, b[0].1.session,
                                      Fuse([b[0].1.pos, b[1].1.pos, s.pos], round2)))
  {
    var r := Accept(b, key, s, round2);
    var stored := Upsert(b, key, s);
    assert r.published.value == Calculate(stored, round2);
    var ps := Positions(stored);
    assert ps[0] == b[0].1.pos && ps[1] == b[1].1.pos && ps[2] == s.pos;
    assert ps == [b[0].1.pos, b[1].1.pos, s.pos];
  }

  /** A sequence of decoded reports `(node name, sample)` fed to the coordinator
      in order: the final buffer and every record published on the way. */
  datatype Trace = Trace(buffer: Buffer<string, Sample>, published: seq<Position>)

  function Run(b: Buffer<string, Sample>, msgs: seq<(string, Sample)>, round2: real -> real): (t: Trace)
    decreases |msgs|
  {
    if |msgs| == 0 then Trace(b, [])
    else
      var t := Run(b, msgs[..|msgs| - 1], round2);
      var r := Accept(t.buffer, msgs[|msgs| - 1].0, msgs[|msgs| - 1].1, round2);
      Trace(r.buffer, t.published + if r.published.Some? then [r.published.value] else [])
  }

  /** The node names that occur in a sequence of reports. */
  function Names(msgs: seq<(string, Sample)>): set<string>
  {
    set i | 0 <= i < |msgs| :: msgs[i].0
  }

  /** Reference for last-write-wins: the most recent sample reported under `key`. */
  function Latest(msgs: seq<(string, Sample)>, key: string): Option<Sample>
    decreases |msgs|
  {
    if |msgs| == 0 then None
    else if msgs[|msgs| - 1].0 == key then Some(msgs[|msgs| - 1].1)
    else Latest(msgs[..|msgs| - 1], key)
  }

  lemma NamesSnoc(msgs: seq<(string, Sample)>)
    requires |msgs| > 0
    ensures Names(msgs) == Names(msgs[..|msgs| - 1]) + {msgs[|msgs| - 1].0}
  {
    var pre := msgs[..|msgs| - 1];
    forall n | n in Names(msgs) ensures n in Names(pre) + {msgs[|msgs| - 1].0} {
      var i :| 0 <= i < |msgs| && msgs[i].0 == n;
      if i < |msgs| - 1 { assert pre[i] == msgs[i]; }
    }
    forall n | n in Names(pre) ensures n in Names(msgs) {
      var i :| 0 <= i < |pre| && pre[i].0 == n;
      assert msgs[i] == pre[i];
    }
  }

  /** A quiet run's last report was stored without publishing, after a quiet prefix. */
  lemma QuietStep(msgs: seq<(string, Sample)>, round2: real -> real)
    requires |msgs| > 0
    requires Run([], msgs, round2).published == []
    ensures var pre := msgs[..|msgs| - 1];
      && Run([], pre, round2).published == []
      && Run([], msgs, round2).buffer == Upsert(Run([], pre, round2).buffer, msgs[|msgs| - 1].0, msgs[|msgs| - 1].1)
  {
    var pre := msgs[..|msgs| - 1];
    var t := Run([], pre, round2);
    var r := Accept(t.buffer, msgs[|msgs| - 1].0, msgs[|msgs| - 1].1, round2);
    assert r.published.None?;
  }

  /** Until the first publication, the buffer built from an empty start holds,
      for each node that reported, its most recent sample and nothing else, and
      its first entry belongs to the first node that reported. */
  lemma {:induction false} QuietRunState(msgs: seq<(string, Sample)>, round2: real -> real)
    requires Run([], msgs, round2).published == []
    ensures var buf := Run([], msgs, round2).buffer;
      && Distinct(buf)
      && KeySet(buf) == Names(msgs)
      && |buf| == |Names(msgs)|
      && (forall k :: Get(buf, k) == Latest(msgs, k))
      && (|msgs| > 0 ==> |buf| > 0 && buf[0].0 == msgs[0].0)
    decreases |msgs|
  {
    var buf := Run([], msgs, round2).buffer;
    if |msgs| > 0 {
      var pre := msgs[..|msgs| - 1];
      var (k, v) := msgs[|msgs| - 1];
      QuietStep(msgs, round2);
      var prev := Run([], pre, round2).buffer;
      QuietRunState(pre, round2);
      assert buf == Upsert(prev, k, v);
      NamesSnoc(msgs);
      KeySetUpsert(prev, k, v);
      DistinctSize(buf);
      forall k' ensures Get(buf, k') == Latest(msgs, k') {
        if k' != k { assert Latest(msgs, k') == Latest(pre, k'); }
      }
    }
    QuietRunLeader(msgs, round2);
  }

  /** Until the first publication, the first node to report leads the buffer:
      later reports overwrite in place or append behind it. */
  lemma {:induction false} QuietRunLeader(msgs: seq<(string, Sample)>, round2: real -> real)
    requires Run([], msgs, round2).published == []
    ensures var buf := Run([], msgs, round2).buffer;
      |msgs| > 0 ==> |buf| > 0 && buf[0].0 == msgs[0].0
    decreases |msgs|
  {
    if |msgs| > 0 {
      var pre := msgs[..|msgs| - 1];
      QuietStep(msgs, round2);
      if |pre| > 0 {
        QuietRunLeader(pre, round2);
        assert pre[0] == msgs[0];
      }
    }
  }

  /** Starting from an empty buffer, nothing is published exactly while fewer
      than `Quorum` distinct nodes have reported. */
  lemma {:induction false} QuietRun(msgs: seq<(string, Sample)>, round2: real -> real)
    ensures Run([], msgs, round2).published == [] <==> |Names(msgs)| < Quorum
    decreases |msgs|
  {
    if |msgs| > 0 {
      var pre := msgs[..|msgs| - 1];
      var (k, v) := msgs[|msgs| - 1];
      var t := Run([], pre, round2);
      QuietRun(pre, round2);
      NamesSnoc(msgs);
      var r := Accept(t.buffer, k, v, round2);
      assert Run([], msgs, round2).published ==
        t.published + if r.published.Some? then [r.published.value] else [];
      if t.published == [] {
        QuietRunState(pre, round2);
        CountAfterSnoc(msgs, t.buffer);
      } else {
        SubsetSize(Names(pre), Names(msgs));
      }
    }
  }

  /** One more report adds its node to the names seen iff the buffer lacked it. */
  lemma CountAfterSnoc(msgs: seq<(string, Sample)>, buf: Buffer<string, Sample>)
    requires |msgs| > 0
    requires KeySet(buf) == Names(msgs[..|msgs| - 1])
    requires |buf| == |Names(msgs[..|msgs| - 1])|
    ensures |Names(msgs)| == |buf| + if HasKey(buf, msgs[|msgs| - 1].0) then 0 else 1
  {
    NamesSnoc(msgs);
    var k := msgs[|msgs| - 1].0;
    if HasKey(buf, k) {
      assert Names(msgs) == Names(msgs[..|msgs| - 1]);
    }
  }

  lemma SubsetSize(a: set<string>, b: set<string>)
    requires a <= b
    ensures |a| <= |b|
  {
    assert b == a + (b - a);
  }

  /** One more report: the buffer after it is what `Accept` makes of the buffer before it. */
  lemma RunBufferSnoc(b: Buffer<string, Sample>, msgs: seq<(string, Sample)>, round2: real -> real)
    requires |msgs| > 0
    ensures Run(b, msgs, round2).buffer ==
      Accept(Run(b, msgs[..|msgs| - 1], round2).buffer, msgs[|msgs| - 1].0, msgs[|msgs| - 1].1, round2).buffer
  {
  }

  /** Feeding `m1` and then `m2` leaves the buffer that feeding `m2` to the
      buffer left by `m1` leaves: the coordinator's only memory is its buffer. */
  lemma {:induction false} RunAppend(b: Buffer<string, Sample>, m1: seq<(string, Sample)>,
                                     m2: seq<(string, Sample)>, round2: real -> real)
    ensures Run(b, m1 + m2, round2).buffer == Run(Run(b, m1, round2).buffer, m2, round2).buffer
    decreases |m2|
  {
    if |m2| == 0 {
      assert m1 + m2 == m1;
    } else {
      var m := m1 + m2;
      var pre := m2[..|m2| - 1];
      assert m[..|m| - 1] == m1 + pre;
      assert m[|m| - 1] == m2[|m2| - 1];
      RunAppend(b, m1, pre, round2);
      RunBufferSnoc(b, m, round2);
      RunBufferSnoc(Run(b, m1, round2).buffer, m2, round2);
    }
  }

  /** Last write wins in every round: once the buffer has been cleared, until
      the next publication it holds exactly the nodes that reported since, each
      with its most recent sample, led by the first of them to report. */
  lemma LatestSinceClear(b: Buffer<string, Sample>, m1: seq<(string, Sample)>,
                         m2: seq<(string, Sample)>, round2: real -> real)
    requires Run(b, m1, round2).buffer == []
    requires Run([], m2, round2).published == []
    ensures var buf := Run(b, m1 + m2, round2).buffer;
      && KeySet(buf) == Names(m2)
      && (forall k :: Get(buf, k) == Latest(m2, k))
      && (|m2| > 0 ==> |buf| > 0 && buf[0].0 == m2[0].0)
  {
    RunAppend(b, m1, m2, round2);
    QuietRunState(m2, round2);
  }

  /** The first record published from an empty start is labelled with the
      uuid and session of the latest sample of the first node that reported;
      it is the only record so far, and the buffer is empty again. */
  lemma FirstPublicationLabels(pre: seq<(string, Sample)>, k: string, v: Sample, round2: real -> real)
    requires Run([], pre, round2).published == []
    requires Run([], pre + [(k, v)], round2).published != []
    ensures |pre| > 0 && Latest(pre, pre[0].0).Some?
    ensures var out := Run([], pre + [(k, v)], round2);
      && out.buffer == []
      && |out.published| == 1
      && out.published[0].uuid == Latest(pre, pre[0].0).value.uuid
      && out.published[0].session == Latest(pre, pre[0].0).value.session
  {
    var prev := Run([], pre, round2).buffer;
    RunSnoc([], pre, k, v, round2);
    QuietBound(pre, round2);
    PublishingReport(prev, k, v, round2);
    QuietLeaderSample(pre, round2);
  }

  /** One more report: the trace after it extends the trace before it by what
      `Accept` does with the buffer. */
  lemma RunSnoc(b: Buffer<string, Sample>, pre: seq<(string, Sample)>, k: string, v: Sample, round2: real -> real)
    ensures var t := Run(b, pre, round2);
      var r := Accept(t.buffer, k, v, round2);
      Run(b, pre + [(k, v)], round2) ==
        Trace(r.buffer, t.published + if r.published.Some? then [r.published.value] else [])
  {
    assert (pre + [(k, v)])[..|pre|] == pre;
  }

  /** Between messages, a report that publishes comes from a new node while
      `Quorum - 1` others are buffered, and the record carries the labels of
      the first buffered entry. */
  lemma PublishingReport(b: Buffer<string, Sample>, key: string, s: Sample, round2: real -> real)
    requires Inv(b)
    requires Accept(b, key, s, round2).published.Some?
    ensures |b| == Quorum - 1 && !HasKey(b, key)
    ensures var r := Accept(b, key, s, round2);
      && r.buffer == []
      && r.published.value.uuid == b[0].1.uuid
      && r.published.value.session == b[0].1.session
  {
    AcceptPublishesOnThird(b, key, s, round2);
    PublishedRecord(b, key, s, round2);
  }

  /** A sample from a node not yet buffered, while the quorum is still out of
      reach, is appended behind the buffered ones and publishes nothing. */
  lemma NewNodeAppends(b: Buffer<string, Sample>, key: string, s: Sample, round2: real -> real)
    requires !HasKey(b, key) && |b| + 1 < Quorum
    ensures Accept(b, key, s, round2) == StepResult(b + [(key, s)], None)
  {
  }

  /** Between messages, storing a sample publishes exactly when it comes from
      a new node while `Quorum - 1` others are buffered. */
  lemma AcceptPublishesOnThird(b: Buffer<string, Sample>, key: string, s: Sample, round2: real -> real)
    requires Inv(b)
    ensures Accept(b, key, s, round2).published.Some? <==> |b| == Quorum - 1 && !HasKey(b, key)
  {
  }

  /** A quiet run from an empty start leaves at most `Quorum - 1` distinct entries. */
  lemma QuietBound(msgs: seq<(string, Sample)>, round2: real -> real)
    requires Run([], msgs, round2).published == []
    ensures Inv(Run([], msgs, round2).buffer)
  {
    QuietRunState(msgs, round2);
    QuietRun(msgs, round2);
  }

  /** The leading entry of a quiet run's buffer is the latest sample of the
      first node that reported. */
  lemma QuietLeaderSample(msgs: seq<(string, Sample)>, round2: real -> real)
    requires |msgs| > 0 && Run([], msgs, round2).published == []
    ensures var buf := Run([], msgs, round2).buffer;
      |buf| > 0 && buf[0].0 == msgs[0].0 && Latest(msgs, msgs[0].0) == Some(buf[0].1)
  {
    var buf := Run([], msgs, round2).buffer;
    QuietRunState(msgs, round2);
    GetAt(buf, 0);
  }

  /** Any number of reports from a single node never reaches the quorum. */
  lemma SingleNodeNeverFuses(msgs: seq<(string, Sample)>, key: string, round2: real -> real)
    requires forall i :: 0 <= i < |msgs| ==> msgs[i].0 == key
    ensures Run([], msgs, round2).published == []
    ensures |Run([], msgs, round2).buffer| <= 1
  {
    assert Names(msgs) <= {key};
    SubsetSize(Names(msgs), {key});
    QuietRun(msgs, round2);
    QuietRunState(msgs, round2);
  }
}
