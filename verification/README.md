# UWB-MQTT coordinator model

A Dafny model of the position-fusion core of the UWB-MQTT system. Sensor nodes
publish ranging reports over MQTT. A master (the coordinator) collects the most
recent report of each node in an insertion-ordered buffer. As soon as it holds
three distinct nodes, it publishes their rounded centroid and starts a new round.

There are two coordinator programs. Both are modelled as pure step functions
`(buffer, topic, payload) -> (buffer', published record or nothing)`:

- `rpi_masternew.py` (module `MasterNew`) parses the delimited string
  `uuid/session/x,y,z`. It keys each report by the last segment of its topic.
  It always clears the buffer after fusing.
- `rpi_master.py` (module `MasterJson`) takes a decoded JSON object and keys it by
  its `uuid` field. It stamps the output with the constant id
  `iphone_tracked_device`. It clears the buffer only after the calculation succeeds.

On the node side (`rpi_nodenew.py`, `rpi_nodeB.py`; modules `Node`, `NodeB`), the
model covers four things:

- the session-counter step `str(int(id, 16) + 1)[-8:]`;
- the report format;
- the publish topic;
- the online/offline presence decision.

Module `Pipeline` connects the nodes to `MasterNew`. It proves that a node's
report and topic name survive the coordinator's parser. It also proves the
three-node end-to-end round.

Supporting modules:

- `Text`: Python's `str.split` on one character, its inverse join, and `split(c)[-1]`.
- `Numerals`: hex parsing, decimal rendering and `s[-k:]`.
- `OrderedBuffer`: a Python dict as an association list that keeps keys in
  first-insertion order. Overwriting a key keeps its position.
- `Fusion`: sum, mean and centroid over reals.
- `Json`: decoded JSON values.
- `Wrappers`: `Option` and `Result`.

Float parsing (`float()`), `:.2f` formatting, `round(_, 2)` and `json.loads` are
not modelled. They are function-valued parameters (`parseFloat`, `fmt`, `round2`,
`parseJson`), and coordinates are reals.

Behaviour of the programs that shapes the model:

- In `rpi_master.py` the buffer is cleared only after `perform_calculation`
  returns. When it raises, every stored report stays, so each later accepted
  report re-attempts the calculation over the whole buffer.
- In `rpi_masternew.py` the coordinate field is accepted only when it splits on
  `,` into exactly three parts that `float()` reads.
- In `rpi_masternew.py` a payload whose `/`-split does not have exactly three
  parts is dropped silently. No error is logged on that path.
- The quorum is the literal `3` in both coordinators (`Quorum`).

## Model

| member | source | states |
|---|---|---|
| MasterNew.TopicKey | rpi_masternew.py:73 | The node name is the longest `/`-free tail of the topic: all of it, or the part after its last `/`. |
| MasterNew.ParseCoords | rpi_masternew.py:82 | The coordinate text is accepted iff it splits on `,` into exactly three fields that `float()` all accepts, and every other shape is the `ValueError` path. An accepted text is exactly its three comma-free fields joined by `,`, and the result is their parsed values in order. |
| MasterNew.Decode | rpi_masternew.py:76-89 | A payload is dropped silently iff its `/`-split does not have exactly 3 parts. Otherwise it is malformed exactly when the coordinates do not parse. A decoded report's payload is exactly `uuid/session/coords` with no `/` in uuid or session, and the position is what the coordinate parser makes of `coords`. |
| MasterNew.Calculate | rpi_masternew.py:20-48 | The published record takes uuid and session from the first entry in insertion order. Its position is the rounded centroid of every buffered sample. When all buffered samples share one position, the record carries that position, rounded. |
| Fusion.Fuse | rpi_masternew.py:32-43 | Each output coordinate is `round(_, 2)` of the mean of that axis over all buffered positions. Positions that all coincide fuse to that point, rounded. |
| Fusion.Centroid | rpi_masternew.py:32-34 | The unrounded average lies, on each axis, between the smallest and the largest buffered value. Positions that all coincide average to that point. |
| Fusion.MeanOfEqual | rpi_master.py:37-39 | When all buffered values on an axis are equal, their average is that value. |
| Fusion.MeanOneTwoThree | rpi_masternew.py:32 | The averaging of x values 1, 2, 3 gives 2. |
| OrderedBuffer.Upsert | rpi_masternew.py:91 | `d[k] = v`: the size grows by one iff `k` is new, and distinct keys stay distinct. Afterwards `k` maps to `v` and every other key keeps its value. Existing keys keep their positions, and a new key goes last. |
| OrderedBuffer.KeySetUpsert | rpi_masternew.py:91 | After `d[k] = v` the keys are the old keys plus `k`. |
| OrderedBuffer.UpsertTwice | rpi_masternew.py:91 | Two writes to the same key leave exactly the dict the second write alone would leave. |
| MasterNew.Accept | rpi_masternew.py:91-106 | After storing a decoded sample, a record is published iff the buffer then holds at least 3 distinct nodes. Publishing computes over the upserted buffer and leaves the buffer empty; otherwise the buffer is the upserted one. |
| MasterNew.OnMessage | rpi_masternew.py:66-111 | A dropped or malformed payload leaves the buffer unchanged and publishes nothing. A decoded report is stored under the topic's last segment: after a publication the buffer is empty, and otherwise that key holds the new sample. Between messages the buffer keeps distinct keys and at most 2 entries. |
| MasterNew.FusionIffNewThirdNode | rpi_masternew.py:95-106 | Fusion fires exactly when a decodable report arrives from a node not yet buffered while two others are. The buffer is then empty. |
| MasterNew.RepeatNodeOverwrites | rpi_masternew.py:91-95 | A report from a buffered node overwrites it in place: same size, same key order, nothing published, the new sample stored. |
| MasterNew.PublishedRecord | rpi_masternew.py:38-43 | When a new third node reports, the buffer is cleared and one record is published. It carries the first-inserted node's uuid and session. Its position is the rounded mean of the two buffered samples and the new one. |
| MasterNew.QuietRunState | rpi_masternew.py:91 | Until the first publication from an empty start, the buffer holds exactly the nodes that reported, each with its most recent sample (last write wins). Its first entry belongs to the first node that reported. |
| MasterNew.QuietRun | rpi_masternew.py:91-95 | From an empty start, nothing is published iff fewer than 3 distinct nodes have reported. |
| MasterNew.RunAppend | rpi_masternew.py:91-106 | Processing two message sequences one after the other leaves the same buffer as processing their concatenation. |
| MasterNew.LatestSinceClear | rpi_masternew.py:91-106 | Once a run has emptied the buffer, and no round completes afterwards, the buffer holds exactly the nodes that reported since, each with its most recent sample. Its first entry belongs to the first node that reported since the clear. |
| MasterNew.FirstPublicationLabels | rpi_masternew.py:38-39 | The first record published from an empty start is the only one so far, and it empties the buffer. It carries the uuid and session of the latest sample of the first node that reported. |
| MasterNew.AcceptPublishesOnThird | rpi_masternew.py:91-95 | Between messages, storing a sample publishes exactly when it comes from a new node while 2 others are buffered. |
| MasterNew.NewNodeAppends | rpi_masternew.py:91-95 | A sample from a new node, while fewer than 2 nodes are buffered, is appended behind them and publishes nothing. |
| MasterNew.SingleNodeNeverFuses | rpi_masternew.py:91-95 | Any number of reports from one node never trigger fusion and leave at most one entry. |
| MasterJson.KeyOf | rpi_master.py:84 | A uuid value can be a dict key iff it is not a list or an object; those are unhashable and raise `TypeError`. |
| MasterJson.KeyOfMatchesPyEq | rpi_master.py:84 | Two hashable values become the same dict key exactly when Python's `==` holds between them (`true == 1`, `false == 0`, `1 == 1.0`, `null` equals only `null`). |
| MasterJson.ReadUuid | rpi_master.py:81 | `data['uuid']` succeeds iff the data is an object with a hashable `uuid` field. |
| MasterJson.SameSlotIffPyEq | rpi_master.py:81-84 | Two readable reports share a buffer slot exactly when their `uuid` fields are equal under Python's `==`. |
| MasterJson.Axis | rpi_master.py:37-39 | One axis over the buffer succeeds iff every entry has a numeric `xyz.<axis>`, and it yields those numbers in insertion order. |
| MasterJson.Calculate | rpi_master.py:21-54 | The calculation succeeds iff every entry has numeric x, y, z and the first entry has a `session_id`. It then yields the constant uuid, that `session_id` and per-axis rounded means. |
| MasterJson.OnMessage | rpi_master.py:72-105 | Malformed JSON, or a missing or unusable `uuid`, leaves the buffer unchanged and publishes nothing. A publication empties the buffer and is the successful calculation over the stored reports, which number at least 3. Without a publication the buffer never shrinks, and keys stay distinct. |
| MasterJson.AcceptedReport | rpi_master.py:81-100 | An accepted report is filed under its uuid, whatever its topic. A record is published iff the buffer then holds at least 3 uuids and is computable. Publishing empties the buffer and publishes the calculation over the stored reports: the constant uuid and the first entry's session. Failure keeps every stored report. |
| MasterJson.RepeatedUuidDoesNotGrow | rpi_master.py:84-89 | A repeated uuid never grows the buffer. |
| MasterJson.OnMessagePreservesInv | rpi_master.py:89-100 | Keys stay distinct, and a buffer at or above the quorum always holds a report the calculation cannot handle. |
| MasterJson.BadReportBlocksFusion | rpi_master.py:93-105 | A stored report without a readable `xyz.x` blocks every fusion until its uuid reports again. Meanwhile the buffer keeps it and never shrinks. |
| Node.InitialSession | rpi_nodenew.py:24 | The first session id is the first 8 characters of a uuid4 string, all hex digits. |
| Node.NextSession | rpi_nodenew.py:42 | The counter step succeeds iff the current id is non-empty hex text. On success the new id is `Node.Renumber` of the old id's hex value, has at most 8 characters and is again a valid id. |
| Node.Renumber | rpi_nodenew.py:42 | The id after a hex value `v` has 1 to 8 decimal digits, so it is again readable as hex. |
| Node.RenumberValue | rpi_nodenew.py:42 | The id after a hex value `v` denotes (v + 1) mod 10^8. |
| Node.KeepLastDigits | rpi_nodenew.py:42 | Keeping the last k >= 1 characters of a decimal rendering leaves 1 to k decimal digits. They denote the number mod 10^k. |
| Node.WireReport | rpi_nodenew.py:49 | The report is the three formatted coordinates joined by `,`, then uuid, session and those coordinates joined by `/`. |
| Node.Tick | rpi_nodenew.py:30-51 | A tick succeeds iff the session id is valid. It then advances the id and formats `uuid/session/x,y,z` with the new id, and that id is valid for the next tick. |
| Node.Loop | rpi_nodenew.py:94-108 | The loop never publishes more reports than sampled positions. It publishes nothing when the start id is unreadable; otherwise its first report is the first tick's. |
| Node.LoopReports | rpi_nodenew.py:94-103 | Report `i` of the publishing loop carries the node uuid, the id reached after `i + 1` counter steps, and the `i`-th sampled position. |
| Node.LoopStopsWhereTickFails | rpi_nodenew.py:94-108 | When the loop publishes fewer reports than sampled positions, the counter step after its last report raises. |
| Node.LoopNeverStops | rpi_nodenew.py:94-103 | From any valid session id, the loop publishes one report per position and never hits the exception path. |
| Node.FreshNodeRuns | rpi_nodenew.py:23-24 | A node started from a uuid4 session prefix publishes every tick. |
| Node.OnConnect | rpi_nodenew.py:54-63 | "online" is published, retained, on `home/status/<name>` iff the connect result is 0. |
| Node.OnDisconnect | rpi_nodenew.py:65-72 | "offline" is published, retained, on `home/status/<name>` iff the disconnect result is not 0. |
| Node.Presence | rpi_nodenew.py:54-72 | "online" (retained) is sent iff connect `rc == 0`, and "offline" (retained) iff disconnect `rc != 0`. Both go to `home/status/<name>`, whose last segment is the node name iff the name has no `/`. |
| NodeB.Start | rpi_nodeB.py:18-19 | A `node_a` instance starts with an 8-character hex session id. |
| NodeB.StartedNodePublishes | rpi_nodeB.py:89-94 | A freshly started `node_a` publishes one report per sampled position. Report `i` carries the board uuid, the id reached after `i + 1` counter steps from the start-up id, and the `i`-th position. The first step is `Node.Renumber` of the start-up id's hex value. |
| NodeB.Presence | rpi_nodeB.py:49-67 | Presence goes to `home/status/node_a`: "online" iff `rc == 0` on connect, "offline" iff `rc != 0` on disconnect. |
| Pipeline.ReportRoundTrip | rpi_nodenew.py:49 | If uuid and session contain no `/` and the formatted coordinates contain no `/` or `,`, the coordinator's parser never drops the report. It recovers exactly uuid and session, and the coordinates are what `float()` makes of the formatted text. |
| Pipeline.TickRoundTrip | rpi_nodeB.py:37-44 | A report from one tick of a node with a uuid4 id decodes to that uuid and that tick's session id. |
| Pipeline.DataTopicKey | rpi_nodenew.py:92 | A report on `home/nodes/<name>` is filed under `<name>` iff the name has no `/`. |
| Pipeline.NodeNameIsKey | rpi_nodenew.py:16-21 | A node named after its host, when the host name has no `/`, or after a fallback uuid4 string, is filed under that name. |
| Pipeline.NodeBKey | rpi_nodeB.py:87 | Every `node_a` instance is filed under the key `node_a`. |
| Pipeline.NodeBInstancesCollapse | rpi_nodeB.py:16 | Two `node_a` instances overwrite each other. When the first message does not complete a round and the second decodes, the pair acts exactly like the second report alone. |
| Pipeline.EndToEnd | rpi_masternew.py:66-106 | Nodes A, B, C report (1,1,1), (2,2,2), (3,3,3). Nothing is published until C. Then exactly one record with position round(2) on every axis and A's uuid and session is published, and the buffer is empty. |

## Left out

- MQTT transport is not modelled: client setup, connect, subscribe, publish,
  `loop_forever`/`loop_start`, the last-will registration (`will_set`) and retained
  delivery are foreign I/O. Delivered topics are assumed to match the subscription.
- The `while True` / `time.sleep(3)` timing is not modelled, and neither is any
  interleaving between nodes. The broker client runs the message callback on one
  thread, so one `OnMessage` call is one atomic step.
- Time-based coordinate generation (`time.time() % …`) is left out. The loop takes
  the sampled positions as an input sequence.
- `float()`, `:.2f`, `round(_, 2)` and IEEE arithmetic are parameters or reals.
  There is no NaN and no infinity, and sums are exact.
- `json.loads` is a parameter. `json.dumps` of the output record and an
  `OverflowError` from averaging huge JSON integers are not modelled.
- `uuid.uuid4()` and `socket.gethostname()` are inputs.
- UTF-8 decoding of the payload (`msg.payload.decode()`) is not modelled. Payloads
  are taken as text; a decode failure would be caught and leave the buffer
  unchanged, like any other rejected payload.
- Node.NextSession: reads only plain hex digit text, while Python's `int(_, 16)`
  also accepts a sign, a `0x` prefix, underscores and surrounding whitespace.
  Those forms never arise, because every reachable id is a uuid prefix or decimal
  digits (`Node.Renumber`, `Node.InitialSession`).
- Numerals.Suffix: models `s[-k:]` only for `k >= 1`. Python's `s[-0:]` is all of `s`, but the counter only ever keeps the last 8 characters.
- MasterJson.KeyOf: a JSON NaN key is not modelled (reals have no NaN).
- Which exception `perform_calculation` in `rpi_master.py` raises is modelled
  (`MasterJson.Failure`), but it is only logged, so no property depends on it.
- `print` logging is not modelled.
- `rpi_node.py` and `laptop_client.py` are not part of this model. The first only
  builds a dict from random and time-based values for `json.dumps`; the second only
  decodes and prints.
- The masters' `on_connect` (subscribe when `rc == 0`) is transport set-up and is
  not modelled.
