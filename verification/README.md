# IGNIS, verified

IGNIS watches a room for fire and smoke. An edge device looks at frames, keeps a little state about
what it has seen, and streams packets to a laptop; the laptop shows the picture, asks the occupant for
an answer, and may place a demonstration call. This project is a Dafny model of the logic in between,
with proofs of what that logic is for.

The modules follow the program's structure.

* **The wire.** `Bytes`, `Crc32`, `Protocol` and `Streams` give the packet format, the checksum and one
  recursive decoder of whole byte streams. `CppParser` and `PyParser` are the two incremental parsers,
  which keep different state between chunks: the C++ one leaves the header in its buffer, the Python one
  has taken it out. `Handshake` is a third, blocking reader. `Sessions` runs the parsers over chunked
  streams and finds the exact buffer bound; `Delivery` adds the encoder and the receiver's sequence gate;
  `EdgeStream` is the sender, with connections that break and are made again; `FramePayload` is the
  payload of a frame packet. `Folds` holds what is generic about iterating a step over a list.
* **Geometry.** `Geometry` is the Sutherland-Hodgman clip of an arbitrary vertex list against a box,
  the shoelace area, and the choice of a zone. `OverlapBound` says how large an overlap ratio can get.
* **Edge state machines.** `Incident` gives the incident engine as a function on states,
  `IncidentEngine` the object whose calls compute that function, and `IncidentRuns` what holds over every
  sequence of its calls. `FireVerifier` is the smaller gate of the proof of concept.
* **Bounded buffers.** `FrameRing`, `EvidenceBuffer`, and `SlidingBudget` with its two users `RateLimit`
  and `Watchdog`. `Nms` is detector decoding and non-maximum suppression.
* **The laptop.** `Database` has the tables and transactions, `CallPolicy` the step system of device
  updates, timers, answers, call requests and provider results, `Backend` the objects that take those
  steps, and `CallRuns` what holds over every interleaving, with `CallBudget` and `Cancellation` for when
  the call budget and a cancellation hold. `DeviceRegistry` does the same for device connections.

Where the program updates an object, the model is a class whose methods are proved to compute a function
of the old state; the theorems are then about that function over whole runs. Where two activities
interleave, each stretch of code between two suspension points (or each memory access of the frame ring)
is one step of a transition system, and the theorems quantify over every sequence of steps.

Conventions. Floating-point numbers are exact reals. 64-bit times are naturals, and their differences
wrap as in C++ (`Clock.Elapsed`). A CRC register is its 32 bits, least significant first; integers on the
wire are naturals below a power of 256. An incident's text id, a device and a boot followed by a counter,
is that counter, with 0 for none. What the program configures is a parameter: thresholds, window sizes,
durations, budgets. What it writes as a number is a constant: the watchdog's restart budget, the sender's
pause before it connects again, the second and the guard of the engine's rules.
The checksum of the Python side, `zlib.crc32`, is taken to be the CRC-32 of section 8 of RFC 1952; its
usual table-driven form is proved equal to the bitwise loop of the C++ side. Times of stored calls are
integers, in the order in which the ISO timestamps of the tables sort.

Results that are worth knowing about the program:

* The receiver's buffer bound is exact: one byte more than it allows and some cutting of a legal stream
  overflows; the two parsers have different bounds for every payload size above 0.
* An edge that crosses the clip line almost along it is guarded against division; the area that the
  guard moves is given exactly, and is at most its tolerance for each vertex.
* A zone that overlaps itself can cover a box several times: the overlap ratio is at most a quarter for
  each vertex of the clipped polygon, and every box has zones that attain this.
* A reader of the frame ring can see a torn frame, on a ring of any size, when it is overtaken by a whole
  lap, and also when it starts before the first write is published and that write begins before it is done;
  it cannot otherwise.
* The call budget can be overrun when a provider's late answer revives an attempt that a callback reported
  as failed; it holds in exactly the runs where that does not happen, and in all runs exactly when the
  provider is the mock, or no callback secret is configured, or no call can be placed at all. Here the code
  does less than line 47 of the repository's README.md promises.
* A cancellation is final in every continuation exactly when no request about the incident is still with
  the provider, and no callback can come, for want of a call or of a callback secret. The cancel itself
  interrupts the request of the incident's timeout task, and no other.
* An acknowledgement that any exception interrupts leaves its dead connection in the registry, exactly until
  the next accepted HELLO.
* Some cases of poc/tests/test_core.py assume shorter clear and reset times than the defaults of
  poc/pi/ignis_poc/core.py; the model follows the code and leaves both as parameters.

## Model

| member | source | states |
|---|---|---|
| Bytes.ReadOfWrite | backend/app/protocol.py:68-77 | a number that fits its width is read back from the bytes that hold it, wherever they stand |
| Bytes.WriteOfRead | backend/app/protocol.py:101-103 | bytes are the only ones that hold the number read from them |
| CppParser.WriteBigEndian | qnx/common/src/protocol.cpp:11-24 | the shifting loop stores exactly the big-endian bytes of the value and touches no others |
| CppParser.ReadBigEndian | qnx/common/src/protocol.cpp:26-40 | the accumulating loop yields the number that the bytes hold |
| Crc32.ComputeCrc | qnx/common/src/protocol.cpp:67-77 | the nested loops over bytes and bits compute the checksum as a fold of one linear, injective shift |
| Crc32.ShiftEight | qnx/common/src/protocol.cpp:71-74 | the masked shift, eight times, is eight steps of the polynomial register |
| Crc32.TableRunAgrees | backend/app/protocol.py:67 | the table-driven form of the checksum equals the bitwise one on every input |
| Crc32.BurstOf32BitsDetected | qnx/common/src/protocol.cpp:67-77 | two equally long payloads that differ only inside some 32 consecutive bits, at any offset, have different checksums |
| Crc32.BurstOfFourBytesDetected | qnx/common/src/protocol.cpp:67-77 | the same for any four consecutive bytes |
| Crc32.CrcDetectsBurst | qnx/common/src/protocol.cpp:121-123 | the 32-bit values that the parser compares differ for every such pair |
| CppParser.WriteHeader | qnx/common/src/protocol.cpp:81-91 | the writes fill the first 32 bytes with the header and leave the rest |
| CppParser.SerializePacket | qnx/common/src/protocol.cpp:79-94 | the buffer is exactly the encoding that every decoder below inverts |
| Protocol.HeaderRoundTrip | qnx/common/src/protocol.cpp:101-117 | every header is read back field by field, and refused exactly when its length exceeds the limit |
| Protocol.HeaderIsCanonical | backend/app/protocol.py:99-114 | an accepted header is the only byte string that encodes its fields |
| Protocol.FrontOfEncoded | backend/app/protocol.py:58-77 | an encoded packet followed by anything is read as that packet, of that size |
| Protocol.EncodedIsCanonical | backend/app/protocol.py:115-123 | a packet that is read is encoded by exactly the bytes it was read from |
| Protocol.PrefixNeedsMore | qnx/common/src/protocol.cpp:101-112 | no proper prefix of an encoded packet is ever refused or taken for a packet |
| Protocol.FrontIsStable | qnx/common/src/protocol.cpp:101-126 | more bytes never change a verdict on the front of a stream |
| Streams.WireIsLawful | qnx/common/src/protocol.cpp:79-128 | the program's format has the five laws from which the stream theorems follow |
| Streams.StreamRoundTrip | backend/app/protocol.py:90-124 | a list of encoded packets followed by any tail decodes to the list followed by what the tail decodes to |
| Streams.DecodeIsInverse | backend/app/protocol.py:90-124 | decoding yields packets and a rest exactly when the stream is their encoding followed by an incomplete rest |
| Streams.CorruptionRejected | qnx/common/src/protocol.cpp:121-123 | a payload changed only inside four consecutive bytes, anywhere in a stream, is refused with a CRC fault after all earlier packets |
| CppParser.PacketParser.Feed | qnx/common/src/protocol.cpp:96-128 | a feed returns what the whole-stream decoder finds in old and new bytes together and keeps exactly its rest; it overflows exactly past the limit |
| CppParser.PacketParser.Front | qnx/common/src/protocol.cpp:102-124 | one pass of the loop reads the front of the buffer as the stream decoder does, with the same fault in the same order |
| PyParser.PacketParser.Feed | backend/app/protocol.py:90-124 | the header-consuming parser refines the same decoder; its buffer and expected header together stand for the undecoded bytes |
| PyParser.PacketParser.TakeHeader | backend/app/protocol.py:99-114 | taking the header out of the buffer loses nothing of the undecoded stream |
| PyParser.PacketParser.TakePayload | backend/app/protocol.py:115-123 | taking the payload out completes or refuses the packet that the decoder sees |
| Sessions.RunCpp | qnx/common/src/protocol.cpp:96-128 | the C++ parser fed chunk by chunk runs the session of its buffering style |
| Sessions.RunPy | backend/app/protocol.py:90-124 | the Python parser fed chunk by chunk runs the session of its own style |
| Sessions.ChunkingIndependent | backend/app/protocol.py:90-124 | however a stream is cut, a session without overflow returns the packets of the whole-stream decoder and keeps its rest, or stops, for the same reason, at the chunk that completes the same malformed packet, with the packets of the chunks before it and the bytes from that packet on |
| Sessions.SessionsAgree | qnx/common/src/protocol.cpp:96-128 | the two parsers, on any two cuttings of the same bytes, agree packet for packet, or stop at the same malformed packet, each with the packets of the chunks before it |
| Sessions.PrefixOfEncoded | backend/app/protocol.py:90-124 | every prefix of an encoded stream decodes without a fault and leaves less than one packet |
| Sessions.NeverStops | backend/app/protocol.py:91-92 | within the bound no feed ever overflows, for any cutting of any prefix of an encoded stream |
| Sessions.PacketsArrive | backend/app/protocol.py:90-124 | within the bound any list of packets arrives as itself, with nothing left over |
| Sessions.CutStreamArrives | backend/app/protocol.py:90-124 | all packets before the one in which a stream breaks off arrive, and the part of that one is kept |
| Sessions.BoundIsExact | qnx/common/src/protocol.cpp:97-98 | whenever the bound fails, some stream of legal packets in chunks of that size does overflow |
| Delivery.EncodePacketReadsBack | backend/app/protocol.py:58-77 | whatever the encoder does not refuse is read back as the arguments of the call |
| Delivery.Connection.HandlePackets | backend/app/tcp_server.py:74-91 | the loop over received packets is the fold of the sequence gate, HELLO first |
| Delivery.DispatchedInOrder | backend/app/tcp_server.py:75-91 | whatever arrives, repeated or reordered, nothing is dispatched twice or out of order |
| Delivery.NothingDropped | backend/app/tcp_server.py:75-91 | a strictly increasing sequence passes an authenticated gate whole |
| Delivery.ProgramPacketsArrive | qnx/common/src/protocol.cpp:79-128 | within the bound, packets arrive as themselves through either parser of the program |
| Delivery.ProgramCutStreamArrives | backend/app/protocol.py:90-124 | and so do all packets before one that a broken connection cut off |
| Delivery.EndToEnd | backend/app/tcp_server.py:74-91 | consecutively numbered items cut into chunks arbitrarily are dispatched exactly once each, in order, right after the HELLO |
| EdgeStream.BackendStream.NextPacket | poc/pi/ignis_poc/edge.py:142-145 | a packet takes the current number and only a successful encoding advances it |
| EdgeStream.BackendStream.SendAll | poc/pi/ignis_poc/edge.py:142-145 | a run of packets is the encoding of the items under consecutive numbers |
| EdgeStream.BackendStream.Connect | poc/pi/ignis_poc/edge.py:112-140 | an attempt to connect, too early, failed, failed during the HELLO, answered by something that is not JSON, or accepted, takes its step |
| EdgeStream.BackendStream.Send | poc/pi/ignis_poc/edge.py:147-159 | a send, with a reconnection before it and a loss of the connection after it, takes its step |
| EdgeStream.AlwaysOrdered | poc/pi/ignis_poc/edge.py:112-159 | through every run of failures and reconnections, what arrives on each connection begins with its HELLO and is numbered upward, and no number is used on two connections |
| EdgeStream.EveryLinkIsDispatched | poc/pi/ignis_poc/edge.py:112-159 | whatever the network does, the receiver dispatches every packet that arrived whole on a connection after its HELLO, once each and in order |
| FramePayload.DecodeFrameIsInverse | backend/app/protocol.py:127-147 | decoding a frame payload yields metadata and image exactly when the payload was made of them and they are well formed |
| Handshake.Socket.ReceiveExact | poc/pi/ignis_poc/protocol.py:48-55 | however the bytes arrive, exactly the asked number is taken, or the stream was shorter |
| Handshake.Socket.ReceiveAck | poc/pi/ignis_poc/protocol.py:58-71 | the blocking reader gives the verdict that the bytes of the stream deserve and leaves what follows the acknowledgement |
| Handshake.AcknowledgementIsAPacket | poc/pi/ignis_poc/protocol.py:58-71 | on every packet at the front of a stream it agrees with the stream decoder, taking only an acknowledgement that accepts, and telling one that is not JSON from one that rejects |
| Handshake.AcknowledgedWasAPacket | poc/pi/ignis_poc/protocol.py:58-71 | what it takes is a packet for every receiver with room for it |
| Geometry.ComputePolygonArea | qnx/common/src/geometry.cpp:18-27 | the wrapping loop computes half the absolute signed shoelace sum, also for fewer than three vertices |
| Geometry.Inside | qnx/common/src/geometry.cpp:44-52 | each edge's test is membership in its half-plane |
| Geometry.Intersection | qnx/common/src/geometry.cpp:54-70 | the intersection is the point of the edge on the half-plane's line, guard included |
| Geometry.ComputeClip | qnx/common/src/geometry.cpp:72-88 | the loop with its carried vertex computes the clip of the cyclic list |
| Geometry.ClipConservesArea | qnx/common/src/geometry.cpp:54-88 | for every vertex list and every line, the signed sums of the two clips add up to that of the list plus exactly the triangles of guarded crossings |
| Geometry.ClipConservesAreaExactly | qnx/common/src/geometry.cpp:54-88 | without guarded crossings nothing is lost |
| Geometry.ClipLosesLittle | qnx/common/src/geometry.cpp:60-65 | in the unit square the guard misplaces at most its tolerance for each vertex |
| Geometry.ClipContained | qnx/common/src/geometry.cpp:72-88 | a clip brings every vertex to its side and moves none out of any other axis-parallel half-plane |
| Geometry.ClipIsIdentity | qnx/common/src/geometry.cpp:72-88 | a clip changes nothing exactly when every vertex was on its side |
| Geometry.ClipSize | qnx/common/src/geometry.cpp:72-88 | a pass returns at most n + n/2 vertices |
| Geometry.ClipBoxContained | qnx/common/src/geometry.cpp:92-98 | after the four passes every vertex lies in the closed box |
| Geometry.ClipBoxIdempotent | qnx/common/src/geometry.cpp:92-98 | the passes change nothing exactly when the polygon was in the box, so clipping again is the identity |
| Geometry.ClipBoxConservesArea | qnx/common/src/geometry.cpp:92-98 | the clipped polygon and the four pieces cut off carry the signed area of the original, up to guarded crossings |
| Geometry.ComputeIntersectionArea | qnx/common/src/geometry.cpp:92-100 | the loop over edges with its early return computes the area of the four-pass clip |
| Geometry.IsValidPolygon | qnx/common/src/geometry.cpp:29-38 | valid exactly when it has three vertices, enough area, and all of them in the unit square |
| Geometry.SelectZone | qnx/common/src/geometry.cpp:103-113 | the scan finds the first zone of greatest positive overlap, or none when that is too small |
| Geometry.BestZoneIsUnique | qnx/common/src/geometry.cpp:102-114 | that answer is unique for given overlaps |
| Geometry.AssociateZone | qnx/common/src/geometry.cpp:102-114 | the answer is the best zone for the overlap ratios, and none for an invalid box |
| OverlapBound.AreaInBox | qnx/common/src/geometry.cpp:18-27 | a polygon inside a box has at most a quarter of its area for each vertex |
| OverlapBound.RatioBounded | qnx/common/src/geometry.cpp:107 | every overlap ratio is at most a quarter of the number of vertices of the clipped polygon |
| OverlapBound.RatioAttainsBound | qnx/common/src/geometry.cpp:107 | a zone that traces any box k times has exactly ratio k, which is a quarter for each of its vertices |
| Incident.FirstCoOccurrenceFound | qnx/common/src/incident.cpp:140-148 | the recorded time is that of the first frame in the window with fire and smoke, 0 exactly when there is none |
| Incident.AreasQualify | qnx/common/src/incident.cpp:160-163 | every region that takes part in the growth estimate has area in (0, 1], at least the minimum |
| Incident.AverageBetween | qnx/common/src/incident.cpp:165 | the 0.35/0.65 average stays between the least and the greatest area |
| Incident.GrowthIsReal | qnx/common/src/incident.cpp:172-178 | stable growth is witnessed by a region that exceeds the first by the required part |
| Incident.GrowthBounded | qnx/common/src/incident.cpp:172-178 | the percentage never exceeds 100 (1/minimum area - 1) |
| IncidentEngine.Engine.PersistenceCount | qnx/common/src/incident.cpp:46-49 | counts the relevant frames of the window |
| IncidentEngine.Engine.BeginIncident | qnx/common/src/incident.cpp:51-66 | opens the next incident with its first detection and forgets the per-incident timers |
| IncidentEngine.Engine.ConfirmationRuleMet | qnx/common/src/incident.cpp:134-152 | the scan decides exactly the four confirmation rules |
| IncidentEngine.Engine.ScanGrowth | qnx/common/src/incident.cpp:154-169 | the five accumulators are the first area, the running average, the number of areas and of rises |
| IncidentEngine.Engine.UpdateGrowth | qnx/common/src/incident.cpp:154-179 | growth is stable exactly when the qualifying areas grow |
| IncidentEngine.Engine.UpdateSequenceObservation | qnx/common/src/incident.cpp:181-192 | the order of smoke and fire is known only when both were seen further apart than the uncertainty |
| IncidentEngine.Engine.Admit | qnx/common/src/incident.cpp:70-78 | the window becomes the last frames of the old window and the new frame |
| IncidentEngine.Engine.Track | qnx/common/src/incident.cpp:79-107 | opening, peaks, first sightings and the start of high fire |
| IncidentEngine.Engine.Judge | qnx/common/src/incident.cpp:112-117 | growth, order and confirmation, in that order |
| IncidentEngine.Engine.Settle | qnx/common/src/incident.cpp:119-130 | what the grace period does to a confirmed and an unconfirmed incident |
| IncidentEngine.Engine.Process | qnx/common/src/incident.cpp:68-132 | a call computes the step function of the whole-run theorems |
| IncidentEngine.Engine.Cancel | qnx/common/src/incident.cpp:201-207 | cancels exactly a confirmed incident whose call is not connected |
| IncidentEngine.Engine.ConfirmOccupant | qnx/common/src/incident.cpp:209-213 | escalates exactly a confirmed incident that is not cancelled |
| IncidentEngine.Engine.ManualReset | qnx/common/src/incident.cpp:215-223 | resolves exactly a cancelled or finished incident and empties the window |
| IncidentEngine.Engine.SetDegraded | qnx/common/src/incident.cpp:225-230 | shows the mode, and on its end what was confirmed |
| IncidentRuns.AlwaysConsistent | qnx/common/src/incident.cpp:68-230 | in every reachable state the incident was confirmed exactly when the response is not idle, unconfirmed states are unconfirmed, and degraded is shown only while degraded |
| IncidentRuns.ConfirmedStep | qnx/common/src/incident.cpp:82-84 | a call keeps a confirmed incident exactly when it is not a relevant frame in the resolved state |
| IncidentRuns.ConfirmedHistoryIsPermanent | qnx/common/src/incident.cpp:68-230 | a run loses the incident, its first detection or its confirmation, or shows it unconfirmed, exactly when it holds a successful cancel, then a successful reset, then a relevant frame |
| IncidentRuns.SignatureLostExactly | qnx/common/src/incident.cpp:119-130 | after a frame the signature counts as lost exactly when a confirmed incident has been out of sight for the grace period; an unconfirmed one is cleared instead |
| IncidentRuns.RemembersIncident | qnx/common/src/incident.cpp:80-107 | peaks, first sightings, first detection, zones and last relevant time are functions of the incident's own relevant frames |
| IncidentRuns.OrderIsReal | qnx/common/src/incident.cpp:181-192 | smoke before fire is reported exactly when both were sighted in this incident further apart than the uncertainty, and then truly |
| IncidentRuns.WindowIsRecent | qnx/common/src/incident.cpp:77-78 | the window is exactly the last frames admitted since the last reset |
| IncidentRuns.HighFireStretch | qnx/common/src/incident.cpp:94-101 | the start of high fire is set exactly when the last admitted frame was one of high fire; it is the time of a frame of the current incident, and every frame since was one of high fire |
| IncidentRuns.VerifyingWasPersistent | qnx/common/src/incident.cpp:109-111 | a verifying incident had its persistence at some earlier frame of the same incident |
| IncidentRuns.ConfirmationIsSound | qnx/common/src/incident.cpp:109-118 | confirmation follows persistence under the same incident and one of the four rules, each read off the admitted frames, the stretch of high fire off those of the incident |
| IncidentRuns.GrowthIsBounded | qnx/common/src/incident.cpp:154-179 | after every admitted frame the reported growth is witnessed by regions in the window and bounded by the least that counts |
| Clock.ElapsedIsDifference | qnx/common/src/incident.cpp:136-138 | an unsigned time difference is the plain one exactly when the clock did not run backwards |
| FireVerifier.BestIsGreatest | poc/pi/ignis_poc/core.py:69-70 | the confidence of a class is the greatest detected, or 0 when none was |
| FireVerifier.Verifier.Greatest | poc/pi/ignis_poc/core.py:69-70 | the scan over detections computes it |
| FireVerifier.Verifier.Append | poc/pi/ignis_poc/core.py:72 | the deque keeps its last flags |
| FireVerifier.Verifier.Update | poc/pi/ignis_poc/core.py:68-102 | an update computes the step function of the history theorems |
| FireVerifier.RefinesHistory | poc/pi/ignis_poc/core.py:68-102 | window, incident, first and last detection, confirmed, suspected and verifying are functions of the updates since the gate last forgot; confirmed exactly when some relevant update had enough hits and time |
| FireVerifier.LossRefinesHistory | poc/pi/ignis_poc/core.py:82-97 | a confirmed incident is shown as lost exactly when some irrelevant update found it out of sight for the clear time and none confirmed it since |
| FireVerifier.NoIncidentIsClear | poc/pi/ignis_poc/core.py:90-101 | without an incident the gate is clear, unconfirmed and its window holds no hit |
| FireVerifier.IdsNeverReturn | poc/pi/ignis_poc/core.py:78-80 | an incident id that is gone never comes back |
| FireVerifier.SameIncidentBetween | poc/pi/ignis_poc/core.py:78-101 | the updates of one incident are consecutive |
| FireVerifier.StatesMoveForward | poc/pi/ignis_poc/core.py:82-97 | within an incident the state only moves forward |
| EvidenceBuffer.Buffer.Push | qnx/common/include/ignis/evidence_buffer.hpp:21-30 | the loop evicts from the front until both budgets hold and keeps the byte count exact |
| EvidenceBuffer.BufferIsLongestSuffix | qnx/common/include/ignis/evidence_buffer.hpp:21-30 | after any pushes with a forward clock the buffer is the longest suffix of everything pushed that meets both budgets |
| EvidenceBuffer.OversizedFrameEmpties | qnx/common/include/ignis/evidence_buffer.hpp:24-29 | a push leaves nothing exactly when the frame alone exceeds the byte budget |
| SlidingBudget.QueueIsLive | backend/app/rate_limit.py:16-20 | the trimmed deque is exactly the granted times of the whole history that still count |
| SlidingBudget.GrantsExactly | backend/app/rate_limit.py:18-19 | an attempt is granted exactly when fewer than the limit of all granted ones still count |
| SlidingBudget.NeverMoreThanLimit | backend/app/rate_limit.py:13-21 | no interval, wherever it ends, holds more granted attempts than the limit |
| SlidingBudget.GrantsAreSpaced | qnx/watchdog_service/src/main.cpp:73-83 | the grant that many places further on comes only when the first no longer counts |
| RateLimit.RateLimiter.Allow | backend/app/rate_limit.py:13-21 | one call grants or refuses by the key's own deque and touches no other |
| RateLimit.KeysAreIndependent | backend/app/rate_limit.py:13-21 | each key behaves as if it were alone |
| RateLimit.AllowsWithinWindow | backend/app/rate_limit.py:13-21 | allowed exactly when fewer than the limit of the key's allowed requests lie in the window that ends now, and no window ever holds more |
| Watchdog.WatchOne | qnx/watchdog_service/src/main.cpp:67-86 | one child: restarted within its budget, else exhausted for good |
| Watchdog.Pass | qnx/watchdog_service/src/main.cpp:66-88 | a pass treats each child by itself |
| Watchdog.RestartsAreSpaced | qnx/watchdog_service/src/main.cpp:72-83 | the third restart after any other comes strictly more than sixty seconds later |
| Watchdog.ExhaustedStays | qnx/watchdog_service/src/main.cpp:68-81 | an exhausted child is never restarted |
| Nms.Decoded | poc/pi/ignis_poc/model.py:194-219 | decoded boxes are proper boxes in the unit square with confidence at or above the threshold |
| Nms.Decode | poc/pi/ignis_poc/model.py:194-219 | the loop with its skips computes them |
| Nms.IouIsMeasure | poc/pi/ignis_poc/model.py:222-232 | on decoded boxes the overlap measure is symmetric, in [0, 1], positive exactly when they overlap, and 1 on itself |
| Nms.SortPermutes | poc/pi/ignis_poc/model.py:238 | sorting loses and invents nothing |
| Nms.SortFalls | poc/pi/ignis_poc/model.py:238 | sorting gives falling confidence |
| Nms.SortIsStable | poc/pi/ignis_poc/model.py:238 | detections of equal confidence keep their order |
| Nms.ClassAwareNms | poc/pi/ignis_poc/model.py:234-245 | the loop over candidates computes the greedy selection |
| Nms.NmsIsUniqueSolution | poc/pi/ignis_poc/model.py:234-245 | the selection is the only sublist in which kept boxes of a class overlap at most by the threshold and each dropped one overlaps an earlier kept one by more |
| Nms.NmsIsIdempotent | poc/pi/ignis_poc/model.py:234-245 | suppressing twice is suppressing once |
| Nms.NmsWithinClass | poc/pi/ignis_poc/model.py:239-243 | restricting to a class commutes with suppression, sorting included |
| FrameRing.Ring.Write | qnx/common/include/ignis/frame_ring.hpp:19-29 | a call succeeds exactly when the frame fits, and then it is the last of the history |
| FrameRing.Ring.Latest | qnx/common/include/ignis/frame_ring.hpp:31-39 | a call returns the last write's descriptor and bytes, exactly when there is one and it was not empty |
| FrameRing.AlwaysInvariant | qnx/common/include/ignis/frame_ring.hpp:19-39 | every interleaving of cell accesses keeps each published slot whole until the write that takes it over begins |
| FrameRing.ReadsAreUntorn | qnx/common/include/ignis/frame_ring.hpp:31-39 | a reader that loaded the slot of write k and finished before write k + slots began holds exactly write k; one that loaded before any was published and finished before the first began holds an empty descriptor |
| FrameRing.QuietReadIsLatest | qnx/common/include/ignis/frame_ring.hpp:31-39 | with no write under way a read copies out the last write |
| FrameRing.NothingBeforeFirstWrite | qnx/common/include/ignis/frame_ring.hpp:31-35 | before the first write begins a read fails |
| FrameRing.OvertakenReadTears | qnx/common/include/ignis/frame_ring.hpp:19-39 | the bound is needed, on every ring and in every reachable state: a reader whose slot the next write takes over has a continuation that copies one cell from what the slot held and another from the new frame, whenever the two differ in both and the second is still to be copied |
| FrameRing.ReadCanTear | qnx/common/include/ignis/frame_ring.hpp:19-39 | on every ring such a run exists from the start, after a whole lap |
| FrameRing.FirstReadCanTear | qnx/common/include/ignis/frame_ring.hpp:19-39 | and one without a lap: a read that starts before the first write is published returns that frame's size with a zero for another of its words |
| Database.Store.UpsertIncident | backend/app/database.py:228-313 | a device update keeps a decided response, the first confirmation and the last resolution |
| Database.Store.UpdateIncidentResponse | backend/app/database.py:357-393 | both forms of the update, and the refusal for an unknown incident |
| Database.Store.ReserveCallAttempt | backend/app/database.py:395-445 | the refusals in their order, or a new attempt and its incident's state |
| Database.Store.UpdateCallAttempt | backend/app/database.py:447-499 | an outcome changes one attempt and its incident, an unknown attempt or status nothing |
| Database.LastAttempt | backend/app/database.py:501-505 | the last attempt of an incident |
| Database.CooldownMeans | backend/app/database.py:422-430 | outside the cooldown every active attempt is at least the cooldown old |
| Database.CountUpdated | backend/app/database.py:415-421 | a changed status moves the count of its own incident by what it says |
| Backend.TimeoutManager.Observe | backend/app/escalation.py:31-37 | a timer starts exactly for an awaiting incident without a live one |
| Backend.TimeoutManager.Cancel | backend/app/escalation.py:39-42 | the incident's task is dropped and asked to stop, and its provider request is interrupted |
| Backend.TimeoutManager.Wake | backend/app/escalation.py:44-62 | the end of the sleep escalates exactly a confirmed incident that still awaits its answer |
| Backend.TimeoutManager.End | backend/app/escalation.py:82-83 | a task that ends drops its incident's entry |
| Backend.Api.PutArming | backend/app/main.py:183-189 | arming takes its step exactly when the client has actions left |
| Backend.Api.ObserveIncident | backend/app/tcp_server.py:170-171 | the observer of an update takes its step |
| Backend.Api.ReceiveUpdate | backend/app/tcp_server.py:163-167 | a device update takes its step, and is dropped while not armed |
| Backend.Api.Confirm | backend/app/main.py:239-255 | the handler takes the confirm step exactly when the client has actions left and its guards hold |
| Backend.Api.Cancel | backend/app/main.py:266-278 | the handler takes the cancel step exactly when the client has actions left and its guard holds |
| Backend.Api.Reset | backend/app/main.py:289-299 | the handler takes the reset step exactly when the client has actions left and its guard holds |
| Backend.Api.CallDemoDispatch | backend/app/main.py:310-314 | a dispatch is refused without actions left or while not armed, and otherwise requests a call |
| Backend.Api.RequestDemoCall | backend/app/communications.py:113-172 | the guards in their order, the reservation, and the mock provider's immediate answer |
| Backend.Api.ResolveCall | backend/app/communications.py:183-222 | a provider's answer takes its step once |
| Backend.Api.LoseCall | backend/app/communications.py:214 | a request whose answer cannot be read takes its step |
| Backend.Api.ProviderCallStatus | backend/app/main.py:361-385 | a report that carries the configured callback secret goes to the incident's last attempt; any other, and any report without a configured one, changes nothing |
| Backend.Api.FireTimer | backend/app/escalation.py:44-62 | the timeout takes its step |
| Backend.Api.CallFromTimer | backend/app/escalation.py:65-74 | the escalated task's call takes its step, and the task awaits the answer about exactly the attempt it left with the provider |
| Backend.Api.EndTimer | backend/app/escalation.py:82-83 | the end of a task that awaits no answer takes its step |
| CallPolicy.StepSettles | backend/app/database.py:250-254 | under every step a decided response stays decided and only the timeout of an undecided incident adds a timeout event |
| CallPolicy.DecidedStays | backend/app/database.py:250-254 | a decided response is absorbing over every interleaving, and no timeout event follows it |
| CallPolicy.AtMostOneTimeout | backend/app/escalation.py:50-62 | each incident gets at most one timeout event, and only with a decided response |
| CallRuns.ConfirmedWasReported | backend/app/database.py:231-257 | an incident counts as confirmed only if some earlier device update said so while armed |
| CallRuns.ConfirmationIsPermanent | backend/app/database.py:257 | nothing erases a visual confirmation: once stored, its time never changes in any run |
| CallRuns.ConnectedWasReported | backend/app/main.py:361-385 | a connected call was reported by a provider callback or by the device, never inferred from an accepted request |
| CallRuns.ReservationRefusedOnlyFor | backend/app/communications.py:115-139 | after the guards of a request its reservation is refused exactly for the budget or the cooldown |
| CallRuns.PlacesMeans | backend/app/communications.py:113-165 | what a placed call requires and what it adds |
| CallRuns.EveryCallIsLawful | backend/app/database.py:395-445 | every reservation in every run is for an incident reported as confirmed, not cancelled, within the budget, and the cooldown after every active attempt |
| CallBudget.BudgetHoldsExactly | backend/app/database.py:447-499 | active attempts stay within the maximum throughout a run exactly when no result revives a failed attempt of an incident without a call left |
| CallBudget.BudgetHoldsWithoutWebhooks | backend/app/communications.py:231-233 | while no callback secret is configured they stay within it in every run |
| CallBudget.BudgetCanBreak | backend/app/database.py:447-499 | with a callback secret and a real provider, for every maximum, a run from the start ends with one active call more |
| CallBudget.BudgetIsSafeExactly | backend/app/database.py:447-499 | the budget holds in every run exactly when the provider is the mock, or no callback secret is configured, or no call can be placed |
| CallRuns.OneSleepingTimer | backend/app/escalation.py:31-83 | at most one timer of an incident is ever asleep, and it is the one that an answer stops |
| CallRuns.AnswerSilencesTimeout | backend/app/main.py:248-278 | an accepted answer decides the incident for good and no timeout event follows |
| Cancellation.StepCancelled | backend/app/database.py:447-499 | one step ends a cancellation exactly when it is a provider's answer to a request about the incident that is still awaited, or a callback about it that is accepted |
| Cancellation.CancellationHoldsExactly | backend/app/database.py:447-499 | an incident stays cancelled through the rest of a run exactly when no such step is in it |
| Cancellation.CancellationIsFinalExactly | backend/app/database.py:447-499 | a cancellation is final, whatever follows, exactly when no request about the incident is with the provider and either no callback secret is configured or no call was placed |
| Cancellation.CancelIsFinalExactly | backend/app/main.py:266-278 | read before the cancel: the same, not counting the request of the timeout task that the cancel interrupts |
| Cancellation.CancelledCanStillCall | backend/app/database.py:484-498 | a cancelled incident becomes a call again when its provider answers late, unless the request was the timeout task's |
| Cancellation.CancellationCanEnd | backend/app/database.py:484-498 | a concrete run from the start does so |
| Cancellation.TimerCallIsStopped | backend/app/escalation.py:39-42 | and one in which the timeout task's call is placed and the cancel is final, without a callback secret |
| DeviceRegistry.Server.Register | backend/app/device_registry.py:46-51 | the new connection takes over and the replaced writer is closed |
| DeviceRegistry.Server.Unregister | backend/app/device_registry.py:53-59 | removes exactly the current connection |
| DeviceRegistry.Server.UpsertDevice | backend/app/database.py:175-202 | the row carries the connection's boot and is connected |
| DeviceRegistry.Server.MarkDeviceDisconnected | backend/app/database.py:204-213 | only the row of the same boot is marked |
| DeviceRegistry.Server.Authenticate | backend/app/tcp_server.py:114-132 | the refusals in their order, or registry and row together |
| DeviceRegistry.Server.Teardown | backend/app/tcp_server.py:101-112 | the end of a connection, current or replaced |
| DeviceRegistry.AlwaysAgree | backend/app/tcp_server.py:101-132 | in every interleaving registry and stored row agree, and every other greeted connection has been closed |
| DeviceRegistry.ConnectionTruth | backend/app/tcp_server.py:101-132 | the stored flag is set exactly when the registry holds a connection, and at most one greeted connection is open |
| DeviceRegistry.ReplacedEndsQuietly | backend/app/tcp_server.py:101-109 | the end of a replaced connection touches neither registry nor row of its successor |
| DeviceRegistry.CurrentEndsVisibly | backend/app/tcp_server.py:101-109 | the end of the current connection clears both |
| DeviceRegistry.HoldsDeadExactly | backend/app/tcp_server.py:88-144 | in every run the registry holds an ended connection exactly when an exception interrupted the acknowledgement of the current one and no HELLO has been accepted since |
| DeviceRegistry.DeadThenRepaired | backend/app/tcp_server.py:88-144 | a concrete run reaches such a state, and the next accepted HELLO repairs it |
| DeviceRegistry.HeldIsAlive | backend/app/tcp_server.py:114-144 | what the registry holds is a connection that is still there exactly when it was not so orphaned |
| DeviceRegistry.InterruptLeavesBehind | backend/app/tcp_server.py:88-109 | an interrupted acknowledgement leaves the device shown as connected |

## Left out

- Sockets, the event loop, HTTP, SQLite, camera, display, sensors, process spawning and model inference: only the state changes they trigger are modelled.
- JSON parsing, text sanitizing, hashing of destinations, token comparison and request validation: parameters or verdicts handed in; the JSON test of a frame payload and the checks of a call destination are such verdicts.
- The frontend, the simulator, rendering, configuration files and scripts.
- Floating-point rounding: all geometry, overlap and growth arithmetic is exact.
- The argmax over class scores: a row arrives with its best class.
- Database.Store.UpsertIncident: the columns that no decision reads (zones, peaks, growth, boxes, health, times of detection) are left out.
- Database.Store.UpdateCallAttempt: the conversation id, call sid and error columns, which no decision reads, are left out.
- DeviceRegistry.Server.UpsertDevice: the version, capability and time columns, which no decision reads, are left out.
- The events that a dispatched call or a log packet adds.
- Control packets to the device and the numbering of the backend's own packets.
- A shutdown of the timeout manager.
- Failures of the database in the middle of a step.
- FrameRing.Ring.Write: its write counter does not wrap after 2^64 writes, nor does the counter of incidents.
- FrameRing.ReadsAreUntorn: each cell access is atomic and seen in program order, as the acquire and release of the slot index provide while no lap happens; weaker orders of the C++ memory model during a lap are not modelled, and a torn size that reaches past the slot reads as 0.
- DeviceRegistry.ConnectionTruth: starts from empty tables; a row that an earlier process left marked as connected stays so until the device connects.
