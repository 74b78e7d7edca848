# REAF-5G: a verified model

REAF-5G replays labelled captures through a 5G tunnel, reassembles and classifies them on an edge
node, acquires evidence for what it takes for attacks, chains that evidence in a custody log and
scores the run afterwards. This project models the parts of it that carry state, protocols or exact
arithmetic, and proves what they keep. `dafny verify dfyconfig.toml` checks everything.

The modules follow the program:

| module | models |
|---|---|
| `Wire`, `Reassembly`, `ChunkExpiry` | the chunk format, sender and receiver, whole sessions of the chunk protocol, and when chunk sets are given up |
| `Replay` | the replay loop: numbering, pacing, sending |
| `FlowSamples` | block planning, the one-pass sample writer, percentiles and replay parameters |
| `Statistics`, `FeatureExtraction`, `WindowFeatures`, `TrainingModels` | window aggregation, what each feature means, and the rebuilt 100-packet training row |
| `FlowBuilder`, `ModelEngine`, `Trigger` | the window builder, the staged classifier with its dual-window override, the acquisition cooldown |
| `Pipeline`, `PipelineRuns`, `PipelineProperties`, `WindowLabels` | the packet pipeline as a state machine, what every run keeps, and consequences |
| `Evidence`, `WindowRecords` | what the item log says of itself: answers, questions, firings, incidents, order; what rows and windows record, and when windows close for idleness |
| `Capture`, `CaptureRuns`, `CaptureAccounts`, `CaptureSessions` | the capture front end with its counters, as a class over the classes above, what it hands on and counts, and what it makes of the chunks of given packets |
| `Custody`, `CustodyOrigins`, `CustodyVerify`, `ForensicValidation`, `TamperTests` | the custody log, its concurrent writers, whose evidence each entry records, and its three checkers (`Findings` holds what two of them share) |
| `Bursts`, `Scoring` | burst grouping, the job index, the joins and the scores |
| `EndToEnd`, `Lossless` | properties that cross the whole system: what recall can be, and what a complete capture of any flows scores |
| `Transfers`, `PromptRuns` | what the premises of those mean at the wire and at the clock |
| `MixedReplays`, `Successions` | several replays in one capture: what the join loses where flows meet |

Code that works by changing state is a class or a method with loops, proved against a specification
function of the same step; the run-level lemmas are about those functions. What comes from outside
(scores of the models, tier choice, clocks, random draws, network behaviour, decoding, file contents)
is a parameter, so every result holds for all of its values.

## What the proofs found

- Keeping one override per tier loses nothing: in every run it answers exactly as searching all
  verdicts ever registered would (`PipelineRuns.SlotRefinesHistory`).
- The capture loop can be stopped for good by ordinary chunks: when two packets under one flow id and
  number take different numbers of chunks, both more than one, some mixture of their chunks makes
  joining raise. One flow id replayed with different content can do this
  (`CaptureSessions.TwoContentsHalt`). It cannot happen exactly when packets of one key that take
  several chunks take equally many (`CaptureSessions.NeverHaltsIff`).
- With equal counts nothing stops, but the chunks of two packets under one key are delivered as one
  packet: timestamp of the one, payload of both, a packet nobody sent (`CaptureSessions.MixtureDelivered`,
  `CaptureSessions.MixtureIsNotSent`).
- Replays that follow one another in one capture lose packets where they meet. A window with two flow
  ids is attributed to none, and the 100-packet windows add nothing to what the ten-packet blocks show
  (`MixedReplays.SeenByTens`). With every chunk delivered and no window given up, nothing is lost
  exactly when the flow changes only at multiples of ten packets (`MixedReplays.NothingLostIff`,
  `Successions.CaptureLosesNothingIff`); a replay of n packets followed by another loses its last
  n mod 10, and the other its first packets up to the next multiple of ten
  (`Successions.ReplayAfterReplay`). Of two replays of one packet each, neither packet is seen
  (`MixedReplays.TwoPacketsUnseen`). A pause in between does not help: builders look at the clock only
  after the arriving packet was added (`MixedReplays.PauseDoesNotSeparate`).
- Recall is rounded to two decimals, so it reads 100 percent exactly when at most one packet in 20000 is
  missing (`Scoring.FullRecallIff`, `Lossless.SessionRecall`).
- The rebuilt 100-packet training row has an `IAT` that is ten elevenths of the aggregated one, for all
  traffic: ten windows carry a hundred gaps, of which the rebuilding counts ninety
  (`TrainingModels.IatIsTenElevenths`). Its `Rate` leaves out the time between the windows: it is the
  aggregated one exactly when the ten spans add up to the whole span, and for packets in time order
  never below it unless no window took any time (`TrainingModels.RateIsExactIff`,
  `TrainingModels.RateNeverBelow`).
- Block planning is sound exactly when a block fits its segment. The first size computation being
  positive, with a cap of at least one window, guarantees that; when it is zero, the fallback of one
  window per block always plans more packets than asked for (`FlowSamples.FallbackPlan`). A cap from 0
  to 9 divides by zero exactly when the first size is positive (`FlowSamples.PlanBlocks`); when that is
  zero such a cap is not applied, and the blocks planned are larger than it
  (`FlowSamples.SmallCapEscapes`).
- The one-pass sample writer drops the first packet of every block that starts exactly where the
  previous one ends (`FlowSamples.WrittenCount`). A plan of any shape is written whole on every draw
  exactly when it has a single block and the source is long enough for it (`FlowSamples.AllWrittenIff`);
  blocks as long as their segments lose packets on every draw (`FlowSamples.FullSegmentsLose`): the
  defaults on a file of exactly 1000 IPv4 packets write 996 (`FlowSamples.ThousandLosesFour`).
- The recommended replay speed is rounded to two decimals, so the gap times the safety margin, from which
  it was computed, can be replayed longer than the target. It fits exactly when it does so unscaled, or
  when a hundred times its quotient by the target is whole, or ends in more than one half, or in one
  half after an odd number (`FlowSamples.BasisFitsIff`); otherwise the excess is at most half a percent
  (`FlowSamples.RecommendationHolds`). The percentile gap itself fits for every sample exactly when the
  margin is at least 1.005 (`FlowSamples.MarginCoversRoundingIff`): always at the default of 1.2, and
  not with a margin of 1.0 (`FlowSamples.RoundingBreaksTarget`).
- The text an entry hash is taken of has no separators, so a chain pins the timestamp and the
  incident id only together: in any sound chain the boundary between them can be moved, in any entry
  with a non-empty incident id, without a trace in links and hashes (`Custody.TextPinsFields`,
  `Custody.FieldsCanShift`). Only a signature shows it: the verifier reports BAD_SIGNATURE at that entry
  exactly if it is signed, and nothing new otherwise (`CustodyVerify.ShiftShowsIff`).
- The tamper test on the custody log needs three entries: with two it overwrites the last hash and
  finds the log intact (`TamperTests.ModifyTestDetectsIff`). The multi-incident experiment breaks one
  entry after the tampered one, although its own description says from the tampered one onward
  (`TamperTests.MultiIncidentShows`). The independent verifier ends with an exception on the edit
  those tests make, because the marker is not hexadecimal (`TamperTests.VerifierRaisesOnMarker`).
- What a custody entry certifies is what its own writer hashed, under every interleaving, so the check of
  one incident is about that evidence and no other (`CustodyOrigins.EvidenceVerdict`).
- A type that never fired is compared with time zero, so its first firing also waits for the clock to
  reach 30 seconds (`Evidence.WindowFiresIff`); a clock that counts from 1970 is long past that.
- Grouping rows of any confidence, a burst set off an acquisition exactly if some row in it was eligible
  (`Bursts.BurstFiresIff`). Grouping bursts with a cooldown shorter than the trigger's makes bursts
  that set off none (`Bursts.ShorterCooldownMisses`), and so does dropping rows before grouping, as the
  experiment does, if the row that fired is among them (`Bursts.FilteredBurstMisses`). The default
  cooldown is 30 seconds, while the note the experiment prints calls it 5.0 seconds; the code is
  followed.
- The two joins agree on every column both write, except that one raises on a prediction without
  confidence, model or packet count where the other fills in a default (`Scoring.JoinsAgree`).
- The family merge is case-sensitive and the comparison is not, so strict accuracy can exceed family
  accuracy on mis-cased labels (`Scoring.MiscasedLabelBreaksOrder`); on labels spelt alike it cannot.

## Model

| member | source | states |
|---|---|---|
| Wire.ParsePrinted | 5g-edge-node/envelope_ressemble.py:12-35 | the receiver reads back every field of any chunk the format can hold, whatever bytes follow it |
| Wire.PrintParsed | 5g-edge-node/envelope_ressemble.py:12-35 | whatever the receiver accepts starts with exactly the bytes the sender prints for what was read |
| Wire.HeaderLayout | iot-traffic-generator/build_envelope.py:7-45 | the 29 header bytes one by one: RE5G, version 1, and the seven fields at their offsets in network order |
| Wire.ChunkPayloadsCover | iot-traffic-generator/build_envelope.py:23-29 | the slices of a payload concatenate to it and none exceeds the limit |
| Wire.ChunksAreFull | iot-traffic-generator/build_envelope.py:23-29 | every chunk but the last is as long as the limit, and the last is empty only for an empty packet |
| Wire.ParseRawChunk | iot-traffic-generator/build_envelope.py:33-46 | every chunk of a sendable packet parses to its ids, timestamp, link type, index, count and slice |
| Wire.SplitPayload | iot-traffic-generator/build_envelope.py:23-29 | the slicing loop computes the slices; an empty payload gives one empty slice |
| Wire.BuildEnvelopeChunks | iot-traffic-generator/build_envelope.py:16-47 | ValueError exactly for a non-positive limit; chunks exactly when at most 65535 of at most 65535 bytes are needed, each as the format prints it |
| Wire.SendableIff | iot-traffic-generator/build_envelope.py:16-47 | a packet can be sent exactly when it is at most 65535 times the limit long and the limit, or the packet, is at most 65535 bytes |
| Reassembly.EnvelopeReassembler.Feed | 5g-edge-node/envelope_ressemble.py:46-87 | the buffers and the outcome are those of the specified step, malformed and single chunks included |
| Reassembly.EnvelopeReassembler.FeedMulti | 5g-edge-node/envelope_ressemble.py:67-87 | the same for a chunk of a larger set: store, then pend, deliver or fail to join |
| Reassembly.EnvelopeReassembler.ExpireStale | 5g-edge-node/envelope_ressemble.py:89-95 | exactly the sets older than the timeout are dropped |
| Reassembly.Session.ArriveStep | 5g-edge-node/envelope_ressemble.py:46-87 | an arrival delivers its packet, intact, exactly when it completes the set of held chunks; otherwise it adds its chunk; no other packet is touched |
| Reassembly.Session.DeliveredIsIntact | 5g-edge-node/envelope_ressemble.py:46-95 | for any loss, repetition, reordering, interleaving and expiry, whatever comes out equals what was sent and joining never fails |
| Reassembly.Session.DeliveredExactlyOnce | 5g-edge-node/envelope_ressemble.py:46-87 | without repeats and expiry each packet comes out exactly once if all its chunks arrive and never otherwise, and exactly on the arrival of the last missing one |
| Reassembly.Session.ArrivedIff | 5g-edge-node/envelope_ressemble.py:74-77 | the set of arrived chunks of a packet is the set of indices that occur in the run |
| ChunkExpiry.MalformedIgnored | 5g-edge-node/envelope_ressemble.py:46-50 | bytes that are not a chunk leave the buffers as they are |
| ChunkExpiry.OpeningTimeIs | 5g-edge-node/envelope_ressemble.py:67-77 | over every run the opening time of a chunk set is the reading at the arrival that opened it, whatever came since |
| ChunkExpiry.ExpiryIff | 5g-edge-node/envelope_ressemble.py:89-95 | over every run a stale check gives up a set exactly when the chunk that opened it came longer ago than the timeout, and leaves it as it is otherwise |
| Replay.SendChunks | iot-traffic-generator/replay_engine.py:209-212 | chunks go out in order up to the first whose sending raises |
| Replay.ReplayPcap | iot-traffic-generator/replay_engine.py:188-226 | read, sent and error counts, datagrams and sleeps of the loop; it raises exactly when a packet before the deadline cannot be packed or paced |
| Replay.ReadsIff | iot-traffic-generator/replay_engine.py:189-207 | the packets read are those up to the first that is past the deadline or cannot be packed or paced |
| Replay.SleepsBounded | iot-traffic-generator/replay_engine.py:195-200 | every sleep is positive and never above the cap |
| Replay.WiredIsGenuine | iot-traffic-generator/replay_engine.py:204-211 | every datagram is a chunk, as printed, of a packet read before, numbered from zero in file order |
| Replay.WiredInOrder | iot-traffic-generator/replay_engine.py:189-211 | datagrams go out in packet order and, within a packet, in chunk order from zero without gaps |
| Replay.NothingHeldBack | iot-traffic-generator/replay_engine.py:209-212 | a packet none of whose sends raises is on the wire whole |
| Replay.AllSent | iot-traffic-generator/replay_engine.py:192-226 | without send errors the packets sent are the packets read |
| Replay.SentAreWhole | iot-traffic-generator/replay_engine.py:209-213 | the count of sent packets is the number of packets none of whose chunks met a failing send |
| Replay.TotalSleep | iot-traffic-generator/replay_engine.py:194-201 | a file in time order sleeps at most the span of its packets at the replay speed, and exactly that if and only if the cap cuts no pause |
| Replay.BackwardNotSlept | iot-traffic-generator/replay_engine.py:195 | a packet not later than the one before is sent without a pause |
| FlowSamples.PlanBlocks | iot-traffic-generator/flow_samples.py:175-196 | no plan without packets; division by zero exactly for a cap from 0 to 9 with a positive first size; otherwise the planned blocks |
| FlowSamples.SmallCapEscapes | iot-traffic-generator/flow_samples.py:181-186 | two inputs whose cap of 5 is ignored and plans blocks of 10 |
| FlowSamples.PlanFits | iot-traffic-generator/flow_samples.py:179-187 | with a positive first size and a cap of at least one window: whole windows, at most the cap, each segment holds its block, at most min(target, available) in all |
| FlowSamples.PlanIsLargest | iot-traffic-generator/flow_samples.py:178-186 | and it plans as much as it can: below the cap, blocks a window longer would not all fit; at the cap, blocks are within a window of it and one block more would not fit |
| FlowSamples.FallbackPlan | iot-traffic-generator/flow_samples.py:185-186 | with a first size of zero, one window per block, which together exceed min(target, available) |
| FlowSamples.PlanIsSoundIff | iot-traffic-generator/flow_samples.py:187-196 | for any draws, the blocks are ordered, disjoint and in range exactly when a block fits its segment |
| FlowSamples.EveryStartPossible | iot-traffic-generator/flow_samples.py:192-195 | every start that keeps a block in its segment is drawn by some generator |
| FlowSamples.WriteBlocks | iot-traffic-generator/flow_samples.py:202-249 | under any read cap and for any blocks, overlapping ones included, the loop with its early end writes what the full pass over the readable IPv4 packets writes |
| FlowSamples.ReadableCounted | iot-traffic-generator/flow_samples.py:213-222 | the pass looks at exactly the IPv4 packets among the frames the read cap admits, all of them for a cap of zero |
| FlowSamples.WrittenOnce | iot-traffic-generator/flow_samples.py:225-249 | whatever the blocks, only packets of blocks are written, in source order and none twice |
| FlowSamples.InOrderWritten | iot-traffic-generator/flow_samples.py:225-249 | of ordered disjoint blocks exactly their packets are written, less the first packet of each block that starts where the previous one ends |
| FlowSamples.WrittenCount | iot-traffic-generator/flow_samples.py:229-244 | written = planned less the number of blocks that start where the previous one ends |
| FlowSamples.SampleSize | iot-traffic-generator/flow_samples.py:179-275 | planning and writing together: the exact sample size, at most min(target, available) |
| FlowSamples.AllWrittenIff | iot-traffic-generator/flow_samples.py:187-247 | for plans of any shape, overlapping ones included: every draw writes all planned packets exactly when there is one block and it is no longer than the source |
| FlowSamples.FullSegmentsLose | iot-traffic-generator/flow_samples.py:187-247 | blocks as long as their segments lose at least their number less two on every draw, and their number less one when they fill the source |
| FlowSamples.ThousandLosesFour | iot-traffic-generator/flow_samples.py:138-141 | the defaults on exactly 1000 IPv4 packets plan five blocks of 200 and write 996, whatever is drawn |
| FlowSamples.PercentileMonotone | iot-traffic-generator/flow_samples.py:49-60 | monotone in p on the whole line; strictly inside 0..100 between the two neighbouring samples |
| FlowSamples.PercentileAtSample | iot-traffic-generator/flow_samples.py:56-60 | at the k-th of n-1 equal steps it is the k-th sample |
| FlowSamples.PercentileHalfway | iot-traffic-generator/flow_samples.py:56-60 | from one sample to the next it is linear: halfway between two percentages it is halfway between their percentiles |
| FlowSamples.RoundUpIsLeast | iot-traffic-generator/flow_samples.py:63-66 | for a positive value the least multiple of the step that is not below it |
| FlowSamples.RecommendationHolds | iot-traffic-generator/flow_samples.py:69-90 | at the recommended, rounded speed a gap up to the basis takes at most 1.005 times the target idle timeout and is not cut by the recommended cap; the recommended idle timeout covers the basis |
| FlowSamples.RecommendationIsTight | iot-traffic-generator/flow_samples.py:69-90 | the recommended idle timeout exceeds the gap times the margin by less than 0.5 s, and the cap the longest such pause as replayed by less than 0.05 s; without gaps the target is both |
| FlowSamples.BasisFitsIff | iot-traffic-generator/flow_samples.py:76-78 | for any non-empty list: at the recommended speed the gap times the margin fits the target exactly when it is at most the target, or 100 times it over the target is whole or rounds up (ties to even) |
| FlowSamples.MarginCoversRoundingIff | iot-traffic-generator/flow_samples.py:69-78 | the percentile gap itself fits the target for every sorted sample exactly when the margin is at least 1.005 |
| FlowSamples.RoundingBreaksTarget | iot-traffic-generator/flow_samples.py:78 | with a margin of 1.0, a gap of 2.008 s and a target of 2 s are replayed at speed 1 |
| Statistics.ExtremesBound | 5g-edge-node/feature_extraction.py:73-74 | minimum and maximum are members and bound every member |
| Statistics.DeviationsFromMean | 5g-edge-node/feature_extraction.py:77 | squared deviations from the mean are the sum of squares less n times the squared mean |
| Statistics.MeanOfMeans | model-training/training_models.py:403 | the mean of a hundred values is the mean of their ten group means |
| Statistics.ExtremesFlatten | model-training/training_models.py:377-380 | the extremes of all values are the extremes of the groups' extremes |
| Statistics.WithinGroups | model-training/training_models.py:402-405 | the groups' population variances add up to what remains of the sum of squares |
| Statistics.PooledVariance | model-training/training_models.py:398-408 | the pooled n-1 variance of ten groups of ten is the n-1 variance of the hundred values |
| FeatureExtraction.MostCommon | 5g-edge-node/feature_extraction.py:64-65 | a value of greatest frequency, the one met first among ties |
| WindowFeatures.FeaturesAreCells | 5g-edge-node/feature_extraction.py:54-83 | the features are the columns of the rows and those an aggregate adds, each with the cell below |
| WindowFeatures.SumsAndMeans | 5g-edge-node/feature_extraction.py:62-76 | the four counts and the total size are column sums, the number is that of the rows, and every averaged column is its column sum over that number |
| WindowFeatures.OneRow | 5g-edge-node/feature_extraction.py:54-83 | a single row has its own cells as features |
| WindowFeatures.SumsAddUp | 5g-edge-node/feature_extraction.py:67-72 | counts, total size and number of two windows put together are the sums |
| WindowFeatures.ExtremesOfSizes | 5g-edge-node/feature_extraction.py:73-74 | minimum and maximum are sizes of rows and bound them all |
| WindowFeatures.VarianceOfSizes | 5g-edge-node/feature_extraction.py:77 | the variance is the squared differences from the average over n-1, and zero for one row |
| WindowFeatures.ProtocolOfMost | 5g-edge-node/feature_extraction.py:64-65 | the protocol type is that of a row which no protocol outnumbers, the first met of those with as many |
| WindowFeatures.RateOfSpan | 5g-edge-node/feature_extraction.py:80-81 | the rate is the number of rows over the time from the earliest to the latest, zero if there was none |
| TrainingModels.CellIsExact | model-training/training_models.py:361-409 | one rebuilt column equals the directly aggregated one |
| TrainingModels.StdIsExact | model-training/training_models.py:409 | whatever the square root, the rebuilt standard deviation is the direct one, and cutting the variance off at zero never matters |
| TrainingModels.ReconstructionIsExact | model-training/training_models.py:361-409 | rebuilding from ten aggregated windows equals aggregating the hundred packets, in every modelled column and with exactly the specified columns |
| TrainingModels.RebuiltHasAll | model-training/training_models.py:361-409 | of live windows every column is rebuilt but Rate, IAT and Protocol Type |
| TrainingModels.IatIsTenElevenths | model-training/training_models.py:394-396 | the rebuilt IAT is ten elevenths of the IAT aggregated over the hundred packets, for every ten windows of ten |
| TrainingModels.RateIsExactIff | model-training/training_models.py:389-393 | the rebuilt Rate is the directly aggregated one exactly when the ten window spans add up to the span of the hundred packets |
| TrainingModels.RateNeverBelow | model-training/training_models.py:389-393 | for packets in time order it is never below it, unless every window took no time and the hundred packets took some |
| FlowBuilder.Window.AttributedFlow | 5g-edge-node/flow_builder.py:232-259 | a window is attributed to a flow exactly when it holds that flow id and no other |
| FlowBuilder.Window.MixedIff | 5g-edge-node/flow_builder.py:232-234 | a window is mixed exactly when two of its packets carry different flow ids |
| FlowBuilder.WindowBuilder.AddPacket | 5g-edge-node/flow_builder.py:177-205 | new state and emitted window of adding a packet; non-IP packets change nothing |
| FlowBuilder.WindowBuilder.Append | 5g-edge-node/flow_builder.py:180-201 | one row, one packet, and running extremes equal to those of all pending rows |
| FlowBuilder.WindowBuilder.ExpireStalePartialWindow | 5g-edge-node/flow_builder.py:207-213 | a pending window closes exactly when it was opened at least the idle time ago |
| FlowBuilder.WindowBuilder.Flush | 5g-edge-node/flow_builder.py:215-218 | whatever is pending closes |
| FlowBuilder.WindowBuilder.Finalize | 5g-edge-node/flow_builder.py:220-272 | the window holds all pending rows and packets, their true span and out-of-order count, and the builder is reset but for its last packet time |
| FlowBuilder.AddConserves | 5g-edge-node/flow_builder.py:177-205 | emitted windows followed by the pending packets remain the packets given, in order; full exactly when closed by size |
| FlowBuilder.ExpireConserves | 5g-edge-node/flow_builder.py:207-213 | the same across an idle closing |
| FlowBuilder.FlushConserves | 5g-edge-node/flow_builder.py:215-218 | the same across a flush, after which nothing is pending |
| FlowBuilder.SizedWindows | 5g-edge-node/flow_builder.py:203-205 | when every window closed by size, the k-th is the k-th slice of packets and rows |
| FlowBuilder.StreamRowAt | 5g-edge-node/flow_builder.py:194 | a row depends on its packet and the one before it in the stream alone, whichever windows they fell into |
| WindowRecords.StreamRowTells | 5g-edge-node/flow_builder.py:20-138 | a row has its packet's time and protocol, the size with the 14 bytes of an Ethernet header, the time since the packet before or zero, and the packet's header columns |
| WindowRecords.RowColumnsAre | 5g-edge-node/flow_builder.py:49-80 | exactly which columns a row has |
| WindowRecords.LoggedMeasured | 5g-edge-node/flow_builder.py:220-229 | every logged window's span runs from its earliest row to its latest, and its out-of-order count is the number of rows earlier than the one before |
| WindowRecords.IdleClosesIff | 5g-edge-node/flow_builder.py:207-213 | over every run a window that closed for idleness had been open 60 seconds at the stale check that closed it, and one still pending after a step had not |
| FlowBuilder.GapsAddUp | 5g-edge-node/flow_builder.py:47 | the inter-arrival times of a chronological stream add up to its span across all windows |
| FlowBuilder.StreamRowsUniform | 5g-edge-node/flow_builder.py:40-138 | every row has the same columns |
| ModelEngine.ArgMax | 5g-edge-node/model_engine.py:229 | the first position of a largest score |
| ModelEngine.RunStages | 5g-edge-node/model_engine.py:226-251 | raises exactly without a stage-2 class, or for Flood without one of the two stage-3 classes; otherwise a best-scored family, with a stage-3 answer of best score exactly for Flood |
| ModelEngine.Engine.RegisterW100Result | 5g-edge-node/model_engine.py:254-302 | the tier's slot is replaced exactly by Flood and Mirai verdicts, and the answer given |
| ModelEngine.Engine.Classify | 5g-edge-node/model_engine.py:305-397 | the answer, with the override exactly inside its interval and flow |
| ModelEngine.OnlyLatestSpeaks | 5g-edge-node/model_engine.py:369-374 | with registrations a hundred positions apart, at most the tier's latest speaks for a later window |
| ModelEngine.SlotAnswersForHistory | 5g-edge-node/model_engine.py:369-382 | so consulting the slot equals searching every verdict registered |
| ModelEngine.FloodAnswers | 5g-edge-node/model_engine.py:235-244 | DDoS or DoS exactly when that class leads by the margin, uncertain exactly when neither does, with the larger score |
| ModelEngine.FloodByMargin | 5g-edge-node/model_engine.py:235-244 | of any scores of the two classes: DDoS or DoS exactly when that class leads by 0.20, uncertain exactly when neither does, with the larger score |
| Evidence.LargeWindowsAreStaged | 5g-edge-node/model_engine.py:254-302 | over every run a classified 100-packet window is unavailable without scores or a class, has the stage-3 answer for Flood, and otherwise its best family with that score |
| ModelEngine.GateIff | 5g-edge-node/model_engine.py:305-382 | Benign exactly below an attack score of one half, with the rest as confidence; unavailable without scores or a class; otherwise the remembered verdict that speaks for the window, or its own |
| ModelEngine.TrainedVerdictIsSound | 5g-edge-node/model_engine.py:235-244 | on a two-class distribution an uncertain answer stays below 0.60 |
| Trigger.AcquisitionTrigger.ShouldAcquire | 5g-edge-node/trigger.py:15-32 | the decision and the new dictionary |
| Trigger.RunIsLastFiring | 5g-edge-node/trigger.py:26-31 | over any run on a forward clock the dictionary holds each type's last firing |
| Trigger.FiresIff | 5g-edge-node/trigger.py:15-32 | an eligible event fires exactly when its type has not fired in the last 30 seconds and, if it never fired, the clock has reached 30 |
| Trigger.RefusalIsShadowed | 5g-edge-node/trigger.py:28-29 | an eligible refusal follows a firing of its type by less than 30 seconds, or falls in the clock's first 30 |
| Trigger.CooldownRate | 5g-edge-node/trigger.py:26-32 | one type fires at most floor(T/30)+1 times in any T seconds |
| Evidence.AskedAndTaken | 5g-edge-node/capture.py:147-196 | over every run and its flush the trigger was asked in log order about exactly the windows closed by size, each with its own label, confidence and clock reading; an incident is a firing whose collection succeeded, and nothing else |
| Evidence.WindowFiresIff | 5g-edge-node/trigger.py:15-32 | read off the log alone, on a forward clock: a window fires exactly if it was classified, is not Benign with confidence at least 0.80, no window of its label fired in the 30 seconds before, and one fired before or the clock reached 30 |
| Evidence.LogIsFiled | 5g-edge-node/capture.py:217-240 | the log is in order of position, within one position full windows before stale and small before large, each handled in the world of the step that closed it |
| Bursts.SortSorts | evaluation/experiment_s.py:125 | the result is ordered by time and a permutation, and an ordered list stays as it is |
| Bursts.SortIsStable | evaluation/experiment_s.py:125 | rows of one time keep their order |
| Bursts.CutBursts | evaluation/experiment_s.py:126-135 | the loop computes the cut |
| Bursts.BurstIsStretch | evaluation/experiment_s.py:127-135 | every burst is a stretch of the rows that starts at the first row or after a gap above the cooldown |
| Bursts.NoGapInside | evaluation/experiment_s.py:129-131 | inside a burst no two neighbours are further apart than the cooldown |
| Bursts.GroupByType | evaluation/experiment_s.py:119-121 | types in order of first appearance, each with its rows in order |
| Bursts.TypesInOrder | evaluation/experiment_s.py:119-121 | the types stand in the order they first appear in |
| Bursts.GroupIntoBursts | evaluation/experiment_s.py:118-136 | the whole grouping |
| Bursts.BurstsConserve | evaluation/experiment_s.py:118-136 | the bursts together hold every row exactly as often as the input |
| Bursts.BurstIsWell | evaluation/experiment_s.py:118-136 | for rows in any order: a burst holds rows of one type, in time order, no neighbours further apart than the cooldown |
| Bursts.BurstsApart | evaluation/experiment_s.py:118-136 | of two bursts of one type the later starts more than the cooldown after the earlier ended |
| Bursts.EveryBurstFires | evaluation/experiment_s.py:118-136 | grouping the trigger's own eligible events with its cooldown or a longer one, the first row of every burst fired |
| Bursts.BurstFiresIff | evaluation/experiment_s.py:118-150 | grouping questions of any confidence with the trigger's cooldown or a longer one, a burst set off an acquisition exactly if some row in it was eligible |
| Bursts.FilteredBurstMisses | evaluation/experiment_s.py:141-147 | when the row that fired is dropped before grouping, a burst of an eligible row can be left in which nothing fired |
| Bursts.ShorterCooldownMisses | evaluation/experiment_s.py:17 | for every shorter cooldown some run has a burst in which nothing fired |
| PipelineRuns.RunKeeps | 5g-edge-node/capture.py:174-240 | over every run: both builders conserve their packets, windows sit at the position of their last packet while all packets have an IP layer, a window was classified exactly when it closed by size, and firings are the trigger's run over its questions |
| PipelineRuns.ShutdownConserves | 5g-edge-node/capture.py:307-312 | after the shutdown flush the windows of either size alone are the whole packet stream; every logged window is still accounted for, and the flush only logged unasked, unfired windows |
| PipelineRuns.ShutdownAccounts | 5g-edge-node/capture.py:174-179 | a trailing window is logged unclassified, asks the trigger nothing, fires nothing and leaves no incident |
| PipelineRuns.SlotRefinesHistory | 5g-edge-node/model_engine.py:278-285 | in every run the single slot gives the same item log, trigger questions and firings as remembering every verdict |
| PipelineRuns.AtMostOneVerdictSpeaks | 5g-edge-node/model_engine.py:369-374 | in every run at most one of all registered verdicts speaks for the next window |
| PipelineProperties.NoUncertainEvidence | 5g-edge-node/capture.py:147-150 | over every run and its shutdown flush, overrides included, nothing is acquired for Benign, Flood_uncertain, ModelUnavailable or InsufficientData |
| PipelineProperties.TensFillHundred | 5g-edge-node/capture.py:219-232 | the k-th 100-packet window holds the packets and rows of its ten 10-packet windows |
| WindowLabels.DualWindowsAlign | 5g-edge-node/model_engine.py:374 | without idle closings, and the verdict large window k registered speaks exactly for the ten small windows that make up window k+1 |
| WindowLabels.RunExplains | 5g-edge-node/model_engine.py:278-285 | in every run the verdicts registered are those of the classified 100-packet windows of the log, in log order, and each small window has the answer the verdicts before it give |
| WindowLabels.SmallFollowsLarge | 5g-edge-node/model_engine.py:369-382 | without idle closings, the label of small window i comes from its own stages, or from large window i/10-1 of its tier and flow, and from no other window of the run |
| PipelineProperties.RebuiltRowIsLiveRow | model-training/training_models.py:361-409 | without idle closings the row rebuilt from ten live windows is the live row of the 100-packet window over the same packets |
| Capture.EdgeNode.BumpCounter | 5g-edge-node/capture.py:85-90 | exactly the named counter grows, in all and for the flow |
| Capture.EdgeNode.HandleFinished | 5g-edge-node/capture.py:174-196 | partial windows are logged unclassified; full ones are classified, put to the trigger and logged |
| Capture.EdgeNode.FeedBuilders | 5g-edge-node/capture.py:226-232 | the 10-packet window is handled before the 100-packet window at the same position |
| Capture.EdgeNode.ExpireBuilders | 5g-edge-node/capture.py:234-240 | then both builders give up stale windows |
| Capture.EdgeNode.ProcessPacket | 5g-edge-node/capture.py:217-240 | one whole packet through the pipeline |
| Capture.EdgeNode.ProcessOriginalPacket | 5g-edge-node/capture.py:208-222 | a held fragment is counted and stops; anything else is counted and processed |
| Capture.EdgeNode.HandleEnvelope | 5g-edge-node/capture.py:258-277 | undecodable and non-IP packets are counted and stop; others are processed and stale chunk sets dropped |
| Capture.EdgeNode.Receive | 5g-edge-node/capture.py:245-277 | the whole step for one carrier packet |
| Capture.EdgeNode.FlushAtShutdown | 5g-edge-node/capture.py:307-312 | both trailing windows are handled at the final position |
| Capture.EdgeNode.Sniff | 5g-edge-node/capture.py:303 | a capture is the run of its packets |
| CaptureRuns.CaptureIsPipelineRun | 5g-edge-node/capture.py:245-277 | every capture drives the pipeline through a run, so all run properties hold of captures |
| CaptureRuns.CountersBalance | 5g-edge-node/capture.py:208-276 | in all and per flow, envelopes = decode_failed + non_ip_dropped + held_fragment + processed, and the position counts the processed packets |
| CaptureRuns.IntakeCounted | 5g-edge-node/capture.py:247-258 | the front counters are the numbers of ordinary datagrams, chunks and reassembled packets taken in |
| CaptureAccounts.CountersCount | 5g-edge-node/capture.py:85-90 | every counter, in all and per flow, is the number of events it is named after, up to where the capture stopped |
| CaptureAccounts.BumpsAreAll | 5g-edge-node/capture.py:85-92 | the number that decides when the counters are written is the sum of all of them |
| CaptureAccounts.StepsComeFrom | 5g-edge-node/capture.py:208-276 | the pipeline's steps come one each and in order from all decoded deliveries not held back, and carry ids, link type, time, length, protocol and headers |
| CaptureAccounts.SetsAfter | 5g-edge-node/capture.py:253-276 | after a chunk the sets are the reassembler's, less, once a decoded packet was dealt with, those opened more than ten seconds before; a set that cannot be joined stops the capture |
| CaptureSessions.CaptureGoesOn | 5g-edge-node/capture.py:245-277 | with packets that fit the format and share no key, no capture of their chunks stops, and what is buffered is always part of what was sent |
| CaptureSessions.CaptureDeliversIntact | 5g-edge-node/capture.py:254-258 | whatever such a capture takes out of reassembly is a packet as it was sent, on arrival of one of its chunks |
| CaptureSessions.NeverHaltsIff | 5g-edge-node/envelope_ressemble.py:76-80 | whatever is sent, no capture of its chunks stops exactly when packets of one key that take several chunks take equally many |
| CaptureSessions.MixtureDelivered | 5g-edge-node/envelope_ressemble.py:67-87 | when two packets of one key take equally many chunks, several each, all chunks of the one but the last and the last of the other are delivered as one packet with the timestamp of the first |
| CaptureSessions.MixtureIsNotSent | 5g-edge-node/envelope_ressemble.py:67-87 | for any two packets of two bytes under one key that differ in both, a byte a chunk: that delivery is neither of them |
| CaptureSessions.TwoContentsHalt | 5g-edge-node/envelope_ressemble.py:76-80 | two sendable packets under one key and two of their chunks that stop the capture |
| Custody.HeadPinsPrefix | 5g-edge-node/chain_of_custody.py:160-161 | two linked chains that agree on the hash at n-1 agree on every hash, link and hashed text below n, unless two of their texts collide |
| Custody.TextPinsFields | 5g-edge-node/chain_of_custody.py:160-161 | equal texts with bundle hashes of one width have equal bundle hashes, and equal timestamps and ids exactly when the timestamps have one width |
| Custody.FieldsCanShift | 5g-edge-node/chain_of_custody.py:160-161 | in any sound chain, any entry with a non-empty incident id can be given another timestamp and id under the same hash and text, and the chain stays sound |
| Custody.CustodyLog.GetPreviousHash | 5g-edge-node/chain_of_custody.py:115-127 | the head hash, or genesis |
| Custody.CustodyLog.PreserveBundle | 5g-edge-node/chain_of_custody.py:149-197 | exactly one entry is appended: linked to the old head, hashed over its text, with the given bundle hash, time and all metadata, signed exactly if signing works, with an anchor when the count asks for one; a failing anchor signature raises after the entry is written; the log stays honest |
| Custody.CustodyLog.AnchorChain | 5g-edge-node/chain_of_custody.py:201-229 | one signed anchor of the current head with its count, time and reason, none for an empty log, an exception and no anchor if signing fails |
| Custody.HonestAppend | 5g-edge-node/chain_of_custody.py:158-187 | appending to the current head keeps links, hashes, signatures and all anchors valid |
| Custody.WritersNeverFork | 5g-edge-node/chain_of_custody.py:149-229 | for any interleaving of writers under the lock and unlocked anchor takers the log stays one chain and every anchor describes a prefix |
| Custody.LogOnlyGrows | 5g-edge-node/chain_of_custody.py:189-193 | what any prefix of a run wrote is a prefix of what the run wrote |
| CustodyOrigins.EveryEntryHasOrigin | 5g-edge-node/chain_of_custody.py:149-197 | over every interleaving each entry records the bundle hash and metadata one writer brought when it came in and the time of its own append, and is signed exactly if that signing worked |
| CustodyOrigins.WholeTurn | 5g-edge-node/chain_of_custody.py:149-197 | a writer that finds the lock free and runs undisturbed adds exactly one entry with its own evidence, linked to the head, and leaves all else as it was |
| CustodyOrigins.AnchorTurn | 5g-edge-node/chain_of_custody.py:201-229 | an anchor taker that runs undisturbed adds one anchor of the head if it can sign, and nothing otherwise |
| CustodyOrigins.EvidenceVerdict | evaluation/forensic_validation.py:165-194 | after any interleaving an incident is VALID exactly when the directory its writer hashed still hashes to the value that writer computed; otherwise its one code says what became of it |
| CustodyOrigins.AllSigned | 5g-edge-node/chain_of_custody.py:174-182 | with every signing successful every entry is signed by the node's key over its own fields |
| CustodyVerify.VerifyEntry | evaluation/custody_verify.py:52-61 | exactly the codes of one entry are added; an exception exactly for missing fields or a hash that is not hexadecimal |
| CustodyVerify.VerifyAnchors | evaluation/custody_verify.py:64-71 | exactly the codes of the anchors; an exception exactly for an anchor signed by a pinned key whose count is at most minus the log's length |
| CustodyVerify.AnchorRaisesIff | evaluation/custody_verify.py:65-72 | that condition for one anchor |
| CustodyVerify.Verify | evaluation/custody_verify.py:47-76 | the report as specified |
| CustodyVerify.LinkReports | evaluation/custody_verify.py:52-56 | link and hash problems are reported for exactly the entries that have them |
| CustodyVerify.LinksCleanIff | evaluation/custody_verify.py:49-56 | no link or hash problem exactly when the log is a linked chain from genesis |
| CustodyVerify.SignatureReports | evaluation/custody_verify.py:57-61 | a signature problem is reported for exactly the entries no pinned key signed as they stand, with the code that says why |
| CustodyVerify.EditedEntryShows | evaluation/custody_verify.py:57-61 | changing any signed field of a signed entry is reported |
| CustodyVerify.ShiftShowsIff | evaluation/custody_verify.py:47-76 | after moving the boundary of timestamp and incident id of an entry of an honest log, the report is the unsigned entries and, exactly if that entry is signed, BAD_SIGNATURE there |
| CustodyVerify.AcceptedAnchor | evaluation/custody_verify.py:65-71 | an anchor without a problem names the hash at its count |
| CustodyVerify.AnchorReports | evaluation/custody_verify.py:64-71 | bad signature, truncated tail and rewritten entry are each reported for exactly the anchors that have them, counts from the end included |
| CustodyVerify.RaisedIff | evaluation/custody_verify.py:49-72 | the run raises exactly for an entry with a hashed field missing or a hash that is not hexadecimal, or a signed anchor that counts back to before the log |
| CustodyVerify.AcceptedAnchorPinsPrefix | evaluation/custody_verify.py:47-76 | an accepted anchor fixes the whole prefix it counts, unless texts collide |
| CustodyVerify.HonestReport | evaluation/custody_verify.py:47-76 | on an honest log nothing is reported but the unsigned entries |
| CustodyVerify.WritersPassVerification | evaluation/custody_verify.py:47-76 | after any interleaving the node's own log reports exactly its unsigned entries; none if every signing succeeded |
| ForensicValidation.CheckEntry | evaluation/forensic_validation.py:101-147 | exactly the codes of one entry, in order |
| ForensicValidation.VerifyChainDetailed | evaluation/forensic_validation.py:75-151 | the problems of the log as specified, carrying the last hash present |
| ForensicValidation.ReportedWhere | evaluation/forensic_validation.py:98-151 | a code is reported for exactly the entries that have it |
| ForensicValidation.LinkReports | evaluation/forensic_validation.py:101-117 | a broken link, a missing field and a hash mismatch are each reported for exactly the entries that have them |
| ForensicValidation.ExpectedPrevIs | evaluation/forensic_validation.py:96-150 | the expected link is the latest entry hash before, or genesis |
| ForensicValidation.BundleReports | evaluation/forensic_validation.py:119-147 | a bundle problem is reported for exactly the entries whose evidence is unrecorded, missing, unreadable or changed |
| ForensicValidation.ValidIff | evaluation/forensic_validation.py:165-194 | an incident is VALID exactly when the chain up to its first entry is linked and hashed soundly from genesis and its own bundle is unchanged |
| ForensicValidation.VerdictIff | evaluation/forensic_validation.py:165-194 | for every log file and id: VALID as above and only for a readable file with such an entry; NOT_FOUND exactly for a readable file without one; a missing or unreadable file is INVALID with that one code |
| ForensicValidation.LinkProblemInvalidatesLater | evaluation/forensic_validation.py:183-187 | a link problem at j invalidates every incident first seen at or after j |
| ForensicValidation.PrefixGivesProblemsBelow | evaluation/forensic_validation.py:98-151 | checking a prefix gives exactly the full check's problems below the cut |
| ForensicValidation.CheckersAgree | evaluation/forensic_validation.py:101-117 | on logs both can read, both checkers report broken links and hash mismatches for the same entries |
| TamperTests.VerifyChain | evaluation/tamper_tests.py:27-35 | intact exactly when there is no break, and otherwise the first one |
| TamperTests.TestModifyChainEntry | evaluation/tamper_tests.py:84-96 | skipped below two entries, otherwise the first break of the tampered log |
| TamperTests.MultiIncident | evaluation/tamper_tests.py:99-113 | the note below three entries; otherwise the verdict on every prefix and on the tampered log |
| TamperTests.CleanReportMeansIntact | evaluation/tamper_tests.py:27-35 | a log the full check finds no problem in is intact for the link-by-link check |
| TamperTests.TamperingShowsAt | evaluation/tamper_tests.py:109-111 | overwriting the hash at k of a sound chain shows as a mismatch at k and a break at k+1 and no other link problem |
| TamperTests.TamperingBreaksNext | evaluation/tamper_tests.py:27-35 | the link-by-link check breaks at k+1, and not at all if k is last |
| TamperTests.ModifyTestDetectsIff | evaluation/tamper_tests.py:84-96 | on a sound log the test detects exactly with three entries or more |
| TamperTests.MultiIncidentShows | evaluation/tamper_tests.py:99-119 | on a sound log every prefix is intact before, and after the chain breaks first one entry past the tampered one |
| TamperTests.VerifierRaisesOnMarker | evaluation/custody_verify.py:63 | the independent verifier raises on the edit the tests make |
| Scoring.BuildJobIndex | evaluation/truth_results.py:20-28 | the index as specified |
| Scoring.IndexHoldsChosen | evaluation/truth_results.py:20-28 | exactly the flows of the truth log, each with its last completed job, or its first job if none completed |
| Scoring.JoinRows | evaluation/truth_results.py:50-83 | a KeyError exactly if a matched prediction lacks a field; otherwise the rows of the matches in log order, packet ids included, the unmatched and mixed counts, and the ids seen per flow |
| Scoring.MatchesCount | evaluation/truth_results.py:55-58 | a prediction is joined as often as it is logged if its flow has a job, and never otherwise |
| Scoring.JoinsAgree | evaluation/results_engine.py:49-72 | one join raises exactly if a matched prediction lacks confidence, model or packet count; otherwise the two, each with its own lookups, write equal rows in every common column |
| Scoring.RowsAreMatches | evaluation/results_engine.py:49-72 | every row of either join is of one match, in log order, and each of its columns is that of the prediction, of the job of its flow, or the comparison of their labels |
| Scoring.FullRecallIff | evaluation/truth_results.py:102 | the rounded recall is 100 percent exactly when at most one packet in 20000 is missing |
| Scoring.RecallMeans | evaluation/truth_results.py:102 | the recall is the nearest percentage with two decimals, ties to even; none exactly if the number read is unknown or zero |
| Scoring.MixedAre | evaluation/truth_results.py:52-53 | the mixed count is the number of predictions marked mixed |
| Scoring.RecallSummary | evaluation/truth_results.py:92-103 | one recall per flow of the index |
| Scoring.Join | evaluation/truth_results.py:35-124 | rows, counts and recall of the whole join, or its KeyError |
| Scoring.ComputeJoinedRows | evaluation/results_engine.py:43-73 | the rows of the matches in log order, incident and flow ids included |
| Scoring.SeenIff | evaluation/truth_results.py:60-61 | an id is seen for a flow exactly if a matched prediction of the flow lists it |
| Scoring.FamilyImpliesBinary | evaluation/truth_results.py:132-140 | a row right about the family is right about attack or benign |
| Scoring.FloodsAreOneFamily | evaluation/truth_results.py:12-13 | DDoS, DoS, Flood_uncertain and Flood count as one family, and two other labels share a family exactly when they match |
| Scoring.StrictImpliesFamilyIff | evaluation/truth_results.py:72-74 | a strictly correct row is family-correct exactly when both labels are merged or neither is |
| Scoring.MiscasedLabelBreaksOrder | evaluation/truth_results.py:13 | a strictly correct row that is not family-correct |
| Scoring.ScoresAreOrdered | evaluation/truth_results.py:132-144 | strict <= family <= binary counts, the first for labels spelt alike |
| Scoring.BreakdownIsOrdered | evaluation/results_engine.py:76-90 | the rounded percentages lie in 0..100 in that order |
| Scoring.BreakdownMeans | evaluation/results_engine.py:76-90 | each percentage is the nearest with one decimal to the share of rows right about label, attack or family, and the Flood figure the share among DDoS and DoS rows; none for no rows |
| Scoring.PctTimes | evaluation/results_engine.py:87-90 | a percentage times the whole is a hundred times the part |
| EndToEnd.ReplayIsSession | iot-traffic-generator/replay_engine.py:189-207 | a replay of up to 2^32 packets meets the premises of the delivery theorems |
| EndToEnd.WiredIsOfSession | iot-traffic-generator/replay_engine.py:204-211 | each datagram of a replay is a chunk of its session |
| EndToEnd.ReplayedIsSent | iot-traffic-generator/replay_engine.py:189-211 | each datagram of a replay is a chunk of a packet numbered below the packets read |
| EndToEnd.RecommendedPacing | iot-traffic-generator/replay_engine.py:195-200 | replayed with its recommended parameters, a pause up to the basis is scaled, not cut, and within 1.005 times the target idle timeout |
| EndToEnd.StreamIsKnown | 5g-edge-node/capture.py:269-276 | every packet the pipeline gets carries the ids of a packet read |
| EndToEnd.LoggedWithinStream | 5g-edge-node/capture.py:101-112 | every logged window, trailing ones included, holds only packets of the stream |
| EndToEnd.RecallIsBounded | evaluation/truth_results.py:60-61 | through send, reassembly, windowing and join, the ids seen for a flow are among the numbers of the packets its replay read |
| EndToEnd.RecallAtMostAll | evaluation/truth_results.py:92-103 | so no recall, as it is rounded, exceeds 100 percent |
| Lossless.CaptureRunsSession | 5g-edge-node/capture.py:245-277 | a capture in which packets decode plainly and no chunk set expires runs the session of its arrivals: same buffers, and a stream that holds each packet exactly as often as it was delivered, and no other |
| Lossless.WithinTimeoutKeepsAll | 5g-edge-node/envelope_ressemble.py:89-95 | a capture whose clock readings stay within the timeout drops no chunk set |
| Lossless.SessionSeen | evaluation/truth_results.py:50-61 | any flows in one capture, each chunk arriving once, in any order: the join sees exactly the packets of a flow that lie in a logged window holding no other flow, and all of them exactly when each does |
| Lossless.SessionRecall | evaluation/truth_results.py:92-103 | so the recall reads 100 percent exactly when at most one in 20000 of the flow's packets lies in no such window |
| Lossless.LosslessRecall | evaluation/truth_results.py:50-103 | if the capture carries the chunks of a single replay, each once, in any order, the join sees exactly the packets read, and the recall is 100 percent |
| Transfers.CompleteIff | iot-traffic-generator/replay_engine.py:209-212 | every chunk of a session arrives exactly once exactly when what arrives is a rearrangement of what was sent |
| Transfers.ReplayArrivesWhole | iot-traffic-generator/replay_engine.py:188-226 | when no send fails and what reaches the capture is a rearrangement of the datagrams of the replay, the premises of the scoring theorems hold |
| PromptRuns.PromptIsUndisturbed | 5g-edge-node/flow_builder.py:207-213 | when all packets have an IP layer and each stale check comes less than 60 s after every earlier opening, every window closes by size |
| MixedReplays.SeenByTens | 5g-edge-node/flow_builder.py:232-259 | without idle closings, whatever the mixture of flows, the join sees a packet exactly if the block of ten around it, cut at the end, holds its flow alone |
| MixedReplays.NothingLostIff | 5g-edge-node/flow_builder.py:232-259 | without idle closings the join sees every packet of every flow exactly when the flow changes only at multiples of ten |
| MixedReplays.SeenInSuccession | 5g-edge-node/flow_builder.py:232-259 | of one flow of n packets and another after it: of the first the packets up to the last multiple of ten, of the second those from the next one on |
| MixedReplays.TwoPacketsUnseen | 5g-edge-node/flow_builder.py:232-259 | of two replays of one packet each the join sees neither, though nothing was lost and no window closed for idleness |
| MixedReplays.PauseDoesNotSeparate | 5g-edge-node/capture.py:226-240 | whatever the clocks say, an arriving packet lands in one window, or stays pending, with all that was pending before it |
| Successions.CaptureLosesNothingIff | evaluation/truth_results.py:50-103 | any number of replays in one capture, every chunk once, nothing given up: all packets of all flows are seen exactly when the reassembled stream changes flow only at multiples of ten |
| Successions.StreamIsSent | 5g-edge-node/capture.py:245-277 | when packets arrive one after the other, each chunk once, the stream is what was sent, in that order |
| Successions.ReplayAfterReplay | evaluation/truth_results.py:50-103 | from the datagrams of two replays, arriving in order, to the join: exactly the packets seen of each, and nothing lost exactly when the first is a multiple of ten packets long |

## Left out

- TrainingModels.ReconstructionIsExact: does not cover Protocol Type, a mode of modes, nor tables that have Std but no Variance; IAT and Rate, which differ from the aggregated ones, have theorems of their own, as has Std.
- Scoring.BreakdownIsOrdered: lower-cases ASCII letters only; rounding is to the nearest over the reals, ties to even.
- Bursts.EveryBurstFires: takes the trigger's own eligible events at the trigger's clock readings; rows carry a timestamp taken a little earlier.
- Bursts.BurstFiresIff: says which bursts set off an acquisition; the experiment counts custody entries, which a failed collection does not leave, and first drops rows by expected label and family (Bursts.FilteredBurstMisses).
- FlowBuilder.WindowBuilder.Finalize: flow duration, arrival-order span, first and last times and features, which follow from the window's rows and packets, are not stored in it.
- CustodyVerify.Verify: does not count timestamp-token states, and `bytes.fromhex` also accepts blanks between byte pairs.
- Replay.ReplayPcap: a failing send is the operating-system error the loop counts; any other exception from the socket is not modelled.
- EndToEnd.RecallIsBounded: takes one replay per flow id, and fragments rebuilt with a known number or none.
- Lossless.LosslessRecall: speaks of a capture that carries one replay and no chunks of another; for several see Lossless.SessionSeen and Successions.CaptureLosesNothingIff.
- Successions.ReplayAfterReplay: asks the network to keep order, and no window to close for idleness; PromptRuns.PromptIsUndisturbed says when none does.
- Scoring.JoinRows: a job without its label, id or path, which makes both joins raise, is not modelled, nor is a prediction without a label.
- Inference, scalers, encoders and feature vectors: scores of each stage are inputs; an exception or missing artifact is one of their values.
- Packet decoding, header columns and IP defragmentation: a decoded packet, a held fragment or a rebuilt packet is an input.
- SHA-256 and Ed25519: the hash is any function printing 64 hexadecimal digits, with collisions named where they matter; a signature carries what was signed and only signing makes one. RFC 3161 tokens are absent.
- JSON text, partial writes, unreadable lines and the restart at genesis they cause: logs are sequences of records with atomic appends; a field that is null is not told apart from a missing one.
- Custody fields under other names (`hash`, `prev`, `prev_hash`): the tamper tests look there first, but the writer never writes them.
- Key creation, `hash_directory`, resolving bundle paths: what a recorded directory holds is an input.
- Floating-point rounding: arithmetic is over the reals; the double a chunk carries is 64 bits, and its value an input.
- Chunks no sender makes: captures are arbitrary, but what their chunks lead to is proved for chunks of sendable packets.
- Logging, resource and timing records; the counters file written every 500 counts.
- Sample timestamps and gaps, per-block statistics and hashes of the sampler.
- Sorting by the text of a timestamp: rows are sorted by time, which ISO timestamps of one zone agree with.
- Dashboard, reports, shell scripts, tcpdump, sockets and `main` beyond its capture loop and flush.
- The real clock: every clock reading is an input; only the trigger and burst lemmas ask it not to go back.
