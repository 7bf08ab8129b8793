# Verified model of the HMMP client

HMMP is a binary multiplexed protocol between services and their registry. This project models the
client's wire codec, its multiplexer and its client-side governance logic in Dafny, and proves what they
are for: every layout can be read back in exactly one way, a run of frames survives the stream it travels
in, requests are answered at most once and only by their own frames, breakers trip and recover as their
thresholds say, the load balancer gives each instance its share, and the caches agree with simple maps.

`dafny verify dfyconfig.toml` checks the whole project.

## How it is laid out

| file | models |
|---|---|
| `Wire.dfy`, `Codec.dfy` | bytes, big-endian integers, length-prefixed strings, UTF-8 validity, `BinaryWriter`, `BinaryReader` |
| `Frames.dfy`, `Connection.dfy` | frame encoder and decoder, the read loop over a byte stream, stream ids |
| `FrameContents.dfy` | what an encoded frame says, told from the request alone |
| `Governance.dfy`, `BlockMeaning.dfy`, `GovernedFrames.dfy` | the TLV governance block, its meaning entry by entry, and inside a frame |
| `FilterExpressions.dfy`, `Snapshots.dfy` | filter trees, service snapshots |
| `Bits.dfy`, `MetadataHash.dfy`, `HashExample.dfy` | bitwise or and xor; FNV-1a 64, the canonical metadata hash and a worked example |
| `CircuitBreakers.dfy`, `BreakerTransitions.dfy` | the three-state breaker, and exactly when it changes its state |
| `BreakerBounds.dfy` | exactly when a closed breaker is below its thresholds |
| `Instances.dfy`, `BreakerRegistry.dfy` | instances and their address keys, the registry of breakers |
| `MetricsPack.dfy`, `MetricsCollector.dfy` | the 32-bit metrics pack, the collector that fills it |
| `LoadBalancer.dfy`, `WeightFormula.dfy` | effective weights and the weighted draw; the weight in closed form |
| `BreakerAwareSelection.dfy` | selection behind breakers |
| `StrandedBreakers.dfy` | what selections cost a half-open breaker |
| `Router.dfy` | futures, pending requests, handlers, the life of a request |
| `CacheKeys.dfy`, `SnapshotCache.dfy`, `ConfigCache.dfy` | the two caches and their keys and files |

Code that changes state is modelled by classes and loops, each tied by its `ensures` to a function on
values; the theorems are about those functions, over all inputs or all runs. Beside the main ones stand
theorems that say what it computes without naming it: bit by bit, byte by byte, or from the history of a
run. Strings of the wire are byte sequences; the bytes are checked for UTF-8 where the source decodes them.
Floats are exact reals. The MessagePack library, MD5, the clock, the random draw, CPU and memory readings
and the stream of incoming bytes are parameters, and so are the ways a connection attempt, a read or a write
may fail. MessagePack is only assumed to unpack what it packed.

## What the code does that its documentation does not say

- A caller that sets the governance flag without a block gets a frame that never decodes to what was meant
  (`Frames.FrameRoundTrip` says exactly when). `to_frame_bytes` and `build_governance_block` add a length
  that `FrameEncoder.encode` adds again; such a block is parsed back as it was only if it already had an entry
  under tag 0 (`Governance.FramePrefixTwice`), and then it may be (`Governance.TagZeroExample`).
- Trace ids and quota tokens of the wrong length are padded with zeros or cut when they are written, a coloring tag
  of more than 255 bytes is cut, perhaps inside a character, an unknown tag from 1 to 4 arrives as the known one,
  and an unknown value of more than 65535 bytes is read as a shorter one and more entries. `Governance.ParseToBytes`
  says what arrives for every block, and `Governance.ComesBackExactly` which blocks come back as they were built.
- A read that times out leaves the connection open, but inside a payload it has lost the header: the frame is
  delivered later only if the timeout fell inside the header (`Connection.LateFrame`). A frame handler that raises
  ConnectionClosedError ends the read loop with the connection still open (`Connection.ServeDelivers`).
- The metadata of a frame may unpack to something that is no table; the decoder does not check. A response with such
  metadata is routed like any other. A push with such metadata, or with a body type that is a list or a table, makes
  the router raise, and the read loop closes the connection (`Router.RouterSeesAll`).
- The metadata stream determines its map exactly for the empty map and for one entry without NUL bytes; among maps
  without NUL bytes it tells all apart, and every map with a NUL in a key or a value collides with another
  (`MetadataHash.StreamSharedExactly`, `MetadataHash.StreamInjective`, `MetadataHash.NulBytesCollide`).
- A closed breaker is below its effective threshold throughout a run unless one of two kinds of event finds too many
  failures: backpressure, which lowers the threshold without checking it, and an error signal, which checks the
  failures but does not allow for backpressure (`BreakerBounds.RunBoundedExactly`). It is below its failure rate
  in every run exactly if its configuration meets a condition, because a success may carry the request total to the
  minimum without a check of the rate (`BreakerBounds.BelowRateExactly`); the default configuration meets it
  (`BreakerBounds.DefaultRateHolds`).
- A selection asks, and so spends a half-open permit of, every instance it considers, though it chooses one. Once
  the permits are spent nothing but the outcome of a request moves the breaker on, and no selection grants it a
  request (`StrandedBreakers.SelectionsStrand`, `StrandedBreakers.RegistryStaysStranded`).
- The effective weight stays in [0.001, declared] only for a declared weight of at least 0.001, because a
  metrics pack of zero skips the floor (`LoadBalancer.EffectiveWeightBounded`); for smaller ones an instance under
  load may weigh more than an idle one (`LoadBalancer.EffectiveWeightFalls`). The weight ignores the delay
  scale bit that docs/HMMP-SPECIFICATION.md:1440 defines.
- The collector sets its error flag at an error rate of exactly one half; docs/HMMP-SPECIFICATION.md:1438 asks for more.
- Two configuration keys may share a snapshot file, and then loading may return the other key's content: loading
  restores what was put exactly if no other key in use has the same file (`ConfigCache.RestoredExactly`), and
  names without '+', '/', '\' and '_' have a file each (`CacheKeys.FileNamesDiffer`).
- A request that fails to encode has spent its stream id, and a request may take the entry of one still waiting
  when the stream ids come round (`Router.LosesExactly` says exactly when).

## Model

| member | source | states |
|---|---|---|
| Wire.ValueOfUint | hmmp/codec.py:106-125 | a big-endian integer that fits its width reads back as itself |
| Wire.UintOfValue | hmmp/codec.py:32-50 | every byte string is the encoding of the integer it reads as |
| Wire.UintAt | hmmp/codec.py:32-50 | byte number i of a big-endian integer, counted from the front, is the value divided by 256 to the power of the bytes after it, modulo 256 |
| Wire.ValueSplits | hmmp/codec.py:106-125 | reading two parts is reading the first, shifted by the length of the second, and adding the second |
| Wire.TakePrefixedInverts | hmmp/codec.py:62-74 | a string shorter than its length prefix can count comes back, with any following bytes untouched |
| Wire.TakePrefixedSound | hmmp/codec.py:141-151 | whatever a length-prefixed read returns is what the writer would have written |
| Wire.TakeStringInverts | hmmp/codec.py:141-151 | the same for strings, on valid UTF-8 |
| Wire.Utf8Exactly | hmmp/codec.py:141-151 | the strings a reader accepts are exactly those that some sequence of code points, surrogates excluded, is written as |
| Codec.BinaryWriter.WriteUint | hmmp/codec.py:32-50 | appends the masked value and nothing else |
| Codec.BinaryWriter.WriteBytes | hmmp/codec.py:57-60 | appends the bytes |
| Codec.BinaryWriter.WriteString | hmmp/codec.py:62-74 | appends the masked length and the string |
| Codec.BinaryReader.ReadBytes | hmmp/codec.py:134-139 | takes exactly the bytes asked for, or fails and leaves nothing |
| Codec.BinaryReader.ReadByte | hmmp/codec.py:99-104 | takes one byte or fails |
| Codec.BinaryReader.ReadUint | hmmp/codec.py:106-125 | takes one integer or fails |
| Codec.BinaryReader.ReadString | hmmp/codec.py:141-151 | takes one string, or fails on a short read or invalid UTF-8 |
| Frames.HeaderRoundTrip | hmmp/frame.py:52-84 | a header that packs is 16 bytes and parses to itself, or is refused for a wrong magic number |
| Frames.FrameEncoder.Encode | hmmp/frame.py:159-218 | the frame bytes of the specification function, or the struct and packing errors |
| Frames.FrameDecoder.Decode | hmmp/frame.py:228-280 | decoding by offsets agrees with decoding by consecutive reads on every input, errors included, whatever the metadata unpacks to |
| Frames.FrameDecoder.DecodeBlock | hmmp/frame.py:242-252 | the governance part: the block exactly when the flag announces one, and the offset after it |
| Frames.FrameDecoder.DecodePayloadOnly | hmmp/frame.py:282-303 | the same for the payload alone |
| Frames.FrameRoundTrip | hmmp/frame.py:159-280 | an encoded frame decodes to its header, merged metadata, block and body if and only if no stray governance flag is set |
| FrameContents.FrameCarries | hmmp/frame.py:159-280 | every frame that encodes without a stray flag decodes to one with the stream id, the body, the block, the flag bits and exactly the metadata entries that were asked for, magic 0x5153, version 7, no padding and its own length |
| FrameContents.EncodesExactly | hmmp/frame.py:159-218 | encoding succeeds if and only if the metadata packs in fewer than 65536 bytes and the flags, the stream id and the length fit their fields |
| FrameContents.HeaderAtOffsets | hmmp/frame.py:62-84 | where each field of a header lies |
| FrameContents.HeaderOnWire | hmmp/frame.py:203-211 | the sixteen bytes every encoded frame starts with, stray flag or not |
| FrameContents.PayloadOnWire | hmmp/frame.py:190-218 | what follows them: the block behind four bytes of length, the metadata behind two, the body |
| Frames.DecodePayloadAgrees | hmmp/frame.py:228-303 | without a governance flag, decode_payload on the bytes after the header agrees with decode, errors included |
| Frames.PayloadRecovered | hmmp/frame.py:282-303 | on an encoded frame without a block, decode_payload recovers metadata and body even under a stray flag |
| Connection.HMMPConnection.ReadFrame | hmmp/connection.py:182-226 | one frame off the stream; the end of the stream and malformed bytes close the connection, a timeout leaves it open |
| Connection.ReadCloses | hmmp/connection.py:182-226 | a read that fails other than by a timeout closes the connection; one that delivers leaves it as it is |
| Connection.HMMPConnection.ReadFrameLoop | hmmp/connection.py:228-245 | the loop computes the specification of serving a stream: the calls of the handler and the state it leaves |
| Connection.ServeDelivers | hmmp/connection.py:182-245 | a handler, with a state of its own or without, is called with exactly the frames of the stream, in order, up to the first on which it raises; the connection ends closed with one call of the close handler unless that was a ConnectionClosedError |
| Connection.HearsAll | hmmp/connection.py:233-245 | the handler hears every frame if and only if it raises on none but perhaps the last |
| Connection.LateFrame | hmmp/connection.py:182-226 | of two reads of one connection the first times out inside a frame and leaves it open; when the rest has come the second delivers the frame if and only if the timeout fell inside the header |
| Connection.HMMPConnection.Connect | hmmp/connection.py:123-139 | connects only from DISCONNECTED; a timeout or an OSError changes nothing |
| Connection.HMMPConnection.Close | hmmp/connection.py:141-163 | ends DISCONNECTED without a reader, sets the closed event and calls the close handler once; on a closed connection nothing happens |
| Connection.HMMPConnection.SendFrame | hmmp/connection.py:169-180 | writes exactly the bytes, or closes the connection if the socket fails |
| Connection.HMMPConnection.NextStreamId | hmmp/connection.py:105-113 | the next id, wrapping to 1 |
| Connection.ReadOneExtends | hmmp/connection.py:182-226 | bytes that arrive after a complete frame do not change what it is read as |
| Connection.ReadAllResumes | hmmp/connection.py:182-245 | where a stream is cut does not matter: the parts deliver what the whole delivers |
| Connection.ReadOneEncoded | hmmp/connection.py:182-226 | an encoded frame is cut off the stream at its own end, whatever follows |
| Connection.StreamRoundTrip | hmmp/connection.py:182-245 | frames written back to back are read as exactly those frames with nothing left over, if and only if none has a stray governance flag |
| FrameContents.StreamCarries | hmmp/connection.py:182-245 | of frames written back to back, number i is read with the stream id and everything else that request number i asks |
| Connection.EncodedPrefixWaits | hmmp/connection.py:182-226 | no proper prefix of an encoded frame is taken for a frame or an error |
| Governance.FromBytes | hmmp/governance.py:131-162 | the parsing loop computes the specification parse; only a short read ends it quietly |
| Governance.WriteBlock | hmmp/governance.py:164-197 | the entries in the source's order, then the unknown tags in dictionary order |
| Governance.ParseNormal | hmmp/governance.py:131-162 | the shape of every parsed block |
| BlockMeaning.BlockMeans | hmmp/governance.py:42-162 | every field of a parsed block is what the last entry under its tag says, byte by byte, and the first faulty entry decides the error |
| BlockMeaning.BlockWritten | hmmp/governance.py:51-197 | how a block is written: the fields under tags 1 to 4 with their lengths, padded and cut, then the unknown tags |
| Governance.ParseToBytes | hmmp/governance.py:131-197 | for every block a caller builds: serialising fails exactly if a metric does not fit; parsing the result fails if the tag was cut inside a character, and otherwise gives the known fields as fitted and cut, with the unknown entries stored over them one after the other |
| Governance.ReceivedAsSent | hmmp/governance.py:131-197 | unknown tags outside 1 to 4 with values up to 65535 bytes arrive as they are, in any order |
| Governance.ComesBackExactly | hmmp/governance.py:131-197 | a block comes back as it was built if and only if it has the shape of a parsed block and a tag of at most 255 bytes |
| Governance.ParsingNormalises | hmmp/governance.py:131-197 | parse, serialise, parse changes nothing for any order of unknown tags, if and only if the tag has at most 255 bytes |
| Governance.ConcatenationMerges | hmmp/governance.py:131-162 | whole runs of entries concatenate as a last-wins merge, and the first error wins |
| Governance.IncompleteTailIgnored | hmmp/governance.py:143-160 | an entry cut short at the end changes nothing |
| Governance.FramePrefixTwice | hmmp/governance.py:199-202 | a block with its own length prefix, as the frame encoder would carry it, is parsed back as it was only if it has an entry under tag 0 |
| Governance.TagZeroExample | hmmp/governance.py:199-202 | one block with an entry under tag 0 is |
| GovernedFrames.GovernedFrameRoundTrip | hmmp/frame.py:195-280 | every block sent with to_bytes arrives in its frame and parses to what is received of it, to itself if and only if it has the shape of a parsed block and a tag of at most 255 bytes; an empty one arrives as none |
| FilterExpressions.WriteFilter | hmmp/models.py:449-468 | the recursive writer computes the specification encoding |
| FilterExpressions.LeafLayout | hmmp/models.py:449-459 | the bytes of a leaf |
| FilterExpressions.BranchLayout | hmmp/models.py:460-463 | the bytes of "and" and "or" |
| FilterExpressions.NotLayout | hmmp/models.py:464-466 | the bytes of "not" |
| FilterExpressions.DecodeEncoded | hmmp/models.py:449-468 | the decoder recovers any well-formed tree of any depth and leaves any suffix |
| FilterExpressions.DecodeSound | docs/HMMP-SPECIFICATION.md:669-699 | whatever decodes is well formed and re-encodes to the bytes used up |
| FilterExpressions.FilterRoundTrip | hmmp/models.py:449-468 | a tree comes back from its encoding if and only if it is well formed |
| FilterExpressions.EncodingsPrefixFree | hmmp/models.py:449-468 | no encoding is a prefix of another, and no two trees share one |
| Snapshots.ReadInstance | hmmp/models.py:94-112 | one array item by the specification read, errors included |
| Snapshots.InstanceAtOffsets | hmmp/models.py:94-112 | where each field of an instance lies |
| Snapshots.ReadEntries | hmmp/models.py:164-168 | the metadata loop of one instance |
| Snapshots.ReadItems | hmmp/models.py:160-169 | the loop over the instances |
| Snapshots.ServiceSnapshotFromBytes | hmmp/models.py:124-139 | the unfiltered parser |
| Snapshots.FilteredSnapshotFromBytes | hmmp/models.py:152-176 | the filtered parser, with or without metadata |
| Snapshots.DictOfHoldsLast | hmmp/models.py:165-168 | a repeated key keeps the value it came with last |
| Snapshots.FilteredSnapshotRoundTrip | hmmp/models.py:152-176 | parsing inverts the layout of section 6.6.8 for any counts, uses exactly its bytes and leaves any suffix |
| Snapshots.ServiceSnapshotRoundTrip | hmmp/models.py:124-139 | the same for the layout of section 6.5 |
| MetadataHash.ComputeFnv1a | hmmp/codec.py:200-206 | the hash loop computes the fold of the mixing step |
| MetadataHash.MixBijective | hmmp/codec.py:203-205 | each xor-and-multiply step is a bijection on 64-bit states |
| MetadataHash.AbsorbBijective | hmmp/codec.py:200-206 | so is hashing any fixed data |
| MetadataHash.Fnv1aDetectsOneByte | hmmp/codec.py:200-206 | changing any one byte changes the hash |
| MetadataHash.AscendingUnique | hmmp/codec.py:220-220 | there is one ascending list of a set of keys |
| MetadataHash.LessPrecedes | hmmp/codec.py:220-220 | the order of the keys is the bytewise one: a proper prefix first, or else the smaller byte at the first difference |
| MetadataHash.SortKeys | hmmp/codec.py:220-220 | every key once, in bytewise order at all positions, whatever the order they came in |
| MetadataHash.ComputeMetadataHash | hmmp/codec.py:209-228 | the hash depends only on the map, not on the order the dictionary was filled in |
| HashExample.MetadataHashExample | hmmp/codec.py:200-228 | the hash of the map from "b" and "aa" to empty strings, as a number, and that of nothing |
| MetadataHash.RecoverStream | hmmp/codec.py:221-226 | a NUL-free map is recovered from its stream |
| MetadataHash.StreamInjective | hmmp/codec.py:221-226 | two NUL-free maps have the same stream only if they are equal |
| MetadataHash.NulBytesCollide | hmmp/codec.py:221-228 | every map with a NUL inside a key or a value shares stream and hash with another map, one of UTF-8 strings if it is one itself |
| MetadataHash.StreamSharedExactly | hmmp/codec.py:221-226 | a map shares its stream with another, or among maps of UTF-8 strings with another of those, if and only if it has two entries or more, or a NUL inside a key or a value |
| MetadataHash.NulByteExample | hmmp/codec.py:221-228 | the smallest pair |
| MetadataHash.MetadataHashDetectsOneByte | hmmp/codec.py:209-228 | changing one byte of one value always changes the metadata hash |
| CircuitBreakers.CircuitBreaker.constructor | hmmp/circuit_breaker.py:76-88 | a new breaker is closed with nothing counted |
| CircuitBreakers.CircuitBreaker.TryAcquire | hmmp/circuit_breaker.py:111-137 | the answer and the whole new state of an acquire |
| CircuitBreakers.CircuitBreaker.RecordSuccess | hmmp/circuit_breaker.py:139-153 | the whole new state after a success |
| CircuitBreakers.CircuitBreaker.RecordFailure | hmmp/circuit_breaker.py:155-171 | the whole new state after a failure |
| CircuitBreakers.CircuitBreaker.OnRemoteErrorFlagSet | hmmp/circuit_breaker.py:173-187 | the whole new state after the error signal |
| CircuitBreakers.CircuitBreaker.OnRemoteErrorFlagCleared | hmmp/circuit_breaker.py:189-203 | the whole new state after the all-clear |
| CircuitBreakers.CircuitBreaker.OnBackpressure | hmmp/circuit_breaker.py:205-210 | only the backpressure flag changes |
| CircuitBreakers.CircuitBreaker.ComputeShouldTrip | hmmp/circuit_breaker.py:212-231 | trips on the rate, or on the count against the lowered threshold |
| CircuitBreakers.CircuitBreaker.Transition | hmmp/circuit_breaker.py:233-244 | what each transition resets |
| BreakerTransitions.AfterFailure | hmmp/circuit_breaker.py:155-231 | a failure opens a closed breaker if and only if the failures make the rate, once there are enough requests, or the threshold under the two signals, written out; otherwise it is counted |
| BreakerTransitions.AfterSuccess | hmmp/circuit_breaker.py:139-153 | a success takes one failure back, or counts towards recovery and completes it |
| BreakerTransitions.AfterAcquire | hmmp/circuit_breaker.py:111-137 | an acquire is granted while CLOSED, after the wait while OPEN, which it ends, and while permits are left in HALF_OPEN |
| BreakerTransitions.AfterSignals | hmmp/circuit_breaker.py:173-203 | what the error signal and the all-clear do in each state |
| BreakerTransitions.OpensExactly | hmmp/circuit_breaker.py:111-231 | in a run CLOSED turns OPEN at an event if and only if it is a failure that makes too many, or an error signal over half as many failures as the threshold |
| BreakerTransitions.ClosedCounts | hmmp/circuit_breaker.py:139-171 | while it stays closed a breaker counts every request, and failures less the successes that took one back |
| BreakerTransitions.RecoversExactly | hmmp/circuit_breaker.py:111-203 | after a trip the next acquire is granted if and only if the wait is over by then and there are permits, and OPEN is left exactly then or on an all-clear |
| CircuitBreakers.ClosedBelowThresholds | hmmp/circuit_breaker.py:155-231 | in every reachable state CLOSED is below the threshold, and below half of it under a remote error, if and only if the threshold is at least one |
| BreakerBounds.StepBounded | hmmp/circuit_breaker.py:155-224 | one event takes a breaker off its effective threshold if and only if it meets one of two guards: backpressure over too many failures, or an error signal under backpressure |
| BreakerBounds.RunBoundedExactly | hmmp/circuit_breaker.py:155-224 | in every state of a run CLOSED is below the effective threshold if and only if the threshold is at least one and no event meets a guard |
| BreakerBounds.BackpressureGivesNoBound | hmmp/circuit_breaker.py:205-224 | a run that meets the first guard |
| BreakerBounds.ErrorSignalLoosens | hmmp/circuit_breaker.py:173-224 | a run that meets the second guard |
| BreakerBounds.BelowRateExactly | hmmp/circuit_breaker.py:139-231 | CLOSED is below the failure rate in every state of every run if and only if the rate is positive and Min(m - 1, failureThreshold - 1) - 1 < rate * m, where m is the larger of minimumCalls and 1 |
| BreakerBounds.DefaultRateHolds | hmmp/circuit_breaker.py:50-62 | under the default configuration CLOSED is below the failure rate in every run |
| BreakerBounds.RateGivesNoBound | hmmp/circuit_breaker.py:139-153 | a run of a configuration that does not |
| StrandedBreakers.StaysStranded | hmmp/circuit_breaker.py:111-210 | half open without permits, a breaker stays so and grants nothing through every run without an outcome |
| StrandedBreakers.PassSpends | hmmp/load_balancer.py:130-142 | a pass takes one permit of a half-open breaker for each question, grants while permits are left, and changes nothing else |
| StrandedBreakers.SelectionSpends | hmmp/load_balancer.py:113-154 | a selection takes as many permits as both passes ask questions, though it chooses one instance |
| StrandedBreakers.StrandedNeverGranted | hmmp/load_balancer.py:130-142 | a stranded instance is never among the granted ones |
| StrandedBreakers.SelectionsStrand | hmmp/load_balancer.py:113-154 | through any selections without an outcome the breaker stays half open, stranded if and only if they asked as often as it had permits |
| StrandedBreakers.RegistryStaysStranded | hmmp/circuit_breaker.py:258-322 | a stranded breaker stays stranded through checks, other keys' outcomes and all snapshots |
| CircuitBreakers.NoGrantBeforeRelease | hmmp/circuit_breaker.py:111-203 | after a trip nothing is granted before the wait is over or the error is cleared |
| CircuitBreakers.StaysOpen | hmmp/circuit_breaker.py:111-203 | until then the breaker stays open with the time of its trip |
| CircuitBreakers.EpisodeLedger | hmmp/circuit_breaker.py:111-171 | in a half-open episode exactly min(attempts, permitted) acquires are granted, and successes are counted exactly |
| CircuitBreakers.SpentEpisodeRefuses | hmmp/circuit_breaker.py:134-137 | an acquire in an episode is granted exactly while permits are left, and never ends it |
| CircuitBreakers.EpisodeEnd | hmmp/circuit_breaker.py:139-171 | an episode ends only by an outcome: closed after exactly `permitted` successes and no failure, open by a failure |
| CircuitBreakers.ClosedOnlyThroughEpisode | hmmp/circuit_breaker.py:139-153 | CLOSED is entered only through such an episode |
| Instances.KeyInjective | hmmp/circuit_breaker.py:291-291 | address keys are injective, IPv6 included |
| Instances.KeyExample | hmmp/circuit_breaker.py:291-291 | how an address key looks |
| BreakerRegistry.CircuitBreakerRegistry.GetBreaker | hmmp/circuit_breaker.py:269-277 | creates a breaker exactly when there is none, and disturbs no other |
| BreakerRegistry.CircuitBreakerRegistry.OnServiceSnapshotUpdated | hmmp/circuit_breaker.py:279-301 | the loop signals each listed instance's breaker in turn and no other |
| BreakerRegistry.CircuitBreakerRegistry.IsInstanceAvailable | hmmp/circuit_breaker.py:303-309 | answers for, and changes, one breaker only |
| BreakerRegistry.CircuitBreakerRegistry.RecordSuccess | hmmp/circuit_breaker.py:311-316 | changes one breaker, if it exists |
| BreakerRegistry.CircuitBreakerRegistry.RecordFailure | hmmp/circuit_breaker.py:318-322 | changes one breaker, creating it if need be |
| BreakerRegistry.UpdateProjects | hmmp/circuit_breaker.py:279-301 | a snapshot creates nothing and reaches a key through its own instances, duplicates included |
| BreakerRegistry.SnapshotSetsFlag | hmmp/circuit_breaker.py:288-301 | after a snapshot the error flag of a breaker is bit 29 of what its instance, listed last, reports; an unlisted one is untouched |
| BreakerRegistry.UnfailedAvailable | hmmp/circuit_breaker.py:303-309 | an instance without a failure so far is always available |
| BreakerRegistry.BreakersDoNotInterfere | hmmp/circuit_breaker.py:258-322 | after any interleaving, a key's entry is a single breaker run on that key's history |
| MetricsPack.PackMetrics | hmmp/codec.py:231-261 | or-ing masked, shifted fields yields the sum of the fields in their places |
| MetricsPack.UnpackPack | hmmp/codec.py:231-276 | every field comes back cut to its width, whole exactly when it is in range |
| MetricsPack.PackUnpack | hmmp/codec.py:231-276 | every 32-bit word is what its fields pack to |
| MetricsPack.FieldPlaces | hmmp/codec.py:242-261 | the fields lie at bits 0, 5, 10, 20, 29, 30 and 31 |
| MetricsCollector.Collector.CollectMetricsPack | hmmp/metrics.py:76-112 | the word that holds the quantised and clipped readings and the two flags |
| MetricsCollector.Collector.RecordLatency | hmmp/metrics.py:137-148 | the field stays the moving average of all samples recorded |
| MetricsCollector.Collector.IncrementConnections | hmmp/metrics.py:116-121 | one more connection |
| MetricsCollector.Collector.DecrementConnections | hmmp/metrics.py:123-128 | the count never falls below zero |
| MetricsCollector.Collector.RecordRequest | hmmp/metrics.py:157-165 | counts requests and failures, never more failures than requests |
| MetricsCollector.Collector.ResetErrorCounters | hmmp/metrics.py:178-181 | forgets requests and failures, nothing else |
| MetricsCollector.Collector.SetErrorFlag | hmmp/metrics.py:167-169 | the override, which forces the flag on |
| MetricsCollector.Collector.SetPreheatFlag | hmmp/metrics.py:185-190 | the override, which decides the flag at any time |
| MetricsCollector.Collector.ComputeErrorFlag | hmmp/metrics.py:198-203 | the override, or at least half of the requests failed |
| MetricsCollector.PercentagesSurvive | hmmp/metrics.py:91-93 | a CPU or memory reading decodes to at most itself and less than 3.22 below, if and only if it lies in [0, 103.04) |
| MetricsCollector.CountsClip | hmmp/metrics.py:94-95 | counts clip exactly at 1023, floored delays at 511 if and only if the average is above -1 |
| MetricsCollector.AverageWithinSamples | hmmp/metrics.py:137-148 | the moving average lies between any bounds on its samples |
| MetricsCollector.AverageMoves | hmmp/metrics.py:137-148 | each sample takes the average three tenths of the way to itself, the first all the way |
| LoadBalancer.ClampsUnreachable | hmmp/load_balancer.py:179-214 | for every 32-bit pack the 0.05 floors and the branch above 1000 are unreachable |
| LoadBalancer.ScaledFalls | hmmp/load_balancer.py:156-235 | more load never raises the product of factors |
| LoadBalancer.EffectiveWeightBounded | hmmp/load_balancer.py:156-235 | the weight lies in [0.001, declared] for every pack if and only if the declared weight is at least 0.001 |
| LoadBalancer.EffectiveWeightFalls | hmmp/load_balancer.py:156-235 | more load never weighs more, across the zero-pack shortcut too, if and only if the declared weight is at least 0.001 |
| WeightFormula.WeightIs | hmmp/load_balancer.py:156-235 | the effective weight in closed form: the declared weight times one linear piece in each raw field, a tenth under the error bit and three tenths under the preheat bit, but at least 0.001 |
| WeightFormula.LoadsMultiply | hmmp/load_balancer.py:224-233 | what is left of a weight under all loads of a pack is the product of what is left under each alone |
| WeightFormula.ErrorWeighs | hmmp/load_balancer.py:219-219 | setting the error bit divides a weight by exactly ten, as far as the floor allows |
| WeightFormula.PreheatWeighs | hmmp/load_balancer.py:222-222 | setting the preheat bit leaves exactly three tenths |
| WeightFormula.LoadCosts | hmmp/load_balancer.py:179-214 | beyond its first knot every field costs weight with every step |
| WeightFormula.Knots | hmmp/load_balancer.py:179-214 | the values at the knots and at the ends |
| LoadBalancer.Select | hmmp/load_balancer.py:63-111 | the chosen position owns the draw; the fallbacks to a random choice and to the last instance are never reached |
| LoadBalancer.WeighHealthy | hmmp/load_balancer.py:78-92 | the healthy instances with their weights in order, and a positive total |
| LoadBalancer.Draw | hmmp/load_balancer.py:102-111 | the prefix-sum loop finds the owner of the draw |
| LoadBalancer.OwnerUnique | hmmp/load_balancer.py:102-111 | no draw has two owners |
| LoadBalancer.OwnedInterval | hmmp/load_balancer.py:102-111 | an instance's draws form an interval as long as its share of the weight |
| BreakerAwareSelection.SelectAvailable | hmmp/load_balancer.py:113-154 | none only on no instances; a granted healthy instance if the first pass grants any, else one the second pass grants, else the first, told from the oracle's answers alone; the draw among the granted is the weighted one, or the first granted if none is healthy |
| BreakerAwareSelection.PassAsksOnce | hmmp/load_balancer.py:130-142 | a pass asks once, in order, about the instances it considers |
| BreakerAwareSelection.PassGrantsYes | hmmp/load_balancer.py:130-142 | a pass asks the instances worth asking in order, leaves the state that the questions lead to, and grants exactly those answered yes |
| BreakerAwareSelection.GrantedExactly | hmmp/load_balancer.py:130-142 | a position is granted if and only if a question about it is answered yes |
| BreakerAwareSelection.DecisiveAnswers | hmmp/load_balancer.py:130-142 | the second pass happens exactly if no healthy instance was answered yes |
| BreakerAwareSelection.StatelessGrants | hmmp/load_balancer.py:130-142 | for answers without a state: exactly the healthy available instances, or all available ones if there are none |
| BreakerAwareSelection.QueriedAtMostTwice | hmmp/load_balancer.py:130-142 | no position is asked about more than twice |
| BreakerAwareSelection.TrippedNeverChosen | hmmp/load_balancer.py:113-154 | with the registry answering, an instance whose breaker is open and whose wait is over at none of the questions, each with its own reading of the clock, is never among the granted |
| Router.FrameRouter.RegisterRequest | hmmp/connection.py:274-279 | a fresh waiting future becomes the entry of its id |
| Router.FrameRouter.CancelRequest | hmmp/connection.py:281-286 | the entry leaves and its future is cancelled unless done |
| Router.FrameRouter.RouteFrame | hmmp/connection.py:314-337 | the handlers a frame is shown to, in order; a response settles the entry of its id and no other, a push settles none; it raises exactly on a push whose metadata is no table or whose body type is a list or table that is not empty |
| Router.HandlersReached | hmmp/connection.py:316-330 | all global handlers in order, and then the notification handler exactly of a push with a registered body type that is not zero |
| Router.RouterSeesAll | hmmp/connection.py:228-337 | behind the read loop the router sees every frame of the stream if and only if none but perhaps the last is such a push |
| Router.FrameRouter.FailAllPending | hmmp/connection.py:288-302 | every pending future fails unless done, and the map is empty |
| Router.SendRequest | hmmp/client.py:452-472 | an authenticated connection spends an id; a frame that encodes is registered and then written, one that does not leaves only the spent id |
| Router.CompletesAtMostOnce | hmmp/connection.py:254-337 | in every run, what a future is completed with never changes |
| Router.AnsweredByOwnFrame | hmmp/connection.py:332-337 | a future is answered only by an arrived frame of its own stream id, which is not 0 |
| Router.PushesChangeNoRun | hmmp/connection.py:322-330 | a run without its pushes reaches the same futures, entries and ids |
| Router.IdsCycle | hmmp/connection.py:105-113 | allocation k, counted from 1, has stream id ((k-1) mod (2^31-1))+1, and the futures are those of the allocations that were registered, in order |
| Router.IdsMeet | hmmp/connection.py:105-113 | two allocations share an id if and only if they are whole cycles apart |
| Router.RegisterLoses | hmmp/connection.py:274-279 | a registration loses a future exactly when it overwrites a waiting one |
| Router.LosesExactly | hmmp/connection.py:254-337 | on one connection no request is ever lost if and only if, at every send, no future is waiting that is a whole number of id cycles old |
| Router.PromptRunsLoseNone | hmmp/connection.py:254-337 | if every future is done within 2^31-1 allocations, no request is ever lost |
| Router.FutureMeetsFate | hmmp/connection.py:254-337 | as long as no request is lost, a waiting future is answered by the first frame that arrives under its id, unless it is cancelled, abandoned or failed before |
| Router.PendingExactly | hmmp/connection.py:254-337 | in every run an id is pending exactly if it was registered and has not been cancelled, answered or failed since |
| CacheKeys.Join3Injective | hmmp/cache.py:67-69 | '+'-free tenants and groups give distinct keys, whatever the service |
| CacheKeys.ConfigKeyInjective | hmmp/cache.py:165-170 | so do configuration names, whatever the tag |
| CacheKeys.KeyExamples | hmmp/cache.py:165-170 | how the keys look |
| CacheKeys.FileSharedExactly | hmmp/cache.py:262-264 | two keys share a file if and only if they differ only in which of '+', '/', '\' and '_' stands where |
| CacheKeys.FileNamesDiffer | hmmp/cache.py:165-264 | configurations named without those characters, '_' allowed in the tag, have a file each |
| CacheKeys.FileNamesCollide | hmmp/cache.py:262-264 | two distinct keys that share a file name |
| SnapshotCache.ServiceSnapshotCache.Get | hmmp/cache.py:71-82 | the held snapshot while it is young enough |
| SnapshotCache.ServiceSnapshotCache.Put | hmmp/cache.py:84-109 | accepted exactly when the version rises; the whole new state |
| SnapshotCache.ServiceSnapshotCache.Invalidate | hmmp/cache.py:111-115 | one key leaves |
| SnapshotCache.ServiceSnapshotCache.DetectMetadataHashChanges | hmmp/cache.py:117-133 | the latest hash per address is kept |
| SnapshotCache.HoldsFirstHighest | hmmp/cache.py:84-115 | under names with a key of their own the cache holds the first put since the last invalidation to reach the highest version |
| SnapshotCache.GetsFirstHighest | hmmp/cache.py:71-115 | a read returns that put's snapshot or nothing, by the age of the put alone |
| SnapshotCache.FaithfulExactly | hmmp/cache.py:67-115 | in every run over a set of names the cache holds under a name exactly its first highest put, if and only if no other of the names has its key; '+'-free tenants and groups are enough |
| SnapshotCache.NoticedExactly | hmmp/cache.py:117-133 | after a snapshot an address has the metadata hash it is listed with last, any other its own |
| ConfigCache.ConfigurationCache.Get | hmmp/cache.py:172-183 | the cached content while it is young enough |
| ConfigCache.ConfigurationCache.Put | hmmp/cache.py:185-198 | the whole new state, file included |
| ConfigCache.ConfigurationCache.Remove | hmmp/cache.py:200-206 | the key and its file leave |
| ConfigCache.ConfigurationCache.Invalidate | hmmp/cache.py:208-213 | the key leaves, its file stays |
| ConfigCache.ConfigurationCache.LoadFromSnapshot | hmmp/cache.py:220-240 | the file's content, restored to the cache |
| ConfigCache.RunsCoherent | hmmp/cache.py:165-240 | in every run the three dictionaries share one domain and every digest is true |
| ConfigCache.PutCaches | hmmp/cache.py:185-198 | a key just put is cached with that content, time and digest, and no other changes |
| ConfigCache.CacheHoldsLast | hmmp/cache.py:185-213 | without a directory the cache holds exactly what was put last and neither removed nor invalidated since |
| ConfigCache.CachedEqualsFile | hmmp/cache.py:165-269 | with the directory on and a file of its own, a key's cached value is its file's content |
| ConfigCache.FileHoldsLastPut | hmmp/cache.py:185-250 | the file holds the last value put, through every invalidation |
| ConfigCache.FileExactly | hmmp/cache.py:185-264 | a file of its own holds the last content put, is gone after a removal, and is as it was before the run otherwise |
| ConfigCache.LoadRestores | hmmp/cache.py:208-240 | loading after an invalidation restores the last value put |
| ConfigCache.SharedFileOverwrites | hmmp/cache.py:220-264 | for any two keys with one file and any contents, a put under the second is what loading the first returns |
| ConfigCache.RestoredExactly | hmmp/cache.py:165-264 | in every run over a set of keys loading restores the last value put, if and only if no other key of the set has the same file |
| ConfigCache.SafeNamesRestored | hmmp/cache.py:165-264 | over all keys named without '+', '/', '\' and '_' it always does |
| ConfigCache.SharedFileBreaksLoad | hmmp/cache.py:220-264 | the smallest pair of keys for which it does not |

## Left out

- `hmmp/client.py` except `_send_request`: connection orchestration, handshake, timers and tasks.
- `hmmp/admin.py`, `hmmp/backpressure.py`, `hmmp/interceptor.py`, `CanaryVersionVector`, `TrafficColorRouter`,
  `compute_weights`, the status dictionaries and the register and deregister writers: they would add easy members only.
- `hmmp/crypto.py`: foreign calls.
- The bytes inside MessagePack, and with them the order of the metadata entries; the conversion between IP text and
  raw octets; the value of the 32-bit float behind a weight, whose bits are kept.
- IEEE 754 rounding, NaN weights, reading /proc or psutil, logging, locks, sockets and file errors.
- CircuitBreakers.CircuitBreaker.TryAcquire: one clock reading stands for the two that an OPEN to HALF_OPEN
  transition makes; the second is never looked at, because only OPEN looks at the time of the last change.
- Connection.HMMPConnection.ReadFrame: one flag says whether the peer closes or stays silent after the bytes that
  arrive; how long each of the two reads waits is not modelled.
- Connection.HMMPConnection.ReadFrameLoop: a frame handler that itself closes the connection or reads from it is not
  modelled; neither is the cancellation of the reading task.
- Router.FrameRouter.RouteFrame: handlers only record their calls; what one raises is logged and changes nothing. A
  handler that registers or cancels requests while a frame is being routed is not modelled, nor are infinities, NaN
  and keys that are no strings in metadata.
- Router.SendRequest: it ends when the bytes are written; waiting for the answer is the events Arrive and Abandon.
- Router.PromptRunsLoseNone: one connection; a reconnect restarts the ids at 1 while the router keeps its entries.
- ConfigCache.ConfigurationCache.EnableSnapshotDir: one directory; switching to another one is not modelled.
- FilterExpressions.WriteFilter: Python's recursion limit.
