# ApoharaContextForge: verified core

A Dafny model of the numeric and state-keeping core of ApoharaContextForge, the layer that
lets several agents share, compress and evict KV-cache blocks. Each module follows one
source file, or a piece that several of them share. Code that updates state is modelled by
classes, arrays and loops; what it should compute is a separate specification, and the
lemmas are about that specification.

- `Vectors`, `Hadamard`, `Fwht`: entry-wise arithmetic, the recursively defined Hadamard
  matrix, and the in-place butterfly loops (both schedules) proved to multiply by it.
- `Arithmetic`, `BitOps`, `Rounding`, `Blocks`, `Int4`: division, bitwise operations, ties to
  even, whole blocks, and the coding of one value.
- `Padding`, `Grids`, `RotateKV`, `CodecV8`, `Sorting`, `PreRope`: padded buffers and masked
  reductions, the two INT4 block codecs over them, channel calibration, sink protection and the
  quantize / dequantize round trip.
- `StepGraph`: the three-colour cycle search and the depth recursion of the workflow graph.
- `NdArrays`, `TokenDance`: array shapes and broadcasting, and master and mirror storage. A
  ghost cache holds what each agent should get back.
- `Ledger`: the hash-chained file, its verification and its tamper evidence.
- `TokenMixing`, `SimHash`, `LshIndex`: three SimHash loops against one fingerprint, and the
  inverted index against brute force.
- `AnchorPool`, `VisualCache`, `VramCache`, `Maps`: three bounded caches, their victims and sums.
- `Queueing`: Welford statistics, the stability floor and the throttled eviction target.

The class invariant `Valid` is kept by every method, so it holds over every run. `Faithful`, that
mirrors reconstruct what is expected of them, is kept by every method but a new registration of
the master under its own id, where it survives exactly under `TokenDance.AllOutlive`.

## Conventions

- Tensors, scores, clocks and statistics are exact reals. Casts to float16 or float32 are the
  identity, votes are counted exactly, and the L2 norm is compared through its square. The
  parameter `root` stands for the square root of the padded length.
- Clock readings, the exponential decay factor, embeddings, VRAM pressure, block hashes
  passed to the anchor pool and the priority order of the step graph are parameters. SHA-256,
  canonical JSON and the JSON round trip of a payload are arbitrary functions; only the
  64-character hash length is assumed.
- An asynchronous method is one atomic step.
- Exceptions are result values. A loop that never ends in the source is the outcome
  `NeverReturns`, with the exact condition under which it arises.

## Where the code and its documentation differ

The model follows the code.

- Widths other than 4 code into 0..255 but store four bits. The half-scale bound then holds
  only for flat groups (`Int4.GroupRestoredIff`).
- A channel that is flat on a block can have a larger scale under V8 (1.0) than under V7
  (`CodecV8.OwnScaleAgainstPair`).
- The calibrated order covers heads times channels, so with several heads it is longer than
  the head dimension and indexing fails (`PreRope.LongOrderOverflows`).
- `_quantize_block` keeps the last document of a batch in V7 and the first in V8.
- The depth of an agent is not always its longest chain (`StepGraph.RevisitFallsShort`).
  `StepGraph.DepthIsLongestIff` says exactly when it is.
- A master registered again under its own id keeps mirrors that then drift
  (`TokenDance.ReplacedMasterDrifts`, `TokenDance.FaithfulAfterIff`), and whose reconstruction
  raises if the blocks changed shape (`TokenDance.ReshapedMasterRaises`); a mirror under the
  master's own id is never read back (`TokenDance.OwnNameMirror`), and a master without blocks
  accepts no mirror, because the norm of its blocks cannot be reshaped.
- A payload whose canonical form changes when it is written and parsed makes an honest ledger
  fail its own verification: integer keys are sorted as integers before writing and as text
  afterwards (`Ledger.IntKeysBreak`). So does any append behind a last line whose newline is
  missing (`Ledger.TornAppendBreaks`), although the file verified before.
- Indexing an agent again with a different text leaves stale owners
  (`LshIndex.ReindexKeepsInverse`).
- An agent's anchor list holds only the anchors it created, not those it later added an
  offset to.
- The visual cache evicts in last-touch order although it is described as least frequently
  used. It exceeds its budget when one item is larger than the budget, and its capacity loop
  does not end when the floor forbids the evictions it waits for.
- Clearing an agent that was indexed again leaves the matches of its stale hashes in place
  (`LshIndex.LSHTokenMatcher.ClearAgent`).
- The stability flag does not depend on the load (`Queueing.StableIsFloorOnly`). The guarantee
  described as never violated fails exactly when a needed eviction is throttled.
- An injective hash with outputs of fixed length cannot exist on all strings, so tamper
  evidence is stated as a concrete collision or a preimage of the genesis value.

## Model

| member | source | states |
|---|---|---|
| Hadamard.TransformIsMatVec | apohara_context_forge/quantization/fwht.py:7-12 | the divide-and-conquer butterfly equals, entry for entry, the product with the recursively defined +1/-1 matrix H_d |
| Hadamard.SignIsParity | apohara_context_forge/quantization/fwht.py:7-12 | row i and column j of H_d meet in -1 if and only if i and j have an odd number of one bits in common |
| BitOps.BitwiseAt | apohara_context_forge/quantization/rotate_kv.py:296 | bit k of an and (an or) is set if and only if it is set in both (in either) |
| Hadamard.TransformAdd | apohara_context_forge/quantization/fwht.py:7-12 | the transform of a sum of vectors is the sum of their transforms |
| Hadamard.TransformSub | apohara_context_forge/quantization/fwht.py:7-12 | the transform of a difference is the difference of the transforms |
| Hadamard.TransformTwice | apohara_context_forge/quantization/fwht.py:231-233 | applying the unnormalised transform twice multiplies every vector by d |
| Hadamard.TimesIsProduct | apohara_context_forge/quantization/fwht.py:7-12 | the repeated doubling used to write "d times" for a power of two d is multiplication by d |
| Hadamard.TransformEnergy | apohara_context_forge/quantization/fwht.py:7-12 | the unnormalised transform multiplies the sum of squares by exactly d |
| Fwht.NextPow2IsLeast | apohara_context_forge/quantization/fwht.py:43-46 | the padded length is a power of two, not below the row length, at most every other such power, and the row length itself when that is one |
| Fwht.GuardIsPow2 | apohara_context_forge/quantization/fwht_inplace.py:25-27 | d & (d - 1) == 0 accepts, among positive lengths, exactly the powers of two |
| Fwht.StageCopyBoth | apohara_context_forge/quantization/fwht.py:85-95 | overwriting both halves from copies performs the butterfly stage in every aligned run of 2h entries |
| Fwht.StageSingleClone | apohara_context_forge/quantization/fwht.py:73-81 | the schedule t = b; b = a; b -= t; a += t, with one half cloned, reaches the same array as the copying schedule at every stage |
| Fwht.StageDoublesRuns | apohara_context_forge/quantization/fwht.py:88-94 | when every aligned run of h entries holds the transform of its own inputs, a stage leaves every run of 2h holding its own |
| Fwht.Butterfly | apohara_context_forge/quantization/fwht.py:49-95 | on every power-of-two row, under either schedule, the in-place loop over h = 1, 2, 4, ... ends with exactly H_d x |
| Fwht.Pad | apohara_context_forge/quantization/fwht.py:179-186 | the row is followed by zeros only, up to the padded length |
| Fwht.FwhtRow | apohara_context_forge/quantization/fwht.py:159-193 | on every torch or numpy path, with or without the upcast, the result is as long as the least power of two not below the row, and each entry times the root of that length is the product of its row of H_d with the zero-padded input |
| Fwht.FwhtInPlace | apohara_context_forge/quantization/fwht_inplace.py:19-55 | succeeds exactly on power-of-two lengths, then leaves in the same array entries which times the root are the rows of H_d times the input; otherwise leaves the array alone |
| Fwht.FwhtSelfInverse | apohara_context_forge/quantization/fwht.py:231-233 | two results in that sense, one of the other, give the first input zero-padded to the least power of two, for every row |
| Fwht.FwhtPreservesEnergy | apohara_context_forge/quantization/fwht.py:159-186 | every result in that sense has the sum of squares of its input |
| Rounding.RintIsNearestEven | apohara_context_forge/quantization/rotate_kv.py:272-275 | an integer is the rounding of a real if and only if it is nearest, and even on a tie |
| Blocks.NoBlockIsEmpty | apohara_context_forge/quantization/codec_v8.py:157-159 | n_blocks is the ceiling of rows / group_size: a block is below it if and only if it holds a real row |
| Blocks.RowOfBlock | apohara_context_forge/quantization/rotate_kv.py:251-255 | cutting a row into block and place and flattening again gives the row |
| Blocks.BlockOfRow | apohara_context_forge/quantization/rotate_kv.py:386-391 | flattening a block and place and cutting again gives block and place |
| Blocks.BlockOfIsQuotient | apohara_context_forge/quantization/rotate_kv.py:386-391 | row t lies in block t // group_size at place t % group_size |
| Blocks.BlockStartIsProduct | apohara_context_forge/quantization/rotate_kv.py:251-255 | block b starts at row b * group_size |
| Blocks.RowHasBlock | apohara_context_forge/quantization/rotate_kv.py:370-371 | a row lies below the padded length if and only if its block exists |
| Padding.PadRows | apohara_context_forge/quantization/codec_v8.py:175-188 | the buffer holds the rows of each document and zeros behind them up to whole blocks, and the mask is true exactly on the real rows |
| Padding.MaskedMin | apohara_context_forge/quantization/rotate_kv.py:260-263 | None, the infinity, if and only if every place is masked; otherwise a value of an unmasked place that none of them is below |
| Padding.MaskedMax | apohara_context_forge/quantization/rotate_kv.py:260-264 | None, the infinity, if and only if every place is masked; otherwise a value of an unmasked place that none of them is above |
| Padding.MaskedGroup | apohara_context_forge/quantization/rotate_kv.py:260-280 | masked extremes, the flat-block scale and the empty-group sentinel together give exactly the scale and zero point calibrated on the unmasked values, whenever there is one |
| Padding.MaskedJoint | apohara_context_forge/quantization/rotate_kv.py:258-264 | the same when two channels are reduced together |
| Padding.ColumnIsChannel | apohara_context_forge/quantization/codec_v8.py:198-203 | for every existing block, what the mask leaves of a buffered channel is exactly what the real rows of this document and channel hold |
| Int4.CodeError | apohara_context_forge/quantization/rotate_kv.py:269-292 | rounding the zero point, rounding ties to even, clipping and the scale 1.0 of flat groups together never move a value by more than half a scale, at any width |
| Int4.GroupScaleFits | apohara_context_forge/quantization/rotate_kv.py:236-275 | from the least and greatest value alone: scale * 15 (width 4) or scale * 255 is their distance, the scale of a flat group is 1, and minus the zero point is the integer nearest to least / scale, ties to even |
| Int4.HalfScaleIsTolerance | apohara_context_forge/quantization/rotate_kv.py:236-275 | at width 4 half a scale is a thirtieth of the range of the group, and of a flat group at any width a half |
| Int4.PackedFits | apohara_context_forge/quantization/rotate_kv.py:284-296 | each nibble of a byte is the integer nearest to its value / scale + zero point, ties to even, clipped to the width and cut to four bits |
| Int4.WideCodeLosesTop | apohara_context_forge/quantization/rotate_kv.py:236-296 | with a width other than 4 the largest value of a group that is not flat loses the half-scale bound to the 4-bit mask |
| Int4.GroupRestoredIff | apohara_context_forge/quantization/rotate_kv.py:236-300 | every value of a group comes back within half a scale if and only if the width is 4 or the group is flat |
| Int4.OwnScaleAtMostJoint | apohara_context_forge/quantization/codec_v8.py:195-208 | the own scale of a part of a group is at most the joint scale if and only if the part is not flat, or the whole is flat or at least the code range wide |
| Int4.UnpackTwo | apohara_context_forge/quantization/rotate_kv.py:294-296 | both nibbles of a packed byte are read back as they were coded |
| Int4.PackIsBitwise | apohara_context_forge/quantization/rotate_kv.py:296 | the byte the codecs build from two codes is the union of the low masked code and the high masked code shifted by four |
| Int4.UnpackIsBitwise | apohara_context_forge/quantization/rotate_kv.py:373-375 | the nibbles the codecs read are byte & 0xF and (byte >> 4) & 0xF, for every byte |
| RotateKV.QuantizeBlock | apohara_context_forge/quantization/rotate_kv.py:221-306 | padding, masked joint reductions, coding of every buffered row and clearing by the mask leave the quantization of the last document of the batch; every stored scale and zero point fits the range of the real values of its block and pair in the sense of Int4.GroupScaleFits |
| RotateKV.CalibratedIsParams | apohara_context_forge/quantization/rotate_kv.py:258-280 | the joint masked reductions over the padded buffer give the scale and zero point of the document's own rows, for every block and pair |
| RotateKV.CodedIsBytes | apohara_context_forge/quantization/rotate_kv.py:284-300 | coding every buffered row and multiplying by the mask stores the codes of the real rows and 0 for padding |
| RotateKV.ByteFits | apohara_context_forge/quantization/rotate_kv.py:284-300 | every stored byte of a real row holds the nearest, clipped and masked codes of its two channels under the stored scale and zero point, and every byte of padding is 0 |
| RotateKV.DequantizeBlock | apohara_context_forge/quantization/rotate_kv.py:356-391 | in block coordinates: at row block * group_size + place, channel 2d is (low nibble - zero) * scale and channel 2d + 1 is (high nibble - zero) * scale of the byte and pair stored there |
| RotateKV.RestoredRows | apohara_context_forge/quantization/rotate_kv.py:385-391 | read by row, row t comes from block t // group_size and channel c from the nibble that coded it, over the whole padded length |
| RotateKV.PairReadBackIff | apohara_context_forge/quantization/rotate_kv.py:221-391 | quantizing and dequantizing gives every real row of a pair back within half its scale if and only if the width is 4 or the pair is flat on the block |
| RotateKV.PairErrorBound | apohara_context_forge/quantization/rotate_kv.py:221-391 | at width 4 every real entry of a pair comes back within a thirtieth of the range of its pair on the block, and of a flat pair within a half |
| Grids.Interleave | apohara_context_forge/quantization/rotate_kv.py:385-387 | channel 2d of the joined grid is entry d of the low grid, channel 2d + 1 that of the high grid |
| Grids.Flatten | apohara_context_forge/quantization/rotate_kv.py:389-391 | place i of a block lands at row block * group_size + i |
| RotateKV.ReadBackIsCoded | apohara_context_forge/quantization/rotate_kv.py:221-391 | what is read for a real row and channel is exactly the nibble and parameters coded for it, never those of padding or of another block or pair |
| RotateKV.PairComesBackIff | apohara_context_forge/quantization/rotate_kv.py:258-300 | both channels of a pair come back within half their scale on every real row of a block if and only if the width is 4 or the pair is flat there |
| PreRope.RotateKVQuantizer.Calibrate | apohara_context_forge/quantization/rotate_kv.py:71-110 | the stored order is a permutation of the flattened channels that lists them by non-decreasing magnitude over the first samples |
| PreRope.MagnitudeAt | apohara_context_forge/quantization/rotate_kv.py:97-103 | the magnitude of channel c of head h stands at h * head_dim + c and is the sum of absolute values down its column |
| PreRope.RotateKVQuantizer.QuantizePreRope | apohara_context_forge/quantization/rotate_kv.py:112-219 | fails if and only if the order is longer than the head dimension; otherwise sinks hold the first rows as they are and the rest is quantized, keys under the order, values in place |
| PreRope.RotateKVQuantizer.Dequantize | apohara_context_forge/quantization/rotate_kv.py:308-354 | succeeds if and only if the sinks carry one document; every output entry is the stored one of the channel that the inverse order names |
| PreRope.SplitAndPack | apohara_context_forge/quantization/rotate_kv.py:170-197 | sink and body together hold every row of the input under the channel order, the body quantized |
| PreRope.RestoreStates | apohara_context_forge/quantization/rotate_kv.py:341-346 | sink rows come first, then the rows of the flattened blocks |
| PreRope.LongOrderOverflows | apohara_context_forge/quantization/rotate_kv.py:159-161 | a permutation indexes past the head dimension if and only if it is longer than it |
| PreRope.InverseIsPermutation | apohara_context_forge/quantization/rotate_kv.py:349-352 | argsort of the stored order is a permutation that undoes it on both sides |
| PreRope.SinkComesBack | apohara_context_forge/quantization/rotate_kv.py:159-177 | after a round trip under any order every sink entry is at its own row, head and channel, unchanged |
| PreRope.BodyComesBack | apohara_context_forge/quantization/rotate_kv.py:340-391 | after a round trip under any order every body entry is at its own row, head and channel, read from block t // group_size, and within half its scale at width 4 |
| PreRope.PairBackIff | apohara_context_forge/quantization/rotate_kv.py:112-354 | all entries coded as one pair of a block are within half its scale after the round trip, under any channel order, if and only if the width is 4 or the pair is flat there |
| PreRope.RotateKVQuantizer.RoundTrip | apohara_context_forge/quantization/rotate_kv.py:112-354 | for a single document, quantize_pre_rope and dequantize together fail if and only if the calibrated order is too long, and otherwise return every key and value at its own place, sinks exactly and all others, at width 4 or in a flat pair, within a thirtieth of the range of their pair on the block (a half if it is flat); each pair of key channels of a block comes back within half its scale if and only if the width is 4 or the pair is flat there |
| Sorting.ArgsortSorts | apohara_context_forge/quantization/rotate_kv.py:104-105 | an index sort is a permutation that lists values in non-decreasing order |
| Sorting.ArgsortInverts | apohara_context_forge/quantization/rotate_kv.py:349-352 | any index sort of a permutation, however it breaks ties, is its two-sided inverse |
| CodecV8.QuantizeBatched | apohara_context_forge/quantization/codec_v8.py:133-244 | padding, masked reductions per channel, coding of every buffered row and clearing by the mask leave for each document the scale, zero point and codes of its own real rows; every stored scale and zero point fits the range of its document, block and channel in the sense of Int4.GroupScaleFits |
| CodecV8.CalibratedIsBatchParams | apohara_context_forge/quantization/codec_v8.py:195-215 | the masked reductions over the batch buffer give each channel of each document the scale and zero point of its own real rows: neither padding nor another document enters |
| CodecV8.CodedIsBatchBytes | apohara_context_forge/quantization/codec_v8.py:217-240 | coding every buffered row and multiplying by the mask stores the codes of each document's real rows and 0 for padding |
| CodecV8.BatchByteFits | apohara_context_forge/quantization/codec_v8.py:217-240 | every stored byte of a real row holds the nearest, clipped and masked codes of its two channels, each under its own stored scale and zero point, and every byte of padding is 0 |
| CodecV8.QuantizeBlock8 | apohara_context_forge/quantization/codec_v8.py:97-131 | returns the quantization of the first document of the batch, its scales and zero points fitting the range of their block and channel |
| CodecV8.BatchIsStack | apohara_context_forge/quantization/codec_v8.py:149-151 | whatever the other documents hold, the bytes of a document in a batch equal those of quantizing it alone, and padded rows are 0 |
| CodecV8.BatchParamsAreStack | apohara_context_forge/quantization/codec_v8.py:149-151 | scales and zero points of a document in a batch equal those of quantizing it alone |
| CodecV8.DequantizeBlock8 | apohara_context_forge/quantization/codec_v8.py:247-282 | in block coordinates: channels 2d and 2d + 1 are the low and the high nibble of the stored byte, each restored under its own zero and scale |
| CodecV8.RestoredRows8 | apohara_context_forge/quantization/codec_v8.py:279-282 | read by row, row t comes from block t // group_size and channel c from the nibble that coded it |
| CodecV8.ChannelReadBackIff | apohara_context_forge/quantization/codec_v8.py:133-282 | quantizing and dequantizing gives every real row of a channel back within half its own scale if and only if the width is 4 or the channel is flat on the block |
| CodecV8.ChannelErrorBound | apohara_context_forge/quantization/codec_v8.py:133-282 | at width 4 every real entry of a channel comes back within a thirtieth of its own range on the block, and of a flat channel within a half |
| CodecV8.ReadBackIsCoded8 | apohara_context_forge/quantization/codec_v8.py:195-282 | what is read for a real row and channel is exactly what was coded for that block and channel |
| CodecV8.ChannelComesBackIff | apohara_context_forge/quantization/codec_v8.py:195-240 | a channel comes back within half its own scale on every real row of a block if and only if the width is 4 or the channel is flat there |
| CodecV8.OwnScaleAgainstPair | apohara_context_forge/quantization/codec_v8.py:195-208 | on the same block the V8 scale of a channel is at most the V7 scale of its pair if and only if the channel is not flat, or the pair is flat or at least the code range wide |
| StepGraph.Dfs | apohara_context_forge/scheduling/step_graph.py:124-134 | from any reachable colouring, on every finite graph, the search ends; it raises only on a cycle, and otherwise finishes the node with all its dependencies finished before it |
| StepGraph.SearchAll | apohara_context_forge/scheduling/step_graph.py:136-138 | over any order of the keys, raises if and only if the graph has a cycle |
| StepGraph.AgentStepGraph.ValidateDag | apohara_context_forge/scheduling/step_graph.py:118-138 | raises if and only if the depends_on relation has a cycle, including self-loops and names outside the graph |
| StepGraph.NoCycleWhenDone | apohara_context_forge/scheduling/step_graph.py:118-138 | when every agent is finished after all its dependencies, no cycle exists |
| StepGraph.ComputeDepth | apohara_context_forge/scheduling/step_graph.py:72-85 | terminates on every graph, cyclic or not, with the depth and visited set of the specification |
| StepGraph.VisitsReached | apohara_context_forge/scheduling/step_graph.py:72-83 | a call adds to the shared visited set exactly what its agent reaches, provided everything behind a visited agent is visited, as it is on the first call and for each dependency in turn |
| StepGraph.SiblingsVisit | apohara_context_forge/scheduling/step_graph.py:80-83 | the dependencies handled so far, with the agent itself, have added exactly what they reach |
| StepGraph.DepthIsFirst | apohara_context_forge/scheduling/step_graph.py:65-87 | on a validated graph the depth found is that of an actual chain of the agent, hence never above the longest, and this chain is the first way in listing order to where it ends |
| StepGraph.FirstIsCounted | apohara_context_forge/scheduling/step_graph.py:65-87 | on a validated graph no chain that is the first way in listing order to where it ends is deeper than the depth found |
| StepGraph.DepthIsLongestIff | apohara_context_forge/scheduling/step_graph.py:65-87 | on every validated graph the depth found is the longest if and only if some deepest chain is the first way, in listing order, to where it ends |
| StepGraph.DepthIsLongest | apohara_context_forge/scheduling/step_graph.py:65-87 | on a validated graph, when every reachable agent is reached by exactly one chain, the depth found is the longest |
| StepGraph.RevisitFallsShort | apohara_context_forge/scheduling/step_graph.py:73-74 | on an acyclic graph where a dependency is also reached directly first, the depth found is 2 while a chain of depth 3 exists |
| StepGraph.AgentStepGraph.StepsToIs | apohara_context_forge/scheduling/step_graph.py:49-87 | the answer is the largest machine integer for an unknown agent, 0 for a started one, and otherwise the greatest depth among the actual chains of the agent that are first ways, one of which has it |
| StepGraph.AgentStepGraph.AddStep | apohara_context_forge/scheduling/step_graph.py:43-47 | a step added again under its id replaces the old one at its old place but is listed a second time |
| StepGraph.AgentStepGraph.ComputeStepsToExecution | apohara_context_forge/scheduling/step_graph.py:49-87 | raises if and only if the graph is cyclic; otherwise maxsize for unknown agents, 0 for started ones, else the depth of an actual chain that no first way exceeds |
| StepGraph.AgentStepGraph.GetEvictionPriorityOrder | apohara_context_forge/scheduling/step_graph.py:103-116 | every listed step once, by non-increasing steps to execution, ties in listing order, the steps to execution being those of actual chains; raises if and only if the graph is cyclic |
| TokenDance.TokenDanceStorage.RegisterMaster | apohara_context_forge/storage/token_dance.py:83-97 | rejects fewer than two axes and changes nothing; another id drops all mirrors; the own id keeps them, and the storage stays faithful if and only if every mirror outlives the change: same array shape, stored blocks unmoved, all others within the threshold |
| TokenDance.TokenDanceStorage.RegisterMirror | apohara_context_forge/storage/token_dance.py:99-129 | succeeds if and only if there is a master with a block and of this shape; stores for the agent only exactly the blocks whose delta has a sum of squares above the squared threshold, each with its delta; keeps every other reconstruction faithful; what is then reconstructed stands for the registered blocks, under the master's own name if and only if no block would have been stored |
| TokenDance.TokenDanceStorage.Reconstruct | apohara_context_forge/storage/token_dance.py:131-144 | exactly the result or error of adding the kept difference into the master by numpy's rules; in every faithful state an array of the expected shape that equals the agent's registered and appended blocks at stored indices and, for a threshold that is not negative, differs everywhere else by a sum of squares of at most the squared threshold |
| TokenDance.AddedAsIs | apohara_context_forge/storage/token_dance.py:140-144 | a difference without indices, or taken against blocks of the master's shape, is added as it is and never raises |
| NdArrays.SpreadItself | apohara_context_forge/storage/token_dance.py:143 | blocks added to blocks of their own shape are not changed by broadcasting |
| NdArrays.BroadcastsIff | apohara_context_forge/storage/token_dance.py:143 | arrays broadcast if and only if every axis of the one added, counted from the end, has length 1 or that of the other array |
| NdArrays.SourceOf | apohara_context_forge/storage/token_dance.py:143 | broadcasting reads within the array that is added, for every place of the array it is added to |
| NdArrays.SourceOfItself | apohara_context_forge/storage/token_dance.py:143 | arrays of one shape are added place by place |
| NdArrays.SourceIndex | apohara_context_forge/storage/token_dance.py:143 | broadcasting reads index 0 on every axis of length 1 and the index it is paired with on every other |
| NdArrays.VolumeCons | apohara_context_forge/storage/token_dance.py:115-123 | an array of k blocks holds k times the numbers of one block |
| TokenDance.TokenDanceStorage.CollectiveReuseStep | apohara_context_forge/storage/token_dance.py:158-210 | fails and changes nothing unless the blocks concatenate; otherwise the master grows once, every mirror keeps its differences, the counts are those stored, and faithfulness is kept |
| TokenDance.TokenDanceStorage.CompressionRatio | apohara_context_forge/storage/token_dance.py:146-156 | full blocks of all agents over blocks actually stored, 1 without a master, and in every faithful state with a nonempty master between 1 and the number of agents |
| TokenDance.DiffIndicesAre | apohara_context_forge/storage/token_dance.py:113-118 | stored indices are strictly increasing and are exactly the blocks whose delta has a sum of squares above the squared threshold, or all if the threshold is negative |
| TokenDance.DiffStoresExactly | apohara_context_forge/storage/token_dance.py:113-129 | the same of a stored difference, with every stored value the delta of its block |
| TokenDance.DiffIsFaithful | apohara_context_forge/storage/token_dance.py:113-129 | a fresh difference reconstructs the registered blocks: equal where stored, within the threshold elsewhere |
| TokenDance.FaithfulIsWithin | apohara_context_forge/storage/token_dance.py:113-144 | what a faithful difference reconstructs differs at each block that is not stored by a sum of squares of at most the squared threshold |
| TokenDance.PatchAt | apohara_context_forge/storage/token_dance.py:140-144 | adding the stored values changes exactly the stored indices, each once |
| TokenDance.ExtendedStaysFaithful | apohara_context_forge/storage/token_dance.py:182-208 | appending shared blocks to the master extends every faithful reconstruction by exactly them |
| TokenDance.AllStayFaithful | apohara_context_forge/storage/token_dance.py:186-209 | one reuse step keeps every mirror faithful at once, agents new to the step included |
| TokenDance.ReplacedMasterDrifts | apohara_context_forge/storage/token_dance.py:93-97 | for any new master, of whatever shape, the reconstruction of a kept mirror is unchanged if and only if the master is; with the shape kept every reconstructed block moves by exactly as much as its master block |
| TokenDance.FaithfulAfterIff | apohara_context_forge/storage/token_dance.py:93-97 | a mirror kept across a new registration of its master stays faithful if and only if the array shape is kept, stored blocks of the master are unchanged, and every other new block is within the threshold of what the mirror wants |
| TokenDance.AllFaithfulAfterIff | apohara_context_forge/storage/token_dance.py:93-97 | the same for all mirrors at once |
| TokenDance.MovedMasterBreaks | apohara_context_forge/storage/token_dance.py:93-97 | a concrete faithful mirror that is no longer faithful after its master registers a moved block |
| TokenDance.ReshapedMasterRaises | apohara_context_forge/storage/token_dance.py:93-97 | a master of shape (1, 2, 3) registered again with the same six numbers as (1, 6): reconstructing a mirror that stores its block raises ValueError |
| TokenDance.StandsForIff | apohara_context_forge/storage/token_dance.py:113-118 | a master stands for other blocks if and only if none of them would be stored in a difference |
| TokenDance.OwnNameLoses | apohara_context_forge/storage/token_dance.py:131-136 | concrete blocks that reconstruct no longer represents when they are registered under the master's name |
| TokenDance.RatioInRange | apohara_context_forge/storage/token_dance.py:146-156 | with a nonempty master and fitting differences the compression ratio lies between 1 and the number of agents |
| TokenDance.RatioIs | apohara_context_forge/storage/token_dance.py:146-156 | the ratio times the blocks stored is the blocks of all agents; with none stored it is the number of agents |
| Ledger.Scheme.HeadIsDigest | apohara_context_forge/observability/ledger.py:43-61 | the head of an intact file is the chained digest of the payloads it records, one per line that is not blank |
| Ledger.Scheme.IntactIff | apohara_context_forge/observability/ledger.py:43-61 | a file is intact if and only if every line that is not blank is an entry whose prev_hash is the last entry_hash before it (64 zeros for the first) and whose entry_hash is the hash of that followed by its canonical payload |
| Ledger.Scheme.LastHashIsHead | apohara_context_forge/observability/ledger.py:21-33 | on an intact file _last_hash is the head that verify reports |
| Ledger.Scheme.LastHashIs | apohara_context_forge/observability/ledger.py:21-33 | in any file, intact or not, _last_hash is the entry_hash of the last line that holds one, and 64 zeros if none does |
| Ledger.Scheme.BrokenSomewhere | apohara_context_forge/observability/ledger.py:43-61 | a file that is not intact breaks at exactly one line |
| Ledger.Scheme.AppendKeepsIntact | apohara_context_forge/observability/ledger.py:35-61 | an append to an intact file keeps it intact if and only if the file does not end within a line and the payload is hashed the same after being written and parsed (its canonical form survives, or the two inputs collide); otherwise the line written to is the break |
| Ledger.Scheme.ReproducesIsSameHash | apohara_context_forge/observability/ledger.py:13-14 | the entry hash of the payload as given and as read back agree if and only if the canonical form survives or the two inputs collide |
| Ledger.Scheme.AppendKeepsBreak | apohara_context_forge/observability/ledger.py:35-61 | no append, not even one onto an unterminated last line, repairs a break or moves it |
| Ledger.Scheme.SameHeadSameHistory | apohara_context_forge/observability/ledger.py:10-14 | two histories with the same digest are the same, or two of their own hash inputs differ and collide, or one of them hashes to the genesis value |
| Ledger.VerifiedFilesAgree | apohara_context_forge/observability/ledger.py:43-61 | two files that verify with the same head record the same payloads or exhibit such a collision or preimage; with equal entry counts only a collision remains |
| Ledger.RunVerifies | apohara_context_forge/observability/ledger.py:35-61 | a run of appends to any intact file leaves it intact if and only if nothing is appended, or the file does not end within a line and every payload is hashed the same when it is read back; it then records the reloaded payloads behind those it held, and its head chains them to the head it had |
| Ledger.HeadAfterIsDigest | apohara_context_forge/observability/ledger.py:10-14 | the head after a run is the digest of the earlier and the appended history together |
| Ledger.RunBreaksAt | apohara_context_forge/observability/ledger.py:43-61 | otherwise, on a file that does not end within a line, verify reports the line of the first payload that is not |
| Ledger.TornRunBreaks | apohara_context_forge/observability/ledger.py:35-61 | a run of appends to an intact file that ends within a line breaks it at that line |
| Ledger.TornAppendBreaks | apohara_context_forge/observability/ledger.py:39-40 | a file of one entry without its newline verifies, and breaks at line 0 under an append of any payload |
| Ledger.IntKeysReordered | apohara_context_forge/observability/ledger.py:10-11 | keys 2 and 10 are in integer order in the canonical form of a dictionary and in text order in that of the same dictionary read back, whatever the values and however strings are escaped |
| Ledger.IntKeysBreak | apohara_context_forge/observability/ledger.py:35-61 | appending {2: a, 10: b} to an empty ledger leaves it broken at line 0, under every hash that tells the two forms apart |
| Ledger.LedgerFile.ReadLastHash | apohara_context_forge/observability/ledger.py:21-33 | the entry_hash of the last line that holds one, corrupt and blank lines skipped, 64 zeros if none |
| Ledger.LedgerFile.Append | apohara_context_forge/observability/ledger.py:35-41 | writes one entry whose prev_hash is the last entry_hash of the file and whose entry_hash is the hash of that and the canonical payload, as it will be read back, onto the last line if that lacks its newline; an intact file stays intact if and only if it does not end within a line and the payload is hashed the same then, and a broken file stays broken at the same line |
| Ledger.LedgerFile.Verify | apohara_context_forge/observability/ledger.py:43-61 | valid if and only if the whole file chains, with the number and digest of its payloads; otherwise the one breaking line and what verifies before it |
| TokenMixing.MixRoundFits | apohara_context_forge/dedup/lsh_engine.py:247-251 | no left shift of a mixing round loses a bit of a 32-bit value in a 64-bit word, and the masked result fits in 32 bits again |
| TokenMixing.MixedValues | apohara_context_forge/dedup/lsh_engine.py:244-251 | the four mixing rounds on the token ids 0, 1 and 2^32 - 1, as numbers |
| SimHash.VotingSimhash | apohara_context_forge/dedup/lsh_engine.py:228-268 | the per-bit voting loops, at any width, set bit i exactly when tokens with mixed bit i mod 32 set are a strict majority |
| SimHash.FingerprintBits | apohara_context_forge/dedup/lsh_engine.py:228-268 | bit i of a fingerprint of n bits is set if and only if more than half of the token positions have bit i mod 32 of their mixed value set; no higher bit is set |
| SimHash.UnionBits | apohara_context_forge/kv_offset/anchor_pool.py:309-314 | or-ing bit i shifted by i, one after the other, gives the number with exactly these bits |
| BitOps.UnionIsSum | apohara_context_forge/kv_offset/anchor_pool.py:310-312 | a number below 2^k or-ed with one shifted by k is their sum |
| BitOps.LowBits | apohara_context_forge/quantization/rotate_kv.py:296 | and-ing with k ones keeps the remainder by 2^k |
| SimHash.VectorSimhash | apohara_context_forge/embeddings/embedding_engine.py:261-281 | the vectorised form returns the same fingerprint as the voting loops on every token sequence, empty ones included |
| SimHash.BytesArePack | apohara_context_forge/embeddings/embedding_engine.py:279-281 | packing bits little-endian into bytes and reading the bytes little-endian gives the number with exactly these bits |
| SimHash.OrderIsIrrelevant | apohara_context_forge/dedup/lsh_engine.py:228-268 | token sequences that are permutations of each other have the same fingerprint |
| SimHash.HalvesAgree | apohara_context_forge/embeddings/embedding_engine.py:276-281 | the high and the low 32 bits of a 64-bit fingerprint are always equal |
| SimHash.DistanceIsEven | apohara_context_forge/dedup/lsh_engine.py:91-94 | the distance of two 64-bit fingerprints is twice that of their 32-bit halves, hence even |
| SimHash.HammingIsMismatches | apohara_context_forge/dedup/lsh_engine.py:91-94 | the bit count of the exclusive or is the number of positions in which two bit strings differ |
| SimHash.HammingCounts | apohara_context_forge/dedup/lsh_engine.py:91-94 | the distance of two numbers is the number of bit positions in which they differ |
| Sorting.SortByIsStable | apohara_context_forge/dedup/lsh_engine.py:201-203 | the sort is a permutation in key order that keeps entries of equal key in their order |
| LshIndex.LSHTokenMatcher.IndexPrompt | apohara_context_forge/dedup/lsh_engine.py:96-139 | adds the agent as owner of exactly the fingerprints of tokens i * block_size to (i + 1) * block_size, for each i below len // block_size, and replaces its list; the store stays the inverse of the lists if and only if no hash of a replaced list is missing from the new one |
| LshIndex.WholeBlocksAre | apohara_context_forge/dedup/lsh_engine.py:119-124 | a prompt has len // block_size blocks, the i-th being its tokens from i * block_size to (i + 1) * block_size |
| LshIndex.LSHTokenMatcher.PromptHashesAre | apohara_context_forge/dedup/lsh_engine.py:119-139 | the hashes of a prompt are the fingerprints of exactly these blocks, in order |
| LshIndex.LSHTokenMatcher.OwnerMatches | apohara_context_forge/dedup/lsh_engine.py:176-199 | each owner of a hash that is not excluded, by name or as a role of the excluded agent, is matched exactly once |
| LshIndex.ExcludedIff | apohara_context_forge/dedup/lsh_engine.py:176-190 | an agent is left out if and only if it has the excluded name or one that continues it with a colon |
| LshIndex.LSHTokenMatcher.MatchesForBlock | apohara_context_forge/dedup/lsh_engine.py:177-199 | exactly the stored hashes within the threshold and their owners that are not excluded, without repetition |
| LshIndex.LSHTokenMatcher.FindReusableBlocks | apohara_context_forge/dedup/lsh_engine.py:141-203 | exactly the brute-force set of (block, hash, owner) over the per-agent lists, without repetition and by non-decreasing distance; block i of the prompt is tokens i * block_size to (i + 1) * block_size |
| LshIndex.LSHTokenMatcher.ClearAgent | apohara_context_forge/dedup/lsh_engine.py:281-301 | removes exactly the listed ownerships of the agent and leaves no empty owner set; whatever the state of the index, every other agent keeps exactly its matches for every prompt, and the agent only those of hashes it does not list; keeps the store the inverse of the lists |
| LshIndex.DropOwner | apohara_context_forge/dedup/lsh_engine.py:294-300 | one ownership is dropped and nothing else, no empty owner set appearing |
| LshIndex.AddOwner | apohara_context_forge/dedup/lsh_engine.py:126-136 | one ownership is added with its block, unless it is there, and nothing else changes |
| LshIndex.ReindexKeepsInverse | apohara_context_forge/dedup/lsh_engine.py:126-136 | indexing again keeps store and lists inverse if and only if every hash of the old list is in the new one; otherwise the agent is left a stale owner |
| AnchorPool.Pool.UpdatePool | apohara_context_forge/kv_offset/anchor_pool.py:84-125 | the pool never exceeds max_size on return and is the updated pool, pruned only when it overflowed; each hash listed under an agent stays a live anchor that holds an offset of this agent |
| AnchorPool.Pool.PruneAnchors | apohara_context_forge/kv_offset/anchor_pool.py:266-289 | an oversized pool loses max(1, floor(n/4)) anchors, each before every survivor by (access_count, created_at, hash) |
| AnchorPool.PrunedMeans | apohara_context_forge/kv_offset/anchor_pool.py:266-289 | from the fields of the anchors alone: the number gone is one below eight anchors and otherwise the quarter rounded down, and each that went was accessed less often than each that stayed, or as often and created earlier, or at the same time with a smaller hash |
| AnchorPool.Pool.Evict | apohara_context_forge/kv_offset/anchor_pool.py:282-287 | removes one anchor and its listing, leaving no dangling entry in any agent's list |
| AnchorPool.PopLeast | apohara_context_forge/kv_offset/anchor_pool.py:281 | the entry popped comes before all that stay in the heap |
| AnchorPool.RanksAreOrdered | apohara_context_forge/kv_offset/anchor_pool.py:271-275 | the lexicographic comparison of the heap entries is total and transitive |
| AnchorPool.Touched | apohara_context_forge/kv_offset/anchor_pool.py:102-118 | an update stores the offset, and the prefix offset if given, in the anchor, counts the access, keeps creation time and embedding of an existing anchor, and touches no other anchor |
| VisualCache.VisualKVCache.Lookup | apohara_context_forge/multimodal/visual_kv_cache.py:77-96 | a hit moves its entry behind all others and counts it, a miss changes only the miss counter |
| VisualCache.VisualKVCache.Store | apohara_context_forge/multimodal/visual_kv_cache.py:98-145 | fails on fewer than two axes; never returns if and only if the key is new, the cache is full, and the capacity is 0 or the floor not below it; otherwise ends with the new block last and only least recently touched blocks gone |
| VisualCache.StuckAfterShed | apohara_context_forge/multimodal/visual_kv_cache.py:129-138 | evicting for the byte budget first neither causes nor prevents the endless capacity loop |
| VisualCache.VisualKVCache.MakeRoom | apohara_context_forge/multimodal/visual_kv_cache.py:129-138 | the evictions of a store end, unless they are stuck, with room for the key and with exactly the order a store then extends |
| VisualCache.VisualKVCache.EvictIfNeeded | apohara_context_forge/multimodal/visual_kv_cache.py:147-156 | evicts from the front until the incoming bytes fit, the cache is empty or the floor is reached, and no further: before each eviction the entries left and the incoming bytes exceeded the budget |
| VisualCache.VisualKVCache.EvictToCapacity | apohara_context_forge/multimodal/visual_kv_cache.py:136-138 | terminates if and only if there already is room or the capacity is positive and the floor below it |
| VisualCache.VisualKVCache.EvictLfu | apohara_context_forge/multimodal/visual_kv_cache.py:158-179 | refuses exactly when empty or at the floor; otherwise removes exactly the first entry |
| VisualCache.StoreFitsIff | apohara_context_forge/multimodal/visual_kv_cache.py:129-140 | without a controller the total bytes are within budget after a store if and only if the stored item alone is, whatever was cached |
| VisualCache.StoreStaysInBounds | apohara_context_forge/multimodal/visual_kv_cache.py:129-179 | a store that returns leaves at most max_entries entries and never fewer than the floor, or than before |
| VisualCache.ShedIsSuffix | apohara_context_forge/multimodal/visual_kv_cache.py:151-156 | what budget eviction leaves is a suffix in touch order that fits the budget or stands at the floor, and never falls below the floor |
| VisualCache.ShedIsBudgetEviction | apohara_context_forge/multimodal/visual_kv_cache.py:147-156 | n entries are gone from the front; before each of them the rest and the incoming bytes exceeded the budget and the floor allowed it, and after the last no more |
| VisualCache.FittingDropsNothing | apohara_context_forge/multimodal/visual_kv_cache.py:129-140 | a store that fits the budget drops nothing but, for a new key in a full cache, the first entry |
| VisualCache.BytesAre | apohara_context_forge/multimodal/visual_kv_cache.py:111-116 | the estimated bytes are the product of the axes of two- and three-axis embeddings, of the first two axes of any other, times the item size |
| VisualCache.InTouchOrderIsDistinct | apohara_context_forge/multimodal/visual_kv_cache.py:67-68 | touch order lists no key twice |
| VisualCache.TouchTracks | apohara_context_forge/multimodal/visual_kv_cache.py:86-87 | touching a key, cached or new, keeps the dictionary in last-touch order |
| VisualCache.FrontIsOlder | apohara_context_forge/multimodal/visual_kv_cache.py:173-174 | every entry evicted from the front was touched before every entry that stays |
| VramCache.VRAMAwareCache.Set | apohara_context_forge/registry/vram_aware_cache.py:123-160 | refused if and only if the mode is EMERGENCY; otherwise overwrites, keeps the token total equal to the sum over the store, and under PRESSURE or CRITICAL applies the policy |
| VramCache.VRAMAwareCache.Get | apohara_context_forge/registry/vram_aware_cache.py:162-175 | returns the stored value and updates only the access fields of that entry |
| VramCache.VRAMAwareCache.Delete | apohara_context_forge/registry/vram_aware_cache.py:177-184 | true if and only if the key was there; the token total stays the sum over the store |
| VramCache.VRAMAwareCache.Clear | apohara_context_forge/registry/vram_aware_cache.py:282-286 | empties store and token total together |
| VramCache.VRAMAwareCache.Evict | apohara_context_forge/registry/vram_aware_cache.py:276-280 | removes at most this key and keeps the token total the sum over the store |
| VramCache.VRAMAwareCache.ApplyEvictionPolicy | apohara_context_forge/registry/vram_aware_cache.py:186-274 | in every mode the store becomes what that mode prescribes, the count returned is the entries gone, sets are blocked if and only if the mode applied is EMERGENCY, and the token total is the sum over the store; raises if and only if the mode is workflow-aware and the step graph cyclic, then evicting nothing; a given pressure sets the mode by the bounds 0.70, 0.85, 0.92 and 0.96 |
| VramCache.AppliedIsPrescribed | apohara_context_forge/registry/vram_aware_cache.py:186-274 | entry by entry: RELAXED keeps all; EMERGENCY and NORMAL keep exactly what was accessed within 30 and 120 seconds; CRITICAL only marks what was not within 30; under PRESSURE a quarter goes, each with at least the tokens per access of every survivor, compared crosswise; WORKFLOW_AWARE removes exactly the keys "context:" + agent |
| VramCache.VRAMAwareCache.EvictHeaviest | apohara_context_forge/registry/vram_aware_cache.py:245-257 | min(n, max(1, floor(n/4))) entries go, each with a token/access ratio at least that of every survivor |
| VramCache.VRAMAwareCache.EvictIdle | apohara_context_forge/registry/vram_aware_cache.py:216-225 | exactly the entries idle beyond the limit go |
| VramCache.VRAMAwareCache.EvictContexts | apohara_context_forge/registry/vram_aware_cache.py:263-272 | exactly the context entries of the listed agents go, counted once each |
| VramCache.VRAMAwareCache.Offload | apohara_context_forge/registry/vram_aware_cache.py:227-232 | idle entries are marked, none is removed |
| VramCache.VRAMAwareCache.MonitorTick | apohara_context_forge/registry/vram_aware_cache.py:95-108 | a reading that keeps the mode leaves the store alone; a change applies the policy of the new mode and blocks if and only if it is EMERGENCY |
| VramCache.ChosenAreFirst | apohara_context_forge/registry/vram_aware_cache.py:248-257 | evicting the first n of a sorted listing removes exactly n entries, none of which sorts behind a survivor |
| Queueing.WelfordStatistics.Update | apohara_context_forge/scheduling/queueing_controller.py:68-74 | after every update the running mean is the batch mean of all observations and M2 their squared deviations from that mean |
| Queueing.FieldsStayBatch | apohara_context_forge/scheduling/queueing_controller.py:68-74 | the assignments of an update carry mean and M2 from the batch values of a sequence to those of the longer one |
| Queueing.WelfordStatistics.Variance | apohara_context_forge/scheduling/queueing_controller.py:85-90 | the batch population variance of all observations, 0 below two, never negative |
| Queueing.UpdateIsBatch | apohara_context_forge/scheduling/queueing_controller.py:68-74 | one step carries batch mean and batch squared deviations over to the longer sequence |
| Queueing.CeilingIsLeast | apohara_context_forge/scheduling/queueing_controller.py:459-470 | the result is at most a natural number if and only if the value is |
| Queueing.FloorAgainstCriticalRate | apohara_context_forge/scheduling/queueing_controller.py:261-283 | free blocks reach the ceiling of the raw minimum if and only if the arrival rate is at most the unrounded critical rate |
| Queueing.UtilizationIs | apohara_context_forge/scheduling/queueing_controller.py:252-291 | up to a service time of 10^9 the utilization is arrival rate times service time, capped at 0.9999, and the margin what is missing to 100 percent |
| Queueing.NoMarginNoFloor | apohara_context_forge/scheduling/queueing_controller.py:277-283 | without a positive margin the critical rate is infinite and the floor is 0 |
| Queueing.NoBlocksNoFloor | apohara_context_forge/scheduling/queueing_controller.py:266-283 | without blocks per request the critical rate is infinite and the floor is 0 |
| Queueing.NeededIsLeast | apohara_context_forge/scheduling/queueing_controller.py:333-345 | k evicted blocks keep the free blocks at the floor if and only if k is at least the amount computed |
| Queueing.QueueingController.RecordArrival | apohara_context_forge/scheduling/queueing_controller.py:182-200 | only an advancing clock blends the instantaneous rate into the estimate, which never becomes negative |
| Queueing.QueueingController.RecordCompletion | apohara_context_forge/scheduling/queueing_controller.py:202-223 | service times always enter their statistics, block counts only when positive |
| Queueing.QueueingController.CurrentEstimates | apohara_context_forge/scheduling/queueing_controller.py:241-250 | before ten completions 0.1, 1.0 and the block size; afterwards the arrival estimate, or 0.1 if it is 0, the greater of 0.001 and the mean observed service time, and the greater of 1 and the mean observed block count; hence rate and service time are always positive |
| Queueing.QueueingController.Floor | apohara_context_forge/scheduling/queueing_controller.py:261-272 | the floor is at most n if and only if n is at least arrival rate * service time * blocks * safety margin |
| Queueing.QueueingController.GetEvictionTargetBlocks | apohara_context_forge/scheduling/queueing_controller.py:304-368 | an unthrottled call returns the least sufficient number of blocks, a throttled one 0; the free blocks end at the floor if and only if nothing was needed or the call was not throttled |
| Queueing.NoEvictionStorm | apohara_context_forge/scheduling/queueing_controller.py:347-356 | any two positive evictions of a run are at least the interval times the number of evictions between them apart |

## Left out

- Fwht.FwhtRow: one row; leading axes repeat it row by row. The Rust kernel and its fallback are not part of this model.
- Fwht.FwhtInPlace: for float32 tensors; with another dtype the source works on a converted copy and leaves its argument alone. Length 0 passes the guard and then divides by zero; both failures are one result.
- PreRope.RotateKVQuantizer.QuantizePreRope: with use_fwht off, because the transform is never undone by dequantization; four-dimensional inputs and an even number of channels. Positions are copied through by the source and not modelled.
- PreRope.RotateKVQuantizer.Dequantize: with use_fwht off, for the same reason.
- Ledger.LedgerFile.Append: what writing and parsing make of a payload is a parameter, concrete only for flat dictionaries of strings (Ledger.IntKeysBreak); a payload that cannot be written raises before the file is touched. The directory and the iterator are not modelled. A last entry_hash that is not a string is an error; one that cannot be encoded raises likewise and is not modelled.
- LshIndex.LSHTokenMatcher.FindReusableBlocks: matches of equal distance come in no stated order, and the prefix hash is not part of this model.
- AnchorPool.Pool.UpdatePool: the hash, embedding and clock are parameters; offset approximation, rotation and shareability prediction need transcendental functions.
- VisualCache.VisualKVCache.Store: resolution metadata, batching hints and content hashing are not modelled. Blocks are values, so a caller that keeps a block does not see later counter updates.
- VramCache.VRAMAwareCache.ApplyEvictionPolicy: what the step graph answers is a parameter, an order or its cycle error.
- VramCache.VRAMAwareCache.MonitorTick: the background task, its sleep and its error back-off are not modelled; a pressure reading is a parameter.
- Queueing.QueueingController.RecordArrival: the arrival buffer and the inter-arrival list feed no modelled result. The decay factor is any real in 0..1.
- Queueing.FloorAgainstCriticalRate: for the unrounded rate; the reported fields are rounded by the source.
- Entries, anchors and diffs are values in maps: aliasing with objects that callers keep is not modelled.
- Prefetch candidates, metrics, statistics exports and quantization-width advice: one-branch facts.
- The JCR gate, router, prefix normalizer, predictor, speculative decoding, servers and cluster operator.
