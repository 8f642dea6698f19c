# micro-ccl in Dafny

micro-ccl is a collective-communication library over RDMA: P ranks allreduce, allgather
and broadcast over reliable queue pairs that a TCP bootstrap connects into a full mesh.
Its correctness is a statement about P concurrent ranks, for every P, every element count
and every interleaving. This project models the protocols as step systems and proves such
statements.

`dafny verify dfyconfig.toml` checks the whole project.

## How the model is built

**Data path.** `Transport` is a machine of P ranks. Each rank has a memory, its outstanding
work requests and the two completion queues all its queue pairs share; it executes a
straight-line program of transport calls. The network delivers and acknowledges in any
order the reliable connections allow: per queue pair first in, first out, without loss,
retrying for ever while no receive is posted. `Discipline` holds for every program, matched
with its peers or not. `Lockstep` proves, for every program in which sends and receives
match round by round, that each rank is at all times where a synchronous execution of the
program would have it, however far the ranks have drifted apart. `Guarantees` draws the
consequences once: completion attribution, buffer exclusivity, no exception, deadlock
freedom, termination, frame, drift.

**Collectives.** `Chunking`, `Ring`, `Bits`, `RecursiveDoubling` and `Circulation` give each
collective as such a program and prove what its synchronous execution computes, with no
assumption on the operator: results are `Terms`, trees that say which rank's contribution
is combined in which order. `Programs` contains the loops one rank executes, with their
guards and index arithmetic, and proves that they produce that rank's column of the
program. `Reduction` and `Endpoints` are the in-place parts. `Collectives`, `Allreduce`,
`Gathering` and `Int32Sums` put both halves together; `Traffic` counts elements;
`Conservation` and `Disagreement` drop the assumption that the ranks pass the same count,
and `Mixups` shows what that can lead to. `Stuttering` proves that only the calls each rank
issues matter, not the rounds it sits out.

**Bootstrap.** `Wire` and `Frames` are the byte formats. `Star` is the exchange through rank
0 over byte streams that may cut every message anywhere and may buffer nothing; `Exchange`
and `StarProgress` state what it returns and that it always returns. `Sockets` and
`Rendezvous` contain the loops over sockets. `QueuePairs`, `Mesh` and `MeshProgress` are the
queue pair states and all communicators being constructed at the same time, followed by
barriers.

## Conditions the theorems carry

- Data and scratch regions exist with the sizes the caller passes, and are disjoint
  (`BuffersFit`, `Placed`); the guards of the source then suffice (`RingGuardsSuffice`).
- Integers do not wrap: `count * elem_size` and message lengths fit their types, and P is
  small enough for `mod_p`. Both element types have four bytes, so lengths are counted in
  elements.
- A bootstrap table has fewer than 2^32 entries, and there are at most 2^31 ranks.
- That ranks which disagree about counts do not all return is stated for a lone call and, over
  several calls without barriers, on condition that no ring allreduce has fewer elements than
  ranks on any rank. Without the condition it is false (`Mixups`). Recursive doubling,
  allgather and broadcast skip no message and need no condition.
- Data-path executions start from a mesh whose queue pairs are all ready to send, which is
  what `Mesh.BarrierMeansReady` establishes.

## Where the documentation says more than the code does

- include/micro_ccl/collectives/allreduce_ring.hpp:20-24 says that every rank moves
  2 (P - 1) / P of the buffer. `Traffic.RingTraffic` gives the exact amount,
  `Traffic.DocumentedShare` the exact condition under which the sentence is true of every
  rank (two ranks, or P divides the count), and `Traffic.DocumentedShareFails` an input
  where it is not. The bound of two buffers and the total over all ranks are always right.
- include/micro_ccl/transport.hpp:29-31 says that ring allreduce pipelines unsignaled sends.
  The code signals every send and waits for it in the same step; the model follows the code.
- include/micro_ccl/communicator.hpp:21-22 argues that sharing completion queues is safe
  because a completion names its queue pair. The waits never look at that name;
  `Guarantees.WaitsPopTheirOwn` proves that they need not.
- The size checks of the collectives report ranks that disagree
  (src/collectives/allreduce_ring.cc:69-75). They catch every disagreement of a lone call, but
  empty chunks are skipped, so over several calls they can miss one: `Mixups.SilentMixup` and
  `Mixups.MixupExample`; `Disagreement.SequenceAgrees` gives the condition.
- The accept loop (src/bootstrap/tcp_bootstrap.cc:180-189) files connections by announced
  rank without noticing a rank announced twice; `Rendezvous.EveryPeerFiled` gives the exact
  condition under which every peer has a connection, and `Rendezvous.RepeatedRankIsLost` an
  input for which one has none.

## Model

| member | source | states |
|---|---|---|
| `Chunking.ComputeChunks` | src/collectives/chunking.cc:7-25 | fails exactly for zero chunks; otherwise the loop yields the closed form i * base + min(i, remainder), a gapless, overlap-free tiling of the buffer |
| `Chunking.ChunksTile` | src/collectives/chunking.cc:13-24 | chunks are in order, disjoint, and cover every index of [0, total) |
| `Chunking.ChunksBalanced` | include/micro_ccl/collectives/chunking.hpp:16-28 | sizes differ by at most one, larger first; the largest is ceil(total / n); chunk i is empty iff total <= i |
| `Chunking.OneMoreElement` | src/collectives/chunking.cc:13-20 | one more element enlarges exactly the chunk at total mod n |
| `Chunking.MaxChunk` | src/collectives/allreduce_ring.cc:30-38 | the guard's loop finds the size of some chunk that no chunk exceeds, which is ceil(count / P) |
| `Ring.ModPIsBack` | src/collectives/allreduce_ring.cc:40-42 | with C++'s truncating remainder, mod_p is the ring position for every offset used |
| `Ring.RingRoundsOk` | src/collectives/allreduce_ring.cc:50-66 | in every step each non-empty send meets a receive of equal length on the successor, empty chunks are skipped on both sides alike, and the sent and received slices are disjoint |
| `Ring.RingScratchExact` | src/collectives/allreduce_ring.cc:30-38 | with P > 1 the scratch needed is the size of some chunk and no chunk is larger; it is the least s with s * P >= count |
| `Ring.RingInvariant` | src/collectives/allreduce_ring.cc:50-113 | after t steps each element of each chunk on each rank is exactly one determined nested term of the inputs, for any operator |
| `Ring.RingSync` | src/collectives/allreduce_ring.cc:25-113 | the synchronous ring ends with the same full term on all ranks and writes only the data and ceil(count / P) scratch elements |
| `Ring.RingTermOccurs` | src/collectives/allreduce_ring.cc:50-79 | a chunk that travelled j hops holds the contributions of exactly j + 1 consecutive ranks, each once |
| `Ring.ReduceScatterEnds` | src/collectives/allreduce_ring.cc:47-49 | after P - 1 steps rank R holds the full reduction of chunk (R + 1) mod P and of no other |
| `Ring.FullTermCountsOnce` | src/collectives/allreduce_ring.cc:50-79 | the final term counts every rank exactly once |
| `Bits.PowerOfTwoTest` | src/collectives/allreduce_recursive_doubling.cc:11 | p & (p - 1) == 0 with p > 0 holds exactly for the powers of two |
| `Bits.CountSteps` | src/collectives/allreduce_recursive_doubling.cc:46-47 | the shift loop returns k with 2^k = P |
| `Bits.PartnerInvolution` | src/collectives/allreduce_recursive_doubling.cc:50 | r ^ 2^k is never r, and applied twice gives r back |
| `Bits.PartnerDistance` | src/collectives/allreduce_recursive_doubling.cc:50 | r ^ 2^k is r + 2^k if bit k of r is clear and r - 2^k if it is set |
| `Bits.PartnerInRange` | src/collectives/allreduce_recursive_doubling.cc:50 | for r < 2^m and k < m the partner is below 2^m, so each step is a perfect matching |
| `Bits.PairsWithinIffPower` | include/micro_ccl/collectives/allreduce_recursive_doubling.hpp:31-33 | the XOR pairing of all steps stays within P ranks iff P is a power of two; rank 2 of 3 is the smallest failure |
| `Bits.BlockHalves` | src/collectives/allreduce_recursive_doubling.cc:49-50 | a block of 2^(k+1) ranks is the disjoint union of the block of r and the block of its partner |
| `RecursiveDoubling.RdRoundsOk` | src/collectives/allreduce_recursive_doubling.cc:49-60 | in every step the ranks exchange in pairs with equal lengths |
| `RecursiveDoubling.TreeOccurs` | src/collectives/allreduce_recursive_doubling.cc:49-71 | after k steps rank r has combined exactly the ranks q with q >> k = r >> k, each once |
| `RecursiveDoubling.BlocksAgree` | src/collectives/allreduce_recursive_doubling.cc:52-70 | a commutative operator, associative or not, gives all ranks of a block the same value |
| `RecursiveDoubling.RdInvariant` | src/collectives/allreduce_recursive_doubling.cc:49-71 | after k steps every element on rank r is its balanced tree of inputs, for any operator |
| `RecursiveDoubling.RdSync` | src/collectives/allreduce_recursive_doubling.cc:45-71 | the synchronous run ends with the full balanced tree and writes only data and, with more than one rank, count scratch elements |
| `Gathering.GatherInvariantOnRuns` | src/collectives/allgather.cc:34-50 | on every interleaving a rank that has finished t steps has its own segment and those of the t ranks before it, and its initial elements elsewhere |
| `Gathering.ForwardsWhatItHas` | src/collectives/allgather.cc:35-41 | in every state of every run the slice of a posted send is the segment of rank R - t and holds that rank's original elements: nothing is forwarded before it was received |
| `Gathering.KeepsItsOwn` | src/collectives/allgather.cc:36-39 | in every state of every run a rank's own segment is what it was |
| `Gathering.AllgatherCorrect` | src/collectives/allgather.cc:28-50 | when nothing more can happen all ranks have returned and every buffer is the concatenation of all original segments |
| `Circulation.GatherSync` | src/collectives/allgather.cc:28-50 | every buffer ends as the concatenation of all ranks' segments and nothing outside it changes |
| `Circulation.CastSync` | src/collectives/broadcast.cc:17-31 | every buffer ends as the root's and nothing outside it changes |
| `Terms.EvalIsSerialFold` | src/collectives/allreduce_ring.cc:76-77 | with associativity and commutativity a term counting every rank once equals the serial fold |
| `Terms.Int32SumExact` | src/collectives/reduce_ops.cc:14-18 | if the magnitudes total at most 2^31 - 1, no addition inside such a term overflows, whatever its shape, and its value is the exact sum |
| `Discipline.RunIsDisciplined` | src/transport/transport.cc:11-67 | in every state of every run of any program a rank has at most one request of each kind outstanding, its current round's |
| `Discipline.StepWorks` | src/transport/transport.cc:11-67 | every action of any program strictly lowers a global measure |
| `Discipline.RunsAreFinite` | src/transport/transport.cc:47-67 | no run is longer than a bound in the ranks and rounds |
| `Lockstep.StepKeepsInv` | src/transport/transport.cc:11-67 | every action keeps each rank where the synchronous program has it, and sender and receiver agreed on what was delivered |
| `Lockstep.RunInv` | include/micro_ccl/verbs/queue_pair.hpp:14-23 | hence every state of every interleaving of a matched program refines the synchronous one |
| `Lockstep.SyncConcat` | include/micro_ccl/communicator.hpp:19-26 | running one program after another is running their concatenation |
| `Guarantees.BoundaryIsLockstep` | src/transport/transport.cc:47-67 | between rounds a rank has empty queues and exactly the synchronous memory, wherever the others are |
| `Guarantees.CompletedRun` | src/collectives/allreduce_ring.cc:50-113 | when all ranks have returned the memories are the synchronous result |
| `Guarantees.NeverThrows` | src/collectives/allreduce_ring.cc:66-75 | no completion error and no size mismatch is reachable in a matched program |
| `Guarantees.WaitsPopTheirOwn` | src/transport/transport.cc:47-67 | what a wait finds in a shared queue is alone there and is the current round's completion: right peer, right length, successful |
| `Guarantees.InFlightExclusive` | src/collectives/allreduce_ring.cc:85-98 | a posted send never overlaps the posted receive, and nothing is posted while a rank reduces |
| `Guarantees.InFlightStable` | src/collectives/allreduce_ring.cc:58-65 | a posted send's slice keeps its contents until it is acknowledged |
| `Guarantees.Frame` | src/collectives/allreduce_ring.cc:54-78 | an address no operation of a rank writes keeps its value in every state |
| `Guarantees.DeadlockFree` | src/transport/transport.cc:47-67 | a reachable state has no enabled action exactly when every rank has returned |
| `Guarantees.RunCompletes` | src/transport/transport.cc:47-67 | every run, however begun, extends to one in which all ranks have returned |
| `Guarantees.SendersKeepUp` | src/collectives/allreduce_ring.cc:63-67 | ranks that exchange a message in every round are never more than one round apart |
| `Collectives.CallMeets` | include/micro_ccl/collectives/allreduce_ring.hpp:10-16 | each of the four collectives, run synchronously, keeps its promise |
| `Collectives.SequenceBoundary` | include/micro_ccl/communicator.hpp:19-26 | one chain of memories, in which every collective of the sequence keeps its promise, describes the whole run: in every state every rank between two collectives has nothing outstanding and exactly the chain's memory |
| `Collectives.SequenceCompletes` | src/transport/transport.cc:47-80 | a run of any sequence that cannot go on has every rank returned and every promise kept in turn |
| `Collectives.SequenceProgress` | src/transport/transport.cc:47-80 | runs of sequences are finite, never throw and never deadlock |
| `Allreduce.RingInvariantOnRuns` | src/collectives/allreduce_ring.cc:50-113 | on every interleaving, for any operator, a rank that has finished t steps holds in chunk R - j the contributions of j + 1 consecutive ranks for j <= t, and the full term where the second loop has delivered it, whatever the other ranks have done |
| `Allreduce.DoublingInvariantOnRuns` | src/collectives/allreduce_recursive_doubling.cc:49-71 | on every interleaving a rank that has finished k steps holds its balanced tree of its block of 2^k ranks |
| `Allreduce.RingAllreduceCorrect` | src/collectives/allreduce_ring.cc:47-113 | on every interleaving, for any operator, chunk c ends on all ranks as x(c-1) op (x(c-2) op (... (x(c+1) op x(c)))), with the frame |
| `Allreduce.RingRanksAgree` | src/collectives/allreduce_ring.cc:81-113 | the ring's ranks agree exactly with no algebraic law at all |
| `Allreduce.RingIsSerialFold` | src/collectives/allreduce_ring.cc:76-77 | for an associative commutative operator every element is the serial fold over the ranks |
| `Int32Sums.RingAdditionsSafe` | src/collectives/reduce_ops.cc:16-18 | in every state of every run of the ring, each addition a rank is about to perform at an index whose magnitudes total at most 2^31 - 1 has both operands and its sum in the Int32 range |
| `Int32Sums.RingInt32Sum` | src/collectives/allreduce_ring.cc:76-77 | such an index ends with the exact sum on every rank although nothing is assumed of overflowing additions |
| `Allreduce.DoublingAllreduceCorrect` | src/collectives/allreduce_recursive_doubling.cc:49-71 | on every interleaving rank r ends with its balanced tree of all inputs, with the frame |
| `Allreduce.DoublingRanksAgree` | src/collectives/allreduce_recursive_doubling.cc:49-71 | commutativity alone makes all ranks agree |
| `Allreduce.AgreementIffCommutative` | src/collectives/allreduce_recursive_doubling.cc:49-71 | on two ranks, all completed runs on all inputs end with equal data if and only if the operator is commutative |
| `Allreduce.DoublingIsSerialFold` | src/collectives/allreduce_recursive_doubling.cc:70 | recursive doubling refines the same serial fold as the ring |
| `Int32Sums.DoublingAdditionsSafe` | src/collectives/reduce_ops.cc:16-18 | in every state of every run of recursive doubling, likewise, no such addition overflows |
| `Int32Sums.DoublingInt32Sum` | src/collectives/allreduce_recursive_doubling.cc:70 | such an index ends with the exact sum on every rank |
| `Allreduce.NeighbourDrift` | src/collectives/allreduce_ring.cc:50-113 | with count >= P the step counters of ring neighbours never differ by more than one |
| `Allreduce.BoundedDrift` | src/collectives/allreduce_ring.cc:41-42 | any two ranks differ by at most their distance around the ring |
| `Traffic.RingTraffic` | src/collectives/allreduce_ring.cc:51-62 | rank R sends 2 count - chunk[R+1] - chunk[R+2] elements, at most 2 count |
| `Traffic.RingTotalTraffic` | include/micro_ccl/collectives/allreduce_ring.hpp:20-24 | all ranks together send exactly 2 (P - 1) count, for uneven and empty chunks too |
| `Traffic.DocumentedShare` | include/micro_ccl/collectives/allreduce_ring.hpp:21-23 | every rank sends exactly 2 (P - 1) / P of the buffer iff P = 2 or P divides the count |
| `Traffic.DocumentedShareFails` | include/micro_ccl/collectives/allreduce_ring.hpp:21-23 | one element on three ranks, where it does not hold |
| `Traffic.DoublingTraffic` | src/collectives/allreduce_recursive_doubling.cc:57-60 | t steps of recursive doubling send t * count elements |
| `Traffic.RingSendsNoMore` | include/micro_ccl/collectives/allreduce_recursive_doubling.hpp:23-29 | on 2^k ranks, k >= 1, no rank of the ring sends more than recursive doubling's k * count |
| `Conservation.RunConserves` | src/collectives/allreduce_ring.cc:58-75 | in every run of every program, matched or not, as long as neither of two ranks has seen an error, the messages one has put into the other are, length by length and in order, those the other has received |
| `Conservation.DoneConserves` | src/collectives/allreduce_ring.cc:66-78 | if all return, each rank sent each other rank exactly the list of messages that one expected |
| `Conservation.BalancedParts` | src/transport/transport.cc:47-67 | if every rank sends in the first part of a program where its peer receives, whatever the lengths, messages of the first part only met messages of the first part |
| `Disagreement.LinkGrows` | src/collectives/chunking.cc:13-24 | the traffic over each link is strictly monotone in the element count |
| `Disagreement.BlockAgrees` | src/collectives/allreduce_recursive_doubling.cc:49-69 | the exchanges of recursive doubling connect every block of 2^k ranks, so one differing count is noticed somewhere |
| `Disagreement.LoneCallAgrees` | src/collectives/allreduce_ring.cc:66-78 | a lone call of any of the four collectives, each rank on its own count, operator and buffers: if all ranks return normally, under any interleaving, the counts were equal, empty ring chunks included |
| `Disagreement.LoneCallReturnsIff` | src/collectives/allreduce_ring.cc:102-112 | a run of a lone call, however begun, can be continued until all ranks return iff all counts are equal; operators may differ, and buffers need to hold the count only if it is common |
| `Disagreement.SequenceAgrees` | include/micro_ccl/communicator.hpp:19-26 | in any sequence of collectives without barriers in which no ring count is below P, if all ranks return the counts agree call by call |
| `Disagreement.SequenceReturnsIff` | include/micro_ccl/communicator.hpp:19-26 | a run of such a sequence, however begun, can be continued until all ranks return iff the counts agree call by call |
| `Disagreement.OpsPaired` | src/collectives/allreduce_ring.cc:54-66 | a call skips no message unless it is a ring with fewer elements than ranks: in every round a rank sends exactly where its peer receives |
| `Mixups.SilentMixup` | src/collectives/allreduce_ring.cc:54-66 | without that condition disagreement can go unnoticed, for any P and n: ranks that make two ring allreduces, of n and of no elements, in different orders can all return, having reduced first buffers of some with second buffers of others |
| `Mixups.AlwaysMixup` | src/collectives/allreduce_ring.cc:54-66 | and every run in which they all return ends so |
| `Mixups.MixupExample` | src/collectives/allreduce_ring.cc:54-66 | two ranks, counts 0, 1 and 1, 0: both return twice, and 20 and 300 have become 320 |
| `Programs.RingLoops` | src/collectives/allreduce_ring.cc:50-113 | the two loops issue exactly the rank's column of the combined schedule of 2 (P - 1) steps |
| `Programs.SecondLoopIndices` | src/collectives/allreduce_ring.cc:86-87 | step s of the second loop uses the indices of step s + P - 1 of the combined schedule |
| `Programs.AllreduceRing` | src/collectives/allreduce_ring.cc:13-114 | refuses exactly a count beyond the region or, when P > 1, a scratch buffer smaller than some chunk, and otherwise issues the ring column |
| `Programs.AllreduceRecursiveDoubling` | src/collectives/allreduce_recursive_doubling.cc:14-72 | refuses exactly the three bad inputs, and otherwise issues log2(P) exchanges with the right partners |
| `Programs.AllgatherRing` | src/collectives/allgather.cc:11-51 | refuses exactly a region too small, and otherwise issues the circulation without skipping |
| `Programs.BroadcastFlat` | src/collectives/broadcast.cc:10-32 | refuses exactly a root out of range; the root serves every other rank once, in order, and each other rank receives once |
| `Programs.RingAssembles` | src/collectives/allreduce_ring.cc:50-113 | what all ranks issue, taken together, is the ring program whose runs are studied |
| `Programs.DoublingAssembles` | src/collectives/allreduce_recursive_doubling.cc:49-71 | likewise for recursive doubling |
| `Programs.GatherAssembles` | src/collectives/allgather.cc:34-50 | likewise for allgather |
| `Programs.CastCallsAreBusy` | src/collectives/broadcast.cc:17-31 | what a rank issues for a broadcast is its column of the broadcast program without the rounds it sits out |
| `Programs.CastRunsRefine` | src/collectives/broadcast.cc:17-31 | every run of the ranks' own lists of broadcast calls has a counterpart run of the broadcast program with the same memories and the same requests outstanding |
| `Programs.CastListsCorrect` | src/collectives/broadcast.cc:17-31 | hence when all ranks have returned from their lists of calls every buffer is the root's |
| `Stuttering.IdleInvisible` | src/collectives/broadcast.cc:17-31 | in any state of any run a rank in a round it sits out has nothing outstanding, is never held up and changes nothing but its position |
| `Stuttering.SameCallsSameRuns` | src/transport/transport.cc:11-67 | of two programs in which every rank issues the same calls, every run of one has a counterpart of the other with the same memories and the same requests outstanding |
| `Stuttering.SameCallsSameResults` | src/transport/transport.cc:11-67 | and every completed run one with the same memories at the end |
| `Programs.RingGuardsSuffice` | src/collectives/allreduce_ring.cc:21-38 | if the regions exist and are disjoint, a count within the region and, when P > 1, a scratch buffer that holds every chunk give everything the ring needs |
| `Programs.DoublingGuardsSuffice` | src/collectives/allreduce_recursive_doubling.cc:23-43 | if the regions exist and are disjoint, a count within the region and, when P > 1, within the scratch buffer gives everything recursive doubling needs |
| `Reduction.ReduceInplace` | src/collectives/reduce_ops.cc:14-27 | for slices that do not overlap, element i of the destination becomes the sum for Sum; for Min the source's element iff it is less, otherwise its own; for Max the source's iff its own is less; nothing else changes; and in any case it is the fold the state machine performs |
| `Reduction.CombinerSums` | src/collectives/reduce_ops.cc:16-18 | where addition is exact in the Int32 range, so is the Sum of the reduction |
| `Reduction.RingSum` | src/collectives/reduce_ops.cc:16-18 | after a ring Sum with the Int32 addition of the reduction loop, every rank holds the exact sum of all ranks' elements wherever their magnitudes total at most 2^31 - 1 |
| `Reduction.DoublingSum` | src/collectives/reduce_ops.cc:16-18 | likewise after recursive doubling |
| `Reduction.RingExtreme` | src/collectives/reduce_ops.cc:19-24 | after a ring Min or Max on integers every rank holds the least or greatest of all ranks' elements |
| `Reduction.DoublingExtreme` | src/collectives/reduce_ops.cc:19-24 | likewise after recursive doubling |
| `Endpoints.Endpoint.constructor` | src/communicator/communicator.cc:7-19 | a new endpoint has empty queues |
| `Endpoints.Endpoint.Step` | src/transport/transport.cc:11-67 | the in-place object, whose calls post to, drain and check its queues, takes exactly the step of the state machine, including the size check and the reduction in its array |
| `Wire.DecodeEncode` | src/verbs/endpoint_info.cc:55-92 | decode(encode(info)) = info for every record |
| `Wire.EncodeDecode` | src/verbs/endpoint_info.cc:55-92 | encode(decode(bytes)) = bytes for every string of 53 bytes |
| `Wire.RecordLayout` | src/verbs/endpoint_info.cc:55-73 | at which of the 53 bytes each field of a record stands |
| `Wire.FieldBytes` | src/verbs/endpoint_info.cc:12-50 | a field of one, two, four or eight bytes is the number whose most significant byte comes first, weights written out |
| `Wire.EncodeEndpointInfo` | src/verbs/endpoint_info.cc:55-73 | the cursor writes fill the buffer exactly to its end with the encoding |
| `Wire.DecodeEndpointInfo` | src/verbs/endpoint_info.cc:75-92 | the cursor reads consume the buffer exactly to its end |
| `Wire.PutU16` | src/verbs/endpoint_info.cc:12-16 | two big-endian bytes at the cursor, nothing else changed |
| `Wire.PutU32` | src/verbs/endpoint_info.cc:17-23 | four big-endian bytes at the cursor, nothing else changed |
| `Wire.PutU64` | src/verbs/endpoint_info.cc:24-28 | the loop stores eight big-endian bytes at the cursor, nothing else changed |
| `Wire.GetU16` | src/verbs/endpoint_info.cc:31-35 | the value of the next two bytes, the first of them the most significant |
| `Wire.GetU32` | src/verbs/endpoint_info.cc:36-42 | the value of the next four bytes, the first of them the most significant |
| `Wire.GetU64` | src/verbs/endpoint_info.cc:43-50 | the shift loop computes the value of the next eight bytes, most significant first, and never loses a bit |
| `Frames.EntryLayout` | src/bootstrap/tcp_bootstrap.cc:76-84 | an entry is 57 bytes: the destination as a 32-bit two's complement number, most significant byte first, then the record |
| `Frames.EntryRead` | src/bootstrap/tcp_bootstrap.cc:86-95 | an entry is read from there: the destination from the first four bytes, the record from the other 53 |
| `Frames.FrameLayout` | src/bootstrap/tcp_bootstrap.cc:70-95 | a frame is the number of its entries in four bytes, most significant first, and then entry i in the 57 bytes from 4 + 57 i on |
| `Frames.DecodeEncodeEntry` | src/bootstrap/tcp_bootstrap.cc:76-95 | an entry survives the wire, negative destinations included |
| `Frames.EncodeDecodeEntry` | src/bootstrap/tcp_bootstrap.cc:76-95 | every string of 57 bytes is the encoding of its entry |
| `Frames.FeedKeepsBytes` | src/bootstrap/tcp_bootstrap.cc:41-57 | however a stream is cut, reading it piecemeal loses, repeats and reorders nothing |
| `Frames.ReadsWholeFrame` | src/bootstrap/tcp_bootstrap.cc:218-222 | a reader is complete exactly at the end of a frame, has then its entries, and never asks for a byte beyond it |
| `Sockets.SendExact` | src/bootstrap/tcp_bootstrap.cc:27-39 | all bytes, in order, whatever each send takes |
| `Sockets.RecvExact` | src/bootstrap/tcp_bootstrap.cc:41-57 | exactly the next len bytes whatever each recv returns; with fewer it fails iff the peer has closed and waits on an open connection |
| `Sockets.SendFrame` | src/bootstrap/tcp_bootstrap.cc:233-236 | the count and every entry are appended to the stream |
| `Sockets.RecvFrame` | src/bootstrap/tcp_bootstrap.cc:238-242 | returns exactly if the stream starts with a frame, then with its entries, and leaves the rest; otherwise fails on a closed connection and waits on an open one |
| `Sockets.FrameUnique` | src/bootstrap/tcp_bootstrap.cc:70-95 | a stream starts with at most one frame |
| `Sockets.ResultFor` | src/bootstrap/tcp_bootstrap.cc:245-251 | the loop keeps, for each producer, under its rank cast to a signed integer, the last record addressed to this rank, and nothing else |
| `Sockets.ExchangePeer` | src/bootstrap/tcp_bootstrap.cc:232-251 | a peer writes its frame, then reads exactly one, failing or waiting when there is none |
| `Sockets.CollectTable` | src/bootstrap/tcp_bootstrap.cc:215-223 | rank 0 takes exactly one frame from every peer in rank order, after its own entries; the first peer without one decides whether it fails or waits |
| `Sockets.ReplyAll` | src/bootstrap/tcp_bootstrap.cc:225-231 | rank 0 writes the whole table to every peer |
| `Rendezvous.AcceptPeers` | src/bootstrap/tcp_bootstrap.cc:168-190 | refuses exactly an announcement of rank 0 or of a rank outside the world; otherwise slot r holds connection i iff i announced r and no later connection did |
| `Rendezvous.EveryPeerFiled` | src/bootstrap/tcp_bootstrap.cc:168-190 | every peer has a connection iff all announced ranks differ |
| `Rendezvous.FiledUnderOwnRank` | src/bootstrap/tcp_bootstrap.cc:180-189 | then every connection is filed under its own rank, whatever the order of arrival |
| `Rendezvous.RepeatedRankIsLost` | src/bootstrap/tcp_bootstrap.cc:180-189 | three ranks and announcements 1, 1: accepted, and rank 2 has no connection |
| `Star.MoveInv` | src/bootstrap/tcp_bootstrap.cc:205-243 | every move keeps each frame split, in order, between reader, stream and writer, and no stream ever holds bytes of two rounds |
| `Star.HistoryInv` | src/bootstrap/tcp_bootstrap.cc:205-252 | hence this holds in every state of every schedule |
| `Exchange.ExchangeReturns` | src/bootstrap/tcp_bootstrap.cc:205-252 | the k-th exchange of a rank returns what the k-th table holds for it, for every fragmentation and number of rounds |
| `Exchange.ExchangeTransposes` | include/micro_ccl/bootstrap.hpp:44-49 | when every record carries the rank that produced it, it returns exactly s -> outgoing_s[r], for any iteration order of the maps |
| `Exchange.BarrierSafe` | include/micro_ccl/communicator.hpp:50-56 | no rank returns from its k-th exchange before every rank has entered its k-th |
| `Exchange.StarDeadlockFree` | src/bootstrap/tcp_bootstrap.cc:214-243 | with any socket buffering and with none, nothing can move exactly when every rank has returned from every exchange |
| `StarProgress.MoveWork` | src/bootstrap/tcp_bootstrap.cc:27-57 | every move strictly lowers a measure |
| `StarProgress.HistoriesAreFinite` | src/bootstrap/tcp_bootstrap.cc:27-57 | no schedule is longer than the calls and bytes of its exchanges |
| `StarProgress.HistoryCompletes` | src/bootstrap/tcp_bootstrap.cc:205-252 | every schedule, however begun, extends until all exchanges have returned |
| `QueuePairs.Communicator.CreateAll` | src/communicator/communicator.cc:24-38 | exactly one queue pair per peer, in INIT on the device's port with the number handed out; the record for that peer announces this number, the sequence number drawn, this rank, the port, its MTU and, by link type, its LID or its GID and GID index |
| `QueuePairs.Communicator.ConnectAll` | src/communicator/communicator.cc:46-51 | fails exactly if a peer's record is missing; the queue pairs before that peer are in RTS, address the number in the record at its LID or GID, expect its sequence number, start from the one told to the peer, and use the largest path MTU neither port exceeds; those from that peer on are as they were |
| `Mesh.MeshRunInv` | src/communicator/communicator.cc:7-54 | in every state of every interleaving of all constructors and barriers each queue pair is as created or connected to what its peer told |
| `Mesh.MeshConsistent` | src/verbs/queue_pair.cc:80-155 | two constructed ranks' queue pairs are the ends of one connection: rank i's has number nums[i][j], addresses nums[j][i] at rank j's port, starts from psns[i][j] and expects psns[j][i], both in RTS, on the largest path MTU neither port exceeds |
| `Mesh.BarrierMeansReady` | src/communicator/communicator.cc:54 | once any rank has left a barrier, every queue pair of every rank is RTS |
| `Mesh.MeshDeadlockFree` | src/communicator/communicator.cc:27-54 | construction and barriers never deadlock and no record is ever missing |
| `MeshProgress.MeshRunsAreFinite` | src/communicator/communicator.cc:27-54 | no run of construction and barriers has more steps than the calls and bytes of its exchanges and one per pair of ranks |
| `MeshProgress.MeshRunCompletes` | src/communicator/communicator.cc:27-54 | every run, however begun, extends until every mesh is constructed and every barrier left |

## Left out

- Wrap-around of `count * elem_size`, truncation of message lengths to 32 bits and overflow of `mod_p`'s int: conditions above.
- Float32 arithmetic: the operator is an arbitrary function; nothing is claimed of NaN, signed zeros or rounding beyond agreement and the tie rules of Min and Max.
- Packet loss, retransmission, timeouts, sends reaching a queue pair that is not yet ready, and recovery: the repository disclaims fault tolerance.
- Time and place of a payload's read inside the network: a delivery is one step; `Guarantees.InFlightStable` shows that the moment does not matter.
- The error state a queue pair enters after a refused message: the two ranks concerned see the error and throw, and no later traffic of theirs is claimed.
- Busy polling in `wait_completion`: a wait is a guarded step.
- Device, protection domain, memory region and completion queue handles, their ownership and moves, and GID discovery.
- Creating, connecting and closing sockets, name lookup, retries and EINTR; `Star` has no peer that closes its connection during an exchange, `Sockets` does.
- Random sequence numbers: arbitrary values.
- The queue pair is a value in its communicator's map, so aliasing of queue pair handles is not captured.
- Self-transitions of queue pairs that the hardware also allows; the source never makes one.
- The unknown-operator and unknown-type exceptions of `reduce_inplace`: the model's operators are a closed datatype.
- Timing, crossover, benchmarks, statistics, plotting, the ping-pong example and command lines.
