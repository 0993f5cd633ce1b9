# Contrail graph stages in Dafny

This project models five MapReduce stages of the Contrail de Bruijn graph
assembler and proves properties of them:

- **Compressible** (`compressible.dfy`, module `Compressible`). It finds the
  strands of each node that lie inside an unbranched chain. The mapper makes
  every node claim, on each strand, to be the unique predecessor of the node
  at that strand's tail. It then re-emits the node with both
  compressibility flags cleared. The reducer marks a strand compressible
  only when the node at its tail claimed the node back on the complementary
  strand tag.
- **PairMark** (`pairmark.dfy`, module `PairMark`). It chooses which
  compressible nodes merge into a neighbour. Each node flips a coin that is
  a function of its id and a job-wide seed. An Up node is sent to a Down
  buddy. A Down node may turn Up when it is the smallest id among its
  all-Down buddies. The reducer applies the pending link updates to the one
  node record of its key.
- **GraphStats** (`graphstats.dfy`, module `GraphStats`). It computes contig
  length statistics. The mapper turns each contig into a one-contig record
  keyed by its negated length bin. The reducer, which is also the combiner,
  adds the counts and sums and merges the sorted length lists.
  `computeN50Stats` walks the bins and reports the N50 length of every
  prefix of bins.
- **FastqPreprocessor** (`fastq.dfy`, module `Fastq`). It is a map-only job
  over the lines of a FASTQ file. The mapper is a four-state machine. It
  checks and cleans the read name on the header line and keeps the bases
  line. On the quality line it emits one `SequenceRead(id, dna)`.
- **RekeyByComponentId** (`rekey.dfy`, module `Rekey`). It joins node records
  with the component ids assigned to them. The join is keyed by node id, and
  the stage reports an error counter when either half is missing.

`mapreduce.dfy` (module `MapReduce`) holds the shared framework pieces:
- `Option` and `Result`;
- `FlatMap`, for running a mapper over its input;
- `Group(k, pairs)`, the values the shuffle delivers to the reducer of key
  `k`, in emission order;
- the reporter's counters as a map from counter name to count;
- the scans a reducer makes over its values: how many match, the last match, and the first match.

Text messages that the sources split on tabs become tagged datatypes. Each
has an `Unrecognised` variant for the source's "Unknown msgtype" path.

Mappers and reducers that loop or keep state are methods. Each is proved
equal to a specification function. The stage-level properties are then
lemmas about those functions:
- a Compressible strand is marked exactly when the claim is mutual;
- two PairMark nodes never merge into each other;
- the GraphStats combiner does not change the result;
- every N50 record is at the first index, counting from where the previous
  bin's scan stopped, at which the running sum reaches half;
- formatting FASTQ records and preprocessing them returns the reads;
- the rekey join emits exactly for ids that have both a node record and a
  component.

A few behaviours of the code are modelled as written. The mapper's
`PREPROCESS_SUFFIX` handling keeps the previous suffix when no mate pattern
matches. `computeN50Stats` never performs its bin-order check, because
`lastBin` is only assigned inside the branch that tests it for non-null.
`computeN50Stats` reads the collected lengths as if they were descending:
it reports `contigLengths.get(0)` as the maximum, the last length as the
minimum, and scans from the front for the N50 contig. The reducer leaves
every bin's lengths ascending, so for a single bin the reported maximum is
its smallest length and the minimum its largest. The N50 length is taken
from the short end too: the lengths 1, 2, 3 give an N50 length of 2, a
maximum of 1 and a minimum of 3, where the descending list would give 3, 3
and 1. Finally,
`computeN50Stats` fails with an index of -1 when the first bin's length sum
is below 2.

## Model

| member | source | states |
|---|---|---|
| MapReduce.CountWhereZero | src/contrail/Compressible.java:105-109 | the `sawnode` counter is zero exactly when no node message arrived; the PairMark reducer counts the same way |
| MapReduce.LastWhereFound | src/contrail/Compressible.java:105-109 | the node parsed last exists exactly when the count is positive, and it is one of the node messages |
| MapReduce.FirstWhereFound | src/contrail/Compressible.java:115-118 | the message that throws "Unknown msgtype" is absent exactly when every message is recognised, and is otherwise an unrecognised message received |
| MapReduce.FirstWhereExtends | src/contrail/Compressible.java:97-119 | the loop stops at the first unrecognised message, and later messages cannot change which one that is |
| Compressible.SetCanCompress | src/contrail/Compressible.java:55 | setting one strand's flag changes that flag only and leaves the node's other data unchanged |
| Compressible.MapOutput | src/contrail/Compressible.java:46-73 | the mapper emits one claim per non-self unique tail and then the node, with both flags cleared, under its own id; every claim comes from the node and is sent to another node |
| Compressible.MapOutputClaims | src/contrail/Compressible.java:53-68 | a claim tagged with a strand reaches node k exactly when k is the node's tail on that strand and is not the node itself |
| Compressible.Map | src/contrail/Compressible.java:46-73 | the dirs loop emits exactly the mapper output described by MapOutput |
| Compressible.ClaimantsExact | src/contrail/Compressible.java:110-114 | the f/r unique sets hold exactly the senders of claims with that tag; claims with other tags are ignored |
| Compressible.MarkOverFlags | src/contrail/Compressible.java:126-139 | the marking loop sets a strand's flag exactly when the tail node's claim was reciprocated, and changes nothing else |
| Compressible.ReduceOutput | src/contrail/Compressible.java:86-142 | reduce fails exactly on an unknown message or a node count other than one; otherwise it returns, under the reduce key, the received node with each strand compressible iff it already was or its tail claimed it back |
| Compressible.ReadMessages | src/contrail/Compressible.java:97-119 | the message loop stops at the first message of unknown type; otherwise it leaves the claim sets of each tag, the number of node records, and the node record that arrived last |
| Compressible.Reduce | src/contrail/Compressible.java:86-142 | the message loop, count check and marking loop compute ReduceOutput |
| Compressible.GroupedNodeRecords | src/contrail/Compressible.java:50-70 | any node record the reducer for k receives is node k, with both flags cleared |
| Compressible.GroupedClaims | src/contrail/Compressible.java:57-66 | the reducer for k receives a claim from a node on a strand exactly when that node's tail on that strand is k |
| Compressible.ReducedFrom | src/contrail/Compressible.java:97-141 | a successful reduce is produced from one received node record, with each flag as the reciprocity rule says |
| Compressible.StrandIffMutual | src/contrail/Compressible.java:126-139 | over the whole map-shuffle-reduce, a strand ends compressible exactly when some input node reciprocates the tail claim |
| Compressible.NodeIffMutual | src/contrail/Compressible.java:126-139 | the received node is node k, and each of its strands is compressible exactly when the claim on that strand is mutual |
| Compressible.CompressibleIffMutual | src/contrail/Compressible.java:46-142 | for the whole job, the node a reducer outputs has key k, and each of its strands is compressible iff some input node reciprocates that strand's claim |
| Compressible.SelfTailNeverCompressible | src/contrail/Compressible.java:61-139 | a strand whose tail is the node itself is never marked compressible, because self claims are skipped |
| PairMark.CanCompress | src/main/java/contrail/avro/PairMarkAvro.java:77-90 | a strand can be compressed exactly when the node's compressible strands include it |
| PairMark.GetBuddy | src/main/java/contrail/avro/PairMarkAvro.java:128-133 | a buddy exists exactly when the strand is compressible and has an outgoing tail, and the buddy is that tail |
| PairMark.CollidingIdsFlipAlike | src/main/java/contrail/avro/PairMarkAvro.java:119-125 | the coin depends only on `hashCode() ^ randseed`, so the distinct ids "Aa" and "BB", which share a hash code, always flip alike |
| PairMark.StrLessAsymmetric | src/main/java/contrail/avro/PairMarkAvro.java:214-218 | `compareTo(...) < 0` never holds in both directions |
| PairMark.StrLessTotal | src/main/java/contrail/avro/PairMarkAvro.java:214-218 | of two distinct ids, one compares below the other |
| PairMark.ProcessUpNode | src/main/java/contrail/avro/PairMarkAvro.java:164-191 | an Up node gets an edge exactly when some buddy flips Down; forward is preferred; the chosen terminal is always a Down buddy |
| PairMark.ConvertDownToUp | src/main/java/contrail/avro/PairMarkAvro.java:202-253 | a Down node turns Up exactly when every buddy flips Down and its id is below every buddy's id |
| PairMark.Decide | src/main/java/contrail/avro/PairMarkAvro.java:255-323 | a node without buddies is kept; a node merges exactly when it has a buddy, is Up or is promoted, and `processUpNode` finds an edge, and it merges along that edge; a kept node with buddies is Down and unconverted, or has no Down buddy |
| PairMark.MapAsWritten | src/main/java/contrail/avro/PairMarkAvro.java:255-324 | the mapper as written emits nothing exactly when the node is to merge, and otherwise the single pair of the node under its own id with no strand to merge |
| PairMark.MapAsWrittenDropsMergingNode | src/main/java/contrail/avro/PairMarkAvro.java:316-323 | a node "a" whose forward buddy "b" flips Down is lost by the mapper as written, while the corrected mapper sends it to "b" |
| PairMark.Map | src/main/java/contrail/avro/PairMarkAvro.java:255-324 | the corrected mapper emits the node exactly once: it carries a strand to merge exactly when the decision is to merge, and is then keyed by the Down buddy at the end of the chosen edge, with that edge's strand; otherwise it is keyed by its own id |
| PairMark.NoBuddyIgnoresCoins | src/main/java/contrail/avro/PairMarkAvro.java:264-273 | a node with no buddy is emitted unchanged under its own id, whatever the coins |
| PairMark.NoMutualMerge | src/main/java/contrail/avro/PairMarkAvro.java:277-323 | two merging nodes are never sent into each other |
| PairMark.DownPairMakesProgress | src/main/java/contrail/avro/PairMarkAvro.java:193-253 | of two Down nodes that are each other's only buddy, exactly one merges: the one with the smaller id |
| PairMark.DownNodeDecision | src/main/java/contrail/avro/PairMarkAvro.java:279-297 | a Down node whose only buddy is Down merges exactly when its id is the smaller one |
| PairMark.Updates | src/main/java/contrail/avro/PairMarkAvro.java:366-376 | the pending updates are exactly the update messages received |
| PairMark.UpdatesAppend | src/main/java/contrail/avro/PairMarkAvro.java:366-376 | updates collected from two message runs are the first run's followed by the second's |
| PairMark.ApplyUpdatesAppend | src/main/java/contrail/avro/PairMarkAvro.java:388-394 | applying updates in two batches equals applying them in one, in order |
| PairMark.ReduceOutput | src/main/java/contrail/avro/PairMarkAvro.java:344-397 | reduce fails exactly on an unknown message or a node count other than one; otherwise it outputs, under the key, a received node with every update applied in arrival order |
| PairMark.Reduce | src/main/java/contrail/avro/PairMarkAvro.java:344-397 | the message loop, count check and replacelink loop compute ReduceOutput |
| GraphStats.MergePermutes | src/main/java/contrail/avro/GraphStats.java:153-178 | the merged list is a permutation of the two inputs together |
| GraphStats.MergeMembers | src/main/java/contrail/avro/GraphStats.java:153-178 | every merged element comes from one of the inputs |
| GraphStats.MergeSorted | src/main/java/contrail/avro/GraphStats.java:153-178 | merging two ascending lists gives an ascending list |
| GraphStats.MergeInterleaves | src/main/java/contrail/avro/GraphStats.java:153-178 | the merge interleaves its inputs: the elements taken from each side appear in that side's order |
| GraphStats.MergeTieTakesRight | src/main/java/contrail/avro/GraphStats.java:159-164 | on equal heads the right list's element goes first |
| GraphStats.MergeSortedLists | src/main/java/contrail/avro/GraphStats.java:153-178 | the two-index loop and the tail copies compute Merge |
| GraphStats.CopyRest | src/main/java/contrail/avro/GraphStats.java:167-176 | a tail loop appends exactly the rest of its list |
| GraphStats.GraphStatsMapper.Configure | src/main/java/contrail/avro/GraphStats.java:119-124 | the reused output record starts with an empty length list, and the key starts at -1 |
| GraphStats.GraphStatsMapper.Map | src/main/java/contrail/avro/GraphStats.java:128-150 | map sets the count, then fails on an empty length list; otherwise it overwrites the first length and the sums, keys by the negated bin, and emits the record |
| GraphStats.ConfigureThenMap | src/main/java/contrail/avro/GraphStats.java:119-150 | a freshly configured mapper fails with index 0 on its first node |
| GraphStats.MapRecords | src/main/java/contrail/avro/GraphStats.java:128-150 | the corrected mapper gives one record per contig, with count 1, the contig's length as the length sum, `(fdegree + rdegree) * len` as the degree sum, and the one-element list of that length |
| GraphStats.ReduceOfMapped | src/main/java/contrail/avro/GraphStats.java:188-211 | reducing corrected mapper records counts the contigs and sums their lengths and degree-weighted lengths; the length list is ascending and a permutation of the contig lengths |
| GraphStats.TotalsSorted | src/main/java/contrail/avro/GraphStats.java:188-211 | the reducer's length list is ascending when its inputs' lists are |
| GraphStats.TotalsAppend | src/main/java/contrail/avro/GraphStats.java:188-211 | reducing a concatenation adds the counts and sums, and unions the length multisets |
| GraphStats.SortedUnique | src/main/java/contrail/avro/GraphStats.java:153-178 | two ascending lists with the same elements are equal, so merge order does not matter to a sorted result |
| GraphStats.CombinerTransparent | src/main/java/contrail/avro/GraphStats.java:513 | reducing two partial reductions equals reducing all the values at once, so the reducer is safe as the combiner |
| GraphStats.GraphStatsReducer.Configure | src/main/java/contrail/avro/GraphStats.java:184-186 | the accumulated total starts empty |
| GraphStats.GraphStatsReducer.Reduce | src/main/java/contrail/avro/GraphStats.java:188-211 | the total is reset, then accumulates every value in arrival order, and is emitted |
| GraphStats.Scan | src/main/java/contrail/avro/GraphStats.java:444-447 | a successful scan stops at an index no earlier than where it resumed |
| GraphStats.ScanFindsHalf | src/main/java/contrail/avro/GraphStats.java:444-447 | the scan stops at the first index, from where it resumed, whose running sum reaches half; it fails only past the end and only when the total falls short, and when no length is negative it fails exactly then |
| GraphStats.ScanToHalf | src/main/java/contrail/avro/GraphStats.java:444-447 | the while loop computes Scan |
| GraphStats.N50Step | src/main/java/contrail/avro/GraphStats.java:436-459 | a successful bin leaves a valid N50 index |
| GraphStats.N50StepHolds | src/main/java/contrail/avro/GraphStats.java:436-459 | a bin appends a record with the N50 length, first and last length, total and count, at the first index reaching half |
| GraphStats.N50StepRecord | src/main/java/contrail/avro/GraphStats.java:436-459 | a successful bin step appends exactly one record, and that record satisfies RecordHolds when the scan resumes at the previous N50 index |
| GraphStats.N50StepFails | src/main/java/contrail/avro/GraphStats.java:440-452 | a bin fails only when its lengths sum below half, or on a lookup at index -1 |
| GraphStats.N50StepSucceeds | src/main/java/contrail/avro/GraphStats.java:440-452 | a bin succeeds when the lengths add up to the total and the scan has started or must move |
| GraphStats.N50Run | src/main/java/contrail/avro/GraphStats.java:423-461 | the carried index stays within the collected lengths |
| GraphStats.N50RunErrSticks | src/main/java/contrail/avro/GraphStats.java:423-461 | once a bin fails, the whole computation fails with that error |
| GraphStats.N50RunSum | src/main/java/contrail/avro/GraphStats.java:420-447 | `contigSum` is always the sum of the lengths up to `contigIndex` |
| GraphStats.N50RunSound | src/main/java/contrail/avro/GraphStats.java:402-463 | every record describes the bins up to its own, starting its scan where the previous record's ended |
| GraphStats.AllBinStatsHoldAt | src/main/java/contrail/avro/GraphStats.java:451-459 | record k reports the lengths of bins 0..k |
| GraphStats.N50Sound | src/main/java/contrail/avro/GraphStats.java:402-463 | a successful result has one record per bin, each correct for its prefix of bins |
| GraphStats.N50FirstBinFails | src/main/java/contrail/avro/GraphStats.java:440-452 | when the first bin's length sum halves to zero, the result is the error at index -1 |
| GraphStats.N50AscendingBinSwapsExtremes | src/main/java/contrail/avro/GraphStats.java:413-454 | for one bin whose lengths are ascending, as the reducer leaves them, the record's maximum is at most every length and its minimum at least every length |
| GraphStats.N50OfAscendingExample | src/main/java/contrail/avro/GraphStats.java:413-454 | the bin with lengths 1, 2, 3 yields N50 length 2, maximum 1 and minimum 3 |
| GraphStats.N50WellFormedSucceeds | src/main/java/contrail/avro/GraphStats.java:423-461 | consistent bins, with a first length sum of at least 2, never hit an index error |
| GraphStats.N50WellFormedOk | src/main/java/contrail/avro/GraphStats.java:402-463 | on such bins `computeN50Stats` succeeds |
| GraphStats.ComputeN50Stats | src/main/java/contrail/avro/GraphStats.java:402-463 | the bin loop computes N50 |
| Fastq.ChooseSuffix | src/contrail/FastqPreprocessorAvro.java:63-70 | a name containing "_1." gets the suffix "_1"; otherwise one containing "_2." gets "_2"; otherwise none; the counter name follows |
| Fastq.CleanChars | src/contrail/FastqPreprocessorAvro.java:95 | cleaning keeps the length and replaces exactly the characters of `[:#-.\|/]` with '_' |
| Fastq.CleanIsClean | src/contrail/FastqPreprocessorAvro.java:95 | a cleaned name has none of those characters, and cleaning is idempotent |
| Fastq.CleanKeepsCleanNames | src/contrail/FastqPreprocessorAvro.java:95 | a name without those characters is unchanged |
| Fastq.IndexOf | src/contrail/FastqPreprocessorAvro.java:88 | `indexOf` returns -1 or a position holding the character |
| Fastq.IndexOfFirst | src/contrail/FastqPreprocessorAvro.java:88 | it returns -1 exactly when the character is absent, and otherwise the first occurrence |
| Fastq.ReadNameShape | src/contrail/FastqPreprocessorAvro.java:88-92 | the read name is the header text after '@' up to the first space or the end |
| Fastq.HeaderNameShape | src/contrail/FastqPreprocessorAvro.java:81-100 | the id is the read name with each character of the class `[:#-.|/]` turned into '_' and every other character kept, followed by the suffix (or nothing when there is none); the name part holds no space |
| Fastq.ReadsOfRecords | src/contrail/FastqPreprocessorAvro.java:77-118 | the reads of a line sequence match its complete four-line records, one read per record |
| Fastq.HeaderStep | src/contrail/FastqPreprocessorAvro.java:79-101 | a valid header line at idx 0 starts a record named after it |
| Fastq.BodyStep | src/contrail/FastqPreprocessorAvro.java:102-103 | lines 2 and 3 advance the state, and line 2 supplies the bases |
| Fastq.QualityStep | src/contrail/FastqPreprocessorAvro.java:104-118 | the quality line completes the record and adds its read |
| Fastq.InRecordReads | src/contrail/FastqPreprocessorAvro.java:77-118 | the mapper state matches the reads of the lines so far, with idx equal to the line count mod 4 |
| Fastq.InRecordBadHeader | src/contrail/FastqPreprocessorAvro.java:83-86 | a non-header line where a header is due makes the whole input invalid |
| Fastq.FastqPreprocessorMapper.constructor | src/contrail/FastqPreprocessorAvro.java:49-57 | the field initialisers: idx 0, no name, no suffix, counter "pair_unknown" |
| Fastq.FastqPreprocessorMapper.Configure | src/contrail/FastqPreprocessorAvro.java:59-73 | configure records the file name and, when suffixes are on, takes the suffix and counter ChooseSuffix picks |
| Fastq.FastqPreprocessorMapper.Map | src/contrail/FastqPreprocessorAvro.java:75-119 | a line fails exactly when a header is due and the line is not one; otherwise idx advances mod 4, and the fourth line emits the read and bumps both counters |
| Fastq.FastqPreprocessorMapper.MapHeader | src/contrail/FastqPreprocessorAvro.java:79-101 | the header branch fails on an empty or non-'@' line, keeping the raw line as the name; otherwise it stores the cleaned, suffixed id |
| Fastq.FastqPreprocessorMapper.MapBody | src/contrail/FastqPreprocessorAvro.java:102-103 | the second line is kept as the bases; the third is skipped |
| Fastq.FastqPreprocessorMapper.MapQuality | src/contrail/FastqPreprocessorAvro.java:104-116 | the fourth line emits the read and increments the read and pair counters |
| Fastq.FastqPreprocessorMapper.Close | src/contrail/FastqPreprocessorAvro.java:121-127 | close fails exactly when the input stopped mid-record, reporting idx |
| Fastq.PreprocessFile | src/contrail/FastqPreprocessorAvro.java:59-127 | a whole file succeeds exactly when every fourth line is a header and the line count is a multiple of 4, and then yields its reads; otherwise it reports the first bad header or the unfinished record |
| Fastq.HeaderOfPlainId | src/contrail/FastqPreprocessorAvro.java:81-100 | the header "@id" of a plain id parses back to that id |
| Fastq.FormatThenPreprocess | src/contrail/FastqPreprocessorAvro.java:77-118 | writing reads with plain ids as FASTQ records and preprocessing them returns the same reads |
| Rekey.MapRecord | src/main/java/contrail/stages/RekeyByComponentId.java:92-103 | a node record is emitted once under its id; a component emits its id under each listed node id, in list order |
| Rekey.ComponentFanOut | src/main/java/contrail/stages/RekeyByComponentId.java:99-103 | one pair per listed node id, each carrying the component id |
| Rekey.LastComponentId | src/main/java/contrail/stages/RekeyByComponentId.java:129-137 | the key left after the loop is absent exactly when no component id arrived, and otherwise is one that arrived |
| Rekey.LastComponentIdIsLast | src/main/java/contrail/stages/RekeyByComponentId.java:129-137 | that key is the last component id to arrive |
| Rekey.LastNode | src/main/java/contrail/stages/RekeyByComponentId.java:129-137 | the value left after the loop is absent exactly when no node record arrived, and otherwise is one that arrived |
| Rekey.LastNodeIsLast | src/main/java/contrail/stages/RekeyByComponentId.java:129-137 | that value is the last node record to arrive |
| Rekey.JoinOutput | src/main/java/contrail/stages/RekeyByComponentId.java:144-145 | a pair is emitted exactly when both a component id and a node record arrived, and it is built from values that arrived |
| Rekey.JoinCounters | src/main/java/contrail/stages/RekeyByComponentId.java:139-158 | one call bumps "more than 2 records" on more than two values, "missing component id" when none arrived, and "missing node data" when only the node is missing; no other counter changes |
| Rekey.Reducer.constructor | src/main/java/contrail/stages/RekeyByComponentId.java:114-117 | configure sets the output pair to an empty key and a node value; nothing is collected or counted yet |
| Rekey.Reducer.Reduce | src/main/java/contrail/stages/RekeyByComponentId.java:120-159 | the pair is cleared and then overwritten in arrival order; the call fails exactly when there are no values; it collects the join and reports the counters |
| Rekey.EmittedNode | src/main/java/contrail/stages/RekeyByComponentId.java:92-95 | a node value is emitted under an id exactly when that node record, with that id, is an input |
| Rekey.EmittedComponentId | src/main/java/contrail/stages/RekeyByComponentId.java:97-103 | a component id is emitted under a node id exactly when some component with that id lists the node |
| Rekey.GroupedValues | src/main/java/contrail/stages/RekeyByComponentId.java:88-105 | the reducer for an id receives exactly that id's node records and the ids of the components listing it |
| Rekey.JoinEmitsIff | src/main/java/contrail/stages/RekeyByComponentId.java:125-158 | over the whole job, a node id is emitted exactly when some node record has it and some component lists it |
| Rekey.JoinUnique | src/main/java/contrail/stages/RekeyByComponentId.java:125-158 | with one node record and one component per id, the job emits exactly (component id, node record) |

## Left out

- Counters of Compressible ("remotemark", "nodes", "compressible") and of PairMark ("nodes", "compressible"): not modelled. They do not affect what is emitted. The FASTQ and rekey counters are modelled.
- Message text: `toNodeMsg`, `parseNodeMsg`, `fromNodeMsg` and tab splitting are modelled as datatypes, not strings.
- Node internals: `gettail`/`getTail` are taken as a node field, and `replacelink` is a function parameter of the PairMark reducer. Graph node classes are not part of this model.
- Random numbers: `new Random(seed).nextDouble() >= .5` is the parameter `draw` of `Coins`. Only the seed computation is written out, with Java's 32-bit `hashCode` and sign extension.
- PairMark.HashCode and PairMark.StrLess: they agree with Java's `String.hashCode` and `String.compareTo` only on ids made of characters in the Basic Multilingual Plane. A Dafny `char` is a Unicode scalar value, while Java hashes and compares UTF-16 code units, so an id holding a supplementary character would hash and order differently.
- GraphStats.RecordHolds: the N50 index is stated as the first index reaching half, counting from where the previous bin's scan stopped. That it is also the first such index overall is not proved. That would need non-negative lengths and an induction over the bins.
- Compressible.ReduceOutput: `parseNodeMsg` is not part of this model. The parsed record stands for the node's whole state, its id included. The output is keyed by the reduce key, as `new Node(key)` and `getNodeId()` do. Over the whole job, the record that reaches key `k` has id `k` (GroupedNodeRecords).
- Floating point: `binLength` (`Math.log10`) is an input `bin`, and the coverage sums are not modelled.
- Integer widths: Java `int` and `long` overflow are not modelled, except in `hashCode`. Lengths and sums are unbounded integers.
- Object reuse and aliasing: output pairs, records and nodes that the sources reuse between `collect` calls are modelled as values. The collector is a sequence of copies.
- Configuration parsing: `Long.parseLong`/`Integer.parseInt` failures are not modelled. `randseed` and `PREPROCESS_SUFFIX` are parameters.
- The PairMark mapper's `node`, `output` and `out_pair` fields are never initialised in the source, which would fail at the first `map`. The model assumes these objects exist.
- PairMark.ConvertDownToUp: requires a buddy on at least one strand. With neither buddy the source would dereference a null at line 229, but `map` returns before calling it in that case.
- Fastq.FastqPreprocessorMapper.Configure: requires that no line has been mapped yet. The framework calls `configure` before `map`.
- Fastq.PreprocessFile: a file is read by one mapper. The splitting into 2,000,000-line tasks is not modelled.
- Logging (`sLogger`, `System.err`): not modelled. `ContrailLogger` is not part of this model, so whether `fatal` throws the `RuntimeException` it is handed is not known here. In the rekey reducer `fatal` is the last statement, after the counter is bumped and with nothing collected, so the model ends the call there. A failure of the task that a throw would cause is not modelled.
- Job setup and I/O are not modelled: `run`, `runJob`, `main`, parameter definitions, input schemas, `createOutputIterators` and `writeN50StatsToFile`.
- GraphStats: the bin key order is whatever order the bins are read in. Reading output files back into iterators is not modelled.

## Findings

| source | as written | input that shows it | evidently intended | confidence | as-written member | corrected member |
|---|---|---|---|---|---|---|
| src/main/java/contrail/avro/PairMarkAvro.java:316-323 | the merge branch sets the output key and value but never calls `collector.collect`, so a node that is to merge disappears from the output | node "a" whose only forward tail is "b", coins where "b" flips Down and "a" flips Up | emit the node under the id of the buddy it merges into | not executed | PairMark.MapAsWrittenDropsMergingNode | PairMark.Map |
| src/main/java/contrail/avro/GraphStats.java:123-141 | `configure` installs an empty length list and `map` calls `set(0, len)` on it, which throws on the first node | any node, mapped right after `configure` | the record's length list is the one-element list holding the contig's length | not executed | GraphStats.ConfigureThenMap | GraphStats.ReduceOfMapped |
