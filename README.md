# Hi-C alignment post-processing tools, modelled in Dafny

This project models three small command-line tools that post-process
alignment records (SAM/BAM) in a Hi-C mapping pipeline:

- **filter_five_end**: reads a stream of alignments in which the records of
  one read are consecutive. For each group of equal query names it writes one
  record. The group's earliest record whose 5' end starts with an aligned
  CIGAR operation is written unchanged when the group has one or two records.
  Otherwise the group's first record is written with the unmapped bit set.
- **two_read_bam_combiner**: checks that the read-1 and read-2 alignment
  files name the same reference sequences in the same order. It then walks
  both streams in lock-step and stops with the 1-based step number at the
  first read-name mismatch. It drops pairs in which either read is unmapped
  or below the mapping-quality threshold. Every kept pair is written as two
  records with cross-assigned mate fields, signed insert sizes and pairing
  flags.
- **get_stats**: one pass over a combined pair stream. It counts intra- and
  inter-reference records and the intra-reference records whose absolute
  insert size is at or above each of four thresholds (1000, 10000, 15000 and
  20000). It also counts valid pairs in total and per
  reference sequence, sums the reference lengths, and halves the
  record-based counts.

A record is a datatype with the fields the tools read or write (`Sam.Record`).
Value ranges follow section 1.4 of the SAM format specification (SAMv1). The
flag is a 16-bit bit-vector. CIGAR operations follow the BAM codes of section
4.2. Streams are sequences of records. Output is a returned sequence. Fatal
exits are result values.

Files:

- `sam.dfy`: the record model.
- `five_end.dfy`: filter_five_end.
- `pair_combiner.dfy`: two_read_bam_combiner.
- `pair_stats.dfy`: the integer part of get_stats.

The loops of the tools are Dafny methods with loops:

- `FiveEnd.FilterFiveEnd`
- `PairCombiner.CheckHeaders`
- `PairCombiner.CombineStreams`
- `PairStats.AssemblyLengths`
- `PairStats.GetStats`

Each method is proved equal to a specification function: `Consolidate`,
`Compatible`, `Emitted`, `TargetLengths`/`Sum` and `Count`. The lemmas
state what those functions promise.

## Model

| member | source | states |
|---|---|---|
| `FiveEnd.IsAlignmentMatch` | filter_five_end/filter_five_end.c:24-28 | the match class M, = and X that both CIGAR tests (lines 24, 28 and 38) accept; a definition, used by the lemmas below |
| `FiveEnd.SetUnmapped` | filter_five_end/filter_five_end.c:6-10 | the unmapped bit 0x4 is set; every other flag bit and every other field is unchanged |
| `FiveEnd.SetUnmappedIdempotent` | filter_five_end/filter_five_end.c:6-10 | setting the unmapped bit twice is the same as setting it once |
| `FiveEnd.SetUnmappedFixedPoints` | filter_five_end/filter_five_end.c:6-10 | a record is left unchanged exactly when its unmapped bit was already set |
| `FiveEnd.FivePrimeMatchAsWritten` | filter_five_end/filter_five_end.c:12-30 | `is_five_prime_match` as written: the operation at the first (forward) or last (reverse) CIGAR index is M, = or X, defined only when the CIGAR is non-empty; a definition, whose meaning `FivePrimeAsWrittenReadsFivePrimeEnd` states and whose missing case `EmptyCigarReadsOutside` shows |
| `FiveEnd.IsFivePrimeMatch` | filter_five_end/filter_five_end.c:12-30 | the corrected, total 5' test that the grouping loop calls at line 170: as written on a non-empty CIGAR, false on an empty one; a definition, related to the as-written one by `FivePrimeMatchCorrected` |
| `FiveEnd.EmptyCigarReadsOutside` | filter_five_end/filter_five_end.c:12-30 | for a record with no CIGAR operation, the index the test reads is outside the CIGAR on either strand |
| `FiveEnd.FivePrimeAsWrittenReadsFivePrimeEnd` | filter_five_end/filter_five_end.c:12-30 | with at least one operation, the test is true iff the first operation in read orientation (first on forward, last on reverse) is M, = or X |
| `FiveEnd.FivePrimeMatchCorrected` | filter_five_end/filter_five_end.c:12-30 | the total test agrees with the test as written whenever the CIGAR is non-empty, and is false for an empty CIGAR |
| `FiveEnd.FivePrimeStrandSymmetry` | filter_five_end/filter_five_end.c:12-30 | flipping the strand bit and reversing the CIGAR, which describes the same read, gives the same answer |
| `FiveEnd.FivePrimeIgnoresUnmapped` | filter_five_end/filter_five_end.c:6-30 | setting the unmapped bit does not change the 5' classification |
| `FiveEnd.IsThreePrimeMatch` | filter_five_end/filter_five_end.c:32-39 | true iff the last CIGAR operation is M, = or X, whatever the strand |
| `FiveEnd.ThreePrimeAgainstFivePrime` | filter_five_end/filter_five_end.c:12-39 | on the reverse strand the two tests agree; on the forward strand the 3' test reads the read's last operation in read orientation |
| `FiveEnd.ThreePrimeIgnoresFlag` | filter_five_end/filter_five_end.c:32-39 | the 3' test does not depend on any flag bit |
| `FiveEnd.ProcessGroup` | filter_five_end/filter_five_end.c:40-72 | an open group writes exactly one record; no open group writes nothing |
| `FiveEnd.FirstMatchIsEarliest` | filter_five_end/filter_five_end.c:170-172 | the position found is a 5'-matching record with no match before it; none is found only when no record of the group matches |
| `FiveEnd.SummaryTracksGroup` | filter_five_end/filter_five_end.c:163-175 | the state of an open group holds its name, its first record, its earliest 5'-matching record (present iff some record matches) and its length |
| `FiveEnd.RepresentativeOfSingle` | filter_five_end/filter_five_end.c:41-55 | a group of one writes its record unchanged if it matches, else with the unmapped bit set |
| `FiveEnd.RepresentativeOfPair` | filter_five_end/filter_five_end.c:41-71 | a group of two writes its earliest matching record unchanged (possibly the second), else its first record with the unmapped bit set |
| `FiveEnd.RepresentativeOfLarger` | filter_five_end/filter_five_end.c:62-71 | a group of three or more writes its first record with the unmapped bit set, even when some record matches |
| `FiveEnd.RepresentativeIsChosen` | filter_five_end/filter_five_end.c:40-72 | the written record is a matching member of the group, unchanged, or the first record marked unmapped; for a group of one name it carries that name |
| `FiveEnd.Runs` | filter_five_end/filter_five_end.c:146-176 | the cut into runs has no more runs than records, is empty iff the input is, and has no empty run |
| `FiveEnd.RunsFlatten` | filter_five_end/filter_five_end.c:146-176 | concatenating the runs gives back the input, in order |
| `FiveEnd.RunsUniform` | filter_five_end/filter_five_end.c:149 | every record of a run has the run's name |
| `FiveEnd.RunsMaximal` | filter_five_end/filter_five_end.c:149 | neighbouring runs have different names, so the runs are maximal |
| `FiveEnd.RunsCount` | filter_five_end/filter_five_end.c:146-179 | the number of runs is the number of name changes plus one, and zero for an empty input |
| `FiveEnd.EmitAt` | filter_five_end/filter_five_end.c:151 | the k-th written record is the representative of the k-th run |
| `FiveEnd.Consolidate` | filter_five_end/filter_five_end.c:146-179 | the reference output of the tool: the representative of each maximal run of equal names, in order; a definition, independent of the loop, whose properties `ConsolidateShape` and the `Runs` lemmas state |
| `FiveEnd.ConsolidateShape` | filter_five_end/filter_five_end.c:146-179 | one record per maximal run, in input order, the k-th being the k-th run's representative and carrying its name; nothing for an empty input |
| `FiveEnd.Flushed` | filter_five_end/filter_five_end.c:149-163 | what one loop iteration writes: the open group's record when the name changes and a group is open, else nothing; a definition, whose role `ProgressJoin`, `ProgressOpen` and `ProgressFirst` state |
| `FiveEnd.Stored` | filter_five_end/filter_five_end.c:166-175 | how one loop iteration stores a record: a same-name record extends the open group, keeping its first record and its earliest match; another name opens a group of one; a definition, tied to `Summary` by `SummarySnoc` and `SummarySingle` |
| `FiveEnd.SummarySnoc` | filter_five_end/filter_five_end.c:166-175 | a record with the open group's name updates the group state by one storing step |
| `FiveEnd.SummarySingle` | filter_five_end/filter_five_end.c:166-175 | a record opening a group makes it the first record, the earliest match iff it matches, and sets the count to one |
| `FiveEnd.ProgressStep` | filter_five_end/filter_five_end.c:146-176 | one loop iteration closes the group on a name change and stores the record: the loop state is a left fold over the input |
| `FiveEnd.ProgressJoin` | filter_five_end/filter_five_end.c:166-175 | a record with the open group's name writes nothing and joins the group |
| `FiveEnd.ProgressOpen` | filter_five_end/filter_five_end.c:149-175 | a record with another name writes the open group's representative and opens a group of its own |
| `FiveEnd.ProgressFirst` | filter_five_end/filter_five_end.c:149-175 | the first record writes nothing and opens the first group |
| `FiveEnd.ProgressEnd` | filter_five_end/filter_five_end.c:178-179 | the final flush of the open group completes the output |
| `FiveEnd.FilterFiveEnd` | filter_five_end/filter_five_end.c:146-179 | the grouping loop writes exactly the consolidated stream |
| `PairCombiner.Compatible` | two_read_bam_combiner/two_read_bam_combiner.c:47-60 | the header condition: equal numbers of reference sequences with equal names at every index; a definition, characterised by `CompatibleIffSameNames` and computed by `CheckHeaders` |
| `PairCombiner.CompatibleIffSameNames` | two_read_bam_combiner/two_read_bam_combiner.c:47-60 | the tables are compatible iff their name lists are equal; lengths play no part |
| `PairCombiner.CheckHeaders` | two_read_bam_combiner/two_read_bam_combiner.c:47-60 | no mismatch iff the tables are compatible; a count mismatch is reported iff the counts differ, otherwise a name mismatch |
| `PairCombiner.Dropped` | two_read_bam_combiner/two_read_bam_combiner.c:91-94 | the skip condition: either read unmapped or either mapping quality below the threshold; a definition, whose effect `PairOutput` states |
| `PairCombiner.InsertSizes` | two_read_bam_combiner/two_read_bam_combiner.c:96-107 | on one reference each read gets its mate's position minus its own; across references both get 0 |
| `PairCombiner.InsertSizeProperties` | two_read_bam_combiner/two_read_bam_combiner.c:96-107 | the sizes are opposite, their magnitude is the distance, the read at or after its mate gets the negative one, equal positions give 0 to both |
| `PairCombiner.PairFlag` | two_read_bam_combiner/two_read_bam_combiner.c:118-130 | the pairing flag of one record: proper-pair, its read bit and paired ORed in, supplementary cleared, mate-reverse ORed in when the mate is reverse; a definition, whose every bit `PairFlagBits` states |
| `PairCombiner.PairFlagBits` | two_read_bam_combiner/two_read_bam_combiner.c:118-130 | paired, proper-pair and the read bit are set, supplementary is cleared, mate-reverse is set iff it was set or the mate is reverse, and all other bits keep their value |
| `PairCombiner.Mated` | two_read_bam_combiner/two_read_bam_combiner.c:109-130 | each record gets the other's reference and position as mate fields, its insert size and its pairing flag; nothing else changes |
| `PairCombiner.MatedLinked` | two_read_bam_combiner/two_read_bam_combiner.c:109-116 | the two written records point at each other, have opposite insert sizes, and keep their own name, reference, position, quality and CIGAR |
| `PairCombiner.ReadBitsWhenFresh` | two_read_bam_combiner/two_read_bam_combiner.c:119-120 | when neither input carries READ1 or READ2, the first written record has exactly READ1 and the second exactly READ2 |
| `PairCombiner.SwapStreams` | two_read_bam_combiner/two_read_bam_combiner.c:96-130 | swapping the streams swaps the written records except for the read bit they gain |
| `PairCombiner.PairOutput` | two_read_bam_combiner/two_read_bam_combiner.c:91-94 | a pair writes nothing iff either read is unmapped or below the threshold, and otherwise its two mated records, record 1 first |
| `PairCombiner.PairOutputLinked` | two_read_bam_combiner/two_read_bam_combiner.c:91-139 | a kept pair of equal names is written as one linked pair |
| `PairCombiner.Emitted` | two_read_bam_combiner/two_read_bam_combiner.c:72-140 | the reference output of the first n lock-step steps: the concatenation of each step's pair output; a definition, whose properties `EmittedIgnoresRest` and `EmittedArePairs` state and which `CombineStreams` computes |
| `PairCombiner.EmittedIgnoresRest` | two_read_bam_combiner/two_read_bam_combiner.c:72 | what is written for the first n steps does not depend on later records of either stream |
| `PairCombiner.EmittedArePairs` | two_read_bam_combiner/two_read_bam_combiner.c:72-140 | the output has even length and each consecutive pair is mapped, above the threshold, named alike, flagged READ1 then READ2 as a proper pair without supplementary, and linked through the mate fields |
| `PairCombiner.MarkPaired` | two_read_bam_combiner/two_read_bam_combiner.c:118-130 | the in-place flag updates of one record compute its pairing flag |
| `PairCombiner.MatePair` | two_read_bam_combiner/two_read_bam_combiner.c:96-130 | the in-place updates of a kept pair compute the mated pair |
| `PairCombiner.CombineStreams` | two_read_bam_combiner/two_read_bam_combiner.c:72-140 | runs for the length of the shorter stream; on a name mismatch at step k (1-based) it stops with k, the earlier names agree and the output is what the first k-1 steps wrote; otherwise all names agree and the output is what every step wrote |
| `PairCombiner.RunCombiner` | two_read_bam_combiner/two_read_bam_combiner.c:47-140 | incompatible tables fail before any record is read and with nothing written; otherwise the result is that of the lock-step loop |
| `PairStats.IsIntra` | get_stats/get_stats.c:84 | a record is intra-reference when its mate is on its own reference and that reference is not -1; a definition, used by `Count` |
| `PairStats.IsValidPair` | get_stats/get_stats.c:76 | a valid pair record carries both READ1 and proper-pair; a definition, used by `Count` |
| `PairStats.Count` | get_stats/get_stats.c:68-94 | the number of records of a class in a stream, never more than the stream's length; the reference count that `GetStats` is proved to compute |
| `PairStats.AbsInsertSize` | get_stats/get_stats.c:87 | the absolute insert size, which stays within 32 bits |
| `PairStats.IntraInterPartition` | get_stats/get_stats.c:69-94 | every record is counted in all and in exactly one of intra and inter, so intra + inter == all |
| `PairStats.CountMonotone` | get_stats/get_stats.c:84-91 | a class implied by another counts no more records |
| `PairStats.ThresholdsNested` | get_stats/get_stats.c:84-91 | intra_20 <= intra_15 <= intra_10 <= intra_1 <= intra |
| `PairStats.BinsBoundedByTotal` | get_stats/get_stats.c:76-81 | the per-sequence bins add up to the valid pairs whose reference index is in the table, so never more than the total |
| `PairStats.HalvedCounts` | get_stats/get_stats.c:98-104 | halving keeps the nesting, and the halves of intra and inter add up to half of all or one less |
| `PairStats.TargetLengths` | get_stats/get_stats.c:62-65 | one length per reference sequence, in table order |
| `PairStats.AssemblyLengths` | get_stats/get_stats.c:62-65 | the length array equals the table's lengths and the total is their sum |
| `PairStats.CountValidPair` | get_stats/get_stats.c:76-81 | one record adds to the total and to its bin exactly when it is a READ1 proper-pair record, and to a bin only when its reference index is in the table |
| `PairStats.GetStats` | get_stats/get_stats.c:62-104 | each reported counter is the floor half of the number of records of its class; the valid-pair total and bins are not halved; the lengths are those of the table |

## Left out

- Reading and writing files, htslib's record encoding and accessors, and
  command-line parsing are not modelled. Streams are sequences, and output is
  a returned sequence.
- Write failures are not modelled: `sam_write1` and `sam_hdr_write` are
  assumed to succeed.
- Progress logging every million steps in two_read_bam_combiner is left out.
- The `counter` it kept for that is modelled only as the step number reported
  on a name mismatch.
- PairCombiner.CombineStreams: the step number is an unbounded `nat`, while
  the source keeps it in a 32-bit `int` (lines 69 and 73). The reported step
  is exact only while the streams have at most 2^31 - 1 records each; beyond
  that the C counter overflows, which the model does not capture.
- All printed output is left out. The per-Mb floating-point rates of get_stats
  (lines 106-128) are left out, because the model has no floating point.
- Memory management is left out: `bam_dup1`, `bam_destroy1`, `calloc`,
  `free`, and the 1024-byte `prev_id` buffer with `strcpy`. Records are
  values.
- FiveEnd.FilterFiveEnd: requires every query name to be non-empty. The
  source uses an empty stored name to mean "no group open yet", so an empty
  name would be merged into the next group. SAM query names have at least one
  character.
- Integer widths: positions, template lengths and reference indices are
  bounded by subset types to the SAM ranges. With those bounds the C `abs` of
  a position difference and of an insert size cannot overflow, so
  `isize == INT32_MIN` cannot arise.
- The `long` counters of get_stats are unbounded integers; their overflow is
  not modelled.
- BAM CIGAR operation codes 9 to 15 are not valid SAM operations, and the
  CIGAR datatype does not represent them.
- FiveEnd.IsThreePrimeMatch: requires a non-empty CIGAR, as the source reads
  the last operation unconditionally. The tool never calls it.
- The combiner's flag update ORs READ1 or READ2 into the flag. A READ1
  or READ2 bit that was already set therefore survives. "Exactly one of READ1
  and READ2 per record" holds only when neither input carries either bit
  (`ReadBitsWhenFresh`). The model follows the code.
- The combiner's loop condition reads stream 2 only after stream 1 has
  produced a record. When stream 2 is exhausted first, one surplus stream-1
  record has been read and is ignored. The model has no read side effects,
  so this surplus read is not modelled.

## Findings

| source | as written | input that shows it | evidently intended | confidence | as-written member | corrected member |
|---|---|---|---|---|---|---|
| filter_five_end/filter_five_end.c:12-30 | `is_five_prime_match` reads `cigar[0]` (forward) or `cigar[n_cigar - 1]` (reverse) without checking `n_cigar` | an unmapped placeholder record with CIGAR `*` (no operations): either index is outside the CIGAR array | a record without CIGAR operations is not a 5' match | medium, not executed | `FiveEnd.FivePrimeMatchAsWritten`, `FiveEnd.EmptyCigarReadsOutside` | `FiveEnd.IsFivePrimeMatch`, `FiveEnd.FivePrimeMatchCorrected` |
