# CpG-island detector: discrete core in Dafny

This project models the integer and text logic around a two-state hidden
Markov model (CpG island / background) that finds CpG islands in one human
chromosome. The parts modelled are:

- the dinucleotide code `di_index` (16 symbols, -1 for a pair that is not ACGT);
- the training-data construction: `seq_to_dinuc`, the coordinate compression
  `map_to_comp` / `map_orig_coords_to_compressed` that removes lowercase
  (soft-masked) stretches, and `build_masked_sequences` with its chunks of
  1,000,000 dinucleotides and per-dinucleotide state masks;
- the hysteresis decoder `decode_hysteresis` and the window pipeline
  `process_window`: run extraction, global shift, keep range, clipping,
  trimming, merging, the length filter and the GC / observed-expected content
  filter;
- the window scan of the decoding application and the lowercase shift that
  moves predictions back to chromosome coordinates;
- the island-level and base-pair-level evaluation counts;
- the FASTA line state machines of the preprocessing: uppercase extraction
  with lowercase-run recording, removal of known islands from the background,
  and grouping of the positive set.

Modules, one per source file: `Regions` (shared types and the dinucleotide code),
`Postprocessing`, `Decode`, `Scan`, `Training`, `Evaluation`, `Preprocessing`.

Each imperative routine is a `method` with its loops, proved equal to a
specification function. Lemmas next to it then prove what the routine
promises: bounds, ordering, coverage, round trips, idempotence. Vectors
passed by reference and rebuilt are modelled as sequences in and out. The
per-base flag arrays of `build_masked_sequences` and the in-place `'\0'`
marking of `load_background` stay arrays. File streams become a sequence of
lines. The posterior probabilities are a `seq<real>` given as input. Only
comparisons are made on them.

## Model

| member | source | states |
|---|---|---|
| Regions.BaseCode | utils/structs_consts_functions.hpp:38-45 | A, C, G, T get codes 0..3 and decode back to the same letter; every other character (lowercase included) gets -1 |
| Regions.DiIndex | utils/structs_consts_functions.hpp:47-53 | the result lies in [-1, NSYM) and is -1 exactly when either character is not one of A, C, G, T |
| Regions.DiIndexIsArithmetic | utils/structs_consts_functions.hpp:47-53 | for two bases the code is 4 * code(first) + code(second) |
| Regions.DiIndexDecodes | utils/structs_consts_functions.hpp:47-53 | a valid code decodes back to its two bases (code / 4 and code % 4) |
| Regions.DiIndexInjective | utils/structs_consts_functions.hpp:47-53 | distinct base pairs get distinct codes |
| Regions.CpGIndex | utils/structs_consts_functions.hpp:42-52 | the pair C, G has code 6 |
| Regions.InsertByStart | evaluation/evaluation.cpp:8-12 | inserting into a start-sorted list keeps it sorted and adds exactly the one element |
| Regions.ConsSorted | evaluation/evaluation.cpp:8-12 | a head no later than the inserted element and the rest stays first, so the list stays sorted by start |
| Regions.SortByStart | evaluation/evaluation.cpp:8-12 | the sort by start is sorted and a permutation of its input |
| Regions.SortSortedIsIdentity | postprocesing/decoded_postprocesing.cpp:119-122 | sorting an already sorted list changes nothing |
| Regions.SortKeepsElements | evaluation/evaluation.cpp:8-12 | an element is in the sorted list exactly when it is in the input |
| Regions.CoversAppend | postprocesing/decoded_postprocesing.cpp:8-12 | a position is covered by a list plus one region exactly when it is covered by the list or by that region |
| Postprocessing.ClipAll | postprocesing/decoded_postprocesing.cpp:4-15 | clipping never adds regions |
| Postprocessing.KeepAndClip | postprocesing/decoded_postprocesing.cpp:4-15 | the loop builds exactly the clipped list |
| Postprocessing.ClipAllInside | postprocesing/decoded_postprocesing.cpp:8-12 | every output is the intersection of some input with [keepStart, keepEnd], non-empty, with the input's chromosome |
| Postprocessing.ClipAllCoverage | postprocesing/decoded_postprocesing.cpp:4-15 | a position is covered by the output exactly when an input covers it and it lies in [keepStart, keepEnd]; so a region is dropped exactly when its intersection is empty |
| Postprocessing.FirstAtLeast | postprocesing/decoded_postprocesing.cpp:34 | the left trim never moves below its start |
| Postprocessing.LastAtLeast | postprocesing/decoded_postprocesing.cpp:35 | the right trim never moves above its end |
| Postprocessing.FirstAtLeastSpec | postprocesing/decoded_postprocesing.cpp:34 | the left trim stops at the first position whose posterior reaches the threshold; every position skipped is below it |
| Postprocessing.LastAtLeastSpec | postprocesing/decoded_postprocesing.cpp:35 | the right trim stops at the last position whose posterior reaches the threshold; every position skipped is below it |
| Postprocessing.TrimAll | postprocesing/decoded_postprocesing.cpp:18-47 | trimming never adds regions |
| Postprocessing.TrimOneSpec | postprocesing/decoded_postprocesing.cpp:27-43 | posterior reads stay in [0, size); a kept island's first and last local positions reach the threshold; an island whose positions are all below it is dropped |
| Postprocessing.TrimIslandsWithPosterior | postprocesing/decoded_postprocesing.cpp:18-47 | the two while loops per island compute exactly the trimmed list |
| Postprocessing.TrimIsland | postprocesing/decoded_postprocesing.cpp:29-43 | the two while loops of one island compute exactly its trimmed region, or none |
| Postprocessing.TrimAllInside | postprocesing/decoded_postprocesing.cpp:30-43 | every trimmed region lies inside the input region it came from |
| Postprocessing.AppendRun | postprocesing/decoded_postprocesing.cpp:72-78 | recording a maximal run after the earlier ones keeps the runs maximal, in order and covering every 1 seen so far |
| Postprocessing.KeepStep | postprocesing/decoded_postprocesing.cpp:69-80 | a state that closes no run opens one at a 1 when none is open, and otherwise keeps the loop state |
| Postprocessing.CloseStep | postprocesing/decoded_postprocesing.cpp:72-78 | a 0, or the last state, closes the open run as the maximal run [start, end+1] and appends it |
| Postprocessing.ExtractCpgIslands | postprocesing/decoded_postprocesing.cpp:66-81 | the list becomes the old entries followed by `Runs(states)`, the recursive run specification; each appended region is the run i..k of 1s as [i+1, k+2] with chromosome 0, maximal, in order, and every 1 lies in one |
| Postprocessing.RunsFromSpec | postprocesing/decoded_postprocesing.cpp:67-79 | from any point of the scan, the regions already closed followed by the runs still to come are maximal runs, in order, and cover every 1 |
| Postprocessing.RunsSpec | postprocesing/decoded_postprocesing.cpp:66-81 | every region of `Runs(states)` is a maximal run of 1s, consecutive regions are separated, and every 1 lies in one |
| Postprocessing.NoOnesNoRuns | postprocesing/decoded_postprocesing.cpp:70-71 | a state list with no 1 yields no region |
| Postprocessing.OffsetFromAtLeast | postprocesing/decoded_postprocesing.cpp:99-107 | the accumulated offset never decreases |
| Postprocessing.MoveByLowercase | postprocesing/decoded_postprocesing.cpp:98-112 | each prediction gets the same offset on start and end, so its length is kept; the offset is non-negative |
| Postprocessing.MergeFrom | postprocesing/decoded_postprocesing.cpp:124-133 | merging from a current region yields at least one region, starting at the current start and reaching at least its end |
| Postprocessing.MergeClose | postprocesing/decoded_postprocesing.cpp:124-133 | merging never adds regions |
| Postprocessing.KeepLong | postprocesing/decoded_postprocesing.cpp:137-141 | the length filter never adds regions |
| Postprocessing.MergeFromStarts | postprocesing/decoded_postprocesing.cpp:127-133 | no merged region starts before the current start |
| Postprocessing.MergeFromSeparated | postprocesing/decoded_postprocesing.cpp:127-133 | after merging, any two regions are more than MERGE_DISTANCE apart |
| Postprocessing.MergeFromCovers | postprocesing/decoded_postprocesing.cpp:127-133 | every input region lies inside some merged region |
| Postprocessing.MergeFromWithin | postprocesing/decoded_postprocesing.cpp:127-133 | merged regions stay within any bounds the inputs respect |
| Postprocessing.MergeFromSeparatedIsIdentity | postprocesing/decoded_postprocesing.cpp:127-133 | regions already more than MERGE_DISTANCE apart are left unchanged |
| Postprocessing.MergeCloseSeparated | postprocesing/decoded_postprocesing.cpp:124-133 | the merge of a sorted list is separated |
| Postprocessing.MergeCloseCovers | postprocesing/decoded_postprocesing.cpp:124-133 | the merge of a sorted list covers every input region |
| Postprocessing.KeepLongAllLong | postprocesing/decoded_postprocesing.cpp:137-141 | every kept region has at least MIN_CPG_LEN bases |
| Postprocessing.KeepLongMembers | postprocesing/decoded_postprocesing.cpp:137-141 | every kept region is an input region |
| Postprocessing.KeepLongSeparated | postprocesing/decoded_postprocesing.cpp:137-141 | dropping regions keeps a separated list separated |
| Postprocessing.KeepLongAllLongIsIdentity | postprocesing/decoded_postprocesing.cpp:137-141 | a list of long regions passes the filter unchanged |
| Postprocessing.MergeAndFilterSpec | postprocesing/decoded_postprocesing.cpp:116-142 | the output is sorted by start, every region has at least 250 bases, and consecutive regions are more than 50 apart |
| Postprocessing.MergeAndFilterIdempotent | postprocesing/decoded_postprocesing.cpp:116-142 | applying the merge and length filter twice gives the same list as once |
| Postprocessing.MergeAndFilterWithin | postprocesing/decoded_postprocesing.cpp:116-142 | outputs stay within any bounds the inputs respect |
| Postprocessing.MergePass | postprocesing/decoded_postprocesing.cpp:124-133 | the loop that extends `temp.back().end` computes exactly the merge |
| Postprocessing.LengthPass | postprocesing/decoded_postprocesing.cpp:135-141 | the loop computes exactly the length filter |
| Postprocessing.FilterLengthAndMergeCloseIslands | postprocesing/decoded_postprocesing.cpp:116-142 | empty input stays empty; otherwise sort, merge and length filter compute exactly the specified list |
| Postprocessing.CountBounds | postprocesing/decoded_postprocesing.cpp:162-168 | C + G counts never exceed the length, and CpG pairs never exceed the C count or the G count |
| Postprocessing.CountCLastPair | postprocesing/decoded_postprocesing.cpp:162-168 | a C in last position is counted as C but starts no CpG pair |
| Postprocessing.ContentFilter | postprocesing/decoded_postprocesing.cpp:145-182 | the content filter never adds regions |
| Postprocessing.ContentRejects | postprocesing/decoded_postprocesing.cpp:155-176 | a region with clipped length at most 0, or with no C or no G (observed/expected ratio 0), is rejected |
| Postprocessing.ContentFilterMembers | postprocesing/decoded_postprocesing.cpp:151-179 | every kept region is an input region, unchanged, and passes the GC and observed/expected thresholds |
| Postprocessing.ContentFilterKeepsPassing | postprocesing/decoded_postprocesing.cpp:151-179 | every input region that passes the thresholds is kept |
| Postprocessing.ContentFilterIdempotent | postprocesing/decoded_postprocesing.cpp:145-182 | filtering twice gives the same list as once |
| Postprocessing.ContentFilterSeparated | postprocesing/decoded_postprocesing.cpp:145-182 | filtering keeps a separated list separated |
| Postprocessing.CountContent | postprocesing/decoded_postprocesing.cpp:157-168 | the counting loop yields the C, G and CpG counts of the clipped slice (after toupper) |
| Postprocessing.FilterByContent | postprocesing/decoded_postprocesing.cpp:145-182 | the loop computes exactly the content filter |
| Decode.Decoded | algorithms/decode.cpp:28-42 | one state per posterior value |
| Decode.DecodedStartsOut | algorithms/decode.cpp:29-38 | every state is 0 or 1, and the machine starts OUT: the first state is 1 exactly when the first value reaches `enter` |
| Decode.DecodedTransitions | algorithms/decode.cpp:32-38 | the state switches 0 to 1 only on a value at or above `enter` and 1 to 0 only on one below `exit`; it holds 1 while values stay at or above `exit` and 0 while they stay below `enter` |
| Decode.DecodedPlainThreshold | algorithms/decode.cpp:32-38 | with equal thresholds the state is 1 exactly when the value reaches the threshold |
| Decode.DecodeHysteresis | algorithms/decode.cpp:28-42 | the one-pass loop fills exactly the specified states |
| Decode.HysteresisLatch | algorithms/decode.cpp:32-38 | with enter >= exit the machine is IN at t exactly when some earlier value reached `enter` and none after it fell below `exit` |
| Decode.SeparatedLongSorted | algorithms/decode.cpp:77-78 | long regions more than MERGE_DISTANCE apart are sorted by start |
| Decode.ShiftIslands | algorithms/decode.cpp:66-70 | the result is `ShiftAll(islands, d)`: the list keeps its length and every region is moved by the window start on both ends, its chromosome kept |
| Decode.FilterWindow | algorithms/decode.cpp:75-78 | the four in-place passes compute exactly `FilterChain`: the content filter of the merge of the trim of the clip to [lo, hi] |
| Decode.FilterChainSpec | algorithms/decode.cpp:75-78 | the chain's result lies in [lo, hi], is sorted by start and separated by more than 50, and every island has at least 250 bases and passes the content test |
| Decode.ShiftedRuns | algorithms/decode.cpp:60-70 | decoding, run extraction into an empty list and the shift compute exactly the shifted runs of the decoded states |
| Decode.ProcessWindow | algorithms/decode.cpp:45-85 | the window's result is exactly `WindowIslands`: the filter chain, with keep range [keep_left+1, keep_right+1], applied to the runs of the decoded posterior shifted by the window start |
| Decode.WindowIslandsSpec | algorithms/decode.cpp:72-78 | every island of a window lies in [keep_left+1, keep_right+1], the list is sorted by start and separated by more than 50, and every island has at least 250 bases and passes the content test |
| Decode.StaysOut | algorithms/decode.cpp:32-38 | a machine whose values all stay below `enter` is never IN |
| Decode.QuietWindowEmpty | algorithms/decode.cpp:58-78 | a window whose posterior stays below `enter` everywhere reports no island |
| Scan.WindowsFromShape | apps/decode_and_evaluation.cpp:34-37 | the k-th window from a start begins k steps later, is cut at T and holds at least two positions |
| Scan.WindowsShape | apps/decode_and_evaluation.cpp:10-37 | window k is [k * STEP, min(k * STEP + WINDOW, T)) and lies in [0, T) |
| Scan.CoverFrom | apps/decode_and_evaluation.cpp:33-37 | the windows from a start cover every later position below T |
| Scan.WindowsCover | apps/decode_and_evaluation.cpp:33-37 | for T >= 2 the windows cover [0, T) |
| Scan.KeepRangesMeet | algorithms/decode.cpp:73-74 | where a window ends before T, its keep range ends exactly where the next one's begins |
| Scan.TiledLink | algorithms/decode.cpp:73-74 | a full window's keep range is non-empty and ends where the next window's begins |
| Scan.TiledLast | algorithms/decode.cpp:73-74 | the keep range of a window reaching T is non-empty |
| Scan.TilesCons | apps/decode_and_evaluation.cpp:34-37 | a window whose keep range meets the next one's extends a tiling |
| Scan.TailWindowTwice | apps/decode_and_evaluation.cpp:34-37 | for T = 5,000,000 the scan visits two windows that both reach T, and the second keep range lies inside the first |
| Scan.TiledFromEnds | apps/decode_and_evaluation.cpp:34-37 | with the scan stopped after a window reaching T, the windows from a start begin there and the last one ends at T; there are none only when fewer than two positions remain |
| Scan.TiledFromSpec | apps/decode_and_evaluation.cpp:34-37 | with that stop, consecutive keep ranges meet and none is empty |
| Scan.TiledPartitions | apps/decode_and_evaluation.cpp:33-49 | with that correction the keep ranges partition [0, T) |
| Scan.TiledIsPrefix | apps/decode_and_evaluation.cpp:34-37 | the corrected windows are a prefix of the windows the source visits |
| Scan.WindowReported | apps/decode_and_evaluation.cpp:39-46 | the islands of a window inside [0, T) lie in [1, T + 1], are long and pass the content test, and appending them keeps that for the whole list |
| Scan.ScanWindows | apps/decode_and_evaluation.cpp:33-49 | the result is exactly `ScanIslands`: the `WindowIslands` of every window the loop visits, concatenated in window order |
| Scan.GatherAppend | apps/decode_and_evaluation.cpp:44-48 | gathering two runs of windows one after the other is the concatenation of their gathered islands |
| Scan.GatherReported | apps/decode_and_evaluation.cpp:33-49 | when each window's islands lie in [1, T + 1], are long and pass the content test, so does every gathered island |
| Scan.ScanReported | apps/decode_and_evaluation.cpp:33-49 | every island of the scan lies in [1, T + 1], has at least 250 bases and passes the content test |
| Training.SeqToDinuc | train_functions/train_func.cpp:19-34 | the loop yields the codes of the pairs (pos-1, pos) for pos in start+1..end, in order, invalid pairs dropped |
| Training.DinucSpec | train_functions/train_func.cpp:19-34 | empty when end-start+1 < 2; at most end-start codes, each in [0, 16); exactly end-start of them when every pair is ACGT |
| Training.DinucCodes | train_functions/train_func.cpp:26-31 | every pushed code lies in [0, 16) |
| Training.DinucFull | train_functions/train_func.cpp:26-31 | when every pair is ACGT each pair yields one code |
| Training.DinucShort | train_functions/train_func.cpp:26-31 | a pair that is not ACGT drops its code, so fewer than end-start remain |
| Training.DinucKnown | train_functions/train_func.cpp:26-31 | the observation list is the list of all pair codes with the -1 entries dropped, in order |
| Training.PairCodesAt | train_functions/train_func.cpp:26-29 | one code per pair; entry k is the code of the pair at start-1+k |
| Training.PairCodeAt | train_functions/train_func.cpp:27-29 | the code of the pair at i sits at index i-start+1 |
| Training.KnownLength | train_functions/train_func.cpp:30 | dropping the -1 codes never lengthens the list |
| Training.KnownFull | train_functions/train_func.cpp:30 | with no -1 code nothing is dropped |
| Training.KnownShort | train_functions/train_func.cpp:30 | a -1 code is dropped, so the result is shorter |
| Training.MapToComp | train_functions/train_func.cpp:37-49 | the result is the position minus the lowercase positions before it, counted until the first region not before it |
| Training.RemovedNonNegative | train_functions/train_func.cpp:37-49 | nothing negative is removed, so the result never exceeds the input |
| Training.RemovedBeforeFirst | train_functions/train_func.cpp:40-41 | a position at or before the first lowercase region maps to itself |
| Training.RemovedIsRemovedAll | train_functions/train_func.cpp:40-46 | for regions sorted by start the early exit counts the same as summing over every region |
| Training.RemovedAllAfter | train_functions/train_func.cpp:41 | regions starting at or after the position remove nothing |
| Training.ShiftThenCompress | train_functions/train_func.cpp:37-49 | compressing a position shifted by the lowercase offset removes exactly the offset added |
| Training.ShiftRoundTrip | train_functions/train_func.cpp:37-49 | the lowercase shift followed by `map_to_comp` gives back the original start |
| Training.CompAll | train_functions/train_func.cpp:52-71 | the output is no longer than the input |
| Training.MapOrigCoordsToCompressed | train_functions/train_func.cpp:52-71 | the loop computes exactly the clamped compressed list |
| Training.CompAllSpec | train_functions/train_func.cpp:60-68 | outputs satisfy 1 <= start <= end <= sequence length and each is the clamped compression of some input, with that input's chromosome |
| Training.MaskRange | train_functions/train_func.cpp:130-147 | one mask entry per dinucleotide of the range |
| Training.ChunkStartNext | train_functions/train_func.cpp:116 | chunk starts advance by CHUNK_D |
| Training.ChunkAtShape | train_functions/train_func.cpp:122-153 | a kept chunk has one mask entry per code, between 2 and 1,000,000 codes, and every code is in [0, 16) |
| Training.ChunkFromSpec | train_functions/train_func.cpp:116-153 | a chunk is kept only if all its pairs are ACGT and it has at least two codes; its mask is the CpG / background / either rule |
| Training.ChunksSpec | train_functions/train_func.cpp:116-153 | every kept chunk starts at a multiple of 1,000,000 and satisfies the chunk rules |
| Training.AlignedShift | train_functions/train_func.cpp:116 | a chunk aligned to the next chunk start is aligned to this one |
| Training.AlignedCons | train_functions/train_func.cpp:116-153 | the chunk kept at this start followed by aligned chunks is an aligned list |
| Training.ObsOf | train_functions/train_func.cpp:151 | one observation list per chunk |
| Training.MasksOf | train_functions/train_func.cpp:152 | one mask per chunk |
| Training.MarkedAppend | train_functions/train_func.cpp:95-107 | a base is marked by one more region exactly when it is marked already or lies in that region's clamped range |
| Training.MarkRange | train_functions/train_func.cpp:98-106 | the loop sets exactly the flags in [a, b] and leaves the rest |
| Training.MarkKnownRegions | train_functions/train_func.cpp:92-107 | the flag arrays mark exactly the bases inside a region, and within 200 bases of one |
| Training.MarkRegion | train_functions/train_func.cpp:95-106 | marking one more region keeps the flags equal to the marks of the regions so far |
| Training.ChunkMask | train_functions/train_func.cpp:130-147 | the mask loop yields CpG-only if either base is in a region, background-only if neither is within 200 of one, and either otherwise |
| Training.OfAppend | train_functions/train_func.cpp:150-153 | appending a chunk appends its codes and its mask |
| Training.ChunksStep | train_functions/train_func.cpp:116-154 | one loop round appends the chunk at its start, if kept |
| Training.OutputsStep | train_functions/train_func.cpp:150-153 | one round appends the kept chunk's codes and mask to the outputs, or nothing |
| Training.ChunkRound | train_functions/train_func.cpp:116-153 | one round keeps the gathered chunks and the outputs in step with the chunks from the next start |
| Training.CollectedStart | train_functions/train_func.cpp:114-116 | before the first round nothing is gathered and the outputs are the inputs |
| Training.ChunksDone | train_functions/train_func.cpp:116 | once the start passes the last pair no chunk is left, so the outputs hold every chunk |
| Training.BuildChunk | train_functions/train_func.cpp:117-153 | one round computes exactly the chunk at that start |
| Training.BuildMaskedSequences | train_functions/train_func.cpp:74-155 | sequences and masks get the kept chunks appended together, in order |
| Training.CollectChunks | train_functions/train_func.cpp:114-155 | the chunk loop appends the codes and masks of every kept chunk, in order |
| Evaluation.PrependMatch | evaluation/evaluation.cpp:32-34 | a match of overlapping current intervals extends a valid increasing matching |
| Evaluation.MatchesSpec | evaluation/evaluation.cpp:18-35 | every match pairs overlapping intervals, and indices increase on both sides, so each interval takes part in at most one match |
| Evaluation.MatchesBound | evaluation/evaluation.cpp:14-35 | there are no more matches than intervals on either side |
| Evaluation.CountMatches | evaluation/evaluation.cpp:14-35 | the two-pointer loop terminates and counts exactly the matches |
| Evaluation.IslandBasedEvaluation | evaluation/evaluation.cpp:4-38 | TP counts the matches of sorted copies; FP and FN are the remainders, both non-negative, and TP is at most either list's size |
| Evaluation.TieOrderChangesMatches | evaluation/evaluation.cpp:4-38 | two start-sorted orders of the same predictions can give different TP against the same annotation |
| Evaluation.BasePairEvaluation | evaluation/evaluation.cpp:55-83 | overlap is the accumulated intersection lengths; FP = predicted length - overlap and FN = truth length - overlap |
| Evaluation.OverlapWithinPredicted | evaluation/evaluation.cpp:67-79 | against disjoint truth intervals the overlap never exceeds the remaining predicted length |
| Evaluation.OverlapWithinTruth | evaluation/evaluation.cpp:67-79 | against disjoint predicted intervals the overlap never exceeds the remaining truth length |
| Evaluation.SumLengthsNonNegative | evaluation/evaluation.cpp:56-63 | the total length of non-empty intervals is non-negative |
| Evaluation.BasePairCountsNonNegative | evaluation/evaluation.cpp:67-83 | for non-empty disjoint lists 0 <= overlap <= both totals, so FP and FN are non-negative |
| Evaluation.OverlapNonNegative | evaluation/evaluation.cpp:67-79 | the overlap sum is non-negative |
| Preprocessing.Find | preprocesing/genome_preprocesing.cpp:25-28 | the result is the first occurrence at or after the start, or -1 when there is none |
| Preprocessing.LongerNumberMatches | preprocesing/genome_preprocesing.cpp:75-77 | the key for chromosome n is found in the header of any chromosome whose number starts with n's digits, and that header starts the selection |
| Preprocessing.ScanInvHolds | preprocesing/genome_preprocesing.cpp:79-95 | after every prefix the loop state is consistent: closed runs are maximal and apart, an open run reaches the end, and every character is accounted for |
| Preprocessing.ScanStepKeep | preprocesing/genome_preprocesing.cpp:80-94 | one character keeps that invariant |
| Preprocessing.StepClose | preprocesing/genome_preprocesing.cpp:80-86 | an uppercase character after a lowercase stretch records that stretch as a maximal run |
| Preprocessing.CloseRecords | preprocesing/genome_preprocesing.cpp:83-86 | the stretch closed by an uppercase character is recorded as a maximal run before it |
| Preprocessing.CloseCovers | preprocesing/genome_preprocesing.cpp:83-86 | after that, every non-uppercase character read lies in a recorded run |
| Preprocessing.StepOpen | preprocesing/genome_preprocesing.cpp:88-92 | a lowercase character after an uppercase one opens a run there |
| Preprocessing.StepSame | preprocesing/genome_preprocesing.cpp:80-94 | any other character leaves the state and the invariant |
| Preprocessing.LowerRunsSpec | preprocesing/genome_preprocesing.cpp:79-99 | the recorded runs are exactly the maximal non-uppercase stretches, 1-based, apart and in order; the uppercase count plus total run length is the number of characters |
| Preprocessing.OpenRunRecorded | preprocesing/genome_preprocesing.cpp:99 | the run still open at the end, once appended, is maximal and apart from the earlier runs |
| Preprocessing.OpenRunCovered | preprocesing/genome_preprocesing.cpp:99 | with it appended every non-uppercase character lies in a run |
| Preprocessing.ReadChar | preprocesing/genome_preprocesing.cpp:80-94 | one character moves the genome, the runs, the open-run flag and start, and the position to the state of the text one character longer |
| Preprocessing.ScanLine | preprocesing/genome_preprocesing.cpp:79-95 | the character loop over a line continues the genome and the runs exactly as over the concatenated text |
| Preprocessing.SelectedAt | preprocesing/genome_preprocesing.cpp:72-78 | how one line advances the record selection |
| Preprocessing.RecordLine | preprocesing/genome_preprocesing.cpp:78-95 | a sequence line of the record is scanned and joins the text selected so far |
| Preprocessing.ChromosomeLine | preprocesing/genome_preprocesing.cpp:73-96 | an empty line is skipped; a header stops the reader inside the record and otherwise starts it when it contains the key; the selection advances by exactly that line |
| Preprocessing.SelectionEnds | preprocesing/genome_preprocesing.cpp:72-76 | when the reader stops at a header of the next record or at the end, the text read is the whole selection |
| Preprocessing.LowerRunsOfState | preprocesing/genome_preprocesing.cpp:99 | the runs of the text are the recorded ones plus the one still open |
| Preprocessing.ReadRecord | preprocesing/genome_preprocesing.cpp:66-101 | returns the uppercase characters of the text selected by the key and appends its runs, including one still open at the end |
| Preprocessing.LoadChromosome | preprocesing/genome_preprocesing.cpp:59-102 | returns the uppercase characters of the record whose header contains "chromosome N", up to the next header, and appends the runs, including one still open at the end |
| Preprocessing.CoveredByAppend | preprocesing/genome_preprocesing.cpp:139-144 | a position is covered by one more range exactly when already covered or in that range |
| Preprocessing.RemoveCovered | preprocesing/genome_preprocesing.cpp:136-149 | the '\0' marking and the copy keep exactly the characters at uncovered positions, in order; positions past the end are ignored |
| Preprocessing.UncoveredSpec | preprocesing/genome_preprocesing.cpp:139-148 | the result is never longer than the input, and with no ranges a NUL-free input is kept whole |
| Preprocessing.FlattenAppend | preprocesing/genome_preprocesing.cpp:20-53 | joining two lists of sequences joins their texts |
| Preprocessing.GroupSpec | preprocesing/genome_preprocesing.cpp:15-53 | the sequences joined are exactly the sequence lines' text, and none is empty |
| Preprocessing.GroupText | preprocesing/genome_preprocesing.cpp:15-53 | the sequences joined are the pending text followed by every sequence line's text |
| Preprocessing.GroupNonEmpty | preprocesing/genome_preprocesing.cpp:20-53 | no sequence in the list is empty |
| Preprocessing.GroupAt | preprocesing/genome_preprocesing.cpp:16-49 | how one line advances the grouping |
| Preprocessing.CoordsAt | preprocesing/genome_preprocesing.cpp:18-45 | how one line advances the coordinate list |
| Preprocessing.HeaderLine | preprocesing/genome_preprocesing.cpp:18-45 | a header flushes the pending sequence, if any, and appends its region when it has a numeric "range=chr" field |
| Preprocessing.HeaderFlushes | preprocesing/genome_preprocesing.cpp:18-23 | at a header the pending sequence, if not empty, joins the list and a new one begins |
| Preprocessing.HeaderRegion | preprocesing/genome_preprocesing.cpp:25-45 | at a header with a numeric "range=chr" field its region joins the coordinate list, and otherwise the list is unchanged |
| Preprocessing.LoadPositiveCpg | preprocesing/genome_preprocesing.cpp:3-56 | one sequence per header-delimited block with text, flushed at headers and at the end; one region per header with a numeric "range=chr" chromosome |

## Left out

- The forward-backward pass, Baum-Welch training and the model's probability
  tables: floating-point numerics (`compute_posterior_c` and the HMM files). The
  posterior is an input: the `posterior` argument of `Decode.ProcessWindow`
  and the function `post` of `Scan.ScanWindows`.
- File and console I/O: opening files, `exit(1)` on failure, `cout`/`cerr`,
  the precision and recall divisions. The readers take the file as a
  sequence of lines. The reading of the lowercase-coordinate file and of the
  test sequence (`load_chr_seq_to_dinuc_vector`) is not part of this model.
- `load_background` outside its removal step: its header handling and the
  uppercase copy (the same filter as `load_chromosome`) are not modelled.
- Integer widths: positions are unbounded integers. The source's `int`
  overflow, the `stoll` result stored in an `int`, and `stoi`'s out_of_range
  exception are not modelled.
- Preprocessing.LoadPositiveCpg: requires every "range=chr" header with a
  numeric chromosome to have both ':' and '-' and numeric start and end
  fields. Otherwise the source stops with an uncaught exception, since its
  parse then restarts at the header's '>'.
- Preprocessing.RemoveCovered: requires every range with start below 1 to be
  empty, because the source would index before the string.
- Postprocessing.MergePass: requires a non-empty list; the source returns
  before this loop when the list is empty.
- `isupper` and `toupper` are taken in the C locale on ASCII letters.
- Sorting is `std::sort`, which is not stable. The model sorts by insertion,
  which keeps equal starts in input order, one of the orders `std::sort`
  may produce; results computed from sorted lists are those for that order.
- Evaluation.IslandBasedEvaluation: TP is the count for the stable tie
  order only. Another order of equal starts can give a different count
  (`Evaluation.TieOrderChangesMatches` shows one).
- Scan.ScanWindows: merging happens per window, not over the whole
  prediction list. Islands of neighbouring windows, or of the duplicate tail
  window below, can therefore overlap in the concatenated result. Order and
  separation are therefore proved per window (`Decode.WindowIslandsSpec`),
  not for the whole list.

## Findings

| source | as written | input that shows it | evidently intended | confidence | as-written member | corrected member |
|---|---|---|---|---|---|---|
| apps/decode_and_evaluation.cpp:34-37 | after a window that already reaches T, the loop still starts the next window, which lies wholly inside it; both windows keep the tail of the chromosome, so islands there are reported twice | T = 5,000,000: windows [0, T) and [4,950,000, T) both reach T, and the second keep range [4,975,000, T) lies inside the first [0, T) | stop the scan after the window whose end is T, so that the keep ranges partition [0, T) | medium, not executed | Scan.TailWindowTwice | Scan.TiledPartitions |
