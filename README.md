# HapHiC helper cores in Dafny

This project models five integer and string cores of the HapHiC Hi-C
scaffolding toolkit and proves what they compute.

- **Pore-C pairing engine** (`utils/prepare_paired_bam_bwasw.py`,
  module `PairedBam`). It reads a stream of alignment records and drops
  those that fail the MAPQ, percent-identity or alignment-length
  thresholds. It groups consecutive records that share a read name. For
  every two-element combination of a group it writes a synthetic
  paired-end record pair. Each pair gets a new name, SAM flag bits
  0x1/0x40/0x80 added, crossed RNEXT/PNEXT mate fields and a rescued
  MAPQ.
- **Contact-map binning** (`scripts/HapHiC_plot.py`, module
  `ContactMap`).
  - It cuts every scaffold of an AGP file into fixed-size bins.
  - It maps each bin back to a range on its raw contig, mirrored for `-`
    components.
  - It numbers the bins of long enough scaffolds consecutively.
  - It counts one contact per read-1 record whose two ends resolve to
    bins.
  - It makes the matrix symmetric by adding its transpose.
- **GFA ID conversion** (`utils/convert_gfa_ids.py`, module `GfaIds`). It
  builds a contig → (scaffold, start) table from liftover AGP lines. It
  rewrites the segment IDs of GFA `S`, `A` and `L` lines to scaffold
  names.
- **Depth track** (`utils/gfa_depth_to_bedGraph.py`, module
  `DepthBedGraph`). It lays the contigs of an AGP file end to end as one
  pseudo-chromosome and estimates a scale that keeps it under 2.1 Gbp. It
  tiles every contig into 100 kb bins and writes one bedGraph line per
  bin with scaled coordinates.
- **Telomere scan** (`utils/find_telomeres.py`, module `Telomeres`).
  - Reverse complement.
  - FASTA parsing into a map of selected IDs.
  - Counting of the doubled repeat and its reverse complement.
  - The leftmost forward and rightmost reverse occurrences, the latter
    found by searching the reversed sequence.
  - A 100-bin histogram of match positions.

Shared modules:

- `Outcomes` holds `Option` and `Result`. Every abort of the modelled
  Python code becomes an `Err`: an `IndexError` on a short line, a
  `ValueError` from `int()`, a `KeyError`, a failed `assert`, a
  `ZeroDivisionError`. The exception is the float report line
  find_telomeres.py:84, whose `TypeError` and `ZeroDivisionError` are
  outside the model (see "Left out").
- `Text` models Python's `str.split()`, `join`, `strip`, `upper`, `int()`
  and `str(int)`. Splitting and stripping use every character
  `str.isspace()` accepts; `upper`, `int()` and `str(int)` are ASCII only.
- `Dicts` models an insertion-ordered Python `dict` as a sequence of
  pairs. Reassigning a key keeps its position.

Files and records are sequences of lines or records, without line
terminators. Loops of the source are methods with loop invariants. Each
method is proved equal to a recursive specification function. The lemmas
state what those functions mean.

## Model

| member | source | states |
|---|---|---|
| PairedBam.PercentIdentityCrossMultiplied | utils/prepare_paired_bam_bwasw.py:60 | `(1 - NM/len)*100 >= t` holds exactly when `100*(len - NM) >= t*len`, for a positive length |
| PairedBam.Screen | utils/prepare_paired_bam_bwasw.py:58-63 | a record is kept iff MAPQ, percent identity and alignment length all reach their thresholds; the run aborts on a missing NM tag or a zero alignment length once MAPQ passes |
| PairedBam.ScreenRecord | utils/prepare_paired_bam_bwasw.py:58-63 | the filter branches of the record loop give exactly the verdict of `Screen` |
| PairedBam.Rescue | utils/prepare_paired_bam_bwasw.py:39-42 | with threshold 0 a zero MAPQ becomes 1 and a positive one is kept; with any other threshold MAPQ is unchanged |
| PairedBam.Choose2Closed | utils/prepare_paired_bam_bwasw.py:21-23 | the number of two-element combinations of k things is k(k-1)/2 |
| PairedBam.CombinationsLength | utils/prepare_paired_bam_bwasw.py:23 | `combinations(g, 2)` has k(k-1)/2 entries |
| PairedBam.CombinationsAt | utils/prepare_paired_bam_bwasw.py:23 | combination `(g[i], g[j])`, i < j, sits at its lexicographic rank |
| PairedBam.CombinationsMembers | utils/prepare_paired_bam_bwasw.py:23 | entry t of `combinations(g, 2)` is `(g[i], g[j])` for some i < j whose rank is t, so with CombinationsAt the entries are exactly the index pairs i < j in lexicographic order |
| PairedBam.RankLexicographic | utils/prepare_paired_bam_bwasw.py:23 | ranks increase strictly in lexicographic order of `(i, j)` |
| PairedBam.GroupPairsCount | utils/prepare_paired_bam_bwasw.py:21-45 | a flushed group of k records writes k(k-1) records, none when k <= 1 |
| PairedBam.GroupPairsAt | utils/prepare_paired_bam_bwasw.py:23-45 | the n-th pair is (g[i], g[j]) at rank n, written at 2n and 2n+1. Both halves are named `<name>_read<n>`. Flags are `a.flag+65+2*b.flag` and `b.flag+129+2*a.flag`, from the originals. Mate fields are crossed and MAPQ is rescued. Reference position, NM, length and payload are unchanged |
| PairedBam.EmitAt | utils/prepare_paired_bam_bwasw.py:44-45 | pair t is written first half at 2t, second half at 2t+1 |
| PairedBam.PairName | utils/prepare_paired_bam_bwasw.py:27-28 | both halves of the t-th pair of a group are named after the group's read with suffix `_read<t>` |
| PairedBam.PairNamesDistinct | utils/prepare_paired_bam_bwasw.py:23-28 | different pairs of one group get different names |
| PairedBam.EmitSnoc | utils/prepare_paired_bam_bwasw.py:44-45 | one more pair extends the output by its two halves |
| PairedBam.MakePair | utils/prepare_paired_bam_bwasw.py:25-42 | the two copies equal the first and second halves built from the originals |
| PairedBam.FlushGroup | utils/prepare_paired_bam_bwasw.py:19-49 | a flush writes exactly the group's pairs; the buffer becomes `[aln]` and the current read `aln`'s name |
| PairedBam.FirstAbort | utils/prepare_paired_bam_bwasw.py:56-63 | the position of the first record whose screening aborts, or none when no record aborts |
| PairedBam.KeptSnoc | utils/prepare_paired_bam_bwasw.py:56-63 | screening one more record appends it to the kept stream exactly when it passes |
| PairedBam.FirstAbortAt | utils/prepare_paired_bam_bwasw.py:56-63 | the first aborting record the loop meets is the one `FirstAbort` names |
| PairedBam.GroupsSnocSame | utils/prepare_paired_bam_bwasw.py:65-66 | a record named like the current read joins the open group |
| PairedBam.GroupsSnocNew | utils/prepare_paired_bam_bwasw.py:67-68 | a record with another name closes the open group and opens `[x]` |
| PairedBam.TakeRecord | utils/prepare_paired_bam_bwasw.py:65-68 | after a kept record the buffer is the last group of the kept stream, the current read is its last name, and what was written is the pairs of the closed groups |
| PairedBam.PairsOfSplit | utils/prepare_paired_bam_bwasw.py:65-69 | the output is the pairs of the closed groups followed by the pairs of the last group |
| PairedBam.GroupsNonEmpty | utils/prepare_paired_bam_bwasw.py:65-68 | there are no groups iff nothing is kept, and no group is empty |
| PairedBam.GroupsFlatten | utils/prepare_paired_bam_bwasw.py:65-68 | the groups read in order are exactly the filtered stream |
| PairedBam.GroupsNames | utils/prepare_paired_bam_bwasw.py:65-68 | every group carries one read name; neighbouring groups differ, so a name that reappears later starts a new group; the last group carries the last kept name |
| PairedBam.KeptAppend | utils/prepare_paired_bam_bwasw.py:58-63 | the filter distributes over concatenation |
| PairedBam.DroppedRecordIsInvisible | utils/prepare_paired_bam_bwasw.py:58-69 | deleting a record the filter drops does not change the output |
| PairedBam.KeptPasses | utils/prepare_paired_bam_bwasw.py:58-63 | every kept record comes from the source and passes all three tests |
| PairedBam.PairsOfPass | utils/prepare_paired_bam_bwasw.py:30-42 | pairs built from passing records pass the filter again |
| PairedBam.OutputPassesFilter | utils/prepare_paired_bam_bwasw.py:17-69 | every written record passes the same filter: MAPQ never drops, NM and length are kept |
| PairedBam.ParseBamForFalign | utils/prepare_paired_bam_bwasw.py:17-69 | on an abort, the run reports the first aborting record's error after writing the pairs of the groups closed before it. An empty source fails in the final flush. Otherwise the run writes the pairs of all groups of the filtered stream, in order |
| ContactMap.IntersectMeaning | scripts/HapHiC_plot.py:77 | `closed & closed` holds exactly the common positions and is absent iff there are none |
| ContactMap.ReadAgpLine | scripts/HapHiC_plot.py:53-65 | comments and blank lines are ignored. Otherwise, fewer than 5 columns is an error at that line, and a component type other than `W` is ignored. A `W` line succeeds iff it has at least 8 columns and columns 1, 2, 6 and 7 are integers; it then yields columns 0, 1, 2, 5, 6, 7 and the orientation column if present |
| ContactMap.BinsOverlappingRange | scripts/HapHiC_plot.py:61-77 | the bins `(start-1)//bs .. (end-1)//bs` are exactly those sharing a position with a non-empty scaffold range |
| ContactMap.BinInsideRange | scripts/HapHiC_plot.py:61-77 | every bin from `(start-1)//bs` to `(end-1)//bs` meets a non-empty scaffold range |
| ContactMap.RawRangeMeaning | scripts/HapHiC_plot.py:77-89 | errors in source order: missing column 8 (`Malformed`), an orientation other than `+`/`-` (`BadOrientation`), and only then a bin that misses the scaffold range (`EmptyBinIntersection`), each as an if-and-only-if. Otherwise the raw range has the intersection's length. For `+` it maps each position by `p - start + raw_start`, for `-` by `raw_end - (p - start)` |
| ContactMap.WellFormedBinsIntersect | scripts/HapHiC_plot.py:73-77 | for a non-empty scaffold range no visited bin meets an empty intersection |
| ContactMap.ParseAgpErrorSticks | scripts/HapHiC_plot.py:49-91 | once a line aborts, later lines do not change the outcome |
| ContactMap.PutBinsStep | scripts/HapHiC_plot.py:73-89 | entering one more bin stores its raw range under the contig |
| ContactMap.PutBinsNone | scripts/HapHiC_plot.py:73 | an empty bin range leaves the table alone |
| ContactMap.PutBinsErrorSticks | scripts/HapHiC_plot.py:73-89 | the first failing bin decides the component's error |
| ContactMap.AddComponentBins | scripts/HapHiC_plot.py:73-89 | the bin loop of one `W` line equals the specification of its bins |
| ContactMap.AddComponent | scripts/HapHiC_plot.py:60-89 | one `W` line sets the scaffold size, records the fragment globally and under its scaffold, and enters the bins, as the specification of one row says |
| ContactMap.ParseAgpLines | scripts/HapHiC_plot.py:39-91 | `parse_agp` equals the line-by-line specification, including its first error |
| ContactMap.ParseAgpGroupSizes | scripts/HapHiC_plot.py:67 | a scaffold's size is the object end of its last `W` line, and scaffolds appear once |
| ContactMap.FirstW | scripts/HapHiC_plot.py:51-59 | the index of the first `W` line of a scaffold: that line is one, no earlier line is, and none means no line is |
| ContactMap.GroupOrderStep | scripts/HapHiC_plot.py:58-67 | one more line keeps the scaffolds in order of first `W` line: a new scaffold goes last, a repeated one keeps its place |
| ContactMap.ParseAgpGroupOrder | scripts/HapHiC_plot.py:67 | `group_size_dict` lists exactly the scaffolds with a `W` line, in order of their first `W` line; a later line of the same scaffold keeps its place. This is the order in which bins are numbered |
| ContactMap.ScaffoldBins | scripts/HapHiC_plot.py:108-110 | a kept scaffold's bins are exactly `0 .. count-1`, bin n numbered `base + n` |
| ContactMap.KeptGroups | scripts/HapHiC_plot.py:106-112 | `group_list` holds exactly the scaffolds whose size reaches the threshold |
| ContactMap.ContigSet | scripts/HapHiC_plot.py:118-120 | `ctg_set` is the set of contigs of the remaining fragments |
| ContactMap.NumberBins | scripts/HapHiC_plot.py:109-110 | the inner loop adds exactly the scaffold's numbered bins |
| ContactMap.GenerateContactMatrix | scripts/HapHiC_plot.py:94-122 | the results are the bin numbering, the kept scaffolds, and the contigs of the fragments left after removing every dropped scaffold's fragments (a fragment shared with a dropped scaffold is removed too). The matrix is a fresh zero square of the total bin count. A negative total is a `NegativeDimension` error |
| ContactMap.BinNumberingAt | scripts/HapHiC_plot.py:106-111 | bin n of a kept scaffold is numbered running total of earlier kept scaffolds + n |
| ContactMap.DroppedGroupHasNoBins | scripts/HapHiC_plot.py:113-114 | a scaffold below the threshold gets no bin |
| ContactMap.NoBinsForAbsentGroup | scripts/HapHiC_plot.py:106-111 | a scaffold not in the AGP gets no bin |
| ContactMap.BinNumbersBelowTotal | scripts/HapHiC_plot.py:106-116 | with a non-negative minimum length every bin number is a valid matrix index |
| ContactMap.ScanStop | scripts/HapHiC_plot.py:129-135 | the scan stops at the first range whose scaffold is not kept or that contains the position |
| ContactMap.ResolveBinMeaning | scripts/HapHiC_plot.py:127-135 | `convert_group_bin_id` returns None at a range of an unkept scaffold met first, or when no range contains the position. Otherwise it returns the number of the first containing range's bin. An unnumbered bin is a `KeyError` |
| ContactMap.ResolvedBinIsNumbered | scripts/HapHiC_plot.py:134-135 | a resolved bin is a numbered bin |
| ContactMap.ConvertGroupBinId | scripts/HapHiC_plot.py:127-135 | the scanning loop with early return equals its specification |
| ContactMap.ContactCell | scripts/HapHiC_plot.py:146-160 | a record with a contig missing or outside `ctg_set` adds nothing. Otherwise the first end is looked up: an error is reported, and no bin means nothing is added. Once it resolves, the second end is looked up the same way. When both resolve, the cell is the two bins |
| ContactMap.CellsErrorSticks | scripts/HapHiC_plot.py:144-160 | the first failed lookup decides the outcome |
| ContactMap.CellsAreNumbered | scripts/HapHiC_plot.py:144-160 | both coordinates of every counted cell are numbered bins |
| ContactMap.RecordCell | scripts/HapHiC_plot.py:146-158 | the lookups for one record give the specified cell, and both its coordinates are numbered bins |
| ContactMap.AddOne | scripts/HapHiC_plot.py:160 | exactly cell (row, col) grows by one |
| ContactMap.ParseBam | scripts/HapHiC_plot.py:125-162 | each cell grows by the number of records that resolve to it, all others stay put; a failed lookup is reported |
| ContactMap.AddTranspose | scripts/HapHiC_plot.py:679 | the new matrix is `m + mᵀ` cell by cell and is symmetric |
| GfaIds.Insert | utils/convert_gfa_ids.py:32 | insertion adds exactly one element |
| GfaIds.InsertSorted | utils/convert_gfa_ids.py:32 | inserting into a sorted list keeps it sorted by start |
| GfaIds.SortByStart | utils/convert_gfa_ids.py:32 | `sort(key=start)` is a permutation sorted by start |
| GfaIds.InsertWithStart | utils/convert_gfa_ids.py:32 | insertion keeps the order of entries with equal start |
| GfaIds.SortStable | utils/convert_gfa_ids.py:32 | the sort is stable: entries with equal start keep their order |
| GfaIds.SortSorted | utils/convert_gfa_ids.py:32 | sorting a sorted list changes nothing |
| GfaIds.SortIdempotent | utils/convert_gfa_ids.py:31-33 | sorting twice equals sorting once, so repeated in-place sorts agree |
| GfaIds.ReadLiftoverLine | utils/convert_gfa_ids.py:18-22 | comments and blank lines yield nothing. Otherwise, fewer than 5 columns is an error at that line, and a component type other than `W` yields nothing. A `W` line succeeds iff it has at least 7 columns and column 6 is an integer; it then yields `(cols[5], (cols[0], int(cols[6])))` |
| GfaIds.LiftoverErrorSticks | utils/convert_gfa_ids.py:16-22 | once a line aborts, later lines do not change the outcome |
| GfaIds.ParseLiftover | utils/convert_gfa_ids.py:13-24 | the loop equals the line-by-line specification |
| GfaIds.LiftoverPlacements | utils/convert_gfa_ids.py:15-22 | each contig's list is its `W` placements in file order, and only contigs with one are keys |
| GfaIds.LiftoverWellFormed | utils/convert_gfa_ids.py:15-22 | every list is non-empty and every scaffold name a whitespace-free token |
| GfaIds.ConvertedIsToken | utils/convert_gfa_ids.py:29-36 | conversion succeeds iff the ID is a key, and yields a non-empty token |
| GfaIds.GetConvertedId | utils/convert_gfa_ids.py:29-36 | the result is the single name, or the names sorted by start joined with `_`, or an error for an unknown ID; a list longer than one is replaced by its sorted copy |
| GfaIds.ConvertedAfterSort | utils/convert_gfa_ids.py:31-33 | the in-place sort does not change any later conversion |
| GfaIds.ConvertLineSucceeds | utils/convert_gfa_ids.py:38-50 | a line converts iff it is blank, or an `S`/`A` line whose column 1 is known, or an `L` line of at least five columns whose columns 1 and 3 are known |
| GfaIds.ConvertLineColumns | utils/convert_gfa_ids.py:42-50 | the output's columns are the input's with column 1 converted, and column 3 too for `L` |
| GfaIds.SegmentColumns | utils/convert_gfa_ids.py:43-45 | an `S`/`A` line keeps its type and trailing columns and converts column 1 |
| GfaIds.LinkColumns | utils/convert_gfa_ids.py:46-50 | an `L` line converts columns 1 and 3 and keeps orientations and trailing columns |
| GfaIds.ConvertGfaErrorSticks | utils/convert_gfa_ids.py:38-50 | once a line aborts, later lines write nothing |
| GfaIds.ConvertGfaLength | utils/convert_gfa_ids.py:38-50 | a successful run writes one line per non-blank input line |
| GfaIds.KeepsConversions | utils/convert_gfa_ids.py:31-33 | sorting one list in place keeps every conversion |
| GfaIds.ConvertRecord | utils/convert_gfa_ids.py:42-50 | one record converts as specified against the original table, and the table keeps its conversions |
| GfaIds.ReadGfa | utils/convert_gfa_ids.py:27-50 | the loop writes exactly the specified lines and stops at the first error |
| DepthBedGraph.FloorDiv | utils/gfa_depth_to_bedGraph.py:55-65 | Python `//` rounds towards negative infinity for either sign of divisor |
| DepthBedGraph.ReadAgpLine | utils/gfa_depth_to_bedGraph.py:47-53 | comments and blank lines yield nothing. Otherwise, fewer than 5 columns is an error at that line, and a component type other than `W` yields nothing. A `W` line succeeds iff it has at least 6 columns and columns 1 and 2 are integers; it then yields `(cols[5], end - beg + 1)` |
| DepthBedGraph.ContigListErrorSticks | utils/gfa_depth_to_bedGraph.py:45-53 | once a line aborts, later lines do not change the outcome |
| DepthBedGraph.ChooseScale | utils/gfa_depth_to_bedGraph.py:55-65 | with no user scale the estimate `1 + total//2100000000` is used, otherwise the user's scale, even if it differs. The assembly size is `total // scale`, and a zero scale fails |
| DepthBedGraph.EstimatedScaleFits | utils/gfa_depth_to_bedGraph.py:55-57 | for a non-negative total the estimate is at least 1 and the assembly size lies in `[0, 2100000000)` |
| DepthBedGraph.ParseAgpLines | utils/gfa_depth_to_bedGraph.py:41-65 | the loop equals the specification: contig list in file order, its total, the chosen scale |
| DepthBedGraph.NumBinsIsCeiling | utils/gfa_depth_to_bedGraph.py:81 | a positive length L has `ceil(L/100000)` bins |
| DepthBedGraph.ContigTilesCover | utils/gfa_depth_to_bedGraph.py:81-83 | a contig's bins start at `acc`, end at `acc + L`, are contiguous and each has length in `(0, 100000]` |
| DepthBedGraph.TilesCover | utils/gfa_depth_to_bedGraph.py:79-88 | all bins tile `[0, total)` from `accumulated_start = 0`: they are non-empty, lie inside, follow each other without gap, and there is none iff the total is 0 |
| DepthBedGraph.TilesAppend | utils/gfa_depth_to_bedGraph.py:79-88 | bins tiling `[lo, mid)` followed by bins tiling `[mid, hi)` tile `[lo, hi)` |
| DepthBedGraph.BodyLinesAreTiles | utils/gfa_depth_to_bedGraph.py:79-88 | the body fails iff a contig with a bin has no depth; otherwise line k is bin k's line |
| DepthBedGraph.BodyLinesSucceed | utils/gfa_depth_to_bedGraph.py:79-88 | the body is written iff every contig with a bin has a depth |
| DepthBedGraph.BodyLinesContent | utils/gfa_depth_to_bedGraph.py:79-88 | a written body has one line per bin, line k being bin k's line with its contig's depth |
| DepthBedGraph.BodyLinesFailOnDepth | utils/gfa_depth_to_bedGraph.py:84-87 | the only way the body fails is a missing depth |
| DepthBedGraph.BedGraphShape | utils/gfa_depth_to_bedGraph.py:76-88 | `in.bedGraph` is `track type=bedGraph` followed by one line per bin in order, and it only fails on a missing depth |
| DepthBedGraph.ScaledTilesFit | utils/gfa_depth_to_bedGraph.py:84-86 | with a positive scale, scaled coordinates lie in `[0, total//scale]` and no bin is reversed |
| DepthBedGraph.BinLineColumns | utils/gfa_depth_to_bedGraph.py:84-87 | a bin line reads back as `assembly`, `start//scale`, `end//scale` and the depth |
| DepthBedGraph.WriteContig | utils/gfa_depth_to_bedGraph.py:81-87 | the inner loop writes the contig's specified lines |
| DepthBedGraph.ContigLinesContent | utils/gfa_depth_to_bedGraph.py:81-87 | a contig's lines are one per bin, each with the contig's depth |
| DepthBedGraph.OutputBedGraph | utils/gfa_depth_to_bedGraph.py:68-88 | `chrom.sizes` holds `assembly\t<size>` and the track equals its specification |
| DepthBedGraph.BodyLinesErrorSticks | utils/gfa_depth_to_bedGraph.py:79-88 | the first contig without a depth decides the outcome |
| Telomeres.ReverseReverse | utils/find_telomeres.py:43 | reversing twice gives the string back, so `s[::-1]` loses nothing |
| Telomeres.RevComMeaning | utils/find_telomeres.py:14-43 | `revcom` preserves length, maps A↔T and C↔G, leaves every other character (N included) alone, and is an involution |
| Telomeres.FindFrom | utils/find_telomeres.py:74-80 | `index` finds the leftmost occurrence, and none means no occurrence |
| Telomeres.MatchesFrom | utils/find_telomeres.py:72 | the greedy scan returns occurrences in increasing, non-overlapping positions |
| Telomeres.Matches | utils/find_telomeres.py:49-51 | every match starts inside the sequence |
| Telomeres.MatchesCover | utils/find_telomeres.py:72 | every occurrence overlaps a reported match, so the scan is maximal |
| Telomeres.FirstMatchIsFind | utils/find_telomeres.py:72-75 | the first counted match is the `index` result, and matches exist iff `in` holds |
| Telomeres.ReverseOccurs | utils/find_telomeres.py:79-80 | p occurs at j in s iff reversed p occurs at `|s|-j-|p|` in reversed s |
| Telomeres.RightmostByReversal | utils/find_telomeres.py:79-80 | searching the reversed string finds the rightmost occurrence |
| Telomeres.StatsMeaning | utils/find_telomeres.py:63-82 | nrepeats sums the non-overlapping counts of both doubled repeats. `start_pos - 1` is the leftmost forward occurrence and `end_pos - m + 1` the rightmost reverse one. Each is NA iff there is no occurrence |
| Telomeres.Bin | utils/find_telomeres.py:51 | `start*100//len` lies in `[0, 100)` |
| Telomeres.HistogramSum | utils/find_telomeres.py:48-51 | the 100 bin counts sum to the number of matches |
| Telomeres.MaxOf | utils/find_telomeres.py:53 | `max(hist)` is a bin count no smaller than any other |
| Telomeres.GetHist | utils/find_telomeres.py:46-53 | the loop builds the histogram of the matches and its maximum |
| Telomeres.Classify | utils/find_telomeres.py:22-33 | a line is skipped iff it is blank; it is a header iff it is not blank and starts with `>`, and the ID is then its first token without the `>`; every other line contributes its stripped, upper-cased text, which is never empty |
| Telomeres.JoinAllLookup | utils/find_telomeres.py:35-36 | joining keeps the IDs and their positions, and each ID's value becomes the concatenation of its pieces |
| Telomeres.ParseGenome | utils/find_telomeres.py:17-38 | the loops equal the specification of `parse_genome` |
| Telomeres.ReadEntries | utils/find_telomeres.py:19-33 | the line loop builds the specified table of pieces |
| Telomeres.ReadLine | utils/find_telomeres.py:23-33 | one line moves the scan state as the specification's step does |
| Telomeres.JoinEntries | utils/find_telomeres.py:35-36 | the join loop concatenates every entry |
| Telomeres.SectionSnoc | utils/find_telomeres.py:32-33 | a sequence line extends the open section only when no header follows |
| Telomeres.LastHeaders | utils/find_telomeres.py:25-31 | the last header overall and the last header of one ID relate as the scan requires |
| Telomeres.SequenceLineExpected | utils/find_telomeres.py:32-33 | a sequence line is appended only to the ID under the most recent header, if selected |
| Telomeres.SectionAfter | utils/find_telomeres.py:32-33 | a sequence line adds its piece to the section after a header exactly when no header follows and it holds bases |
| Telomeres.HeaderLineExpected | utils/find_telomeres.py:25-31 | a header resets its ID's entry to empty when selected, and turns output off otherwise |
| Telomeres.OtherHeaderExpected | utils/find_telomeres.py:25-31 | a header of another ID leaves this ID's entry unchanged |
| Telomeres.StepMeaning | utils/find_telomeres.py:22-33 | one line preserves the meaning of the scan state |
| Telomeres.ScanMeaning | utils/find_telomeres.py:19-33 | the scan state after any prefix means what the lines say |
| Telomeres.FirstHeader | utils/find_telomeres.py:25-28 | the index of the first header of an ID: that line is one, no earlier line is, and none means no line is |
| Telomeres.StepKeyOrder | utils/find_telomeres.py:25-33 | one more line keeps the keys in order of first header: a new selected ID goes last, a repeated one keeps its place, a sequence line adds no key |
| Telomeres.ScanKeyOrder | utils/find_telomeres.py:22-33 | after any prefix of lines the keys are the selected IDs with a header, in order of first header |
| Telomeres.GenomeKeyOrder | utils/find_telomeres.py:25-28 | the IDs of `fa_dict` are exactly the selected IDs with a header, each once, in order of their first header; `find_repeat` reports in this order without a contig list (lines 58-59) |
| Telomeres.GenomeContents | utils/find_telomeres.py:17-38 | IDs are distinct. An ID is present iff selected and has a header. Its sequence is the stripped, upper-cased, non-blank lines after its last header up to the next header, concatenated |
| Telomeres.ReportsErrorSticks | utils/find_telomeres.py:70-82 | the first ID without a sequence decides the outcome |
| Telomeres.ReportsMeaning | utils/find_telomeres.py:70-82 | the report succeeds iff every listed ID has a sequence, and row i is ID i with its statistics |
| Telomeres.AllIdsReported | utils/find_telomeres.py:58-59 | without a contig list every ID of the genome is reported |
| Telomeres.FindRepeat | utils/find_telomeres.py:56-82 | the loop over the IDs yields the specified reports |

## Left out

- File I/O is not modelled: opening BAM/AGP/GFA/FASTA files, pysam threads, gzip, pickles and stderr messages. Sources are sequences of records or lines, and outputs are returned sequences.
- The reader filters `filter=!flag.unmap` (prepare_paired_bam_bwasw.py:54) and `filter=flag.read1` (HapHiC_plot.py:140) are left to the caller. The record sequences are taken as already filtered.
- PairedBam.Screen: percent identity is over exact reals, not IEEE doubles, so rounding at the threshold boundary is not modelled.
- PairedBam.GroupPairsAt: FLAG is an unbounded integer; pysam's 16-bit storage of `flag` is not modelled.
- PairedBam.ParseBamForFalign: the stale record left in the buffer after the final flush is not returned, because it has no visible effect.
- KR balancing, normalisation, log scaling, resolution and tick selection and all drawing in HapHiC_plot.py are left out: they are floating-point numerics and UI.
- ContactMap.ParseAgpLines: `bin_size` is required positive. The script does not check it: a zero `bin_size` divides by zero, and a negative one is not modelled.
- ContactMap.RawRangeMeaning: an empty `portion` intersection, possible only for a component whose start exceeds its end, is modelled as an abort at that line. The library's infinite bounds are not modelled.
- ContactMap.ParseBam: after a failed bin lookup the matrix contents are left unspecified.
- ContactMap.ParseBam: requires every bin number to be a matrix index. That holds for `--min_len >= 0` (see `BinNumbersBelowTotal`). With a negative `min_len`, a scaffold of negative size is kept, its bin count `size // bin_size + 1` can be zero or negative, and later bin numbers can fall outside the matrix, where numpy wraps negative indices. That case is not modelled.
- `parse_gfa` (gfa_depth_to_bedGraph.py:18-38) is not part of this model: it relies on regular expressions and gzip. The depth of each contig is a `map` parameter.
- DepthBedGraph.NumBinsIsCeiling: `math.ceil(len / 100000)` is modelled as exact integer ceiling. This agrees with the float computation for lengths below 2^53.
- DepthBedGraph.OutputBedGraph requires a non-zero scale, which the `parse_agp` model guarantees (a zero scale is a `ZeroScale` error there).
- DepthBedGraph.BedGraphShape: the partly written `in.bedGraph` left by a missing depth is not modelled; the error replaces the content.
- GfaIds.ReadGfa: the lines printed before an aborting line are kept in `out`, but the abort's traceback is not modelled.
- Telomeres.GetHist: `re.finditer` with a regular expression is modelled as literal, non-overlapping, left-to-right matching of a non-empty repeat; metacharacters and an empty pattern are not modelled.
- Telomeres.Stats: requires a non-empty repeat, because the source's repeat is a literal motif.
- Text: `upper` changes ASCII letters only. `int()` accepts an optional sign and ASCII digits, not underscores, surrounding whitespace or non-ASCII digits.
- The float columns printed by `find_repeat` (per-Mb density and relative positions, find_telomeres.py:84) and the YouPlot shell calls are left out. Line 84 also fails on `NA` and on an empty sequence; this model reports the integer statistics instead.
- `argparse`, `main` and logging are left out, because they are plumbing.
