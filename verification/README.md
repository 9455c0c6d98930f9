# Verified model of rank

`rank` sorts lines like GNU `sort`. It has two halves: a plain comparator with a
stable merge sort, and a set of faster engines that must write the same bytes.
This project models both halves in Dafny and proves that they agree.

The model works in the C locale, where collation is byte order. Bytes are
integers below 256, a line is a sequence of bytes, and what sorting moves is
either an array of records or an array of spans into one buffer, as in the
source. Code that works step by step is written as methods with loops over
arrays or over the fields of a class, each proved against a function or a
predicate; the laws are lemmas about those.

How the files hang together:

- `Bytes`, `Orders`, `Insertion`, `Arrays`, `Unique`: byte order, what a stable
  sort is (a definition that names no algorithm, with proof that it fixes the
  result), dropping repeated lines.
- `MergeSort`: the reference engine. `Comparator`, `Fields`, `Numeric`,
  `Version`, `Md5`: what it compares by. `LineOrders`, `KeyTexts`, `DecimalTexts`,
  `VersionNames`, `Md5Vectors`: what that means for lines written out byte by byte,
  in terms that share no definition with the code.
- `Buckets`, `StableRadix`, `InPlaceRadix`, `LineSort`, `Groups`, `KeyEngine`,
  `TransformedEngine`: the radix engines. `RankSort`: the planner, the
  dispatcher and the writer, and the proof that every plan writes what the
  reference engine writes.
- `KeyExact`, `KeyedRuns`, `ReversedKeys`: exactly when the keyed engine writes
  what the reference engine writes, and an input on which it does not.
- `Threads`, `Worklists`, `ParallelRadix`, `ParallelLines`: worker threads that
  draw tasks from an atomic counter, in any interleaving, and the radix
  recursions as such tasks, one pass or one insertion a step.
- `Records`, `Output`, `WholeProgram`: reading and writing a byte stream in
  arbitrary pieces, and the program from input bytes to output bytes.
- `Heap`, `HeapMerge`, `StreamMerge`, `DirectMerge`, `External`, `RunSizes`, `Check`,
  `CheckedOrder`: merging, sorting with temporary files, and checking a stream for
  order.

Two properties of the source are stated with their exact conditions, because they
do not hold without them.

A key that sorts in reverse goes through a common-prefix scan which reports "all
equal" by answering the depth limit; comparing from that depth, past the end of
the keys, then says "less" for every pair, and the group comes out reversed
(src/radix.c:647-673, src/radix.c:724-726). `StableRadix.Flips` is the condition
for one radix and one group. `KeyEngine.Turns` carries it through all keys: a group
of ties comes out reversed when the keys that flip it are odd in number
(`KeyEngine.FinalClassIs`). `KeyExact.KeysExact` then says when that can be seen: for
any keys and flags, the keyed engine writes what the reference engine writes if and
only if every group that turns reads the same when reversed, or under `-u` begins
and ends with the same text (`KeyExact.Harmless`, a condition on the texts of the
input alone). That condition is what `RankSort.Faithful` asks of the input under the
keyed plan, and nothing under the others; it holds for all inputs where the last
resort orders ties by whole line, for keys that are not reversed, and for up to 48
lines (`RankSort.FaithfulWhen`). Sorting in runs has the condition run by run, where
under `-u` only the first run that holds a group counts (`KeyedRuns.HarmlessRuns`).
`ReversedKeys.ReversedKeyReordersTies` is a failing input: forty-nine lines `ab 0`,
`ab 1`, ... and a line `c`, under `-k1,1r` with `-s` or with `-u`.

The other concerns the batch size of external sorting: a pass over the runs makes
progress if and only if the batch is at least two (`External.PassShrinks`), while the
option parser also accepts one (src/options.c:989).

## Model

| member | source | states |
|---|---|---|
| `Orders.StableSortIsUnique` | src/sort.c:107-146 | Being sorted and keeping every class of equals in its order determines an arrangement; two such arrangements are the same sequence |
| `Orders.StableSortIs` | src/sort.c:107-146 | An arrangement meets that definition if and only if it is the reference result |
| `Orders.SortedAlike` | src/radix.c:293-389 | Two sorted permutations are equal under the comparator place by place, so an unstable engine fixes everything the order can see |
| `Orders.LexPreorder` | src/cmp.c:144-197 | Ordering by one total preorder and then by another is a total preorder |
| `MergeSort.MergeRanges` | src/sort.c:122-146 | Merging two adjacent sorted ranges through the spare array gives the stable sort of both and touches nothing else |
| `MergeSort.MergeSortRange` | src/sort.c:107-120 | The recursive merge sort leaves exactly the stable sort of the range, for any total preorder |
| `Bytes.CompareFromDepth` | src/radix.c:419-442 | The comparison loop from a depth, including what it answers past the end of a string |
| `Bytes.CompareSkipsSharedPrefix` | src/radix.c:419-442 | Among strings that share the first bytes, comparing behind them is comparing |
| `Bytes.BucketOrders` | src/radix.c:444-451 | Among strings that share a prefix, different buckets decide the order, and an equal non-zero bucket extends the prefix |
| `Bytes.CompareTotal` | src/merge.c:435-454 | Byte comparison is antisymmetric and zero only on equal texts |
| `Insertion.InsertionRange` | src/radix.c:391-417 | Binary insertion in place computes the insertion of every element by upper bound, whatever the comparator answers |
| `Insertion.InsertedIsStableSort` | src/radix.c:620-645 | For a comparator that agrees with a total preorder on the range this is the stable sort |
| `Insertion.InsertedAlwaysLess` | src/radix.c:620-645 | For a comparator that always answers "less" it is the reversal |
| `Buckets.CountBuckets` | src/radix.c:311-338 | The counting pass yields, for each of 257 buckets, how many members of the range it has |
| `Buckets.BucketStarts` | src/radix.c:582-596 | The offsets lay the buckets out one behind the other, forwards or backwards |
| `Buckets.LayoutDisjoint` | src/radix.c:582-596 | Different buckets occupy disjoint ranges |
| `Buckets.LayoutInRange` | src/radix.c:582-596 | Every bucket lies inside the range |
| `StableRadix.SkipPrefix` | src/radix.c:686-728 | The scan of the array computes the depth below |
| `StableRadix.SkipDepthIs` | src/radix.c:686-728 | That is a depth that all keys share, or the depth limit exactly for the ranges of more than threshold equal keys within the limit |
| `StableRadix.Pass` | src/radix.c:579-601 | Count, lay out, deal through the spare array, copy back: every bucket holds its members in their order |
| `StableRadix.RadixRange` | src/radix.c:555-618 | The recursive radix over a key leaves the range sorted with every class in its order, except the classes that flip, which come out reversed; it ends at the depth limit and touches nothing else |
| `StableRadix.SentinelInsertion` | src/radix.c:647-673 | What insertion does to a range of equal keys once the scan has answered the depth limit |
| `InPlaceRadix.FreeSlot` | src/radix.c:352-371 | While elements cycle in place, one found in the wrong bucket always has a free slot in its own |
| `InPlaceRadix.Cycle` | src/radix.c:352-371 | The cycling loop ends with every bucket holding its members, a permutation of the range |
| `InPlaceRadix.CycleFromFills` | src/radix.c:352-371 | Which permutation it is depends on the range and the tables alone, and from any half-cycled state it fills the buckets left |
| `InPlaceRadix.FindSplit` | src/radix.c:304-349 | The loop that deepens while one bucket takes all either sorts the range or stops at a shared depth with correct counts, minimum-length shortcut included |
| `InPlaceRadix.RadixRange` | src/radix.c:293-389 | The in-place radix leaves a sorted permutation of the range and touches nothing else; it ends because the depth grows towards its limit |
| `LineSort.RadixSortLines` | src/radix.c:98-157 | Whole-line sorting, on one thread or on many in any interleaving, shows the texts in the order of the stable sort, leaves ordinals and key indices in their slots, and declines only for buffers over 32 bits |
| `LineSort.SortedPermutationTexts` | src/radix.c:98-157 | Any sorted permutation by bytes shows the same texts as the stable sort |
| `Groups.RefinedCompose` | src/radix.c:799-842 | Sorting by one order and then refining its groups by another is sorting by their composition, and every class comes out as the second step leaves what the first has left of it |
| `Groups.RefineStep` | src/radix.c:819-842 | Refining one more group keeps the refined part sorted, its classes as they should come out, and the boundary to the rest |
| `Groups.RefinedOnce` | src/radix.c:799-842 | Sorting by an order and saying how every class comes out fixes the sequence |
| `KeyEngine.ScanMonotonic` | src/radix.c:730-783 | The scan reports "monotonic" if and only if the range ascends or strictly descends |
| `KeyEngine.DescendsReversed` | src/radix.c:759-797 | Reversing a strictly descending range is its stable sort |
| `KeyEngine.SortLastResortGroups` | src/radix.c:799-817 | Ties of the last key come out in whole-line order, reversed under the global flag |
| `KeyEngine.SortNextKeyGroups` | src/radix.c:819-842 | Ties of one key come out in the order of all later keys and the last resort |
| `KeyEngine.RadixSortKey` | src/radix.c:159-210 | The keyed engine, with any keys, any flags, threads or not, leaves the lines sorted by all keys and the last resort, and every group of ties in its order or reversed as the input alone determines |
| `KeyEngine.FinalClassIs` | src/radix.c:819-842 | Each group of ties goes through all keys as it was or reversed: reversed exactly when an odd number of keys reverse it |
| `KeyEngine.ElementsExact` | src/radix.c:159-210 | Line for line the output is the stable sort if and only if every group that turns has at most one line, or is the same reversed |
| `KeyEngine.ForwardKeysRefineOracle` | src/radix.c:159-210 | Without reversal its output is the stable sort, line for line |
| `KeyEngine.LastResortRefinesOracle` | src/radix.c:159-210 | With the last resort, whatever is reversed, its output shows the texts of the stable sort |
| `KeyExact.KeysExact` | src/radix.c:159-210 | For any keys and flags, what is written is what the stable sort would have written if and only if no group of ties comes out visibly reversed: the whole group, or under `-u` its first line |
| `KeyExact.HarmlessMap` | src/radix.c:159-210 | Whether that is so depends on nothing but the texts of the lines |
| `ReversedKeys.ReversedKeyReordersTies` | src/radix.c:647-673 | For fifty lines with a reversed first field, under `-s` and under `-u`, no result of the sorting engines is written as the stable sort is |
| `ReversedKeys.ReversedKeyReordersRuns` | src/external.c:338-378 | Nor is it when they are sorted as one run of an external sort |
| `Comparator.CompareModified` | src/cmp.c:199-257 | The two-cursor comparison is the byte comparison of the filtered and folded texts, for all texts and all of d, f and i; which texts these are is told by the two rows below |
| `LineOrders.FilteredIs` | src/cmp.c:259-277 | What the modifiers leave of a text: exactly the bytes of the sets of `-d` and `-i`, in their order, a small letter read as the capital one under `-f` |
| `LineOrders.FoldedIs` | src/cmp.c:271-277 | Under `-f` alone every byte stays in its place, 97 to 122 less 32 |
| `LineOrders.FoldedFirstByte` | src/cmp.c:199-257 | Under `-f` the first byte that is not the same letter decides, as a capital; the end of a text comes before every byte |
| `Comparator.AppendFiltered` | src/line.c:451-479 | The materialised filtered text is the one that comparison means |
| `Comparator.CompareKeys` | src/cmp.c:144-197 | The loop over the keys gives the sign of the composed order of all keys, each in its direction |
| `Comparator.CompareLines` | src/cmp.c:86-116 | Comparing lines gives the sign of the order that the options define, last resort and global reversal included |
| `LineOrders.FirstKeyDecides` | src/cmp.c:144-197 | The first key on which two lines differ decides, in its own direction, whatever the global flags |
| `LineOrders.NoKeyDecides` | src/cmp.c:108-142 | If no key tells two lines apart, their bytes do, turned by the global flag, unless `-s` or `-u` is given |
| `LineOrders.LinesDecide` | src/cmp.c:86-106 | Without keys the mode decides, then the bytes unless `-s` or `-u` is given, and `-r` turns both |
| `LineOrders.LeadingBlanks` | src/cmp.c:46-62 | Under `-b` lines compare as if blanks in front were missing, in the modes bytes, version and random; in the others it changes nothing |
| `LineOrders.RandomMode` | src/cmp.c:64-72 | Digests that differ decide; equal ones leave it to the texts hashed |
| `LineOrders.GeneralMode` | src/numeric.c:160-181 | No number comes before not-a-number, and that before all numbers, which compare by value |
| `LineOrders.NumberMode` | src/cmp.c:30-33 | `-n` orders lines and keys by the numbers that their texts denote |
| `Comparator.CompareUnique` | src/cmp.c:118-125 | What `-u` takes as equal is equality in the order without last resort |
| `Comparator.ComparePreorder` | src/cmp.c:86-197 | For every list of keys and every flag the comparator is a total preorder |
| `Comparator.LastResortSeparates` | src/cmp.c:130-142 | With the last resort only identical lines compare equal |
| `Numeric.ComparisonIsExact` | src/numeric.c:34-130 | Comparing two parsed texts gives the sign of the difference of the exact decimals they denote, for any number of digits, leading zeros, fraction lengths and negative zero |
| `Numeric.ParsedDenotes` | src/numeric.c:49-94 | The parser keeps the number that the text denotes |
| `DecimalTexts.WrittenDenotes` | src/numeric.c:49-94 | Blanks 32 or 9, a sign 43 or 45, digits, the point 46 and more digits denote the number written, whatever follows |
| `DecimalTexts.AnyText` | src/numeric.c:49-94 | Every text is of that form, so this settles what every text denotes |
| `DecimalTexts.WrittenCompare` | src/numeric.c:34-47 | Two written decimals compare as their numbers do |
| `DecimalTexts.ShownDenotes` | src/numeric.c:49-94 | A writer of decimals is read back: any number, any place of the point, any sign |
| `Numeric.Parse` | src/numeric.c:49-94 | The cursor loops of the parser |
| `Numeric.MagnitudeCompare` | src/numeric.c:96-130 | The magnitude loops, with the shorter fraction read as if zeros followed it |
| `Numeric.CompareMagnitudeExact` | src/numeric.c:96-130 | Digit by digit comparison orders the real magnitudes |
| `Numeric.NumericCompare` | src/numeric.c:25-47 | The whole comparison returns the sign of the difference of two reals |
| `Version.NonDigitStep` | src/numeric.c:398-407 | Where one cursor is at a non-digit, equal order weights force the same byte on both sides, so both cursors stay inside; different weights decide |
| `Version.CompareNonDigits` | src/numeric.c:398-407 | The loop over non-digits never leaves either name |
| `Version.CompareDigitRuns` | src/numeric.c:408-429 | Stripped zeros, run lengths and the first difference compare the numbers that the digits write |
| `Version.ReverseCompare` | src/numeric.c:389-432 | The two-cursor comparison orders names by a sequence of weights and numbers, missing parts counting as zero |
| `Version.FilePrefixLength` | src/numeric.c:347-366 | One scan finds the shortest non-empty prefix that leaves nothing but file suffixes |
| `Version.VersionCompare` | src/numeric.c:293-345 | Special names, the pass without suffixes and the pass over everything give the version order |
| `VersionNames.DifferentBytes` | src/numeric.c:369-387 | Behind a common beginning, of two bytes that are no digits the tilde comes first, then letters, then the rest, each by their bytes |
| `VersionNames.LongerName` | src/numeric.c:369-387 | A name that goes on with such a byte comes later, unless that is a tilde |
| `VersionNames.DifferentNumbers` | src/numeric.c:408-429 | Numbers at the same place decide by their values, and equal ones leave it to what follows |
| `VersionNames.NumberOrByte` | src/numeric.c:398-429 | A number comes before any other byte but the tilde, and behind the end of the name unless it is zero |
| `VersionNames.PrefixLeavesRow` | src/numeric.c:347-366 | What the first pass leaves out is a row of file suffixes: a dot, a letter or tilde, then letters, digits and tildes |
| `VersionNames.PrefixIsShortest` | src/numeric.c:347-366 | and no shorter part of the name, not empty, leaves one |
| `VersionNames.StemsDecide` | src/numeric.c:293-345 | For names that are no dot files the parts before the suffixes decide, and all of the names only if those do not |
| `VersionNames.PreReleaseFirst` | src/numeric.c:369-387 | A version that goes on with a tilde comes before that version, whatever the suffixes |
| `VersionNames.SpecialNames` | src/numeric.c:302-332 | The empty name, the two directories, the dot files and the others come in that order |
| `Version.VersionPreorder` | src/numeric.c:293-432 | The version order is a total preorder on all byte strings |
| `Fields.ExtractKeySpan` | src/line.c:914-972 | Direct extraction computes the span that the positions define, always within the line |
| `KeyTexts.SeparatedKey` | src/line.c:914-972 | On a line of fields with a separator, a key of one field starts after the blanks it skips and the characters before its first one, and stops with the field, behind the character named, or with the line |
| `KeyTexts.SeparatedKeyAcross` | src/line.c:914-972 | The same for a key that ends in a later field |
| `KeyTexts.SeparatedCharacters` | src/line.c:935-957 | `-k n.c,n.e` is the characters from c to e of field n, `-k n,n` the field, `-k n.c` all that follows |
| `KeyTexts.WordKey` | src/line.c:928-933 | The same among words between blanks, where a field begins with its blanks |
| `KeyTexts.FieldCharacters` | src/line.c:928-957 | There characters are counted from the blanks, |
| `KeyTexts.WordCharacters` | src/line.c:928-957 | or with `b` from the word |
| `KeyTexts.MissingField` | src/line.c:914-972 | A key that starts behind the last field is empty; one that only ends behind it ends with the line |
| `KeyTexts.MissingWord` | src/line.c:914-972 | So is a key that starts behind the last word |
| `Fields.FillExplicitCache` | src/line.c:1075-1109 | One pass records, for every field up to the largest named, the bounds that direct scanning finds |
| `Fields.FillBlankCache` | src/line.c:1111-1137 | The same for blank-separated fields |
| `Fields.ExplicitSpanCached` | src/line.c:974-1011 | Extraction from the separator cache gives the span of direct extraction |
| `Fields.BlankSpanCached` | src/line.c:1013-1048 | Extraction from the blank cache gives the span of direct extraction |
| `Fields.LineKeySpans` | src/line.c:279-320 | Preparing all keys of a line, cached or not, gives every key its direct span |
| `Fields.SimpleKeySpan` | src/line.c:364-391 | The shortcut for one-field keys, within the line |
| `Fields.SimpleSpanExact` | src/merge.c:160-166 | On every shape that the guard admits the shortcut is the key |
| `Fields.SimpleSpanNeedsGuard` | src/merge.c:161-166 | With a separator and skipped blanks it would not be |
| `Unique.DedupIsUniqueSort` | src/output.c:76-99 | Dropping lines equal to the last one written keeps exactly the first of every class of a stable sort |
| `Unique.ReversedUniqueSort` | src/radix.c:1218-1230 | Keeping the first of every class and reversing is what the reversed order does |
| `Unique.Compact` | src/radix.c:1218-1230 | Compaction in place keeps the first line of every run of equals |
| `Unique.MapStableSort` | src/sort.c:107-146 | Sorting lines by their texts is sorting the texts |
| `TransformedEngine.SortFilteredLines` | src/radix.c:212-246 | The filtered-line engine leaves the stable sort by filtered bytes, with raw ties, or compacted under `-u -r` |
| `TransformedEngine.SortFilteredKey` | src/radix.c:248-291 | The filtered-key engine leaves the stable sort, and declines without prepared keys |
| `TransformedEngine.CompactionBeforeReversal` | src/radix.c:237-244 | Compacting before the output is reversed writes what sorting by the reversed order writes |
| `RankSort.KeyPlanAgrees` | src/plan.c:63-67 | Where the planner picks the keyed engine, the order of its keys and last resort is the comparator |
| `RankSort.MonotonicAgrees` | src/sort.c:148-160 | For inputs already in order, or in reverse order, skipping the sort and perhaps reversing writes what the oracle writes |
| `RankSort.RadixAgrees` | src/sort.c:30-50 | Byte radix and reversed output write what the oracle writes |
| `RankSort.KeyEngineAgrees` | src/sort.c:51-59 | The keyed engine writes what the oracle writes if and only if no group of ties of the input comes out visibly reversed |
| `RankSort.FaithfulWhen` | src/radix.c:620-645 | That never happens with the last resort, without reversed keys, or for up to 48 lines |
| `RankSort.FilteredTiesAgree` | src/sort.c:60-76 | Filtered lines with raw ties, reversed at output, write what the oracle writes |
| `RankSort.CompactedAgree` | src/radix.c:1218-1230 | So do compacted lines under `-u -r` |
| `RankSort.FilteredKeyAgrees` | src/plan.c:36-40 | So does one filtered key |
| `RankSort.PlanSound` | src/plan.c:11-71 | Whatever engine the planner picks, the order that this engine sorts by, reversed at output or not, is the comparator on all lines; the transformed engine is never picked for `-s -r` on whole lines |
| `RankSort.PlanExactly` | src/plan.c:11-71 | Which engine is picked, as a condition on the options for each of them |
| `RankSort.SortLines` | src/sort.c:20-85 | Whatever engine runs, declines or falls back, the array and its flag show what the scalar engine shows, exactly when no group of ties comes out visibly reversed; in any case they are in order, no text is lost, and only the byte plan takes an index off its row |
| `RankSort.TableStillFits` | src/line.c:279-320 | A table addressed by what a line carries still fits every line when whole lines have moved |
| `RankSort.WriteLines` | src/output.c:76-99 | The writer's loop, forwards or backwards, writes the lines that `-u` leaves |
| `RankSort.Run` | src/main.c:84-103 | Planning, sorting and writing give one stable sort by the comparator, with equals dropped under `-u`, exactly when no group of ties comes out visibly reversed |
| `WholeProgram.SortFiles` | src/main.c:84-103 | From chunks in to bytes out, whatever the chunks, the threads and the kernel do: on success the bytes are those of the stable sort, exactly in the same case |
| `WholeProgram.OutputLines` | src/output.c:60-116 | The writer, all lines in one go or under `-u` line by line through its buffer, puts out the joined lines |
| `WholeProgram.WantedReadsBack` | src/line.c:742-758 | Splitting those bytes gives the sorted records back |
| `Threads.StepKeepsInvariant` | src/sys/thread.c:52-66 | Every step of every worker keeps: claimed numbers are distinct, unclaimed segments untouched, finished ones final, memory outside all segments unchanged |
| `Threads.JoinedMeansFinished` | src/sys/thread.c:19-50 | When all workers have exited every task has run to its end on its own segment |
| `Threads.ClaimedOnce` | src/sys/thread.c:52-66 | No task number is drawn twice in any run |
| `Threads.EachTaskOnce` | src/sys/thread.c:52-66 | A joined run has drawn every task exactly once |
| `Threads.RunsAgree` | src/sys/thread.c:19-66 | Any two joined runs, with any numbers of workers, leave the same memory |
| `Threads.EveryRunEnds` | src/sys/thread.c:19-66 | Tasks that end bound the number of steps that live workers can take |
| `Threads.RunTasks` | src/sys/thread.c:19-66 | Under every scheduler the call ends and returns the memory of a joined run of as many workers as could be started, at most one per task and 64 in all |
| `Worklists.WorkFalls` | src/radix.c:555-618 | One step of a radix task, a pass or an insertion that replaces a range by smaller or deeper ones, lowers a bound |
| `Worklists.TaskSorts` | src/radix.c:477-496 | A task that has stopped has sorted its segment, for any way of splitting ranges that is sound |
| `Worklists.WorkersBounded` | src/radix.c:477-496 | Such tasks keep to separate segments and end within a bound |
| `Worklists.JoinedTasksDone` | src/sys/thread.c:19-50 | After the join every emitted range is sorted and nothing else has changed |
| `ParallelRadix.RadixEmit` | src/radix.c:178-202 | The top pass of the keyed engine emits disjoint ranges whose sorting is all that is left |
| `ParallelRadix.RangesSplit` | src/radix.c:555-618 | One insertion, or one counting pass with its buckets, is a sound way of splitting a range of the keyed engine |
| `ParallelRadix.ArrangedOnce` | src/radix.c:555-618 | What the stable radix makes of a range is determined |
| `ParallelRadix.ParallelSorts` | src/radix.c:489-496 | Running the emitted ranges on any workers in any interleaving leaves the very array that the sequential recursion leaves |
| `ParallelRadix.RadixThreaded` | src/radix.c:178-202 | Emission, the workers and the join do to the range what one call of the recursion does |
| `ParallelRadix.ChildrenDistinct` | src/radix.c:372-388 | Emitted ranges do not overlap |
| `ParallelLines.LinesEmit` | src/radix.c:126-149 | The same for the in-place pass over whole lines |
| `ParallelLines.LinesSplit` | src/radix.c:293-389 | One insertion, or the cycling of one range with its buckets, is a sound way of splitting a range of whole lines |
| `ParallelLines.ParallelLinesSort` | src/radix.c:477-487 | Any interleaving of these tasks leaves the texts that the sequential recursion leaves |
| `ParallelLines.LinesThreaded` | src/radix.c:126-149 | Emission, the workers and the join leave a sorted permutation of the range |
| `Records.SplitAppend` | src/line.c:742-758 | Reading on from an unfinished record is reading all of it at once |
| `Records.RoundTrip` | src/external.c:290-306 | Splitting what was written gives the records back |
| `Records.JoinSplit` | src/line.c:742-758 | Joining what was read gives the bytes back, up to the unfinished record |
| `Records.NextTracks` | src/line.c:859-881 | After every line the monotonic flags say exactly whether the lines so far never fall, never rise, or are all equal |
| `Records.Lines.AddLine` | src/line.c:832-857 | Adding a line appends its text and keeps the flags exact |
| `Records.Lines.ParseRecords` | src/line.c:742-758 | Scanning only the new bytes adds exactly the records completed by them |
| `Records.Lines.ReadStream` | src/line.c:664-697 | A stream in any chunks adds the records of its bytes, an unterminated last one included |
| `Records.StreamRun.ReadHead` | src/merge.c:657-700 | The buffered reader delivers exactly the records of the stream, in order, however it is cut |
| `Output.FlushIov` | src/output.c:197-224 | However the kernel interrupts and cuts the writes, success means every byte in order, failure a prefix and a failed call |
| `Output.AppendRun` | src/output.c:165-195 | Neighbouring lines taken as one piece read as those lines with their delimiters |
| `Output.ContiguousBytes` | src/output.c:165-195 | The bytes of a contiguous run are the joined lines |
| `Output.WritePlainLines` | src/output.c:118-143 | On success exactly every line and a delimiter, in output order, has been written |
| `Output.Writer.WriteLine` | src/output.c:307-314 | The buffered writer adds a line and a delimiter to what is out or buffered |
| `Heap.SiftDown` | src/merge.c:925-950 | Sifting keeps the members, restores the heap from the given position on, and leaves the rest of the array alone |
| `Heap.Heapify` | src/merge.c:883-890 | Sifting from the middle down builds a heap |
| `Heap.RootIsLeast` | src/merge.c:891-901 | In a heap nothing is less than the root |
| `HeapMerge.RootIsNext` | src/merge.c:952-961 | The run at the root is before the heads of earlier runs and not after those of later ones |
| `HeapMerge.TakeNext` | src/merge.c:891-901 | Taking its head leaves the stable sort of the rest |
| `HeapMerge.HeapAfter` | src/merge.c:891-901 | After an extraction only the root can be out of place, whether its run goes on or ends |
| `HeapMerge.MergeOrderLines` | src/merge.c:867-909 | Merging sorted runs is the stable sort of their concatenation, ties by run and then by position |
| `DirectMerge.CachedLessModels` | src/merge.c:364-410 | While every cache is the key of its run's head, comparing through the caches is comparing the heads |
| `DirectMerge.MergeDirect` | src/merge.c:189-270 | The loop over cached heads writes the stable sort, and under `-u` the first of every class |
| `DirectMerge.FastModeExact` | src/merge.c:132-187 | In every mode that takes the direct merge, cached keys order heads as the comparator and drop what `-u` drops |
| `DirectMerge.MergeRecords` | src/merge.c:101-130 | The direct merge under the options equals the stable sort under the comparator |
| `External.RunBuffer.ReadStream` | src/external.c:172-207 | Whatever the chunks, the records are cut into runs as the buffer size says, the unterminated last one included |
| `External.RunsHoldRecords` | src/external.c:120-216 | For every buffer size and all chunks the runs, one after the other, hold the records of the files |
| `RunSizes.RunsFill` | src/external.c:209-216 | Every run but the last fills the buffer, and what is left for the last does not, but for delimiters missing at the end of files |
| `External.RunBuffer.FlushIfNeeded` | src/external.c:209-216 | A run is cut only at a record boundary, and then exactly when the buffer size is reached |
| `External.WriteOneRun` | src/external.c:338-378 | A run is written in order and makes nothing up; every group of ties is in it in its order, or begins with its first line under `-u`, except that the keyed plan leaves it as its engine does |
| `StreamMerge.MergeStreams` | src/merge.c:518-603 | Merging streams of bytes, each read head by head through its buffer, writes the stable sort of their records, with repeats dropped under `-u` |
| `External.MergeBytes` | src/merge.c:518-603 | So does writing runs out and merging what is read back in any chunks |
| `External.MergeAll` | src/merge.c:101-130 | Streaming, direct or prepared, merging sorted runs writes the stable sort of all records |
| `External.ReduceRuns` | src/external.c:627-664 | Merging consecutive groups until the runs fit one merge leaves runs that stand for those given; it ends because their number falls |
| `External.PassShrinks` | src/external.c:635-662 | A pass over more runs than the batch leaves fewer if and only if the batch is at least two |
| `KeyedRuns.RunsExact` | src/external.c:338-378 | Runs left by the keyed engine stand for all of their records if and only if no run reverses a group visibly, where under `-u` only the first run that holds the group counts |
| `External.RunsStandExactly` | src/external.c:338-378 | Under any plan, the runs written stand for the records in exactly that case |
| `External.FaithfulEach` | src/external.c:338-378 | It is enough that every run on its own shows no reversal, and without `-u` it is necessary |
| `External.FaithfulRunsWhen` | src/external.c:338-378 | With the last resort, or without reversed keys, it is so for every way of cutting runs |
| `External.ExternalSort` | src/external.c:68-86 | For any buffer size, any chunks and threads, and any batch size but one where there is more than one run, external sorting writes records of the input in order, all of them without `-u`, and it is what one stable sort of all records writes exactly in that case |
| `External.SortInMemory` | src/external.c:105-118 | Reading everything and sorting in memory writes it exactly when no group of ties of all records comes out visibly reversed |
| `Check.CheckStream.ProcessRecord` | src/check.c:216-238 | When the buffers swap, the cached key stays the key of the previous record, though it points into a buffer |
| `Check.CheckStream.KeyRecordsDisordered` | src/check.c:312-357 | Comparing a cached key with a fresh one decides as the comparator does |
| `Check.CheckStream.RecordsDisordered` | src/check.c:359-391 | Bytes, cached keys and the comparator agree on what is out of order |
| `Check.CheckInput` | src/check.c:124-178 | The verdict is "in order" exactly when no adjacent pair is out of order, and otherwise names the first record that is |
| `CheckedOrder.AcceptedIsSorted` | src/check.c:124-178 | A stream is in order exactly when sorting it under the same options would write it as it is |
| `Md5.Context.Update` | src/md5.c:18-44 | After any updates the state is the fold over the full blocks of all bytes and the buffer holds the remainder |
| `Md5.Context.Final` | src/md5.c:46-67 | The digest is that of RFC 1321 for the whole message, padding and 64-bit length included |
| `Md5.Transform` | src/md5.c:75-143 | The round loop computes the compression of one block |
| `Md5Vectors.EmptyDigest` | src/md5.c:75-143 | The digest of the empty message is that of section A.5 of RFC 1321, worked out in 64 steps |
| `Md5Vectors.AbcDigest` | src/md5.c:75-143 | So is the digest of `abc` |
| `Md5Vectors.LettersAndDigitsDigest` | src/md5.c:18-67 | and that of all letters and digits, whose two blocks leave no word of the first empty |
| `Md5Vectors.FirstAux` | src/md5.c:120-122 | The auxiliary function of the first round chooses, bit by bit, between two words by the third |
| `Md5Vectors.SecondAux` | src/md5.c:123-125 | So does that of the second, by another word |
| `Md5Vectors.ThirdAux` | src/md5.c:126-128 | That of the third is one word where the others agree, its complement where they differ |
| `Md5Vectors.FourthAux` | src/md5.c:129-131 | That of the fourth complements a word where another is clear, and elsewhere says whether two differ |
| `Md5Vectors.LengthFieldIs` | src/md5.c:46-67 | The eight bytes at the end, least significant first, are the length in bits modulo two to the 64 |
| `Md5.FourOperations` | src/md5.c:115-138 | Four steps with rotating registers are four operations in place in the notation of RFC 1321, section 3.4 |
| `Md5.RandomDigest` | src/line.c:1194-1248 | Hashing filtered bytes in chunks of 256 gives the digest of the seed and all of them at once |

## Left out

- Collation other than the C locale, `strxfrm` copies and the plans made for them.
- The values of `-g`, `-h` and `-M`: a number, a class or a month is a function of the text that the caller supplies, so rounding in `strtold` is not modelled.
- Seeding `-R` from the system: the digest is a fixed function of the bytes, and each temporary run being seeded afresh is not modelled.
- Option parsing, option compatibility, help, `--debug` annotations and the environment switches; options are values whose key fields count from one.
- Files, descriptors, `mmap`, temporary names, compression programs and signal handlers: files are sequences of chunks or of records, and `Records.RoundTrip` is what lets a run be a sequence of records.
- Allocation failure, capacity doubling (except in the check buffers), machine-word overflow of sizes, statistics counters.
- The vectorised scanners of src/sys/scan.h: the scalar definitions are used.
- The tables `counts`, `starts` and `next` of the radix passes, and the positions of merge runs, are sequences that are reassigned; the lines themselves, the heap, the field caches and the record buffers are arrays.
- `HeapMerge.MergeOrderLines`: says nothing about runs that are not sorted, for which the source promises nothing.
- `External.ExternalSort`: excludes a batch size of one where there is more than one run, with which the reduction does not end; it results in the texts written, and the bytes of the final merge are not composed with the writer.
- `Worklists.TaskSorts`: a step of a task is one insertion of a short range or one pass over a range; the reads and writes inside a step do not interleave with those of other workers, which touch other segments.
- `Threads.RunTasks`: which live worker steps next, and how many threads could be created, are parameters; a thread id or a failed join is not modelled.
- `Threads.RunsAgree`: memory is sequentially consistent; the relaxed ordering of the counter and the barrier of the join are not modelled.
- `Check.CheckInput`: records too large for memory and read errors end the source with a different status.
