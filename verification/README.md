# Models of sort, objdump, fmt, head, du, basenc and fold

The programs annotated in this repository are older GNU utilities. Seven of them hold algorithms whose
correctness is not evident from reading them; this project models those algorithms in Dafny and proves what
their comments and documentation promise. `dafny verify dfyconfig.toml` checks the whole project.

## The modules

**sort** (`annotated_Dataset-1/sort.c`). Lines are compared by any function that is a total preorder
(`StableSpec`); `Comparator` shows that the program's own comparison, with any list of keys, is one, and what
`-c` accepts. The specification is the *stable sort*: sorted, with every class of equal lines in input order.
It has exactly one solution, so a method that meets it is determined line by line.

- `SequentialSort` is the in-place merge sort on reversed arrays, with real arrays and the overlap of
  destination and upper half.
- `MergeTree` is the concurrent merge tree as a step system: any number of threads pop a node, merge a line at
  a time, publish to the parent without its lock, update, requeue. Its quota wraps as the program's counter
  does, so no cap on the lines per visit is claimed. `MergeTreeInv`, `MergeTreeSafety`, `MergeTreeProgress`
  and `MergeTreeRuns` prove the invariant, safety, progress, and their consequences for whole runs from the
  start that `init_node` and `sortlines` produce. Any order of pops is allowed. There the lines a node holds are
  sequences; `MergeTreeSpots`, `MergeTreeCells` and `MergeTreeArray` put them into the one array that all nodes
  share, with the pointers `lo`, `end_lo`, `hi`, `end_hi` and `dest` and the scratch cells of the leaves: every
  step on the array does to the lines between the pointers what the step on sequences does, and no store
  ever hits a cell that is still needed.
- `KWayMerge` and `MergeFiles` are the merge of open files driven by the permutation table, with buffers that
  are refilled, files that end, temporaries that are removed, and `-u`. `MergePasses` is the loop around it;
  what the system answers to the calls that open files is an argument, and decides whether it ends or dies.

**objdump** (`Dataset-3/objdump.c`). `JumpList` is the doubly linked list with its real pointers, `JumpLayout`
the merging, sorting and levelling loops on it, `JumpSpec` what they compute and what that means. `Symbols` is
the search for the symbol of an address; `sym_ok` is any predicate for which being acceptable with the section
implies being acceptable without.

**fmt** (`annotated_Dataset-1/fmt.c`). `FmtSpec` has the costs and the recurrence of the optimiser, `FmtCosts`
what the costs make of the marks of words, `FmtChoice` the dynamic program in place, `FmtOutput` and `FmtLayout` the printing of lines, `FmtParagraph` and `FmtBuffer`
the two buffers with the partial flush and the reading of words. The comment at `fmt_paragraph` speaks of the
optimal formatting; the code compares each line with the line *recorded* for the next word, so that what it
finds is best among all layouts under that reckoning, but not outright: `FmtOptimal.ThreeLinesNeedNotBeBest` is
a paragraph for which it is not. `FmtOptimal` says exactly when it is: what any layout costs more than the
recorded one is the sum of what its lines lose behind the lines before them (`CostOfLayout`), so the recorded
layout is cheapest if and only if nothing can be gained that way (`CheapestExactly`, `SteadyExactly`), for which
there is also a condition on the words and margins alone (`SettledIsBest`).

**head** (`annotated_Dataset-1/head.c`). `HeadBytes` has the two ways of leaving out the last bytes of a
stream, `HeadLines` what leaving out the last lines means, `HeadPipe` the linked list of reused buffers,
`HeadSeek` the backward scan. The two line methods meet the same function, so they agree on every content. The
ring of buffers does not handle every input: where the input ends in the block in which the bytes to be elided
end, but before them, the amount to be printed at the end is computed below zero. `HeadBytes.RingBuffer`
states exactly when.

**du** (`annotated_Dataset-1/du.c`). `Du` has the accumulators per level, cleared and added up as the level of
the entries changes, against the sums over the hierarchy; `DuReport` says which lines are printed.

**basenc** (`annotated_Dataset-1/basenc.c`). `BaseCodec` says what encoding in groups and decoding character by
character mean, `BaseEncode` what wrapping does, `Z85`, `Base16` and `Base2` have the codes, `Basenc` the
decoding contexts and the block loops. Z85 is the code of ZeroMQ RFC 32, base16 that of section 8 of RFC 4648.

**fold** (`annotated_Dataset-1/fold.c`). `Fold` has the rescanning loop, and conditions on its output that have
only one solution.

## Conventions

A C pointer into an array is an index. Buffers that are fixed in C are Dafny arrays; records that are relinked
are objects. A method that models a C function is proved against a function or predicate on values, and the
lemmas say what that function means. Machine arithmetic is written out where it can matter: the saturating
addition of `du`, the 32-bit test of Z85, the wrapping quota of `merge_loop`, the negative remainder of `head`,
`MAXCOST` in `fmt`. Bits that C sets with `|=` in a word where they are known to be clear are added. `Division`
and `Wrappers` hold what several modules need.

## Model

| member | source | states |
|---|---|---|
| StableSpec.StableSortUnique | annotated_Dataset-1/sort.c:3187-3244 | A sequence that is sorted and has, for every line, the lines comparing equal to it in their input order is the only one: "stable sort" determines the output line by line. |
| StableSpec.SameClassesPermutation | annotated_Dataset-1/sort.c:3187-3244 | Keeping every class of equal lines keeps the multiset of lines. |
| StableSpec.MergeStable | annotated_Dataset-1/sort.c:3142-3179 | Merging stable sorts of two parts, ties to the first, gives the stable sort of their concatenation. |
| SequentialSort.MergeLines | annotated_Dataset-1/sort.c:3149-3179 | The merge of LO and HI arrives in the destination, line for line, although the destination overlaps HI; no cell outside the destination changes. |
| SequentialSort.StableSortCorrect | annotated_Dataset-1/sort.c:3187-3244 | The split of sequential_sort, as a recursion on values, yields a stable sort of its input. |
| SequentialSort.StableSortOnly | annotated_Dataset-1/sort.c:3187-3244 | Whatever is a stable sort of the input equals that recursion. |
| SequentialSort.SequentialSort | annotated_Dataset-1/sort.c:3196-3244 | In place, the reversed array and its scratch space end with the stable sort where to_temp says; only nlines/2 scratch cells change when sorting in place, nlines otherwise, and nothing outside the given ranges. |
| MergeTreeInv.StepKeepsInv | annotated_Dataset-1/sort.c:3446-3572 | Every step of every thread keeps the tree's invariant: counts of owed lines equal what is available plus what is still below, a node with work is queued, held, or about to be looked at by a child, and MERGE_END is queued only when the root is drained. |
| MergeTreeSafety.StepKeepsWhole | annotated_Dataset-1/sort.c:3446-3572 | Lines emitted followed by the merge of everything still in the tree stay the same sequence under every step, a publication through node->dest without the parent's lock included. |
| MergeTreeProgress.NeverStuck | annotated_Dataset-1/sort.c:3552-3572 | As long as MERGE_END is not queued, some thread can make a step. |
| MergeTreeProgress.StepUsesPotential | annotated_Dataset-1/sort.c:3446-3572 | Every step lowers a potential of the whole tree. |
| MergeTreeProgress.TotalNonNegative | annotated_Dataset-1/sort.c:3446-3572 | That potential is never negative. |
| MergeTreeRuns.StartOk | annotated_Dataset-1/sort.c:3254-3335 | The tree as init_node lays it out over sorted halves satisfies the invariant, and its whole delivery is the stable sort of the input. |
| MergeTreeRuns.EveryRunIsSafe | annotated_Dataset-1/sort.c:3445-3572 | After any interleaving of any number of steps, what the root has emitted is a prefix of the stable sort, emitted and held lines are exactly the input multiset, and the output holds what -u keeps of them. |
| MergeTreeRuns.EndMeansDone | annotated_Dataset-1/sort.c:3528-3572 | MERGE_END is queued at most once, exactly when the root's remainder is zero and the root is released; then everything has been emitted. |
| MergeTreeRuns.EveryRunEnds | annotated_Dataset-1/sort.c:3552-3572 | A run over n lines has at most 30n steps and 15 for every line at every node, and 5 for every leaf; and unless MERGE_END is queued some step can be taken: so every run leads to MERGE_END, and then, by EndMeansDone, everything has been emitted. |
| MergeTreeRuns.QueueDiscipline | annotated_Dataset-1/sort.c:3394-3416 | No node is queued twice, counting pops that wait for its lock; a queued node has work; a node with work that nobody has queued has a child whose holder will still look at it. |
| MergeTreeRuns.EveryPopMovesLines | annotated_Dataset-1/sort.c:3552-3572 | A popped node that comes to be updated has moved at least one line, and no other step changes nlo + nhi of any node. |
| MergeTreeSpots.CellsApart | annotated_Dataset-1/sort.c:3295-3335 | In the one array of lines, the cells of different nodes are different: a leaf has its share of the input, a node with children a part of the area of its level. |
| MergeTreeSpots.TargetsApart | annotated_Dataset-1/sort.c:3295-3335 | The cells to which different nodes send their lines are different. |
| MergeTreeCells.DestAt | annotated_Dataset-1/sort.c:3452-3483 | *node->dest points right behind what the node has delivered, within the cells for its side of the parent. |
| MergeTreeCells.Untouched | annotated_Dataset-1/sort.c:3394-3416 | Above a leaf that is not sorted yet, no node has taken a line from either side. |
| MergeTreeCells.StepShows | annotated_Dataset-1/sort.c:3446-3572 | With pointers into the shared array, every step, storing lines through dest, publishing dest, and sorting a leaf in place with scratch cells included, leaves between the pointers the lines that the same step of MergeTree leaves. |
| MergeTreeCells.WritesAreFree | annotated_Dataset-1/sort.c:3452-3479 | The cell a merged line is stored in holds no line still to be taken, none merged and not published, and is neither in a share still to be sorted nor among the scratch cells for it. |
| MergeTreeArray.StartShows | annotated_Dataset-1/sort.c:3254-3335 | The pointers as init_node sets them, over the unsorted input in the array, are the start of MergeTreeRuns. |
| MergeTreeArray.EveryBoardRun | annotated_Dataset-1/sort.c:3644-3689 | In every interleaving of steps on the array, what is emitted is a prefix of the stable sort of the input, and all of it once MERGE_END is queued. |
| MergeTreeArray.EveryWriteIsFree | annotated_Dataset-1/sort.c:3452-3479 | In every such run, each store of a merged line changes one cell, which nothing else needs at the time, at any depth of the tree. |
| MergeTreeArray.EveryBoardRunEnds | annotated_Dataset-1/sort.c:3552-3572 | Such runs are bounded too, and until MERGE_END is queued there is a step to go on with. |
| MergeTreeArray.HalfCellsPerLine | annotated_Dataset-1/sort.c:3924-3938 | The loop over powers of two yields one more cell for a line than the rounded-up logarithm of the number of threads; one and a half cells for a single thread. |
| MergeTreeArray.CellsSuffice | annotated_Dataset-1/sort.c:3655-3689 | As many cells for each line are enough for all areas and scratch cells, however the lines are split among the threads. |
| KWayMerge.MergeAllStable | annotated_Dataset-1/sort.c:2923-2932 | Merging sorted files with ties to the lower file is the stable sort of their concatenation. |
| KWayMerge.MergeAllTake | annotated_Dataset-1/sort.c:2993-3052 | The file that comes first by (line, index) provides the next line of that merge. |
| KWayMerge.SwapRemovesInversion | annotated_Dataset-1/sort.c:2986-2993 | A swap of neighbours in the wrong order removes an inversion of the table and adds none. |
| KWayMerge.SetUpOrd | annotated_Dataset-1/sort.c:2986-2993 | The loop that starts over after each swap ends, with a permutation sorted by (line, file index). |
| KWayMerge.Reinsert | annotated_Dataset-1/sort.c:3078-3103 | Binary re-insertion of the changed first entry leaves a permutation sorted by (line, file index). |
| MergeFiles.ReadFirst | annotated_Dataset-1/sort.c:2953-2984 | The files that have a line are open in their order, each at its first line; files without a line are gone, the temporaries among them removed; the merge to come is that of all files. |
| MergeFiles.MergeFps | annotated_Dataset-1/sort.c:2932-3118 | Writes the merge of all files, under -u only the first line of each run of equal ones, and removes exactly the leading temporaries. |
| MergePasses.SelectedClass | annotated_Dataset-1/sort.c:2999-3027 | What -u keeps of a sorted sequence has one line of every class, the first. |
| MergePasses.ReplaceKeepsTable | annotated_Dataset-1/sort.c:3813-3854 | Replacing a run of files by their merge keeps the outcome of merging the whole table, and the first ntemps entries temporaries. |
| MergePasses.EndingDies | annotated_Dataset-1/sort.c:3859-3889 | The final merge ends the program exactly if the output does not open behind all its inputs and no temporary can be had: the output is refused, at most two inputs are open, an attempt for a temporary fails with at most two left open, or for another reason than descriptors. |
| MergePasses.PassingDies | annotated_Dataset-1/sort.c:3130-3139 | A merge in a pass ends it exactly if there is no temporary at the first attempt, or if not all its inputs open and not even two. |
| MergePasses.EndingStep | annotated_Dataset-1/sort.c:3859-3901 | What each round of the final merge comes to, by the answers of the system: it writes, ends the program, or merges one input fewer than were open, less one for every failed attempt, into one file. |
| MergePasses.SmoothWrites | annotated_Dataset-1/sort.c:3859-3901 | If everything opens, the program does not die. |
| MergePasses.OneFate | annotated_Dataset-1/sort.c:3791-3902 | What becomes of the program is determined by the answers of the system. |
| MergePasses.LeadsWidths | annotated_Dataset-1/sort.c:3808-3901 | No merge is of more than nmerge files, and the files left are those there were, less what the merges combine. |
| MergePasses.FullMerges | annotated_Dataset-1/sort.c:3808-3829 | The merges of nmerge files each keep the table and end the program exactly as the guards say; if all get all their inputs, they take nmerge files per output. |
| MergePasses.Pass | annotated_Dataset-1/sort.c:3804-3855 | A pass follows the answers of the system round by round, and strictly shrinks the table; if its merges get all their inputs, at most nmerge*((n/nmerge)/nmerge+1) files are left, and exactly as many if it took a short merge. |
| MergePasses.FinalMerge | annotated_Dataset-1/sort.c:3859-3901 | It writes exactly if it comes to a round in which all inputs and the output open, and dies exactly if it comes to one that ends the program; what it writes is the stable merge of all original lines, under -u the first of each class. |
| MergePasses.MergeAllFiles | annotated_Dataset-1/sort.c:3791-3902 | The same for all of merge, for any answers of the system; if everything opens it writes. The output is the stable sort of the concatenated inputs (their -u selection under -u); no merge takes more than nmerge files, and together they combine all files into one. |
| Comparator.CompareIgnoring | annotated_Dataset-1/sort.c:2650-2690 | The loop that skips ignored bytes and translates the others compares the filtered, translated keys. |
| Comparator.CompareShown | annotated_Dataset-1/sort.c:2691-2711 | The translating and the plain comparison of keys agree with comparing the translated keys. |
| Comparator.CopyKey | annotated_Dataset-1/sort.c:2569-2601 | Copying a key without its ignored bytes and with the others translated yields the filtered key. |
| Comparator.KeyCompare | annotated_Dataset-1/sort.c:2530-2729 | The key loop returns the first non-zero key result, reversed where the key asks for it, and zero if there is none. |
| Comparator.Compare | annotated_Dataset-1/sort.c:2735-2770 | compare computes the comparison by the options: the keys first, then, without -s and -u, the bytes as a last resort. |
| Comparator.OrderIsPreorder | annotated_Dataset-1/sort.c:2530-2770 | For any key list the comparison is a total preorder, given that each abstract key type is one. |
| Comparator.LastResortIsExact | annotated_Dataset-1/sort.c:2735-2770 | Without -s and -u only byte-identical lines compare equal. |
| Comparator.CleanMeans | annotated_Dataset-1/sort.c:2569-2601 | The text of a key that counts has, byte by byte, nothing for an ignored one and the translation of any other. |
| Comparator.PlainKey | annotated_Dataset-1/sort.c:2650-2729 | A plain key: the sign is that of the first difference of the texts that count, the smaller byte or the proper prefix first, turned round if the key is reversed. |
| Comparator.KeyDecides | annotated_Dataset-1/sort.c:2530-2729 | Where a key decides, the order is that of the first such key, whatever the other options. |
| Comparator.LastResort | annotated_Dataset-1/sort.c:2735-2770 | Where none decides, lines are equal under -s and -u, if there are keys; otherwise the first difference of the lines decides, turned round under -r. |
| Comparator.ReverseTurnsLastResort | annotated_Dataset-1/sort.c:2744-2769 | Options that differ in the global -r alone give opposite signs where the last resort decides, and the same where a key does. |
| Comparator.ReverseTurnsKey | annotated_Dataset-1/sort.c:2727-2729 | Lists of keys that differ in the -r of one key alone give opposite signs where this key decides, and the same elsewhere. |
| Comparator.Check | annotated_Dataset-1/sort.c:2817-2897 | Across buffer boundaries, check accepts exactly the files in which every line is in order with the next (strictly under -u). |
| Comparator.InSequenceIsSorted | annotated_Dataset-1/sort.c:2817-2897 | Adjacent order is pairwise order of all lines, since the comparison is a total preorder. |
| JumpSpec.SizeMeans | Dataset-3/objdump.c:1974-2043 | The size of a jump is the greatest distance between two of its addresses. |
| JumpSpec.IntersectMeans | Dataset-3/objdump.c:2106-2111 | Two jumps intersect exactly if some address lies within both. |
| JumpSpec.MergedPairs | Dataset-3/objdump.c:2116-2154 | Merging keeps the multiset of (start, target) pairs. |
| JumpSpec.MergedDistinct | Dataset-3/objdump.c:2116-2154 | After merging no two jumps have the same target. |
| JumpSpec.MergedStarts | Dataset-3/objdump.c:2116-2154 | Each target has the starts of all jumps to it, in their order. |
| JumpSpec.MergedInOrder | Dataset-3/objdump.c:2116-2154 | Targets come in the order in which they first occur. |
| JumpSpec.SelectionMembers | Dataset-3/objdump.c:2161-2192 | Sorting permutes the jumps. |
| JumpSpec.SelectionOrdered | Dataset-3/objdump.c:2161-2192 | Of two sorted jumps the first is smaller, or they are of one size and it begins no higher. |
| JumpSpec.SelectionStable | Dataset-3/objdump.c:2161-2192 | Jumps alike in size and least address keep their order. |
| JumpSpec.LevelsApart | Dataset-3/objdump.c:2440-2490 | No two jumps of one level intersect. |
| JumpSpec.LevelsTight | Dataset-3/objdump.c:2440-2490 | A jump intersects some jump of every lower level. |
| JumpSpec.LevelsAscending | Dataset-3/objdump.c:2440-2490 | Of jumps that ascend, those of a level ascend, its first one comes before all on higher levels, and each jump of a higher level intersects one on the level that comes before it. |
| JumpSpec.LevelsMembers | Dataset-3/objdump.c:2440-2490 | Levelling permutes the jumps. |
| JumpSpec.LayoutLaws | Dataset-3/objdump.c:2427-2490 | Any list of jumps is laid out so: every pair of a start and a target is kept, each target once; the list is level by level; on a level no jumps intersect, and sizes ascend; each level opens with the smallest jump left; on every lower level a jump intersects one that is smaller, or as large and begins no higher. |
| JumpList.Jumps.Unlink | Dataset-3/objdump.c:2048-2059 | Taking a node out of the doubly linked list removes exactly it from the sequence and keeps all links and the base consistent. |
| JumpList.Jumps.Insert | Dataset-3/objdump.c:2064-2075 | Inserting in front of a node puts it exactly there, base included. |
| JumpList.Jumps.AddFront | Dataset-3/objdump.c:2080-2088 | Adding to the front puts the node first. |
| JumpList.Jumps.MoveLinked | Dataset-3/objdump.c:2093-2101 | Moving a later node in front of an earlier one moves exactly it. |
| JumpLayout.MergeJumps | Dataset-3/objdump.c:2116-2154 | The nested loops over the list, with nodes freed on the way, leave the merged jumps. |
| JumpLayout.SortJumps | Dataset-3/objdump.c:2161-2192 | The selection over the list, moving the best node in place, leaves the sorted jumps. |
| JumpLayout.GroupByLevel | Dataset-3/objdump.c:2433-2490 | The levelling loop rearranges the list level by level and numbers the levels from 0. |
| JumpLayout.LayOut | Dataset-3/objdump.c:2427-2490 | The list ends laid out so, and as the levels of the sorted merged jumps, each with its number. |
| Symbols.Locate | Dataset-3/objdump.c:1150-1178 | The binary search finds the first symbol of the greatest value not above vma, or the very first symbol, and an index behind all symbols of that value. |
| Symbols.SearchOthers | Dataset-3/objdump.c:1211-1247 | The fallback searches find nothing exactly if no symbol is acceptable, and otherwise the first acceptable symbol of the best value. |
| Symbols.FindSymbol | Dataset-3/objdump.c:1117-1251 | Returns nothing exactly when no symbol is acceptable, otherwise one of greatest value not above vma, else of least value; the first acceptable symbol of its value; a symbol of the wanted section at the closest address is preferred. |
| FmtSpec.BaseCost | annotated_Dataset-1/fmt.c:907-934 | The base cost of a line is positive, at least 800; the lemmas of FmtCosts say what it is. |
| FmtCosts.PlainCost | annotated_Dataset-1/fmt.c:907-934 | A line without marks about its start costs 4900. |
| FmtCosts.EndCosts | annotated_Dataset-1/fmt.c:913-922 | What the end of the word before moves the cost by: a sentence end -2500, an inner period 360000, other punctuation -1600, and without any of these what a widow costs. |
| FmtCosts.WidowCosts | annotated_Dataset-1/fmt.c:924-925 | The end of a sentence one word further back adds 40000 divided by the length of the widow and two, unless that word bears a mark. |
| FmtCosts.StartCosts | annotated_Dataset-1/fmt.c:928-931 | An opening parenthesis lowers the cost by 1600; without one the end of a sentence adds 22500 divided by the length of the orphan and two. |
| FmtCosts.CostFrame | annotated_Dataset-1/fmt.c:907-934 | Nothing but these three words matters. |
| FmtCosts.ShapeCosts | annotated_Dataset-1/fmt.c:939-955 | What lengths cost: 100 times the square of the columns that miss the goal, and 50 times that of the difference from the following line, unless it is the last one, and of that from the line printed before the first. |
| FmtCosts.InnerIsLastResort | annotated_Dataset-1/fmt.c:851-934 | A line recorded as ending behind an inner period: reckoned without the charge for that, every other admissible break costs 360000 more at least. |
| FmtCosts.InnerIsAvoided | annotated_Dataset-1/fmt.c:851-934 | No break is made behind an inner period if another, that avoids this, costs less than 327150 more by the shape of the lines. |
| FmtCosts.NamesStayTogether | annotated_Dataset-1/fmt.c:851-934 | "John Mr. Abcd" at width 9 is broken before "Mr.", although "John Mr." has exactly the length aimed for. |
| FmtSpec.ChainIsLayout | annotated_Dataset-1/fmt.c:851-901 | The recorded breaks divide the words, in order, into admissible lines: of two or more words only if shorter than max_width. |
| FmtSpec.CostIsExact | annotated_Dataset-1/fmt.c:851-955 | The cost recorded for a word is the full cost of the layout recorded from there: base costs, shortness, and raggedness of actual adjacent lines. |
| FmtSpec.CostFalls | annotated_Dataset-1/fmt.c:851-955 | The recorded cost falls by at least 800 from line to line. |
| FmtOptimal.NoneIsCheaper | annotated_Dataset-1/fmt.c:846-901 | No layout whatever costs less than the recorded one when its lines are compared with the recorded lines. |
| FmtOptimal.LastLineTaken | annotated_Dataset-1/fmt.c:851-955 | Words that fit on one line are put on one line, the first word included; after a flush, where the first line is also compared with the last one printed, that is certain if the two differ by less than four columns. |
| FmtOptimal.CostOfLayout | annotated_Dataset-1/fmt.c:846-955 | Exact accounting for every layout of any number of lines: its cost is the recorded cost, plus what its first line costs more, plus what every later line loses by not being the recorded one behind the line before it. |
| FmtOptimal.SteadyExactly | annotated_Dataset-1/fmt.c:846-901 | No line loses by being the recorded one, whatever line comes before, if and only if behind every admissible line the recorded layout of the rest is the cheapest. |
| FmtOptimal.SteadyIsBest | annotated_Dataset-1/fmt.c:846-901 | In that case the recorded cost is least among all layouts of any number of lines. |
| FmtOptimal.CheapestExactly | annotated_Dataset-1/fmt.c:846-901 | The recorded layout is the cheapest of all if and only if, for every first line, what it costs more outweighs the least that the lines behind it can lose, a quantity computed over pairs of adjacent lines. |
| FmtOptimal.SettledIsBest | annotated_Dataset-1/fmt.c:846-901 | A condition on words and margins alone: if wherever a later line may start either all words from there on fit on it or not even two, the recorded layout is the cheapest of all. |
| FmtOptimal.RestOnOneLineIsBest | annotated_Dataset-1/fmt.c:846-901 | In particular if all words but the first fit on one line. |
| FmtOptimal.TwoLinesAreBest | annotated_Dataset-1/fmt.c:846-901 | Whatever the paragraph, no layout of at most two lines is cheaper than the recorded one. |
| FmtOptimal.ThreeLinesNeedNotBeBest | annotated_Dataset-1/fmt.c:846-901 | A concrete paragraph of four words for which a layout of three lines is cheaper than the recorded one: a later line loses 300, and the tests above fail. |
| FmtChoice.BreakCostBound | annotated_Dataset-1/fmt.c:64-84 | With bounded indents every cost stays below MAXCOST. |
| FmtChoice.ChooseBreak | annotated_Dataset-1/fmt.c:862-898 | The inner loop records the first of the cheapest breaks, given those recorded behind it, among all admissible ones. |
| FmtChoice.FmtParagraph | annotated_Dataset-1/fmt.c:851-901 | Afterwards every word carries its best choice, and the words are unchanged, the sentinel included. |
| FmtOutput.Output.PutSpace | annotated_Dataset-1/fmt.c:1012-1032 | The blanks and tabs written are exactly these: as many tabs as reach the last tab stop within the gap, then blanks; tabs only if the input had some and the stop is more than one column away. |
| FmtOutput.AdvanceReaches | annotated_Dataset-1/fmt.c:750-765 | Under the input side's tab rule, these advance exactly the requested columns, from any column. |
| FmtOutput.AdvanceTabs | annotated_Dataset-1/fmt.c:1012-1032 | There are tabs among them exactly if the input had some and a tab stop is more than one column on, and then at most seven blanks behind them. |
| FmtOutput.HeadColumn | annotated_Dataset-1/fmt.c:978-981 | Indent and prefix end in the column the program takes them to end in, unless there are tabs in the prefix. |
| FmtOutput.Output.PutLine | annotated_Dataset-1/fmt.c:974-993 | A line shows, behind indent and prefix, exactly the words up to the break, each in its column as the program counts columns, and nothing else but blanks. |
| FmtOutput.ReckonedColumn | annotated_Dataset-1/fmt.c:974-993 | Columns as printed are columns as reckoned by fmt_paragraph. |
| FmtLayout.PrintedLength | annotated_Dataset-1/fmt.c:961-1007 | Where the indent covers the prefix the emitted column is line_length, and below max_width unless the line is a single word; with tabs in the prefix this is the column as the program counts it, without them the real one. |
| FmtLayout.PutParagraph | annotated_Dataset-1/fmt.c:961-968 | Prints one line for each recorded break up to the split point, and sends exactly the words before it. |
| FmtParagraph.ChooseSplit | annotated_Dataset-1/fmt.c:813-825 | The split point is on the chain of recorded breaks, and is the first of those with the least drop in cost, each line later credited with LINE_CREDIT. |
| FmtParagraph.SplitMeans | annotated_Dataset-1/fmt.c:813-825 | Against it, the drop at any break behind it is greater by at least 9 for every line to there, and that at any break before it is less by less than that. |
| FmtBuffer.Paragraph.FlushParagraph | annotated_Dataset-1/fmt.c:787-844 | Words printed followed by words retained are the words before; texts stay contiguous; at least one word slot and one character are freed, or the single word is sent whole. |
| FmtBuffer.Paragraph.GetSpace | annotated_Dataset-1/fmt.c:750-765 | Blanks are read, and columns counted by the tab rule. |
| FmtBuffer.Paragraph.ScanWord | annotated_Dataset-1/fmt.c:680-694 | A word is stored character by character without ever passing the end of the buffer, and nothing is lost in the flushes. |
| FmtBuffer.Paragraph.GetWord | annotated_Dataset-1/fmt.c:678-707 | One word and its space: its text and punctuation marks are recorded as described for sentences, and its space is the number of columns read after it. |
| FmtBuffer.Paragraph.GetLine | annotated_Dataset-1/fmt.c:666-714 | Text sent, text buffered and text still to be read, blanks aside, stay the same; the buffers stay contiguous and within their limits. |
| FmtBuffer.Paragraph.PrintParagraph | annotated_Dataset-1/fmt.c:484-488 | The end of a paragraph sends everything that was kept. |
| FmtBuffer.CheckPunctuation | annotated_Dataset-1/fmt.c:770-781 | The punctuation marks of a word, a period followed by closing brackets and quotes included. |
| FmtBuffer.MarksMean | annotated_Dataset-1/fmt.c:696-707 | What is recorded of a word, character by character: a period is the last character that is no closing bracket or quote; a sentence ends with the text, or behind a period with a line end or two columns of space. |
| HeadBytes.DoubleBuffer | annotated_Dataset-1/head.c:290-347 | For every input, prints the input without its last n_elide bytes and advances desired_pos by what is printed. |
| HeadBytes.ElideBytesPipe | annotated_Dataset-1/head.c:248-449 | The whole function: up to 1024*1024 bytes to be elided every input is handled; beyond that every input but those of Underflows, which are shorter than what is to be elided. |
| HeadBytes.RingBuffer | annotated_Dataset-1/head.c:348-444 | Prints the input without its last n_elide bytes and advances desired_pos accordingly, for every input but those of Underflows; for these and no others the final amount is negative. |
| HeadBytes.TurnOn | annotated_Dataset-1/head.c:365-405 | A whole block turns the ring by one: the buffer written next always holds the oldest block. |
| HeadBytes.PrintRemainder | annotated_Dataset-1/head.c:407-443 | The remainder is taken from the right buffers in all three cases. |
| HeadBytes.UnderflowsWhen | annotated_Dataset-1/head.c:424-443 | An input ends within the same block as the n_elide-th byte, but before it, exactly if the computed amount is negative. |
| HeadBytes.UnderflowsFor | annotated_Dataset-1/head.c:357-361 | There are such inputs if and only if n_elide is no whole number of blocks. |
| HeadBytes.ShortInputUnderflows | annotated_Dataset-1/head.c:424-443 | Concrete inputs: 1048578 bytes to be elided in blocks of 8192, and 1048576 or 1048577 bytes of input. |
| HeadLines.AllButLinesMeans | annotated_Dataset-1/head.c:635-647 | What is to be printed and what is left make up the input, what is left has N lines (or all), and the cut is behind a line end. |
| HeadSeek.ElideLinesSeekable | annotated_Dataset-1/head.c:647-746 | The backward block scan prints all but the last N lines, an unterminated last line counted; it leaves the file positioned behind what it printed, or, if that is nothing, behind the first block. |
| HeadSeek.ScanBlock | annotated_Dataset-1/head.c:679-728 | Scanning a block backwards finds the line end with exactly the wanted number of line ends behind it, or counts them all. |
| HeadPipe.ElideLinesPipe | annotated_Dataset-1/head.c:498-633 | Whatever the chunks in which the input arrives, prints all but the last N lines and advances desired_pos accordingly. |
| HeadPipe.Append | annotated_Dataset-1/head.c:552-560 | Appending to the last buffer keeps the list and adds the chunk to its text. |
| HeadPipe.Round | annotated_Dataset-1/head.c:523-580 | One round of reading keeps the list, and prints the oldest buffer only if more than N lines remain behind it. |
| HeadPipe.EndOfLines | annotated_Dataset-1/head.c:606-621 | The loop over memchr finds the end of the first n lines. |
| HeadPipe.PrintRest | annotated_Dataset-1/head.c:591-622 | At the end of the input exactly what is still missing is printed. |
| Du.AddClips | annotated_Dataset-1/du.c:110-118 | Adding stored values is storing the sum: sizes stick at UINTMAX_MAX, inode counts wrap around. |
| Du.AddSticks | annotated_Dataset-1/du.c:110-118 | A sum of sizes that does not fit is UINTMAX_MAX, a sum of inode counts starts over. |
| Du.AccumulatorsCount | annotated_Dataset-1/du.c:589-656 | Without -S, ent and subdir together count the whole hierarchy. |
| Du.SeparateCount | annotated_Dataset-1/du.c:589-656 | With -S, ent counts the entries that are no directories. |
| Du.Totals.ProcessFile | annotated_Dataset-1/du.c:597-668 | Whatever the level of the previous entry, accumulators, total and line printed are those of the entry; the level assertion holds, and array growth loses nothing. |
| Du.Totals.Walk | annotated_Dataset-1/du.c:484-671 | For every hierarchy, skipped parts included, what is printed for each entry is what is due: its subtree's sum, or with -S itself and its non-directory entries, at most UINTMAX_MAX. |
| Du.Totals.DuFiles | annotated_Dataset-1/du.c:679-720 | The same for all arguments in turn, and the grand total is the sum of everything counted. |
| DuReport.ReportMeans | annotated_Dataset-1/du.c:658-668 | For which entries there are lines, and no others: directories down to max_depth, other entries down to there with -a, arguments always, nothing skipped; a positive threshold keeps values not below it, a negative one those not above its absolute value. Each has one line, behind those of what is in it, with the numbers due to it. |
| DuReport.DueMeans | annotated_Dataset-1/du.c:589-656 | What is due to a directory, entry by entry: without -S an entry adds all that is due to itself, with -S its own size unless it is a directory. |
| DuReport.DueAlone | annotated_Dataset-1/du.c:589-656 | A file, and a directory with nothing in it, are due their own size and one inode. |
| BaseCodec.FeedConcat | annotated_Dataset-1/basenc.c:1016-1084 | How a text is cut into chunks makes no difference to decoding. |
| BaseCodec.RoundTrip | annotated_Dataset-1/basenc.c:971-1084 | A text that is the encoding with newlines anywhere is accepted and decodes to the input. |
| BaseEncode.WrapWrite | annotated_Dataset-1/basenc.c:936-968 | Piece by piece, the output is the text in lines of the given width. |
| BaseEncode.StripWrap | annotated_Dataset-1/basenc.c:936-968 | Without its newlines the wrapped text is the text. |
| BaseEncode.WrapAt | annotated_Dataset-1/basenc.c:936-968 | Character c of line k stands in column c of that line, and a newline behind every width characters and behind the last one. |
| BaseEncode.WrapSize | annotated_Dataset-1/basenc.c:936-968 | There are as many newlines as lines. |
| Z85.LettersAre | annotated_Dataset-1/basenc.c:594-599 | The letters, as a string in the order of their digits. |
| Z85.SpellMeans | annotated_Dataset-1/basenc.c:601-652 | Four bytes are spelled with the base-85 digits, highest first, of the number that they are to base 256. |
| Z85.LetterDigit | annotated_Dataset-1/basenc.c:594-599 | Every digit is read back from its letter. |
| Z85.DigitLetter | annotated_Dataset-1/basenc.c:684-698 | Every letter of the alphabet is the letter of its digit. |
| Z85.GroupAccepted | annotated_Dataset-1/basenc.c:744-777 | Five letters are accepted exactly if their base-85 value is below 2^32, and then they are the spelling of what they decode to. |
| Z85.IsLawful | annotated_Dataset-1/basenc.c:601-781 | Every group of four bytes is read back from its five letters. |
| Z85.OverflowTest | annotated_Dataset-1/basenc.c:756-763 | The tests on the first octet and the 32-bit remainder hold exactly if the value is 2^32 or more. |
| Z85.EncodeGroups | annotated_Dataset-1/basenc.c:601-652 | Encodes whole groups of four, and fails exactly if bytes are left over. |
| Base16.SpellMeans | annotated_Dataset-1/basenc.c:503-516 | A byte is spelled with its upper four bits first, in digits and upper-case letters. |
| Base16.IsLawful | annotated_Dataset-1/basenc.c:506-575 | Every byte is read back from its two digits. |
| Base16.EncodeBytes | annotated_Dataset-1/basenc.c:506-516 | Encodes every byte with its two digits. |
| Base2.SpellMeans | annotated_Dataset-1/basenc.c:798-829 | The first letter stands for 128 and the last for 1, or the other way round. |
| Base2.AreLawful | annotated_Dataset-1/basenc.c:798-929 | Every byte is read back from its eight bits, in either order. |
| Base2.EncodeHigh | annotated_Dataset-1/basenc.c:798-812 | The shifting encoder spells every byte from its highest bit. |
| Base2.EncodeLow | annotated_Dataset-1/basenc.c:815-829 | The shifting encoder spells every byte from its lowest bit. |
| Basenc.Samples | annotated_Dataset-1/basenc.c:971-1013 | Which code is which: 1 is 00000001 or 10000000, 4E is spelled so, and 864FD26F is Hello in Z85. |
| Basenc.DoEncode | annotated_Dataset-1/basenc.c:971-1013 | Encoding block by block with wrapping is wrapping the encoding of the whole input; it fails exactly if a group is incomplete. |
| Basenc.Context.Decode | annotated_Dataset-1/basenc.c:700-781 | A chunk is decoded as the part of the stream it is, whatever digits were pending, in all four codes; an empty chunk reports whether digits are missing. |
| Basenc.DoDecode | annotated_Dataset-1/basenc.c:1016-1084 | Decoding in blocks accepts exactly the texts that are accepted as a whole, with the same output. |
| Basenc.DecodesWhatWasEncoded | annotated_Dataset-1/basenc.c:971-1084 | For every code, input and width, the wrapped encoding is accepted and decodes to the input. |
| Fold.AdjustMeans | annotated_Dataset-1/fold.c:94-113 | A tab leads to the next multiple of eight, a backspace one column back but not beyond the margin, a carriage return to the margin, anything else one column on; with -b every byte counts for one. |
| Fold.AdjustMonotone | annotated_Dataset-1/fold.c:94-113 | A character moves a smaller column to no larger one. |
| Fold.BreakMeans | annotated_Dataset-1/fold.c:164-219 | Why a newline was inserted: the next character would have led beyond the width, none before it does, and with -s the line ends behind the last space or tab before it, if there is one. |
| Fold.PutChar | annotated_Dataset-1/fold.c:164-219 | The rescan loop ends, and a character is added to a line that stays within the width unless it stands alone. |
| Fold.FoldFile | annotated_Dataset-1/fold.c:120-237 | Every line is broken exactly where its next character would exceed the width, with -s behind its last blank unless it has none; without the inserted newlines the output is the input. |
| Fold.ErasedIsInput | annotated_Dataset-1/fold.c:120-237 | Deleting the inserted newlines restores the input. |
| Fold.OneWayToFold | annotated_Dataset-1/fold.c:120-237 | These conditions determine the output: there is but one way to fold an input. |

## Left out

- sort: reading and splitting of lines, field selection (`begfield`, `limfield` are any functions of a line), locale collation, numeric, month, version and random keys (any total preorder stands for them), memory sizing, the contents of temporary files, compression, signals, `--debug`.
- sort's merge tree: mutexes, the condition variable and the heap are atomic steps, and a pop takes any queued node; the sorting of a leaf is one step that hands over two sorted halves, which is what the model of the sequential sort delivers (by `MergeTreeArray.EveryWriteIsFree` nobody else stores into the cells it uses meanwhile); trees in which a leaf has no lines are excluded, since `sortlines` splits only above a minimum of lines; nodes that `init_node` lays out below a leaf are not used by the program and not part of the model.
- sort's merge: `avoid_trashing_input`, which only replaces an input by a copy of itself.
- SequentialSort.SequentialSort: for at least two lines, as its callers guarantee.
- objdump: relocation tables (the refinement of a found symbol by dynamic relocations), the collection and printing of jumps, everything that needs BFD.
- FmtChoice.ChooseBreak: assumes indents, and the last line flushed, below fixed bounds, about the largest under which no cost of 1000 lines reaches `MAXCOST`; the program's own comment says that it misbehaves beyond such bounds.
- FmtChoice.FmtParagraph: the same bounds.
- FmtLayout.PutParagraph: the same bounds.
- FmtBuffer.Paragraph.FlushParagraph: the same bounds.
- FmtBuffer.Paragraph.PrintParagraph: the same bounds.
- FmtBuffer.Paragraph.ScanWord: assumes that the line being read ends within the widest column, since its columns become indents.
- FmtBuffer.Paragraph.GetWord: the same assumption.
- FmtBuffer.Paragraph.GetLine: the same assumption; reading the prefix of the next line, and the decision which lines belong to a paragraph, are not modelled.
- head: positioning, read errors and the copying of a known number of bytes; `full_read` returns a full block or what is left, `safe_read` any non-empty chunk.
- HeadBytes.RingBuffer: what is written when the amount is negative is not modelled, only that this happens, and exactly when.
- du: times, mount tables, exclusion patterns and hard-link tables; whatever they skip is a skipped entry. The traversal in postorder is taken from `fts`.
- basenc: base64 and base32, whose codes are library functions, and `--ignore-garbage`.
- fold: reading errors and the growth policy of the line buffer.
- comm: the two-way comparison; its merge is simpler than those of sort.
- The programs `tcpdump`, `date`, `id`, `kill`, `basename`, `realpath`, `echo`, `wc`, `uniq`, and all option parsing, usage texts and scripts.
