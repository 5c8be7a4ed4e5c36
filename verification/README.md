# Verified models of six components

This project models six self-contained pieces of the runtime and of the libraries it carries, and
proves what they promise. `dafny verify dfyconfig.toml` checks all of it.

**Assignment solver** (`src/external/hungarian/Hungarian.hpp`). The flat column-major arrays, the
preliminary steps and the mutually recursive steps 2a, 2b, 3, 4 and 5 are methods of a class that
change those arrays in place. A ghost state gives the arrays their meaning: dual potentials, stars,
primes, and covers with the order in which rows were covered. The lemmas of `MunkresState` say what
every step keeps; `AssignmentTheory` proves, independently of the algorithm, when such a state
certifies an optimal assignment of a rectangular matrix. Files: `assignment_theory`, `column_major`,
`munkres_state`, `munkres`, `hungarian`.

**Section tracker and run loop** (`src/external/Catch2/catch_amalgamated.cpp`). The tracker tree is a
map from paths of names to run states, kept by the classes `TrackerContext` and `RunContext`. A test
case is a tree of sections, each of which may throw after any of its children; running it drives the
trackers cycle after cycle. `LeafCoverage` and `RunCounts` say from the program alone which leaf bodies run, and in how many runs. Files:
`tracker_states`, `run_counts`, `leaf_coverage`, `tracker_context`, `run_context`.

**Line wrapper** (TextFlow, same source file). The iterator over the lines of a column is a class;
its methods are tied to functions on positions in the text. File: `text_flow`.

**BC6H and BC7 decoders** (`src/external/bcdec/bcdec.h`). The destructive 128-bit reader is a class
proved to deliver consecutive slices of the block. The decoders read front to back and are proved
against definitions that read each part of a block from where it lies. For BC6H a packer written
from the same layouts is the inverse of the header reader. What every half and every byte is, is then
stated without the decoders' tables and arithmetic. Files: `bits`, `bit_stream`, `bptc_tables`,
`bptc_texels`, `bc6h_layouts`, `bc6h_comments`, `bc6h_header`, `bc6h_reader`, `bc6h_arithmetic`,
`bc6h_endpoints`, `bc6h_decoder`, `bc7_layout`, `bc7_texels`, `bc7_decoder`.

**nanopb field iterator and UTF-8 validator** (`src/external/nanopb/pb_common.c`). The iterator is a
class over a table of packed words; the validator is proved equivalent to the encoding of section 3
of RFC 3629. Files: `field_iterator`, `utf8`.

**ARCore head-pose module** (`samples/augins-arcore-headpose/arcore_module.cpp`). A transition
system with one step per store and load of a pose field, for the worker, any number of dispatching
threads, and load and unload. File: `arcore_module`.

## Where the code differs from what is said about it

- The solver warns that matrix elements have to be non-negative (Hungarian.hpp:117-118). Nothing
  depends on it: `Solve` is proved for costs of either sign.
- The wrapper asserts width > indent (catch_amalgamated.cpp:7412-7414). That is not enough for it to
  end: `EndsExactly` says for every text and column when it does, `StuckExample` is a text on which it
  never moves on, `OnePlaceExample` one that a single place of room is enough for. Nor is it enough to
  keep the text: `LostExactly` says when the constructor (7416-7418) drops all of it, `LostExample`
  shows it. indent + 2 ≤ width is enough for both (`TwoPlacesEnough`).
- `pb_field_iter_find` skips extension range fields, but not if the iterator already stands on one
  with that tag (pb_common.c:197-200); `Find` states both cases.
- BC6H values are always finite halves but for signed 16-bit endpoints: `DecodedFiniteExactly`
  gives the condition for every block, `SomeInfiniteBlock` a block that meets it.
- Six comments beside the reads of BC6H headers name another field than the code reads (bcdec.h:780,
  838, 864, 952, 954 and 956): `ReadAsCommented` proves that all others agree.
- Not every program has all its leaves run. A section that throws throws on each visit, and is marked
  failed on the first visit that no subsection threw out of; it is not entered again, so leaves below
  it that have not run by then never do. `TwoChildrenLoseOne` is such a program: two subsections, both
  met on the only visit, and the second never runs. A test case that throws is closed, not failed
  (catch_amalgamated.cpp:5946), and only loses the subsections after its throw. `Run` executes exactly
  `RanLeaves`, for every program, and that is all leaves exactly if `NoLeafLost`. Nor is there one run
  for each leaf when something throws: `Runs` is the number, `ThrowAddsRun` an example.

## Model

| member | source | states |
|---|---|---|
| `Hungarian.HungarianAlgorithm.Solve` | src/external/hungarian/Hungarian.hpp:64-91 | the result pairs min(rows, cols) rows with different columns, the cost returned is the sum over the input matrix, no other full assignment undercuts it by more than min(rows, cols)/2^52, and none at all if all costs are multiples of one step of at least 1/2^52, whole costs for instance; a greedy assignment that goes through is the result; the recursion of the steps ends for every matrix |
| `Hungarian.HungarianAlgorithm.AssignmentOptimal` | src/external/hungarian/Hungarian.hpp:97-224 | the returned vector is the star set of a final state whose potentials are feasible and whose unstarred lines are all of maximal potential; the cost is the sum over the unreduced matrix |
| `Hungarian.HungarianAlgorithm.ComputeAssignmentCost` | src/external/hungarian/Hungarian.hpp:245-255 | the cost of a partial assignment over the original matrix; rows without a column count nothing |
| `MunkresSteps.Munkres.constructor` | src/external/hungarian/Hungarian.hpp:103-128 | after the allocations all arrays hold an untouched state around a copy of the distances |
| `MunkresSteps.Munkres.StartFromRows` | src/external/hungarian/Hungarian.hpp:131-168 | for rows ≤ cols: row minima become feasible potentials, stars lie on zeros, one per line, and exactly the starred columns are covered; if every row can have the first column within 2^-52 of its minimum that no row before it has, those are the stars |
| `MunkresSteps.Munkres.StartFromColumns` | src/external/hungarian/Hungarian.hpp:169-207 | the same for rows > cols by columns, with all rows uncovered again |
| `MunkresSteps.Munkres.Step2a` | src/external/hungarian/Hungarian.hpp:258-279 | from a state without primes and covered rows the algorithm ends finished, with the stars as the assignment |
| `MunkresSteps.Munkres.Step2b` | src/external/hungarian/Hungarian.hpp:282-303 | covered columns equal stars, so the count decides between the end and a search; it ends finished, and with the same stars if none was missing |
| `MunkresSteps.Munkres.BuildAssignmentVector` | src/external/hungarian/Hungarian.hpp:227-242 | every row gets the column of its only star, a row without one keeps -1 |
| `MunkresSteps.Munkres.ScanColumn` | src/external/hungarian/Hungarian.hpp:317-341 | the first uncovered zero of a column is primed; its row is then covered for its star's column, or it is reported for step 4 |
| `MunkresSteps.Munkres.ScanColumns` | src/external/hungarian/Hungarian.hpp:314-341 | one pass ends with a zero in a row without star, or with fewer uncovered rows, or with no uncovered zero anywhere |
| `MunkresSteps.Munkres.Step3` | src/external/hungarian/Hungarian.hpp:306-346 | the search ends, by the lexicographic measure of missing stars, uncovered rows and whether an uncovered zero exists |
| `MunkresSteps.Munkres.Step4` | src/external/hungarian/Hungarian.hpp:349-400 | from an uncovered zero in a row without star the algorithm goes on to a finished end; the path gains a star, as PathEnds states |
| `MunkresSteps.Munkres.BuildNewStars` | src/external/hungarian/Hungarian.hpp:354-386 | the alternating path always finds the prime it looks for, never returns to a row, ends, and leaves a star set with one star per line |
| `MunkresSteps.Munkres.AdoptNewStars` | src/external/hungarian/Hungarian.hpp:388-396 | the new stars replace the old, all primes and row covers are gone |
| `MunkresSteps.Munkres.SmallestUncoveredEntry` | src/external/hungarian/Hungarian.hpp:408-418 | some cell is uncovered, so h is a real entry of the matrix, the smallest uncovered one, and at least ε |
| `MunkresSteps.Munkres.AddAndSubtract` | src/external/hungarian/Hungarian.hpp:420-430 | the two loops lower the potential of each covered row and raise that of each uncovered column by h, and nothing else |
| `MunkresSteps.Munkres.Step5` | src/external/hungarian/Hungarian.hpp:403-434 | from a search without uncovered zero the algorithm goes on to a finished end; the shift makes a zero, as ShiftKeeps states |
| `MunkresState.CoverRowKeeps` | src/external/hungarian/Hungarian.hpp:320-340 | covering the row of a primed zero and uncovering the column of its star keeps every invariant of the search and leaves one uncovered row less |
| `MunkresState.PrimeKeeps` | src/external/hungarian/Hungarian.hpp:320-332 | priming a zero in a row without star keeps the invariants of the search |
| `MunkresState.CoveredLinesAreStars` | src/external/hungarian/Hungarian.hpp:306-342 | in every reachable search state there are exactly as many covered lines as stars |
| `MunkresState.SomeCellUncovered` | src/external/hungarian/Hungarian.hpp:408-418 | while a star is missing some cell is covered by no line |
| `MunkresState.ShiftKeepsMarkedEntries` | src/external/hungarian/Hungarian.hpp:420-430 | every starred and every primed entry has the same value before and after |
| `MunkresState.ShiftKeepsDuals` | src/external/hungarian/Hungarian.hpp:420-430 | no entry becomes negative, and the potentials keep to every step that all costs keep to |
| `MunkresState.ShiftKeepsTops` | src/external/hungarian/Hungarian.hpp:420-430 | columns (rows, if there are more of them) that never had a star keep the maximal potential |
| `MunkresState.ShiftKeeps` | src/external/hungarian/Hungarian.hpp:408-430 | every search invariant survives and the smallest uncovered entry becomes an exact zero |
| `MunkresState.PathStarts` | src/external/hungarian/Hungarian.hpp:354-365 | the path invariant holds once the uncovered zero is starred |
| `MunkresState.PathSteps` | src/external/hungarian/Hungarian.hpp:367-386 | each star-prime step of the path goes to a row that was covered strictly earlier |
| `MunkresState.PathEnds` | src/external/hungarian/Hungarian.hpp:388-396 | a finished path gives one more star and keeps every starred row and column starred |
| `MunkresState.RowMinimaAreGoodDuals` | src/external/hungarian/Hungarian.hpp:135-156 | subtracting all row minima leaves a matrix without negative entries |
| `MunkresState.ColumnMinimaAreGoodDuals` | src/external/hungarian/Hungarian.hpp:173-191 | subtracting all column minima leaves a matrix without negative entries |
| `MunkresState.RowZeroIsNear` | src/external/hungarian/Hungarian.hpp:161-161 | in a reduced row exactly the costs less than 2^-52 above the smallest pass the zero test |
| `MunkresState.RowDone` | src/external/hungarian/Hungarian.hpp:158-167 | starring the first free zero of a row gives it what any greedy assignment gives it |
| `MunkresState.ColumnDone` | src/external/hungarian/Hungarian.hpp:193-203 | the same for columns |
| `MunkresState.StarsWithinSlack` | src/external/hungarian/Hungarian.hpp:318-318 | an entry that passes the zero test is below ε, and is exactly zero when the costs keep to steps of at least ε |
| `MunkresState.FinishedTops` | src/external/hungarian/Hungarian.hpp:292-296 | in a finished state the lines without a star are those of maximal potential |
| `MunkresState.FinishedIsOptimal` | src/external/hungarian/Hungarian.hpp:292-296 | a finished state proves that no full assignment is cheaper by more than the slack per pair |
| `AssignmentTheory.DualCertificate` | src/external/hungarian/Hungarian.hpp:94-224 | rectangular complementary slackness: feasible potentials, near-zero reduced costs and maximal potentials outside the assignment make it optimal up to the slack |
| `AssignmentTheory.Exchange` | src/external/hungarian/Hungarian.hpp:131-207 | leaving out only lines of maximal potential never sums to more than another choice of as many |
| `ColumnMajor.At` | src/external/hungarian/Hungarian.hpp:77-78 | different cells have different indices: row and column are recovered from the index |
| `ColumnMajor.AtIsSourceIndex` | src/external/hungarian/Hungarian.hpp:77-78 | the index is row + rows·column |
| `RunContexts.Run` | src/external/Catch2/catch_amalgamated.cpp:5586-5651 | for every program with distinct siblings the test case runs exactly Runs times, a number of the program alone, and as often as leaf bodies run if nothing throws; no leaf body runs twice, the bodies that run are exactly RanLeaves, in that order, and they are all leaves exactly if the program loses none |
| `LeafCoverage.AllRunExactly` | src/external/Catch2/catch_amalgamated.cpp:5634-5651 | what runs is all leaf bodies in program order exactly if NoLeafLost, a test of the program alone |
| `LeafCoverage.KeepsExactly` | src/external/Catch2/catch_amalgamated.cpp:5793-5802 | of each section either all leaves run, in program order, or fewer |
| `LeafCoverage.LeafThrowsLoseNothing` | src/external/Catch2/catch_amalgamated.cpp:5793-5802 | throws of leaf bodies lose no leaf |
| `LeafCoverage.TwoChildrenLoseOne` | src/external/Catch2/catch_amalgamated.cpp:5793-5802 | a section that throws after two subsections loses the leaf of the second, although it has met it |
| `LeafCoverage.CompleteDone` | src/external/Catch2/catch_amalgamated.cpp:6750-6779 | siblings of which the first ones are complete have run exactly the leaves that the program says |
| `RunCounts.OneRunPerLeaf` | src/external/Catch2/catch_amalgamated.cpp:5634-5651 | a program that throws nothing runs once for each leaf |
| `RunCounts.ThrowAddsRun` | src/external/Catch2/catch_amalgamated.cpp:5634-5651 | after its only leaf has thrown a test case runs once more |
| `RunCounts.FirstCounted` | src/external/Catch2/catch_amalgamated.cpp:6745-6779 | a visit to the first incomplete sibling leaves one visit less to come |
| `RunCounts.AllKnown` | src/external/Catch2/catch_amalgamated.cpp:6757-6760 | a tracker whose met subsections are complete has no other children that are not |
| `RunContexts.BodyCounted` | src/external/Catch2/catch_amalgamated.cpp:6745-6772 | closing a section after its body leaves one visit less to come, and completes it exactly when the subsections it meets are complete |
| `RunContexts.VisitCounted` | src/external/Catch2/catch_amalgamated.cpp:6745-6779 | so does every visit, closed or failed |
| `RunContexts.RunContext.RunTest` | src/external/Catch2/catch_amalgamated.cpp:5634-5651 | the loop ends with the test case complete, after exactly Runs cycles, and the log equal to RanLeaves; in every cycle at least one more tracker completes and every complete one stays complete |
| `RunContexts.RunContext.RunOnce` | src/external/Catch2/catch_amalgamated.cpp:5634-5651 | one cycle runs at most one leaf body, makes progress on the trackers, and leaves one run less to come |
| `RunContexts.RunContext.StartCycle` | src/external/Catch2/catch_amalgamated.cpp:5635-5636 | the test case's tracker opens at the start of each cycle |
| `RunContexts.RunContext.RunCurrentTest` | src/external/Catch2/catch_amalgamated.cpp:5903-5952 | one run of the test case adds the leaf it ran and makes progress, keeps every complete tracker complete, and leaves no section open; the test case is closed, not failed |
| `RunContexts.RunContext.HandleUnfinishedSections` | src/external/Catch2/catch_amalgamated.cpp:5967-5976 | ending the sections that a throw left unfinished touches no tracker |
| `RunContexts.RunContext.SectionStarted` | src/external/Catch2/catch_amalgamated.cpp:5713-5733 | a section is entered exactly if the cycle lasts and its tracker is not complete; then it is the current tracker and the innermost active section |
| `RunContexts.RunContext.SectionEnded` | src/external/Catch2/catch_amalgamated.cpp:5779-5791 | closes the innermost active section, or does nothing when none is |
| `RunContexts.RunContext.SectionEndedEarly` | src/external/Catch2/catch_amalgamated.cpp:5793-5802 | fails the first section that a throw leaves and closes the others |
| `RunContexts.RunContext.RunSection` | src/external/Catch2/catch_amalgamated.cpp:5713-5802 | entering a section, running its body and ending it changes only that section's trackers and its parent |
| `RunContexts.RunContext.EndSection` | src/external/Catch2/catch_amalgamated.cpp:5779-5802 | the current tracker is always the innermost open section, and ending it makes its parent current |
| `RunContexts.RunContext.InvokeBody` | src/external/Catch2/catch_amalgamated.cpp:5954-5965 | a body runs with its section as current tracker and hands it back as current |
| `RunContexts.RunContext.RunFrom` | src/external/Catch2/catch_amalgamated.cpp:5713-5802 | in the statements of a body at most one incomplete child is entered per cycle, later ones only become known |
| `RunContexts.VisitEnds` | src/external/Catch2/catch_amalgamated.cpp:6745-6779 | a visit to a section, closed or failed at its end, leaves fewer sections pending and adds exactly the leaf that ran, if any |
| `RunContexts.CompletedBody` | src/external/Catch2/catch_amalgamated.cpp:6750-6769 | a section that is complete once it is closed was left by no throw of a subsection, and has run exactly the leaves of the subsections it ever meets |
| `RunContexts.VisitEndsExactly` | src/external/Catch2/catch_amalgamated.cpp:6745-6779 | after a visit, closed or failed, every complete section has run exactly the leaves that the program says, and an incomplete one that throws has thrown on each visit |
| `RunContexts.VisitComposed` | src/external/Catch2/catch_amalgamated.cpp:5713-5802 | opening a section, its body and its end together make one visit, with all that is said of visits |
| `RunContexts.RootVisited` | src/external/Catch2/catch_amalgamated.cpp:5934-5952 | the same for the test case, whose throw is caught and which is closed |
| `RunContexts.RestComposed` | src/external/Catch2/catch_amalgamated.cpp:5713-5802 | the visits to the subsections of a body compose: what the first ones and the later ones did is what the rest of the body did |
| `TrackerStates.DoneLeavesDistinct` | src/external/Catch2/catch_amalgamated.cpp:6816-6845 | a finished leaf is one of the program's and is finished once |
| `TrackerStates.FreshPendingIsSize` | src/external/Catch2/catch_amalgamated.cpp:5594-5596 | before the first cycle every section of the program is pending |
| `Trackers.TrackerContext.Acquire` | src/external/Catch2/catch_amalgamated.cpp:6816-6840 | finds or adds the child and opens it only while the cycle lasts |
| `Trackers.TrackerContext.TryOpen` | src/external/Catch2/catch_amalgamated.cpp:6842-6845 | opens a tracker exactly if it is not complete, and marks all ancestors as executing a child |
| `Trackers.TrackerContext.OpenChild` | src/external/Catch2/catch_amalgamated.cpp:6696-6703 | marks ancestors until one already executes a child |
| `Trackers.OpenedAncestors` | src/external/Catch2/catch_amalgamated.cpp:6696-6703 | exactly the tracker and its ancestors below the last one that executes a child already are marked |
| `Trackers.TrackerContext.Close` | src/external/Catch2/catch_amalgamated.cpp:6745-6772 | closes the trackers from the current one up to the given one, each by its own state, and meets no illogical state; the cycle is completed and the parent current |
| `Trackers.TrackerContext.Fail` | src/external/Catch2/catch_amalgamated.cpp:6773-6779 | the tracker has failed, its parent needs another run and is current |
| `TextFlow.Wrap` | src/external/Catch2/catch_amalgamated.cpp:7335-7440 | on every column on which the source ends, wrapping ends; each line is the only one that IsLine admits from where it starts, indented, and fits the width (a leading newline aside); the next starts past the newline or at the next visible character; the visible characters are those of the text, or none if all is lost |
| `TextFlow.BoundaryExactly` | src/external/Catch2/catch_amalgamated.cpp:7203-7215 | the characters before which, after which and between which a line may end |
| `TextFlow.LineFits` | src/external/Catch2/catch_amalgamated.cpp:7348-7382 | content and hyphen of a line never exceed the room |
| `TextFlow.HyphenExactly` | src/external/Catch2/catch_amalgamated.cpp:7362-7382 | a word is cut exactly if the room is full and every boundary in it has only whitespace before it |
| `TextFlow.NaturalEnd` | src/external/Catch2/catch_amalgamated.cpp:7356-7375 | a line without hyphen ends at the end of the text, at a newline, or after a visible character with only whitespace up to a boundary |
| `TextFlow.LineAtIs` | src/external/Catch2/catch_amalgamated.cpp:7335-7384 | a line ends with the text or at a newline if that comes within the room; else after a visible character before a boundary such that nothing more up to a boundary would fit, or, if no such place exists, with a hyphen in the last place |
| `TextFlow.OneLine` | src/external/Catch2/catch_amalgamated.cpp:7335-7384 | only one line from a given start is like that |
| `TextFlow.NextStartIs` | src/external/Catch2/catch_amalgamated.cpp:7426-7436 | the next line starts past the newline that ended this one, or else at the next visible character |
| `TextFlow.ProgressExactly` | src/external/Catch2/catch_amalgamated.cpp:7335-7384 | a line moves on exactly if it is not stuck: one place of room before a character that needs a hyphen after it |
| `TextFlow.EndsExactly` | src/external/Catch2/catch_amalgamated.cpp:7407-7440 | the iteration reaches the end exactly if there are two places of room, the text is empty or lost, or every visible character from the second line on may end a line |
| `TextFlow.EndsUnlessStuck` | src/external/Catch2/catch_amalgamated.cpp:7426-7440 | the iteration reaches the end exactly if no line start it reaches after the first is stuck and visible |
| `TextFlow.LostExactly` | src/external/Catch2/catch_amalgamated.cpp:7416-7418 | the constructor drops the whole text exactly if its first character is stuck in the room of the first line |
| `TextFlow.SelfFollowing` | src/external/Catch2/catch_amalgamated.cpp:7426-7440 | a line is followed by itself exactly if it is stuck and starts visibly |
| `TextFlow.StuckForever` | src/external/Catch2/catch_amalgamated.cpp:7426-7440 | once the iteration reaches such a line after the first it never leaves it |
| `TextFlow.StuckExample` | src/external/Catch2/catch_amalgamated.cpp:7407-7419 | on the text "-ab" in one place of room the second line comes again and again, although the constructor's assertion admits it |
| `TextFlow.LostExample` | src/external/Catch2/catch_amalgamated.cpp:7416-7418 | the text "ab" in one place of room is dropped whole |
| `TextFlow.OnePlaceExample` | src/external/Catch2/catch_amalgamated.cpp:7407-7440 | on the text "a b" one place of room is enough |
| `TextFlow.TwoPlacesEnough` | src/external/Catch2/catch_amalgamated.cpp:7412-7414 | with indent + 2 ≤ width every text is wrapped to its end, each line moves on, and nothing is lost |
| `TextFlow.NothingVisibleLost` | src/external/Catch2/catch_amalgamated.cpp:7426-7440 | lines that follow each other contain all visible characters in order |
| `TextFlow.LineIterator.CalcLength` | src/external/Catch2/catch_amalgamated.cpp:7335-7384 | measures the line that starts at the current position |
| `TextFlow.LineIterator.BreakLine` | src/external/Catch2/catch_amalgamated.cpp:7362-7382 | the last boundary that leaves something on the line, or a hyphen one character early |
| `TextFlow.LineIterator.Next` | src/external/Catch2/catch_amalgamated.cpp:7426-7440 | the next line starts past one newline, or past all whitespace |
| `TextFlow.LineIterator.Current` | src/external/Catch2/catch_amalgamated.cpp:7393-7405 | indent, text and hyphen of the measured line |
| `BitStreams.BitStream.ReadBits` | src/external/bcdec/bcdec.h:366-377 | returns the next bits of the 128-bit block, whatever was read before, and shifts both words on |
| `BitStreams.BitStream.ReadBitsReversed` | src/external/bcdec/bcdec.h:385-395 | returns the next bits with the first one highest |
| `BitStreams.ShiftedWords` | src/external/bcdec/bcdec.h:366-377 | the two words always hold exactly what is left of the block |
| `BptcTables.TwoSubsetsGood` | src/external/bcdec/bcdec.h:1088-1155 | each of the 64 partitions into two subsets has one fix-up texel in each subset |
| `BptcTables.ThreeSubsetsGood` | src/external/bcdec/bcdec.h:1156-1221 | each of the 64 partitions into three subsets has one fix-up texel in each subset |
| `BptcTexels.ReadIndex` | src/external/bcdec/bcdec.h:1033-1041 | reading texel by texel, each index lies where texel number, index width and fix-ups before it say |
| `BptcTexels.WeightNearest` | src/external/bcdec/bcdec.h:1223-1225 | each weight is the whole number nearest to 64 times the index over the last index |
| `BptcTexels.WeightsIncrease` | src/external/bcdec/bcdec.h:1223-1225 | the weights go from 0 to 64 and increase with the index |
| `BptcTexels.InterpolateIs` | src/external/bcdec/bcdec.h:498-500 | the interpolated value is the weighted mean to the nearest whole number |
| `BptcTexels.MixedEnds` | src/external/bcdec/bcdec.h:498-500 | the first index gives the first endpoint, the last one the second |
| `BptcTexels.MixedAway` | src/external/bcdec/bcdec.h:498-500 | a larger index is never nearer to the first endpoint |
| `BptcTexels.InterpolateBetween` | src/external/bcdec/bcdec.h:498-500 | the interpolated value lies between the endpoints |
| `Bc6hLayouts.LayoutGood` | src/external/bcdec/bcdec.h:618-976 | in each of the fourteen modes every bit of every field is read exactly once, and no read leaves its field |
| `Bc6hLayouts.HeaderSize` | src/external/bcdec/bcdec.h:618-976 | mode field and header together take 82 bits, or 65 in the modes with one subset |
| `Bc6hComments.ReadAsCommented` | src/external/bcdec/bcdec.h:618-976 | every read fills the bits that the comment beside it says, and all but six the field that it says |
| `Bc6hHeader.UnpackPacked` | src/external/bcdec/bcdec.h:618-976 | fields packed by the layout are read back |
| `Bc6hHeader.PackUnpacked` | src/external/bcdec/bcdec.h:618-976 | fields read from a header pack to that header: every header bit has a field bit of its own |
| `Bc6hReader.ReadMode` | src/external/bcdec/bcdec.h:610-613 | two bits, or five where the two are above 1 |
| `Bc6hReader.ReadFields` | src/external/bcdec/bcdec.h:605-976 | or-ing the reads together gives the fields of the header |
| `Bc6hReader.ModesNamed` | src/external/bcdec/bcdec.h:618-992 | exactly the codes 19, 23, 27 and 31 are reserved, every other block names one mode, whose number follows from the code |
| `Bc6hReader.HeaderRoundTrip` | src/external/bcdec/bcdec.h:610-976 | a block that begins with the encoding of mode and fields is read back as that mode and those fields |
| `Bc6hReader.HeaderRead` | src/external/bcdec/bcdec.h:610-976 | encoding what was read from any block of a named mode gives the block's header back |
| `Bc6hArithmetic.ExtendSignWraps` | src/external/bcdec/bcdec.h:445-447 | the two shifts read the low bits as a signed number |
| `Bc6hArithmetic.InverseIs` | src/external/bcdec/bcdec.h:449-457 | a delta decodes to a value in range exactly if it has the low bits of the difference |
| `Bc6hArithmetic.DeltaFits` | src/external/bcdec/bcdec.h:445-457 | an endpoint can be stored as a delta of a given width exactly if the wrapped difference is a signed number of that width, and its low bits then decode to it |
| `Bc6hArithmetic.UnquantizeBounded` | src/external/bcdec/bcdec.h:460-496 | unquantized values fill 16 bits at most and, but for 16-bit signed endpoints, never reach -32768 |
| `Bc6hArithmetic.UnquantizeMonotone` | src/external/bcdec/bcdec.h:460-496 | unquantizing keeps the order of endpoint values |
| `Bc6hArithmetic.UnquantizeIs` | src/external/bcdec/bcdec.h:460-496 | an endpoint value goes to the middle of its part of the 16-bit range, rounded down, 0 and the top values to the ends |
| `Bc6hArithmetic.UnquantizeOdd` | src/external/bcdec/bcdec.h:460-496 | opposite values are unquantized to opposite values |
| `Bc6hArithmetic.FinishIs` | src/external/bcdec/bcdec.h:502-516 | the half is 31/64 of the value rounded down, or 31/32 of it rounded towards 0, with a sign bit |
| `Bc6hArithmetic.FinishMonotone` | src/external/bcdec/bcdec.h:502-516 | a larger value never gives a smaller half |
| `Bc6hArithmetic.FinishFinite` | src/external/bcdec/bcdec.h:502-516 | the result has 16 bits and is a finite half unless the value is -32768 in the signed format |
| `Bc6hArithmetic.LowestInterpolated` | src/external/bcdec/bcdec.h:498-500 | the interpolated value is -32768 exactly if the weighted distances of the endpoints from it are below half a step |
| `Bc6hEndpoints.DecodeEndpoints` | src/external/bcdec/bcdec.h:997-1026 | the in-place passes of sign extension, delta decoding and unquantization give each endpoint its value |
| `Bc6hEndpoints.AbsoluteInRange` | src/external/bcdec/bcdec.h:997-1020 | every decoded endpoint is a number of the mode's endpoint width |
| `Bc6hEndpoints.AbsoluteIs` | src/external/bcdec/bcdec.h:997-1020 | a field of full width gives the low bits of its endpoint value, a narrower one a signed number to be added to the first endpoint of its channel |
| `Bc6hEndpoints.DeltasExactly` | src/external/bcdec/bcdec.h:997-1020 | the modes without deltas are those without narrower fields |
| `Bc6hEndpoints.EndpointsRecovered` | src/external/bcdec/bcdec.h:997-1020 | endpoints whose deltas fit their fields are recovered, in every mode, signed or not |
| `Bc6hDecoder.DecodeBlock` | src/external/bcdec/bcdec.h:546-1054 | a reserved mode gives zeros; any other block is used up to bit 128 and every half is the one its texel, channel and index determine |
| `Bc6hDecoder.DecodeTexels` | src/external/bcdec/bcdec.h:1028-1050 | the indices take 16 times their width less one bit per subset |
| `Bc6hDecoder.DecodedIs` | src/external/bcdec/bcdec.h:997-1050 | each half is what the endpoint values, scaled, mixed by the nearest weight of the index and scaled to a half, give, stated without the decoder's functions |
| `Bc6hDecoder.OneTexel` | src/external/bcdec/bcdec.h:997-1050 | that is one half only |
| `Bc6hDecoder.DecodedEnds` | src/external/bcdec/bcdec.h:1033-1050 | the first index gives the first endpoint of the texel's subset, the last one the second |
| `Bc6hDecoder.DecodedAway` | src/external/bcdec/bcdec.h:1033-1050 | of two texels of a subset the one with the larger index is never nearer to the first endpoint |
| `Bc6hDecoder.DecodedFinite` | src/external/bcdec/bcdec.h:1022-1049 | every decoded value is a finite half, at most 0x7BFF unsigned, in every mode and format but mode 13 signed |
| `Bc6hDecoder.TexelFinite` | src/external/bcdec/bcdec.h:1022-1049 | in any mode a value is finite exactly if the interpolated value is not -32768 in the signed format |
| `Bc6hDecoder.MixedLowest` | src/external/bcdec/bcdec.h:498-500 | when that is, in terms of the two endpoints and the weight |
| `Bc6hDecoder.DecodedFiniteExactly` | src/external/bcdec/bcdec.h:1022-1049 | a decoded value of a block is finite exactly if the format is unsigned or the endpoints and weight of its texel are not too near -32768 |
| `Bc6hDecoder.InfiniteRed` | src/external/bcdec/bcdec.h:1022-1049 | 16-bit signed red base -32768 with delta 0 makes an infinite red of any texel, under any partition and indices |
| `Bc6hDecoder.InfiniteRedDecoded` | src/external/bcdec/bcdec.h:1022-1049 | every mode 13 block with that base and delta decodes to infinite red in all texels |
| `Bc6hDecoder.SomeInfiniteBlock` | src/external/bcdec/bcdec.h:546-1054 | there is such a block of 128 bits |
| `Bc6hDecoder.InfiniteRedFits` | src/external/bcdec/bcdec.h:961-974 | the fields of that exception fit a mode 13 header |
| `Bc6hDecoder.EndpointsRoundTrip` | src/external/bcdec/bcdec.h:605-1020 | storable endpoints encoded into a header are what the block decodes to |
| `Bc7Layout.BlockFull` | src/external/bcdec/bcdec.h:1243-1376 | the parts of a block of any of the eight modes have 128 bits together |
| `Bc7Layout.ExpandFills` | src/external/bcdec/bcdec.h:1327-1346 | expansion fits a byte, keeps the value in the top bits, and only the ends map to 0 and 255 |
| `Bc7Layout.TexelBetweenEndpoints` | src/external/bcdec/bcdec.h:1378-1425 | every decoded byte lies between its two endpoint bytes, in 0..255, rotation included |
| `Bc7Layout.OpaqueWithoutAlpha` | src/external/bcdec/bcdec.h:1348-1353 | modes without alpha give 255 |
| `Bc7Texels.ModeRows` | src/external/bcdec/bcdec.h:1080-1083 | the tests of the mode number give the rows of the format's table of modes |
| `Bc7Texels.ExpandRepeats` | src/external/bcdec/bcdec.h:1327-1346 | expansion repeats the bits of the value from the top of the byte on |
| `Bc7Texels.DecodedIs` | src/external/bcdec/bcdec.h:1280-1420 | each byte is the mean, by the nearest weight of the index its channel goes by, of the two endpoint bytes of its subset, for the channel that the rotation names |
| `Bc7Texels.OneChannel` | src/external/bcdec/bcdec.h:1378-1407 | that is one byte only |
| `Bc7Texels.DecodedEnds` | src/external/bcdec/bcdec.h:1378-1420 | the first index gives the first endpoint of the texel's subset, the last one the second |
| `Bc7Texels.DecodedAway` | src/external/bcdec/bcdec.h:1378-1420 | of two texels of a subset the one with the larger index is never nearer to the first endpoint |
| `Bc7Decoder.DecodeBlock` | src/external/bcdec/bcdec.h:1079-1430 | eight zero bits give transparent black; any other block is read front to back up to bit 128, and each byte is the one read from where its parts lie |
| `Bc7Decoder.ReadMode` | src/external/bcdec/bcdec.h:1243-1243 | the mode is the number of leading zeros |
| `Bc7Decoder.ReadEndpoints` | src/external/bcdec/bcdec.h:1280-1292 | channel by channel, endpoint by endpoint |
| `Bc7Decoder.InsertPBits` | src/external/bcdec/bcdec.h:1294-1324 | the shared or unique bits go below the stored ones |
| `Bc7Decoder.ExpandEndpoints` | src/external/bcdec/bcdec.h:1326-1353 | every stored channel is expanded to a byte and missing alpha is 255 |
| `Bc7Decoder.DecodeEndpoints` | src/external/bcdec/bcdec.h:1280-1353 | the endpoint bytes are those of the random-access reading |
| `Bc7Decoder.ReadIndices` | src/external/bcdec/bcdec.h:1362-1376 | the primary indices, one bit less at each fix-up texel |
| `Bc7Decoder.ReadWeights` | src/external/bcdec/bcdec.h:1388-1407 | the secondary index is read where the mode has one, and the selection bit says whether colours or alpha use it |
| `Bc7Decoder.SwappedIs` | src/external/bcdec/bcdec.h:1410-1420 | the swap puts in each place the channel that the rotation names |
| `FieldIterators.Begin` | src/external/nanopb/pb_common.c:156-164 | begin loads the first field with all counters at zero; false exactly for a message without fields |
| `FieldIterators.FieldIterator.LoadDescriptorValues` | src/external/nanopb/pb_common.c:8-120 | loads the current field from its 1, 2, 4 or 8 words, cast to the types of the iterator, and its submessage if it is one |
| `FieldIterators.CastKeeps` | src/external/nanopb/pb_common.c:24-70 | the casts on loading lose nothing exactly if tag, array size and data size are in the range of pb_size_t |
| `FieldIterators.FieldIterator.AdvanceIterator` | src/external/nanopb/pb_common.c:122-154 | counters stay the prefix sums over the fields before the index, wrapping to zero, without overflow |
| `FieldIterators.FieldIterator.IncrementIndexes` | src/external/nanopb/pb_common.c:136-152 | word, required and submessage counters grow by what the previous field takes |
| `FieldIterators.FieldIterator.Next` | src/external/nanopb/pb_common.c:188-193 | the next field is loaded; false exactly on return to the first |
| `FieldIterators.FieldIterator.Find` | src/external/nanopb/pb_common.c:195-244 | from any position, also in a message without fields: true exactly if a linear scan finds a field with the tag that is no extension range, or the current tag is that; on failure every loaded value is as before |
| `FieldIterators.FieldIterator.SearchRange` | src/external/nanopb/pb_common.c:210-216 | with tags in order and a smaller tag wanted, it can only be before the start |
| `FieldIterators.FieldIterator.SearchUntil` | src/external/nanopb/pb_common.c:218-238 | the cyclic search tests each position once and ends |
| `FieldIterators.FieldIterator.TryNext` | src/external/nanopb/pb_common.c:220-237 | the test on the low tag bits never misses a field |
| `FieldIterators.FieldIterator.FindExtension` | src/external/nanopb/pb_common.c:246-275 | true exactly if there is an extension range field, landing on it; otherwise, also without any fields, the position is as before |
| `FieldIterators.VisitAll` | src/external/nanopb/pb_common.c:156-193 | begin and then next until false visits every field once, in order; if the table was packed from given fields in any of the formats, those are the fields visited, cast |
| `FieldIterators.EntryLoaded` | src/external/nanopb/pb_common.c:22-71 | in a packed table field k is entry k: each format takes the words it says |
| `FieldIterators.FastTagCheck` | src/external/nanopb/pb_common.c:136-143 | in all formats the low bits of the first word are the low bits of the tag, and the type |
| `FieldIterators.UnpackOne` | src/external/nanopb/pb_common.c:22-30 | a field within the widths of the 1-word format is unpacked from its packed form |
| `FieldIterators.UnpackTwo` | src/external/nanopb/pb_common.c:32-42 | the same for two words |
| `FieldIterators.UnpackFour` | src/external/nanopb/pb_common.c:44-56 | the same for four words |
| `FieldIterators.UnpackEight` | src/external/nanopb/pb_common.c:58-71 | the same for eight words |
| `Utf8.ValidateUtf8` | src/external/nanopb/pb_common.c:334-385 | true exactly if the string is a concatenation of encodings by RFC 3629 of code points other than NUL, surrogates, U+FFFE and U+FFFF; never reads past the terminator |
| `Utf8.EncodedIsAccepted` | src/external/nanopb/pb_common.c:339-377 | the encoding of every allowed code point passes, and decodes to it |
| `Utf8.AcceptedIsEncoded` | src/external/nanopb/pb_common.c:339-377 | octets that pass are the encoding of the code point they decode to |
| `Utf8.CharacterInFront` | src/external/nanopb/pb_common.c:337-382 | cutting off an accepted character changes nothing: the first octet tells the length |
| `Utf8.Rejected` | src/external/nanopb/pb_common.c:344-381 | a rejected character makes the whole text invalid, also at the terminator |
| `ArcoreModule.EveryRun` | samples/augins-arcore-headpose/arcore_module.cpp:88-142 | the invariant holds after every interleaving of worker, dispatching threads and load/unload |
| `ArcoreModule.NoTornPose` | samples/augins-arcore-headpose/arcore_module.cpp:242-281 | every dispatched location comes from the initial pose or from one whole tick; while tracking it has exactly the four flags of a pose, else, and always before the first tick, it keeps its pose and its flags but that of the tracked position |
| `ArcoreModule.LatestPose` | samples/augins-arcore-headpose/arcore_module.cpp:242-255 | that pose is the one cached at the moment the thread took the lock, the latest stored as a whole |
| `ArcoreModule.NeverOlder` | samples/augins-arcore-headpose/arcore_module.cpp:242-281 | a thread never gets an older pose than one it got before |
| `ArcoreModule.NoStepAfterUnload` | samples/augins-arcore-headpose/arcore_module.cpp:198-211 | once unload has returned the worker can take no step |
| `ArcoreModule.RefsReleasedOnce` | samples/augins-arcore-headpose/arcore_module.cpp:185-192 | whenever the module is unloaded every context reference was released once, or lost to a failed attach |
| `ArcoreModule.StopEndsWorker` | samples/augins-arcore-headpose/arcore_module.cpp:115-142 | after the stop request each step of the worker brings its end nearer |
| `ArcoreModule.StepTowardsJoin` | samples/augins-arcore-headpose/arcore_module.cpp:198-211 | while unload waits, the worker or the reader it waits for can always take a step, which brings the end nearer |
| `ArcoreModule.JoinReturns` | samples/augins-arcore-headpose/arcore_module.cpp:198-211 | from every state in which unload waits, steps of the worker and of readers lead to the join |
| `ArcoreModule.HolderCanStep` | samples/augins-arcore-headpose/arcore_module.cpp:122-131 | whoever holds the pose lock can take a step |
| `ArcoreModule.WorkerKeeps` | samples/augins-arcore-headpose/arcore_module.cpp:88-142 | each worker step keeps the invariant |
| `ArcoreModule.DispatchKeeps` | samples/augins-arcore-headpose/arcore_module.cpp:242-281 | each step of a dispatching thread keeps the invariant |
| `ArcoreModule.LifecycleKeeps` | samples/augins-arcore-headpose/arcore_module.cpp:191-210 | each step of load and unload keeps the invariant |

## Left out

Assignment solver:
- Costs are real numbers, so rounding in floating-point additions is not modelled; DBL_EPSILON is the constant 2^-52.
- DBL_MAX as the start of the minimum search is "nothing found yet"; a matrix with entries above DBL_MAX has no counterpart.
- The warning on standard error, memory allocation and release, and the ONE_INDEXING build.
- An empty outer vector, on which the source indexes out of bounds, is excluded.

Section tracker and run loop:
- Generators, section filters, abort-after, reporters, messages, assertion counts, signals and timing.
- Trackers are identified by their paths of names and locations, not by pointers; the children of a tracker are those whose path extends its own by one name.
- Names equal to that of a sibling are excluded; the source then finds one tracker for both.
- A section throws on every visit or on none; throws that depend on the visit are not modelled.

Line wrapper:
- ANSI escape sequences and the sentinel character; positions are those of texts without them.
- Columns, spacers and the joining of columns; only the lines of one column are modelled.
- TextFlow.Wrap: requires the exact condition of `EndsExactly`, where the source only asserts that there is room, because on the other columns the source does not end.

BC6H and BC7:
- BC1 to BC5, the conversion of halves to floats, and the row pitch of the output: texels are written one after another.
- BitStreams.BitStream.ReadBits: widths of 31 and 32 are excluded, because the mask is a shift of an int and needs widths up to 30; the decoders read at most 10 bits at once.
- The straight-line reads of each BC6H mode are one loop over a table of the same reads in the same order, and the 4 by 4 loops over texels are loops over 16 texels.
- Which texels a partition puts in which subset, and which are its fix-up texels, is data: the 64 rows of each table are those of the source, and nothing derives them.
- BC7 alpha values of modes without alpha are undefined in the source before they are overwritten; here they are arbitrary numbers.
- The bitwise operations are functions on numbers that are known by what they do to single bits.

Field iterator and validator:
- Message pointers, field and size addresses, callbacks, and the iterators over extensions; pb.h is not part of this model, so the tests on the type byte are arbitrary predicates, of which extension range is false of type 0, and the width of pb_size_t, a multiple of 8 bits, is a parameter.
- FieldIterators.FieldIterator.Find: the tags have to be in order, as the generator guarantees and the source relies on.

ARCore module:
- The ARCore session, JNI calls, sleeping, logging, and the memory order of the atomic flags.
- A call with a null location, which returns an error and changes nothing.
- Loading is modelled only while the module is unloaded, as the host calls it.
