# Disk-layout research tools, modelled in Dafny

This project models the core of a small research code base about disk
layout. The code base has four parts:

- **TraceSet** holds a trace of LBA (logical block address) accesses and
  an approximate on-disk location for every LBA. There are three vectors:
  - the trace `Sequence_`, where each access links to the next access of
    the same LBA;
  - `mapLBA_`, indexed by LBA, with `first`, `last`, `location` and `used`;
  - `locations_`, indexed by location, with `LBA` and `used`.

  It reads traces, lists the accesses of one LBA and sums seek distances.
  It can also move a list of LBAs to a consecutive run of locations: it
  compacts `locations_`, inserts a block, and repairs `mapLBA_` from
  `locations_`.
- **ClusterParse** rebuilds the binary tree of a CLUTO hierarchical
  clustering from (child, parent) records. The tree is a vector of node
  records. The class lists the leaves left to right and prints the tree as a
  parenthesised string.
- **FrequentPairs** reads a newline-separated list of decimal LBAs.
- **organ-pipe.py** rearranges its input lines into organ-pipe order.

The files:

- `decimal.dfy` (module `Decimal`): digit strings, `stoi` (`Stoi`), the
  decimal rendering used when printing (`ToDecimal`), and their round trip.
- `text_input.dfy` (module `TextInput`): the character streams the readers
  consume. `Pieces` lists the separator-terminated pieces of a text and
  `Pending` is the unterminated text at its end.
- `number_lines.dfy` (module `NumberLines`): one reading step of a
  newline-separated list of numbers, and the file a list of numbers is
  written as.
- `trace_layout.dfy` (module `TraceLayout`): the TraceSet records as values,
  plus the specification functions of the TraceSet operations:
  - `Occurrences`, `TotalDistance`;
  - `Reconcile` (what `fix_locations` computes);
  - `Without` (what the compaction keeps);
  - `Relocate` (the layout after `change_locations`);
  - the invariants they keep and the lemmas about them.
- `trace_set.dfy` (module `TraceSets`): class `TraceSet`, whose methods
  update the three fields in place. Each method is proved against the
  functions above.
- `cluster_tree.dfy` (module `ClusterTree`): the ClusterParse tree as a
  value:
  - its queries and pure updates;
  - leaf listing and printing;
  - the stick trees of the tests.
- `cluster_parse.dfy` (module `ClusterParsing`): class `ClusterParse`, with
  in-place `insert`, `setChild`, `setParent` and the `readIn` token state
  machine. It also holds which tokens are parent records.
- `cluster_examples.dfy` (module `ClusterExamples`): the small and the
  balanced trees of the tests, built record by record.
- `frequent_pairs.dfy` (module `FrequentPairing`): class `FrequentPairs`.
- `organ_pipe.dfy` (module `OrganPipe`): the organ-pipe loop and its
  permutation property.

Input streams are character sequences (`string`). `stoi` is decimal parsing
of a non-empty digit string, which is a precondition wherever the source
calls it. All integers are unbounded.

## Model

| member | source | states |
|---|---|---|
| Decimal.StoiToDecimal | clusterParse/ClusterParse.cpp:234-265 | parsing the decimal text that printing produces gives back the number, so a printed node index reads back as itself |
| Decimal.NumbersOfDecimal | clusterParse/ClusterParse.cpp:240 | the text written for a node number holds exactly that one number |
| Decimal.NumbersConcat | clusterParse/ClusterParse.cpp:243-262 | the numbers of two texts written one after the other, where the join is not inside a run of digits, are those of the first followed by those of the second |
| TextInput.PiecesOfJoin | Trace_Distance_Data_structure/TraceSet.cpp:179-218 | splitting a text made of separator-terminated pieces gives back exactly those pieces, with nothing pending |
| TextInput.TrailingTextDropped | frequent_pairs/FrequentPairs.cpp:58-87 | text after the last separator adds no piece, so the readers never hand it on |
| TextInput.ReadStep | frequent_pairs/FrequentPairs.cpp:58-82 | reading a separator hands the pending text over as one more piece and empties it; any other character extends the pending text |
| NumberLines.ReadBackLines | Trace_Distance_Data_structure/TraceSet.cpp:228-258 | a file of numbers, one per newline-terminated line and followed by any unterminated text, reads back as exactly those numbers in file order |
| TraceLayout.Grown | Trace_Distance_Data_structure/TraceSet.cpp:124-129 | resizing keeps every old entry and fills the new ones with the fresh record |
| TraceLayout.OccurrencesSpec | trace_set/TraceSet.hpp:139-143 | the occurrence list holds exactly the indices of the accesses of the LBA, strictly increasing |
| TraceLayout.FollowLink | Trace_Distance_Data_structure/TraceSet.cpp:269-313 | from an access that is not the last one, `next` leads to the following access of the same LBA, and the occurrence list grows by that index |
| TraceLayout.AppendSeenKeeps | Trace_Distance_Data_structure/TraceSet.cpp:140-149 | appending a repeat access, linked from the previous last access, keeps the links, the first/last fields and the two indexes consistent, and extends the LBA list by the LBA |
| TraceLayout.AppendNewKeeps | Trace_Distance_Data_structure/TraceSet.cpp:155-166 | the first access of an LBA, placed at its own number in both grown indexes, keeps the structure consistent and keeps an identity layout an identity layout |
| TraceLayout.IdentityLocations | Trace_Distance_Data_structure/TraceSet.cpp:95-100 | while every used LBA sits at the location of its own number, the locations of the trace are its LBAs |
| TraceLayout.IdentitySlotFree | Trace_Distance_Data_structure/TraceSet.cpp:95-100 | in an identity layout the slot a new LBA claims is free, so the first-access branch of `insert` is safe there |
| TraceLayout.Dist | Trace_Distance_Data_structure/TraceSet.cpp:341-360 | the seek between two locations is the larger minus the smaller; it is 0 exactly when they are equal |
| TraceLayout.TotalDistanceZero | Trace_Distance_Data_structure/trace-set-test.cpp:198-222 | the total seek distance is 0 exactly when every access is at the same location, as for one access or one repeated LBA |
| TraceLayout.TotalDistanceProgression | trace_set/TraceSet.hpp:145-150 | for n accesses at locations spaced d apart the total seek distance is d times n-1 |
| TraceLayout.SeekDistanceOfEvens | Trace_Distance_Data_structure/trace-set-test.cpp:224-242 | a well-formed trace whose accesses are the LBAs 0, 2, ..., 98, with no relocation done, has total seek distance 98 |
| TraceLayout.AsWrittenSeekLoopNeverExits | Trace_Distance_Data_structure/TraceSet.cpp:340-363 | with the increments after the loop, however many rounds run, the iterators stay on the first two accesses and the loop condition still holds |
| TraceLayout.ConsistentCounts | trace_set/TraceSet.hpp:196-218 | when the two indexes agree, each used LBA holds exactly one used location and an unused LBA none |
| TraceLayout.SlotForUnique | Trace_Distance_Data_structure/TraceSet.cpp:514-535 | when an LBA holds at most one used slot, the slot the repair finds for it is that slot |
| TraceLayout.ReconcileIdempotent | Trace_Distance_Data_structure/TraceSet.cpp:514-535 | a second `fix_locations` changes nothing |
| TraceLayout.ReconcileRepairs | trace_set/TraceSet.hpp:173-180 | if only the locations in `mapLBA_` are wrong, the repair restores them from `locations_`; on agreeing indexes it changes nothing |
| TraceLayout.ReconcileRestores | trace_set/TraceSet.hpp:173-180 | when every used LBA holds exactly one used slot, after the repair each used slot l has `mapLBA_[locations_[l].LBA].location == l` and the indexes agree |
| TraceLayout.WithoutConcat | Trace_Distance_Data_structure/TraceSet.cpp:455-478 | compaction works slot by slot: compacting two parts in turn is compacting the whole |
| TraceLayout.CompactDone | Trace_Distance_Data_structure/TraceSet.cpp:455-478 | when the shift loop ends, the vector holds the surviving slots in order followed by the old tail, and the write position is the number of survivors |
| TraceLayout.UsedCountWithout | trace_set/TraceSet.hpp:166-171 | compaction removes every used slot of a listed LBA and keeps the used slots of all other LBAs |
| TraceLayout.WithoutUnion | Trace_Distance_Data_structure/TraceSet.cpp:430-494 | removing two lists in turn is removing their union |
| TraceLayout.WithoutLength | Trace_Distance_Data_structure/TraceSet.cpp:486-492 | for distinct used LBAs the compacted vector is shorter by exactly the length of the list |
| TraceLayout.WithoutKeepsUsed | Trace_Distance_Data_structure/TraceSet.cpp:455-478 | compacting a vector of used slots leaves only used slots |
| TraceLayout.RelocatePlacesBlock | trace_set/TraceSet.hpp:152-161 | after `change_locations`, `L[k]` sits at location `start + k` |
| TraceLayout.RelocateMovesKept | trace_set/TraceSet.hpp:162-164 | every slot not in the list moves to its rank among the survivors, shifted by the list length when it lands past `start` |
| TraceLayout.RelocateKeepsSurvivorOrder | trace_set/TraceSet.hpp:166-171 | the slots that are not moved keep their relative order |
| TraceLayout.RelocateCounts | Trace_Distance_Data_structure/TraceSet.cpp:381-419 | `locations_` keeps its size and each LBA keeps its number of used slots |
| TraceLayout.RelocateConsistent | trace_set/TraceSet.hpp:162-164 | after moving and repairing, the two indexes agree again, so no two LBAs share a location |
| TraceLayout.RelocateKeeps | Trace_Distance_Data_structure/TraceSet.cpp:381-419 | moving and repairing keeps the whole structure well formed, puts the listed LBAs at `start`, `start + 1`, ..., and gives every other LBA its shifted survivor rank |
| TraceLayout.RelocateKeepsUsedPrefix | Trace_Distance_Data_structure/trace-set-test.cpp:387-854 | if the used slots are exactly the first u, they still are afterwards: every used flag stays true and the slots at or beyond the used count stay unused |
| TraceSets.TraceSet.constructor | Trace_Distance_Data_structure/TraceSet.cpp:31-36 | an empty trace with one fresh (unused) LBA entry and one fresh location |
| TraceSets.TraceSet.Insert | Trace_Distance_Data_structure/TraceSet.cpp:103-171 | a repeat access is appended and linked from the previous last access, `last` moves to it, and `first`, `location` and `locations_` stay; a first access grows both indexes to `2*v` when `v` is out of range and records `v` at location `v` in both; consistency is kept |
| TraceSets.TraceSet.ReadIn | Trace_Distance_Data_structure/TraceSet.cpp:179-218 | one insert per newline-terminated line, in file order; text after the final newline is dropped |
| TraceSets.TraceSet.ReadLBAs | Trace_Distance_Data_structure/TraceSet.cpp:228-258 | the values of the newline-terminated lines, in file order |
| TraceSets.TraceSet.GetIndices | Trace_Distance_Data_structure/TraceSet.cpp:269-313 | walking the `next` chain from `first` yields exactly the occurrence list, which is empty for an unused LBA |
| TraceSets.TraceSet.TotalSeekDistance | Trace_Distance_Data_structure/TraceSet.cpp:315-367 | the sum, over adjacent accesses, of the larger location minus the smaller (the loop with its increments inside) |
| TraceSets.TraceSet.LocationTable | Trace_Distance_Data_structure/TraceSet.cpp:436-446 | the lookup table holds exactly the listed LBAs |
| TraceSets.TraceSet.RemoveLBALocations | Trace_Distance_Data_structure/TraceSet.cpp:430-494 | `locations_` becomes the slots that are not used by a listed LBA, in their old order, with the old tail behind them, cut short by the list length; the trace and `mapLBA_` are untouched |
| TraceSets.TraceSet.PopLocations | Trace_Distance_Data_structure/TraceSet.cpp:486-492 | n slots are removed from the end and nothing else changes |
| TraceSets.TraceSet.FixLocations | Trace_Distance_Data_structure/TraceSet.cpp:514-535 | `mapLBA_` becomes its repair from `locations_`; the trace and `locations_` are unchanged |
| TraceSets.TraceSet.ChangeLocations | Trace_Distance_Data_structure/TraceSet.cpp:381-419 | the structure stays consistent; `locations_` keeps its size and becomes the relocated layout; `L[k]` is at `start + k` in `mapLBA_`; every other used LBA gets its survivor rank, shifted past the block |
| ClusterTree.SetChildFillsLeftFirst | clusterParse/ClusterParse.cpp:34-58 | `setChild` fills the left slot, else the right slot; a node with two children is unchanged; no other record changes |
| ClusterTree.HeightIsTallestChildPlusOne | clusterParse/ClusterParse.cpp:90-112 | with the left child set first, a parent ends one above its taller child |
| ClusterTree.SetParentOnlyOnce | clusterParse/ClusterParse.cpp:162-174 | the parent is written only when it is 0 or already the same; otherwise nothing changes |
| ClusterTree.InsertEffects | clusterParse/ClusterParse.cpp:192-215 | one more record; the vector grows to exactly `parent + 1` fresh records when needed; the child becomes a child of a parent with a free slot; the parent is recorded unless another one is; the child's own record changes only in its parent field; every other record stays |
| ClusterTree.InsertKeepsOrdered | clusterParse/ClusterParse.cpp:192-215 | inserting a child below its parent keeps every child below its parent |
| ClusterTree.InsertKeepsLeavesAtZero | cluster_parse/ClusterParse.hpp:59-62 | after any `insert` every childless node still has height 0 |
| ClusterTree.InsertKeepsHeights | clusterParse/ClusterParse.cpp:192-215 | inserting a child under a higher-numbered parent that is nobody's child yet keeps leaves at 0 and every other node one above its tallest child |
| ClusterTree.BuildHeights | cluster_parse/ClusterParse.hpp:59-62 | for records that each name a parent above the record's own number, the built tree has every leaf at height 0 and every other node at one more than its taller set child |
| ClusterTree.LeavesAreChildlessNodesBelow | cluster_parse/ClusterParse.hpp:120-123 | the leaf list of a node holds exactly the childless nodes of its subtree |
| ClusterTree.PrintNodeNumbers | clusterParse/ClusterParse.cpp:234-265 | the numbers `printNode` writes, read left to right with `stoi`, are the subtree's nodes in order: left subtree, node, right subtree |
| ClusterTree.InOrderLeaves | clusterParse/ClusterParse.cpp:337-358 | the childless nodes of that listing, in order, are exactly the leaves `traverseTree` lists |
| ClusterTree.InOrderIsBelow | clusterParse/ClusterParse.cpp:234-265 | the listing holds exactly the nodes of the subtree |
| ClusterTree.PrintTreeNumbers | clusterParse/ClusterParse.cpp:220-227 | the numbers of the printed tree are all its nodes in order, and the childless ones among them are what `formatOutput` returns |
| ClusterTree.PrintNodeBalanced | clusterParse/ClusterParse.cpp:234-265 | the printed form of every subtree has balanced parentheses |
| ClusterTree.StickFacts | clusterParse/cluster-parse-test.cpp:130-182 | for the stick of n records, the root is n; node i has parent i+1, is its child and has height i; the only leaf is 0 |
| ClusterTree.SmallStickPrinted | clusterParse/ClusterParse.cpp:220-265 | the two-record stick prints as `((0, 1), 2)` followed by a newline |
| ClusterTree.LargeStick | clusterParse/cluster-parse-test.cpp:203-213 | the 500-record stick has root 500 and the single leaf 0 |
| ClusterTree.AdmissiblePrefix | clusterParse/ClusterParse.cpp:279-329 | every prefix of a record list that can be loaded can be loaded, and its next record fits the tree built so far |
| ClusterExamples.SmallTree | clusterParse/cluster-parse-test.cpp:356-431 | the records 2, 2, 5, 4, 5 give parents 2, 2, 5, 4, 5, the children seen in the tests, and leaves 0, 1, 3 |
| ClusterExamples.BalancedTree | clusterParse/cluster-parse-test.cpp:183-199 | the balanced tree of 8 leaves has root 14, height 3 and leaves 0..7 |
| ClusterParsing.ParentsInTestMode | clusterParse/ClusterParse.cpp:279-329 | in test mode every token other than "-1" is a parent record |
| ClusterParsing.ParentsInNormalMode | clusterParse/ClusterParse.cpp:279-329 | in normal mode only the tokens at positions 0, 3, 6, ... can be parent records, and "-1" is never one |
| ClusterParsing.ParentsMonotone | clusterParse/ClusterParse.cpp:279-329 | reading more tokens only adds parent records at the end |
| ClusterParsing.PhaseTells | clusterParse/ClusterParse.cpp:301-318 | the `lineIndex` counter says exactly when the token just read is a parent record |
| ClusterParsing.ParentRead | clusterParse/ClusterParse.cpp:303-311 | a parent record inserts `counter` under its value and advances `counter` |
| ClusterParsing.OtherRead | clusterParse/ClusterParse.cpp:312-320 | a token that is not a parent record changes nothing |
| ClusterParsing.ClusterParse.constructor | clusterParse/ClusterParse.cpp:19-23 | an empty tree with no records |
| ClusterParsing.ClusterParse.SetLeftChild | clusterParse/ClusterParse.cpp:90-96 | the parent's left slot holds the child and its height is one above the child's |
| ClusterParsing.ClusterParse.SetRightChild | clusterParse/ClusterParse.cpp:104-112 | the parent's right slot holds the child and its height is raised to one above the child's if lower |
| ClusterParsing.ClusterParse.SetChild | clusterParse/ClusterParse.cpp:34-58 | the tree becomes the value `setChild` produces, which fills the left slot first |
| ClusterParsing.ClusterParse.SetParent | clusterParse/ClusterParse.cpp:162-174 | the tree becomes the value `setParent` produces, which never re-parents |
| ClusterParsing.ClusterParse.Insert | clusterParse/ClusterParse.cpp:192-215 | the tree becomes the value `insert` produces |
| ClusterParsing.ClusterParse.ReadIn | clusterParse/ClusterParse.cpp:279-329 | the tree becomes the old tree with one insert per parent record, the k-th one inserting child k under the record's value |
| FrequentPairing.ReadCharStep | frequent_pairs/FrequentPairs.cpp:58-82 | a newline appends the value of the pending digits and empties them; another character is appended to the pending text |
| FrequentPairing.FrequentPairs.constructor | frequent_pairs/FrequentPairs.cpp:19-23 | the sequence starts empty |
| FrequentPairing.FrequentPairs.GetSequence | frequent_pairs/FrequentPairs.cpp:35-41 | the current sequence, as a value |
| FrequentPairing.FrequentPairs.Insert | frequent_pairs/FrequentPairs.cpp:95-101 | exactly one element, the decimal value of the string, is appended; the earlier elements stay |
| FrequentPairing.FrequentPairs.ReadIn | frequent_pairs/FrequentPairs.cpp:49-87 | one value per newline-terminated line, in file order; text after the last newline is never inserted |
| OrganPipe.Arrange | organ-pipe.py:15-26 | the result is the organ-pipe order of the lines and a permutation of them |
| OrganPipe.PipeOrderStep | organ-pipe.py:20-26 | a line at an even position goes to the front and a line at an odd position to the back |
| OrganPipe.PipeOrderIsPermutation | organ-pipe.py:15-26 | the organ-pipe order has the input's length and the same lines with the same multiplicities |
| OrganPipe.PipeOrderPlaces | organ-pipe.py:16-26 | the lines at even positions form the front block in reverse order and the lines at odd positions form the tail in order; the first line is the last of the front block |

## Left out

- Streams and files (`ifstream`, `get`, `eof`, `close`), console messages and Python's `sys.stdin`, `print` and `exit` are not modelled. Input is a character sequence, and `organ-pipe.py`'s output is the list it would print.
- `stoi` failure and overflow are not modelled. The readers require every line or token they convert to be a non-empty digit string.
- `size_t`/`int` widths, wrap-around and sign conversion are not modelled. All integers are unbounded.
- The `next` field of a last access is uninitialised in the source; it is `None` here. Unset `left_`/`right_` are 0 and are read only behind their flags.
- The `unordered_map` of `remove_LBA_locations` is modelled as the set of listed LBAs.
- TraceSets.TraceSet.Insert: requires that a first-seen LBA finds the location of its own number free. The source writes over it unchecked, which breaks the pairing once a relocation has happened; the identity note in the source assumes this never happens.
- TraceSets.TraceSet.ChangeLocations: requires distinct, used LBAs and `start + |L| <= |locations_|`, that is `start` at most the compacted size. The source leaves other input undefined.
- TraceSets.TraceSet.TotalSeekDistance: returns 0 for an empty trace, where the source decrements past the beginning of an empty vector.
- The getters `get_Sequence`, `get_mapLBA` and `get_locations` of TraceSet are field reads and are not separate members.
- ClusterParse: `printChildren` (debugging output), `leftChild`/`rightChild` (the two flags, read directly), `getLeaves`, `readRemap`, `makeTreeFile` and the `mapping` argument of `formatOutput` are not modelled. The last four are declared without an implementation.
- ClusterTree.FormatOutput and ClusterTree.PrintTree: require every child index to be below its parent's. This ordering holds for CLUTO trees and for every tree `insert` builds from such records (`InsertKeepsOrdered`), and it gives the recursion a measure. They also require the root index to be inside the vector, where the source would read past the end.
- ClusterParsing.ClusterParse.ReadIn: requires that the whole input can be loaded, that is, that every parent record is a digit string whose insert keeps the child inside the grown vector.
- ClusterTree.GetParent, IsChild, GetHeight, GetRoot, GetLeftChild and GetRightChild are plain functions without their own contracts. What they answer is stated in `InsertEffects`, `StickFacts`, `LargeStick`, `SmallTree` and `BalancedTree`.
- FrequentPairing.FrequentPairs.GetSequence: returns the sequence as a value. The source returns a mutable reference to `Sequence_`, so a caller could change it through that reference; that aliasing is not modelled.
- `FrequentPairs.hpp`'s `most_frequent` has no body and is not modelled. The program drivers, the duplicate headers under `Trace_Distance_Data_structure/` and `clusterParse/`, and the loaders are not part of this model.

## Findings

| source | as written | input that shows it | evidently intended | confidence | as-written member | corrected member |
|---|---|---|---|---|---|---|
| Trace_Distance_Data_structure/TraceSet.cpp:362-363 | the two iterator increments sit after the summing loop, so inside it the iterators never move | any trace of two or more accesses, such as the 0, 2, ..., 98 trace of the tests | advance both iterators inside the loop, giving the sum of adjacent seek distances (98 for that trace) | not executed | TraceLayout.AsWrittenSeekLoopNeverExits | TraceSets.TraceSet.TotalSeekDistance |
