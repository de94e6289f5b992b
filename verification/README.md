# Indexed hash tables, verified

A Dafny model of the two indexed hash tables of this repository, `ihtab` and `ixhtab`, of the earlier
`ihtab-v0`, and of the arithmetic and the reader of the VMUM hash, with proofs of what they promise.

Both tables keep their elements in a dense, append-only array with a bitmap of deleted entries, and find them
through an open-addressing index of groups of eight one-byte tags.  `ihtab` has one such bin and rebuilds it as a
whole; `ixhtab` has a directory of bins, as extendible hashing does, and compacts, doubles or splits only the full
one.  A caller's duty, to write an element equal to the key after an insertion that found nothing, is part of the
model: `Perform` leaves one entry unwritten, `Store` writes it, and `Apply` is the pair of them.

What is proved, in short:

- **ihtab and ihtab-v0 are an insertion-ordered list.**  Every run gives the replies of the list and ends with its
  elements in its order, across any number of rebuilds, on every platform, for every lawful hash, as long as each
  insertion finds fewer entries than the index type can name (`Ihtab.Table.Run`, `Dense.RunIsList`).  Every probe
  ends.  Over any run from a new table the rebuilds scan at most two entries for every new element.  The index never
  has more groups than at the start or than the list had elements on the way; when it is rebuilt, and when it
  doubles, is stated exactly.  The two versions, run side by side, stay equal in all but the placement of their slots.
- **A table of fewer than 2^14 elements is a set.**  From a sound ixhtab (see below), and so from a new one, every
  run that finds fewer than 2^14 elements at each insertion ends and is a run of the set, for every lawful hash,
  however bad (`IxRoom.SmallRunIsSet`, `Ixhtab.Table.RunSmall`).  An insertion makes room if and only if its bin is
  full; it then doubles or splits that bin if and only if the table holds at least as many elements as the bin has
  room for.  A new table takes the number of elements that was asked for, up to 2^14, before it makes room.
- **Both tables are the same dictionary.**  What a lookup replies after an operation follows from what it replied
  before it, by the same laws (`Dictionary.DenseTells`, `Dictionary.IxTells`).
- **The byte tricks are right.**  The portable match mask selects every true match and, above an unbroken run that
  starts at a true match, bytes that differ from the tag in bit 0 alone; never EMPTY or DELETED.  The search for
  EMPTY is exact in all three forms, in both versions.
- **Exactly when ixhtab is a set.**  A table is *sound* if it is well formed, its element count is right and every
  element lies in the bin that its directory entry names.  From a sound table an operation that splits no bin is the set operation and leaves a sound table.  A split
  that ends keeps all elements, and keeps them in reach, if and only if it is *harmless*, which is a condition on the
  hashes, the bitmap and the directory before it: with k the number of bits from the bin's depth up to the first that
  tells two live elements apart,
  - no live element is moved onto an entry that the bitmap still marks and read there again (*spared*),
  - every element that goes to the new bin has that bin's mask in all bits that index the directory (*fit*),
  - no directory entry that the k rounds write is that of an element of another bin (*undisturbed*).

  So a run whose splits end is a run of the set, with every element in reach throughout, if and only if all its
  splits are harmless (`IxExact.StaysSetIffHarmless`, `Ixhtab.Table.Run`).  What a split that is not harmless loses is
  given exactly (`SplitExact.SplitLoses`), and so is what it leaves out of reach (`SplitExact.ReachedIffFit`).
- **Exactly when ixhtab keeps the invariant of extendible hashing**, that every directory entry names the bin whose
  mask it has in its low bits.  *H1*: the bin's depth is at least the directory's depth less one.  *H2*: among the
  hashes of the bin's live elements both values of the bit at the bin's depth occur.  A split, an operation and a
  whole run keep the invariant if and only if every split meets both.  Such splits are harmless; so is a split under
  H1 of a bin without deleted entries, though it takes several rounds and breaks the invariant.  One round writes one
  directory entry; the entries it leaves naming the old bin are counted exactly.
- **Splits that are not harmless happen.**  Two programs on a new table of two bins end with a lookup that fails of a
  number that was inserted and never deleted: 8 is dropped by the second round of a split without H2
  (`Counterexample.EightIsLost`), and 7 is left out of reach by a split without H1 (`StaleRoute.SevenIsLost`).
- **What holds on every run of ixhtab.**  The directory always has 2^depth entries that name bins, capacities are
  powers of two from 8 to 2^14, and all are 2^14 if there are several bins; elements within a bin are pairwise
  different, an insertion always finds room, and the imperative table does exactly what the pure machine `Extendible`
  says, for any number of rounds of a split.  When a split ends is given exactly for any bitmap.
- **VMUM.**  The portable multiplication with carries is the 128-bit product, so the hash does not depend on the
  target; without them it is short by exactly the number of carries.  The reader of the hash reads every byte of the
  key once and no other byte, and never uses more than the first seventy of the eighty factors.  Laws without the loops
  give the hash of every key from that of a shorter one: without its last bytes, its last pair of words, its last
  group of pairs or its last block.  For keys shorter than sixteen bytes there is a closed form, and the factors
  that it depends on are told exactly.

## Layout

| file | holds |
|---|---|
| `BitMath.dfy` | powers of two, bits, `&` with a mask and `\|` on naturals |
| `Swar.dfy` | groups of eight tags: match masks and the walk over their set bits |
| `Keys.dfy`, `Bitmap.dfy` | hash and equality; the bitmap of deleted entries |
| `Probe.dfy` | the index as a value: the probe-path invariant and the walk |
| `Bins.dfy` | class `Bin`: arrays, `do_1`, compaction in place |
| `Dense.dfy`, `DenseSizes.dfy` | ihtab without its slots: rebuilds, the list, the amortised bound; sizes over a run |
| `Ihtab.dfy`, `Lockstep.dfy` | class `Table` of ihtab in both versions; two tables side by side |
| `Extendible.dfy` | ixhtab as a pure state machine: rounds of a split, compaction, steps |
| `Directory.dfy` | the invariant of extendible hashing, H1, H2, stale entries |
| `SplitLoop.dfy`, `SplitLosses.dfy` | when the split loop ends, what it moves and what it loses |
| `SplitRoutes.dfy`, `SplitExact.dfy` | where the directory sends a hash after a split; harmless splits |
| `IxRuns.dfy`, `IxExact.dfy` | operations against a set; the exact conditions over operations and runs |
| `IxRoom.dfy` | when room is made; tables that never split; new tables; hash 0 |
| `IxSizes.dfy`, `IxIteration.dfy` | capacities over a run; the order of iteration |
| `Dictionary.dfy` | the laws of a dictionary, of the list, the set and both tables |
| `Counterexample.dfy`, `StaleRoute.dfy` | two programs that lose an element, without H2 and without H1 |
| `Distribution.dfy`, `Ixhtab.dfy` | the split of one bin into two in place; class `Table` of ixhtab |
| `Vmum.dfy`, `VmumHash.dfy` | the multiplication; the block, unrolled, pair and tail readers |
| `XorWords.dfy`, `VmumLaws.dfy` | exclusive or on words; what the hash is, without its loops |

`Eq` must be an equivalence that `Hash` respects (`Keys.Lawful`); nothing else is asked of them.  A `Bin` has a
version: `Original` marks a deletion by the largest index and reuses deleted slots, as `ihtab-v0.h` does;
`Current` marks it by a tag, as `ihtab.h` and `ixhtab.h` do.

## Model

| member | source | states |
|---|---|---|
| `Swar.SelectedIsOrdinary` | ihtab.h:72-75 | a selected byte is never EMPTY or DELETED |
| `Swar.Borrow` | ihtab.h:72-75 | a byte is flagged by the zero-byte test exactly when it is 0, or is 1 with the byte below flagged |
| `Swar.PortableSelects` | ihtab.h:72-75 | the portable mask marks exactly the bytes equal to the tag or, in an unbroken run above such a byte, to the tag with bit 0 flipped |
| `Swar.MatchMaskSelects` | ihtab.h:36-75 | on each of the three platforms the match mask marks exactly the selected bytes and has no other bit set |
| `Swar.MatchEmptyExact` | ihtab.h:43-76 | the search for EMPTY marks exactly the EMPTY bytes of a group of tags, on all three platforms |
| `Swar.MatchEmptyV0Exact` | ihtab-v0.h:42-76 | the same for the earlier tags, where EMPTY is 0x80 |
| `Swar.LowestMark` | ihtab.h:119-120 | counting trailing zeros, and dividing by 8 on the portable path, gives the lowest marked byte |
| `Swar.TakeLowest` | ihtab.h:118-133 | the lowest marked byte of a mask, and the mask without that mark alone |
| `Swar.Candidates` | ihtab.h:117-133 | the loop over a match mask visits exactly the selected bytes, in ascending order |
| `Swar.FirstEmpty` | ihtab.h:134-139 | the first EMPTY byte of a group, or none if there is none |
| `Swar.FirstEmptyV0` | ihtab-v0.h:139-149 | the same for the earlier tags |
| `Bitmap.Test` | ihtab.h:171 | the bit of an entry |
| `Bitmap.Mark` | ihtab.h:127 | marks one entry and no other |
| `Probe.TagIsTop` | ihtab.h:111 | the tag is made of the seven top bits of a 64-bit hash |
| `Probe.HomeOf` | ihtab.h:112 | eight hashes in a row share a home group: the number of their octet modulo the number of groups |
| `Bins.HomeIsMasked` | ihtab.h:112 | the masked group number is the hash without its three low bits modulo the number of groups |
| `Probe.SomeGroupStops` | ihtab.h:113-148 | an index that is not full has a group with an EMPTY slot |
| `Probe.WalkStep` | ihtab.h:147 | passing a full group brings the walk one step closer to a group where it stops, so every probe ends |
| `Probe.MatchIsNear` | ihtab.h:112-148 | an element equal to the key lies no further along the walk than any group with an EMPTY slot |
| `Probe.WalkProvesAbsent` | ihtab.h:112-148 | a walk that stopped without a match has proved the key absent from the whole table |
| `Probe.PlaceKeeps` | ihtab-v0.h:141-155 | a new element written into any free slot on its path, EMPTY or deleted, keeps the index invariant; only an EMPTY slot raises the number of used ones |
| `Probe.EraseKeeps` | ihtab.h:126-128 | a deletion keeps the index invariant and removes one live entry |
| `Probe.RewriteKeeps` | README.md:111-113 | overwriting an element by an equal one keeps the index invariant |
| `Bins.UnselectedDiffer` | ihtab.h:117-133 | if no selected slot of a group matches, no slot of the group does |
| `Bins.Bin.ScanGroup` | ihtab-v0.h:119-138 | a slot of the group whose element equals the key, or none in the group; the original version then has noted the first deleted slot among the selected ones, if there is one and none was noted before |
| `Bins.Bin.TryCandidate` | ihtab-v0.h:123-136 | whether a selected slot is deleted, and whether its element equals the key; if neither, no match is passed over |
| `Bins.Bin.Search` | ihtab-v0.h:112-159 | the slot of the equal element, or proof that there is none and the slot for a new one: the first deleted slot that the walk tried, in the original version, or else the first EMPTY slot of the group where it stopped |
| `Bins.Bin.Add` | ihtab.h:137-144 | the index with the new element placed; the cast to the index type loses nothing |
| `Bins.Bin.Remove` | ihtab-v0.h:131-133 | the index with the element erased, its bitmap bit set, no other changed |
| `Bins.Bin.Do1` | ihtab.h:108-149 | found if and only if an equal live element exists; the elements and the live set after finding, deleting and inserting; the bitmap stays exact |
| `Bins.Bin.constructor` | ixhtab.h:132-152 | an empty bin with all tags EMPTY and a clear bitmap |
| `Bins.Bin.Store` | README.md:111-113 | the caller's write: one element replaced by an equal one, the invariant kept |
| `Bins.Bin.CompactEntry` | ixhtab.h:313-320 | one entry of the compaction in place: entries not yet read are not overwritten |
| `Bins.Bin.Compact` | ixhtab.h:299-323 | the bin holds its live elements, in order, at the front of arrays of the new size |
| `Dense.SurvivorsCount` | ihtab.h:170-175 | a rebuild copies as many elements as are live |
| `Dense.RebuiltOk` | ihtab.h:151-179 | after a rebuild the table is well formed and an insertion needs no other rebuild |
| `Dense.RebuiltRoom` | ihtab.h:154-157 | after a rebuild at least a quarter of the slots must be filled before the next one |
| `Dense.RebuiltList` | ihtab.h:170-175 | a rebuild does not change the list of live elements |
| `Dense.ActedIsList` | ihtab.h:108-149 | finding, deleting and inserting, with the caller's write, are the list operations |
| `Dense.ApplyIsList` | ihtab.h:199-207 | one operation of a caller, with its rebuild, is the list operation, and keeps the table well formed |
| `Dense.RunIsList` | ihtab.h:199-207 | every run gives the replies of the list and ends with its elements in its order |
| `Dense.StepIsPaid` | ihtab.h:201-205 | the entries a rebuild scans are paid for by the insertions since the last one |
| `Dense.RebuildsAreAmortised` | ihtab.h:151-179 | over any run from an empty table the rebuilds scan at most two entries for every new element |
| `DenseSizes.StepSize` | ihtab.h:199-207 | an insertion rebuilds if and only if the entries fill all but one of their places; no deleted entry is then left, and the groups double if and only if the list fills at least a quarter of the slots; otherwise no entry goes and the groups stay |
| `DenseSizes.RunSize` | ihtab.h:151-157 | over any run the groups never decrease and never exceed the larger of those at the start and the number of elements of the list at some point of the run |
| `DenseSizes.NoRebuild` | ihtab.h:201-204 | a run that adds fewer elements than there are free places less one rebuilds nothing |
| `DenseSizes.ScannedSum` | ihtab.h:170 | the entries that the rebuilds of a run scan: all of the table, deleted or not, at every insertion that finds all but one place filled, and none otherwise |
| `DenseSizes.InsertedIsNews` | ihtab.h:135-136 | the elements that a run inserts are those that the list gains |
| `Ihtab.IndexSize` | ihtab.h:182-183 | the smallest power-of-two index with room for the requested number of elements |
| `Ihtab.Table.constructor` | ihtab.h:181-195 | an empty table of that size |
| `Ihtab.Table.LoadFactor` | ihtab.h:202-204 | the slots that are not EMPTY are as many as the entries, in the earlier version at most as many, and fewer than half of all slots, so that some group stops every walk |
| `Ihtab.Table.CopyEntry` | ihtab.h:170-175 | one step of the rebuild: the new bin holds the live elements among the entries scanned |
| `Ihtab.Table.Rebuild` | ihtab.h:151-179 | the table after the rebuild is `Dense.Rebuilt` of the table before, whose size `DenseSizes.StepSize` tells, and the index invariant holds of the new bin |
| `Ihtab.Table.Act` | ihtab.h:108-149 | `do_1` on the table's bin with the element count: the reply and the table are those of `Dense.Acted` |
| `Ihtab.Table.Perform` | ihtab.h:199-207 | the reply and the table are those of `Dense.Performed`; after a new insertion exactly one entry waits to be written |
| `Ihtab.Table.Store` | README.md:111-113 | the write makes the table whole again |
| `Ihtab.Table.Apply` | README.md:91-102 | one operation with its write is `Dense.Apply` |
| `Ihtab.Table.Run` | README.md:81-106 | a whole program on a table of either version and any platform is the list program, whatever its length, if each insertion finds fewer entries than the index type can name |
| `Ihtab.Table.Count` | ihtab.h:209 | the length of the list |
| `Ihtab.Table.Size` | ihtab.h:211-213 | four places for each group, and fewer entries than places |
| `Ihtab.Table.Advance` | ihtab.h:215-224 | the first live entry from a position on, with none skipped |
| `Ihtab.Table.Traverse` | ihtab.h:226-241 | a whole iteration yields the live elements in order |
| `Lockstep.SameViewIsAlike` | ihtab-v0.h:84-96 | tables with the same elements, live set and size have the same count, bound, mask, written elements and bitmap |
| `Lockstep.RunBoth` | ihtab-v0.h:208-216 | any such program gives the same replies and the same elements on two tables that differ in version, platform or size; tables of equal size stay alike in all but their slots |
| `Dictionary.SetTells` | README.md:111-113 | the reply to a lookup after an operation on a set follows from the reply before it: unchanged for other keys, the old element after an insertion that found one, the new one after another, nothing after a deletion |
| `Dictionary.ListIsSet` | README.md:91-102 | a list of different elements does what the set of them does |
| `Dictionary.DenseTells` | README.md:111-113 | the same laws hold of ihtab, by its replies alone |
| `Dictionary.DenseRunIsSet` | README.md:91-102 | every run of ihtab gives the replies of the set |
| `Dictionary.IxTells` | README.md:111-113 | the same laws hold of ixhtab, of every operation on a sound table that splits no bin or whose split is harmless |
| `Extendible.RoundWeak` | ixhtab.h:200-236 | a round of a split keeps the directory well formed, capacities in range and elements within each bin pairwise different |
| `Extendible.SplitWeak` | ixhtab.h:197-249 | so does a split of any number of rounds, whatever the hashes |
| `Extendible.SplitRoom` | ixhtab.h:218-244 | a split that ends leaves room in both partners and changes no other bin |
| `Extendible.SplitRoute` | ixhtab.h:297 | a hash that was routed to the split bin is routed to one of the two partners |
| `Extendible.CompactedOk` | ixhtab.h:286-322 | compaction leaves room: in twice the array, or because fewer elements in the table than entries in the bin force a deleted entry in it |
| `Extendible.RoomyOk` | ixhtab.h:285-325 | whichever branch makes room, the bin that the key is then routed to has some |
| `Extendible.ActedWeak` | ixhtab.h:154-195 | `do_1` keeps the table well formed and the element count in step with the live elements |
| `Directory.OneRound` | ixhtab.h:237-243 | a split ends after one round if and only if H2 holds |
| `Directory.RoundNames` | ixhtab.h:206-217 | under H1 every entry names a bin exactly when its low bits are the bin's mask |
| `Directory.RoundConserves` | ixhtab.h:221-236 | the first round keeps the number of live elements |
| `Directory.SplitKeepsStrong` | ixhtab.h:197-249 | a split that meets H1 and H2 keeps the invariant of extendible hashing |
| `Directory.StrongIffH1H2` | ixhtab.h:197-249 | a split that ends keeps the invariant, and the exact directory, if and only if H1 and H2 hold before it |
| `Directory.ShallowBinBreaks` | ixhtab.h:216-217 | without H1 an entry that should name the new bin names the old one |
| `Directory.LeftBehind` | ixhtab.h:207-215 | after the split of a bin as deep as the directory, exactly the bins that were as deep still meet H1 |
| `Directory.StrayToTheEnd` | ixhtab.h:237-243 | an entry that went astray in one round is astray when the split ends |
| `Directory.StaleEntries` | ixhtab.h:206-217 | after one round the entries that should name the new bin and do not are all its entries but the one written, 2^(directory depth - depth) - 1 of them: none if and only if H1 held |
| `Directory.StrongReached` | ixhtab.h:280-283 | in a sound table every live element lies in the bin that its directory entry names |
| `SplitLoop.NeverExits` | ixhtab.h:237-243 | the loop never ends when the live elements agree in all remaining hash bits, as fewer than two elements do |
| `SplitLosses.ExitsIffEndsIn` | ixhtab.h:200-244 | for any bitmap: the loop ends in exactly k rounds if and only if the k-th is the first in which the elements it moves differ, given which of them each round still moves |
| `SplitLosses.SplitLeaves` | ixhtab.h:221-244 | what the two bins hold when a split has ended, for any bitmap and any exchange of the two bins between rounds |
| `SplitLosses.LeftIffSpared` | ixhtab.h:222-223 | the rounds drop no element if and only if the bitmap marks none of the first entries, or the elements leave the bin in the first round and stay away until they are told apart; they then number as many as that bit asks for |
| `SplitRoutes.SplitFollows` | ixhtab.h:205-217 | the bin in which an element ends, by the parity of its hash bits, the mask of that bin, and where the directory sends it |
| `SplitRoutes.SplitElsewhere` | ixhtab.h:216-217 | a hash sent to another bin before the split is sent there after it if and only if no round writes its entry |
| `SplitExact.SplitLoses` | ixhtab.h:222-223 | exactly which elements a split of any number of rounds loses |
| `SplitExact.ContentsIffSpared` | ixhtab.h:222-223 | a split loses no element if and only if the bin is spared |
| `SplitExact.ReachedIffFit` | ixhtab.h:216-217 | all elements that a split of any number of rounds keeps can be found if and only if those of the split bin fit and those of the other bins are undisturbed |
| `SplitExact.KeepsIffHarmless` | ixhtab.h:197-249 | a split of a sound table keeps all elements and all of them in reach if and only if it is harmless |
| `SplitExact.H1IsHarmless` | ixhtab.h:197-249 | under the invariant and H1 a split is harmless that ends after one round or whose bin has no deleted entry |
| `SplitExact.CleanSplit` | ixhtab.h:200-244 | for a bin without deleted entries: the split ends if and only if two hashes differ from the bin's depth on, in one round per bit up to the first such bit; it keeps all elements, in order by that bit; under the invariant and H1 every element of the table can be found |
| `IxRuns.ApplyWeak` | ixhtab.h:278-327 | every operation, with or without H1 and H2, keeps the directory full of names of bins, the capacities powers of two from 8 to 2^14, and the elements of a bin pairwise different |
| `IxRuns.FindIsPresent` | ixhtab.h:280-283 | in a sound table looking in the routed bin is looking in the whole table |
| `IxRuns.ApplyPrepared` | ixhtab.h:278-327 | once the table has room and is sound, an operation does what the set does and the table stays sound |
| `IxRuns.ApplyWithoutSplit` | ixhtab.h:278-327 | an operation that splits no bin is the set operation and keeps a sound table sound, whatever became of the directory before |
| `IxRuns.PreparedStrong` | ixhtab.h:285-325 | making room under H1 and H2 keeps the invariant and the contents |
| `IxRuns.ApplyIsSet` | ixhtab.h:278-327 | one operation under H1 and H2 is the set operation and keeps the invariant |
| `IxRuns.CreatedStrong` | ixhtab.h:251-270 | a new table is sound and empty |
| `IxExact.SetIffHarmless` | ixhtab.h:278-327 | from any sound table an operation is the set operation and leaves a sound table if and only if it splits no bin or its split is harmless |
| `IxExact.StaysSetIffHarmless` | ixhtab.h:278-327 | a run whose splits end, from a sound table, is a run of the set with every element in reach throughout if and only if all its splits are harmless |
| `IxExact.StaysSetRuns` | ixhtab.h:278-327 | such a run gives the replies of the set and ends with its elements |
| `IxExact.StrongIffPlain` | ixhtab.h:278-327 | an operation keeps the invariant of extendible hashing if and only if it splits no bin or one that meets H1 and H2 |
| `IxExact.StaysStrongIffPlain` | ixhtab.h:278-327 | a run whose splits end, from a table with the invariant, keeps it throughout if and only if all its splits meet H1 and H2 |
| `IxExact.RunIsSet` | ixhtab.h:278-327 | a run whose splits meet H1 and H2, from a table with the invariant, is a run of the set and keeps the invariant |
| `IxSizes.CreatedFullSized` | ixhtab.h:84-93 | a new table has several bins only if each has capacity 2^14 |
| `IxSizes.ApplyFullSized` | ixhtab.h:286-308 | an operation keeps all capacities at 2^14 if there are several bins |
| `IxSizes.RunFullSized` | ixhtab.h:286-308 | so does a whole run |
| `IxRoom.RoomIffFull` | ixhtab.h:286-308 | an insertion makes room if and only if its bin is full: it then adds a bin, or doubles that bin, if and only if the table holds at least as many elements as the bin has room for, and otherwise leaves no deleted entry in it; no other bin changes |
| `IxRoom.SmallIsSet` | ixhtab.h:286-324 | from a sound table of fewer than 2^14 elements every operation is the set operation and leaves a sound table, whatever the hashes are |
| `IxRoom.SmallRunIsSet` | ixhtab.h:278-327 | every run that finds fewer than 2^14 elements at each insertion ends and is a run of the set with every element in reach throughout, for every hash |
| `IxRoom.SoundSize` | ixhtab.h:329-331 | the element count of a sound table is the size of the set |
| `IxRoom.NoRoomMade` | ixhtab.h:286-289 | while a run has added fewer elements than every bin has room for, no insertion makes room, every new element gets an entry and none is removed |
| `IxRoom.FirstElements` | ixhtab.h:251-270 | a new table with room for a number of elements takes as many, up to 2^14, before an insertion makes room |
| `IxRoom.CreatedCapacity` | ixhtab.h:263-269 | the capacities of the bins of a new table add up to the number of bins times the capacity asked for |
| `IxRoom.WhereElementsLie` | ixhtab.h:280-283 | every element of a sound table lies in the bin that the directory names at its hash modulo the size of the directory, where hash 0 counts as 1 |
| `IxRoom.FirstGoesTo` | ixhtab.h:280-283 | the first element of a new table of several bins lies in the bin of its hash, and in bin 1 if that is 0 |
| `Counterexample.EightIsLost` | ixhtab.h:222-223 | a program on a new table after which a lookup of 8 fails though the set has it: the last split meets H1 and not H2 |
| `StaleRoute.SevenIsLost` | ixhtab.h:216-217 | a program on a new table after which a lookup of 7 fails though the set has it: the last split does not meet H1 |
| `Distribution.ReadEntry` | ixhtab.h:222-224 | the entry read is the one the bin held before the round: the writes have not reached it |
| `Distribution.MoveEntry` | ixhtab.h:222-235 | one element goes to the bin that its hash bit selects, in order, and to no other |
| `Distribution.Distribute` | ixhtab.h:221-235 | the loop over the entries: both bins hold their sides of the elements, and the flags say which received one |
| `Ixhtab.Params` | ixhtab.h:84-93 | 2^p bins of fewer than 2^15 elements, and of 2^14 if there are several, that hold the size exactly |
| `Ixhtab.Sizes` | ixhtab.h:251-259 | room for the requested number of elements, with no more bins or capacity than needed |
| `Ixhtab.Table.constructor` | ixhtab.h:251-270 | the new table is `IxRuns.Created` of those sizes, with a hash of 0 read as 1; the capacities of its bins add up to at least the requested size, and to less than twice that or to eight |
| `Ixhtab.Table.SplitFields` | ixhtab.h:205-217 | depths, masks and directory after a round, with its one written entry |
| `Ixhtab.Table.SplitRound` | ixhtab.h:200-236 | one round is `Extendible.Round` |
| `Ixhtab.Table.SplitOnce` | ixhtab.h:200-243 | a round and its decision: whether the loop ends, and which bin is split next |
| `Ixhtab.Table.SplitBin` | ixhtab.h:197-249 | the whole split, for any number of rounds, is `Extendible.Split`, and both bitmaps are clear after it |
| `Ixhtab.Table.CompactBin` | ixhtab.h:299-323 | the other branch is `Extendible.Compacted` |
| `Ixhtab.Table.MakeRoom` | ixhtab.h:286-324 | which branch is taken, and the table after it, which `IxRoom.RoomIffFull` describes |
| `Ixhtab.Table.Lookup` | ixhtab.h:282-283 | the directory entry of the hash, always in range |
| `Ixhtab.Table.Perform` | ixhtab.h:278-327 | the reply and the table are those of `IxRuns.Performed`, with or without H1 and H2, if a split that is needed ends |
| `Ixhtab.Table.Store` | README.md:111-113 | the write makes the table whole again |
| `Ixhtab.Table.Apply` | README.md:91-102 | one operation with its write is `IxRuns.Apply` |
| `Ixhtab.Table.Run` | README.md:81-108 | a whole program whose splits end is the run of the pure machine; on a sound table whose splits are harmless it is the set program, and on one with the invariant whose splits meet H1 and H2 it also keeps the invariant |
| `Ixhtab.Table.RunSmall` | README.md:81-108 | a whole program on a sound table that has fewer than 2^14 elements at each insertion is the set program, with nothing asked of the hashes or the splits |
| `Ixhtab.Table.Count` | ixhtab.h:329-331 | the size of the set, if the table is sound |
| `Ixhtab.Table.Advance` | ixhtab.h:333-348 | the first live entry from a position on, across bins, with none skipped |
| `Ixhtab.Table.Traverse` | ixhtab.h:350-366 | a whole iteration yields the live elements, bin after bin |
| `IxIteration.ListedIsContents` | ixhtab.h:333-366 | those are the elements of the table, each once |
| `IxIteration.ListedAt` | ixhtab.h:333-366 | an element is visited after all elements of the bins before its own and after those before it in its bin |
| `Vmum.PartialProducts` | vmum.h:130-135 | the four 32-bit products make up the product and fit in 64 bits |
| `Vmum.PortableIsMul` | vmum.h:121-151 | with the carries the two words are the product, and their sum is that of the 128-bit form |
| `Vmum.WithoutCarries` | vmum.h:138-150 | without them the sum is short by exactly the number of carries, at most two; the forms agree if and only if there are none |
| `Vmum.TwoCarries` | vmum.h:138-150 | two carries occur |
| `Vmum.FormsAgree` | vmum.h:121-151 | with carries the multiplication gives the same on targets with and without 128-bit integers; without them it does if and only if there are no carries |
| `VmumLaws.MulResidue` | vmum.h:121-151 | modulo 2^64 - 1 the multiplication is that of integers, less the carry out of the sum of the two words |
| `VmumHash.UpdateBlock` | vmum.h:321-328 | the four lanes after 64 bytes, each of which is read once |
| `VmumHash.BlockPass` | vmum.h:373-376 | the lanes after a block of 512 bytes |
| `VmumHash.Blocks` | vmum.h:367-382 | the state after all whole blocks is that given by position |
| `VmumHash.Pairs` | vmum.h:386-398 | the unrolled and the pair loop: words mixed by xor in whole groups of sixteen and by addition after them, each read once |
| `VmumHash.Leftover` | vmum.h:431-453 | the pieces of one to seven bytes add up to their little-endian value |
| `VmumHash.TailOf` | vmum.h:399-457 | all cases of the tail switch: the first eight bytes if there are more than eight, and the little-endian value of the rest added to its factor |
| `VmumHash.HashAligned` | vmum.h:360-457 | with any form of the multiplication the hash is the one defined by position, and the loads made cover every byte of the key exactly once and no other |
| `VmumHash.HashIsPortable` | vmum.h:360-457 | with carries the hash of every key is the same on targets with and without 128-bit integers |
| `VmumLaws.ValIsPartial` | vmum.h:317-320 | the block multiplication is the sum of the low and the high partial product; by 1 it gives the low half, by 2^32 the high half |
| `VmumLaws.MixedIsNotZero` | vmum.h:199-213 | mixing a word with a factor that is not 0 never gives 0; it is the xor, or the sum, unless that is 0 |
| `VmumLaws.LeDigits` | vmum.h:169-197 | the digits of a load to the base 256 are the bytes of the key, in order |
| `VmumLaws.EmptyKey` | vmum.h:365-366 | the hash of the empty key |
| `VmumLaws.TailLaw` | vmum.h:399-457 | the last one to fifteen bytes of any key xor one product, given from their value, to the hash of the key without them |
| `VmumLaws.ShortHash` | vmum.h:399-457 | the closed form of the hash of every key shorter than sixteen bytes, from the value of its bytes |
| `VmumLaws.OthersUnused` | vmum.h:399-457 | the hash of a short key depends on no factor but the one or two that its length selects |
| `VmumLaws.UsedMatter` | vmum.h:399-457 | on each of those it does depend |
| `VmumLaws.UsedDiffer` | vmum.h:399-457 | keys of different lengths use different factors |
| `VmumLaws.WholeWords` | vmum.h:432 | the hash of a key of whole words does not depend on the tail factor |
| `VmumLaws.PairLaw` | vmum.h:392-397 | the last pair of words that completes no group is mixed with its factors by addition, and their product xored to the hash of the key without it |
| `VmumLaws.GroupLaw` | vmum.h:386-391 | the last group of eight pairs is mixed by xor |
| `VmumLaws.RestLaw` | vmum.h:382-398 | the bytes after the blocks change the hash as they change that of the empty key |
| `VmumLaws.BlocksHash` | vmum.h:366-383 | the hash of a key of whole blocks is the sum of the start and of the xor of four lanes |
| `VmumLaws.BlockLaw` | vmum.h:370-381 | one more block xors eight products to each lane, which is then multiplied by its own factor |

## Left out

- Allocation, alignment, `iht_destroy`, `ixht_destroy` and running out of memory: arrays are allocated fresh.
- The interleaved layout of a group: tags and indexes are two arrays, as in `ihtab-v0.h`, since only the address arithmetic differs.
- The SSE2 and NEON instructions as such: each is modelled by what it does to every byte.
- Wrap-around of the counters and sizes: at each insertion an `ihtab` must hold fewer entries than its 32-bit index can name, which in the earlier version is one fewer than 2^32; that `ixhtab` never outgrows its 16-bit index is proved.  Depths below 64 and directories below 2^32 entries are taken for granted.
- `ihtab.hpp`, `ixhtab.hpp`, `ihtab-v0.hpp`, `ixhtab-v0.h` and `ixhtab-v0.hpp`: twins of the modelled headers.
- `els_start` of a bin, which is always 0.
- Depths and masks of the bins of an `ixhtab` are kept beside the bins, and the directory is a sequence that is reassigned: they are not updated through pointers.
- Ixhtab.Table.Perform: says nothing of an insertion whose split never ends; `SplitLoop.NeverExits` and `SplitLosses.ExitsIffEndsIn` say when that is.
- An amortised bound for `ixhtab`: none holds, because a compaction that does not grow may free a single entry.
- `vmum_hash_randomize`, the statistical quality of the hash, the vector forms of the block update, whose zero handling differs from the scalar form, and `_vmum_hash_default`, which copies an unaligned key block by block.
- VmumHash.HashAligned: loads are little-endian, as on a little-endian target or with a hash that must not depend on the target.  That the log holds every load is kept by `Read`, through which all of them go, and not by this contract.
- The benchmarks and the copies of other libraries below `benchmarks/`.
