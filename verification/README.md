# Verification of LC-clibs

This project models the core of LC-clibs in Dafny and proves properties of the model. The layers build on one
another, and each is modelled against the specification of the layer below it.

* **Byte codec and cursor buffer** (`Bits`, `Bytes`, `VarInt`, `Typdex`, `CodecBits`, `DyBufs`, `Codec`,
  `BufferPieces`, `DyPkt`). The buffer is a class over a byte array with mark, position, limit and capacity. The bit
  expressions of the codec are written out with `BitOr`, `BitAnd`, `BitXor`, `Shl` and `Shr` and turned into arithmetic.
  The variable-length integer is a prefix code of nine bands: round trip, prefix freedom, numeric order, and exactly
  which byte strings are canonical.
* **Hash table** (`HashLists`, `HashTables`, `Merging`, `HashSorts`, `StableSorts`, `HashRuns`). Handles with `prev`,
  `next`, `hh_prev` and `hh_next` links, an array of buckets, doubling, ordered insertion, deletion and the merge sort
  on the links. The invariant `HashTable.Valid` is stronger than what `HASH_FSCK` checks. Over any run of operations, sorts
  among them, and for any hash function, the table answers like a finite map and lists like a plain sequence.
* **Comparison and maps** (`Comparison`, `Maps`, `MapTables`). `compare_mmobjs` as a total order on nested values,
  obtained by spelling every value as a word whose dictionary order is the order of values. Sorted maps are canonical.
* **Serializer** (`ObjectGraph`, `Records`, `Machines`, `Packing`, `PackRun`, `PackMeaning`, `PackProperties`,
  `Packers`, `Unpacking`, `MapCopying`, `Unpackers`, `RoundTrips`). The packer (numbering tables, nesting level,
  worklist), the first phase of the unpacker (a stack machine over the bytes) and its second phase (objects built on
  demand). The main theorem, `RoundTrips.PackAndUnpack`, says that packing any roots and unpacking them again copies
  exactly what is reachable from the roots, one object for one object, with sharing and cycles; maps are rebuilt entry
  by entry. The copy is isomorphic if and only if rebuilding keeps every map, which it does if and only if the map is
  unsorted or its stored order is ascending (`ObjectGraph.SettledExactly`). Its graph `g` is any closed set of objects
  that holds the roots, for instance just the reachable ones.
* **Managed pool** (`Ownership`, `ManagedPools`, `PoolLeaks`). Reference counts equal external holds plus owned
  references, across cascades of destroy callbacks and the batched sweep. What a release or a sweep leaves is exactly
  the largest set of blocks that is held outside, not yet due, or owned from within itself.
* **Class ring** (`ClassRing`). Casts, virtual lookup and parent lookup on the circular chain of bases.

Some results are about where the code does not do what one might expect:

* `Comparison.IntSignIsRightExactlyInRange`, `Comparison.LongSignIsRightExactlyInRange`: the number comparators give
  the right sign exactly when the difference does not overflow.
* `Comparison.SwapsExactly`: swapping the arguments swaps the sign of a comparison exactly when the first place where
  the values differ does not hold two numbers, or two sizes, half the range apart;
  `Comparison.OverflowBreaksAntisymmetry` is such a pair. A result of 0 means equal in any case
  (`Comparison.ZeroOnlyOnEqualValues`).
* `Maps.RebuiltExactly`: adding a map's items again in their stored order gives the map back exactly when it is
  unsorted or that order is ascending; `Maps.NotRebuilt` is a sorted map with three integer keys that comes back in
  another order.
* `ClassRing.ParentLookupIsRightExactly`: `__get_parent_function_for_mmobj` on the root base wraps around to the last
  child and returns that class's own function (`ClassRing.ParentOfRoot`); it is right exactly on the other bases, and
  for names that no base has registered.
* `RoundTrips.ListsWithoutNullsAreCopied`: null items of a list are counted in the array's length but not written, so
  a list is copied item by item exactly when it holds none.
* `VarInt.Canonical`: a nine-byte varint whose payload wraps past 2^64 decodes, but not to a value it encodes.
* `BufferPieces.ShortRoundTripsExactly`: blocks with a one-byte or two-byte length survive exactly when they are
  shorter than 256 or 65536 bytes.
* `PoolLeaks.SweepKeepsReachable`: the sweep leaves exactly what is reachable from outside if and only if no
  unreachable blocks own each other in a cycle; those stay (`PoolLeaks.CyclesLeak`).

## Model

| member | source | states |
|---|---|---|
| VarInt.BiasTable | dybuf/dybuf.h:947-1009 | the nine bands of the varint begin where the code's constants say and tile all 64-bit values |
| VarInt.RoundTrip | dybuf/dybuf.h:947-1009 | decoding an encoding gives the value and takes exactly its bytes inside any stream |
| VarInt.PrefixFree | dybuf/dybuf.h:947-983 | no encoding is a prefix of another |
| VarInt.OrderPreserving | dybuf/dybuf.h:947-983 | dictionary order of encodings is numeric order |
| VarInt.Canonical | dybuf/dybuf.h:987-1009 | a decodable string is the encoding of its value if and only if it is not a nine-byte form whose payload wraps |
| VarInt.ZigZagBijective | dybuf/dybuf.h:1012-1022 | zig-zag is a bijection between signed and unsigned 64-bit values |
| VarInt.ZigZagWordIsZigZag | dybuf/dybuf.h:1012-1016 | the shift-and-xor expression of the writer computes zig-zag |
| VarInt.UnZigZagWordIsUnZigZag | dybuf/dybuf.h:1018-1022 | the reader's expression computes its inverse as a 64-bit word |
| Codec.AppendVarU64 | dybuf/dybuf.h:947-983 | the branches with their marks and offsets append the encoding; all other bytes stay |
| Codec.NextVarU64 | dybuf/dybuf.h:987-1009 | the branches on the leading bits return what the decoder says and move the cursor by its size |
| Codec.AppendVarS64 | dybuf/dybuf.h:1012-1016 | appends the encoding of the folded value |
| Codec.NextVarS64 | dybuf/dybuf.h:1018-1022 | returns the unfolded value of the next varint |
| Typdex.ShortestIsMinimal | dybuf/dybuf.h:872-887 | a header is written in no more bytes than any form that fits |
| Typdex.EncodableHeaders | dybuf/dybuf.h:872-887 | something is written exactly for types up to 0xFF with indices up to 0xFFFFF |
| Typdex.HeaderRoundTrip | dybuf/dybuf.h:872-916 | reading a written header returns the pair and takes exactly its bytes |
| Typdex.HeaderBytes | dybuf/dybuf.h:872-887 | the bytes of the four forms, bit by bit |
| Typdex.UnknownForm | dybuf/dybuf.h:889-916 | a first byte that announces no form is reported as the type, and nothing is consumed |
| Codec.AppendTypdex | dybuf/dybuf.h:872-887 | appends the shortest form, or nothing for a pair out of range |
| Codec.NextTypdex | dybuf/dybuf.h:889-916 | reads the pair and moves by the length of its form |
| Codec.PeekTypdex | dybuf/dybuf.h:918-944 | reads the same pair without moving the cursor |
| DyBufs.DyBuf.Create | dybuf/dybuf.h:186-210 | a growable buffer of at least the unit size with nothing written or pending |
| DyBufs.DyBuf.Refer | dybuf/dybuf.h:145-184 | a buffer over outside memory whose whole contents are pending when opened for reading |
| DyBufs.DyBuf.SetCapacity | dybuf/dybuf.h:268-297 | resizing keeps the bytes that fit and cuts the three marks back |
| DyBufs.DyBuf.SetPosition | dybuf/dybuf.h:304-319 | the cursor moves within the limit only, and mark stays at or before it |
| DyBufs.DyBuf.SetLimit | dybuf/dybuf.h:326-352 | the limit grows the capacity when it may, and pulls mark and position back |
| DyBufs.DyBuf.Compact | dybuf/dybuf.h:354-363 | what was pending is pending from position 0 |
| DyBufs.DyBuf.Flip | dybuf/dybuf.h:416-427 | what was written becomes what is pending |
| DyBufs.DyBuf.Rewind | dybuf/dybuf.h:429-436 | everything up to the limit is pending again |
| DyBufs.DyBuf.Clear | dybuf/dybuf.h:401-414 | the whole capacity lies between the cursor and the limit |
| DyBufs.DyBuf.SetMark | dybuf/dybuf.h:378-387 | the mark is where the cursor is |
| DyBufs.DyBuf.Reset | dybuf/dybuf.h:389-399 | the cursor goes back to the mark |
| DyBufs.DyBuf.Reserve | dybuf/dybuf.h:680-684 | room for an append: the limit and, if need be, the capacity grow, and all bytes stay |
| DyBufs.DyBuf.AppendBool | dybuf/dybuf.h:671-678 | appends a byte 1 or 0 |
| DyBufs.DyBuf.NextBool | dybuf/dybuf.h:438-441 | returns whether the next byte is not 0, and consumes it |
| DyBufs.DyBuf.AppendBlock | dybuf/dybuf.h:829-841 | the bytes are written at the cursor; all before it and all behind the new position up to the old limit stays, also across a reallocation |
| DyBufs.DyBuf.AppendU8 | dybuf/dybuf.h:680-687 | appends the one low byte, most significant first |
| DyBufs.DyBuf.AppendU16 | dybuf/dybuf.h:689-697 | appends the two low bytes, most significant first |
| DyBufs.DyBuf.AppendU32 | dybuf/dybuf.h:711-721 | appends the four low bytes, most significant first |
| DyBufs.DyBuf.AppendU40 | dybuf/dybuf.h:723-738 | appends the five low bytes, most significant first |
| DyBufs.DyBuf.AppendU48 | dybuf/dybuf.h:740-755 | appends the six low bytes, most significant first |
| DyBufs.DyBuf.AppendU24 | dybuf/dybuf.h:699-709 | appends the three low bytes, most significant first |
| DyBufs.DyBuf.AppendU56 | dybuf/dybuf.h:757-773 | appends the seven low bytes, most significant first |
| DyBufs.DyBuf.AppendU64 | dybuf/dybuf.h:775-790 | appends the eight bytes, most significant first |
| DyBufs.DyBuf.NextU8 | dybuf/dybuf.h:448-451 | returns the number in the next byte and consumes them |
| DyBufs.DyBuf.NextU16 | dybuf/dybuf.h:458-464 | returns the number in the next two bytes and consumes them |
| DyBufs.DyBuf.NextU24 | dybuf/dybuf.h:474-481 | returns the number in the next three bytes and consumes them |
| DyBufs.DyBuf.NextU40 | dybuf/dybuf.h:512-521 | returns the number in the next five bytes and consumes them |
| DyBufs.DyBuf.NextU48 | dybuf/dybuf.h:534-544 | returns the number in the next six bytes and consumes them |
| DyBufs.DyBuf.NextU56 | dybuf/dybuf.h:558-569 | returns the number in the next seven bytes and consumes them |
| DyBufs.DyBuf.NextU32 | dybuf/dybuf.h:492-500 | returns the number in the next four bytes and consumes them |
| DyBufs.DyBuf.NextU64 | dybuf/dybuf.h:585-597 | returns the number in the next eight bytes and consumes them |
| DyBufs.DyBuf.PeekU8 | dybuf/dybuf.h:453-456 | returns the number in the next byte and moves nothing |
| DyBufs.DyBuf.PeekU16 | dybuf/dybuf.h:466-472 | returns the number in the next two bytes and moves nothing |
| DyBufs.DyBuf.PeekU24 | dybuf/dybuf.h:483-490 | returns the number in the next three bytes and moves nothing |
| DyBufs.DyBuf.PeekU32 | dybuf/dybuf.h:502-510 | returns the number in the next four bytes and moves nothing |
| Codec.AppendDataWithoutLen | dybuf/dybuf.h:829-841 | appends exactly the bytes given |
| Codec.NextDataWithoutLen | dybuf/dybuf.h:644-654 | the next bytes, or null without moving for a length of 0 or one beyond the limit |
| Codec.AppendDataWithVarLen | dybuf/dybuf.h:1050-1056 | appends the block behind its varint length |
| Codec.NextDataWithVarLen | dybuf/dybuf.h:1058-1063 | on any bytes that begin with a length, returns and consumes what the block decoder says: null for an empty block or one that runs past the limit, and then only the length is consumed |
| Codec.BlockRoundTrip | dybuf/dybuf.h:1050-1063 | decoding a written block gives the data and takes exactly its bytes inside any stream |
| Codec.AppendStringWithVarLen | dybuf/dybuf.h:1066-1073 | appends the string with its terminator as a block |
| Codec.NextStringWithVarLen | dybuf/dybuf.h:1075-1080 | the same, with the length of the string without its terminator, which wraps around for an announced length of 0 |
| Codec.NextText | dybuf/dybuf.h:1066-1080 | reading a written string gives it back and consumes exactly it |
| BufferPieces.ShortReadsCut | dybuf/dybuf.h:614-642 | reading a block with a short length gives the data up to the cut length |
| BufferPieces.ShortRoundTripsExactly | dybuf/dybuf.h:792-827 | such a block survives if and only if its length fits the length field |
| BufferPieces.AppendDataWith1ByteLen | dybuf/dybuf.h:792-808 | appends one length byte and that many bytes |
| BufferPieces.AppendDataWith2BytesLen | dybuf/dybuf.h:810-827 | appends two length bytes and that many bytes |
| BufferPieces.NextDataWith1ByteLen | dybuf/dybuf.h:614-626 | returns and consumes what the short decoder says |
| BufferPieces.NextDataWith2BytesLen | dybuf/dybuf.h:628-642 | returns and consumes what the short decoder says |
| BufferPieces.WriteThenRead | dybuf/dybuf.h:438-841 | any interleaving of integers of 1 to 8 bytes and length-prefixed blocks reads back as written, in order |
| DyPkt.AppendItem | dybuf/dypkt.h:104-181 | an item is appended as its header and payload |
| DyPkt.NextItem | dybuf/dypkt.h:187-266 | peeking the type and calling its reader returns the item written and consumes exactly it |
| DyPkt.ReadAll | dybuf/README.md:53-94 | the peek-then-read loop gives back the items written, in order, up to the first end item, behind which everything is still pending; without an end item it gives back all and uses the stream up |
| DyPkt.ItemBytes | dybuf/dypkt.h:104-181 | the bytes of each kind of item, with its type number |
| DyPkt.StreamsAreUnambiguous | dybuf/dypkt.h:104-181 | two lists of items with the same bytes are the same list |
| HashLists.AppendToList | platform/uthash.h:253-259 | linking an item behind the tail keeps both directions of the list consistent |
| HashLists.InsertIntoList | platform/uthash.h:301-310 | linking an item before another keeps both directions and the head consistent |
| HashLists.RemoveFromList | platform/uthash.h:400-412 | unlinking an item keeps both directions, head and tail consistent |
| HashLists.AddToChain | platform/uthash.h:781-790 | an item put in front of a bucket's chain leaves it doubly linked |
| HashLists.RemoveFromChain | platform/uthash.h:798-811 | an item taken out of a bucket's chain leaves it doubly linked |
| HashTables.HashTable.Find | platform/uthash.h:142-159 | an item with the key is found if and only if the table holds one |
| HashTables.HashTable.MakeTable | platform/uthash.h:197-217 | a new table of 32 empty buckets, with no expansion counted |
| HashTables.HashTable.Add | platform/uthash.h:334-355 | the item becomes the last in order, and the whole invariant is kept |
| HashTables.HashTable.AddInOrder | platform/uthash.h:286-318 | the item goes before the first greater one, and the whole invariant is kept |
| HashTables.HashTable.Delete | platform/uthash.h:390-417 | exactly that item leaves order and index, and the whole invariant is kept |
| HashTables.ToBucket | platform/uthash.h:370-373 | masking with the bucket count less one gives the remainder |
| HashTables.PushIntoBucket | platform/uthash.h:781-790 | a bucket's chain grows in front, its count by one, and all other buckets stay correct |
| HashTables.PullFromBucket | platform/uthash.h:798-811 | a bucket's chain loses the item, its count one, and all other buckets stay correct |
| HashTables.HashTable.FirstGreater | platform/uthash.h:261-273 | the loop stops at the first greater item |
| HashTables.HashTable.LinkInOrder | platform/uthash.h:286-312 | the new item is linked before the first greater one, or last |
| HashTables.HashTable.AddToBucket | platform/uthash.h:781-796 | the buckets are doubled if and only if expansion is not switched off and the bucket's count plus one is at least ten times its multiplier plus one; otherwise the item is in front of its chain and nothing else changes |
| HashTables.HashTable.ExpandBuckets | platform/uthash.h:842-889 | every item stays indexed, old bucket b is split into b and b+n only, the bucket count doubles, the ideal length times the buckets is the least such product that reaches the items, a longer bucket's multiplier says how often the ideal length fits into it, the nonideal items are the sum of what exceeds it |
| HashTables.ExcessPush | platform/uthash.h:863-866 | one more item in a chain adds one to the nonideal items exactly when the chain then exceeds the ideal length |
| HashTables.MoveChain | platform/uthash.h:859-877 | the inner loop moves one old chain item by item to the new buckets |
| HashTables.MoveAll | platform/uthash.h:859-878 | moving all chains leaves every item in the new bucket of its hash value; a bucket longer than ideal has the multiplier that fits, another has 0 |
| HashTables.IdealLength | platform/uthash.h:855-857 | shift and mask give the least length that, times twice the buckets, reaches the items |
| HashTables.IndexOfDouble | platform/uthash.h:370-373 | a hash value's bucket among 2n is its bucket among n, or that plus n |
| HashTables.PlacedTwice | platform/uthash.h:842-889 | placed items before and after doubling make each old chain the union of two new ones |
| HashTables.CountsAddUp | platform/uthash.h:447-494 | the bucket counts are the chain lengths and add up to the number of items |
| HashRuns.RemoveKey | platform/uthash.h:390-417 | finding and deleting takes out the one entry with the key, if there is one |
| HashRuns.ReplaceKey | platform/uthash.h:219-237 | a replacement puts the new entry last or in order and takes out the old one |
| HashRuns.Apply | platform/uthash.h:219-237 | a replace, deletion, lookup or sort changes the entries as on a plain sequence and answers what the sequence holds |
| HashRuns.SortEntries | platform/uthash.h:891-978 | a sort leaves the entries as if all had been inserted in order into an empty table, one after the other |
| HashRuns.Replay | platform/uthash.h:142-417 | over any run of replaces, deletions, lookups and sorts and any hash function, answers are those of a plain finite map and the order is that of a plain sequence |
| HashRuns.EntriesMeanMap | platform/uthash.h:142-417 | after any run the plain sequence and the plain map hold the same entries, each key once |
| Merging.PassDoublesRuns | platform/uthash.h:896-978 | a pass of width w on sorted runs of w leaves sorted runs of 2w |
| Merging.PassesSort | platform/uthash.h:896-978 | the passes end with a sorted list |
| Merging.PassesPermute | platform/uthash.h:896-978 | the passes permute the list, whatever the comparison |
| Merging.PassesStable | platform/uthash.h:896-978 | items that tie keep their order |
| Merging.SortSorts | platform/uthash.h:891-978 | for a total preorder the sort is a sorted, stable permutation |
| StableSorts.StableSortIsUnique | platform/uthash.h:891-978 | two sorted lists with the same tied items in the same order are the same list |
| StableSorts.SortIsInsertionSort | platform/uthash.h:891-978 | the merge sort gives the list that ordered insertion of its items gives |
| HashSorts.MergeRuns | platform/uthash.h:920-963 | the inner loop merges two neighbouring runs on the links and leaves the rest of the list alone |
| HashSorts.StepOver | platform/uthash.h:912-919 | counting off a run gives its length and the item behind it |
| HashSorts.MergePair | platform/uthash.h:910-964 | counting off two runs and merging them advances the pass by both |
| HashSorts.OnePass | platform/uthash.h:905-975 | one pass relinks the list as the pass on the sequence, and counts its merges |
| HashSorts.SortList | platform/uthash.h:896-978 | doubling the width until one merge is made sorts the list |
| HashSorts.SortTable | platform/uthash.h:896-978 | the list becomes the sorted stable permutation with head and tail consistent and the index untouched |
| Comparison.CompareMmobjs | mmo/mmo.h:590-610 | dispatch on the classes computes the comparison of values |
| Comparison.CompareForMMList | mmo/mmo_ext.h:862-876 | the loop compares lists by length, then item by item |
| Comparison.CompareForMMMap | mmo/mmo_ext.h:741-764 | the loop over two item lists compares maps by size, then keys and values in order |
| Comparison.CompareForMMMapItem | mmo/mmo_ext.h:605-611 | items compare by key, then by value |
| Comparison.CompareDecides | mmo/mmo.h:590-610 | the comparison has the sign of the dictionary order of the values' words, by mutual induction over nesting |
| Comparison.FirstItemsThatDiffer | mmo/mmo_ext.h:862-876 | lists of one length compare as their first items that differ |
| Comparison.FirstEntriesThatDiffer | mmo/mmo_ext.h:741-764 | maps of one size compare as their first entries that differ, by key and then by value |
| Comparison.ShorterIsLess | mmo/mmo_ext.h:741-764 | sizes are compared first |
| Comparison.ZeroOnlyOnEqualValues | mmo/mmo.h:566-573 | the comparison is zero exactly on equal values, whatever differences overflow |
| Comparison.Antisymmetric | mmo/mmo.h:566-573 | swapping the arguments swaps the sign |
| Comparison.Transitive | mmo/mmo.h:566-573 | the comparison is transitive |
| Comparison.DataIsLexicographic | mmo/mmo_ext.h:501-516 | blocks compare by their common part, then by length, which is dictionary order |
| Comparison.SelfCompare | mmo/mmo.h:590-610 | every value compares as equal to itself, overflow or not |
| Comparison.IntSignIsRightExactlyInRange | mmo/mmo_ext.h:219-224 | the sign is right if and only if the 32-bit difference does not overflow |
| Comparison.LongSignIsRightExactlyInRange | mmo/mmo_ext.h:274-280 | the sign is right if and only if the 64-bit difference does not overflow |
| Comparison.SwapsExactly | mmo/mmo.h:566-610 | swapping the arguments swaps the sign if and only if the first difference is not one of two numbers or sizes half the range apart |
| Comparison.IntSwapsExactly | mmo/mmo_ext.h:219-224 | for two integers: if and only if they are not 2^31 apart |
| Comparison.LongSwapsExactly | mmo/mmo_ext.h:274-280 | for two long integers: if and only if they are not 2^63 apart |
| Comparison.OverflowBreaksAntisymmetry | mmo/mmo_ext.h:219-224 | a pair of integers each of which compares as less than the other |
| Maps.KeysByBytes | mmo/mmo_ext.h:101-107 | keys of one class hash the same memory exactly when they are equal |
| Maps.DifferentKeysNeverTie | mmo/mmo_ext.h:702-709 | different keys never compare as equal, so ordered insertion never looks at values |
| Maps.MMMap.AddItem | mmo/mmo_ext.h:684-710 | an old item with the key is taken out, the new one goes last or in order |
| Maps.MMMap.HashFind | mmo/mmo_ext.h:693 | the first item with the key's bytes, or none |
| Maps.MMMap.InsertInOrder | mmo/mmo_ext.h:704 | the item goes before the first greater one |
| Maps.MMMap.RemoveItem | mmo/mmo_ext.h:726-739 | exactly the item with the key leaves |
| Maps.MMMap.GetItemValue | mmo/mmo_ext.h:712-724 | finds the value that the map's contents give the key, if they do |
| Maps.AddedUpdates | mmo/mmo_ext.h:684-710 | adding keeps keys unique and a sorted map sorted, if its key differences do not overflow, and updates the contents at the key |
| Maps.RebuiltExactly | mmo/mmo_ext.h:684-710 | a map built again in its stored order is the same if and only if it is unsorted or the order is ascending |
| Maps.NotRebuilt | mmo/mmo_ext.h:702-709 | three integer keys that compare in a cycle, and the two orders they are stored in |
| Maps.WithoutRemoves | mmo/mmo_ext.h:726-739 | removing keeps the map well formed and takes the key out of the contents |
| Maps.ContentsDetermineOrder | mmo/mmo_ext.h:702-709 | two sorted maps with equal contents have the same item order |
| Maps.SortedMapsAreCanonical | mmo/mmo_ext.h:684-764 | after any two histories with the same contents, sorted maps have one item order and compare as 0 |
| MapTables.AddedAgrees | mmo/mmo_ext.h:684-710 | adding to a map is one replacement in its hash table, ordered or not |
| MapTables.WithoutAgrees | mmo/mmo_ext.h:726-739 | removing from a map is one deletion in its hash table |
| MapTables.LookupAgrees | mmo/mmo_ext.h:712-724 | a lookup in the hash table finds what the map finds |
| Packers.Packer.constructor | mmo/mmo_pack.c:207-226 | a new packer has written the two bytes 79 01, the version record, and nothing else |
| PackProperties.SessionStartsWithVersion | mmo/mmo_pack.c:222-224 | in every session the version record is the first record and occurs once |
| RoundTrips.PackSession | mmo/mmo_pack.c:177-226 | one call per root on a new packer gives the bytes of the session's records, which begin with 79 01 |
| Records.RecordBytes | mmo/mmo_pack.c:35-116 | the bytes of each kind of record, with its number |
| PackProperties.BodyIs | mmo/mmo_pack.c:153-173 | one turn writes the class name under the next number if it is new, the start with object and class number, the context, the fields, and the end with the object's number |
| PackProperties.FieldsAre | mmo/mmo_ext.h:656-668 | the records of the fields of each class one by one: keys, declared sizes, and the number of each child |
| Packers.Packer.SaveObjectName | mmo/mmo_pack.c:101-116 | a class name gets the next number and one record the first time, and its number ever after |
| Packers.Packer.NumberObject | mmo/mmo_pack.c:119-141 | a new object gets the next number; the two tables stay inverse to each other |
| Packers.Packer.PackReference | mmo/mmo_pack.c:127-145 | numbers the object and writes its reference |
| Packers.Packer.PackObjectImpl | mmo/mmo_pack.c:119-175 | at level 1 the reference and all missing bodies, deeper the reference only |
| Packers.Packer.PackObject | mmo/mmo_pack.c:177-195 | an outermost call writes the reference and the bodies of all objects without one, a nested call the reference only |
| Packers.Packer.PackPending | mmo/mmo_pack.c:152-174 | the worklist loop writes bodies in number order until every numbered object has one, and ends also on cyclic graphs |
| Packers.Packer.PackBody | mmo/mmo_pack.c:153-173 | one turn writes the class name if it is new, the start tag, the fields and the end tag |
| Packers.Packer.PackNode | mmo/mmo.h:324-332 | the object's context, then its fields |
| Packers.Packer.PackFields | mmo/mmo_ext.h:94-97 | the records of each class's fields, with the final numbers of all children |
| Packers.Packer.PackMMList | mmo/mmo_ext.h:816-826 | a list is written as an open array, a reference for each item that is not null, and the close |
| Packers.Packer.PackMMMap | mmo/mmo_ext.h:656-668 | a map is written as its sorted flag and an array of key and value references in turn |
| PackMeaning.SessionMeans | mmo/mmo_pack.c:605-794 | any session's records run without fault through shapes [roots] or [roots, properties, context, arrays], and leave every numbered object described and every root in the roots map |
| PackRun.RunBody | mmo/mmo_pack.c:672-730 | the records of one body leave exactly the containers that describe the object, and the stack as it was |
| Machines.PrefixIsShaped | mmo/mmo_pack.c:605-794 | after every prefix of an accepted run the stack has its shape |
| PackProperties.NumberedIffReachable | mmo/mmo_pack.c:119-175 | an object is numbered if and only if it is reachable from the roots |
| PackProperties.SessionInOrder | mmo/mmo_pack.c:119-175 | bodies are written exactly once each and in number order; numbers are given in order of first reference |
| PackProperties.EveryReferenceHasABody | mmo/mmo_pack.c:152-174 | when an outermost call returns, every number written in a reference has a body |
| PackProperties.SessionIsLegal | mmo/mmo_pack.c:101-195 | up to 2^20 objects and 20-bit keys, every number fits its header |
| Unpackers.Unpacker.PopUntil | mmo/mmo_pack.c:696-699 | popping until the open object is on top leaves the stack up to it, and takes off nothing that is it |
| Unpackers.Unpacker.PushIntoStack | mmo/mmo_pack.c:578-592 | a value goes under its key of the top map or behind the top list; all else in it and all other containers stay |
| Unpackers.Unpacker.PushKeyVal | mmo/mmo_pack.c:594-603 | a value goes under its name of the top map; all else in it and all other containers stay |
| Unpackers.Unpacker.ProcessArray | mmo/mmo_pack.c:651-664 | a size opens an empty array inside the top container, on top of the stack; 0 takes the top off the stack and changes nothing else |
| Unpackers.Unpacker.ProcessObject | mmo/mmo_pack.c:672-705 | the tag opens an object when none is open, with properties that hold its class name only; otherwise it closes the open one and takes the stack back to below its properties |
| Unpackers.Unpacker.ProcessContext | mmo/mmo_pack.c:706-730 | the stack goes back to the object's properties, and an empty context is pushed, and entered under its class name there |
| Unpackers.Unpacker.ProcessClassName | mmo/mmo_pack.c:731-752 | a class name is entered under its number, and nothing else changes |
| Unpackers.Unpacker.ProcessRecord | mmo/mmo_pack.c:618-785 | one turn of the loop reads one record and makes its step; the single object tag is read as start or end as it was written |
| Unpackers.Unpacker.Process | mmo/mmo_pack.c:605-794 | on the bytes of an accepted run the loop goes through exactly that run and uses the bytes up |
| Unpackers.Unpacker.PopContextInStack | mmo/mmo_pack.c:292-295 | exactly the object's own context is popped |
| Unpackers.Unpacker.UnpackVarInt | mmo/mmo_pack.c:303-325 | the integer under the key of the container on top |
| Unpackers.Unpacker.UnpackData | mmo/mmo_pack.c:375-403 | the block under the key of the container on top |
| Unpackers.Unpacker.UnpackArray | mmo/mmo_pack.c:484-506 | the array under the key is pushed, its length returned |
| Unpackers.Unpacker.UnpackArrayEnd | mmo/mmo_pack.c:508-521 | the array is popped |
| Unpackers.Unpacker.Construct | mmo/mmo.h:312-321 | a new object is entered and filled, and then counts as complete |
| Unpackers.Unpacker.UnpackNextContext | mmo/mmo_pack.c:523-560 | the object replaces its property map before its fields are read, and its context is pushed |
| Unpackers.Unpacker.UnpackObject | mmo/mmo_pack.c:406-482 | returns the one copy of the object, leaves the stack as it was, never replaces a copy, and leaves the objects being filled alone |
| Unpackers.Unpacker.UnpackNew | mmo/mmo_pack.c:434-481 | an object not yet built is built, with everything it needs, and its properties are popped again |
| Unpackers.Unpacker.InitMMList | mmo/mmo_ext.h:791-810 | the copy of a list refers to the copies of its items in order |
| Unpackers.Unpacker.InitMMMap | mmo/mmo_ext.h:626-643 | the copy of a map has its flag and the copies of its keys and values, as adding them one by one leaves them |
| Unpackers.Unpacker.AddMMMapItem | mmo/mmo_ext.h:632-638 | the copied entry is added to the copies as the entry itself would be to the entries |
| Unpackers.Unpacker.InitLeaf | mmo/mmo_ext.h:68-84 | the copy of an integer, long, string or block holds its value |
| Unpacking.Enter | mmo/mmo_pack.c:534-542 | entering a new object keeps all complete copies complete and the copying injective |
| MapCopying.AddedImages | mmo/mmo_ext.h:684-710 | adding looks at keys only, so it commutes with copying |
| MapCopying.NextEntryAdded | mmo/mmo_ext.h:632-641 | rebuilding the copies goes step by step as rebuilding the map |
| RoundTrips.PackAndUnpack | mmo/mmo_pack.c:119-794 | packing any roots and unpacking them copies the reachable part, one object for one object, with maps rebuilt and null and integer roots read back; the copy is isomorphic if and only if rebuilding keeps every map |
| ObjectGraph.SettledExactly | mmo/mmo_ext.h:626-643 | a map with distinct keys of one class is rebuilt as it was if and only if it is unsorted or its order is ascending |
| ObjectGraph.OrdinaryMapsAreKept | mmo/mmo_ext.h:626-643 | rebuilding keeps every map that is in the order its class gives it |
| ObjectGraph.RebuildingIsIsomorphism | mmo/mmo_pack.c:119-794 | a copy with rebuilt maps is isomorphic if and only if rebuilding keeps all maps |
| RoundTrips.ListsWithoutNullsAreCopied | mmo/mmo_ext.h:816-826 | a list keeps its length and its items exactly when it holds no null |
| ManagedPools.Pool.Alloc | platform/plat_mgn_mem.h:133-171 | a new block with count one, held by the caller |
| ManagedPools.Pool.Ralloc | platform/plat_mgn_mem.h:78-166 | the answer is at least as large as asked for; memory that is too small becomes a block of exactly that size: for a single holder it is replaced, with callback, count and all it owns, otherwise the caller gives up its share; every other block stays |
| ManagedPools.Pool.Retain | platform/plat_mgn_mem.h:173-187 | one more reference and one more count |
| ManagedPools.Pool.Own | mmo/mmo_ext.h:586-593 | a held reference handed to an object is owned by it, and counts still add up |
| ManagedPools.Pool.GiveBack | mmo/mmo_ext.h:595-603 | an object gives up one reference it owns: that field is gone, its block's count is one lower or the block is freed, and what is left is exactly what is then supported |
| ManagedPools.Pool.Release | platform/plat_mgn_mem.h:189-228 | after the whole cascade counts still equal references for all survivors, a block is gone exactly when its last reference is, and exactly the largest supported set is left, so cycles of owners stay |
| ManagedPools.Pool.ReleaseRef | platform/plat_mgn_mem.h:189-218 | giving up one reference keeps counts and references equal, also inside running callbacks, and ends since references get fewer |
| ManagedPools.Pool.FreeBlock | platform/plat_mgn_mem.h:205-211 | the callback and the removal free the block once, and no block without references appears |
| ManagedPools.Pool.ReleaseFields | mmo/mmo.h:418-436 | the destroy callback gives up each owned reference once, in order |
| ManagedPools.Pool.Autorelease | platform/plat_mgn_mem.h:230-238 | the count goes down and the callback is noted, but nothing is freed |
| ManagedPools.Pool.CollectUnused | platform/plat_mgn_mem.h:246-256 | the first sixteen blocks without references, or all of them |
| ManagedPools.Pool.FreeBatch | platform/plat_mgn_mem.h:258-270 | every block of the batch is freed, also when freeing others runs callbacks in between |
| ManagedPools.Pool.SweepRound | platform/plat_mgn_mem.h:246-270 | a full round makes the pool at least sixteen blocks smaller, another leaves no block without references |
| ManagedPools.Pool.ReleaseUnused | platform/plat_mgn_mem.h:240-273 | the sweep ends with no block without references, survivors keep contents and correct counts, and exactly the largest set that is held outside or owned from within is left |
| Ownership.LargestIsLeft | platform/plat_mgn_mem.h:189-273 | where counts are right and no cycle was broken, what is left is the largest supported set |
| PoolLeaks.NothingLeaks | platform/plat_mgn_mem.h:240-273 | a pool in which every block is referenced, but none from outside, is empty if and only if ownership can be ranked |
| PoolLeaks.CyclesLeak | platform/plat_mgn_mem.h:189-273 | blocks that own each other are left by any release and any sweep |
| PoolLeaks.TwoOwnersStay | platform/plat_mgn_mem.h:240-273 | two new objects handed to each other are still there after a sweep, with nothing holding them outside |
| PoolLeaks.SweepKeepsReachable | platform/plat_mgn_mem.h:240-273 | the sweep leaves exactly what is reachable from outside if and only if there are no unreachable cycles |
| PoolLeaks.RankedSweepIsExact | platform/plat_mgn_mem.h:240-273 | with ownership without cycles the sweep leaves exactly what is reachable from outside |
| ClassRing.Object.constructor | mmo/mmo.h:278-300 | initialising a chain of classes closes the ring from the root base to the last child |
| ClassRing.Find | mmo/mmo.h:101-111 | the search ends after at most one lap, and what it has not found was at none of the bases passed |
| ClassRing.CastFindsClass | mmo/mmo.h:333-338 | from any base a cast finds the base of the class, exactly when the object has it |
| ClassRing.CastsCompose | mmo/mmo.h:333-338 | casting by way of another class changes nothing, and casting back returns to the start |
| ClassRing.Object.SetFunction | mmo/mmo.h:463-480 | the function is registered at that base, and the one it replaces is returned |
| ClassRing.Object.Walk | mmo/mmo.h:499-513 | walking from a base to the first finds the most derived registration on the way |
| ClassRing.Object.GetLastFunction | mmo/mmo.h:499-513 | the function of the most derived base that has registered one |
| ClassRing.Object.GetParentFunction | mmo/mmo.h:483-497 | the most derived function among the ancestors; on the root base, among all bases |
| ClassRing.ParentLookupIsRightExactly | mmo/mmo.h:483-497 | the parent lookup is that of the ancestors if and only if the base is not the root, or no base of the object has registered the name |
| ClassRing.ParentOfRoot | mmo/mmo.h:483-497 | on the root base of an object whose child class has registered a function, the parent lookup returns that function |
| ClassRing.MostDerivedWins | mmo/mmo.h:499-513 | the most derived registration is the one found |
| ClassRing.NoneRegistered | mmo/mmo.h:499-513 | nothing is found exactly when no base has registered the name |

## Left out

- Packers.Packer.Emit: stops writing when the bytes would pass 4 GiB or a number does not fit a header; the code's 32-bit positions wrap around there, and its headers write nothing.
- ManagedPools.Pool.Release: the release of an object must pass the destroy callback; the code also lets one be released without, and then what it owns is never given up.
- ManagedPools.Pool.Ralloc: the copy made for one of several holders is raw memory; references copied into it are not owned.
- HashTables.HashTable.ExpandBuckets: does not model the wrap-around of a bucket count of 2^32.
- Maps.MMMap.AddItem: works on the sequence of items; `MapTables` relates that sequence to the hash table.
- Codec.NextDataWithoutLen: the code adds position and length in 32 bits; the model's sum does not wrap around.
- DyPkt.NextItem: for items of the types above as they were written; float, list and map items, and malformed payloads, are not modelled.
- HashRuns.Apply: a sort needs a comparison that is a total preorder; for others `HashSorts.SortTable` says what is left.
- Unpackers.Unpacker.Process: on the records of an accepted run; malformed streams, on which the code stops with an error, are not modelled.
- Unpackers.Unpacker.ProcessRecord: on records that an accepted run goes on with; the others are the code's errors.
- Unpackers.Unpacker.UnpackObject: with all classes registered and named; for others the code returns null and leaves its stack changed.
- Floating point: no float or double fields, keys or items.
- The null data pointer of an empty block; comparing it with a non-null pointer of size 0 gives -1 in the code, the model takes both for the empty block.
- Comparison by address, the comparison of objects that are not Int, Long, String, Data, List or Map, and null operands.
- Classes with more than one packing context, and the deeper class hierarchy of packable objects.
- Concrete hash functions, the bloom filter, `HASH_SELECT`, offsets between handles and elements, the layout of objects in memory; an element is referred to by its handle.
- `utarray.h`: a list is a sequence.
- Memory exhaustion; allocation always succeeds, and addresses are not used again.
- `mgn_mem_release_all`, which frees everything without callbacks.
- `__is_mmobj_kind_of_oid`, whose result is the negation of its name.
- Unsupported dypkt types (floats, lists, maps) and their readers.
