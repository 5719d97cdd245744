# Verification of the pointless serialization library

The library turns a graph of values, possibly cyclic and shared, into one relocatable byte buffer and reads the
values in place. This project models its algorithms in Dafny and proves what they are for.

* `Probing`, `HashTable`, `HashLookup`, `HashIteration`, `HashMapRefinement`, `HashValidate`: the open-addressing hash
  table behind sets and maps, as an implementation of a finite map.
* `CustomSort`, `SortProjection`: the three-way quicksort and the sorting of a projection by its rows.
* `Bitvector`: the encodings of bitvectors and their hashes.
* `Unfolding`, `Values`, `CreateState`: the meaning of a graph of values, its unfolding to any depth, and the create-state.
* `Building`, `Interning`, `Prepare`, `Tables`, `LaidOutTables`, `CreatePasses`, `Create`: the create API as a class, with
  its caches and intern tables, and the passes that prepare its state for output.
* `Bytes`, `Heap`, `Output`, `Layout`: the byte format, which byte and which bit is where, and the two output passes.
* `Reader`, `ReadBack`, `RoundTrip`, `WrittenLookup`, `Iteration`: reading values in place; serialize-then-read; lookups in and
  iteration over what was written.
* `ValueHash`, `HashLaws`: agreement of the hashes on both sides, and the hashes by laws about numbers.
* `ValueComparison`, `KeyComparison`, `TableComparison`: the comparison of values in a buffer and in a create-state, when it
  says "equal", and which tables the create API therefore accepts.
* `Validate`, `ValidatedSound`: the first validation pass and what it guarantees.
* `WrittenPasses`, `WrittenTables`, `WrittenKeys`: validation accepts what the library writes, value by value and table by table.
* `Copying`, `CopyMeaning`, `WrittenBuffers`, `Recreate`, `MixedTypes`: the memoised copy of a buffer's values.
* `IntOps`, `Expressions`, `ExpressionMachine`: overflow-checked integers and the expression evaluator.
* `JudyTree`, `JudyByCount`, `JudyLookup`: selection by rank and lookup in a Judy array.
* `PowersOfTwo`, `Wrappers`: shared helpers.

A value is compared across representations by its unfolding: a tree cut off at a depth, in which all integer types are
one kind of leaf, all vectors are sequences of trees, and sets and maps are multisets. Two values mean the same when they
unfold alike at every depth, so cycles and sharing need no special treatment.

Callbacks, and computations that are not part of the model, are parameters: the comparison and the hash of keys, the
equality test of a lookup, the set of handles that lie on a cycle, the hash of a float. Strings and raw bitvectors are their
characters and bytes; floats are their 32-bit patterns. The buffer is laid out as on a little-endian machine.

## Properties that do not hold as one would expect

* Doubling to the next power of two never ends above 2^31 (`HashTable.DoublingDiverges`).
* An int64 lookup misses a stored -1 or 2^32 - 1 (`HashIteration.IntLookupIsExact`).
* The bounds check of a signed projection ignores the upper bound (`SortProjection.CheckIsExactUnless`).
* A vector with a negative number and one above 2^31 - 1 has no compressed type; it becomes a plain value vector and is no longer
  hashable (`Prepare.VectorCompression`).
* The size of a vector of 2^32 bytes or more loses its high bits in the offset pass (`Output.HeapSizeIsLength`).
* A buffer may refer to one vector with two types and pass validation; its copy is then wrong, and exactly then
  (`CopyMeaning.CopiesUnfoldAlikeIff`, `MixedTypes.OnePlaceTwoMeanings`).
* The expression compiler looks past its own tokens: an operator left over in the token array makes it refuse a valid expression
  (`Expressions.AcceptedIff`).
* Subtraction and division group from the right and take their operands in reverse (`ExpressionMachine.ChainedSubtraction`).
* Initialisation sets an error for file version 1 but goes on and succeeds (`Reader.Opens` follows the code).
* The comparison at create time trusts the type of its first value for the second one too. With assertions compiled out, as
  `setup.py` builds it, a set with 0 and the empty string, or with null followed by any key of hash 0, is refused as having
  duplicate keys (`TableComparison.ZeroAndEmptyTextRefused`, `TableComparison.NullRefused`; exactly which tables are refused:
  `TableComparison.TableAcceptedIff`).
* An unsigned number and a negative one compare as "less" either way round (`ValueComparison.MixedNumbersAreNotOrdered`; the
  exact condition is in `ValueComparison.AntisymmetricIff`).
* Bitvectors of different encodings are both read by the encoding of the first (`ValueComparison.ZerosTakenForOnes`).
* At create time, the items of a vector created for numbers are looked up as handles when it is compared
  (`TableComparison.SevenAndSevenMisread`; exactly when: `ValueComparison.ComparedExactly`, `TableComparison.PrivateNumbersMisread`).
* Insertion sort can return true although a comparison failed (`CustomSort.FailuresNoticedIff`).
* The create-time hash of an empty vector reads a vector that is not its own; the model gives it no hash
  (`ValueHash.CreateHashable`).

## Model
| member | source | states |
|---|---|---|
| Probing.FullPeriod | src/pointless_hash_table.c:25-31 | the recurrence `j = 5j + 1` visits every residue modulo 2^k: from any start, any target is met within 2^k steps |
| Probing.PerturbDies | src/pointless_hash_table.c:62-64 | after seven shifts a 32-bit perturbation is zero |
| Probing.StateIsIterate | src/pointless_hash_table.c:62-64 | once the perturbation is gone, the 32-bit probe state is, modulo the number of buckets, an iterate of `5j + 1` |
| Probing.ProbesCoverAllBuckets | src/pointless_hash_table.c:32-65 | for every 32-bit hash and every power-of-two bucket count n, the first 7 + n probes visit every bucket |
| Probing.PerturbIsShifted | src/pointless_hash_table.c:62-64 | the perturbation after t steps is the hash shifted right by 5t bits |
| Probing.StateInClosedForm | src/pointless_hash_table.c:57-64 | the probe state after t steps without its recurrence: 5^t times the hash plus, for each step s, the hash shifted right by 5s bits, plus one, times 5 for every later step, modulo 2^32 |
| Probing.BucketInClosedForm | src/pointless_hash_table.c:32-65 | the t-th bucket probed is that number modulo the number of buckets |
| Probing.FirstBuckets | src/pointless_hash_table.c:32-65 | the first three buckets probed, written out |
| HashTable.NextPowerOfTwo | src/pointless_hash_table.c:3-11 | doubling from 1 in 32 bits yields the least power of two not below m, for m up to 2^31 |
| HashTable.DoublingDiverges | src/pointless_hash_table.c:3-11 | the doubling loop ends exactly for m up to 2^31: beyond that the loop variable wraps to 0 and never reaches m |
| HashTable.ComputeBucketCount | src/pointless_hash_table.c:13-21 | the bucket count of a table, in 32-bit arithmetic |
| HashTable.BucketsExceedItems | src/pointless_hash_table.c:13-21 | unless n + n/2 exceeds 2^31 there are more buckets than items, and fewer than three times as many |
| HashTable.BucketCountIs | src/pointless_hash_table.c:13-21 | no items want one bucket, one item wants two; n items want the one power of two from n + n/2 up to its double |
| HashTable.PlaceNext | src/pointless_hash_table.c:151-164 | putting a key into the first empty bucket of its probe keeps every key at its place, reachable past occupied buckets only, with keys of one hash in input order |
| HashTable.FindFreeBucket | src/pointless_hash_table.c:151-182 | the inner loop ends, at the first empty bucket of the probe or at the first earlier key of the same hash that is equal or cannot be compared; keys of other hashes are never compared |
| HashTable.CheckArguments | src/pointless_hash_table.c:111-138 | the four argument checks, in their order |
| HashTable.Populate | src/pointless_hash_table.c:107-186 | succeeds exactly when no two keys share a hash and compare equal or fail to compare; the first offending pair decides the error; on success every key, hash and value is at its place and all other buckets are blank |
| HashLookup.Probe | src/pointless_hash_table.c:23-71 | the probe loop ends, and returns the outcome of the first probe that stops |
| HashLookup.ProbesIsFunctional | src/pointless_hash_table.c:23-71 | a table, a hash and a test determine the outcome of a probe |
| HashLookup.ProbeIsListLookup | src/pointless_hash_table.c:23-71 | for any hash and any equality test, probing a populated table is searching the key list it was populated from, first hit first |
| HashIteration.HashIterator.NextSlot | src/pointless_reader.c:571-599 | iteration over one hash goes on to the next slot of that hash on the probe sequence, and stops only at an empty bucket |
| HashIteration.GetSet | src/pointless_reader_helpers.c:124-143 | lookup by iteration returns the first slot of the hash whose key passes the check, which holds a key of that hash that passes |
| HashIteration.GetMap | src/pointless_reader_helpers.c:102-122 | the same in a map, with a check on the value as well |
| HashIteration.PairedIsPlaced | src/pointless_reader_helpers.c:102-122 | a populated map is a populated table of key-value pairs |
| HashIteration.IntegerHashesAgree | src/pointless_hash.c:64-93 | the 64-bit integer hash equals the stored 32-bit hash of the same integer for all integers but -1 and 2^32 - 1 |
| HashIteration.IsIntInSet | src/pointless_reader_helpers.c:337-341 | an int64 lookup returns the first slot under the 64-bit hash that holds that integer |
| HashIteration.IntLookupIsExact | src/pointless_reader_helpers.c:337-341 | an int64 lookup in a populated set succeeds for the stored integers except -1 and 2^32 - 1, for which it fails even if stored (unless another key happens to carry the other hash): the exact condition, both ways |
| HashMapRefinement.AllDifferentIsDistinct | src/pointless_hash_table.c:107-186 | with a comparison that decides an equivalence and hashes that respect it, populate accepts exactly the lists of pairwise unequal keys |
| HashMapRefinement.LookupIsMapLookup | src/pointless_hash_table.c:23-71 | a lookup in a populated table is a lookup in the finite map of its keys and values: found at its slot with its value, or a miss |
| HashValidate.CountSlots | src/pointless_validate_hash_table.c:3-29 | the counting loop: used and empty slots, with empty values only beside empty keys |
| HashValidate.Validate | src/pointless_validate_hash_table.c:3-71 | the checker accepts exactly the tables whose counts, hashes and places are right |
| HashValidate.AcceptedKeysAreDistinct | src/pointless_validate_hash_table.c:3-71 | in an accepted table no two slots hold equal keys |
| HashValidate.AcceptedTableIsMap | src/pointless_validate_hash_table.c:3-71 | an accepted table has an empty slot, and looking up any stored key finds its own slot; any other key is a miss |
| HashValidate.PopulatedIsAccepted | src/pointless_validate_hash_table.c:3-71 | every table that populate makes from hashes of the keys is accepted, if of the keys with one hash each compares equal, and without error, to itself alone |
| HashValidate.DistinctKeysSeparate | src/pointless_hash_table.c:165-175 | keys that are different under an equality that the comparison decides are told apart by it |
| HashValidate.AcceptedIsPopulated | src/pointless_validate_hash_table.c:3-71 | and only such tables: an accepted table has the size populate asks for, and some list of as many hashable keys as the count says is placed in it, with their hashes, the values beside the keys and all else blank |
| CustomSort.Med3 | src/custom_sort.c:13-26 | returns one of the three indices; with a consistent comparator its element lies between the other two |
| CustomSort.InsertionSort | src/custom_sort.c:35-46 | any comparator: permutes its range and nothing else, and ends; consistent comparator: sorts it |
| CustomSort.FailuresNoticedIff | src/custom_sort.c:35-46 | insertion sort reports failure, on all inputs, exactly when a comparison failed, if and only if the comparator reports an inversion whenever it fails |
| CustomSort.UnnoticedFailure | src/custom_sort.c:35-46 | two elements whose comparison fails without an inversion: the result is true all the same |
| CustomSort.ScanPresorted | src/custom_sort.c:48-61 | the presorted exit is taken only when the range is sorted |
| CustomSort.Partition | src/custom_sort.c:85-121 | smaller elements, larger elements, and elements equal to the pivot parked at both ends |
| CustomSort.Arrange | src/custom_sort.c:90-134 | after both end swaps the range is smaller, equal, larger, in that order |
| CustomSort.VecSwap | src/custom_sort.c:126-134 | exchanges two blocks element by element |
| CustomSort.QuickSort | src/custom_sort.c:28-148 | terminates for any comparator, with the recursion on the left part and the loop on the right; permutes only its range; with a consistent comparator it succeeds and leaves the range sorted |
| CustomSort.Sort | src/custom_sort.c:150-153 | for n elements from 0: a sorted permutation, or, with a failing comparator, still a permutation |
| SortProjection.CompareFromIsLex | python/pointless_prim_vector.c:1373-1389 | the row comparison is the lexicographic order of the columns |
| SortProjection.RowComparatorIsConsistent | python/pointless_prim_vector.c:1373-1389 | the row comparison is a consistent comparator, so the sort applies |
| SortProjection.CheckBounds | python/pointless_prim_vector.c:1541-1571 | the bounds check as the code makes it: for a signed projection the maximum stays 0, so only the lower bound is looked at |
| SortProjection.CheckIsExactUnless | python/pointless_prim_vector.c:1541-1571 | the check is right exactly unless the projection is signed, has no negative value and has one past the end |
| SortProjection.CheckMissesRowPastEnd | python/pointless_prim_vector.c:1541-1571 | a projection that refers past the end and passes the check |
| SortProjection.SortProj | python/pointless_prim_vector.c:1538-1590 | in bounds: a permutation of the projection whose rows are lexicographically non-decreasing; out of bounds: unchanged and an error |
| Bitvector.Pack | src/pointless_create.c:1866-1880 | at most 27 bits packed above the five length bits decode to the same bits |
| Bitvector.Encode | src/pointless_create.c:1846-1902 | the encoding decodes to the same length and bits, and which encoding is chosen: all-0, all-1, packed up to 27 bits, a step of two runs of at most 65535 bits, else raw |
| Bitvector.StepIsUnique | src/pointless_create.c:1775-1820 | bits that are not all equal are a step in at most one way, so the order of the two step tests does not matter |
| Bitvector.HashBits | src/pointless_bitvector.c:77-121 | both hash loops compute a function of the bits alone, over every encoding |
| Bitvector.HashEncoded | src/pointless_bitvector.c:77-121 | bits hash like the raw bits when they are in the encoding chosen for them, in 32-bit and in 64-bit arithmetic |
| Unfolding.BisimilarUnfoldAlike | src/pointless_recreate.c:54-60 | bisimilar nodes of two graphs have the same unfolding at every depth, whatever the cycles and the sharing; sets and maps up to order |
| Unfolding.VectorsUnfoldAlikeIff | src/pointless_reader.c:208-335 | vectors unfold alike exactly if their items do, one by one; leaves if they hold the same |
| Unfolding.SetsUnfoldAlikeIff | src/pointless_reader.c:391-408 | sets unfold alike exactly if every unfolding occurs equally often among their keys |
| Unfolding.MapsUnfoldAlikeIff | src/pointless_reader.c:522-541 | maps unfold alike exactly if every pair of unfoldings occurs equally often among their pairs |
| Unfolding.ApplyPermuted | src/pointless_reader.c:350-370 | rearranging the buckets of a set rearranges its members |
| Create.Create.constructor | src/pointless_create.c:197-228 | an empty state, nothing cached, no root |
| Create.Create.CreateU32 | src/pointless_create.c:1434-1445 | a handle of the requested number, held as an unsigned one; numbers below 10000 have one handle; no other handle changes its meaning |
| Create.Create.CreateI32 | src/pointless_create.c:1416-1427 | the same for signed numbers, with one handle each from -10000 to 10000 |
| Create.Create.CreateFloat | src/pointless_create.c:1447-1450 | a handle of the requested float pattern |
| Create.Create.CreateTrue | src/pointless_create.c:1475-1486 | one handle for true |
| Create.Create.CreateFalse | src/pointless_create.c:1457-1468 | one handle for false |
| Create.Create.CreateNull | src/pointless_create.c:1519-1530 | one handle for null |
| Create.Create.CreateEmptySlot | src/pointless_create.c:1501-1512 | one handle for the empty-slot value, also while tables are laid out |
| Create.Create.CreateText | src/pointless_create.c:1534-1690 | a handle of the requested string; a new value is created exactly when no equal string of the same kind exists |
| Create.Create.CreateBitvector | src/pointless_create.c:1846-1976 | a handle of just these bits, in the encoding their values call for; raw bits get a new buffer exactly unless they are normalized and known |
| Create.Create.CreateVector | src/pointless_create.c:1979-2060 | a new, empty vector |
| Create.Create.CreateOutsideVector | src/pointless_create.c:2171-2262 | a vector with just these numbers; without items, the inline empty vector |
| Create.Create.AppendValue | src/pointless_create.c:2080-2086 | appends the handle as the last item and changes no other value; fails, changing nothing, if there is no such handle |
| Create.Create.AppendNumber | src/pointless_create.c:2088-2131 | appends the number as the last item and changes no other value |
| Create.Create.SetItem | src/pointless_create.c:2133-2137 | replaces one item and changes no other value |
| Create.Create.CreateSet | src/pointless_create.c:2264-2310 | a new, empty set, right after the two vectors it keeps |
| Create.Create.SetAdd | src/pointless_create.c:2312-2320 | adds the key and changes no other value |
| Create.Create.CreateMap | src/pointless_create.c:2323-2377 | a new, empty map, right after the three vectors it keeps |
| Create.Create.MapAdd | src/pointless_create.c:2379-2395 | adds the pair and changes no other value |
| Create.Create.SetRoot | src/pointless_create.c:1402-1406 | sets the root |
| Interning.TextBuffersDiffer | src/pointless_create.c:1534-1690 | buffers of different strings differ, between single-byte and 4-byte strings too, so the shared table never confuses them |
| Interning.BitsBuffersDiffer | src/pointless_create.c:1915-1935 | buffers of different bitvectors differ |
| Interning.TextFound | src/pointless_create.c:1554-1560 | the string table knows a string exactly when there is a handle of it, and then yields that handle |
| Interning.TextAdded | src/pointless_create.c:1583-1596 | entering a new string keeps the table right |
| Building.PushKeeps | src/pointless_create.c:1407-1414 | adding a well-formed value keeps the state well-formed and the shape of every handle |
| Building.ItemsKeep | src/pointless_create.c:2062-2078 | new items in one vector change that vector and nothing else |
| Create.Create.Renumber | src/pointless_create.c:718-772 | private vectors with items get consecutive new places, those without become the inline empty vector unless a set or map keeps them; sets and maps keep their numbers |
| Prepare.RenumberingKeeps | src/pointless_create.c:718-772 | renumbering keeps the state well-formed and every shape, and leaves no empty vector behind: private vectors occupy 0 to p - 1 |
| Create.Create.MarkHashable | src/pointless_create.c:775-792 | private value vectors that lie on no cycle become hashable, all others stay |
| Prepare.MarkingKeeps | src/pointless_create.c:775-792 | marking changes no shape |
| Prepare.VectorCompression | src/pointless_create.c:591-682 | floats: float vector; integers without a negative: the narrowest unsigned type that holds all; with a negative: the narrowest signed type up to 32 bits, or, if none holds them, a plain value vector; anything else: unchanged |
| Prepare.IntRange | src/pointless_create.c:661-681 | the type chosen from minimum and maximum is the narrowest that fits every item |
| Prepare.CompressionFits | src/pointless_create.c:591-682 | every item can be written with the chosen type without loss |
| Prepare.CompressionOfPairs | src/pointless_create.c:591-682 | what a vector of two values is written as, by the least and the greatest of two integers against the bounds of the types; two floats as floats, mixed values unchanged |
| Create.Create.Compress | src/pointless_create.c:794-813 | every private value vector is given the type its items call for, sets' and maps' own vectors are left alone |
| Prepare.CompressingKeeps | src/pointless_create.c:794-813 | compressing changes no shape: a compressed vector still denotes the same integers in order |
| Create.Create.CreateTable | src/pointless_create.c:38-195 | which keys keep a set or map from being laid out: the first that is not hashable or is the empty slot, else the first pair populate objects to; otherwise its vectors become a well-placed hash table and nothing else changes |
| Create.Create.CreateTables | src/pointless_create.c:816-890 | succeeds exactly when every set and map can be laid out; all are, one after the other |
| Tables.KeptIsPlaced | src/pointless_create.c:132-133 | what iteration over filled buckets yields is the key list, each key once, in some order |
| Tables.FillStep | src/pointless_create.c:161-185 | filling the vectors of one table leaves all other tables as they were |
| Tables.SamePublicMeaning | src/pointless_create.c:816-890 | states that give every public handle the same shape give it the same meaning at every depth |
| LaidOutTables.OtherStaysLaidOut | src/pointless_create.c:816-890 | filling one table keeps every other table a well-placed hash table |
| LaidOutTables.PassesMark | src/pointless_create.c:775-813 | the passes before the tables are filled leave every vector of keys marked hashable |
| LaidOutTables.MarksStay | src/pointless_create.c:816-890 | filling the tables leaves the marks |
| Heap.ByKindRanked | src/pointless_create.c:909-1063 | the object of a value stands, among all objects in writing order, at the place its data word and its kind say |
| Heap.ObjectIndex | src/pointless_create.c:909-1063 | the object of handle h is entry data(h) of the table of its kind, outside vectors after the private ones |
| Output.HeapSizeIsLength | src/pointless_create.c:938-1050 | the size the offset pass counts is the size the heap pass writes, exactly unless a vector takes 2^32 bytes or more |
| Output.Sink.Align4 | src/pointless_create.c:1361-1377 | pads the whole buffer with zeros to a multiple of 4 |
| Output.PadAfter | src/pointless_create.c:1361-1377 | after a multiple of 4 bytes, padding the buffer is padding the object: heap-relative and whole-buffer alignment coincide |
| Output.WriteOffsets | src/pointless_create.c:909-1063 | with sizes in range, the k-th offset written is where the k-th object starts, padding included |
| Output.WriteItems | src/pointless_create.c:384-519 | items one by one through the cast, or all at once, give the same bytes |
| Output.WriteObject | src/pointless_create.c:293-589 | writes the object of a value, padded |
| Output.WriteHeap | src/pointless_create.c:1065-1164 | writes all objects of one kind in handle order |
| Output.WriteBuffer | src/pointless_create.c:893-1166 | the two passes together write header, offset tables and heap of the prepared state |
| Layout.ByteOfWord | src/pointless_create.c:1346-1359 | byte i of a word is the word divided by 2^(8i), modulo 256 |
| Layout.TwosComplement | src/pointless_create.c:453-513 | a negative number is written as the size of the range less its absolute value |
| Layout.PaddingIsZero | src/pointless_create.c:1361-1377 | padding is at most three bytes, all zero |
| Layout.PackedLayout | src/pointless_create.c:1866-1880 | the length of a packed bitvector is in the low five bits of its data word, bit i is bit 5 + i |
| Layout.RunLayouts | src/pointless_create.c:1855-1894 | runs of equal bits are kept as lengths, that of the first of two in the low half-word |
| Layout.RawLayout | src/bitutils.c:15-19 | bit i of a raw bitvector is bit i % 8, from the lowest, of byte i / 8 |
| Layout.HeaderLayout | src/pointless_create.c:878-890 | the eight words of a written header by their places in the buffer: type and data of the root, five counts, version 2 |
| Layout.VersionsThatOpen | src/pointless_reader.c:3-61 | a buffer with consistent counts opens exactly if its version is 1 or 2 |
| Layout.SmallFile | src/pointless_create.c:893-1166 | the 76 bytes of the file that holds a vector of the string "a" and the number 7 |
| Create.Create.CreateOutput | src/pointless_create.c:684-1187 | when it succeeds, and why not otherwise; with sizes in range, the buffer opens and its root unfolds at every depth to what the root of the create-state unfolded to before the call; all tables are well placed, their vectors of keys marked hashable |
| Bytes.WordRoundTrip | src/pointless_reader.c:37-45 | little-endian words read back |
| Bytes.WrapRoundTrip | src/pointless_create.c:453-513 | a number that fits a type reads back from its two's complement word |
| ReadBack.HeaderReads | src/pointless_reader.c:3-61 | a written buffer passes the checks of initialisation; its counts are those of the state |
| ReadBack.ObjectReads | src/pointless_reader.c:169-177 | following the offset table leads to the object written for the handle |
| ReadBack.VectorReads | src/pointless_reader.c:208-335 | the items of a vector read back in order, values as values, numbers as numbers of the vector's type |
| ReadBack.TextReads | src/pointless_reader.c:174-206 | strings read back |
| ReadBack.BitvectorReads | src/pointless_reader.c:337-376 | raw bitvectors read back |
| RoundTrip.SetMatches | src/pointless_reader.c:391-408 | iterating over a written set yields the keys it was created with |
| RoundTrip.MapMatches | src/pointless_reader.c:522-541 | iterating over a written map yields the key-value pairs it was created with |
| RoundTrip.SerializeThenRead | src/pointless_create.c:893-1166 | for every prepared state, root and depth, reading the written buffer unfolds to what the root unfolds to |
| WrittenLookup.Lookup | src/pointless_reader.c:412-439 | the lookup by header, vectors and probe, as the reader makes it |
| WrittenLookup.LookupWritten | src/pointless_reader.c:412-464 | a lookup in a set or map of a written buffer ends, with the outcome of searching the keys it was created with one by one: first key of the hash that the test does not turn down, with its value |
| ValueHash.HashChars | src/pointless_hash.c:8-31 | the string hash, the same for single-byte and 4-byte strings |
| ValueHash.HashCreate | src/pointless_hash.c:300-465 | the create-time hash is a function of what the value looks like |
| ValueHash.HashRead | src/pointless_hash.c:214-277 | so is the hash the reader computes |
| ValueHash.HashesAgree | src/pointless_hash.c:214-371 | a value nested at most d deep, without sets, maps, empty vectors and vectors not marked hashable, is hashed at create time, and the reader computes the same hash for it |
| ValueHash.HashedIff | src/pointless_hash.c:373-470 | a value has a hash exactly when it is a leaf, or a vector of a hashable type, nested within the depth, of such values |
| ValueHash.HashIgnoresRepresentation | src/pointless_hash.c:214-371 | the hash of a vector does not depend on the type that holds its items |
| HashLaws.XorIsBitwise | src/pointless_hash.c:8 | bit i of the exclusive or is set exactly if the bits of the two numbers differ |
| HashLaws.EmptyStringHash | src/pointless_hash.c:8 | the empty string hashes to 0 |
| HashLaws.OneCharHash | src/pointless_hash.c:8 | the hash of one character by multiplications and exclusive ors of numbers |
| HashLaws.HashOfA | src/pointless_hash.c:8 | the string "a" hashes to 3826102752 |
| HashLaws.AppendedCharHash | src/pointless_hash.c:8 | a character more: apart from the length at the end, the hash is multiplied by 1000003 and the character combined by exclusive or |
| HashLaws.VectorHashEnds | src/pointless_hash.c:203-220 | the hash of a vector is the running value plus 97531 |
| HashLaws.AppendedItemHash | src/pointless_hash.c:210-220 | an item more combines its hash by exclusive or and multiplies by a factor that grows with each item by 82520 and twice the length |
| HashLaws.ShortVectorHashes | src/pointless_hash.c:203-271 | the hashes of vectors without items and with one, as numbers |
| HashLaws.BitsHashLaws | src/pointless_bitvector.c:77-120 | no bits hash to 1; after full octets, up to eight bits more multiply by 1000000001 and add the number they make, lowest bit first |
| HashLaws.LeafHashes | src/pointless_hash.c:62-201 | integers hash to themselves in 32 bits, truth values to 0 and 1, null and the empty slot to 0 |
| HashLaws.NumberHash | src/pointless_hash.c:62-76 | a number of a create-state hashes to its data word |
| Recreate.Recreator.Convert | src/pointless_recreate.c:54-290 | terminates; returns the handle that the place of the value already has, or that of a new copy; changes nothing that was there before; fails only when handles run out |
| Recreate.Recreator.ConvertVector | src/pointless_recreate.c:106-130 | a value vector gets its handle before its items are copied, and all items in order |
| Recreate.Recreator.ConvertSet | src/pointless_recreate.c:216-236 | the keys in the order of iteration |
| Recreate.Recreator.ConvertMap | src/pointless_recreate.c:237-265 | the pairs in the order of iteration |
| Recreate.RecreateValue | src/pointless_recreate.c:292-330 | with every place copied at most once, the copy unfolds like the original if one copy can serve all values at each place |
| Recreate.RecreateRoot | src/pointless_recreate.c:332-362 | a buffer whose reachable values pass validation can be recreated |
| Recreate.SharingCarriesOver | src/pointless_recreate.c:54-93 | two containers have one copy exactly when they are one container |
| CopyMeaning.CopiesUnfoldAlikeIff | src/pointless_recreate.c:54-93 | copies unfold like their originals at every depth if and only if all references to one table entry unfold alike |
| CopyMeaning.OneTypeAlike | src/pointless_recreate.c:61-88 | it is enough that each table entry is referred to with one type |
| MixedTypes.OnePlaceTwoMeanings | src/pointless_recreate.c:61-88 | a sound buffer that refers to one vector with two types, for which the copy is wrong |
| WrittenBuffers.WrittenIsSound | src/pointless_create.c:893-1166 | every buffer the library writes is sound to copy from |
| WrittenBuffers.WrittenOneType | src/pointless_create.c:893-1166 | and refers to each table entry with one type |
| Recreate.RecreateWritten | src/pointless_recreate.c:332-362 | writing, reading and recreating: the copy of the root means, at every depth, what the root meant |
| Validate.OneMarkOneFamily | src/pointless_validate.c:73-100 | containers with one mark pass or fail the checks together, so skipping marked ones loses nothing |
| Validate.Validator.Walk | src/pointless_walk.c:3-68 | never goes deeper than 512; skips marked containers; stops at the first error, which it can justify |
| Validate.Validator.WalkChildren | src/pointless_walk.c:17-64 | expands a container that was not marked before, children in order |
| Validate.AllReachableSeen | src/pointless_validate.c:133-163 | what was visited is closed under going to children |
| Validate.ValidatePass1 | src/pointless_validate.c:61-131 | without an error, the values visited are just those reachable from the root, and all pass the reference, inline and heap checks; no container was expanded twice; an error names a reachable value that does not pass, or a chain of 513 values |
| ValidatedSound.PassedIsSound | src/pointless_validate_heap.c:3-280 | values that pass read without leaving the buffer, as proper values with proper children |
| ValidatedSound.PassedTextIsTerminated | src/pointless_validate_heap.c:84-169 | a string that passes has no zero among its characters, and a zero, within the buffer, after them |
| ValidatedSound.OneWordForEachMeaning | src/pointless_validate_heap_ref.c:3-68 | of the values held in a data word, bitvectors apart, just one of each type and meaning passes |
| ValidatedSound.PackedBitsFit | src/pointless_validate_heap_ref.c:19-25 | a packed bitvector that passes has at most 27 bits |
| ValidatedSound.PassedTableParts | src/pointless_validate_heap.c:171-231 | a set or map that passes leads on to a vector of 32-bit numbers, one of hashable values and, in a map, one of values |
| WrittenPasses.WrittenValuePasses | src/pointless_validate_heap.c:3-280 | every value of a written buffer passes the reference, inline and heap checks |
| WrittenPasses.ChildrenWritten | src/pointless_walk.c:17-64 | from a written value the walk goes on to just the items of a vector of values, or the vectors a set or map keeps, in order |
| WrittenPasses.ReachableIsWritten | src/pointless_walk.c:3-68 | all that can be reached from the root of a written buffer was written for a handle, and passes |
| WrittenPasses.ValidateWritten | src/pointless_validate.c:61-163 | pass 1 over a written buffer refuses no value: it succeeds, or there is a chain of 513 values |
| WrittenTables.CountReads | src/pointless_create.c:539-589 | the header of a written set or map begins with the number of its keys and a blank word |
| WrittenTables.HeaderWordsRead | src/pointless_create.c:539-589 | the next words are type and index of the vector of hashes and of the vector of keys |
| WrittenTables.ValidateTable | src/pointless_validate.c:13-59 | the check of a set or map in pass 3: vectors of one length, that are a hash table of as many keys as the header tells |
| WrittenTables.WrittenTableOk | src/pointless_validate.c:13-59 | pass 3 accepts every written set and map, if the keys hash in the buffer as at create time and are told apart there |
| WrittenKeys.WrittenKeysPass | src/pointless_validate.c:13-59 | with the library's own hash and comparison, pass 3 accepts every written set and map of different keys none of which is misread for another |
| WrittenKeys.PlainKeysReadApart | src/pointless_cmp.c:496-545 | keys without bitvectors are not misread for one another |
| WrittenKeys.HashedTypes | src/pointless_hash.c:467-470 | a value that is no vector has a hash exactly if its type is hashable; a vector only if |
| IntOps.PlusIsExact | src/pointless_int_ops.c:66-81 | the wrap-around test recognises overflow exactly |
| IntOps.TimesIsExact | src/pointless_int_ops.c:19-32 | the division test recognises overflow exactly |
| Expressions.ParsedExpr | src/pointless_int_ops.c:217-311 | what the parser accepts is an expression of the grammar, its output no longer than its input |
| Expressions.ExprParses | src/pointless_int_ops.c:217-311 | every expression of the grammar is parsed, to its end, when no operator follows it in the token array |
| Expressions.AcceptedIff | src/pointless_int_ops.c:433-450 | n tokens are accepted if and only if they are an expression and the token left over after them in the array is not an operator |
| Expressions.LeftOverOperatorRefuses | src/pointless_int_ops.c:209-212 | an expression that is refused because of a left-over token |
| ExpressionMachine.Compiler.CompileExpr | src/pointless_int_ops.c:225-235 | leaves the postfix form on the output stack, or an error |
| ExpressionMachine.Compiler.Compile | src/pointless_int_ops.c:327-451 | succeeds exactly as stated, with the expression in postfix; the output stack never overflows |
| ExpressionMachine.PostfixRuns | src/pointless_int_ops.c:453-526 | running a postfix form pushes what the expression evaluates to; no operator finds fewer than two operands |
| ExpressionMachine.Eval | src/pointless_int_ops.c:453-526 | the stack machine computes the value of the expression or its first error, and ends with one number |
| ExpressionMachine.NaturalEvaluates | src/pointless_int_ops.c:453-526 | over numbers, + and *, the result is the exact natural number; it fails, with overflow, exactly when some subexpression exceeds 64 bits |
| ExpressionMachine.OperatorFails | src/pointless_int_ops.c:480-511 | division fails exactly when the number below is zero, subtraction exactly when it is the larger one; the flag of an operand stays |
| ExpressionMachine.DifferenceAndQuotient | src/pointless_int_ops.c:484-502 | differences and quotients are right whether or not an operand is flagged as overflowed, and flagged exactly when one is |
| ExpressionMachine.OperatorIsExact | src/pointless_int_ops.c:480-511 | an operator yields v, not flagged, exactly when neither operand is flagged and v is the exact result: for a quotient the one with v * b <= t < (v + 1) * b, for a sum or product if it fits 64 bits |
| ExpressionMachine.ValueIff | src/pointless_int_ops.c:453-526 | an expression evaluates to v if and only if it denotes v: differences and quotients by what multiplied or added gives the operand back, every intermediate result within 64 bits |
| ExpressionMachine.TwoIntoNine | src/pointless_int_ops.c:497-502 | 2 / 9 is 4: nine divided by two |
| ExpressionMachine.PrintedParses | src/pointless_int_ops.c:217-311 | an expression printed with parentheses is parsed to itself, and to nothing else |
| ExpressionMachine.ProductsBindTighter | src/pointless_int_ops.c:237-311 | products and quotients bind tighter than sums and differences, on either side |
| ExpressionMachine.ChainedSubtraction | src/pointless_int_ops.c:237-252 | a - b - c evaluates to c - b - a |
| Iteration.BucketIterator.NextKey | src/pointless_reader.c:400-417 | moves to the next bucket that is not empty and returns its key; none only at the end |
| Iteration.BucketIterator.NextPair | src/pointless_reader.c:511-530 | the same in a map, with the value of the same bucket |
| Iteration.IterateSet | src/pointless_reader.c:400-417 | a whole iteration yields every filled bucket once, in bucket order |
| Iteration.IterateMap | src/pointless_reader.c:511-530 | the same in a map, keys paired with their values |
| Iteration.IterationYieldsKeys | src/pointless_reader.c:400-417 | iterating over a written set yields the keys it was created from, each as often, in some order |
| Iteration.IterationYieldsPairs | src/pointless_reader.c:511-530 | iterating over a written map yields the pairs it was created from |
| ValueComparison.CompareStrings | src/pointless_cmp.c:7 | the loop over two zero-terminated strings returns the sign at their first difference |
| ValueComparison.CharsEqual | src/pointless_cmp.c:7 | strings compare equal exactly when they are equal |
| ValueComparison.CharsOrder | src/pointless_cmp.c:7 | strings are ordered lexicographically, and the order is antisymmetric |
| ValueComparison.CompareBitvectors | src/pointless_bitvector.c:154-172 | the loop over two bitvectors of one encoding returns the sign at the first difference, or that of the lengths |
| ValueComparison.BitsEqual | src/pointless_bitvector.c:154-172 | bitvectors of one encoding compare equal exactly when they have the same bits |
| ValueComparison.BitsOrder | src/pointless_bitvector.c:154-172 | bits are ordered lexicographically, a beginning before the whole, and the order is antisymmetric |
| ValueComparison.CompareByFirstEncoding | src/pointless_bitvector.c:155-174 | the same loop when the first bitvector is held in its data word: both are read by the encoding of the first |
| ValueComparison.OneEncodingComparesRight | src/pointless_bitvector.c:155-174 | bitvectors of one encoding in a data word compare equal exactly when they have the same bits |
| ValueComparison.EqualBitsComparedRightIff | src/pointless_bitvector.c:166 | a bitvector of equal bits is compared right with one of another encoding exactly if their lengths differ or they are equal |
| ValueComparison.ZerosTakenForOnes | src/pointless_bitvector.c:166 | three zero bits and three one bits are taken for equal |
| ValueComparison.MixedNumbersAreNotOrdered | src/pointless_cmp.c:196-207 | 1 is less than -1 and -1 less than 1 when the one is unsigned and the other signed; and then 1 < -1 < 0 although 1 > 0 |
| ValueComparison.ComparesByValueIff | src/pointless_cmp.c:178-208 | integers of any types are compared by value except exactly when an unsigned one is compared to a negative one |
| ValueComparison.ItemsComparedByValueIff | src/pointless_cmp.c:178-208 | so are the items of vectors of integers, exactly unless an unsigned one comes before a negative one |
| ValueComparison.AntisymmetricIff | src/pointless_cmp.c:178-208 | the order of two integers is antisymmetric exactly when neither is unsigned with the other one negative |
| ValueComparison.TransitiveUnless | src/pointless_cmp.c:178-208 | the order of integers is transitive unless a step goes from an unsigned integer to a negative one |
| ValueComparison.ComparedExactly | src/pointless_cmp.c:496-534 | for values with keys: misreads exactly when misled (before a difference: bitvectors of different encodings, or at create time also 64-bit integers and vectors out of reach); otherwise reports equality exactly when the keys are the same, at create time loosely equal |
| KeyComparison.HashOfKey | src/pointless_hash.c:279-371 | the hash of a value is a function of its key |
| KeyComparison.ReadEqualMeansSameKey | src/pointless_cmp.c:496-545 | values of two buffers that do not differ in the encoding of a bitvector first compare equal exactly when they have one key, and then they hash alike |
| KeyComparison.WithoutBitsNotMisled | src/pointless_cmp.c:496-545 | in buffers, values without bitvectors are never misread |
| KeyComparison.CompareRead | src/pointless_cmp.c:347-369 | the recursive comparison of the reader, with its loop over vectors and its limit on depth, computes that comparison |
| KeyComparison.CompareCreated | src/pointless_cmp.c:371-392 | the same for the create API, which dispatches on the first value only |
| KeyComparison.FirstDifferenceDecides | src/pointless_cmp.c:347-369 | vectors are ordered by their first items that are not equal, else by their lengths |
| KeyComparison.KindsAreOrderedByType | src/pointless_cmp.c:496-514 | in a buffer, values of different kinds are ordered by their type codes |
| KeyComparison.VectorsTakeTwoLevels | src/pointless_cmp.c:347-369 | a level of vectors takes two of the 512 levels of depth |
| KeyComparison.SameKindComparesRight | src/pointless_cmp.c:516-534 | keys whose parts are of the same kinds are loosely equal only if they are equal |
| KeyComparison.LooseEqualIff | src/pointless_cmp.c:524-530 | keys are loosely equal exactly when they are equal, or of different kinds with a first one that takes anything (null, a string, zero, no bits), or vectors of one length of such pairs |
| TableComparison.TableAcceptedIff | src/pointless_hash_table.c:165-175 | a set or map of keys that can be laid out and compared is accepted exactly when no two of its keys share a hash and are equal or confused; otherwise it is refused as having duplicates |
| TableComparison.DistinctKeysAccepted | src/pointless_create.c:106-133 | when keys of different kinds never share a hash, exactly the tables of pairwise different keys are accepted |
| TableComparison.DistinctKeysAcceptedIff | src/pointless_hash_table.c:165-175 | pairwise different keys are accepted exactly when no two of them share a hash and are confused |
| TableComparison.ZeroAndEmptyTextRefused | src/pointless_cmp.c:525-526 | 0 and the empty string, in either order, are refused as duplicate keys |
| TableComparison.NullRefused | src/pointless_cmp.c:55-56 | null before any other key of hash 0 is refused as a duplicate |
| TableComparison.PrivateNumbersMisread | src/pointless_cmp.c:337-341 | two vectors that the library owns and that were created for numbers are misread exactly when both have items |
| TableComparison.SevenAndSevenMisread | src/pointless_cmp.c:337-341 | two such vectors that hold just the number 7 |
| JudyTree.IndexesAscend | judy-1.0.5/src/JudyCommon/JudyPrivateBranch.h:196-298 | the indexes of a well-formed tree, read from left to right, are strictly ascending numbers of its bytes |
| JudyByCount.ScanLinear | judy-1.0.5/src/JudyCommon/JudyByCount.c:270-297 | the upward loop picks the child that holds the rank, and knows how many indexes come before it |
| JudyByCount.ScanBitmapUp | judy-1.0.5/src/JudyCommon/JudyByCount.c:359-402 | the same in a bitmap branch, group by group |
| JudyByCount.ScanBitmapDown | judy-1.0.5/src/JudyCommon/JudyByCount.c:404-448 | the downward loop picks the child that holds the rank |
| JudyByCount.SameGroupChild | judy-1.0.5/src/JudyCommon/JudyByCount.c:359-448 | upward and downward scans of a bitmap branch pick the same child and leave the same rank |
| JudyByCount.ScanSlotsUp | judy-1.0.5/src/JudyCommon/JudyByCount.c:501-537 | the same in an uncompressed branch, passing over null children |
| JudyByCount.ScanSlotsDown | judy-1.0.5/src/JudyCommon/JudyByCount.c:539-575 | the downward loop of an uncompressed branch |
| JudyByCount.SameSlot | judy-1.0.5/src/JudyCommon/JudyByCount.c:501-575 | upward and downward scans of an uncompressed branch pick the same slot and leave the same rank |
| JudyByCount.PicksUnique | judy-1.0.5/src/JudyCommon/JudyByCount.c:229-232 | at most one child of a branch holds a rank |
| JudyByCount.FindDigit | judy-1.0.5/src/JudyCommon/JudyPrivate.h:842-864 | shifting through a bitmap finds the position of the set bit of the given rank |
| JudyByCount.BitmapLeafDigit | judy-1.0.5/src/JudyCommon/JudyByCount.c:681-770 | either direction of counting in a bitmap leaf ends at the digit of the given rank |
| JudyByCount.Traverse | judy-1.0.5/src/JudyCommon/JudyByCount.c:234-954 | the descent from the root composes the index of the given rank |
| JudyByCount.ByCount | judy-1.0.5/src/JudyCommon/JudyByCount.c:99-954 | for every 1 <= Count <= population, the index with exactly Count - 1 smaller ones; nothing is found for any other Count |
| JudyLookup.FindChild | judy-1.0.5/src/JudyCommon/JudyGet.c:160-387 | the child of a branch for a byte, found in a list, by a bit and its rank in a bitmap, or in a slot: absent exactly if no child has that byte |
| JudyLookup.InLeaf | judy-1.0.5/src/JudyCommon/JudyGet.c:393-569 | a leaf, listed or a bitmap, holds the rest of an index exactly if it is among its last bytes |
| JudyLookup.Walk | judy-1.0.5/src/JudyCommon/JudyGet.c:118-569 | the walk from the root, byte by byte, finds exactly the indexes of the tree |
| JudyLookup.Get | judy-1.0.5/src/JudyCommon/JudyGet.c:60-130 | an index is found exactly if it is among those that selection by rank goes through |

## Left out
- File output, memory mapping, temporary files and error numbers; output is an append-only byte sequence.
- Allocation failure. Running out of handles is modelled in `Recreate` only, where the code would return the failure handle; the
  create API requires room for the new value.
- Create.Create.CreateOutput: the round trip is stated for states whose vector lengths fit 32 bits, whose heap fits 64 bits and whose
  tables have at most 2^31 wanted buckets; the code does not check these sizes.
- Create.Create.CreateOutput: the empty vectors that sets and maps keep must not be among the handles that lie on a cycle, as the
  code asserts.
- Create.Create.CreateText: takes the characters before the terminating zero; conversions between 2-byte, 4-byte and single-byte
  strings are left out.
- HashTable.Populate: the comparison of two keys is a parameter, a function of the two keys; `TableComparison` puts the library's
  own comparison in its place.
- ValueComparison.Compare: comparisons with floats are a parameter. Where a comparison misreads (`ValueComparison.Misled`) it has
  no result here; what the code makes of bitvectors of different encodings is in `ValueComparison.CompareByFirstEncoding`.
- ValueComparison.ComparedExactly: speaks of values without floats, sets and maps, nested at most 255 deep; beyond 256 levels the
  code reports an error.
- JudyByCount.ByCount: the populations kept in the tree are those of its nodes; the index is composed from its bytes, and masking
  them into the caller's word is not modelled; the number of indexes is below 2^64, so sums do not wrap.
- Judy arrays other than selection by rank and the lookup of an index: they stand as finite maps.
- Reader.ValueShape: a read outside the buffer yields a broken value, where the code would read whatever lies there.
- ValueHash.HashCreate: the hash recursion is cut off at a depth given by the caller; the code relies on hashable vectors being
  acyclic.
- Recreate.Recreator.Convert: the five memo arrays are one map from table and index to handle.
- Recreate.RecreateRoot: assumes what a later pass of validation checks, that the key and value vectors of a map have one length.
- Validation passes 2 and 3 as walks; what pass 3 checks at one set or map is modelled in `HashValidate` and `WrittenTables`.
- The cycle marker, `src/pointless_cycle_marker.c`, is not part of this model: which handles lie on a cycle is a parameter.
- The tokenizer of the expression compiler: the model starts from the token array.
- Path expressions, and the Python bindings apart from projection sorting.
- Growth of dynamic arrays: they are sequences.
