# Verification models

This project models the algorithmic files of the archive and proves what they
promise: the string pools with their compacting collector, the determinant and
inverse of the matrix calculator, the vectorised grid fills and the up-sampler
of the SIMD noise library, the bounds of its scalar noise, and three containers
and a parser. `dafny verify dfyconfig.toml` checks all of it.

## The parts

**String pools** (`Arena`, `PoolBytes`, `PoolLayout`, `StringPool`,
`StringPoolRuns`).
`Arena` is the allocator on values: slots, the data in use, garbage, Top. It
says what one call does to the texts, what every call keeps, and that a run of
calls is a run on a map. `StringPool` is the class with the fields of the
source. Its format `Sized` is StringPoolL (16-bit length in front, low byte
first), its format `Terminated` is StringPoolS. Each method is proved against
the arena, bytes and offset table included. A ghost set of released buffers
shows that no released buffer is read while a string of the pool is copied.
`StringPoolRuns` puts calls together: a run on an object is a run on a map.

Where a store would be outside the buffer, or a memcpy would overlap itself, the
source goes on all the same; the methods return ok = false, and their model ends.

Five facts about the code came out of it. When the slot at Top must grow past the
buffer, the collector moves Top to the highest index with a text, but Allocate
still returns the slot at Top: if the call is for another index, the text lands
on the wrong string (`Misplaced`, `Arena.LongTextLandsElsewhere`), and if it is
longer than the new buffer has room for there, it is written past the buffer
(`PastEnd`, `Arena.LongTextPastEnd`, three calls from an empty pool).
`Arena.FitsExactly` says that this is the only way out of the buffer, for every
well-formed pool, and `Arena.RunIsSafe` that a pool stays well formed until then.

`Clear` sets DataSize to 0, so that the next text takes the place of the empty
string at offset 0, where every index without a slot reads it
(`Arena.ClearedTextIsShared`, on an object `StringPoolRuns.ClearThenSet`).
Another Clear does not erase it (`Arena.ClearRefines`); a collection does. A pool
is therefore a map with a default, the text at offset 0 (`Strings`, `View`): the
theorems follow both over every run, with Clear at any place. While the default
is the empty string, `Arena.StepRefines` gives the exact condition for a call to
act as on a plain map, and `Arena.ClearedPoolIsMapExactly` for the first text
after Clear to leave it empty.

Concatenate of StringPoolL checks only the second operand's length, and Set with
a length checks none: `PoolBytes.ReadLengthExact` says which lengths survive,
`StringPoolRuns.LongSum` that the others are found modulo 65536, and
`PoolBytes.LongTextCollected` what a collection copies of such a text, its
closing zero not included.

When Allocate collects for a string that has a slot, the collector moves the old
text along, though its place was just counted as garbage and the count is then
set to 0: these bytes are counted nowhere until the next collection
(`Arena.PutCounts`).

A part of a string stored as that string, or appended to it, may be copied with a
memcpy that overlaps itself (`PoolLayout.OwnPartClashes`,
`PoolLayout.OwnTailClashes`, `PoolLayout.AppendClashes` say when exactly).

**Matrices** (`Laplace`, `Adjugate`, `MatrixCalculator`). `Laplace.Det` expands
along the first row and is the reference. The laws of row operations, expansion
along any row and column, and the transpose are proved for it, and `Adjugate`
derives both products with the adjoint. The class `Calculator` runs the
source's loops in place over exact reals.

**Grid fills** (`Bits`, `Grid`, `GridFill`, `WhiteNoise`, `VectorSets`,
`SampledFill`). Noise is any function of a cell, a vector is a sequence of 2^k
lanes, k arbitrary. Both paths of each fill write that function at every flat
position. The row path of the white noise works in wrapping 32-bit lanes. The
up-sampler is proved to write, for each output cell, the interpolation that
division and remainder prescribe, and to reproduce every polynomial of degree at
most one in each coordinate: from a grid half a cell off, from a vector set
exactly. Blocks match world coordinates only for starts
on a multiple of the sample size or half way between two
(`SampledFill.WorldAlignedExactly`); other starts shift the pattern.

**Noise bounds** (`Interpolation`, `Lattice`, `Octaves`, `FastNoise`,
`Seeding`, `ValueTable`, `Cellular`). Exact reals again; a division by zero gives
none. The permutation table is shuffled from the draws of the random generator,
which may be 256, one more than the last index. The table is a permutation
exactly when none is, or when the very first is and the byte that lay in entry
256 before happens to be the number that the later draws bring there
(`Seeding.TurnsPermute`). The bounds hold either way. The bounding constant of
the fractal sum is sufficient over all tables within 1 exactly for gains that are
not negative, or one octave (`Octaves.BoundingSufficesExactly`). For all other
gains and numbers of octaves it fails for the program's own table:
`FastNoise.NegativeGainExceeds` shuffles it so that the signs of the octaves
follow those of the gain, and gets a sum outside [-1, 1].

**Containers** (`DynamicQueue`, `MixedPool`, `SortedList`, `CpuList`). A put by
reference takes an array and a position, so that a reference into the
container's own buffer is a case like any other. For SortedList it is a case
with a surprise: Put moves the records before it reads the reference
(`SortedList.OwnRecordPut`). Runs of calls are proved for the three
containers (`DynamicQueue.Run`, `MixedPool.Run`, `SortedList.Run`).

`Arithmetic` and `Options` hold what the parts share.

## Model

| member | source | states |
|---|---|---|
| Arena.PutView | manuals/agner-fog/cppexamples/StringPoolL.cpp:505-544 | What Allocate and the store make of the strings of every well-formed pool, the text at offset 0 included, whichever way they go: the text is at its index, at offset 0, or astray, and a new buffer drops the text at offset 0 |
| Arena.PutTexts | manuals/agner-fog/cppexamples/StringPoolL.cpp:505-544 | Index i reads the new text and every other index what it read before if and only if the text is not misplaced, nor at offset 0 unless the others read it there already, nor in a new buffer while others read a text at offset 0 |
| Arena.FitsExactly | manuals/agner-fog/cppexamples/StringPoolL.cpp:505-544 | In every well-formed pool, a text at offset 0 or not, the place Allocate returns lies inside the buffer if and only if the text is not past the end: misplaced, and longer than the new buffer has room for behind the texts that the collector put before Top |
| Arena.PutKeepsInv | manuals/agner-fog/cppexamples/StringPoolL.cpp:505-544 | After Allocate and the store the slots are disjoint and behind the text at offset 0, the slot at Top ends at DataSize, and DataSize covers every slot and the garbage and is within the buffer, if and only if the text is not past the end |
| Arena.PutCounts | manuals/agner-fog/cppexamples/StringPoolL.cpp:505-544 | The store leaves no byte of the data in use unaccounted for by texts and garbage that was not before, except when a new buffer is taken for an index with a slot: its old text is moved along and not counted as garbage |
| Arena.OthersCount | manuals/agner-fog/cppexamples/StringPoolL.cpp:244-447 | No other call changes what is accounted for, and after a collection everything is |
| Arena.CompactKeepsTexts | manuals/agner-fog/cppexamples/StringPoolL.cpp:363-416 | The collector keeps the text of every slot and drops the one at offset 0: every index reads what it did before if and only if that is the empty one or no index reads it |
| Arena.CompactIsContiguous | manuals/agner-fog/cppexamples/StringPoolL.cpp:363-416 | After a collection the live slots follow each other in index order right behind the empty string at offset 0, and DataSize is exactly their total |
| Arena.ReserveKeepsInv | manuals/agner-fog/cppexamples/StringPoolL.cpp:363-416 | A collection of a well-formed pool keeps it well formed and keeps the text of every slot, and lowers DataSize by the garbage and the text at offset 0 at least |
| Arena.GrowKeepsInv | manuals/agner-fog/cppexamples/StringPoolL.cpp:255-262 | A new highest index exists with no text of its own; nothing else changes |
| Arena.EraseKeepsInv | manuals/agner-fog/cppexamples/StringPoolL.cpp:266-273 | Setting an empty text takes that index its text, and it reads the one at offset 0 then; the pool stays well formed |
| Arena.ClearRefines | manuals/agner-fog/cppexamples/StringPoolL.cpp:244-249 | Clear keeps every pool well formed; afterwards every index reads the text at offset 0, so that Clear erases if and only if that is the empty one |
| Arena.SetRefines | manuals/agner-fog/cppexamples/StringPoolL.cpp:253-323 | Set leaves a well-formed pool well formed if and only if the text is empty or not past the end; it does to the strings what assigning does, the text going where it goes; and while offset 0 holds the empty string, what an assignment does to a map if and only if the text is empty, or neither misplaced nor at offset 0 |
| Arena.AppendRefines | manuals/agner-fog/cppexamples/StringPoolL.cpp:327-359 | The same for Concatenate, on the sum, whose first part StringPoolL reads at offset 0 for an index without a slot and StringPoolS does not |
| Arena.StepRefines | manuals/agner-fog/cppexamples/StringPoolL.cpp:244-416 | Each call on any well-formed pool, Clear, copies and appends between strings of the pool among them, leaves it well formed if and only if its text is not past the end, and the strings follow; while offset 0 holds the empty string, it acts as on a map if and only if its text is neither misplaced nor at offset 0 |
| Arena.RunIsSafe | manuals/agner-fog/cppexamples/StringPoolL.cpp:244-416 | Over every run without a text past the end, Clear at any place in it, the pool stays well formed, no place lies outside the buffer, and the strings, the one at offset 0 included, are those the calls make of them |
| Arena.RunRefines | manuals/agner-fog/cppexamples/StringPoolL.cpp:244-416 | Over every run of calls that place their texts, Clear among them, the pool is a map from index to text |
| Arena.LongTextLandsElsewhere | manuals/agner-fog/cppexamples/StringPoolL.cpp:512-521 | Three calls from an empty pool after which a long text for string 0 has replaced string 1 and string 0 is unchanged |
| Arena.LongTextPastEnd | manuals/agner-fog/cppexamples/StringPoolL.cpp:512-521 | Three calls from an empty pool after which the place Allocate returns for a long text ends behind the buffer |
| Arena.ClearedTextIsShared | manuals/agner-fog/cppexamples/StringPoolL.cpp:244-249 | After Clear, a text that fits the kept buffer is read at every index, another Clear does not erase it, and the next collection drops it at every index; the pool stays well formed |
| Arena.ClearedPoolIsMapExactly | manuals/agner-fog/cppexamples/StringPoolL.cpp:244-249 | After Clear, the next text makes the pool a map with that text alone, and the empty string at offset 0, if and only if it is too long for the kept buffer |
| StringPoolRuns.Call | manuals/agner-fog/cppexamples/StringPoolL.cpp:244-447 | One call on any valid pool object, a copy or an append of one of its own strings among them, fails if and only if its text is past the end; otherwise the object is valid again and one step of the arena further; the buffers it uses are its own or new |
| StringPoolRuns.CallAll | manuals/agner-fog/cppexamples/StringPoolL.cpp:244-447 | Over every run without a text past the end, Clear at any place in it, a pool object stays valid, bytes and table included, and holds the strings the calls make of them; those of a map from index to text where the calls place their texts |
| StringPoolRuns.ClearThenSet | manuals/agner-fog/cppexamples/StringPoolL.cpp:244-249 | On an object: after Clear and a Set of string i that fits the kept buffer, Get and Len of any string j give that text, after another Clear too, and after a collection the empty one |
| StringPoolRuns.LongSum | manuals/agner-fog/cppexamples/StringPoolL.cpp:327-359 | On an object: after Concatenate of any placed sum, Len gives the length of the sum modulo 65536 |
| PoolBytes.ReadBack | manuals/agner-fog/cppexamples/StringPoolL.cpp:451-471 | A stored text is read back with its length, its bytes and its closing zero |
| PoolBytes.EncodedForm | manuals/agner-fog/cppexamples/StringPoolL.cpp:283-286 | A stored text is its length, low byte first, its bytes and a zero; without a header its bytes and a zero |
| PoolBytes.ReadLengthExact | manuals/agner-fog/cppexamples/StringPoolL.cpp:351-351 | The length read back is that of the text for exactly the texts the format can store: up to 65535 bytes with a header, no zero byte without one |
| PoolBytes.ReadLengthWraps | manuals/agner-fog/cppexamples/StringPoolL.cpp:351-351 | With a header, the length read back is that of the text modulo 65536 |
| PoolBytes.LongTextCollected | manuals/agner-fog/cppexamples/StringPoolL.cpp:384-399 | Of a text longer than 65535 bytes the collector copies the length found, that many bytes, and one more byte of the text where the closing zero should be |
| PoolLayout.SourceReady | manuals/agner-fog/cppexamples/StringPoolL.cpp:505-544 | Bytes of a text of the pool lie apart from the place given in the same buffer, or in the text that index i had there |
| PoolLayout.OwnPartClashes | manuals/agner-fog/cppexamples/StringPoolL.cpp:316-316 | A part of string i that is stored as string i overlaps its new place, without being there already, if and only if it begins behind the start of the string and before its own length |
| PoolLayout.OwnTailClashes | manuals/agner-fog/cppexamples/StringPoolL.cpp:354-355 | A tail of string i that is appended to string i with its closing zero overlaps its new place if and only if the slot is at Top and the buffer has room for it to grow there |
| PoolLayout.AppendClashes | manuals/agner-fog/cppexamples/StringPoolL.cpp:354-355 | When the first n bytes of string j are appended to string i with a closing zero, source and destination overlap if and only if they are all of string j, which begins where string i does, and that grows where it is |
| PoolBytes.StoreHolds | manuals/agner-fog/cppexamples/StringPoolL.cpp:283-286 | Storing a text in its slot leaves every other stored text as it is |
| PoolBytes.StrLen | manuals/agner-fog/cppexamples/StringPoolS.cpp:253-253 | The scan stops at the first zero |
| PoolBytes.CopyBytes | manuals/agner-fog/cppexamples/StringPoolL.cpp:389-389 | A block copy writes the source bytes as they were and nothing else |
| StringPool.StringPool.constructor | manuals/agner-fog/cppexamples/StringPoolL.cpp:226-229 | A new pool holds no text and no buffer |
| StringPool.StringPool.Len | manuals/agner-fog/cppexamples/StringPoolL.cpp:451-459 | The stored length, or the count up to the zero, of whatever text is stored; for a text the format can store it is that of the text |
| StringPool.StringPool.Get | manuals/agner-fog/cppexamples/StringPoolS.cpp:425-433 | Where it points are exactly the bytes of the text, and then a zero |
| StringPool.StringPool.ReserveNum | manuals/agner-fog/cppexamples/StringPoolL.cpp:420-447 | The offset table keeps its entries, and the new ones say empty |
| StringPool.StringPool.Reach | manuals/agner-fog/cppexamples/StringPoolL.cpp:255-262 | An index beyond Num comes to exist, with no text |
| StringPool.StringPool.EraseSlot | manuals/agner-fog/cppexamples/StringPoolL.cpp:266-273 | The slot becomes garbage of its full size |
| StringPool.StringPool.ReserveBuf | manuals/agner-fog/cppexamples/StringPoolL.cpp:363-416 | Bytes, table and counters after the collection are those of the packed arena; the old buffer is kept, not released |
| StringPool.StringPool.MoveTexts | manuals/agner-fog/cppexamples/StringPoolL.cpp:381-400 | The copy loop leaves every live text encoded at its packed place in the new buffer, table and Top accordingly |
| StringPool.StringPool.MoveText | manuals/agner-fog/cppexamples/StringPoolL.cpp:384-399 | One turn of the copy loop |
| StringPool.StringPool.Install | manuals/agner-fog/cppexamples/StringPoolL.cpp:401-415 | The new buffer takes over, and the replaced one becomes OldBuffer after an earlier one is released |
| StringPool.StringPool.GrowTop | manuals/agner-fog/cppexamples/StringPoolL.cpp:512-521 | The last slot grows where it is, or after a collection at the new Top |
| StringPool.StringPool.AddAtEnd | manuals/agner-fog/cppexamples/StringPoolL.cpp:534-543 | The slot behind the data, after a collection when the buffer is too small |
| StringPool.StringPool.Allocate | manuals/agner-fog/cppexamples/StringPoolL.cpp:505-544 | Whichever way it goes, the offset, the counters and the bytes are those of the arena's allocator, and no buffer is released but one already replaced |
| StringPool.StringPool.StoreText | manuals/agner-fog/cppexamples/StringPoolL.cpp:314-318 | Head, text and zero end up at the place, from a source that may lie elsewhere in the same buffer or there already, but not in a released one |
| StringPool.StringPool.StoreJoined | manuals/agner-fog/cppexamples/StringPoolL.cpp:350-354 | Both parts are stored one behind the other as they were before the call |
| StringPool.StringPool.Write | manuals/agner-fog/cppexamples/StringPoolL.cpp:314-322 | Allocates and stores bytes that may lie in any text of the pool; ok is false if and only if the store would be past the buffer or the copy would overlap itself |
| StringPool.StringPool.SetLength | manuals/agner-fog/cppexamples/StringPoolL.cpp:292-323 | The bytes given become string i as they were before the call, though they may lie in the pool's own buffer, in string i too; ok is false if and only if the store would be past the buffer or the copy would overlap itself; any length |
| StringPool.StringPool.Set | manuals/agner-fog/cppexamples/StringPoolL.cpp:253-288 | The C string given becomes string i as it was before the call; other strings change exactly as the place of the text says |
| StringPool.StringPool.Concatenate | manuals/agner-fog/cppexamples/StringPoolL.cpp:327-359 | The C string given, a part of string i too, is appended to string i as both were before the call, whatever the length of the sum; ok is false if and only if the store would be past the buffer or the copy would overlap itself |
| StringPool.StringPool.Join | manuals/agner-fog/cppexamples/StringPoolS.cpp:321-333 | Appending to a string that is not empty, the first part read from the buffer that Allocate may have replaced |
| StringPool.StringPool.Assign | manuals/agner-fog/cppexamples/StringPoolL.cpp:145-147 | String i becomes a copy of string j as j was before the call; i and j may be the same |
| StringPool.StringPool.AppendString | manuals/agner-fog/cppexamples/StringPoolS.cpp:137-137 | String j, as far as a C string goes, is appended to string i, even when the buffer is replaced in between; i and j may be the same unless the whole of it is doubled where it is |
| StringPool.StringPool.Clear | manuals/agner-fog/cppexamples/StringPoolL.cpp:244-249 | On any valid object: no index has a slot and nothing counts as used; every index reads the text at offset 0, which stays in the buffer |
| Laplace.SwapRows | todos/matrices/MatrixCalculator.java:569-577 | Exchanging two rows negates the Laplace determinant |
| Laplace.EqualRows | todos/matrices/MatrixCalculator.java:588-591 | A matrix with two equal rows has determinant 0 |
| Laplace.AddRowMultiple | todos/matrices/MatrixCalculator.java:588-591 | Adding a multiple of one row to another leaves the determinant |
| Laplace.TriangularDet | todos/matrices/MatrixCalculator.java:616-618 | The determinant of an upper triangular matrix is the product of its diagonal |
| Laplace.NoPivotDet | todos/matrices/MatrixCalculator.java:563-568 | When the rows are cleared up to a column and that column has no pivot left, the determinant is 0 |
| Laplace.RowExpansion | todos/matrices/MatrixCalculator.java:520-536 | Expansion along any row, with alternating signs, gives the determinant |
| Laplace.AlienExpansion | todos/matrices/MatrixCalculator.java:520-536 | Expansion of one row with the cofactors of another gives 0 |
| Laplace.ColumnExpansion | todos/matrices/MatrixCalculator.java:520-536 | Expansion along the first column gives the same determinant as along the first row |
| Laplace.DetTransposed | todos/matrices/MatrixCalculator.java:455-466 | A matrix and its transpose have the same determinant |
| Adjugate.TransposeMinor | todos/matrices/MatrixCalculator.java:535-539 | The minors of the transpose are the minors, mirrored |
| Adjugate.TimesAdjugate | todos/matrices/MatrixCalculator.java:503-542 | A times its adjoint is the determinant times the identity |
| Adjugate.AdjugateTimes | todos/matrices/MatrixCalculator.java:503-542 | The adjoint times A is the determinant times the identity |
| Adjugate.InverseBothSides | todos/matrices/MatrixCalculator.java:470-499 | With a non-zero determinant the scaled adjoint inverts A in both orders |
| MatrixCalculator.Calculator.ExchangeRows | todos/matrices/MatrixCalculator.java:570-574 | The element loop exchanges two rows and nothing else |
| MatrixCalculator.Calculator.SeekPivot | todos/matrices/MatrixCalculator.java:563-579 | The exchanges keep iDF times the determinant, and a column left without a pivot makes iDF 0 only for a singular matrix |
| MatrixCalculator.Calculator.AddRow | todos/matrices/MatrixCalculator.java:588-591 | The loop from col on adds the multiple to the whole row, as the cleared part is zero |
| MatrixCalculator.Calculator.Eliminate | todos/matrices/MatrixCalculator.java:587-594 | One elimination clears its element and keeps iDF times the determinant |
| MatrixCalculator.Calculator.UpperTriangle | todos/matrices/MatrixCalculator.java:546-602 | The result is upper triangular and its determinant times iDF is that of the matrix on entry |
| MatrixCalculator.Calculator.Determinant | todos/matrices/MatrixCalculator.java:606-626 | Returns the Laplace determinant of the matrix as it was on entry, any size, 0 included |
| MatrixCalculator.Calculator.RowColumnProduct | todos/matrices/MatrixCalculator.java:447-452 | The sum of products of a row and a column |
| MatrixCalculator.Calculator.Transpose | todos/matrices/MatrixCalculator.java:455-466 | Element (i, j) of the result is element (j, i) |
| MatrixCalculator.Calculator.WithoutRowAndColumn | todos/matrices/MatrixCalculator.java:516-533 | The copy loop leaves out exactly row i and column j: its determinant is the minor |
| MatrixCalculator.Calculator.Cofactor | todos/matrices/MatrixCalculator.java:515-536 | One element of the result: the minor left by row i and column j, with its sign |
| MatrixCalculator.Calculator.Adjoint | todos/matrices/MatrixCalculator.java:503-542 | Returns the transposed matrix of signed minors |
| MatrixCalculator.Calculator.Inverse | todos/matrices/MatrixCalculator.java:470-499 | Inverts the matrix as it was on entry in both orders when its determinant is not 0, and returns the zero matrix otherwise |
| Bits.AndMask | todos/fastnoise/fastnoisesimd/FastNoiseSIMD_internal.cpp:1041-1041 | Masking with 2^k - 1 leaves the remainder by 2^k, of negative numbers too |
| GridFill.AlignedSizeIsLeastMultiple | todos/fastnoise/fastnoisesimd/FastNoiseSIMD_internal.cpp:1037-1048 | The aligned size is a whole number of vectors, at least the size, and no vector begun below the size passes it |
| Grid.FlatCellAt | todos/fastnoise/fastnoisesimd/FastNoiseSIMD.cpp:316-330 | Positions decode by division and remainder to cells of the grid, one each |
| Grid.FlatInside | todos/fastnoise/fastnoisesimd/FastNoiseSIMD.cpp:316-330 | Cells of the grid encode to positions in range, and back |
| Grid.FlatSteps | todos/fastnoise/fastnoisesimd/FastNoiseSIMD.cpp:316-330 | The next cell along z is one position on, along y one row, along x one plane |
| GridFill.ResetKeepsPosition | todos/fastnoise/fastnoisesimd/FastNoiseSIMD_internal.cpp:1060-1067 | One carry keeps a lane's flat position and takes one row length off its overrun |
| GridFill.AxisReset | todos/fastnoise/fastnoisesimd/FastNoiseSIMD_internal.cpp:1060-1067 | After the carries every lane has y and z in range and stands at its own position |
| GridFill.LanesDecoded | todos/fastnoise/fastnoisesimd/FastNoiseSIMD_internal.cpp:1060-1067 | Lanes in range at their positions are the cells division and remainder give |
| GridFill.OdometerFill | todos/fastnoise/fastnoisesimd/FastNoiseSIMD_internal.cpp:1213-1251 | The odometer path writes f of every cell at its position, and nothing beyond the aligned size |
| GridFill.RowFill | todos/fastnoise/fastnoisesimd/FastNoiseSIMD_internal.cpp:1163-1210 | The row path writes f of every cell at its position, and nothing beyond the grid |
| GridFill.SetBuilder | todos/fastnoise/fastnoisesimd/FastNoiseSIMD_internal.cpp:1162-1251 | Either path fills the whole grid with f in flat order and stays within its extent |
| WhiteNoise.MultiplesStep | todos/fastnoise/fastnoisesimd/FastNoiseSIMD_internal.cpp:1525-1529 | A lane that holds a coordinate times a prime, stepped by d times the prime, holds the coordinate d further on |
| WhiteNoise.WrapIsLane | todos/fastnoise/fastnoisesimd/FastNoiseSIMD_internal.cpp:1504-1529 | The value a lane keeps is the only signed 32-bit number that differs from the true one by a multiple of 2^32 |
| WhiteNoise.RowFill | todos/fastnoise/fastnoisesimd/FastNoiseSIMD_internal.cpp:1502-1537 | Additive stepping alone gives every cell the hash of the only signed 32-bit numbers that its coordinates times their primes are modulo 2^32 |
| WhiteNoise.FillWhiteNoiseSet | todos/fastnoise/fastnoisesimd/FastNoiseSIMD_internal.cpp:1496-1565 | Both branches write the hash of the only signed 32-bit numbers that the multiplied coordinates are modulo 2^32 at every flat position, and nothing beyond the extent |
| VectorSets.VectorSet.FillVectorSet | todos/fastnoise/fastnoisesimd/FastNoiseSIMD.cpp:309-331 | Position n of the set holds the coordinates of cell n |
| VectorSets.VectorSet.FillSamplingVectorSet | todos/fastnoise/fastnoisesimd/FastNoiseSIMD.cpp:340-392 | Position n holds the coordinates of sample n, the sample size apart; a scale of 0 or less gives the plain set |
| VectorSets.FillNoiseSet | todos/fastnoise/fastnoisesimd/FastNoiseSIMD_internal.cpp:1376-1418 | Every position of the set gets f of its coordinates, with aligned sets or without, whatever the last load finds behind the set, and nothing beyond the set's elements is written |
| VectorSets.SamplesCover | todos/fastnoise/fastnoisesimd/FastNoiseSIMD_internal.cpp:2152-2167 | Every cell's block has a sample on both sides |
| VectorSets.SamplesNeeded | todos/fastnoise/fastnoisesimd/FastNoiseSIMD_internal.cpp:2152-2167 | With one sample fewer the last cell would have none on its far side |
| SampledFill.OffsetReachesMultiple | todos/fastnoise/fastnoisesimd/FastNoiseSIMD_internal.cpp:2148-2150 | The offset is below the sample size and brings the start to a multiple of it |
| SampledFill.UnpackLocalIndex | todos/fastnoise/fastnoisesimd/FastNoiseSIMD_internal.cpp:2218-2229 | Shifts and masks take the packed counter apart into the local cell it numbers, and every local cell has a number below the cube |
| SampledFill.PlaceBlockLocal | todos/fastnoise/fastnoisesimd/FastNoiseSIMD_internal.cpp:2235-2237 | The output cell of a block's local cell has that block as its quotient and that local cell as its remainder |
| SampledFill.StoreLanes | todos/fastnoise/fastnoisesimd/FastNoiseSIMD_internal.cpp:2248-2257 | The guarded stores change only grid cells and only to what they should hold |
| SampledFill.FillBlock | todos/fastnoise/fastnoisesimd/FastNoiseSIMD_internal.cpp:2214-2261 | All cells of a block are written when the counter has passed the cube, however wide the vector |
| SampledFill.FillLine | todos/fastnoise/fastnoisesimd/FastNoiseSIMD_internal.cpp:2197-2263 | The corners carried along z are the samples around each block, read inside the sample array |
| SampledFill.Upsample | todos/fastnoise/fastnoisesimd/FastNoiseSIMD_internal.cpp:2192-2267 | Every output cell holds the interpolation of its own block at its own local cell, and nothing else is written |
| SampledFill.UpsampledReproduces | todos/fastnoise/fastnoisesimd/FastNoiseSIMD_internal.cpp:2218-2246 | Interpolating samples of a polynomial of degree at most one in each coordinate gives the polynomial at the middle of each cell |
| SampledFill.FillSampledNoiseSet | todos/fastnoise/fastnoisesimd/FastNoiseSIMD_internal.cpp:2133-2271 | The grid gets noise of the coarse grid, interpolated by block (X + offset) div S and local (X + offset) mod S: where the coarse noise is a polynomial of degree at most one in each coordinate, cell X holds its value at (start + X + 1/2) / S for a start on a multiple of S, and displaced as stated for any other; a scale of 0 or less is the plain fill |
| SampledFill.FillSampledVectorSet | todos/fastnoise/fastnoisesimd/FastNoiseSIMD_internal.cpp:2273-2413 | The same from a vector set, with offset 0 and without the lower guard: as the samples are taken half a cell back, noise that is such a polynomial is given back at every cell's own coordinates |
| SampledFill.UpsampledWithin | todos/fastnoise/fastnoisesimd/FastNoiseSIMD_internal.cpp:2239-2246 | Interpolated noise stays within the range of the samples |
| SampledFill.WorldAlignedExactly | todos/fastnoise/fastnoisesimd/FastNoiseSIMD_internal.cpp:2148-2150 | A cell gets the block and local cell of its world coordinate if and only if twice the start is a multiple of the sample size |
| Interpolation.LerpWithin | todos/fastnoise/noise/FastNoise.cpp:188-188 | Interpolating with a weight in [0, 1] stays between the ends |
| Interpolation.HermiteUnit | todos/fastnoise/noise/FastNoise.cpp:189-189 | Maps [0, 1] into itself and keeps its ends |
| Interpolation.HermiteSlope | todos/fastnoise/noise/FastNoise.cpp:189-189 | Between t and u it rises by 6t(1 - t)(u - t), but for at most 3(u - t)^2 |
| Interpolation.QuinticUnit | todos/fastnoise/noise/FastNoise.cpp:190-190 | Maps [0, 1] into itself and keeps its ends |
| Interpolation.QuinticSlope | todos/fastnoise/noise/FastNoise.cpp:190-190 | Between t and u it rises by 30t^2(1 - t)^2(u - t), but for at most 90(u - t)^2 |
| Interpolation.CubicWithin | todos/fastnoise/noise/FastNoise.cpp:191-195 | Four values within m give one within 1.5 m |
| Interpolation.CubicBoundIsLeast | todos/fastnoise/noise/FastNoise.cpp:191-195 | 1.5 m is reached |
| Interpolation.CubicEnds | todos/fastnoise/noise/FastNoise.cpp:191-195 | A cubic passes through its two inner values, and its slope at each is the difference of the values on both sides, but for at most 10mt^2 at distance t |
| Interpolation.LerpThrice | todos/fastnoise/noise/FastNoise.cpp:629-642 | Three nested interpolations between the corners of a cube reproduce every polynomial of degree at most one in each coordinate |
| Interpolation.Through | todos/fastnoise/noise/FastNoise.cpp:629-642 | Every eight values at the corners of a cube are those of such a polynomial |
| Lattice.FastFloorIsFloor | todos/fastnoise/noise/FastNoise.cpp:184-184 | The floor, but one low at exactly the negative integers; the distance to it is in [0, 1] always |
| Lattice.ValueFromEither | todos/fastnoise/noise/FastNoise.cpp:605-643 | Reckoned from either of two lattice cells that meet at the point, value noise is the same |
| Lattice.ValueReproduces | todos/fastnoise/noise/FastNoise.cpp:605-643 | Value noise is the polynomial through the eight values around, each coordinate moved in its cell by the interpolant |
| Lattice.SmoothRises | todos/fastnoise/noise/FastNoise.cpp:615-632 | The interpolant at t is t for Linear, between 2t^2 and 3t^2 for Hermite and between 4t^3 and 10t^3 for Quintic up to one half, and mirrored beyond |
| Lattice.CubicFromEither | todos/fastnoise/noise/FastNoise.cpp:1549-1573 | Reckoned from either of two lattice cells that meet at the point, cubic noise is the same |
| Lattice.CubicOfProduct | todos/fastnoise/noise/FastNoise.cpp:1549-1573 | For values that are a product of one factor for each axis, cubic noise is the product of the cubics along the axes |
| Lattice.ValueBounded | todos/fastnoise/noise/FastNoise.cpp:635-642 | Value noise is within the bound of the lattice values, for all three interpolants |
| Lattice.CubicVolumeWithin | todos/fastnoise/noise/FastNoise.cpp:1549-1573 | Three nested cubics multiply the bound by 1.5 three times and no more |
| FastNoise.FastNoise.SingleValue | todos/fastnoise/noise/FastNoise.cpp:605-643 | Within [-1, 1] at every point, and equal to value noise with the true floor, though FastFloor is one low at negative integers |
| FastNoise.FastNoise.ValueAtPoint | todos/fastnoise/noise/FastNoise.cpp:605-643 | At every lattice point, negative ones too, value noise is the table value of that point |
| FastNoise.FastNoise.ValueOnAxes | todos/fastnoise/noise/FastNoise.cpp:605-643 | On a line between two lattice points, along each axis, value noise goes from one value to the other as far as the interpolant has risen |
| FastNoise.FastNoise.ValueBetween | todos/fastnoise/noise/FastNoise.cpp:605-643 | Everywhere it is the polynomial through the eight table values around, each coordinate moved by the interpolant |
| FastNoise.FastNoise.SingleCubicBounded | todos/fastnoise/noise/FastNoise.cpp:1526-1574 | With its bounding constant cubic noise in three and in two dimensions is within [-1, 1] at every point |
| FastNoise.FastNoise.CubicAtPoint | todos/fastnoise/noise/FastNoise.cpp:1549-1573 | At every lattice point, negative ones too, cubic noise is 8/27 of the table value of that point, 4/9 in two dimensions |
| FastNoise.FastNoise.CubicAlongX | todos/fastnoise/noise/FastNoise.cpp:1549-1573 | On a line of lattice points along x, cubic noise leaves each point and reaches the next with the slope between the neighbours of that point |
| FastNoise.FastNoise.CubicAlongY | todos/fastnoise/noise/FastNoise.cpp:1549-1573 | The same along y |
| FastNoise.FastNoise.CubicAlongZ | todos/fastnoise/noise/FastNoise.cpp:1549-1573 | The same along z |
| FastNoise.FastNoise.Index3D | todos/fastnoise/noise/FastNoise.cpp:260-263 | The nested table lookups stay inside the table and give a byte |
| FastNoise.FastNoise.Index2D | todos/fastnoise/noise/FastNoise.cpp:256-259 | The same in two dimensions |
| FastNoise.FastNoise.IndexChain | todos/fastnoise/noise/FastNoise.cpp:256-263 | Each lookup starts from its coordinate modulo 256 and what the coordinates behind it gave, x from y from z |
| FastNoise.FastNoise.IndexDiffers | todos/fastnoise/noise/FastNoise.cpp:256-263 | With a permutation twice over, points that differ on one axis get the same entry if and only if they are a multiple of 256 apart |
| Seeding.Shuffle | todos/fastnoise/noise/FastNoise.cpp:197-215 | The table of SetSeed is that of the turns in order, its second round repeats the first but for entry 256, and the table modulo 12 follows both rounds |
| Seeding.TurnsPermute | todos/fastnoise/noise/FastNoise.cpp:206-214 | The first 256 entries are a permutation if and only if no draw is 256, which the bounds of the distribution allow, or the first draw is and the byte that entry 256 held before is the number that the later draws bring there |
| Seeding.FirstDrawTooHigh | todos/fastnoise/noise/FastNoise.cpp:206-214 | After a first draw of 256, entry 0 keeps the byte that entry 256 held, and entry 256 ends with a number that follows from the later draws; it is 0 when none of them is 256 |
| Seeding.AnyPermutation | todos/fastnoise/noise/FastNoise.cpp:206-214 | Every permutation of the bytes is shuffled by some draws, none of them 256 |
| Seeding.LastDrawTooHigh | todos/fastnoise/noise/FastNoise.cpp:208-212 | A last draw of 256 puts one value into the table twice and leaves one out |
| Seeding.TurnsBytes | todos/fastnoise/noise/FastNoise.cpp:206-214 | Every entry is a byte, whatever was drawn |
| FastNoise.FastNoise.constructor | todos/fastnoise/noise/FastNoise.h:48-48 | A new object's value table is VAL_LUT, its permutation table the shuffled one, with byte-sized entries whatever was drawn, and its bounding constant and cellular indices are in order |
| ValueTable.ValuesWithin | todos/fastnoise/noise/FastNoise.cpp:68-86 | Every entry of VAL_LUT is within [-1, 1] |
| ValueTable.SignsAlternate | todos/fastnoise/noise/FastNoise.cpp:68-86 | In one order of the entries of VAL_LUT their signs alternate |
| ValueTable.SortThrice | todos/fastnoise/noise/FastNoise.cpp:68-86 | Three steps of the permutation that makes this order lead back |
| FastNoise.FastNoise.CalculateFractalBounding | todos/fastnoise/noise/FastNoise.cpp:217-227 | The constant is one over the sum of the amplitudes of the octaves, or none when they cancel out |
| FastNoise.FastNoise.SetFractalOctaves | todos/fastnoise/noise/FastNoise.h:91-91 | The constant follows a change of octaves |
| FastNoise.FastNoise.SetFractalGain | todos/fastnoise/noise/FastNoise.h:105-105 | The constant follows a change of gain |
| FastNoise.FastNoise.SumOctaves | todos/fastnoise/noise/FastNoise.cpp:543-557 | The loop sums the octaves at growing frequency and falling amplitude |
| FastNoise.FastNoise.OctaveAfterSteps | todos/fastnoise/noise/FastNoise.cpp:549-557 | Octave i is the noise with offset m_perm[i] at the point stretched by a frequency that starts at 1 and is multiplied by the lacunarity i times |
| Octaves.WeightedRest | todos/fastnoise/noise/FastNoise.cpp:549-557 | The first octave counts fully, the others as a sum of their own times the gain |
| FastNoise.FastNoise.SingleValueFractalFBM | todos/fastnoise/noise/FastNoise.cpp:543-560 | The normalised sum of the octaves; within [-1, 1] when the gain is not negative or there is one octave, for up to 512 octaves |
| FastNoise.OctaveInOrder | todos/fastnoise/noise/FastNoise.cpp:260-263 | With the table shuffled into that order and lacunarity 1, octave i at point x of the axis is entry x + i in the order |
| FastNoise.NegativeGainExceeds | todos/fastnoise/noise/FastNoise.cpp:543-560 | For every negative gain and every number of octaves from 2 to 512 there are draws and a point for which the fractal sum of VAL_LUT's values leaves [-1, 1] or is divided by zero; for gain -0.5 and 2 octaves it is 3 |
| Octaves.WeightedWithin | todos/fastnoise/noise/FastNoise.cpp:549-557 | Octaves within 1 sum to no more than their amplitudes do |
| Octaves.InTurnExceeds | todos/fastnoise/noise/FastNoise.cpp:549-557 | Octaves of alternating signs leave [-1, 1] for a negative gain when the two with the largest amplitudes are 1 and -1 |
| Octaves.BoundingSufficesExactly | todos/fastnoise/noise/FastNoise.cpp:217-227 | The bounding constant keeps every sum of n values within 1, from whatever table, within 1 if and only if the gain is not negative or n is 1 |
| FastNoise.FastNoise.SetCellularDistance2Indices | todos/fastnoise/noise/FastNoise.cpp:229-236 | Afterwards 0 <= index0 <= index1 <= 3: the smaller and the larger index given, each cut to that range |
| Cellular.NetworkInserts | todos/fastnoise/noise/FastNoise.cpp:1837-1839 | The min-max network puts the new distance in its place and drops the last |
| Cellular.NetworkKeepsSmallest | todos/fastnoise/noise/FastNoise.cpp:1837-1839 | One step turns the list of the n smallest into that with the new distance counted in |
| Cellular.NearestIsSmallest | todos/fastnoise/noise/FastNoise.cpp:1818-1842 | After any distances the list is the sorted n smallest among them and the initial sentinels |
| Cellular.SmallestIsUnique | todos/fastnoise/noise/FastNoise.cpp:1818-1842 | Only one list has that property |
| Cellular.Step | todos/fastnoise/noise/FastNoise.cpp:1837-1839 | The downward loop in place is the network, and entries above index1 stay |
| Cellular.FindNearest | todos/fastnoise/noise/FastNoise.cpp:1812-1842 | The loops leave the list of the nearest over the 27 cells around |
| Cellular.AroundCovers | todos/fastnoise/noise/FastNoise.cpp:1822-1832 | The loops go through each cell within one of the rounded point |
| Cellular.JitterMoves | todos/fastnoise/noise/FastNoise.cpp:1828-1833 | The jittered point of a cell is off the cell's own, on each axis, by the table entry of that axis times the amount |
| Cellular.DistancesAgree | todos/fastnoise/noise/FastNoise.cpp:1812-1890 | Natural is Manhattan plus Euclidean, the square of Manhattan is at least Euclidean, and all treat the axes and both directions alike |
| Cellular.SingleCellular2Edge | todos/fastnoise/noise/FastNoise.cpp:1812-1907 | The result is what the return type asks for of the entries at index0 and index1 of the only sorted list of the smallest distances and sentinels: the far one, sum, difference, product or quotient; without jitter the nearest point is the least squared distance to any lattice point; none for a division by a zero distance |
| Cellular.ReturnTypesAgree | todos/fastnoise/noise/FastNoise.cpp:1892-1903 | At one point, Add and Sub together are twice Distance2, Mul is Div times the square of Distance2, and with equal entries Sub is 0 and Mul that square |
| Cellular.EdgeSign | todos/fastnoise/noise/FastNoise.cpp:1892-1903 | At every point and for every distance function, index0 <= index1 makes the difference of the two entries not negative and their quotient, where there is one, at most 1 |
| DynamicQueue.UnrolledBlocks | manuals/agner-fog/cppexamples/DynamicQueue.cpp:141-151 | An unbroken trail is one block of the ring, a wrapped or full one two |
| DynamicQueue.DynamicQueue.constructor | manuals/agner-fog/cppexamples/DynamicQueue.cpp:88-92 | A new queue is empty and has no buffer |
| DynamicQueue.DynamicQueue.CopyTrail | manuals/agner-fog/cppexamples/DynamicQueue.cpp:140-152 | The queue stands at the start of the new buffer, oldest first, whether it was unbroken, wrapped or full |
| DynamicQueue.DynamicQueue.ReAllocate | manuals/agner-fog/cppexamples/DynamicQueue.cpp:130-159 | A larger buffer with the same queue; the old buffer is kept |
| DynamicQueue.DynamicQueue.Reserve | manuals/agner-fog/cppexamples/DynamicQueue.cpp:103-126 | Only grows, keeping the queue; 0 empties it |
| DynamicQueue.DynamicQueue.Put | manuals/agner-fog/cppexamples/DynamicQueue.cpp:163-181 | Appends what the reference pointed to before the call, also when it points into the buffer that is replaced; a full buffer is doubled and a fixed space more, which keeps copies within twice the puts |
| DynamicQueue.DynamicQueue.Get | manuals/agner-fog/cppexamples/DynamicQueue.cpp:185-203 | Takes out the oldest |
| DynamicQueue.DynamicQueue.Index | manuals/agner-fog/cppexamples/DynamicQueue.cpp:207-217 | Refers to the i-th oldest |
| DynamicQueue.Do | manuals/agner-fog/cppexamples/DynamicQueue.cpp:103-217 | One call of a client does to the queue what it does to a sequence |
| DynamicQueue.Run | manuals/agner-fog/cppexamples/DynamicQueue.cpp:103-217 | Every run of puts, own-element puts, gets, assignments and reservations is a run of a first-in-first-out sequence; without Reserve it copies at most two elements per put |
| MixedPool.RoundUpIsLeastMultiple | manuals/agner-fog/cppexamples/MixedPool.cpp:151-151 | The least multiple of 16 that is not below the size |
| MixedPool.AlignUpIsLeastMultiple | manuals/agner-fog/cppexamples/MixedPool.cpp:251-251 | The least multiple of a that is not below DataSize |
| MixedPool.Run | manuals/agner-fog/cppexamples/MixedPool.cpp:132-260 | Over every run of pushes, own-byte pushes, alignments, resizes and reservations a pool object holds what the operations make of its bytes |
| MixedPool.PushRunGet | manuals/agner-fog/cppexamples/MixedPool.cpp:189-245 | On an object: what was pushed is at its offset after any run that takes nothing out, through growth and reservations |
| MixedPool.MixedPool.NewBuffer | manuals/agner-fog/cppexamples/MixedPool.cpp:209-222 | The same bytes in a larger buffer, zero after the data |
| MixedPool.MixedPool.ReserveSize | manuals/agner-fog/cppexamples/MixedPool.cpp:132-163 | Grows to the next multiple of 16 without changing the data; 0 leaves no bytes, no entries and no buffer |
| MixedPool.MixedPool.SetDataSize | manuals/agner-fog/cppexamples/MixedPool.cpp:165-186 | The pool has that many bytes, the old ones as far as they go and zeroes behind, and the bytes after the data stay zero |
| MixedPool.PutBytes | manuals/agner-fog/cppexamples/MixedPool.cpp:189-245 | The bytes, as they were, stand behind the data, or zeroes when there is no source |
| MixedPool.MixedPool.Push | manuals/agner-fog/cppexamples/MixedPool.cpp:189-245 | Appends the bytes as they were before the call, from the pool's own buffer too, or zeroes; returns the old size |
| MixedPool.MixedPool.Align | manuals/agner-fog/cppexamples/MixedPool.cpp:248-260 | Adds zeroes up to the least multiple of a |
| SortedList.InsertedSorted | manuals/agner-fog/cppexamples/SortedList.cpp:97-111 | A record equal to x keeps a list sorted in any strict weak order where the search puts it |
| SortedList.InsertedElements | manuals/agner-fog/cppexamples/SortedList.cpp:97-111 | Inserting adds exactly one record |
| SortedList.RemovedElements | manuals/agner-fog/cppexamples/SortedList.cpp:136-143 | Removing takes out exactly one record |
| SortedList.EqualsTogether | manuals/agner-fog/cppexamples/SortedList.cpp:147-156 | The records equal to x form one stretch, from where the search stops |
| SortedList.SortedList.Search | manuals/agner-fog/cppexamples/SortedList.cpp:78-93 | Finds the first position not below x |
| SortedList.SortedList.Put | manuals/agner-fog/cppexamples/SortedList.cpp:97-111 | The list stays sorted and gains one record equal to the one referred to, first among its equals; a full list is left alone |
| SortedList.Run | manuals/agner-fog/cppexamples/SortedList.cpp:97-143 | Over every run of calls the list stays sorted and holds what the calls make of it; with PutUnique and Remove alone it stays strictly increasing |
| SortedList.RunBalance | manuals/agner-fog/cppexamples/SortedList.cpp:97-143 | Over every run the records left and those taken out are the first ones and those put in, each as often |
| SortedList.SortedList.PutStoresExactly | manuals/agner-fog/cppexamples/SortedList.cpp:104-108 | The record stored is the one referred to unless the reference is to one of the list's own records that has a different equal before it |
| SortedList.OwnRecordPut | manuals/agner-fog/cppexamples/SortedList.cpp:104-108 | Three puts into an empty list: putting the list's own second record stores a copy of the first instead |
| SortedList.SortedList.PutUnique | manuals/agner-fog/cppexamples/SortedList.cpp:116-133 | Adds the record exactly when the list has no equal, and keeps a strictly increasing list so |
| SortedList.SortedList.Remove | manuals/agner-fog/cppexamples/SortedList.cpp:136-143 | Takes out record i and keeps the order, strict or not; an index out of range does nothing |
| SortedList.SortedList.Exists | manuals/agner-fog/cppexamples/SortedList.cpp:147-156 | Finds a record exactly when a search from the front would, and the same one |
| CpuList.PopCountIsSize | todos/fastnoise/fastnoisesimd/arm/cpu-features.c:369-369 | The population count is the size of the set of set bits |
| CpuList.ParseNumber | todos/fastnoise/fastnoisesimd/arm/cpu-features.c:300-324 | Reads the digits the text begins with, and fails exactly when there are none |
| CpuList.CpuList.Set | todos/fastnoise/fastnoisesimd/arm/cpu-features.c:361-365 | Sets the bit of an index below 32 and no other |
| CpuList.CpuList.And | todos/fastnoise/fastnoisesimd/arm/cpu-features.c:356-358 | Keeps what is in both |
| CpuList.CpuList.Parse | todos/fastnoise/fastnoisesimd/arm/cpu-features.c:383-431 | The mask gains exactly the processors below 32 that the items of the line cover |
| CpuList.ValueOfDecimal | todos/fastnoise/fastnoisesimd/arm/cpu-features.c:300-324 | The decimal digits of a number read back as the number |
| CpuList.ItemsOfRendered | todos/fastnoise/fastnoisesimd/arm/cpu-features.c:383-431 | Writing a list of numbers and ranges with commas and dashes, newline or not, and parsing it gives back the items |
| CpuList.JunkIgnored | todos/fastnoise/fastnoisesimd/arm/cpu-features.c:393-424 | What follows a number or a range up to the next comma is ignored, and the line is read on behind the comma |
| CpuList.NoNumberStops | todos/fastnoise/fastnoisesimd/arm/cpu-features.c:402-404 | A line is given up where no number begins |
| CpuList.DigitValues | todos/fastnoise/fastnoisesimd/arm/cpu-features.c:300-324 | Digits and letters of both cases have their values up to 15 |
| CpuList.RenderedCovers | todos/fastnoise/fastnoisesimd/arm/cpu-features.c:383-431 | The processors read from a written list are those the list names |
| CpuList.GetCpuCount | todos/fastnoise/fastnoisesimd/arm/cpu-features.c:637-651 | The count is the number of processors below 32 that both lines cover |

## Left out

- StringPool.StringPool.Len: requires a buffer; StringPoolL reads through a null pointer when only empty strings were ever set, and so do its Concatenate and its copies.
- StringPool.StringPool.SetLength: bytes of the pool's own buffer must lie in one of its texts, and a copy of bytes onto themselves counts as no change; when the store would be past the buffer, or the copy would overlap itself otherwise, nothing is said of what happens.
- StringPool.StringPool.Concatenate: the copy of the first part onto itself, when the slot grows where it is, counts as no change.
- MatrixCalculator.Calculator.Transpose: requires at least one row, as the source reads the first; Adjoint and Inverse inherit this.
- MatrixCalculator.Calculator.Determinant: rounding is not modelled, and a matrix is one square array, not an array of rows.
- GridFill.OdometerFill: coordinates and positions are unbounded integers.
- VectorSets.FillNoiseSet: without aligned sets the last load also reads behind the z coordinates of the set; what is found there is a parameter.
- SampledFill.FillSampledNoiseSet: agreement of neighbouring chunks is not claimed.
- WhiteNoise.FillWhiteNoiseSet: the hash of the coordinates is any function.
- FastNoise.FastNoise.constructor: the draws are a parameter, any that the bounds of the distribution allow, and so is the byte that entry 256 of the table holds before it is written; a second SetSeed is not modelled.
- FastNoise.FastNoise.SingleValueFractalFBM: three dimensions only; the sums of absolute values and the two-dimensional forms are the same loop.
- Cellular.SingleCellular2Edge: the three copies of its loop, one for each distance function, are one loop with the function as a parameter; return types of the other cellular function give 0 in the source and are not modelled.
- DynamicQueue.DynamicQueue.Get: requires an element; the source ends the program on an empty queue.
- MixedPool.MixedPool.Push: bytes of the pool's own buffer must be apart from the place they are copied to, as memcpy demands, unless the buffer is replaced.
- CpuList.CpuList.Parse: numbers are unbounded, which is the source for values below 2^31 - 1; beyond, its int overflows.
- StringPoolRuns.CallAll: a text to append is a C string, so it and an appended string hold no zero byte; in StringPoolL copies and appends need a buffer, as Len does; texts must be storable, so that they can be read again; a string is not appended to itself where the copy would overlap.
- StringPoolRuns.LongSum: after a sum that cannot be stored only reading is modelled on the object; `PoolBytes.LongTextCollected` describes the bytes that a collection takes.
- Error exits and failed allocations are preconditions everywhere; sizes and counters are unbounded integers except the 16-bit length, the 32-bit white noise lanes and the 32-bit processor mask.
- The wide-character pool, formatted printing, file output, substring search and single-character access of the pools.
- MultiplyMatrix and AddMatrix of the calculator, its window and its text parsing.
- Perlin and simplex noise, perturbation and the remaining fractal types.
- DynamicArray, AlignedArray, FIFOlist, FILOlist and SafeArray, which the queue and the pools already cover.
- The readers of system files and the processor feature flags beside the list parser.
