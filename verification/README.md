# The logical byte stream, verified

AEX2 serves slices of remote arrays. Everything in it is expressed in one
coordinate system, the *logical byte stream*: what a selection holds, flattened
in C order. This project models the code that produces, cuts, transfers and
reduces that stream, and proves each fast path equal to the short rule it stands
for.

* **Selection** (`Words`, `Radix`, `Spans`, `SpanReader`, `Gather`, `Selection`,
  `Expand`, `KeyMeaning`, `Resolve`, `Meaning`, `Walks`, `Planning`, `Wrapping`,
  `Contiguous`, `Runs`, `Elements`, `Layout`, `Overflow`). The rule is one line:
  output element *i* is source element *f(i)*, with *f* numpy's indexing, said index
  by index in `KeyMeaning`. `Layouts.ResolveLayout` and `Layouts.ReadWith` carry the
  main theorem: whatever the key, whatever the byte range, and whatever per-element
  cast, a read fills the buffer with exactly that range of the stream. Below it lie
  the odometer with its wrapped 64-bit prefixes, stretches merged and joined into
  spans, and elements cut in the middle.
* **Storage** (`Buffers`, `ChunkGrid`, `DecodeCache`, `Codecs`, `StoreKeys`,
  `LittleEndian`, `Zarr`, `ZarrRead`, `ZarrWrite`, `Fletcher`, `Shuffle`, `Hdf5`). The
  walk over padded chunks, nested once more for shards, agrees with the flat array;
  what a writer puts into a store reads back; the cache is invisible except in its
  counters.
* **Transfer** (`Pool`, `PoolSafety`, `PoolSteps`, `PoolEnds`, `PoolOutcome`,
  `PoolRetries`, `PoolBytes`, `Plan`, `Scatter`, `Serve`, `Delivery`, `FillBatch`). The
  work-stealing pool is a state machine with one step per lock region, claim or frame.
  It keeps every chunk in one place, never deadlocks, always ends, fails only for a
  cause named here, and on success every byte is right.
* **Reductions** (`Reduce`, `Fold`, `Accumulate`, `Reduction`). The block-wise fold
  pushes each element once into its own cell, and each accumulator is its textbook
  definition.
* **Server state** (`Registry`, `BlockSpec`). Two maps of plans kept in agreement,
  and the block header's printer and parser.

Code that updates objects in place is modelled by classes and methods over
arrays and buffers (`SpanReader`, `DecodeCache`, `Buffer`, `ScatterBuffer`,
`FetchReader`, `Accumulator`, `TransferRegistry`, `Layouts.ReadWith`,
`Shuffling.Unshuffle`); each is proved against a specification function or
predicate.

Some properties one might expect fail. Each is stated with an input, and with the
exact condition under which it holds:

* Nothing checks the element count of a selection, the base and offsets of a walk,
  or the first byte of a run (crates/aex-core/src/selection.rs:175-177, 552,
  778-804). A release build wraps them. `Overflows.ManyRowsVanish` and
  `Overflows.HighRowsWrap` are two keys that are then served wrongly without an
  error; `Layouts.ExactWhenItFits` says which are not. Under a cast one more
  product wraps (line 646): `Overflows.CastStartsOver`, `Layouts.StartsExactly`.
* A reduction counts its cells in the same way
  (crates/aex-core/src/reduce.rs:143-164): `Reductions.ManySumsVanish`,
  `Reductions.TooLargeMissed`.
* A zarr chain with a checksum before its compressor never reads back
  (`ChunkCodecs.Coders.OneCompressor`). What expands is longer than a chunk by the
  checksum's four bytes, but `ungzip` stops one byte past a chunk and the zstd
  destination is one chunk long (crates/aex-core/src/backends/zarr.rs:913-931).
  Such a chain parses (lines 868-910), so every chunk of it is reported as
  malformed. An HDF5 pipeline with Fletcher-32 before deflate fares the same
  (`Hdf5Chunks.OneDeflate`).
* A zero-length claim of the scatter buffer makes it refuse ranges that share no
  byte with it (`Scatter.EmptyClaimConflicts`), and can be released in another's
  place (`Scatter.DropsItsOwn`). Plans are never cut into empty chunks, so the pool
  never meets this (`Plans.BatchIsWellCut`).
* Once the 32-bit request id has come round, a plan can be given an id in use, and
  the registry's maps come apart (`Registry.CollisionDisagrees`).
* A printed block header is the parsed one except in its reserved byte, which the
  parser ignores (`BlockSpecs.PrintsWhatParses`).

Inputs from outside are parameters: what a connection does is the choice of the
next action, time is a number handed in, files and object stores are functions
from names to bytes, a source read is a function that may fail, compression
libraries are functions with an inverse. `dafny verify dfyconfig.toml` checks
everything.

## Model

| member | source | states |
|---|---|---|
| `Selecting.NormalizeIndex` | crates/aex-core/src/selection.rs:390-398 | an integer index is accepted exactly when it lies in `[-dim, dim)`, and becomes the position it names |
| `Selecting.SliceSelects` | crates/aex-core/src/selection.rs:405-466 | a slice is refused exactly when its step is 0; otherwise its range lies on the axis, starts where Python starts, spelled out without saturation or clamping functions, and visits exactly the positions Python's slice rule takes, for either sign of step |
| `Selecting.ReversedSlice` | crates/aex-core/src/selection.rs:429-432 | `[::-1]` takes position dim - 1 - k in step k, for every k |
| `Expanding.Expand` | crates/aex-core/src/selection.rs:238-308 | the expanded key, or the error, is the one the declarative expansion gives: ellipsis spelled out, new axes kept, missing axes taken whole |
| `KeyMeaning.KeyMeans` | crates/aex-core/src/selection.rs:238-387 | index by index what an accepted key says: which axis an index is about (from the front, or behind an ellipsis from the back), the position, list or slice it takes there, whether it joins the group (a list always, an integer exactly beside a list), and that every axis left out is taken whole, where the ellipsis stands or at the end |
| `KeyMeaning.KeyAccepted` | crates/aex-core/src/selection.rs:238-387 | a key expands exactly if it has one ellipsis at most, no more indices than axes, and every index in bounds, with a step that is not 0, on an axis an i64 can count |
| `KeyMeaning.KeyFails` | crates/aex-core/src/selection.rs:238-387 | a key that fits the rank and still fails, fails with the error of an index that does not fit its axis |
| `Meaning.ExpansionFits` | crates/aex-core/src/selection.rs:238-308 | every expansion consumes each source axis once, in order, and every index in it is on its axis |
| `Resolving.BroadcastLen` | crates/aex-core/src/selection.rs:350-364 | a length is found exactly when the index arrays broadcast, and it is the one they broadcast to |
| `Resolving.Resolve` | crates/aex-core/src/selection.rs:198-235 | resolution succeeds exactly when the key expands and its arrays broadcast; the group's members, length, adjacency and the output shape are then numpy's |
| `Resolving.AdjacentIsTogether` | crates/aex-core/src/selection.rs:198-235 | the group counts as adjacent exactly when nothing that is not a member stands between two members |
| `Meaning.SourceDot` | crates/aex-core/src/selection.rs:198-343 | the flat source position of an output index is the sum of what each entry of the key contributes on its own |
| `Walks.SqueezeWalk` | crates/aex-core/src/selection.rs:753-821 | dropping every dimension of length 1 changes no element a walk visits |
| `Elements.ElementWalk` | crates/aex-core/src/selection.rs:198-343 | output element n, unravelled over the output shape, goes to the source element the walk built from the key's rows reaches in n steps |
| `Planning.NewGathered` | crates/aex-core/src/selection.rs:753-821 | the walk is built exactly when every stride and every moving step fits its word; it is the walk of the squeezed rows, the group's where numpy puts it, with base and offsets wrapped as the unchecked sums wrap |
| `Wrapping.GoesToWrapped` | crates/aex-core/src/selection.rs:777-808 | a wrapped walk goes to the exact walk's source elements modulo 2^64, always |
| `Wrapping.NeverWrapped` | crates/aex-core/src/selection.rs:777-808 | a walk all of whose elements are below 2^64 has a base and offsets below it too: nothing wrapped |
| `Contiguity.ContiguousRun` | crates/aex-core/src/selection.rs:1182-1210 | a run is found exactly when every axis is an ascending run with only whole axes behind the first that moves (and it fits a word); it starts at the ravelled start and has the product of the lengths |
| `Contiguity.RunIsAscending` | crates/aex-core/src/selection.rs:119-137 | an axis is a run exactly when each position it names is one above the one before; the run is its first position and their number |
| `Runs.SameWalk` | crates/aex-core/src/selection.rs:698-708 | when at most one adjacent group member moves, walking the axes independently visits the rows numpy's group rule gives |
| `Contiguity.GuardLetsPass` | crates/aex-core/src/selection.rs:698-708 | the guard lets a selection pass exactly if it has no group, or an adjacent one of which no two members are longer than 1 |
| `Elements.PlanIsSelection` | crates/aex-core/src/selection.rs:753-821 | element n of a gathered walk is the source element numpy selects for output n |
| `Elements.RunIsSelection` | crates/aex-core/src/selection.rs:541-557 | when the contiguous path is chosen for a selection with elements, output n is source element start + n, for every n |
| `Elements.EmptyIsNothing` | crates/aex-core/src/selection.rs:1182-1210 | a selection the contiguous path takes for empty has no output elements |
| `Layouts.ResolveLayout` | crates/aex-core/src/selection.rs:508-567 | a layout is found exactly when the key resolves, its wrapped element count times the item size fits a word, and it is one run or addressable; it is contiguous exactly for one run; it leads to the selected elements modulo 2^64, and serves exactly them wherever count and places fit |
| `Layouts.ExactWhenItFits` | crates/aex-core/src/selection.rs:533-557 | a resolved layout counts and reaches exactly the selected elements if and only if their number, and the source position of each (for one run, its first byte), is below 2^64 |
| `Layouts.ArrayFitsWord` | crates/aex-core/src/selection.rs:508-567 | with fewer than 2^64 elements selected, an array whose bytes a word can count is always served exactly |
| `Layouts.CountsApart` | crates/aex-core/src/selection.rs:533-539 | below 2^64 elements the overflow check is a true one; from there on a true one refuses, so that the two disagree exactly where the residue times the item size still fits |
| `Layouts.FrontBacks` | crates/aex-core/src/selection.rs:508-567 | a larger, sparse array is served exactly through the front part the selection lies in |
| `Overflows.ManyRowsVanish` | crates/aex-core/src/selection.rs:175-177 | a concrete key of 2^65 elements whose count wraps to 0, so that it resolves to an empty stream |
| `Overflows.HighRowsWrap` | crates/aex-core/src/selection.rs:777-787 | a concrete key of two rows of a 2^80-element array whose base wraps to 0, so that the first two rows are served |
| `Gathering.Refresh` | crates/aex-core/src/selection.rs:858-865 | each wrapped 64-bit prefix is the true integer sum of the terms before it, taken modulo 2^64 |
| `Gathering.RowStretch` | crates/aex-core/src/selection.rs:829-921 | the stretch cut from a row names, after wrapping, exactly the true source elements of the outputs it stands for, all inside the source |
| `Gathering.PerFits` | crates/aex-core/src/selection.rs:873-886 | a strided stretch of the length the row loop allows spans at most the scratch ceiling |
| `Gathering.PerIs` | crates/aex-core/src/selection.rs:873-886 | a strided stretch names as many elements as the ceiling takes while neighbours are near enough to be read together, and one if they are not; a run is taken whole |
| `Gathering.StrideFits` | crates/aex-core/src/selection.rs:876-880 | the unchecked product of stride and item size that decides it never wraps for a walk inside an array whose bytes a word counts |
| `Gathering.Advance` | crates/aex-core/src/selection.rs:902-915 | the carry loop moves from any place in a row to the first element of the next one, or back to the start past the last, and every wrapped prefix stays exact |
| `Gathering.Hold` | crates/aex-core/src/selection.rs:990-1011 | merging a run into the pending one or passing the pending one on keeps the elements taken in, in order |
| `SpanReading.ExtentExact` | crates/aex-core/src/selection.rs:1069-1076 | the wrapping extent of a stretch is its true extent, covers each of its elements and stays in the source |
| `SpanReading.JoinFits` | crates/aex-core/src/selection.rs:1088-1100 | a joined span is at most the scratch ceiling |
| `SpanReading.JoinsIfNear` | crates/aex-core/src/selection.rs:1088-1100 | a stretch joins a span exactly if the elements between the two, on either side, are within the gap, and the two together within the ceiling |
| `SpanReading.StridedElement` | crates/aex-core/src/selection.rs:1150-1166 | wrapping signed steps land on each element of a stretch inside the bytes read for its span |
| `SpanReading.SpanReader.Take` | crates/aex-core/src/selection.rs:1062-1147 | taking a stretch appends its elements to those taken in, and what was copied out so far stays the bytes of a prefix of them |
| `SpanReading.SpanReader.Finish` | crates/aex-core/src/selection.rs:1104-1147 | after the last span is copied out, the output is the bytes of all elements taken in |
| `Spans.BytesOfRun` | crates/aex-core/src/selection.rs:1104-1147 | the bytes of consecutive elements, one after the other, are one slice of the source |
| `Gathering.ForEachStretch` | crates/aex-core/src/selection.rs:829-921 | for any first element and count, the stretches fed to the sink name exactly the elements of that part of the stream, in order, unless a source read fails, and then the error is the source's |
| `Gathering.Read` | crates/aex-core/src/selection.rs:924-986 | for any byte range of the stream, aligned to elements or not, the buffer ends as exactly those bytes of the stream, or the error is one a read inside the source gave |
| `Layouts.ReadWith` | crates/aex-core/src/selection.rs:596-622 | a range is refused exactly outside the stream, and the buffer left alone; otherwise it is filled with that range of the logical stream, contiguous, gathered or cast, or the error is one the source gave |
| `Layouts.ReadCast` | crates/aex-core/src/selection.rs:629-651 | under any per-element cast, any byte range of the narrowed stream is served, cut elements included, from the element the wrapped product names; a failed source read ends it with its error |
| `Layouts.StartsExactly` | crates/aex-core/src/selection.rs:637-647 | a read under a cast starts at the element it should if and only if that element's number times the array's item size is below 2^64 |
| `Layouts.CastAlwaysFits` | crates/aex-core/src/selection.rs:637-647 | it always does where a word can count the selection's bytes before the cast |
| `Layouts.SourceRunCovers` | crates/aex-core/src/selection.rs:660-676 | a source run is announced exactly for a contiguous layout and a range with something in the stream, and is the bytes of exactly the elements that range touches |
| `ChunkGrids.New` | crates/aex-core/src/backends/chunks.rs:40-67 | a grid is built exactly when ranks agree, no chunk side is 0 and neither chunk count nor chunk size overflows |
| `ChunkGrids.Linear` | crates/aex-core/src/backends/chunks.rs:161-170 | a chunk number is given exactly for coordinates inside the grid, and is their C-order number |
| `ChunkGrids.CoordsOf` | crates/aex-core/src/backends/chunks.rs:92-100 | the coordinates of chunk n are the ones whose number is n |
| `ChunkGrids.LocateInside` | crates/aex-core/src/backends/chunks.rs:108-157 | every byte of the array lies at a place inside some chunk of the padded grid |
| `ChunkGrids.RunStays` | crates/aex-core/src/backends/chunks.rs:120-150 | each of the elements of the run the `run_axis` and `along` formula gives is in the same chunk, at consecutive places: the run never reaches too far |
| `ChunkGrids.Walk` | crates/aex-core/src/backends/chunks.rs:108-157 | any byte range is cut into non-empty pieces that carry it exactly, byte k of a piece being where the chunked layout puts that byte of the array |
| `DecodeCaches.LongestFitUnique` | crates/aex-core/src/backends/decode_cache.rs:161-185 | there is one most-recently-used suffix that fits the capacity and cannot take one more: the cache contents are determined by the order of use |
| `DecodeCaches.DecodeCache.Get` | crates/aex-core/src/backends/decode_cache.rs:152-159 | a hit returns what the key decodes to and makes it the most recently used; a miss changes nothing |
| `DecodeCaches.DecodeCache.Insert` | crates/aex-core/src/backends/decode_cache.rs:161-185 | the chunk just decoded is kept last if it can be cached and is new; what is evicted is the oldest, until the rest is again the longest fit; a second decode of one key only counts a race |
| `DecodeCaches.DecodeCache.Evict` | crates/aex-core/src/backends/decode_cache.rs:173-184 | the oldest goes, and its buffer becomes a spare exactly when no reader holds it and fewer than the limit are kept |
| `DecodeCaches.DecodeCache.TakeSpare` | crates/aex-core/src/backends/decode_cache.rs:147-150 | the buffer lent is one nobody reads, caches or was lent |
| `DecodeCaches.DecodeCache.GetOrDecode` | crates/aex-core/src/backends/decode_cache.rs:116-129 | the result is what decoding directly gives, errors included; no buffer a reader holds is written |
| `DecodeCaches.DecodeCache.ReadInto` | crates/aex-core/src/backends/decode_cache.rs:133-144 | the bytes copied are those of the decoded chunk, only the asked part of the output changes, and every handle is returned |
| `ChunkCodecs.Coders.UndoesEncoding` | crates/aex-core/src/backends/zarr.rs:464-498 | a chunk written through a chain whose intermediate sizes fit the expansion limits reads back as it was |
| `ChunkCodecs.Coders.OneCompressor` | crates/aex-core/src/backends/zarr.rs:464-498 | for a chain with one compressor, the chunk reads back if and only if no checksum comes before the compressor |
| `ChunkCodecs.Coders.Undo` | crates/aex-core/src/backends/zarr.rs:464-498 | swapping between the buffer read into and the lent one, whatever it held, leaves in one of the two what undoing the chain on values gives, at chunk length only |
| `ChunkCodecs.Coders.StripsOnlyRight` | crates/aex-core/src/backends/zarr.rs:934-939 | a checksum is taken off exactly when it is that of the bytes in front of it |
| `StoreKeys.KeyOf` | crates/aex-core/src/backends/zarr.rs:370-395 | the key built in place is the path, prefix, and separated decimal coordinates |
| `StoreKeys.KeyInjective` | crates/aex-core/src/backends/zarr.rs:370-395 | no two chunks of an array share a store key |
| `ZarrArrays.FillFrom` | crates/aex-core/src/backends/chunks.rs:179-185 | the fill pattern repeats from any offset, with the phase that offset has |
| `ZarrArrays.ShardGrid` | crates/aex-core/src/backends/zarr.rs:501-586 | an inner grid is accepted exactly when it fits, divides the shard evenly, and all shards together stay within the chunk limit |
| `ZarrArrays.ZarrArray.Index` | crates/aex-core/src/backends/zarr.rs:589-642 | the index read shard by shard is the list of every shard's own entries, missing shards included, or the failure of one of them |
| `ZarrArrays.ZarrArray.DecodeChunk` | crates/aex-core/src/backends/zarr.rs:398-456 | a chunk decodes to its stored contents, the fill value where it or its shard is missing, or its own error, in the lent buffer or a new one |
| `ZarrReading.Keyed.Read` | crates/aex-core/src/backends/zarr.rs:398-446 | a walk of any range through the cache delivers the walked bytes of the decoded chunks, or the error of one chunk in it, and touches nothing else in the buffer |
| `ZarrReading.ReadAt` | crates/aex-core/src/backends/zarr.rs:398-446 | any range of a plain or sharded array reads as the bytes the nested layout puts there, or fails with the error of a byte in it or of the index |
| `ZarrReading.LeafByteInside` | crates/aex-core/src/backends/zarr.rs:398-446 | every byte of the array lands inside a numbered inner chunk |
| `ZarrReading.NumbersApart` | crates/aex-core/src/backends/zarr.rs:416-422 | shard and inner chunk are recovered from the cache key: no two inner chunks share one |
| `ZarrReading.MissingReadsFill` | crates/aex-core/src/backends/zarr.rs:451-456 | byte b of a missing chunk, at any depth, is byte b modulo the item size of the fill value |
| `ZarrReading.ShardedLikeFlat` | crates/aex-core/src/backends/zarr.rs:398-446 | the nested walk places each byte where one flat grid of inner chunks over the whole array does, only renumbered by shard |
| `ZarrWriting.ShardReadsBack` | crates/aex-core/src/backends/zarr.rs:589-642 | in the shard file a writer leaves (chunks end to end; the index in front or behind; each entry eight little-endian bytes of offset, then eight of length; all ones for a missing chunk; a checksum or none) every chunk written is found byte for byte, and every other one is missing |
| `ZarrWriting.WrittenReadsBack` | crates/aex-core/src/backends/zarr.rs:398-456 | the whole way back: a store, plain or sharded, that holds what a writer leaves reads as the bytes it was written with, fill where nothing was written, for any range, and no read or index of it fails |
| `Fletcher.Checksum` | crates/aex-core/src/backends/hdf5.rs:612-626 | the blocked loop with 32-bit accumulators never overflows and returns, for any input, the exact folded sum of words and sum of prefix sums |
| `Fletcher.HalfIsCongruent` | crates/aex-core/src/backends/hdf5.rs:612-626 | each half of the checksum is congruent modulo 65535 to the plain sum it stands for, and 0 exactly if that is 0 |
| `Fletcher.SumsOfBytes` | crates/aex-core/src/backends/hdf5.rs:612-626 | byte by byte: the low sum has every byte once, the first of a word 256-fold; the high sum has it once for every word from its own to the last; an odd last byte counts as the first of a word |
| `Fletcher.Strip` | crates/aex-core/src/backends/hdf5.rs:597-609 | the checksum is dropped exactly when the stored one is right in either byte order |
| `Fletcher.SwapsBytes` | crates/aex-core/src/backends/hdf5.rs:597-609 | the other checksum accepted is the same four bytes with the two of each half changed over |
| `Fletcher.StripsWhatIsWritten` | crates/aex-core/src/backends/hdf5.rs:597-609 | data with its checksum appended, in either byte order, strips back to the data |
| `Shuffling.Unshuffle` | crates/aex-core/src/backends/hdf5.rs:582-594 | the in-place nested loops compute the inverse transpose of the shuffled bytes, the tail past whole elements copied |
| `Shuffling.UnshufflesShuffle` | crates/aex-core/src/backends/hdf5.rs:582-594 | shuffling and unshuffling are inverse both ways, for any length and item size |
| `Hdf5Chunks.Decode` | crates/aex-core/src/backends/hdf5.rs:531-565 | the reverse filter loop, swapping between the buffer read into and the lent one, whatever it held, leaves in one of the two what undoing the filters in use gives, at chunk length only |
| `Hdf5Chunks.SkippedIsBit` | crates/aex-core/src/backends/hdf5.rs:536-539 | filter i is skipped exactly when bit i of the mask, floor(mask / 2^i), is odd |
| `Hdf5Chunks.MaskTakesOut` | crates/aex-core/src/backends/hdf5.rs:531-565 | under any mask, what was applied and what is reverted, last first, are exactly the filters whose bit is clear |
| `Hdf5Chunks.NoneOrAllSkipped` | crates/aex-core/src/backends/hdf5.rs:536-539 | mask 0 skips no filter, and a mask with every bit set skips them all |
| `Hdf5Chunks.DecodesWhatIsStored` | crates/aex-core/src/backends/hdf5.rs:531-565 | a chunk stored through any pipeline, under any filter mask, whose stages fit the expansion limit, decodes to itself |
| `Hdf5Chunks.OneDeflate` | crates/aex-core/src/backends/hdf5.rs:531-577 | with one compressor in use, a chunk decodes to itself if and only if no checksum in use comes before it in the pipeline |
| `Hdf5Chunks.Chunked.ReadsBack` | crates/aex-core/src/backends/hdf5.rs:508-565 | a chunk that lies in the file as the filters in use wrote it decodes to what was written |
| `Hdf5Chunks.Chunked.Read` | crates/aex-core/src/backends/hdf5.rs:508-524 | any range of a chunked dataset reads as the walked bytes of its chunks, whether missing, stored plainly or filtered, or fails with the error of one of them |
| `PoolSafety.LocalKeeps` | crates/aex-client/src/pool.rs:432-479 | a step of one thread that accounts for what it moved keeps the whole invariant: each chunk in one place, live and remaining exact, claims exactly those in flight |
| `PoolSteps.InitInv` | crates/aex-client/src/pool.rs:319-393 | the invariant holds when a fetch starts |
| `PoolOutcome.FetchStarts` | crates/aex-client/src/pool.rs:326-363 | the state a fetch sets up, a thread for each connection but no more than chunks, is a start state for any chunks well cut and any number of connections |
| `PoolSteps.StepKeeps` | crates/aex-client/src/pool.rs:482-697 | every step of every thread in every interleaving keeps the invariant |
| `PoolSteps.OnePlaceEach` | crates/aex-client/src/pool.rs:482-538 | short of a failure each chunk is complete, or in the queue once, or with exactly one thread once, and the remaining count is exactly those in queue and hands |
| `PoolSteps.ClaimNeverFails` | crates/aex-client/src/pool.rs:582-603 | the claim a thread is about to make is never refused: no other thread holds an overlapping range |
| `PoolSteps.LastFindsNothing` | crates/aex-client/src/pool.rs:563-574 | an idle thread that finds the queue empty with chunks remaining is never the last: the branch for chunks unaccounted for is dead |
| `PoolSteps.NeverAllAsleep` | crates/aex-client/src/pool.rs:549-580 | whenever a thread sleeps, another is awake and has not left |
| `PoolSteps.NoDeadlock` | crates/aex-client/src/pool.rs:496-652 | while a thread has not left, some thread has a step |
| `PoolEnds.StepBelow` | crates/aex-client/src/pool.rs:496-697 | every step takes the run down a lexicographic measure led by the retries left and the bytes outstanding |
| `PoolEnds.EveryRunEnds` | crates/aex-client/src/pool.rs:319-393 | no run goes on forever, whatever breaks, errors and answers come |
| `PoolEnds.StuckIsOver` | crates/aex-client/src/pool.rs:482-490 | a run that can go no further has every thread gone and no claim held, and either an error or exactly the remaining chunks queued |
| `PoolOutcome.FailsOnlyAfterFatal` | crates/aex-client/src/pool.rs:496-652 | over any run: an error is recorded or a chunk lost only after a frame no server may send, a refusal that is permanent or about another fetch, or a failure of a chunk that has used up its retries |
| `PoolOutcome.EndsInErrorIff` | crates/aex-client/src/pool.rs:319-393 | a run that is over has an error if and only if one of its steps was such a one |
| `PoolOutcome.UnfinishedMeansCutOff` | crates/aex-client/src/pool.rs:319-393 | a run that is over leaves chunks unfetched without an error only if every thread could not be started or lost its connection for good |
| `PoolRetries.TriesAreFailures` | crates/aex-client/src/pool.rs:678-691 | over any run: wherever a chunk is, the tries it has behind it are exactly its refusals and the breaks that met it as the oldest fetch |
| `PoolRetries.FailsIffTriedOut` | crates/aex-client/src/pool.rs:496-652 | against a server that refuses nothing for good, a transfer that is over failed if and only if some chunk was fetched in vain more often than it may be retried |
| `PoolRetries.RefusedForNow` | crates/aex-client/src/pool.rs:624-641 | a refusal of the oldest fetch that may be tried again takes it off the connection, its claim released and nothing lost |
| `PoolRetries.RefusedIsRetried` | crates/aex-client/src/pool.rs:624-641 | from there, whatever other threads did, the only next step of the thread puts the chunk first in the queue with exactly one more try, or gives it up if it has had them all |
| `PoolRetries.RefusedForGood` | crates/aex-client/src/pool.rs:624-641 | a permanent refusal loses the chunk and fails the transfer with the connection kept; one about another fetch gives up the connection as well |
| `PoolRetries.TakingKeepsLine` | crates/aex-client/src/pool.rs:543-580 | topping up moves chunks from the front of the queue to the thread in order, to its credit or the last of them, and none after an error |
| `PoolRetries.BreakPutsBack` | crates/aex-client/src/pool.rs:508-532 | whether it waits for an answer or is in the middle of asking, a thread whose connection breaks puts back all the chunks it had, first in the queue and in their old order, the first with one more try and the others with none |
| `PoolBytes.HonestKeeps` | crates/aex-client/src/pool.rs:164-225 | against a server that answers in order with its stream, each step keeps what is received equal to the stream, also where a refetch rewrites it |
| `PoolBytes.SuccessIsRight` | crates/aex-client/src/pool.rs:319-393 | a run against such a server that ends with nothing remaining leaves every buffer equal to its stream |
| `Plans.ChunksConsecutive` | crates/aex-client/src/transfer.rs:117-122 | the chunks of a plan are consecutive, cover it exactly, none longer than asked, and as many as the rounded-up quotient |
| `Plans.SplitForStreams` | crates/aex-client/src/client.rs:778-787 | the split is never 0 and never larger than asked, and when it is smaller it is at least the minimum |
| `Plans.SplitIs` | crates/aex-client/src/client.rs:778-787 | with a default-size chunk for every connection the size stays; with fewer it is the even share, or the minimum, or the default if that is smaller |
| `Plans.OneChunkEach` | crates/aex-client/src/client.rs:778-787 | with fewer default chunks than connections and a large enough share, a plan is cut into exactly one chunk per connection |
| `Plans.AtLeastOneEach` | crates/aex-client/src/client.rs:625-650 | for a batch, at least one per connection |
| `Plans.BatchIsWellCut` | crates/aex-client/src/transfer.rs:117-122 | the chunks of any batch are non-empty, inside their buffers and pairwise disjoint |
| `Plans.BatchCovers` | crates/aex-client/src/transfer.rs:117-122 | every byte of every plan of the batch is in some chunk |
| `Plans.FetchedBatchIsRight` | crates/aex-client/src/pool.rs:319-393 | from plans to buffers: a batch cut this way, fetched from an honest server, ends with every buffer equal to its stream |
| `Scatter.ConflictIsSharing` | crates/aex-wire/src/scatter.rs:87-96 | for non-empty ranges, the refusal test is exactly sharing a byte |
| `Scatter.EmptyClaimConflicts` | crates/aex-wire/src/scatter.rs:87-96 | a held empty claim shares no byte with anything, yet refuses exactly the ranges it lies strictly inside of |
| `Scatter.ScatterBuffer.Take` | crates/aex-wire/src/scatter.rs:77-107 | a claim is refused for range or overlap exactly when it should be, and otherwise recorded, disjoint from all those held |
| `Scatter.ScatterBuffer.Drop` | crates/aex-wire/src/scatter.rs:147-153 | the first claim that starts there is taken off, the last filling its place, and nothing else changes; among non-empty claims that is exactly the one dropped |
| `Scatter.DropsItsOwn` | crates/aex-wire/src/scatter.rs:147-153 | dropping a non-empty slice releases its own claim if and only if the first claim at its start is not an empty one |
| `Scatter.PoolClaims` | crates/aex-wire/src/scatter.rs:77-107 | the pool's own notion of a range being claimable is the buffer's |
| `Serving.RowAligned` | crates/aex-server/src/reader.rs:113-129 | a piece of some bytes is always at least one byte and never longer than the buffer |
| `Serving.EndsAtRow` | crates/aex-server/src/reader.rs:113-129 | when a row ends within reach, the piece ends at a row end, the last one in reach |
| `Serving.CutsOnElements` | crates/aex-server/src/reader.rs:113-129 | without a row end in reach, an error-bounded piece is cut behind its last whole element, and one without a bound goes out whole |
| `Serving.FetchReader.Serve` | crates/aex-server/src/reader.rs:57-101 | pieces are consecutive, non-empty, within the buffer, read as sent, complete exactly when they carry the whole range, and cut short only by a failed read or send; read-ahead hints stay inside the stream |
| `Serving.ServedIsStream` | crates/aex-server/src/reader.rs:57-101 | whatever cuts were made, reads of a stream put end to end are its bytes from the offset on |
| `Serving.PieceFollows` | crates/aex-server/src/reader.rs:57-101 | each piece starts where those before it end, which is what the client relies on |
| `Delivery.ReadPiece` | crates/aex-server/src/reader.rs:57-101 | one read of a layout answers with exactly that range of the selection's stream, is refused outside it, and fails only as the source does |
| `Delivery.ServedIsHonest` | crates/aex-server/src/reader.rs:57-101 | frames that are the next piece of serving the oldest fetch are what the pool counts as an honest server |
| `Delivery.PieceIsTaken` | crates/aex-client/src/pool.rs:164-225 | the client takes every piece of serving its oldest fetch: none falls outside the fetch or its buffer |
| `Delivery.ServingGoesOn` | crates/aex-client/src/pool.rs:605-621 | after each piece the client has received exactly the pieces so far, and the chunk completes with the last |
| `Delivery.DeliveredIsSelected` | crates/aex-client/src/pool.rs:319-393 | end to end: selections cut into chunks and fetched from a server that serves each from its layout leave every buffer equal to its selection's stream, if the transfer completes |
| `Batches.MergeReplies` | crates/aex-client/src/client.rs:468-511 | each selection gets its own refusal or the reply sent for it, in order; too few replies is a protocol error |
| `Batches.PairUp` | crates/aex-client/src/client.rs:636-652 | each remote plan is paired with the buffer of its own selection |
| `Batches.Replace` | crates/aex-client/src/client.rs:660-686 | replacing succeeds exactly when every plan was prepared again at its old size, and fails with the first that was not; the buffers then wait for, or hold the data of, the replacements |
| `Batches.FillBatch` | crates/aex-client/src/client.rs:588-701 | a batch of the wrong sizes is refused; a first fetch that works, or is not needed, fills every buffer from its own plan; any failure but a plan gone is final; after one that went, the outcome is that of preparing again, replacing and the one more fetch; on success each buffer holds its plan's contents, or its replacement's |
| `Reducing.ReducedAxes` | crates/aex-core/src/reduce.rs:210-234 | axes are accepted exactly when each is in `[-ndim, ndim)` and no two are equal or ndim apart (and one at most where positions are reported); an axis is marked exactly if an entry is its number, or its number less ndim |
| `Reducing.StridesAndCells` | crates/aex-core/src/reduce.rs:131-207 | the stride loop gives each kept axis its C-order stride in the result, each reduced one 0, and the number of cells, all modulo 2^64 |
| `Reducing.StridesFit` | crates/aex-core/src/reduce.rs:131-207 | where no axis is empty and the cells are below 2^64, no stride wrapped |
| `Reducing.CellIsProjection` | crates/aex-core/src/reduce.rs:284-319 | the dot product with those strides is the C-order number of the index projected on the kept axes |
| `Reducing.LiftedKept` | crates/aex-core/src/reduce.rs:131-207 | every cell is the projection of some element of a non-empty array |
| `Folding.Advance` | crates/aex-core/src/reduce.rs:284-319 | the carry loop moves index and cell from any element to the next one's, or back to all zeros past the last, the cell staying the dot product with the strides |
| `Folding.FeedBlock` | crates/aex-core/src/reduce.rs:284-319 | a block feeds its elements in order, each into its own cell, and the walk goes on where the block ended |
| `Folding.Fold` | crates/aex-core/src/reduce.rs:284-319 | across any number of blocks each element is pushed exactly once, in stream order, into the cell of its projection; an error is one a read gave |
| `Accumulators.StateIsRun` | crates/aex-core/src/reduce.rs:321-323 | a cell's state after any pushes is that of its own column alone |
| `Accumulators.IntsAreExact` | crates/aex-core/src/reduce.rs:374-397 | integer sums and products are the exact ones modulo 2^64, whatever wrapped on the way |
| `Accumulators.FloatsAreTotals` | crates/aex-core/src/reduce.rs:374-397 | float sums, products and counts are the exact ones over the elements seen, not-a-number propagating or skipped |
| `Accumulators.VarianceIsTextbook` | crates/aex-core/src/reduce.rs:402-431 | Welford's update ends with the exact count, mean and sum of squared deviations |
| `Accumulators.ExtremeIsExtreme` | crates/aex-core/src/reduce.rs:434-475 | the running extreme is an element and bounds all those counted, with numpy's two rules for not-a-number |
| `Accumulators.ArgIsFirst` | crates/aex-core/src/reduce.rs:478-518 | the reported position is that of the first not-a-number, or else of the first extreme |
| `Accumulators.LogicIsLogic` | crates/aex-core/src/reduce.rs:520-536 | `all` and `any` are for-all and exists over elements not being zero, for empty columns too |
| `Reductions.EveryCellFed` | crates/aex-core/src/reduce.rs:441-518 | after a whole fold every cell has an element, so the expectations in the results cannot fail |
| `Reductions.Reduce` | crates/aex-core/src/reduce.rs:131-207 | a reduction is refused exactly for bad axes, a result over the limit, or cells with nothing to reduce, as the wrapped counts have it, and fails only with a read; otherwise its shape is numpy's and each cell is the run of the accumulator over the elements that project on it |
| `Reductions.RefusalsAreTrue` | crates/aex-core/src/reduce.rs:141-173 | with fewer than 2^64 cells, both refusals are the ones true counts give |
| `Reductions.TooLargeMissed` | crates/aex-core/src/reduce.rs:143-168 | the size check and a true one disagree exactly when there are 2^64 cells or more and their residue fits the limit |
| `Reductions.ManySumsVanish` | crates/aex-core/src/reduce.rs:141-173 | a concrete shape of 2^66 empty sums that are counted as none |
| `Registry.TransferRegistry.Insert` | crates/aex-server/src/transfer.rs:140-176 | a plan is added under the id drawn; when its session is full, exactly one of that session's least recently used plans goes, and no other session changes; the two maps still agree if and only if no plan left has that id, which holds until the counter comes round |
| `Registry.TransferRegistry.NextRequestId` | crates/aex-server/src/transfer.rs:288-295 | the id is the counter's, 0 left out, and the 32-bit counter moves on past it |
| `Registry.CollisionDisagrees` | crates/aex-server/src/transfer.rs:140-176 | a plan added under an id in use leaves the maps in disagreement, whichever session has it |
| `Registry.TransferRegistry.LeastRecentlyUsed` | crates/aex-server/src/transfer.rs:299-305 | the position found is that of the first plan with the smallest last use |
| `Registry.TransferRegistry.Fetch` | crates/aex-server/src/transfer.rs:184-222 | a plan is found exactly with its id, ticket and session, no longer than the time to live after its last use; a plan past that is removed; only the one found is touched |
| `Registry.TransferRegistry.Remove` | crates/aex-server/src/transfer.rs:230-237 | one plan leaves both maps, and no other changes |
| `Registry.TransferRegistry.RemoveSession` | crates/aex-server/src/transfer.rs:240-249 | exactly the plans of the session go, from both maps |
| `Registry.TransferRegistry.Sweep` | crates/aex-server/src/transfer.rs:253-273 | exactly the plans used longer ago than the time to live and those of dead sessions go, from both maps, and the count says how many |
| `BlockSpecs.ForRange` | crates/aex-core/src/codec/mod.rs:97-127 | a block is refused exactly for a length that is not whole elements or an axis too long; otherwise its axes are those `AxesAre` gives, multiply to the range's elements, and none is 1 unless alone |
| `BlockSpecs.SlabHolds` | crates/aex-core/src/codec/mod.rs:205-231 | the two or three axes of a slab multiply to exactly the range |
| `BlockSpecs.AxesAre` | crates/aex-core/src/codec/mod.rs:205-231 | which axes a range gets: planes, rows and columns exactly if it is made of complete planes of more than one row; rows and columns if of complete rows; one flat axis if of neither; axes of one element left out |
| `BlockSpecs.SlabCoordinates` | crates/aex-core/src/codec/mod.rs:205-231 | an element's coordinates inside the slab are its coordinates inside the array: the slab is described as what it is |
| `BlockSpecs.Encode` | crates/aex-core/src/codec/mod.rs:145-154 | the header is appended to what is there, field by field as documented |
| `BlockSpecs.Decode` | crates/aex-core/src/codec/mod.rs:156-199 | a header is accepted exactly when version, type, axes, padding and bound are all well formed |
| `BlockSpecs.DecodesHeader` | crates/aex-core/src/codec/mod.rs:145-199 | every folded spec with a good bound survives encoding and decoding, whatever bytes follow |
| `BlockSpecs.PrintsWhatParses` | crates/aex-core/src/codec/mod.rs:145-199 | every accepted header prints back as itself, except for the reserved byte |

## Left out

- `Layouts.ResolveLayout`: which quality is refused is not modelled; an encoding
  reaches the model as an element size. A build that checks arithmetic would stop
  where this one wraps.
- `ChunkGrids.Walk`: byte offsets are unbounded integers; inside the array they
  are below the grid's own checked products. The closure `walk` takes is the list
  of its calls.
- `ZarrReading.ReadAt`: a store's files do not change during a read, and an index,
  once read, is handed in again rather than kept in a once-cell.
- `Hdf5Chunks.Chunked.Read`: the chunk index is given; visiting it through the HDF5
  library is not modelled. Bit i of a mask is that of an unbounded number: the library
  allows 32 filters, and the mask has 32 bits.
- `ZarrWriting.WrittenReadsBack`: the writer is a definition of what a store holds, as
  the sharding codec lays it out; the repository only reads. Bytes between the chunks
  of a shard, which the reader would skip, are left out.
- `ChunkCodecs.Coders.UndoesEncoding`: compressors are any functions with an
  inverse, zstd writing no more than it has room for; nothing is said of gzip, zstd,
  deflate or CRC streams themselves.
- `PoolEnds.EveryRunEnds`: pings, pongs, empty data frames and spurious wake-ups are
  finite in number, drawn from a budget fixed at the start.
- `PoolSteps.StepKeeps`: a reconnect with its own retries is one step, which works
  or does not; the pool's counters of wire bytes are left out, as are panics and
  poisoned locks.
- `PoolBytes.SuccessIsRight`: frames carry the stream's bytes. Encoded frames, lossy
  or not, and blocks cut in the middle of an element are not modelled.
- `Batches.FillBatch`: buffers are values paired by position rather than borrowed
  slices.
- `Registry.TransferRegistry.Insert`: one call at a time, under the lock; the id is
  drawn before it, which the model does in the same step.
- `Reductions.Reduce`: the layout counts its selection exactly, so that its byte
  count is that of the shape (`Layouts.ExactWhenItFits`).
- `Accumulators.FloatsAreTotals`: exact reals and a not-a-number. Rounding,
  infinities and complex numbers are left out.
- `Accumulators.VarianceIsTextbook`: the same, and the final division, root and
  narrowing to the result's type.
- `Layouts.ReadCast`: the cast is any function of one element's bytes that has the
  narrow size; the float conversions behind it are not modelled.
- The shrink rule of `compress`, attribute flattening and number parsing in zarr
  metadata, key-encoding names: finite case checks or easy loops.
- Sockets, gRPC, threads, timeouts, configuration, sessions and their limits,
  tokens, tickets as secrets, path resolution.
- The Python layer, its bindings and the benchmarks.
