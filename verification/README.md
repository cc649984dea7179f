# Dandelion SDK: allocator, file system and edge codecs in Dafny

This project models the core of the Dandelion SDK and proves what it keeps over whole runs:

- **The heap** of `runtime/runtime.c`: one array of words, tiled by slabs whose two end words name each
  other. `SlabHeap.dfy` gives the heap as a list of slabs and every operation on it, `HeapLaws.dfy` what one
  call does, `HeapRuns.dfy` what every run of calls does, `Breaks.dfy` what callers of `dandelion_sbrk` keep,
  and `Allocator.dfy` the C code itself as a class on an array of words, refining the slab list.
- **The in-memory file system** of `file_system/`: files as chains of chunks with cursors (`Chunks.dfy`,
  `Descriptor.dfy`), directories as sorted sibling lists (`Names.dfy`, `Tree.dfy`), path walks (`Paths.dfy`,
  `Walk.dfy`) and where they lead (`Normal.dfy`), files and directories made along a path (`Creating.dfy`),
  what calls leave alone (`Frames.dfy`), link and open counts over runs of calls (`FileSystem.dfy`), and the
  way of all sets from the input into the tree (`Sets.dfy`, `Loading.dfy`) and out again (`Outputs.dfy`,
  `RoundTrip.dfy`, `LostSets.dfy`).
- **The edges**: the argument tokenizer (`Tokenizer.dfy`), the set table of start-up and exit (`IoSets.dfy`)
  and the overlap-safe copy (`Bytes.dfy`).

Sizes and indices are words of 8 bytes in the allocator and bytes elsewhere. The break, the heap limit, the
permission bits (`allowed`), what fresh memory holds (`garbage`) and whether an allocation succeeds
(`memory`) are parameters. `dafny verify dfyconfig.toml` checks everything.

## Where the code does not keep what one would expect

Each of these is stated as it is, with the exact condition under which the expected property holds.

- The room of a free slab is computed in unsigned arithmetic and wraps if the slab is shorter than its
  padding; a request that meets such a slab and no fitting one ends the program (`HeapLaws.RequestOutcome`).
  Up to 16 bytes of alignment that takes the one-word free slab at the very front (`HeapLaws.ExitIff`,
  `HeapRuns.SixteenByteStartExits`); runs that start as `dandelion_init` does with input sets never get there
  (`HeapRuns.NoExitAfterInit`).
- `get_sbrk_size` adds the alignment in words as if it were bytes. Growth leaves enough room on every heap and
  for every size if and only if the alignment is at most 16 bytes (`HeapLaws.GrowthFitsIff`), and every larger
  alignment has a heap on which the request ends the program (`HeapLaws.LargeAlignmentExits`); the exact cases
  for one request are in `HeapLaws.AnyExitIff`. Alignment is relative to the first slab, not to absolute
  addresses; the model follows the code.
- A read that moves on to another chunk does not reduce what it still wants and can return more than was
  asked for (`Chunks.ReadTooMuch`, `Descriptor.ReadMatchesFlatFileIff`).
- A write goes to the used mark of the current chunk and leaves the position at that chunk's start
  (`Descriptor.OpenFile.WriteLeavesPositionBehind`, `Chunks.AppendsIff`).
- Releasing a block does not take back padding it gave to the slab in front (`HeapLaws.ReleaseUndoesPlace`).
- `get_file` is not the last component of a path that ends in a slash (`Paths.DirectoriesThenFile`).
- A quote left open makes the tokenizer read past the item (`Tokenizer.SetupCharPPArray`).
- `create_directories` walks into files and up from the root; what it returns is then not what the path leads
  to (`Walk.CreateThenFind`, `Walk.UpFromRootIsNotFound`).
- A file created by `open` is not always the one its path leads to (`Creating.CreatedFileIsFound`,
  `Creating.DetourExample`), and `mkdir` can succeed without a new directory at its path
  (`Creating.MadeDirectoryIsFound`).
- A set whose identifier holds a slash is loaded and never exported (`Loading.SetFoundIff`,
  `LostSets.SetInSlashXIsLost`).
- An exported set is in component-wise path order if and only if no item's path continues another's
  (`RoundTrip.SetRoundTrip`, `LostSets.PrefixBehindItsContinuation`): a file stands behind the directory of the
  same name.

## Model

| member | source | states |
|---|---|---|
| `SlabHeap.GrowthIsEnough` | runtime/runtime.c:166-171 | the growth step is the least multiple of 4096 bytes that holds the request, four descriptor words and the alignment as the code counts it, and leaves room for the padding of alignments up to 16 bytes |
| `SlabHeap.PaddingAligns` | runtime/runtime.c:248-249 | the padding is below the alignment and makes the payload index a multiple of it |
| `SlabHeap.Splice` | runtime/runtime.c:305-347 | replacing a stretch of slabs by others that tile the same words keeps the tiling, as long as no two free slabs come to touch |
| `SlabHeap.FirstSlabWF` | runtime/runtime.c:218-232 | the first slab and its sentinel form a well-formed heap inside the limit |
| `SlabHeap.GrowWF` | runtime/runtime.c:260-295 | growth of all three kinds (merging, appending, skipping foreign words) keeps the heap well formed and ends it with a free slab |
| `SlabHeap.PlaceShape` | runtime/runtime.c:298-348 | cutting a block out of a fitting slab keeps the exact tiling, slabs of three words or more except a first free one, and no two free neighbours; padding is pushed forward only where there is a slab in front |
| `SlabHeap.MergeShape` | runtime/runtime.c:380-389 | merging a released slab with its free neighbours keeps the tiling and leaves no two free neighbours |
| `SlabHeap.AllocWF` | runtime/runtime.c:200-349 | every request, of any size and alignment and with any outcome, leaves the heap well formed |
| `SlabHeap.ReleaseWF` | runtime/runtime.c:351-391 | releasing any live block leaves the heap well formed |
| `HeapLaws.RoomCases` | runtime/runtime.c:248-252 | the unsigned room equals the true room when that is not negative, is a huge number when the slab is shorter than its padding, and is exactly the sentinel value in the one case between |
| `HeapLaws.ScanIsBestFit` | runtime/runtime.c:236-258 | the scan picks the leftmost among the tightest free slabs that fit; a wrapped slab is picked only if none fits; otherwise it reports nothing found |
| `HeapLaws.RequestOutcome` | runtime/runtime.c:236-349 | for every alignment: best fit if anything fits, else exit if some slab wraps, else refusal with the heap unchanged if the break cannot move, else the block is cut from the grown end if that is large enough and the program ends if it is not |
| `HeapLaws.ReadyExitIff` | runtime/runtime.c:236-334 | at every alignment the exit is taken if and only if nothing fits and either some slab wraps or growth goes through and leaves too little |
| `HeapLaws.AnyExitIff` | runtime/runtime.c:200-334 | the same for a whole call, the first one included |
| `HeapLaws.ModestWraps` | runtime/runtime.c:252 | up to 16 bytes of alignment only the one-word free slab in front can wrap, and only for two-word alignment |
| `HeapLaws.GrowthFits` | runtime/runtime.c:166-171 | for alignments up to 16 bytes the new free slab always holds the request with padding, in the first slab and in all kinds of growth |
| `HeapLaws.LargeAlignmentExits` | runtime/runtime.c:166-171 | for every larger alignment there are a heap and a size for which growth goes through, leaves too little and the program ends |
| `HeapLaws.GrowthFitsIff` | runtime/runtime.c:166-171 | growth leaves enough room on every heap and for every size if and only if the alignment is at most 16 bytes |
| `HeapLaws.ExitIff` | runtime/runtime.c:327-334 | for alignments up to 16 bytes the exit is taken if and only if nothing fits, the alignment is two words and the one-word free slab is in front |
| `HeapLaws.NullIff` | runtime/runtime.c:200-266 | the exact cases of a refusal, for alignments up to 16 bytes, and that a refusal changes nothing |
| `HeapLaws.PageAlignmentExits` | runtime/runtime.c:166-171 | a page-aligned first request ends the program |
| `HeapLaws.PayloadsDisjoint` | runtime/runtime.c:178-199 | a word inside one slab's payload belongs to no other slab |
| `HeapLaws.PlaceAddsBlock` | runtime/runtime.c:305-348 | an allocation adds exactly one block to the live ones and changes none |
| `HeapLaws.PlaceKeepsOwners` | runtime/runtime.c:305-348 | owned words stay owned and the new payload lies on words nobody owned, padding pushed into a live predecessor included |
| `HeapLaws.MergeRemovesBlock` | runtime/runtime.c:351-391 | a release removes its own block from the live ones and nothing else |
| `HeapLaws.MergeKeepsOwners` | runtime/runtime.c:351-391 | words outside the released payload keep their owner |
| `HeapLaws.GrowKeeps` | runtime/runtime.c:260-295 | growth keeps all live blocks, and words taken by others through `dandelion_sbrk` stay theirs |
| `HeapLaws.AllocEffect` | runtime/runtime.c:200-349 | a successful request of any alignment adds exactly one block, of the bytes asked for rounded up by less than a word, at a byte offset that is a multiple of the alignment if that is one of 8, on words nobody owned, and leaves every owned word owned; any other outcome adds and removes none |
| `HeapLaws.AllocSnug` | runtime/runtime.c:305-347 | with alignments up to 16 bytes slack per block stays within three words: two at the split, one of later padding that cannot come twice |
| `HeapLaws.ReleaseUndoesPlace` | runtime/runtime.c:298-391 | releasing right after allocating restores the slab list if and only if no padding went into the slab in front |
| `HeapLaws.ReleasingAllCoalesces` | runtime/runtime.c:351-391 | any list that names the live blocks once each can be released in its order, block by block, and that leaves one free slab over everything |
| `HeapRuns.OwnedOverRuns` | runtime/runtime.c:137-391 | over every run of requests, releases, foreign breaks and writes, a word an owner has written and not given back stays that owner's |
| `HeapRuns.BlockSizesOverRuns` | runtime/runtime.c:298-348 | after every run from start-up with alignments up to 16 bytes each live block has the words asked for and at most three more |
| `HeapRuns.NoExitOverRuns` | runtime/runtime.c:327-334 | while the first, word-aligned block lives no run reaches the exit |
| `HeapRuns.NoExitAfterInit` | runtime/runtime.c:41-46 | a run that begins with a successful word-aligned request, never released, never reaches the exit |
| `HeapRuns.SixteenByteStartExits` | runtime/runtime.c:315-334 | after a 16-byte aligned first request every 16-byte aligned request that nothing fits ends the program |
| `HeapRuns.SixteenByteStartExitsAt` | runtime/runtime.c:315-334 | so does a request for 64 KB after one for 16 bytes, on a heap of a megabyte |
| `HeapRuns.RunThenReleaseAll` | runtime/runtime.c:200-391 | after any run without foreign breaks, whatever is live can be released in any order, and exactly one free slab that covers the heap is left |
| `Breaks.SbrkExact` | runtime/runtime.c:137-153 | the break moves by the bytes asked for and less than 8 more exactly if they fit below the limit, and nothing else of the heap changes |
| `Breaks.SbrkHandsOut` | runtime/runtime.c:137-153 | every byte handed out lies in a word that was nobody's before the call and is the taker's after it |
| `Breaks.TakenForGood` | runtime/runtime.c:137-391 | and stays so over every later run of requests, releases, breaks and writes, whether it is skipped by growth, fenced by a slab or padded |
| `Breaks.WrittenStays` | runtime/runtime.c:200-391 | a call forgets a written word only if it releases the block the word lies in, and changes none but the one it writes |
| `Allocator.Decode` | runtime/runtime.c:178-199 | what the descriptor words of a slab say: the flag at both ends, each other's index, and where the next slab starts |
| `Allocator.SpliceEncoded` | runtime/runtime.c:298-348 | rewriting the words of neighbouring slabs re-encodes exactly those slabs |
| `Allocator.Allocator.Sbrk` | runtime/runtime.c:137-153 | refused if and only if the limit would be passed, and then nothing changes; otherwise the old break is returned and the new one is past it by the bytes asked for and less than 8 more |
| `Allocator.Allocator.FindSmallest` | runtime/runtime.c:236-258 | the loop over the descriptor words ends and holds what the scan over the slab list picks |
| `Allocator.Allocator.Start` | runtime/runtime.c:218-232 | the words written encode the first slab and no owned word changes |
| `Allocator.Allocator.ExtendLastSlab` | runtime/runtime.c:267-283 | contiguous growth onto a free last slab: the words encode the grown heap and no owned word changes |
| `Allocator.Allocator.AppendSlab` | runtime/runtime.c:267-283 | the same when the last slab is occupied |
| `Allocator.Allocator.SkipForeign` | runtime/runtime.c:284-295 | the same when others have moved the break: their words become an occupied slab and stay untouched |
| `Allocator.Allocator.Carve` | runtime/runtime.c:298-348 | padding, block and remainder are encoded, and only words of the free slab and one descriptor in front were written |
| `Allocator.Allocator.Alloc` | runtime/runtime.c:200-349 | on the array of words the call refines the request on the slab list, with the same outcome, and changes no word that is owned |
| `Allocator.Allocator.FreeExtent` | runtime/runtime.c:351-387 | the checks of a DEBUG build never fire for a live pointer, and the extent found is that of the slab and its free neighbours |
| `Allocator.Allocator.Free` | runtime/runtime.c:351-391 | on the array of words a release refines the release on the slab list and changes no owned word |
| `Allocator.Allocator.Execute` | runtime/runtime.c:137-391 | over every run of calls the words encode the slab list, the program ends exactly when the slab list says so, and every word an owner wrote and still owns reads back unchanged |
| `Bytes.ForwardStep` | system/freestanding.c:13-24 | copying the next stretch forward never reads a byte already overwritten, for a destination in front of the source by any distance |
| `Bytes.Memcpy` | system/freestanding.c:6-26 | the destination holds the source's old bytes and nothing else changes, also for overlaps with the destination first, shorter than a word included |
| `Bytes.Memmove` | system/freestanding.c:35-56 | the same for every overlap |
| `Names.CompareZero` | file_system/paths.h:28-54 | names compare equal only if they are the same |
| `Names.CompareFlip` | file_system/paths.h:28-54 | swapping two names negates their order |
| `Names.CompareTransitive` | file_system/paths.h:28-54 | the order of names is transitive, strictly if one step is strict |
| `Names.ComparisonMeans` | file_system/paths.h:28-54 | the order is the lexicographic one: a name precedes another if and only if they agree up to a place where the first has ended or has the smaller character |
| `Names.NameLen` | file_system/paths.h:17-24 | the length of the part before the first NUL within the bound |
| `Names.NameCmp` | file_system/paths.h:28-54 | negative, zero or positive if and only if, up to NUL or bound, the first name precedes the second lexicographically, equals it, or is preceded by it |
| `Paths.SplitAtSlash` | file_system/paths.c:22-40 | the components of two paths joined by a slash are those of the one followed by those of the other |
| `Paths.PiecesAreClean` | file_system/paths.c:22-40 | components are non-empty and hold no slash |
| `Paths.GetNextComponent` | file_system/paths.c:22-40 | the extent found is the first maximal stretch without slashes |
| `Paths.GetComponentAdvance` | file_system/paths.c:42-48 | first component and remainder together have the components of the path, and the remainder is shorter |
| `Paths.WalkComponents` | file_system/file_system.c:165-178 | repeated advancing yields exactly the components, in order, and ends |
| `Paths.GetDirectories` | file_system/paths.c:50-61 | everything before the last slash |
| `Paths.GetFile` | file_system/paths.c:63-77 | what lies between the slash in front and the end, trailing slashes skipped first |
| `Paths.DirectoriesThenFile` | file_system/paths.c:50-77 | the components of the directory part followed by the file are those of the path if and only if the path does not end in a slash |
| `Tokenizer.TokensStep` | file_system/file_system.c:369-449 | scanning by index (skip spaces, find the end of an argument) reads the same tokens as reading the line character by character |
| `Tokenizer.CountArguments` | file_system/file_system.c:369-392 | the first pass counts the arguments that start in the line |
| `Tokenizer.MeasureArgument` | file_system/file_system.c:408-425 | the counted length is that of the text without quotes |
| `Tokenizer.CopyArgument` | file_system/file_system.c:426-443 | exactly the counted characters are copied, with a NUL behind them; the loop leaves the line if and only if a quote is open |
| `Tokenizer.FillStrings` | file_system/file_system.c:394-449 | the second pass fills as many strings as the first counted, with the tokens in order and NULL behind them |
| `Tokenizer.SetupCharPPArray` | file_system/file_system.c:361-451 | the result is the line's tokens if its quotes are balanced, and a read out of bounds if they are not |
| `Tokenizer.LineReadsBack` | README.md:45-54 | arguments written in any way the quoting rules allow, with any spacing, read back as exactly those arguments |
| `Tokenizer.ArgumentsRoundTrip` | README.md:45-54 | every list of arguments, empty ones and ones full of quotes and spaces included, can be quoted, joined and read back |
| `Chunks.ChunkInFlat` | file_system/fs_implementation.c:14-32 | a chunk is the stretch of the flat file between its start and the next chunk's |
| `Chunks.FindPlace` | file_system/fs_implementation.c:360-380 | the chunk and offset a search lands on stand for the wanted position, within the used bytes when the position is in the file |
| `Chunks.ReadAdvances` | file_system/fs_implementation.c:391-419 | the read loop stops as many bytes further as it handed out, inside the file |
| `Chunks.ReadCountIs` | file_system/fs_implementation.c:391-414 | a read hands out all bytes before the first chunk with more left than was asked for, and then as many as were asked for; or all there are if no chunk has more |
| `Chunks.ReadExactIff` | file_system/fs_implementation.c:391-414 | a read hands out the number of bytes a flat file would if and only if it reaches the end of the file or the first chunk with anything left holds more than was asked for |
| `Chunks.ReadTooMuch` | file_system/fs_implementation.c:391-414 | two chunks of three bytes: a request for four returns six |
| `Chunks.ExtendFlat` | file_system/fs_implementation.c:472-526 | what a write makes of the flat file: the data goes in behind the current chunk, and what followed survives only if no new chunk was needed |
| `Chunks.AppendsIff` | file_system/fs_implementation.c:472-526 | writes append to the flat file, whatever the data, if and only if no bytes follow the current chunk |
| `Chunks.WriteOncePacks` | file_system/fs_implementation.c:441-526 | a write at the end of a packed file appends and keeps every chunk but the last full |
| `Chunks.PackedCapacity` | file_system/fs_implementation.c:14-32 | a packed file has exactly its size rounded up to 4096 as capacity |
| `Chunks.WritesConcatenate` | file_system/fs_implementation.c:441-526 | any sequence of non-empty writes into an empty file makes its content their concatenation, without spare chunks |
| `Descriptor.OpenFile.SeekFrom` | file_system/fs_implementation.c:219-265 | the base of each `whence` and a place in the chain that stands for it |
| `Descriptor.OpenFile.Lseek` | file_system/fs_implementation.c:210-335 | for every chain, `whence` and offset: the new absolute position with the cursor there on a chunk of the chain, old bytes kept, length the larger of old length and position; EINVAL for a negative target or unknown `whence`, ENOMEM without memory, both changing nothing; SEEK_END on an empty file follows a NULL pointer |
| `Descriptor.OpenFile.ReadAt` | file_system/fs_implementation.c:360-419 | a positional read in every case: negative offset, past the end, empty file, and otherwise the bytes the read loop takes from that position |
| `Descriptor.OpenFile.Read` | file_system/fs_implementation.c:337-420 | the bytes the read loop takes from the position, which advances by their number |
| `Descriptor.ReadMatchesFlatFileIff` | file_system/fs_implementation.c:391-419 | the bytes read are those of the flat file from the position up to request or end if and only if the request reaches the end or is met by the first chunk with anything left |
| `Descriptor.OpenFile.ReadAtIsSeekThenRead` | file_system/fs_implementation.c:293-419 | a positional read equals a seek there followed by a read, for every position in a non-empty file, and does not move the position |
| `Descriptor.OpenFile.Write` | file_system/fs_implementation.c:422-526 | the loop of a sequential write refines the extension of the chain and accepts all bytes |
| `Descriptor.OpenFile.WriteLeavesPositionBehind` | file_system/fs_implementation.c:503-526 | a write at the end appends, and leaves the position short of the new end |
| `Descriptor.OpenFile.WriteSequence` | file_system/fs_implementation.c:422-526 | writes one after the other through one descriptor on an empty file give their concatenation in packed chunks |
| `Descriptor.OpenFile.StatSize` | file_system/fs_implementation.c:528-542 | the size reported is the length of the flat file |
| `Descriptor.OpenFile.Export` | file_system/file_system.c:626-658 | the buffer exported is the flat file, from one chunk or gathered from many |
| `Tree.LookupComplete` | file_system/file_system.c:143-163 | looking a name up fails if and only if no child has it |
| `Tree.FindChild` | file_system/file_system.c:143-163 | the loop that stops once names are past the wanted one finds what a search of the whole list finds |
| `Tree.ChildrenAscend` | file_system/file_system.c:108-140 | in every directory of a well-formed tree no later child's name lexicographically precedes an earlier one's |
| `Tree.InsertKeepsSorted` | file_system/file_system.c:108-140 | inserting before the first greater name keeps the list sorted |
| `Tree.AddChildOk` | file_system/file_system.c:108-140 | linking a new record keeps every directory sorted, and every linked record exactly once in its parent's list |
| `Tree.DetachOk` | file_system/fs_implementation.c:84-105 | taking a record out of its parent's list keeps all that, and the record is no longer linked |
| `Tree.RemoveOk` | file_system/file_system.c:242-265 | a record without links has no children and can go without breaking the tree |
| `Walk.FindFilePath` | file_system/file_system.c:165-178 | the loop resolves the path component by component from the root; where that leads is stated by `Normal.FoundAtNormalisedPath` |
| `Walk.EnterOk` | file_system/file_system.c:188-230 | one component, found, made, refused or going up, leaves a well-formed tree |
| `Walk.CreateThenFind` | file_system/file_system.c:165-230 | what `create_directories` returns is what looking the path up gives afterwards, if and only if every component started from a directory and none went up from the root |
| `Walk.UpFromRootIsNotFound` | file_system/file_system.c:199-208 | in every tree `../a` from the root is made and then not found |
| `Walk.ResolveLast` | file_system/file_system.c:165-178 | a path that leads to a file leads there by its last name, out of the directory the rest leads to |
| `Walk.FoundNeedsNoCreation` | file_system/file_system.c:188-230 | for a path that can be found nothing is created and the result is the record found |
| `Walk.CreateTwice` | file_system/file_system.c:188-230 | a second call creates nothing and returns the same directory |
| `Walk.CreateStaysUnder` | file_system/file_system.c:188-230 | with `prevent_up` the result and all new directories lie in the starting subtree, and no record outside changes |
| `Walk.LookupStaysFirst` | file_system/file_system.c:108-163 | a new child with a name already there goes behind it, so lookups keep finding the old one |
| `Normal.FoundAtNormalisedPath` | file_system/file_system.c:143-178 | a walk over names, `.` and `..` reaches the record whose own path from the root is the lexically normalised one |
| `Normal.DownAndUp` | file_system/file_system.c:143-178 | a name followed by `..` leads where the path in front of them leads |
| `Normal.CreatedAtNormalisedPath` | file_system/file_system.c:188-230 | what `create_directories` returns has the lexically normalised path as its own, made or found |
| `Normal.CreateDownAndUp` | file_system/file_system.c:188-230 | a name followed by `..` returns what the path in front of them returns, after making what the name needs |
| `FileSystem.NoneDangling` | file_system/fs_implementation.c:84-208 | with exact counts no descriptor and no directory handle names a record that was given back |
| `Creating.CreatedFileIsFound` | file_system/fs_implementation.c:117-142 | a file made by `open` is what its path leads to afterwards if and only if the path does not end in a slash, the name is neither `.` nor `..`, the walk was clean, and the directory reached had no child of that name |
| `Creating.DetourMissesTheNewFile` | file_system/fs_implementation.c:117-142 | in every tree with `b/f` and without `a`, creating `a/../b/f` makes a second file that the path does not lead to |
| `Creating.DetourExample` | file_system/fs_implementation.c:117-142 | the same in a tree with nothing but `b/f` |
| `Creating.MadeDirectoryIsFound` | file_system/fs_implementation.c:162-184 | after `mkdir` has succeeded the path leads to a new, empty directory if and only if it does not end in a slash and its last name is not `..` |
| `Creating.CreationOk` | file_system/fs_implementation.c:117-142 | when a file is made it is a new, empty, regular file under the name of the path, and old lookups still succeed alike |
| `Frames.CreationGrows` | file_system/fs_implementation.c:117-142 | making a file and its directories changes no old record's name, kind, place or bytes and no order among old children |
| `Frames.DetachFrame` | file_system/fs_implementation.c:84-105 | taking a record out of its directory changes no record's name, kind, place or bytes, and no list but by that one entry |
| `Frames.KeptThen` | file_system/fs_implementation.c:84-208 | these frames add up along a run |
| `FileSystem.FileSystem.FreeData` | file_system/file_system.c:242-265 | the record is given back if and only if neither links nor open descriptors hold it |
| `FileSystem.FileSystem.Close` | file_system/fs_implementation.c:198-208 | the descriptor is free afterwards, its file has one opener less and is given back exactly if that was its last holder; EBADF for a free descriptor; name, kind, place, bytes and children of every record that stays are as before |
| `FileSystem.FileSystem.CloseDir` | file_system/fs_implementation.c:632-636 | the same for a directory handle |
| `FileSystem.FileSystem.TakeOut` | file_system/fs_implementation.c:84-105 | the loop removes exactly the record from its parent's list and keeps the order of the rest |
| `FileSystem.FileSystem.Unlink` | file_system/fs_implementation.c:84-105 | the name is gone, an open file stays with its bytes until its last close, a closed one is given back; only its directory loses a child; error cases change nothing |
| `FileSystem.FileSystem.Rmdir` | file_system/fs_implementation.c:186-196 | succeeds if and only if the path leads to an empty directory other than the root, and changes nothing otherwise |
| `FileSystem.FileSystem.OpenDir` | file_system/fs_implementation.c:615-630 | succeeds if and only if the path leads to a directory, which then has one opener more |
| `FileSystem.FileSystem.OpenExisting` | file_system/file_system.c:299-359 | the descriptor names the file, whose open count rises by one, or nothing changes when access is refused; files, bytes and lists are as before |
| `FileSystem.FileSystem.LinkNew` | file_system/file_system.c:108-140 | a new record stands at its sorted place in the directory |
| `FileSystem.FileSystem.CreateDirectories` | file_system/file_system.c:188-230 | the loop over components refines the walk that makes directories, refuses to start from anything but a directory, and leaves every record and the order of its children as they were, apart from new records among them |
| `FileSystem.FileSystem.Mkdir` | file_system/fs_implementation.c:162-184 | every error case with nothing changed; otherwise the walk from the parent, after which the path leads to a new empty directory if and only if it does not end in a slash or in `..` |
| `FileSystem.FileSystem.CreateFile` | file_system/fs_implementation.c:117-142 | directories of the path are made and a new empty file is linked into the last, or the error with the directories made so far |
| `FileSystem.FileSystem.Open` | file_system/fs_implementation.c:108-160 | the lowest free descriptor on the file found, or on a new, empty file if there was none and one was asked for; EEXIST, ENOENT, EMFILE, EACCES and creation errors exactly in their cases; every old record keeps name, place, bytes and old children |
| `FileSystem.FileSystem.Perform` | file_system/fs_implementation.c:84-208 | each call keeps all counts exact and gives back at most one record, the one whose last holder it took away; records in the store before and after are the same files with the same bytes, and lists of children lose only what the call takes out and gain only new records, which are empty |
| `FileSystem.FileSystem.Run` | file_system/fs_implementation.c:84-208 | over every run of open, close, unlink, mkdir, rmdir, opendir and closedir: open counts equal descriptors plus handles, every record kept has a holder, every record ever made is either in the store or was given back exactly once, and a record there at both ends has the same name, kind, place and bytes, with the old children it still has in their old order |
| `Sets.CreatePlain` | file_system/file_system.c:188-230 | for plain names along which no file stands, directories are always made and lead exactly where the path says |
| `Sets.FilesSound` | file_system/file_system.c:610-686 | the export walk yields only regular files below its start |
| `Sets.FilesComplete` | file_system/file_system.c:610-686 | it yields every one of them |
| `Sets.FilesListed` | file_system/file_system.c:610-686 | it yields each once, in the order of paths in which a path stands behind those that continue it |
| `Sets.OrdersDiffer` | file_system/file_system.c:610-686 | that order differs from the component-wise one exactly on paths one of which continues the other |
| `Sets.PathLeqMeans` | file_system/file_system.c:610-686 | the component-wise order: one path is the other's beginning, or the first differing component lexicographically precedes |
| `Outputs.WalkGives` | file_system/file_system.c:610-686 | the export walk of any well-formed tree meets exactly the regular files reached through lists of children |
| `Outputs.WalkGivesOnce` | file_system/file_system.c:610-686 | and each once |
| `Loading.PutBufferHolds` | file_system/file_system.c:517-545 | loading one more item adds its file under its path and nothing else to the set |
| `Loading.OwnSet` | file_system/file_system.c:502-561 | a set of a new name gets a directory that holds exactly its items |
| `Loading.PutSetConfined` | file_system/file_system.c:502-561 | loading a set changes nothing outside the root's child its identifier starts with, and no other name in the root |
| `Loading.OwnSetAmongMany` | file_system/file_system.c:502-561 | after the loop over all input sets, whatever they are, a set whose name no other set goes to holds exactly its own items |
| `Loading.MakeSetsHold` | file_system/file_system.c:563-577 | making directories for output sets, of whatever names, leaves every set as it is |
| `Loading.SetFoundIff` | file_system/file_system.c:688-698 | the lookup at termination finds the directory made for a set if and only if its identifier holds no slash, and finds nothing at all for one that does |
| `Loading.IdentParts` | file_system/file_system.c:517-545 | splitting an exported identifier gives back its directories and its file name |
| `RoundTrip.LoadBuffer` | file_system/file_system.c:517-539 | one round of the item loop, its skipped and failing cases included |
| `RoundTrip.Initialize` | file_system/file_system.c:502-577 | the set loops do what the pure loading of all sets says |
| `RoundTrip.StartUp` | file_system/file_system.c:457-494 | afterwards the root has the static folders and nothing else, and `stdio` holds the empty files `stdout`, open at descriptor 1, and `stderr`, open at 2 |
| `RoundTrip.AddOutput` | file_system/file_system.c:610-686 | the recursion gives one buffer per file below, named by its path, in walk order |
| `RoundTrip.Terminate` | file_system/file_system.c:688-714 | for each output set one buffer, with path and bytes, for each file below the root's child of that name; for `stdio` for each whose path does not begin with argv, environ or stdin; nothing if there is no such child |
| `RoundTrip.StandardOut` | file_system/file_system.c:699-713 | an export of `stdio` holds the buffers `stdout` and `stderr` with the bytes of those files, and all other files but those of the three, each once |
| `RoundTrip.ExportIsInput` | file_system/file_system.c:610-714 | a directory that holds given items is exported as those items, each as often as it came in |
| `RoundTrip.SetRoundTrip` | file_system/file_system.c:502-714 | for every list of input and output sets that loads, a set whose identifier is one plain name that no other set goes to and the root did not have is exported as exactly its own items, in component-wise path order if and only if no item's path continues another's |
| `RoundTrip.SlashedSetsAreLost` | file_system/file_system.c:688-714 | nothing is exported for an identifier that holds a slash |
| `RoundTrip.LoadAndExport` | file_system/file_system.c:453-714 | from start-up to termination, for every list of sets that loads: every such set other than `dev` and `stdio` comes back, and `stdio` comes out with `stdout`, `stderr` and every other file of it but those of argv, environ and stdin |
| `LostSets.PrefixBehindItsContinuation` | file_system/file_system.c:108-140 | the items `a/b` and `a` load and come out in this order, which is not that of their paths |
| `LostSets.SetInSlashXIsLost` | file_system/file_system.c:502-714 | the item of a set named `in/x` is loaded into the tree and nothing of the set is exported |
| `IoSets.SetInTable` | runtime/runtime.c:89-126 | each set is the stretch of the table between its offset and the next, and offsets never fall |
| `IoSets.LayOut` | runtime/runtime.c:89-126 | the loops of `dandelion_exit` write the sets one after the other, with prefix sums as offsets and the total at the sentinel |
| `IoSets.Parse` | runtime/runtime.c:48-70 | the loops of `dandelion_init` read each set as the offsets delimit it |
| `IoSets.ExitThenInit` | runtime/runtime.c:28-126 | what one program lays out at exit, another reads back at start-up, set by set |
| `IoSets.OutputSet.AddOutput` | runtime/runtime.c:414-433 | the buffer is appended, earlier ones survive growth, and the room doubles exactly when it is full |

## Left out

- Sbrk: the wrap-around of `alloc_base + size` in `size_t` is not modelled; the heap is smaller than 2^63 bytes and integers are unbounded.
- Alloc: after an exit nothing is said about memory, so the size test stands before the padding is written; the lazy start of the break is part of the start state.
- Free: only pointers of live blocks; anything else is a caller's error that only DEBUG builds detect.
- Memmove: lengths below 2^31, because the code casts the length to `int`.
- Lseek: offsets are unbounded integers, so truncation to `int` for files of 2 GB and more is not modelled; gap bytes are whatever fresh memory holds, so only length and old bytes are stated.
- Read: the same truncation is not modelled.
- Write: sequential writes only; writes with an explicit offset or O_APPEND do not follow flat-file rules and are not modelled, and chunk allocation is assumed to succeed.
- Open: without O_TRUNC; permission bits are one parameter. A record whose linking fails is dropped by the model and leaked by the code.
- Close: the descriptor is cleared before the record may go, the code clears it right after.
- Unlink: not on directories with children, which the code would unlink with all below them; the memory handed back with the record is not modelled.
- OpenDir: below 65536 openers, where the counter would wrap.
- OpenExisting: the 16-bit open counter does not wrap in the model, so with 65535 directory handles on one directory `open` differs from the code; the exact counts of Open, Perform and Run are stated below that.
- GetFile: not on an empty path, where the code reads out of bounds. Mkdir and CreateFile inherit this.
- CreatedFileIsFound: paths hold no NUL, as C strings do not.
- CreateDirectories: where the walk would go on by name inside a regular file, whose content pointer the code takes for a list of children, it ends with an outcome of its own and nothing is claimed.
- LinkNew: records are taken to be zeroed when allocated, and names are at most 64 characters, as the code assumes.
- Perform: unlink in runs is that of regular files, and calls a program must not make (an empty path for mkdir, a handle that is not open) are skipped.
- StartUp: the `urandom` device is not modelled, so the `dev` folder is empty.
- Initialize: the opening of stdin, argv and environ from the stdio set, and the empty stdin made when there is none, change descriptors and the stdio folder only and are not modelled; file contents are byte strings here, whose link to chunk chains is `Descriptor.OpenFile.Export`.
- SetRoundTrip: other sets must go below a child of the root, so a set identified by dots or slashes alone, whose items go into the root itself, is excluded; items of the set itself are made of plain names with single slashes, none before one that continues it.
- SetupCharPPArray: for an item without arguments the code leaves NULL and its caller replaces it by a list holding only NULL; the model returns that list.
- Parse: offsets must rise and stay inside the table, which the platform guarantees; running out of memory at start-up and exit is not modelled.
- `dandelion_link`: one record has one parent and one place in one list, so linking it twice breaks the tree.
- Truncation: a shortened chain keeps its old successor, and other descriptors keep old chunks.
- The sign of `memcmp`: it compares addresses; zero against non-zero would be easy.
- `readdir`, devices, random numbers, mode bits, time stamps: short accessors.
- Platform layers under `system/platform` and `system/syscall`, `libc_extension`, `newlib_shim`: assembly, system calls and thin wrappers.
