# Verified model of Cobalt's build-graph generator and small runtime cores

This project is a Dafny model of several pieces of the Cobalt source tree, with
proofs of the properties their code and comments promise. Nothing in it is
executed: each operation is a Dafny function or method whose contract is
checked by the verifier.

- **The gyp Ninja generator** (`tools/gyp/pylib/gyp/generator/ninja.py`): the
  `Target` artifact record and its accessors, the two-namespace path algebra
  (`InvertRelativePath`, `ExpandSpecial`, `ExpandRuleVariables`,
  `GypPathCaseCorrection`, `GypPathToNinja`, `GypPathToUniqueOutput`), the
  toolchain lookup by role (`FindFirstInstanceOf`, `GetNinjaRuleName`,
  `GetConfigFlags`), output naming (`ComputeOutputFileName`, `ComputeOutput`),
  stamp collapsing, and the per-target `NinjaWriter` pipeline (`WriteSpec`
  with its actions, rules, copies, sources, link or archive step), followed by
  the per-configuration loop of `GenerateOutputForConfig` with its
  `target_outputs` map, short-name phony edges, the `all` edge and the
  `default_project` check. The writer is a class whose `Write*` methods append
  build edges to a `buildEdges` sequence; each is proved to append exactly the
  edges of a pure plan function (`NinjaPlan`, `NinjaSpecPlan`), and the
  properties are proved about those plans.
- **`ReuseAllocatorBase`** (`src/nb/reuse_allocator_base.cc`): memory blocks
  with merge, fit and split, the address-ordered free set with coalescing on
  free, the allocated map and the byte accounting of `total_allocated_` and
  `capacity_`.
- **Skia glyph ids and rectangles** (`SkGlyph.h`): the 20-bit packing of
  `SkPackedGlyphID`, the negated-storage `SkGlyphRect` with union,
  intersection and offset, and the `SkGlyph` bounds predicates.
- **The MPEG-2 TS program map section parser** (`ts_section_pmt.cc`),
  following section 2.4.4.8 of ISO/IEC 13818-1: header checks, the
  elementary-stream loop, and registration of PIDs only once the CRC has been
  read.
- **The nplb hex helpers** (`cryptography_helpers.cc`): `FromHex`,
  `DecodeHex` and `HexDump` with their round trip.
- **musl's `atexit` registry** (`atexit.c`): chunked LIFO registration,
  `__funcs_on_exit`, `__cxa_finalize` and the `call` trampoline.
- **`TimestampUnroller`** (`timestamp_unroller.h`): unrolling of 33-bit
  timestamps as a two-field state machine.
- **`GetDefaultConfigAndPlatform`** (`starboard/tools/build.py`): how the
  build configuration is chosen from the environment.

Shared pieces: `wrappers.dfy` (Option and Result), `arith.dfy` (alignment
arithmetic), `reuse_blocks.dfy` (the allocator's block values).

## Model

| member | source | states |
|---|---|---|
| AtExit.ZeroChunk | third_party/musl/src/exit/atexit.c:15-20 | A chunk as static storage or `calloc` leaves it: COUNT entries, each a null function with a null argument |
| AtExit.Invoke | third_party/musl/src/exit/atexit.c:85-88 | An entry whose function is the `call` trampoline calls the function it carries with no argument; any other entry calls its function with its argument |
| AtExit.StorePending | third_party/musl/src/exit/atexit.c:77-79 | Storing an entry at `slot` of the head chunk and moving `slot` on puts that entry in front of the pending handlers |
| AtExit.MakeRoom | third_party/musl/src/exit/atexit.c:64-74 | When the head chunk is full (slot == 32) a zeroed chunk goes in front and slot becomes 0; otherwise nothing changes; either way the pending handlers are the same |
| AtExit.Append | third_party/musl/src/exit/atexit.c:76-79 | Storing into a head chunk with room writes only that slot, moves slot up by one and puts the new entry first among the pending handlers |
| AtExit.PushPending | third_party/musl/src/exit/atexit.c:64-74 | A fresh empty chunk in front of a full one does not change which handlers are pending |
| AtExit.RunChunk | third_party/musl/src/exit/atexit.c:41-47 | The inner loop over one chunk calls the first `slot` entries in reverse order, appended to the trace |
| AtExit.RunChain | third_party/musl/src/exit/atexit.c:41-47 | The whole loop appends exactly the pending handlers to the trace: the head chunk from `slot - 1` down, then each older chunk from 31 down |
| AtExit.PendingStep | third_party/musl/src/exit/atexit.c:41 | The pending handlers are the head chunk's first `slot` entries, newest first, followed by the next chunk's handlers with slot taken as COUNT |
| AtExit.Registry.Chain | third_party/musl/src/exit/atexit.c:15-22 | With `head` null no chunk is reachable; otherwise the chain is non-empty and ends at the static chunk |
| AtExit.Registry.constructor | third_party/musl/src/exit/atexit.c:15-22 | Program start: `head` null, slot 0, the static chunk zeroed, nothing registered and nothing run |
| AtExit.Registry.CxaAtExit | third_party/musl/src/exit/atexit.c:57-83 | Returns -1 exactly when slot is COUNT and `calloc` fails, and then changes nothing except setting `head`; otherwise returns 0 after making room and appending the entry, so that the entry becomes the newest pending handler |
| AtExit.Registry.Insert | third_party/musl/src/exit/atexit.c:64-79 | Once `head` is set, registration makes room and appends: the entry becomes the most recent registration and the first pending handler |
| AtExit.Registry.AtExit | third_party/musl/src/exit/atexit.c:90-93 | `atexit(f)` registers the trampoline with `f` as its argument, and fails under the same condition as `__cxa_atexit` |
| AtExit.Registry.RunHandlers | third_party/musl/src/exit/atexit.c:37-48 | Runs exactly the pending handlers, newest first, and leaves `head` null, the extra chunks dropped and slot at COUNT when there was a chain to run |
| AtExit.Registry.FuncsOnExitAsWritten | third_party/musl/src/exit/atexit.c:37-48 | The function as written: all pending handlers run, newest first (on a registry that never ran before, exactly the registered ones in reverse order); `head` ends null, and slot is left at COUNT whenever something was registered |
| AtExit.Registry.FuncsOnExit | third_party/musl/src/exit/atexit.c:37-48 | The corrected function: every handler registered since the last run runs once, in reverse order of registration; `head` is null, slot 0 and the extra chunks dropped, while the static chunk keeps its stale entries, which are never run again |
| AtExit.Registry.CxaFinalize | third_party/musl/src/exit/atexit.c:50-55 | In the Starboard build (the only one modelled; elsewhere the body is empty) `__cxa_finalize` ignores `dso` and runs `__funcs_on_exit` as written: every pending handler runs, newest first, and slot is left at COUNT when there was a chain |
| AtExit.Registry.CxaFinalizeCorrected | third_party/musl/src/exit/atexit.c:50-55 | `__cxa_finalize` of the Starboard build over the corrected function: every registered handler runs once, newest first, and slot is back at 0 |
| AtExit.StaleHandlersAsWritten | third_party/musl/src/exit/atexit.c:41 | With the source's `__funcs_on_exit`, two rounds of register-then-run call 34 functions: handler 1, handler 2, 31 null function pointers and handler 1 again |
| AtExit.StaleRun | third_party/musl/src/exit/atexit.c:41 | The same 34-call trace, stated over the chunk values |
| AtExit.StaleHandlersCorrected | third_party/musl/src/exit/atexit.c:41 | With the corrected function the same two rounds call handler 1 and then handler 2, each once |
| AtExit.AtExitCallsWithoutArgument | third_party/musl/src/exit/atexit.c:85-93 | A handler registered with `atexit` is called with no argument |
| AtExit.RunTwice | third_party/musl/src/exit/atexit.c:37-48 | Running `__funcs_on_exit` as written twice in a row calls the pending handlers once: after the first run `head` is null, so the second calls nothing |
| AtExit.RunTwiceCorrected | third_party/musl/src/exit/atexit.c:37-48 | The same with the corrected function: each registered handler runs once, in reverse order, and nothing is pending afterwards |
| BuildDefaults.Lower | starboard/tools/build.py:75 | `lower()` keeps the length, maps each ASCII capital to its small letter, and leaves every other character as it was |
| BuildDefaults.Check | starboard/tools/build.py:49-66 | The value passes exactly when it belongs to the valid set; a warning naming the key and the raw value is logged exactly when it does not |
| BuildDefaults.FromVariable | starboard/tools/build.py:73-83 | An absent variable gives nothing; a present one gives its lower-cased value when that is valid, and otherwise nothing plus a warning |
| BuildDefaults.FirstUnderscore | starboard/tools/build.py:95 | Finds a position exactly when the string contains '_', and the position found is the first '_' |
| BuildDefaults.SplitFirst | starboard/tools/build.py:102 | `split('_', 1)` returns a first part with no '_' and a second part that together give back the string |
| BuildDefaults.GetDefaultConfigAndPlatform | starboard/tools/build.py:69-112 | Each part of the result, when set, is valid and lower case, and a part that its own variable sets validly is never overridden |
| BuildDefaults.FromConfiguration | starboard/tools/build.py:90-112 | Taking `BUILD_CONFIGURATION` into account keeps every part that is already set, and fills a missing part only with a valid lower-case value |
| BuildDefaults.BothValidIgnoresConfiguration | starboard/tools/build.py:85-86 | When both variables are valid the result is their lower-cased values, whatever `BUILD_CONFIGURATION` holds and whether or not it is set |
| BuildDefaults.NoUsableConfiguration | starboard/tools/build.py:90-100 | With no `BUILD_CONFIGURATION`, or one without '_', the result is what the two variables give, and the missing-'_' warning appears only when the variable is present |
| BuildDefaults.ConfigurationSplit | starboard/tools/build.py:102-112 | A missing config is filled with everything after the first '_' of the lower-cased `BUILD_CONFIGURATION` when that is valid, and a missing platform with everything before it |
| BuildDefaults.SplitUnique | starboard/tools/build.py:102 | There is only one way to split a string at a '_' with no '_' in the first part |
| BuildDefaults.UnderscoreAt | starboard/tools/build.py:102 | In `x + "_" + y` with no '_' in `x`, the first '_' is at position \|x\| |
| BuildDefaults.InvalidVariableWarns | starboard/tools/build.py:49-56 | An invalid `BUILD_TYPE` is reported as a warning, never raised, and without `BUILD_CONFIGURATION` the config is left unset |
| TimestampUnroller.Unroll | cobalt/media/formats/mp2t/timestamp_unroller.h:21-29 | The result is `timestamp + k * 2^33` for some k, lies at most 2^32 from the previous value, and no other such candidate is closer to it |
| TimestampUnroller.UnrollRecovers | cobalt/media/formats/mp2t/timestamp_unroller.h:21-29 | When the true timestamp lies less than half a period from the previous unrolled value, unrolling its 33-bit code gives that true timestamp back |
| TimestampUnroller.UnrollByResidue | cobalt/media/formats/mp2t/timestamp_unroller.h:21-25 | Codes that differ by a multiple of 2^33 unroll to the same value |
| TimestampUnroller.TimestampUnroller.constructor | cobalt/media/formats/mp2t/timestamp_unroller.h:35-40 | A new unroller has no valid previous timestamp |
| TimestampUnroller.TimestampUnroller.GetUnrolledTimestamp | cobalt/media/formats/mp2t/timestamp_unroller.h:21-30 | The first call returns the timestamp unchanged; later calls return the closest unrolled value to the previous result; the result is always congruent to the input modulo 2^33 and becomes the new previous value |
| TimestampUnroller.TimestampUnroller.Reset | cobalt/media/formats/mp2t/timestamp_unroller.h:32-33 | Back to the initial state: the next call returns its timestamp unchanged |
| CryptographyHelpers.HexValue | starboard/nplb/cryptography_helpers.cc:79-94 | A character has a value exactly when it is a decimal digit or a letter a-f in either case, and that value is below 16 |
| CryptographyHelpers.LowerDigit | starboard/nplb/cryptography_helpers.cc:141 | The digit `%x` prints for a value below 16 is a decimal digit or a lowercase letter a-f |
| CryptographyHelpers.DigitRoundTrip | starboard/nplb/cryptography_helpers.cc:79-94 | Reading back a printed digit gives its value, and the capital form of a letter digit reads as the same value |
| CryptographyHelpers.HexValueDigits | starboard/nplb/cryptography_helpers.cc:79-94 | Every character `FromHex` accepts is the printed digit of its value or the capital form of that digit |
| CryptographyHelpers.FromHex | starboard/nplb/cryptography_helpers.cc:79-94 | Returns 1 exactly for a hex digit and then stores its value; returns 0 otherwise and leaves `*out` as it was |
| CryptographyHelpers.PairByte | starboard/nplb/cryptography_helpers.cc:128 | The byte a valid pair spells has the first digit as its high nibble and the second as its low nibble |
| CryptographyHelpers.InvalidPairs | starboard/nplb/cryptography_helpers.cc:120-127 | Every failure recorded for the first k pairs is an invalid-character failure at an even position before 2k |
| CryptographyHelpers.DecodeHex | starboard/nplb/cryptography_helpers.cc:97-133 | A null input clears the output; odd length records one failure and leaves the outputs alone; otherwise a fresh buffer of half the length holds the byte of every valid pair, with one failure recorded per invalid pair, in order |
| CryptographyHelpers.DecodePairs | starboard/nplb/cryptography_helpers.cc:120-129 | The loop writes the byte of every valid pair and records exactly the failures of the invalid pairs, in order |
| CryptographyHelpers.DecodePair | starboard/nplb/cryptography_helpers.cc:121-128 | One iteration succeeds exactly when both characters of the pair are digits, and then yields the byte they spell |
| CryptographyHelpers.HexDump | starboard/nplb/cryptography_helpers.cc:135-146 | The returned text is the `%02x` rendering of the bytes, in order |
| CryptographyHelpers.HexLayout | starboard/nplb/cryptography_helpers.cc:135-146 | The dump has two lowercase hex digits per byte: the high nibble at position 2k and the low nibble at 2k+1 |
| CryptographyHelpers.DecodeDump | starboard/nplb/cryptography_helpers.cc:97-146 | A dump has even length, every pair in it is valid and spells the byte it came from, so decoding it records no failure |
| CryptographyHelpers.InvalidPairsExact | starboard/nplb/cryptography_helpers.cc:122-126 | A failure is recorded at position 2j exactly when pair j holds a character that is not a hex digit |
| CryptographyHelpers.DumpThenDecode | starboard/nplb/cryptography_helpers.cc:97-146 | Dumping bytes and decoding the dump gives the same bytes back with no failure |
| TsSectionPmt.BitReader.ReadBits | cobalt/media/formats/mp2t/ts_section_pmt.cc:35-39 | A read succeeds exactly when at least n bits are left; it then moves the cursor by n and yields those bits as an unsigned number, and a failed read leaves the cursor alone |
| TsSectionPmt.BitReader.constructor | cobalt/media/formats/mp2t/ts_section_pmt.cc:23 | The parser gets a reader over exactly the section's bits, with nothing read yet |
| TsSectionPmt.BitReader.BitsAvailable | cobalt/media/formats/mp2t/ts_section_pmt.cc:83 | `bits_available()` is the number of bits after the cursor: those read and those left make up the whole section |
| TsSectionPmt.BitReader.SkipBits | cobalt/media/formats/mp2t/ts_section_pmt.cc:76 | A skip succeeds exactly when at least n bits are left and then moves the cursor by n |
| TsSectionPmt.TsSectionPmtParser.constructor | cobalt/media/formats/mp2t/ts_section_pmt.cc:110-112 | A new parser has registered nothing |
| TsSectionPmt.TsSectionPmtParser.ParsePsiSection | cobalt/media/formats/mp2t/ts_section_pmt.cc:23-115 | Returns true exactly when every read and check of the section succeeds, the CRC read included; only then are PIDs registered, and the registrations are exactly those of the parsed entries; on false nothing is registered |
| TsSectionPmt.TsSectionPmtParser.Register | cobalt/media/formats/mp2t/ts_section_pmt.cc:110-112 | Registers every PID of the map, with its stream type, in ascending PID order |
| TsSectionPmt.TsSectionPmtParser.ResetPsiSection | cobalt/media/formats/mp2t/ts_section_pmt.cc:117 | Resetting changes nothing |
| TsSectionPmt.ReadHeader | cobalt/media/formats/mp2t/ts_section_pmt.cc:35-58 | Succeeds exactly when the first 64 bits are there and pass every check (table id 2, syntax indicator set, zero bit clear, section length at most 1021, section numbers 0); then yields `section_length` and the bytes left after it |
| TsSectionPmt.ReadSectionNumbers | cobalt/media/formats/mp2t/ts_section_pmt.cc:40-58 | The reads from `program_number` on, with the checks of the whole header, succeed under the same condition as the full header reads |
| TsSectionPmt.ReadFixedPart | cobalt/media/formats/mp2t/ts_section_pmt.cc:64-76 | Succeeds exactly when the rest of the fixed part is there, `program_info_length` is below 1024 and its descriptors fit; the cursor is then at the first elementary stream entry |
| TsSectionPmt.ReadEsLoop | cobalt/media/formats/mp2t/ts_section_pmt.cc:81-103 | The loop succeeds exactly when the loop function does; the map it builds is the collected map of the entries read, and the cursor ends where the loop stopped |
| TsSectionPmt.ReadEsEntry | cobalt/media/formats/mp2t/ts_section_pmt.cc:88-92 | Reading one entry succeeds exactly when 40 bits are left, and yields the PID, the stream type and `es_info_length` from those bits |
| TsSectionPmt.ParsedHeaderChecks | cobalt/media/formats/mp2t/ts_section_pmt.cc:49-71 | A section that parses has table id 2, the syntax indicator set, the zero bit clear, a section length of at most 1021, section numbers 0 and `program_info_length` below 1024 |
| TsSectionPmt.EsLoopStop | cobalt/media/formats/mp2t/ts_section_pmt.cc:83 | The loop stops only once at most `8 * pid_map_end_marker` bits are left, and never before it started |
| TsSectionPmt.EsLoopNeverStops | cobalt/media/formats/mp2t/ts_section_pmt.cc:81-103 | With a negative end marker the loop condition never fails, so the loop ends in a failed read |
| TsSectionPmt.OverlongSectionRejected | cobalt/media/formats/mp2t/ts_section_pmt.cc:40-81 | A `section_length` more than 4 bytes beyond the data that follows it makes the section fail to parse |
| TsSectionPmt.ExactSectionLeavesCrc | cobalt/media/formats/mp2t/ts_section_pmt.cc:79-107 | When the data holds exactly one section the loop stops with exactly the 32 CRC bits left |
| TsSectionPmt.CrcNotValidated | cobalt/media/formats/mp2t/ts_section_pmt.cc:105-107 | The CRC is read but never compared: on data holding exactly one section, any 32 bits in its place give the same result |
| TsSectionPmt.CollectFirstWins | cobalt/media/formats/mp2t/ts_section_pmt.cc:97 | `pid_map` holds every PID of the entries, each with the stream type of the first entry naming it, since `insert` does not overwrite |
| TsSectionPmt.InOrderFromMap | cobalt/media/formats/mp2t/ts_section_pmt.cc:110-112 | Every registration is a key of the map with its value |
| TsSectionPmt.InOrderAscending | cobalt/media/formats/mp2t/ts_section_pmt.cc:110-112 | The registrations come in strictly ascending PID order, so no PID is registered twice |
| TsSectionPmt.InOrderCovers | cobalt/media/formats/mp2t/ts_section_pmt.cc:110-112 | Every key of the map is registered |
| TsSectionPmt.RegistrationsOnce | cobalt/media/formats/mp2t/ts_section_pmt.cc:94-112 | The registrations of a section are in strictly ascending PID order, cover every PID of its entries, and each is the first entry naming its PID |
| ReuseBlocks.AlignUp | src/nb/reuse_allocator_base.cc:57-58 | The result is a multiple of the alignment, at or above x and less than one alignment above it |
| ReuseBlocks.AlignDown | src/nb/reuse_allocator_base.cc:96-97 | The result is a multiple of the alignment, at or below x and less than one alignment below it |
| ReuseBlocks.AlignUpLeast | src/nb/reuse_allocator_base.cc:57-58 | Rounding up gives the least multiple of the alignment at or above x |
| ReuseBlocks.AlignDownGreatest | src/nb/reuse_allocator_base.cc:96-97 | Rounding down gives the greatest multiple of the alignment at or below x |
| ReuseBlocks.NormalizeSize | src/nb/reuse_allocator_base.cc:120 | The normalised size is the least multiple of 16 that is at least 16 and at least the request |
| ReuseBlocks.NormalizeAlignment | src/nb/reuse_allocator_base.cc:121 | The normalised alignment is the least multiple of 16 that is at least 1 and at least the requested alignment |
| ReuseBlocks.Merge | src/nb/reuse_allocator_base.cc:42-53 | Merging succeeds exactly when the two blocks touch, in either order; the merged block then starts at the lower address and has both sizes; otherwise the block is unchanged |
| ReuseBlocks.CanFullfillIff | src/nb/reuse_allocator_base.cc:55-61 | A block can fulfil a request exactly when some address in it that is a multiple of the alignment has the requested bytes behind it inside the block |
| ReuseBlocks.FitsWithin | src/nb/reuse_allocator_base.cc:330-334 | A block that contains an aligned run of at least the requested size can fulfil the request |
| ReuseBlocks.Split | src/nb/reuse_allocator_base.cc:63-113 | The allocated part lies inside the block and holds the aligned request; with no free part the whole block is allocated; otherwise the free part has at least 16 bytes, the two parts share the block's bytes, and the allocated part is at the block's front or back as asked |
| ReuseBlocks.LowerBound | src/nb/reuse_allocator_base.cc:373 | The lower bound is the first block that does not start below the given block: every block before it starts below |
| ReuseBlocks.LowerBoundSorted | src/nb/reuse_allocator_base.cc:373-376 | In an address-ordered list every block from the lower bound on starts at or after the given block |
| ReuseBlocks.InsertMerged | src/nb/reuse_allocator_base.cc:365-403 | Erasing the neighbours the block absorbed and inserting the merged block keeps the list ordered, fully merged and without empty or NULL blocks; the list gains exactly the block's bytes and addresses, the merged block contains the added block, and blocks that overlapped nothing still overlap nothing |
| ReuseBlocks.Sides | src/nb/reuse_allocator_base.cc:373-392 | A block apart from an ordered list sits between the blocks before its lower bound and those from it on |
| ReuseBlocks.MergedSize | src/nb/reuse_allocator_base.cc:378-392 | The merged block's size is the added block's size plus the sizes of the neighbours it absorbed |
| ReuseBlocks.RemoveAt | src/nb/reuse_allocator_base.cc:405-407 | Erasing a block keeps the list ordered, fully merged and proper, removes exactly that block's bytes and addresses, and keeps apart every block that was apart |
| ReuseBlocks.RemovedCovers | src/nb/reuse_allocator_base.cc:405-407 | An address still covered after an erase was covered before and is not in the erased block |
| ReuseBlocks.SumOverRemove | src/nb/reuse_allocator_base.cc:358-363 | The sum of the allocated sizes does not depend on the order the keys are taken in |
| ReuseBlocks.SumOverAgree | src/nb/reuse_allocator_base.cc:358-363 | Two maps whose blocks have the same sizes on a key set have the same sum over it |
| ReuseBlocks.AllocatedBytesAdd | src/nb/reuse_allocator_base.cc:358-363 | Recording a block under a new address adds its size to `total_allocated_` |
| ReuseBlocks.AllocatedBytesRemove | src/nb/reuse_allocator_base.cc:228-233 | Erasing an allocation takes its size away from `total_allocated_` |
| ReuseAllocator.ReuseAllocatorBase.constructor | src/nb/reuse_allocator_base.cc:290-301 | A new allocator holds no allocation; with no initial capacity it holds no free memory and has asked the fallback for nothing; with a positive one the free list is exactly the fallback block `ExpandToFit` obtained, which is also the only fallback allocation and the whole capacity |
| ReuseAllocator.ReuseAllocatorBase.RemoveFreeBlock | src/nb/reuse_allocator_base.cc:405-407 | Erases exactly the chosen block: the list stays ordered and merged, and loses exactly that block's bytes and addresses |
| ReuseAllocator.ReuseAllocatorBase.AddFreeBlock | src/nb/reuse_allocator_base.cc:365-403 | Returns a position whose block contains the added one; the list stays ordered and fully merged, gains exactly the block's bytes and addresses, and blocks that overlapped neither still overlap nothing |
| ReuseAllocator.ReuseAllocatorBase.AddAllocatedBlock | src/nb/reuse_allocator_base.cc:358-363 | Records the block under the user address and adds its size to `total_allocated_` |
| ReuseAllocator.ReuseAllocatorBase.ExpandToFit | src/nb/reuse_allocator_base.cc:317-356 | The fallback reply used is the increment-sized one when the increment exceeds the size, else the exact one, else the top-up of the last free block; it is recorded, added to `capacity_` and to the free memory (an empty free list becomes exactly that block); a returned block can fulfil the request, its first aligned address lies inside it, and nothing is returned when no reply was used |
| ReuseAllocator.ReuseAllocatorBase.Grow | src/nb/reuse_allocator_base.cc:330-353 | Memory from the fallback is recorded, added to `capacity_` and to the free list, and the returned block contains it |
| ReuseAllocator.ReuseAllocatorBase.TakeFree | src/nb/reuse_allocator_base.cc:136-145 | The block taken is exactly the allocated part `MemoryBlock::Allocate` splits off the chosen free block, from the front or the back as asked, and it overlaps no free block; free memory is the old free memory minus exactly its bytes, so the remainder, when there is one, stays free |
| ReuseAllocator.ReuseAllocatorBase.Carve | src/nb/reuse_allocator_base.cc:136-149 | Records one new allocation, exactly the front or back part split off the chosen free block, under its first aligned address with the requested bytes behind it; changes no other allocation, adds its size to `total_allocated_` and takes exactly its bytes out of free memory |
| ReuseAllocator.ReuseAllocatorBase.CarveWhole | src/nb/reuse_allocator_base.cc:274-277 | Records the whole chosen free block as a new allocation under its first aligned address |
| ReuseAllocator.ReuseAllocatorBase.Locate | src/nb/reuse_allocator_base.cc:119-133 | The block search: a found block is used as it is and nothing changes; otherwise `ExpandToFit` runs, its fallback reply is recorded and added to capacity and free memory, and a returned block can fulfil the request |
| ReuseAllocator.ReuseAllocatorBase.Allocate | src/nb/reuse_allocator_base.cc:119-151 | With a block found the allocation always succeeds without calling the fallback; a failure changes no allocation. A success adds one new allocation that is exactly the front or back part split off the chosen block (the found one, or else one lying in the old free memory plus the fallback reply used), whose user address is a multiple of the normalised alignment with the normalised size behind it, and adds its size to `total_allocated_`. Free memory is the old free memory plus that reply, minus exactly the new allocation's bytes, so the split's remainder stays free |
| ReuseAllocator.ReuseAllocatorBase.AllocateAnyAlignment | src/nb/reuse_allocator_base.cc:115-117 | The same as `Allocate` at alignment 1: the allocation is the split-off part of the chosen block, its user address is a multiple of 16 with the normalised size behind it, and the free list and fallback record change as for `Allocate` |
| ReuseAllocator.ReuseAllocatorBase.CarveBest | src/nb/reuse_allocator_base.cc:257-277 | When the chosen block can fulfil the size, the new allocation is exactly the part split off it, from the front or the back as asked; otherwise it is the whole block. Either way it lies at an aligned user address inside the block, its size is added to `total_allocated_` and its bytes leave free memory |
| ReuseAllocator.ReuseAllocatorBase.AllocateBestBlock | src/nb/reuse_allocator_base.cc:237-288 | With a block found it always succeeds; a failure leaves allocations and the hint alone. A success adds one allocation at an aligned user address: the part split off the chosen block when that can fulfil the normalised hint, else the whole block. The hint comes back as the smaller of itself and the bytes behind that address (positive exactly when the hint was), and free memory and the fallback record change as for `Allocate` |
| ReuseAllocator.ReuseAllocatorBase.LowerHint | src/nb/reuse_allocator_base.cc:278-283 | The hint becomes the smaller of itself and the bytes behind the user address, and stays positive exactly when it was |
| ReuseAllocator.ReuseAllocatorBase.TryFree | src/nb/reuse_allocator_base.cc:216-235 | Succeeds exactly for NULL or a live allocation; an unknown address changes nothing; a live allocation leaves the map, its size leaves `total_allocated_` and its bytes become free |
| ReuseAllocator.ReuseAllocatorBase.Free | src/nb/reuse_allocator_base.cc:153-156 | Freeing NULL changes nothing; freeing a live allocation removes it and its size from `total_allocated_`, and free memory gains exactly its bytes |
| ReuseAllocator.ApartFromRest | src/nb/reuse_allocator_base.cc:133-134 | A block taken off an ordered free list overlaps none of the others |
| ReuseAllocator.WithinApart | src/nb/reuse_allocator_base.cc:136-145 | Part of a block that overlaps no free block overlaps none either |
| ReuseAllocator.NewAllocation | src/nb/reuse_allocator_base.cc:146-148 | Recording part of a free block under a user address inside it keeps the allocations apart from each other, and the address was not in use |
| ReuseAllocator.SplitCovers | src/nb/reuse_allocator_base.cc:63-113 | The free part holds exactly the block's addresses that the allocated part does not |
| SkGlyph.PackedGlyphID.SubToFixed | third_party/skia_next/third_party/skia/src/core/SkGlyph.h:167-170 | The sub-pixel field moved to bits 14-15 gives a 16.16 fixed-point value below one pixel that is a whole number of quarter pixels, namely the field's value of them |
| SkGlyph.Fields | third_party/skia_next/third_party/skia/src/core/SkGlyph.h:27-41 | A word made of an x field below 4, a glyph id and a y field below 4 is packed, and reading its three fields gives them back |
| SkGlyph.PackedGlyphID.GlyphID | third_party/skia_next/third_party/skia/src/core/SkGlyph.h:78-80 | For a packed key, the word is its x field plus the glyph id shifted past the x field plus the y field shifted past the id: the id is what `glyphID()` masks out (`PackRoundTrip` gives it back) |
| SkGlyph.PackedGlyphID.SubXFixed | third_party/skia_next/third_party/skia/src/core/SkGlyph.h:86-88 | `getSubXFixed()` is a 16.16 value below one pixel that is a whole number of quarter pixels, as many as the x field says |
| SkGlyph.PackedGlyphID.SubYFixed | third_party/skia_next/third_party/skia/src/core/SkGlyph.h:90-92 | `getSubYFixed()` is the same for the y field |
| SkGlyph.PackedGlyphID.Eq | third_party/skia_next/third_party/skia/src/core/SkGlyph.h:68-70 | `==` holds exactly for equal keys (`EqualityOnRawID` states it over `fID`) |
| SkGlyph.PackedGlyphID.Neq | third_party/skia_next/third_party/skia/src/core/SkGlyph.h:71-73 | `!=` holds exactly for different keys |
| SkGlyph.PackedGlyphID.Less | third_party/skia_next/third_party/skia/src/core/SkGlyph.h:74-76 | `<` never holds between equal keys, and when it fails the keys are equal or the other key's word is smaller (`LessIsStrictTotalOrder` gives the order laws) |
| SkGlyph.FromGlyphID | third_party/skia_next/third_party/skia/src/core/SkGlyph.h:53-54 | Packing a bare glyph id gives a packed key with that id and both sub-pixel fields 0 |
| SkGlyph.PackIDSubXSubY | third_party/skia_next/third_party/skia/src/core/SkGlyph.h:105-110 | With both positions below 4 the key is packed and its id and sub-pixel fields are exactly the inputs |
| SkGlyph.FixedToSub | third_party/skia_next/third_party/skia/src/core/SkGlyph.h:163-165 | The result is below 4: the quarter pixel that the fraction of the unsigned pattern of the fixed-point value falls in |
| SkGlyph.PackIDXY | third_party/skia_next/third_party/skia/src/core/SkGlyph.h:159-161 | The key carries the glyph id, and each fixed-point offset becomes its fraction rounded down to a quarter pixel |
| SkGlyph.FromValue | third_party/skia_next/third_party/skia/src/core/SkGlyph.h:65 | The raw-word constructor always gives a packed key, equal to the word modulo 2^20 |
| SkGlyph.FromValueKeepsPacked | third_party/skia_next/third_party/skia/src/core/SkGlyph.h:65 | The raw-word constructor changes a word exactly when the word is not already a packed key |
| SkGlyph.Default | third_party/skia_next/third_party/skia/src/core/SkGlyph.h:66 | The default key is `kImpossibleID`, which is not packed and differs from every packed key |
| SkGlyph.PackRoundTrip | third_party/skia_next/third_party/skia/src/core/SkGlyph.h:78-110 | Packing an id with positions below 4 and reading back the id and the two fixed-point offsets gives the id and the positions again |
| SkGlyph.FixedToSubOfSubToFixed | third_party/skia_next/third_party/skia/src/core/SkGlyph.h:163-170 | `FixedToSub` undoes `subToFixed` on both sub-pixel fields |
| SkGlyph.PackedFromParts | third_party/skia_next/third_party/skia/src/core/SkGlyph.h:78-92 | A packed key is rebuilt exactly from its glyph id and its two fixed-point offsets |
| SkGlyph.EqualityOnRawID | third_party/skia_next/third_party/skia/src/core/SkGlyph.h:68-73 | `==` holds exactly for equal keys and `!=` exactly for different ones |
| SkGlyph.LessIsStrictTotalOrder | third_party/skia_next/third_party/skia/src/core/SkGlyph.h:74-76 | `<` is irreflexive and transitive, and any two different keys are ordered one way or the other |
| SkGlyph.MakeRect | third_party/skia_next/third_party/skia/src/core/SkGlyph.h:185-189 | A rectangle built from edges other than INT16_MIN reads back those four edges, and is empty exactly when left >= right or top >= bottom |
| SkGlyph.GlyphRect.Left | third_party/skia_next/third_party/skia/src/core/SkGlyph.h:193-195 | The left edge read back from storage is an int16 value, and not INT16_MIN unless that was stored |
| SkGlyph.GlyphRect.Top | third_party/skia_next/third_party/skia/src/core/SkGlyph.h:193-195 | The same for the top edge |
| SkGlyph.GlyphRect.Right | third_party/skia_next/third_party/skia/src/core/SkGlyph.h:193-195 | The right edge is read back by negating the stored lane, so it lies in [-32767, 32768], and in [-32767, 32767] unless INT16_MIN was stored (`RectEdgesRoundTrip`) |
| SkGlyph.GlyphRect.Bottom | third_party/skia_next/third_party/skia/src/core/SkGlyph.h:193-195 | The same for the bottom edge |
| SkGlyph.GlyphRect.Empty | third_party/skia_next/third_party/skia/src/core/SkGlyph.h:190-192 | `empty()` holds exactly when left >= right or top >= bottom |
| SkGlyph.RectEdgesRoundTrip | third_party/skia_next/third_party/skia/src/core/SkGlyph.h:185-195 | A rectangle whose lanes are in the allowed range is rebuilt exactly by the public constructor from its four edges |
| SkGlyph.LaneLattice | third_party/skia_next/third_party/skia/src/core/SkGlyph.h:221-226 | Lane-wise min and max are commutative, associative, idempotent and absorb each other, the laws `RectLattice` lifts to rectangles |
| SkGlyph.Union | third_party/skia_next/third_party/skia/src/core/SkGlyph.h:221-223 | The union has the smaller left and top edges and the larger right and bottom edges of the two |
| SkGlyph.Intersection | third_party/skia_next/third_party/skia/src/core/SkGlyph.h:224-226 | The intersection has the larger left and top edges and the smaller right and bottom edges of the two |
| SkGlyph.EmptyRect | third_party/skia_next/third_party/skia/src/core/SkGlyph.h:213-216 | `empty_rect()` is empty and its edges are within the range the public constructor allows |
| SkGlyph.FullRect | third_party/skia_next/third_party/skia/src/core/SkGlyph.h:217-220 | `full_rect()` is not empty and its edges are within the allowed range |
| SkGlyph.Wrap16 | third_party/skia_next/third_party/skia/src/core/SkGlyph.h:199-201 | A value that fits in int16_t is kept unchanged |
| SkGlyph.Offset | third_party/skia_next/third_party/skia/src/core/SkGlyph.h:199-201 | When no edge wraps, every edge moves by the offset and emptiness is kept |
| SkGlyph.RectLattice | third_party/skia_next/third_party/skia/src/core/SkGlyph.h:221-226 | Union and intersection are commutative, associative and idempotent, and each absorbs the other |
| SkGlyph.RectIdentities | third_party/skia_next/third_party/skia/src/core/SkGlyph.h:213-226 | For rectangles in the allowed range, `empty_rect()` is the unit of union and `full_rect()` the unit of intersection |
| SkGlyph.FullRectNotIdentityAtMin | third_party/skia_next/third_party/skia/src/core/SkGlyph.h:185-226 | A stored INT16_MIN edge, which the constructor's assertion excludes, is altered by intersection with `full_rect()` |
| SkGlyph.MaxDimension | third_party/skia_next/third_party/skia/src/core/SkGlyph.h:310 | The result is the larger of the width and the height |
| SkGlyph.IsEmpty | third_party/skia_next/third_party/skia/src/core/SkGlyph.h:321-325 | When height 0 implies width 0 (the source's assertion), a glyph of height 0 is empty; an empty glyph's largest dimension is its height |
| SkGlyph.ImageTooLarge | third_party/skia_next/third_party/skia/src/core/SkGlyph.h:326 | A glyph too wide for an image is not empty, and its largest dimension is at least `kMaxGlyphWidth` |
| SkGlyph.SetImageHasBeenCalled | third_party/skia_next/third_party/skia/src/core/SkGlyph.h:271-273 | Empty and too-large glyphs count as having an image; the call reports false exactly when there is no image and the width is strictly between 0 and `kMaxGlyphWidth` |
| SkGlyph.GlyphRectOf | third_party/skia_next/third_party/skia/src/core/SkGlyph.h:313-316 | The glyph's rectangle starts at its left and top and spans its width and height |
| SkGlyph.EmptyGlyphRect | third_party/skia_next/third_party/skia/src/core/SkGlyph.h:313-326 | When height 0 implies width 0, a glyph is empty exactly when its rectangle is; a glyph too large for an image is not empty and needs no image |
| GypPaths.ReplaceMissing | tools/gyp/pylib/gyp/generator/ninja.py:345-349 | `str.replace` leaves a string alone when it lacks the pattern's first character |
| GypPaths.Replace | tools/gyp/pylib/gyp/generator/ninja.py:135 | `str.replace` leaves a string that lacks the pattern unchanged (`ReplaceAtFront` gives the other case, `ReplaceKeepsCharOut` what it can bring in) |
| GypPaths.ReplaceAtFront | tools/gyp/pylib/gyp/generator/ninja.py:345-349 | Replacing in a string that starts with the pattern puts the replacement in front and continues after the pattern |
| GypPaths.ReplaceKeepsCharOut | tools/gyp/pylib/gyp/generator/ninja.py:359-374 | A replacement cannot bring in a character that neither the input nor the inserted text has |
| GypPaths.Repeat | tools/gyp/pylib/gyp/generator/ninja.py:191 | `['..'] * depth` is a list of exactly `depth` copies |
| GypPaths.Split | tools/gyp/pylib/gyp/generator/ninja.py:190 | `split(sep)` always returns at least one part, and no part contains the separator |
| GypPaths.JoinWith | tools/gyp/pylib/gyp/generator/ninja.py:191 | `sep.join(parts)` starts with the first part; `JoinSplit` shows it undoes `split` |
| GypPaths.JoinSplit | tools/gyp/pylib/gyp/generator/ninja.py:190-191 | Joining the parts of `split(sep)` with `sep` gives the string back |
| GypPaths.Segs | tools/gyp/pylib/gyp/generator/ninja.py:190 | The segments of a path are non-empty and slash-free (`SegsOfJoin` shows they are what joining with '/' separates) |
| GypPaths.SegsOfJoin | tools/gyp/pylib/gyp/generator/ninja.py:191 | Joining non-empty slash-free names with '/' and splitting again gives the names back |
| GypPaths.SegsJoin | tools/gyp/pylib/gyp/generator/ninja.py:330-332 | `os.path.join` with a relative second path keeps the segments of both sides, in order |
| GypPaths.Join | tools/gyp/pylib/gyp/generator/ninja.py:330-332 | `os.path.join(a, b)` is `b` when `b` is absolute, and relative when both are (`SegsJoin` gives its segments) |
| GypPaths.JoinAll | tools/gyp/pylib/gyp/generator/ninja.py:449-450 | `os.path.join` of several paths is relative when every path is |
| GypPaths.Normpath | tools/gyp/pylib/gyp/generator/ninja.py:404 | `os.path.normpath` never returns the empty string |
| GypPaths.NormCompsCancel | tools/gyp/pylib/gyp/generator/ninja.py:414 | A run of ".." after plain segments cancels them one by one |
| GypPaths.NormCompsLeadingUp | tools/gyp/pylib/gyp/generator/ninja.py:414 | A leading run of ".." in a relative path is kept |
| GypPaths.NormpathUpThenPlain | tools/gyp/pylib/gyp/generator/ninja.py:414 | `normpath` of leading ".." segments followed by plain segments writes exactly those segments |
| GypPaths.NormpathCancel | tools/gyp/pylib/gyp/generator/ninja.py:414 | `normpath` of plain segments followed by as many ".." and then more plain segments keeps only the last ones |
| GypPaths.RFind | tools/gyp/pylib/gyp/generator/ninja.py:446 | `rfind` returns -1 or the index of the character, and no later position holds it |
| GypPaths.RStrip | tools/gyp/pylib/gyp/generator/ninja.py:446 | `rstrip` returns the longest prefix not ending in the character, and everything it removed is that character |
| GypPaths.PathSplitSegs | tools/gyp/pylib/gyp/generator/ninja.py:446 | The two halves of `os.path.split` carry the path's segments between them, and the second half holds no '/' |
| GypPaths.PathSplit | tools/gyp/pylib/gyp/generator/ninja.py:446 | The tail of `os.path.split` is slash-free and ends the path (`PathSplitSegs` relates the two halves' segments) |
| GypPaths.PathSplitTailNonEmpty | tools/gyp/pylib/gyp/generator/ninja.py:446 | The last component is empty only for an empty path or one ending in '/' |
| GypPaths.Splitext | tools/gyp/pylib/gyp/generator/ninja.py:988 | `os.path.splitext` splits the path into two parts that give it back, and the extension is empty or starts with '.' and holds no '/' |
| GypPaths.StripPrefix | tools/gyp/pylib/gyp/generator/ninja.py:138-141 | When the argument starts with the prefix the result is what follows the prefix, and otherwise the argument itself |
| GypPaths.InvertRelativePath | tools/gyp/pylib/gyp/generator/ninja.py:177-191 | Fails exactly for a non-empty path containing ".."; otherwise the empty path is returned as it is and any other path gives one ".." per '/'-separated part |
| GypPaths.PlainLeaf | tools/gyp/pylib/gyp/generator/ninja.py:446 | A single clean name is its own only segment and splits into an empty head and itself |
| GypPaths.InvertRelativePathRoundTrip | tools/gyp/pylib/gyp/generator/ninja.py:177-191 | For the empty path and every clean path without "..", `normpath(join(path, InvertRelativePath(path)))` is "." |
| NinjaTarget.Or | tools/gyp/pylib/gyp/generator/ninja.py:247-266 | Python's `a or b` is truthy exactly when one of them is, and is `a` when `a` is truthy, else `b` |
| NinjaTarget.Target.FinalOutput | tools/gyp/pylib/gyp/generator/ninja.py:261-266 | The final output is the bundle when there is one, else the binary, else the actions stamp; it is set exactly when one of those is |
| NinjaTarget.Target.Linkable | tools/gyp/pylib/gyp/generator/ninja.py:243-245 | A target can be linked against exactly when it is a static or a shared library |
| NinjaTarget.Target.PreActionInput | tools/gyp/pylib/gyp/generator/ninja.py:247-252 | Dependent actions wait on the final output when there is one, else on the target's pre-action stamp |
| NinjaTarget.Target.PreCompileInput | tools/gyp/pylib/gyp/generator/ninja.py:254-259 | Dependent compiles wait on the actions stamp when there is one, else on the target's pre-compile stamp |
| NinjaTarget.NewTarget | tools/gyp/pylib/gyp/generator/ninja.py:218-241 | A new target has the given type and no final output, pre-action input or pre-compile input |
| NinjaTarget.PreCompileInputAvoidsLink | tools/gyp/pylib/gyp/generator/ninja.py:254-259 | What a dependent compile waits on is always one of the two stamps, never the link or bundle output on its own |
| NinjaTarget.FinalOutputOfBinary | tools/gyp/pylib/gyp/generator/ninja.py:247-266 | With a binary and no bundle the final output, and what dependent actions wait on, is the binary |
| NinjaTarget.PreActionInputIgnoresStampOnceBuilt | tools/gyp/pylib/gyp/generator/ninja.py:247-252 | Once a target has a final output its pre-action stamp no longer matters to dependent actions |
| NinjaToolchain.FirstIndexOf | tools/gyp/pylib/gyp/generator/ninja.py:111-116 | The index is that of the first tool of the class, or the list length when there is none |
| NinjaToolchain.FindFirstInstanceOf | tools/gyp/pylib/gyp/generator/ninja.py:111-116 | Returns nothing exactly when no tool is of the class; otherwise a tool of the class with none before it |
| NinjaToolchain.FindFirstInstanceOfCons | tools/gyp/pylib/gyp/generator/ninja.py:111-116 | A tool of the class in front of the list is the answer; a tool of another class in front changes nothing |
| NinjaToolchain.GetNinjaRuleName | tools/gyp/pylib/gyp/generator/ninja.py:125-128 | Platform-agnostic tools and the target toolset use the bare rule name; other toolsets add `_<toolset>` |
| NinjaToolchain.GetNinjaRuleNameSeparatesToolsets | tools/gyp/pylib/gyp/generator/ninja.py:125-128 | A toolchain-specific tool gets different rule names for different toolsets |
| NinjaToolchain.SelectedFlags | tools/gyp/pylib/gyp/generator/ninja.py:131-134 | On the host toolset the `<keyword>_host` list is taken when present, otherwise the `<keyword>` list, otherwise none |
| NinjaToolchain.EscapeDollarsRoundTrip | tools/gyp/pylib/gyp/generator/ninja.py:135 | Reading `$$` back as `$` undoes the escaping |
| NinjaToolchain.EscapeDollars | tools/gyp/pylib/gyp/generator/ninja.py:135 | The escaped flag has every `$` paired, and reading `$$` back as `$` gives the flag again |
| NinjaToolchain.EscapeDollarsUnique | tools/gyp/pylib/gyp/generator/ninja.py:135 | Two strings without a lone `$` that read back alike are equal, so the escaped flag is the only such string that reads back as the flag |
| NinjaToolchain.GetConfigFlags | tools/gyp/pylib/gyp/generator/ninja.py:131-135 | One flag per selected flag, in order, each the selected flag escaped by `EscapeDollars` (which `EscapeDollarsUnique` shows fixes it): no flag holds a lone `$`, and unescaping gives back exactly the selected flag |
| NinjaToolchain.GetConfigFlagsAbsent | tools/gyp/pylib/gyp/generator/ninja.py:131-135 | A keyword the configuration lacks gives no flags |
| NinjaToolchain.Sanitize | tools/gyp/pylib/gyp/generator/ninja.py:1441 | Keeps the length; word characters stay and every other character becomes '_' |
| NinjaToolchain.SanitizeIdempotent | tools/gyp/pylib/gyp/generator/ninja.py:1441 | Sanitising twice is sanitising once, and a name of word characters is left alone |
| NinjaToolchain.NinjaRuleName | tools/gyp/pylib/gyp/generator/ninja.py:1437-1441 | The rule name is made of word characters, has the length of `<name>[.target].<step>`, and equals it with the dots turned into '_' when the name and step hold only word characters |
| NinjaPaths.DirsBetween | tools/gyp/pylib/gyp/generator/ninja.py:329-332 | The writer's two relative paths exist exactly when neither directory contains ".."; `build_to_base` is the inverse of the build directory followed by the base directory, and `base_to_build` the other way round |
| NinjaPaths.WriterEnv | tools/gyp/pylib/gyp/generator/ninja.py:296-332 | A writer can be made exactly when both directory paths can be inverted, and it then keeps the directories and the case-sensitivity flag it was given |
| NinjaPaths.InvertSegs | tools/gyp/pylib/gyp/generator/ninja.py:177-191 | The inverse of an invertible directory is one ".." per segment of it |
| NinjaPaths.DownAndAcross | tools/gyp/pylib/gyp/generator/ninja.py:177-191 | From a directory, its inverse followed by a path leads to that path |
| NinjaPaths.DirsBetweenRoundTrip | tools/gyp/pylib/gyp/generator/ninja.py:329-332 | From the build directory `build_to_base` leads to the base directory, and from the base directory `base_to_build` leads to the build directory |
| NinjaPaths.CaseCorrection | tools/gyp/pylib/gyp/generator/ninja.py:377-385 | Keeps the length; on a case-sensitive file system the path is unchanged, otherwise it is lower-cased and holds no capital letter |
| NinjaPaths.CaseCorrectionIdempotent | tools/gyp/pylib/gyp/generator/ninja.py:377-385 | Correcting twice is correcting once, and on a case-insensitive file system two spellings of one name give the same path |
| NinjaPaths.ObjDir | tools/gyp/pylib/gyp/generator/ninja.py:442-444 | The object directory is `obj` exactly for the target toolset, and `obj.<toolset>` otherwise |
| NinjaPaths.ExpandSpecial | tools/gyp/pylib/gyp/generator/ninja.py:334-362 | A path without '$' is returned unchanged; each special's replacement is stated by `ExpandSpecialProductDir`, `ExpandSpecialIntermediateDir` and `ExpandSpecialConfigurationName` |
| NinjaPaths.ExpandSpecialProductDir | tools/gyp/pylib/gyp/generator/ninja.py:342-349 | A path below `$!PRODUCT_DIR` becomes the same path below the build directory when no product directory is given, and below the given product directory otherwise |
| NinjaPaths.ExpandSpecialIntermediateDir | tools/gyp/pylib/gyp/generator/ninja.py:351-360 | A leading `$!INTERMEDIATE_DIR` becomes the target's unique output for `gen` joined under the product directory, and the configuration name is then replaced in the result; with no '$' in that directory the result is the directory followed by the rest |
| NinjaPaths.ExpandSpecialConfigurationName | tools/gyp/pylib/gyp/generator/ninja.py:359-360 | A leading `$\|CONFIGURATION_NAME` becomes the configuration name, whatever the product directory |
| NinjaPaths.ExpandRuleVariables | tools/gyp/pylib/gyp/generator/ninja.py:364-375 | A pattern without '$' is returned unchanged, and when neither the pattern nor the five values hold a '$' the result holds none; each variable's replacement is stated by the `ExpandRuleVariables<Variable>` lemmas |
| NinjaPaths.ExpandRuleVariablesRoot | tools/gyp/pylib/gyp/generator/ninja.py:369 | An output pattern `${root}<suffix>` expands to the source's root with that suffix |
| NinjaPaths.ExpandRuleVariablesDirname | tools/gyp/pylib/gyp/generator/ninja.py:370-371 | A leading `${dirname}` becomes the source's directory |
| NinjaPaths.ExpandRuleVariablesSource | tools/gyp/pylib/gyp/generator/ninja.py:372 | A leading `${source}` becomes the source path |
| NinjaPaths.ExpandRuleVariablesExt | tools/gyp/pylib/gyp/generator/ninja.py:373 | A leading `${ext}` becomes the source's extension |
| NinjaPaths.ExpandRuleVariablesName | tools/gyp/pylib/gyp/generator/ninja.py:374 | A leading `${name}` becomes the source's file name |
| NinjaPaths.GypPathToNinja | tools/gyp/pylib/gyp/generator/ninja.py:387-416 | A `$!` path is expanded and normalised without `build_to_base`; any other path fails exactly when a '$' is left once its `$\|` specials are expanded; an absolute path is only case-corrected and a relative one is put behind `build_to_base` and normalised |
| NinjaPaths.GypPathToNinjaProductDir | tools/gyp/pylib/gyp/generator/ninja.py:399-405 | A path below `$!PRODUCT_DIR` becomes the normalised path below the build directory |
| NinjaPaths.GypPathToNinjaAbsolute | tools/gyp/pylib/gyp/generator/ninja.py:411-416 | An absolute path without specials is only case-corrected |
| NinjaPaths.GypPathToNinjaStrayDollar | tools/gyp/pylib/gyp/generator/ninja.py:406-408 | A '$' that does not begin a special fails the assertion |
| NinjaPaths.GypPathToNinjaRelative | tools/gyp/pylib/gyp/generator/ninja.py:413-416 | A relative path without '$' is put behind `build_to_base` and normalised |
| NinjaPaths.BuildToBaseSegs | tools/gyp/pylib/gyp/generator/ninja.py:329-330 | `build_to_base` is one ".." per segment of the build directory followed by the segments of the base directory |
| NinjaPaths.NormpathBehind | tools/gyp/pylib/gyp/generator/ninja.py:414 | Normalising a relative path of plain segments put behind leading ".." and plain segments keeps all of those segments |
| NinjaPaths.BehindSegs | tools/gyp/pylib/gyp/generator/ninja.py:414 | Putting a relative path behind another appends its segments |
| NinjaPaths.BehindBuildToBase | tools/gyp/pylib/gyp/generator/ninja.py:414 | Behind `build_to_base`, a clean relative path becomes one ".." per build-directory segment, then the base directory, then the path |
| NinjaPaths.GypPathToNinjaSegments | tools/gyp/pylib/gyp/generator/ninja.py:387-416 | The Ninja path of a clean relative gyp path is one ".." per build-directory segment, then the base directory, then the path |
| NinjaPaths.NormpathPlain | tools/gyp/pylib/gyp/generator/ninja.py:414 | `normpath` of a relative path of plain segments writes those segments |
| NinjaPaths.BuildSideNormpath | tools/gyp/pylib/gyp/generator/ninja.py:414 | Read from the build directory, one ".." per segment of it followed by plain segments names just those plain segments |
| NinjaPaths.BaseSideNormpath | tools/gyp/pylib/gyp/generator/ninja.py:414 | Read from the base directory, a clean path names the base directory's segments followed by its own |
| NinjaPaths.GypPathToNinjaSameFile | tools/gyp/pylib/gyp/generator/ninja.py:387-416 | For a clean relative gyp path, the Ninja path read from the build directory names the same file as the gyp path read from the base directory |
| NinjaPaths.GypPathToUniqueOutput | tools/gyp/pylib/gyp/generator/ninja.py:418-452 | Fails exactly when the expanded path still starts with '$'; otherwise the expanded path is placed under the target's object directory |
| NinjaPaths.IntermediateDirIsUniqueOutput | tools/gyp/pylib/gyp/generator/ninja.py:351-357 | `$!INTERMEDIATE_DIR` is the target's unique output for `gen` |
| NinjaPaths.ObjDirSegs | tools/gyp/pylib/gyp/generator/ninja.py:442-444 | The object directory of a slash-free toolset name is a single plain segment |
| NinjaPaths.LeafPlain | tools/gyp/pylib/gyp/generator/ninja.py:447-448 | The last component `<name>.<basename>` of a qualified output is a single plain segment |
| NinjaPaths.CleanPathSplit | tools/gyp/pylib/gyp/generator/ninja.py:446 | A clean path splits into a directory and a last component whose segments together are the path's |
| NinjaPaths.JoinFourSegs | tools/gyp/pylib/gyp/generator/ninja.py:449-450 | `os.path.join` of four relative paths is relative and carries the segments of all four, in order |
| NinjaPaths.NormpathJoinFour | tools/gyp/pylib/gyp/generator/ninja.py:449-450 | `normpath` of four joined relative paths of plain segments writes all their segments |
| NinjaPaths.UniqueOutputOfExpandedSegs | tools/gyp/pylib/gyp/generator/ninja.py:442-452 | The unique output of a clean path is the object directory, the base directory, the path's directory and the leaf |
| NinjaPaths.GypPathToUniqueOutputPlain | tools/gyp/pylib/gyp/generator/ninja.py:428-429 | A path without '$' never fails and is placed as it is |
| NinjaPaths.UniqueOutputSegments | tools/gyp/pylib/gyp/generator/ninja.py:431-452 | Target `name` in `<base_dir>` referencing `<dir>/<basename>` gets `obj[.<toolset>]/<base_dir>/<dir>/[<name>.]<basename>` |
| NinjaPaths.UniqueOutputSegsOf | tools/gyp/pylib/gyp/generator/ninja.py:431-452 | The segments of a unique output are the object directory, those of the base directory and of the path's directory, then the leaf |
| NinjaPaths.PrefixLastCancel | tools/gyp/pylib/gyp/generator/ninja.py:431-452 | Equal lists with a common prefix have equal middles and equal last elements |
| NinjaPaths.LeafCancel | tools/gyp/pylib/gyp/generator/ninja.py:447-448 | Equal leaves come from equal basenames |
| NinjaPaths.CleanBySegs | tools/gyp/pylib/gyp/generator/ninja.py:446-450 | A clean path is determined by its segments |
| NinjaPaths.UniqueOutputInjective | tools/gyp/pylib/gyp/generator/ninja.py:418-452 | Within one target, different clean gyp paths get different unique outputs |
| NinjaPaths.UniqueOutputSeparatesTargets | tools/gyp/pylib/gyp/generator/ninja.py:421-423 | Two targets with dot-free names get different qualified outputs for the same gyp path, which is why outputs are qualified |
| NinjaPaths.DottedNamesDiffer | tools/gyp/pylib/gyp/generator/ninja.py:447-448 | Different dot-free names give different `<name>.<basename>` leaves |
| NinjaPaths.OutputPrefix | tools/gyp/pylib/gyp/generator/ninja.py:1317-1325 | An explicit `product_prefix` is used as it is |
| NinjaPaths.OutputExtension | tools/gyp/pylib/gyp/generator/ninja.py:1327-1346 | A set `product_extension` gives `.<extension>`; otherwise the host toolset gets no extension |
| NinjaPaths.OutputStem | tools/gyp/pylib/gyp/generator/ninja.py:1348-1356 | An explicit `product_name` is used; otherwise the target name, with one leading `lib` dropped when the prefix is `lib` |
| NinjaPaths.ComputeOutputFileName | tools/gyp/pylib/gyp/generator/ninja.py:1310-1364 | Fails exactly for a type that is neither a product type nor `none`; a product gets prefix, stem and extension, and a `none` target `<stem>.stamp` |
| NinjaPaths.ComputeOutputFileNameLibNotDoubled | tools/gyp/pylib/gyp/generator/ninja.py:1354-1356 | With the default `lib` prefix, targets `libfoo` and `foo` get the same file name `libfoo...`, not `liblibfoo...` |
| NinjaPaths.ComputeOutput | tools/gyp/pylib/gyp/generator/ninja.py:1366-1406 | A file-name failure is passed on; with `product_dir` the file goes under it; executables, loadable modules and standalone static libraries stay at the top of the build directory; other static libraries go to the object directory |
| NinjaPaths.ComputeOutputSharedLibrary | tools/gyp/pylib/gyp/generator/ninja.py:1400-1404 | A shared library goes to `lib/<file>` for the target toolset and to `lib/<toolset>/<file>` otherwise |
| NinjaPaths.LibraryDirJoin | tools/gyp/pylib/gyp/generator/ninja.py:1401-1404 | Joining the library directory with a relative file name gives `lib/<file>` for the `target` toolset and `lib/<toolset>/<file>` otherwise |
| NinjaPaths.ComputeOutputStaticLibrary | tools/gyp/pylib/gyp/generator/ninja.py:1405-1406 | A static library that is not standalone lands in `obj[.<toolset>]/<base_dir>/<file>` |
| NinjaPaths.StaticLibraryLeaf | tools/gyp/pylib/gyp/generator/ninja.py:1406 | The unqualified unique output of a bare clean file name is `obj[.<toolset>]/<base_dir>/<file>` |
| NinjaPlan.Dedup | tools/gyp/pylib/gyp/generator/ninja.py:1137-1140 | The de-duplicated link dependencies have no repeats and hold exactly the elements of the input |
| NinjaPlan.DedupSnoc | tools/gyp/pylib/gyp/generator/ninja.py:1137-1140 | One more dependency is kept at the end exactly when it has not been seen before |
| NinjaPlan.DedupPrefix | tools/gyp/pylib/gyp/generator/ninja.py:1137-1140 | De-duplication keeps first occurrences in their original order: more input only appends |
| NinjaPlan.DedupOfDistinct | tools/gyp/pylib/gyp/generator/ninja.py:1137-1140 | A list without repeats comes back unchanged |
| NinjaPlan.GypPathsToNinja | tools/gyp/pylib/gyp/generator/ninja.py:714-719 | Converting a list of gyp paths succeeds exactly when every path converts, and then gives each converted path in its place |
| NinjaPlan.ExpandSpecialAll | tools/gyp/pylib/gyp/generator/ninja.py:1070-1073 | Mapping `ExpandSpecial` over flags expands each one in its place with the same product directory |
| NinjaPlan.CollapseCases | tools/gyp/pylib/gyp/generator/ninja.py:454-474 | No target gives no path, one target is returned itself, and two or more get a single `stamp` edge from all targets to the unique stamp output, which is returned |
| NinjaPlan.Collapse | tools/gyp/pylib/gyp/generator/ninja.py:454-474 | Two or more targets without a stamp tool fail; on success a path is returned exactly when there are targets, and one stamp edge is written exactly when there are two or more (`CollapseCases` and `CollapseRepresentsAll` give the edge and the path) |
| NinjaPlan.CollapseRefusesEmpty | tools/gyp/pylib/gyp/generator/ninja.py:462 | An empty path among the targets fails the assertion |
| NinjaPlan.CollapseRepresentsAll | tools/gyp/pylib/gyp/generator/ninja.py:454-474 | The returned path exists exactly when there are targets, is never empty, and every target is that path or an input of the one stamp edge producing it |
| NinjaPlan.UniqueOutputNonEmpty | tools/gyp/pylib/gyp/generator/ninja.py:418-452 | A unique output path is never empty, so a collapsed stamp is a real target |
| NinjaPlan.StepRuleName | tools/gyp/pylib/gyp/generator/ninja.py:1437-1441 | The rule name written for an action or rule is made only of letters, digits and underscores |
| NinjaPlan.ActionStepCases | tools/gyp/pylib/gyp/generator/ninja.py:705-723 | One action fails at the first input or output path that fails to convert; otherwise it writes one rule named from the action and target and one edge from its converted inputs to its converted outputs, waiting on the prebuild stamp, and hands its outputs on as sources when asked |
| NinjaPlan.ActionStepShape | tools/gyp/pylib/gyp/generator/ninja.py:705-723 | An action's rule and edge agree: the edge uses the rule, waits on the prebuild stamp, and its outputs are the paths returned |
| NinjaPlan.ActionStep | tools/gyp/pylib/gyp/generator/ninja.py:705-723 | An action succeeds exactly when its inputs and its outputs all convert to Ninja paths, and then writes one rule and one edge that uses it (`ActionStepCases`, `ActionStepShape`) |
| NinjaPlan.ActionsPlan | tools/gyp/pylib/gyp/generator/ninja.py:695-727 | The actions write one rule and one edge per action (`ActionsPlanEdges` pins action `i` to rule and edge `i`) |
| NinjaPlan.ActionsAdvance | tools/gyp/pylib/gyp/generator/ninja.py:695-727 | The action loop, one action further: a failing action fails the whole step, and a succeeding one is appended to what was written |
| NinjaPlan.ActionsPlanEdges | tools/gyp/pylib/gyp/generator/ninja.py:695-727 | Action `i` gets rule `i` and edge `i`, from its inputs to its outputs as Ninja paths; every edge waits on the prebuild stamp and the returned paths are all edges' outputs in order |
| NinjaPlan.RuleBindings | tools/gyp/pylib/gyp/generator/ninja.py:786-801 | The per-source bindings start with `source`, bound to the source with only the special variables expanded |
| NinjaPlan.Binding | tools/gyp/pylib/gyp/generator/ninja.py:754-759 | A per-source variable is bound, to its value, exactly when some argument of the command mentions `${var}` |
| NinjaPlan.RuleBindingsMentions | tools/gyp/pylib/gyp/generator/ninja.py:754-801 | Each of `root`, `dirname`, `ext` and `name` is bound to its value exactly when the rule's command mentions it |
| NinjaPlan.ExpandRuleVariablesAll | tools/gyp/pylib/gyp/generator/ninja.py:772-779 | The rule's output and input patterns are each expanded in place with the source's root, directory, extension and name |
| NinjaPlan.RuleSourcesAdvance | tools/gyp/pylib/gyp/generator/ninja.py:767-817 | The per-source loop, one source further: a failing source fails the whole rule, a succeeding one is appended to what was written |
| NinjaPlan.RuleSourceStepShape | tools/gyp/pylib/gyp/generator/ninja.py:767-817 | A source's edge uses the rule, takes the source's Ninja path as input, waits on the prebuild stamp, binds `source` first and `unique_name` (the digest of the first output) last |
| NinjaPlan.RuleSourceStep | tools/gyp/pylib/gyp/generator/ninja.py:767-817 | A rule without outputs fails on every source; a source that succeeds writes no rule and one edge using the rule (`RuleSourceStepShape`) |
| NinjaPlan.RuleSourcesPlanEdges | tools/gyp/pylib/gyp/generator/ninja.py:767-817 | Source `i` of a rule gets edge `i` and no further rule is written; all edges wait on the prebuild stamp and the returned paths are their outputs |
| NinjaPlan.RuleSourcesPlan | tools/gyp/pylib/gyp/generator/ninja.py:767-817 | Sources of a rule without outputs fail; on success no rule statement is written and there is one edge per source (`RuleSourcesPlanEdges`) |
| NinjaPlan.RuleStepPlanCases | tools/gyp/pylib/gyp/generator/ninja.py:737-740 | A rule with neither a command nor sources is skipped; one with sources but no command raises `KeyError` |
| NinjaPlan.RuleStepPlan | tools/gyp/pylib/gyp/generator/ninja.py:733-817 | A rule without a command succeeds exactly when it has no sources; on success it writes its rule statement exactly when it has a command, and one edge per source (`RuleStepPlanWrites`) |
| NinjaPlan.RuleStepPlanWrites | tools/gyp/pylib/gyp/generator/ninja.py:733-817 | A rule with a command writes its one rule statement first, named from the rule and the target, then one edge per source, each using that rule |
| NinjaPlan.RuleStepPlanCoherent | tools/gyp/pylib/gyp/generator/ninja.py:733-817 | Every edge of one rule waits on the prebuild stamp, and the paths it returns are the outputs of its edges |
| NinjaPlan.RulesPlanCoherent | tools/gyp/pylib/gyp/generator/ninja.py:729-819 | The same holds for all rules of the target together |
| NinjaPlan.RulesPlan | tools/gyp/pylib/gyp/generator/ninja.py:729-819 | The rules write at most one rule statement each, and succeed only when every rule with sources has a command (`RulesPlanCoherent`) |
| NinjaPlan.CommandsCons | tools/gyp/pylib/gyp/generator/ninja.py:737-740 | A first rule with a command or no sources, followed by such rules, makes a list of such rules |
| NinjaPlan.CopyFileStepShape | tools/gyp/pylib/gyp/generator/ninja.py:821-839 | Without a copy tool the copy fails its assertion; otherwise one file gets one `copy` edge from its normalised Ninja path to one destination, waiting on the prebuild stamp |
| NinjaPlan.CopyFileStep | tools/gyp/pylib/gyp/generator/ninja.py:821-839 | Without a copy tool a file fails; a copied file writes no rule and no extra source, and one `copy` edge (`CopyFileStepShape`) |
| NinjaPlan.CopyFilesPlanEdges | tools/gyp/pylib/gyp/generator/ninja.py:841-876 | File `i` of a copy gets `copy` edge `i`; a copy of any file without the copy tool fails |
| NinjaPlan.CopyFilesPlan | tools/gyp/pylib/gyp/generator/ninja.py:843-874 | Files to copy without a copy tool fail; on success no rule or extra source is written and there is one edge per file (`CopyFilesPlanEdges`) |
| NinjaPlan.CopyFilesAdvance | tools/gyp/pylib/gyp/generator/ninja.py:843-874 | The copy loop, one file further: a failing file fails the copy, and a succeeding one is appended to what was written |
| NinjaPlan.CopyFilesCons | tools/gyp/pylib/gyp/generator/ninja.py:843-874 | One file's `copy` edge followed by the edges of the rest gives file `i` edge `i`, all waiting on the prebuild stamp |
| NinjaPlan.CopiesPlanCoherent | tools/gyp/pylib/gyp/generator/ninja.py:841-876 | Every copy edge waits on the prebuild stamp and the returned paths are the outputs of the copy edges |
| NinjaPlan.CopiesPlan | tools/gyp/pylib/gyp/generator/ninja.py:841-876 | Copies write no rule statement and no extra source (`CopiesPlanCoherent` gives their edges) |
| NinjaPlan.ActionsRulesCopiesStamp | tools/gyp/pylib/gyp/generator/ninja.py:645-672 | All action, rule and copy edges wait on the prebuild stamp; the returned stamp exists exactly when those steps have an output, is never empty, and stands for each of their outputs |
| NinjaPlan.ActionsRulesCopiesPlan | tools/gyp/pylib/gyp/generator/ninja.py:645-672 | On success the steps written are `StepsPlan`'s, a stamp is returned exactly when the steps have outputs, and at most one stamp edge is written (`ActionsRulesCopiesStamp`) |
| NinjaPlan.StepsPlan | tools/gyp/pylib/gyp/generator/ninja.py:652-662 | Actions, rules and copies succeed together exactly when each of the three succeeds, and there are at least as many rules and edges as actions |
| NinjaSpecPlan.CompilerRole | tools/gyp/pylib/gyp/generator/ninja.py:988-1010 | `.c` picks the C compiler, `.cc`/`.cpp`/`.cxx` the C++ compiler, `.mm` the Objective-C++ compiler, `.S`/`.s` the assembler, each exactly for those extensions; any other extension picks none |
| NinjaSpecPlan.CompiledSources | tools/gyp/pylib/gyp/generator/ninja.py:984-1023 | The sources that get a compile edge are sources that have a compiler, in order |
| NinjaSpecPlan.CompileStepDispatch | tools/gyp/pylib/gyp/generator/ninja.py:988-1010 | A source with another extension writes nothing; a source whose compiler class the toolchain lacks fails the assertion |
| NinjaSpecPlan.CompileRuleNameCompiles | tools/gyp/pylib/gyp/generator/ninja.py:988-1012 | The rule name is set, and non-empty, exactly for a compiled source, where it is the compiler's rule name for the toolset; the lookup fails exactly when the source's compiler class has no tool |
| NinjaSpecPlan.CompileRuleName | tools/gyp/pylib/gyp/generator/ninja.py:988-1012 | Another extension gets the empty rule name; the lookup fails exactly when the extension's compiler class has no tool; the name is non-empty exactly for a compiled source (`CompileRuleNameCompiles` gives the name) |
| NinjaSpecPlan.CompileEdgeShape | tools/gyp/pylib/gyp/generator/ninja.py:1012-1021 | A compiled source gets one edge from its Ninja path to `<unique output>.o`, waiting on `predepends`, and returns that output |
| NinjaSpecPlan.CompileEdge | tools/gyp/pylib/gyp/generator/ninja.py:1012-1021 | The edge is written exactly when the source converts to a Ninja path and to a unique output; it is one edge with the given rule and the source's Ninja path as input, and its outputs are returned |
| NinjaSpecPlan.CompiledEdgeDescribed | tools/gyp/pylib/gyp/generator/ninja.py:984-1021 | The step of a compiled source writes exactly the edge with its compiler's rule, its path as input and its object file as output |
| NinjaSpecPlan.CompileStepShape | tools/gyp/pylib/gyp/generator/ninja.py:984-1021 | A compiled source gets exactly that one edge; a source that does not compile gets none |
| NinjaSpecPlan.CompileStep | tools/gyp/pylib/gyp/generator/ninja.py:984-1021 | A successful step writes no rule and one edge exactly when the source compiles (`CompileStepShape`) |
| NinjaSpecPlan.CompileStepSkipped | tools/gyp/pylib/gyp/generator/ninja.py:1010-1012 | A source without a rule, that does not fail, writes nothing |
| NinjaSpecPlan.CompilePlanCoherent | tools/gyp/pylib/gyp/generator/ninja.py:983-1025 | Every compile edge waits on `predepends`, the returned outputs are the edges' outputs, and no rule is written |
| NinjaSpecPlan.CompilePlanEdges | tools/gyp/pylib/gyp/generator/ninja.py:983-1025 | The compile edges are, in order, exactly the edges of the compiled sources |
| NinjaSpecPlan.CompilePlan | tools/gyp/pylib/gyp/generator/ninja.py:983-1025 | The compiles write no rule and one edge per compiled source (`CompilePlanEdges` pins each edge to its source) |
| NinjaSpecPlan.EdgesOfSourcesAt | tools/gyp/pylib/gyp/generator/ninja.py:983-1025 | Edges that match the compiled sources position by position are as many as the sources, and edge `k` is the compile edge of source `k` |
| NinjaSpecPlan.SourcesPlan | tools/gyp/pylib/gyp/generator/ninja.py:930-933 | A bad include directory fails `WriteSources`; otherwise it is the compile plan of the sources |
| NinjaSpecPlan.IncludeDirs | tools/gyp/pylib/gyp/generator/ninja.py:931-933 | `config.get('include_dirs', [])`: the listed directories, or none when the key is absent |
| NinjaSpecPlan.ObjectFiles | tools/gyp/pylib/gyp/generator/ninja.py:575-577 | The sources kept as link inputs are exactly those ending in `.o` |
| NinjaSpecPlan.PreActionInputs | tools/gyp/pylib/gyp/generator/ninja.py:518-526 | The collected action prerequisites are non-empty paths, exactly the pre-action inputs of the written dependencies |
| NinjaSpecPlan.PreCompileInputs | tools/gyp/pylib/gyp/generator/ninja.py:518-526 | The collected compile prerequisites are non-empty paths, exactly the pre-compile inputs of the written dependencies |
| NinjaSpecPlan.PreActionInputsSnoc | tools/gyp/pylib/gyp/generator/ninja.py:519-523 | One more dependency adds its pre-action input when it was written and has one |
| NinjaSpecPlan.PreCompileInputsSnoc | tools/gyp/pylib/gyp/generator/ninja.py:519-523 | One more dependency adds its pre-compile input when it was written and has one |
| NinjaSpecPlan.LinkInputsOf | tools/gyp/pylib/gyp/generator/ninja.py:1122-1132 | The collected library binaries are exactly the binaries of the linkable written dependencies |
| NinjaSpecPlan.OrderOnlyOf | tools/gyp/pylib/gyp/generator/ninja.py:1114-1135 | The collected order-only inputs are exactly the final outputs of the written dependencies that are not linked, or whose final output is not their binary |
| NinjaSpecPlan.LinkInputsOfSnoc | tools/gyp/pylib/gyp/generator/ninja.py:1126-1131 | One more dependency appends its binary exactly when it is a written, linkable target |
| NinjaSpecPlan.OrderOnlyOfSnoc | tools/gyp/pylib/gyp/generator/ninja.py:1126-1135 | One more dependency appends its final output exactly when it is written and either not linkable or not finished by its binary |
| NinjaSpecPlan.DependencyPartition | tools/gyp/pylib/gyp/generator/ninja.py:1116-1141 | Every written dependency reaches the link: a library through its binary on the link line, anything else through its final output as an order-only input; unwritten dependencies add nothing |
| NinjaSpecPlan.LinkerFor | tools/gyp/pylib/gyp/generator/ninja.py:1047-1112 | An executable needs the executable linker and a shared library the shared library linker, failing the assertion without one; any other type is not supported |
| NinjaSpecPlan.LinkBindings | tools/gyp/pylib/gyp/generator/ninja.py:1104-1108 | Only a shared library gets extra bindings; for one they exist exactly when its output can be computed, and start with `soname` and then `dll` bound to the output, followed by the import-library binding of `ImplibBinding` |
| NinjaSpecPlan.ImplibBinding | tools/gyp/pylib/gyp/generator/ninja.py:1107-1108 | `implibflag` is bound to `/IMPLIB:<output>.lib` exactly when the linker flags lack `/NOENTRY` |
| NinjaSpecPlan.TailDeps | tools/gyp/pylib/gyp/generator/ninja.py:1144-1146 | One tail dependency per `TailDependencies` flag of the configuration, each with its special variables expanded |
| NinjaSpecPlan.LinkPlan | tools/gyp/pylib/gyp/generator/ninja.py:1026-1156 | The link edge has one output |
| NinjaSpecPlan.LinkPlanEdge | tools/gyp/pylib/gyp/generator/ninja.py:1026-1156 | The link edge goes to the target's output with the linker's rule; its inputs are the given link dependencies, each library binary once in dependency order, then the tail dependencies; it waits, without repeats, on exactly the other final outputs; a shared library binds `soname`, `dll` and, unless the linker's flags contain `/NOENTRY`, `implibflag` |
| NinjaSpecPlan.LinkPlanUnfold | tools/gyp/pylib/gyp/generator/ninja.py:1026-1156 | A written link edge, field by field, from the linker, the bindings and the computed output |
| NinjaSpecPlan.StaticLinkerFor | tools/gyp/pylib/gyp/generator/ninja.py:1181-1189 | A non-standalone library prefers the thin archiver; a standalone one uses the static linker; there is no archiver only when neither applicable tool exists |
| NinjaSpecPlan.ArchivePlan | tools/gyp/pylib/gyp/generator/ninja.py:1163-1202 | Without an archiver the assertion fails; otherwise the binary is the computed output and one edge archives exactly the link dependencies into it, with the compile stamp order-only |
| NinjaSpecPlan.TargetStepCases | tools/gyp/pylib/gyp/generator/ninja.py:1158-1205 | A `none` target's binary is `compile_deps` and nothing is written; other targets write one edge whose only output is the computed binary; a static library archives the link dependencies with its archiver's rule after `compile_deps`, and fails without an archiver |
| NinjaSpecPlan.TargetStep | tools/gyp/pylib/gyp/generator/ninja.py:1158-1205 | A `none` target takes `compile_deps` as its binary and writes nothing; any other target writes one edge with one output, which becomes its binary |
| NinjaSpecPlan.SpecEnv | tools/gyp/pylib/gyp/generator/ninja.py:484-486 | `WriteSpec` sets the configuration, target name and toolset, and keeps every other path field |
| NinjaSpecPlan.SpecPlanMissingConfig | tools/gyp/pylib/gyp/generator/ninja.py:487 | A configuration the target lacks raises `KeyError` |
| NinjaSpecPlan.SpecPlan | tools/gyp/pylib/gyp/generator/ninja.py:476-603 | A configuration the target lacks raises `KeyError`; a returned target has the spec's type and a binary, so the closing assertion holds (`SpecPlanReady`) |
| NinjaSpecPlan.SpecBody | tools/gyp/pylib/gyp/generator/ninja.py:488-603 | Once the configuration is found, a returned target has the spec's type and a binary |
| NinjaSpecPlan.DependsPlan | tools/gyp/pylib/gyp/generator/ninja.py:518-531 | `actions_depends` is set exactly when some written dependency has a pre-action input, `compile_depends` exactly when one has a pre-compile input, and at most two stamp edges are written |
| NinjaSpecPlan.FrontPlan | tools/gyp/pylib/gyp/generator/ninja.py:516-539 | The same for the prerequisites, with at most one stamp edge for the actions, rules and copies |
| NinjaSpecPlan.SpecPlanReady | tools/gyp/pylib/gyp/generator/ninja.py:518-603 | A returned target is ready for its dependents, of the spec's type, its final output is its binary (the closing assertion holds), and it carries its prerequisite stamps and the actions/rules/copies stamp |
| NinjaSpecPlan.SpecPlanNothing | tools/gyp/pylib/gyp/generator/ninja.py:589-600 | A target with nothing to build and nothing to wait for writes nothing and returns None |
| NinjaSpecPlan.CompilePhaseUnfold | tools/gyp/pylib/gyp/generator/ninja.py:549-577 | The link dependencies of a target with sources are its compile outputs followed by its object-file sources as Ninja paths |
| NinjaSpecPlan.CompilePhaseEdges | tools/gyp/pylib/gyp/generator/ninja.py:545-577 | The compiles wait on the compile stamp, are exactly the edges of the compiled sources, and the link dependencies are their outputs followed by the object-file sources |
| NinjaSpecPlan.CompilePhase | tools/gyp/pylib/gyp/generator/ninja.py:547-581 | Without sources nothing is written and there are no link dependencies; an include directory that fails to convert fails the phase; otherwise there is one compile edge per compiled source |
| NinjaSpecPlan.BuildPhase | tools/gyp/pylib/gyp/generator/ninja.py:545-600 | A returned target is the one being written with only its binary set, and that binary is a real path |
| NinjaWriterClass.NinjaWriter.constructor | tools/gyp/pylib/gyp/generator/ninja.py:296-332 | A new writer keeps its target, the written targets, its directories, toolchains and digest, derives the build-to-base and base-to-build paths, and has written nothing |
| NinjaWriterClass.NinjaWriter.WriteCollapsedDependencies | tools/gyp/pylib/gyp/generator/ninja.py:454-474 | Returns the collapsed path and appends exactly the stamp edge of `Collapse`, whose properties `NinjaPlan.CollapseRepresentsAll` proves; on a failed assertion nothing is written |
| NinjaWriterClass.NinjaWriter.WriteStamp | tools/gyp/pylib/gyp/generator/ninja.py:467-474 | With two or more targets and a stamp tool, writes the one `stamp` edge and returns its output |
| NinjaWriterClass.NinjaWriter.WriteAction | tools/gyp/pylib/gyp/generator/ninja.py:705-725 | One action appends exactly its rule and edge, returns its outputs and the outputs it adds to the sources |
| NinjaWriterClass.NinjaWriter.WriteActions | tools/gyp/pylib/gyp/generator/ninja.py:695-727 | The loop over the actions appends exactly the rules and edges of `ActionsPlan` (one per action, see `NinjaPlan.ActionsPlanEdges`), extends the extra sources, and returns all outputs; it stops at the first failure |
| NinjaWriterClass.NinjaWriter.WriteRuleEdge | tools/gyp/pylib/gyp/generator/ninja.py:768-815 | One rule source appends exactly its edge, with the per-source bindings, and returns its outputs |
| NinjaWriterClass.NinjaWriter.WriteRuleEdges | tools/gyp/pylib/gyp/generator/ninja.py:767-815 | The loop over a rule's sources appends exactly the edges of `RuleSourcesPlan`, one per source |
| NinjaWriterClass.NinjaWriter.WriteRule | tools/gyp/pylib/gyp/generator/ninja.py:733-817 | One rule is skipped, fails with `KeyError`, or appends its rule statement and its edges |
| NinjaWriterClass.NinjaWriter.WriteRuleCommand | tools/gyp/pylib/gyp/generator/ninja.py:740-817 | A rule with a command appends its rule statement, then its per-source edges |
| NinjaWriterClass.NinjaWriter.WriteRules | tools/gyp/pylib/gyp/generator/ninja.py:729-819 | The loop over the rules appends exactly the rules and edges of `RulesPlan` and extends the extra sources |
| NinjaWriterClass.NinjaWriter.WriteCopy | tools/gyp/pylib/gyp/generator/ninja.py:821-839 | One file appends exactly its `copy` edge to the normalised destination, or fails the copy-tool assertion |
| NinjaWriterClass.NinjaWriter.WriteCopyFiles | tools/gyp/pylib/gyp/generator/ninja.py:843-874 | The files of one copy append exactly their `copy` edges, in order |
| NinjaWriterClass.NinjaWriter.WriteCopies | tools/gyp/pylib/gyp/generator/ninja.py:841-876 | All copies append exactly the edges of `CopiesPlan` and return their outputs |
| NinjaWriterClass.NinjaWriter.WriteActionsRulesCopies | tools/gyp/pylib/gyp/generator/ninja.py:645-672 | Appends the actions', rules' and copies' rules and edges, then the stamp edge, and returns the stamp that `NinjaPlan.ActionsRulesCopiesStamp` characterises |
| NinjaWriterClass.NinjaWriter.WriteSteps | tools/gyp/pylib/gyp/generator/ninja.py:652-662 | Actions, then rules, then copies, their outputs concatenated in that order |
| NinjaWriterClass.NinjaWriter.CollectLinkDeps | tools/gyp/pylib/gyp/generator/ninja.py:1116-1141 | The dependency loop of `WriteLink` collects exactly the library binaries and the de-duplicated order-only final outputs |
| NinjaWriterClass.NinjaWriter.WriteCompile | tools/gyp/pylib/gyp/generator/ninja.py:987-1021 | One source appends exactly its compile edge, if any, and returns its object file |
| NinjaWriterClass.NinjaWriter.WriteSources | tools/gyp/pylib/gyp/generator/ninja.py:918-1024 | Appends exactly the compile edges of `SourcesPlan` and returns their outputs |
| NinjaWriterClass.NinjaWriter.LinkRule | tools/gyp/pylib/gyp/generator/ninja.py:1047-1112 | The linker's rule name and the shared library's bindings, or the failed assertion or unsupported type |
| NinjaWriterClass.NinjaWriter.WriteLink | tools/gyp/pylib/gyp/generator/ninja.py:1026-1156 | Appends exactly the link edge of `LinkPlan`, sets the target's binary to its output and returns it |
| NinjaWriterClass.NinjaWriter.WriteArchive | tools/gyp/pylib/gyp/generator/ninja.py:1162-1203 | A static library sets its binary to the computed output and appends its archive edge |
| NinjaWriterClass.NinjaWriter.WriteTarget | tools/gyp/pylib/gyp/generator/ninja.py:1158-1205 | Sets the binary and appends exactly the edges of `TargetStep` for the target's type, and returns the binary |
| NinjaWriterClass.NinjaWriter.CollectPrerequisites | tools/gyp/pylib/gyp/generator/ninja.py:518-525 | The dependency loop of `WriteSpec` collects exactly the non-empty pre-action and pre-compile inputs of the written dependencies |
| NinjaWriterClass.NinjaWriter.WriteDepends | tools/gyp/pylib/gyp/generator/ninja.py:516-531 | Collapses the prerequisites into `actions_depends` and `compile_depends`, appending exactly their stamp edges |
| NinjaWriterClass.NinjaWriter.WriteFront | tools/gyp/pylib/gyp/generator/ninja.py:516-539 | The prerequisites, then the actions, rules and copies: appends their rules and edges in that order and returns both prerequisite paths and the step stamp |
| NinjaWriterClass.NinjaWriter.WriteCompilePhase | tools/gyp/pylib/gyp/generator/ninja.py:547-577 | Without sources nothing is written; otherwise the compile edges are appended and the link dependencies are the objects plus the object-file sources |
| NinjaWriterClass.NinjaWriter.WriteSpec | tools/gyp/pylib/gyp/generator/ninja.py:476-603 | Sets the configuration, name and toolset, appends exactly the rules and edges of `SpecPlan` (see `NinjaSpecPlan.SpecPlanReady`) and returns its target, or the `KeyError` of a missing configuration |
| NinjaWriterClass.NinjaWriter.WriteSpecBody | tools/gyp/pylib/gyp/generator/ninja.py:488-603 | The body of `WriteSpec` once the configuration is found: writes `SpecBody` and sets the target it returns |
| NinjaWriterClass.NinjaWriter.WriteBuildPhase | tools/gyp/pylib/gyp/generator/ninja.py:545-600 | Appends exactly the compile and link edges of `BuildPhase`, in which compiles wait on the step stamp or else the compile prerequisites and the link step is written only when there is something to link or wait for; sets the target it returns |
| NinjaWriterClass.Uniquer | tools/gyp/pylib/gyp/generator/ninja.py:1137-1140 | The `seen`-set comprehension computes exactly `Dedup`: first occurrences, in order, no repeats |
| NinjaGenerate.ShortNameSeparatesToolsets | tools/gyp/pylib/gyp/generator/ninja.py:1752-1754 | Appending `.<toolset>` outside the `target` toolset keeps one name's targets of different toolsets under different short names |
| NinjaGenerate.ObjDirOf | tools/gyp/pylib/gyp/generator/ninja.py:1732-1734 | The object directory is a relative path starting with `obj`, and is exactly `obj` for the `target` toolset (`ObjDirSeparatesToolsets` keeps toolsets apart) |
| NinjaGenerate.ObjDirSeparatesToolsets | tools/gyp/pylib/gyp/generator/ninja.py:1732-1734 | Two toolsets get two different object directories |
| NinjaGenerate.BasePath | tools/gyp/pylib/gyp/generator/ninja.py:1731 | `os.path.dirname` of the .gyp file carries its segments but the last, and is relative when the file is |
| NinjaGenerate.NinjaFileName | tools/gyp/pylib/gyp/generator/ninja.py:1735 | The target's file is the relative path whose segments are the object directory's, then the .gyp directory's, then `<name>.ninja` |
| NinjaGenerate.ShortName | tools/gyp/pylib/gyp/generator/ninja.py:1752-1754 | The short name is the target's name for the `target` toolset, and `<name>.<toolset>` otherwise (`ShortNameSeparatesToolsets`) |
| NinjaGenerate.ShortListedMembers | tools/gyp/pylib/gyp/generator/ninja.py:1750-1754 | A target is in the list of short name `k` exactly when some entry with that short name returned it with an output other than its own name, and the list is empty exactly when there is no such entry |
| NinjaGenerate.ShortNamesKept | tools/gyp/pylib/gyp/generator/ninja.py:1750-1754 | Recording one target appends it to its short name's list when its output differs from its name, and leaves every other list alone |
| NinjaGenerate.DefaultProjectStep | tools/gyp/pylib/gyp/generator/ninja.py:1718-1724 | A target not asking to be the default project changes nothing; the first one sets it, the same name again keeps it, and a different name is an error |
| NinjaGenerate.GenerateStep | tools/gyp/pylib/gyp/generator/ninja.py:1707-1758 | One pass of the target loop fails the assertion when the target's `make_global_settings` differ from the first target's, and keeps every recorded target ready for its dependents |
| NinjaGenerate.SpecPlanHasOutput | tools/gyp/pylib/gyp/generator/ninja.py:1749-1756 | A target that `WriteSpec` returns is ready to be recorded in `target_outputs` |
| NinjaGenerate.Apply | tools/gyp/pylib/gyp/generator/ninja.py:1747-1758 | Recording a returned target keeps every recorded target ready (its effect on the short-name lists is `ShortNamesKept`) |
| NinjaGenerate.GenerateFrom | tools/gyp/pylib/gyp/generator/ninja.py:1707-1758 | The rest of the loop keeps every recorded target ready (`GenerateFromSettings` states what its success requires) |
| NinjaGenerate.GenerateFromSettings | tools/gyp/pylib/gyp/generator/ninja.py:1712-1714 | The rest of the loop succeeds only when every remaining target has the reference `make_global_settings` |
| NinjaGenerate.GeneratePlan | tools/gyp/pylib/gyp/generator/ninja.py:1631-1632 | An empty target list raises `IndexError`, as `target_list[0]` does; a successful run has every target sharing the first target's `make_global_settings` (its loop invariant is `GeneratePlanConsistent`, its phony edges `GeneratePlanShortNames`) |
| NinjaGenerate.GeneratePlanShortNames | tools/gyp/pylib/gyp/generator/ninja.py:1750-1769 | After the loop a phony edge named `k` exists exactly when some entry with short name `k` returned a target whose output differs from its name, and it builds the final outputs of those targets, in the order they were written |
| NinjaGenerate.ShortNameEdges | tools/gyp/pylib/gyp/generator/ninja.py:1766-1769 | There is one phony edge per short name, and short name `k`'s edge has one input per target listed under `k`: that target's final output, in list order (`GeneratePlanShortNames` relates the lists to the targets written) |
| NinjaGenerate.FinalOutputs | tools/gyp/pylib/gyp/generator/ninja.py:1769 | The list comprehension has one entry per target, its final output, in order |
| NinjaGenerate.AllEdge | tools/gyp/pylib/gyp/generator/ninja.py:1771-1773 | The `all` phony edge exists exactly when some command-line target has an output, and builds exactly those outputs |
| NinjaGenerate.DefaultTarget | tools/gyp/pylib/gyp/generator/ninja.py:1771-1777 | A default is written exactly when `all` exists: the default project if one was named, else `all` |
| NinjaGenerate.InitialConsistent | tools/gyp/pylib/gyp/generator/ninja.py:1694-1706 | The empty collections before the loop describe no targets |
| NinjaGenerate.DefaultKept | tools/gyp/pylib/gyp/generator/ninja.py:1718-1724 | After the check, the default project is set exactly when some target so far asked for it, and every such target has its name |
| NinjaGenerate.OutputsKept | tools/gyp/pylib/gyp/generator/ninja.py:1750-1758 | After one more target, `target_outputs` names exactly the targets that returned a record, and `all_outputs` is exactly the final outputs of those among the command line's targets |
| NinjaGenerate.AllOutputsKept | tools/gyp/pylib/gyp/generator/ninja.py:1757-1758 | After one more target, `all_outputs` is exactly the final outputs of the targets returned for the command line's targets |
| NinjaGenerate.FilesKept | tools/gyp/pylib/gyp/generator/ninja.py:1731-1747 | Each target's file is written, in order, at `obj[.<toolset>]/<gyp directory>/<name>.ninja` |
| NinjaGenerate.ApplyConsistent | tools/gyp/pylib/gyp/generator/ninja.py:1747-1758 | Recording one target keeps the loop invariant: files, outputs, `all` outputs, default project and short-name lists |
| NinjaGenerate.StepIsApply | tools/gyp/pylib/gyp/generator/ninja.py:1707-1758 | A successful pass passed the default-project check and records what `WriteSpec` returned |
| NinjaGenerate.StepConsistent | tools/gyp/pylib/gyp/generator/ninja.py:1707-1758 | One pass of the loop keeps the loop invariant |
| NinjaGenerate.GenerateFromConsistent | tools/gyp/pylib/gyp/generator/ninja.py:1707-1758 | The rest of the loop keeps the loop invariant to the end of the target list |
| NinjaGenerate.GeneratePlanConsistent | tools/gyp/pylib/gyp/generator/ninja.py:1694-1758 | After the loop there is one file per target at its path, `target_outputs` names exactly the targets with a record, `all_outputs` is exactly their final outputs among the command line's targets, the default project is the agreed name of the targets asking for it, and each short name lists exactly its targets in write order |
| NinjaGenerate.TwoDefaultProjectsFail | tools/gyp/pylib/gyp/generator/ninja.py:1718-1724 | Two targets asking to be the default project under different names make generation fail |
| NinjaGenerate.GeneratePlanDefault | tools/gyp/pylib/gyp/generator/ninja.py:1718-1724 | After a successful loop the default project is set exactly when some target asked for it, and then it is that target's name |
| NinjaGenerate.GenerateOutputForConfig | tools/gyp/pylib/gyp/generator/ninja.py:1613-1779 | The loop over the target list computes exactly `GeneratePlan`, whose invariant `GeneratePlanConsistent` states |
| NinjaGenerate.GenerateTarget | tools/gyp/pylib/gyp/generator/ninja.py:1708-1758 | One pass of the loop computes exactly `GenerateStep` |
| NinjaGenerate.GenerateStepOk | tools/gyp/pylib/gyp/generator/ninja.py:1712-1758 | When the settings check, the default-project check, the directory and `WriteSpec` all succeed, the pass records the writer's result |
| NinjaGenerate.CheckDefaultProject | tools/gyp/pylib/gyp/generator/ninja.py:1718-1724 | Computes exactly the default-project check |
| NinjaGenerate.RunWriter | tools/gyp/pylib/gyp/generator/ninja.py:1737-1749 | Making the writer with the targets written so far and running `WriteSpec` gives exactly `SpecPlan`'s result |
| NinjaGenerate.RecordTarget | tools/gyp/pylib/gyp/generator/ninja.py:1750-1758 | Recording a result updates the collections exactly as `Apply` does |

## Left out

- Ninja generator: only the non-Windows, non-Mac flavours, generated on a non-Windows host, are modelled. Visual Studio macro expansion, Xcode environment expansion on the Mac flavour, Mac bundles (`WriteMacBundle*`, `WriteMacInfoPlist`), the `WinIdl` rule, postbuilds, response files and `component_objs` are out, because they depend on platform emulation modules that are not part of this model.
- Ninja generator: the Ninja text itself is not produced. The model keeps the build edges (outputs, rule, inputs, implicit inputs, order-only inputs, bindings); `variable` and `newline` statements (flags, `pdbname`, `arch`, `python2`), shell quoting and the command and description text of `rule` statements are out.
- Ninja generator: the toolchain's `GetFlags` and `GetShell` call into platform configuration that is not part of this model. Which tools exist is a parameter, and whether a linker's flags contain `/NOENTRY` is a field of the tool rather than computed from its `ldflags`.
- Ninja generator: edge descriptions and the cygwin path munging of action commands are out; they only change text.
- Ninja generator: `WriteCopies` expands directories with `os.walk` and `os.path.isdir` at generation time; the model treats every copy source as a file, since the file system is not modelled.
- Ninja generator: `hashlib.md5`, used to name rule-generated rules, is the parameter `digest`.
- Ninja generator: `needed_variables` and the rule bindings follow the fixed order of the special locals (`source`, `root`, `dirname`, `ext`, `name`); `order_only_deps` is kept in first-insertion order, though Python leaves the iteration order of that set unspecified; `all_outputs` is a Dafny set, so its order is not modelled; `target_short_names` is a map, so the order in which its phony edges are written is not modelled.
- Ninja generator: `VerifyMissingSources` and precompiled headers are out, because they inspect the file system and compiler settings.
- Ninja generator: `OpenOutput` and `subninja` are recorded only as the paths of the files a target would write.
- Ninja generator: `multiprocessing`, signal handling and `PerformBuild` are out (concurrency and subprocesses).
- NinjaPaths.OutputExtension: the generator is assumed to run on a non-Windows host. The source gives every host-toolset product without `product_extension`, libraries included, the extension `.exe` when `platform.system()` is Windows (ninja.py:78, 1341-1342), whatever the gyp flavour; the model gives it no extension, and so does `ComputeOutputFileName`.
- NinjaPaths.GypPathToNinja: the `env` argument is not modelled. On a non-Mac flavour with a toolchain, the source first expands environment variable references through the toolchain's `ExpandEnvVars` (ninja.py:397-398), which is a foreign call into platform configuration that is not part of this model; the model treats it as the identity, so a path holding a `${VAR}` reference fails the '$' assertion in the model where the source would expand it first. This applies to the action, rule and copy paths written with the `GetSortedXcodeEnv` environment.
- GypPaths.InvertRelativePath: the docstring says that joining with the input and normalising gives the empty path, but `os.path.normpath` returns `.` for that, and the model follows the code.
- ReuseAllocator.ReuseAllocatorBase.AllocateBestBlock: requires a found block whose first aligned address lies strictly before its end, where the `DCHECK` at line 280 allows equality, because a user address at the end of the block could be the key of the next allocation; with a zero hint it requires the fallback to refuse the top-up request, whose size `0 - size` wraps to almost 2^64 in `size_t`.
- Reuse allocator: `FindFreeBlock` and `FindBestFreeBlock` are declared by subclasses not part of this model, and the fallback allocator is external; their replies are parameters of the methods, assumed to be fresh blocks that fit the request.
- Reuse allocator: `size_t` wrap-around, `PrintAllocations`, the destructor and the `DCHECK` assertions are out; addresses and sizes are unbounded integers.
- Reuse allocator: the size update that `AllocateForAlignment` performs through its out-parameter is folded into the size of the block it returns.
- Skia glyphs: floating point is out (`PackIDSkPoint`, `kSubpixelRound`, float advances).
- Skia glyphs: `hash` (its mixing function is not part of this model) and `dump` are out.
- Skia glyphs: the image, path and intercept methods of `SkGlyph` are out; their bodies are not part of this model.
- PMT parser: where the bit reader's cursor ends after a failed read is not modelled, because the parse is abandoned at that point.
- PMT parser: the CRC value is read but never checked, so the model keeps only whether the read succeeded; the `int` cast of the CRC is not modelled.
- PMT parser: the bit reader is modelled only through `ReadBits` and `SkipBits` over a bit sequence with a cursor; its body is not part of this model.
- Hex helpers: the text of `ADD_FAILURE` messages is out; each failure is a value naming its kind and position.
- Hex helpers: the "Memory fail" branch after a failed allocation is out, since Dafny allocation does not fail.
- CryptographyHelpers.DecodeHex: the bytes of the output buffer at invalid pairs are left unspecified, as the source leaves them uninitialised.
- Hex helpers: the `int` cast of `len / 2` is not modelled; C strings are modelled by the characters before their terminator.
- Atexit: only the Starboard build is modelled, in which `__cxa_finalize` calls `__funcs_on_exit`; in other builds its body is empty.
- Atexit: the `LOCK`/`UNLOCK` mutex is out (concurrency), and so is a handler that registers further handlers while the handlers run.
- Atexit: chunks are values in a sequence, so the leak of heap chunks is not modelled; whether `calloc` succeeds is a boolean parameter.
- TimestampUnroller: the implementation file is not part of this model, so the algorithm follows the header comment; which candidate is chosen at a tie of exactly half a period is not stated by the header and the model picks the lower one.
- TimestampUnroller: timestamps are unbounded integers, so `int64_t` overflow is not modelled.
- BuildDefaults: only ASCII letters are lower-cased; each failed check returns its first `logging.warning` (the one naming the key and the raw value) in a list of warnings, and the second one, which lists the valid configurations or platforms (build.py:54 and 64), is dropped; the sets of valid configurations and platforms are parameters, since `config.IsValid` and `platform.IsValid` are not part of this model; only `GetDefaultConfigAndPlatform` of `build.py` is modelled.

## Findings

| source | as written | input that shows it | evidently intended | confidence | as-written member | corrected member |
|---|---|---|---|---|---|---|
| third_party/musl/src/exit/atexit.c:41 | `__funcs_on_exit` sets `head` to null but leaves `slot` at COUNT, so the next registration puts a fresh chunk in front of the old one and a later run walks all 32 entries of the old chunk again, 31 of them null | register handler 1, run `__funcs_on_exit`, register handler 2, run `__funcs_on_exit` | every handler registered since the last run runs exactly once, and null entries are never called | low-medium, not executed | AtExit.StaleHandlersAsWritten | AtExit.StaleHandlersCorrected |
