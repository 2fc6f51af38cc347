# South Park TD recompilation: what the runtime keeps

A Dafny model of the hard parts of the emulator runtime and of its tools, with proofs. One module per component:

| module | models |
|---|---|
| `Words` | bytes, 32-bit words and the shifts of unsigned C arithmetic |
| `Tiling` | the Xenos address map of tiled textures, with its 32-bit wraps, and its inverse |
| `Surfaces` | `Tile` and `Untile` on byte buffers |
| `Codec` | the byte orders, BC1/2/3 blocks and uncompressed texels |
| `Decoder` | `DecodeBytesToRGBA` |
| `ColourLaws` | what a decoded picture shows, told from the bytes of the texture |
| `Pm4` | PM4 packets, the recursive walk over nested indirect buffers, flattening |
| `CommandProcessor` | the same walk as a program that changes registers and memory |
| `PacketLaws` | what each kind of packet does to the machine, told from its words |
| `Pump` | the ring buffer and the pump that consumes it in windows |
| `FrameShadow` | the read-only second walker of `FrameBufDump` and its shadow of the constants |
| `FrameLaws` | which segments it finds and what its arrays hold, by addresses and register numbers |
| `Scheduler` | the fair run token, the wait protocol, events, semaphores, wait-any and wait-all, as steps of many threads |
| `WaitLaws` | the order of a thread's actions in any run, when a wait can fail, what the actions do to objects |
| `GuestHeap` | virtual memory regions, the bump cursor, the pool, decommit and release |
| `HeapLaws` | where allocations go and what they leave in the region table, in numbers |
| `Records` | the layouts of thread, processor and process records, as the stores that fill them |
| `ThreadList` | the intrusive thread list and the thread contexts in raw big-endian guest memory |
| `RecordLaws` | the words of the process and of a new thread's records, by their addresses |
| `Tls` | the TLS slot bitmap |
| `Dispatch` | the byte-indexed dispatch table and the linear search it replaces |
| `Text` | UTF-16 to UTF-8 to JSON in the launcher |
| `TextLaws` | the chain against an encoder of its own, and the report spelled out |
| `Stfs` | the STFS block map, contiguous reads, directory paths |
| `GotoFix` | the goto rewriter, on the text of the lines |
| `GotoLabels` | what its comparison in upper case leaves to a compiler |
| `GotoText` | which lines are gotos, functions and labels, and what the rewritten ones say, as text |
| `Mappings` | the filter of the function table |
| `MappingText` | which lines are entries of the table, and with which address, as text |

Code that changes state in the source is a class or a method over arrays here, specified by functions whose
properties are then proved; protocols are state machines whose invariants are proved over all runs. The modules
`...Laws`, `GotoText` and `MappingText` say what holds without those functions: in numbers, bytes and text.

`dafny verify dfyconfig.toml` checks everything.

## What turned out

* The tiled address map is a bijection onto its padded surface, but `TiledSizeBytes` does not bound every surface:
  texel (0, 16) of a 32x32 surface of one-byte texels lies past its end. `Tiling.TiledSizeExact` says exactly which
  surfaces stay inside.
* The pump equals one in-order pass over the stream as long as each kick is less than a ring; a longer kick skips its
  whole rings and runs the rest (`Pump.KickSkipsRings`).
* The shadow of `FrameBufDump` sees every constant exactly when no SET_CONSTANT run leaves its bank
  (`FrameShadow.ShadowIsExact`; one that does: `FrameShadow.CrossingRun`).
* A caller may wait for all of a list exactly when the list names no consumable object twice: only then the wait can
  never take a unit that is not there (`Scheduler.NamedOnceIsExact`), and every other list has a run that drives a
  state below zero (`Scheduler.DebtIsReached`).
* An allocation at a base the caller chose keeps the regions disjoint exactly when the grown range ends before the next
  region, and keeps them below the cursor exactly when it ends there, except that a range that starts in a region and
  wraps around 2^32 changes no region (`GuestHeap.AllocateKeeps`; each half fails alone: `GuestHeap.GrownOver`,
  `GuestHeap.AboveCursor`).
* Sums that wrap hand out memory again. A base that the kernel chooses is safe exactly when the cursor
  plus the request, in 64 KiB granules, stays below 2^32; two requests of 2 GiB put the cursor back at the start
  (`GuestHeap.WrappedCursor`). A pool request is safe exactly when it fits into the rest of its arena, or a new arena
  ends below 2^32; a request of nearly 4 GiB is served from an arena of 8 MiB and moves the pool back to its first block
  (`GuestHeap.WrappedPool`). All states of a run are good exactly when each of its calls meets its condition
  (`GuestHeap.RunKeeps`).
* A decommit writes back and zeroes the requested pages exactly when its request asks for the rest of the region, or
  ends, in whole pages, below 2^32, or is so long that the rounding wraps to one page in the region's last page
  (`GuestHeap.Decommit`). Otherwise the range leaves its region (`GuestHeap.WrappedDecommit`) or falls short of the
  request (`GuestHeap.LostDecommit`).
* The slot bytes that worker threads read from the process record are those of the main thread's TLS block exactly for a
  multiple of four slots that takes less than 64 KiB (`Records.SameSlotSize`).
* A slot that KeTlsAlloc hands out lies in the main thread's TLS block for a multiple of four slots, or at least 256, and
  otherwise the last slots do not (`ThreadList.MainSlots`; other threads: `ThreadList.WorkerSlots`).
* The goto rewriter compares addresses in upper case, so a function defined as `sub_ab` is called as `sub_AB`, which
  nothing defines (`GotoFix.LowerCaseName`). A tail call names a defined function exactly when a definition is spelled in
  upper case (`GotoFix.TailCallNames`).
* Labels too are compared in upper case: a goto to `loc_ab` is left as it is where only `loc_AB` is declared
  (`GotoLabels.OtherCase`); these are exactly the gotos that still name nothing (`GotoLabels.LeftOver`).
* STFS: the comment at `tools/stfs_extract.py:85-86` that block 0 is at backing position 1 holds for read-only packages
  only; for read-write ones the code gives 2, so offset 0xD000. The formula of the file's own documentation gives the
  code's offsets exactly for the first 170 blocks of read-only packages (`Stfs.DocumentedOffset`).

## Model

| member | source | states |
|---|---|---|
| Tiling.MachineAddress | varianta/runtime/rex_texture.h:70-81 | below the 32-bit wrap no shift or sum loses a bit, and the final shift drops only zero bits: offset times pitch is the digit form of the address |
| Tiling.TexelAtByteAddress | varianta/runtime/rex_texture.h:70-81 | from a byte address tile, column and row are read back, for each of the five pitches: the terms occupy separate digits, and the bank digit is recovered because bit 3 of y is stored elsewhere |
| Tiling.ByteAddressOfTexel | varianta/runtime/rex_texture.h:70-81 | conversely every multiple of the pitch is the address of the texel read back from it |
| Tiling.MultipleOfPitch | varianta/runtime/rex_texture.h:80-81 | the byte address is a multiple of the pitch |
| Tiling.LocateAddress | varianta/runtime/rex_texture.h:70-81 | the block coordinates are recovered from the address the code computes, for every width, row and pitch |
| Tiling.AddressInjective | varianta/runtime/rex_texture.h:70-81 | no two blocks of the 32-aligned surface share an address |
| Tiling.AddressInPadded | varianta/runtime/rex_texture.h:106-110 | every block ends inside the tiled size rounded up to 4 KiB |
| Tiling.AddressOnto | varianta/runtime/rex_texture.h:70-81 | on surfaces of whole 4 KiB pages every multiple of the pitch is the address of a block |
| Tiling.InTiledSize | varianta/runtime/rex_texture.h:106-110 | exactly which blocks end inside TiledSizeBytes |
| Tiling.TiledSizeExact | varianta/runtime/rex_texture.h:106-110 | TiledSizeBytes bounds a whole surface if and only if tile count times pitch is a multiple of 4, or its last tile row never reaches the upper half of a page |
| Tiling.OneTileSpills | varianta/runtime/rex_texture.h:106-110 | a 32x32 surface of one-byte texels, with a texel past TiledSizeBytes |
| Surfaces.Untile | varianta/runtime/rex_texture.h:84-92 | dst gets every block of the surface from its tiled place, and nothing else is written |
| Surfaces.Tile | varianta/runtime/rex_texture.h:95-103 | every block gets to its tiled place, and bytes that belong to no block keep their value |
| Surfaces.XenosApart | varianta/runtime/rex_texture.h:70-81 | no two blocks of a surface overlap in the tiled buffer |
| Surfaces.PaddedCovers | varianta/runtime/rex_texture.h:106-110 | a buffer of the size rounded up to 4 KiB holds every block |
| Surfaces.UntileAfterTile | varianta/runtime/rex_texture.h:290-302 | Untile after Tile is the identity, for all dimensions and pitches |
| Surfaces.TileAfterUntile | varianta/runtime/rex_texture.h:84-103 | Tile after Untile is the identity of the whole buffer on aligned surfaces of whole pages |
| Surfaces.TiledAndBack | varianta/runtime/rex_texture.h:290-302 | Tile, then Untile: the destination is the source |
| Surfaces.UntiledAndBack | varianta/runtime/rex_texture.h:84-103 | Untile, then Tile, on aligned surfaces of whole pages: every byte of the buffer is back |
| Codec.SwappedTwice | varianta/runtime/rex_texture.h:113-121 | each byte order is its own inverse |
| Codec.EndianSwap | varianta/runtime/rex_texture.h:113-121 | the in-place swap loops give the swapped bytes, an incomplete last group stays |
| Codec.DecodeBC1Color | varianta/runtime/rex_texture.h:135-152 | each of the 16 texels is the palette entry its two bits select, with punch-through alpha |
| Codec.DecodeBC2 | varianta/runtime/rex_texture.h:155-160 | colours of the second half, four-bit alpha of the first |
| Codec.SamplesAre | varianta/runtime/rex_texture.h:168-169 | the weighted sum of the interpolation is the sum of so many samples of each end |
| Codec.AlphaPalette | varianta/runtime/rex_texture.h:166-169 | the eight alphas of a block: in both modes the means of 7 or 5 samples of the two ends, rounded down, or 0 and 255 |
| Codec.DecodeBC3 | varianta/runtime/rex_texture.h:163-172 | colours of the second half, interpolated alpha of the first |
| Decoder.WriteBlock | varianta/runtime/rex_texture.h:236-241 | a block's texels go to their pixels, edge blocks are cropped, no other pixel changes |
| Decoder.DecodeOneBlock | varianta/runtime/rex_texture.h:228-242 | one more block of the picture is in place, those before it stay |
| Decoder.DecodeBlocks | varianta/runtime/rex_texture.h:222-244 | every pixel of a compressed texture comes from its own block and texel |
| Decoder.ConvertTexels | varianta/runtime/rex_texture.h:255 | every pixel of an uncompressed texture comes from its own texel |
| Decoder.CopyRows | varianta/runtime/rex_texture.h:251-252 | rows are taken at the pitch |
| Decoder.DecodeBytesToRGBA | varianta/runtime/rex_texture.h:216-257 | false for empty or unknown textures, else all width*height pixels of the picture, tiled or linear, none written out of range |
| Decoder.OnePicture | varianta/runtime/rex_texture.h:216-257 | the pixels determine the output buffer |
| Decoder.TiledDecodesLikeLinear | varianta/runtime/rex_texture.h:216-257 | decoding a tiled texture gives the RGBA of decoding it linearly, for every format, size and byte order |
| ColourLaws.TexelLaw | varianta/runtime/rex_texture.h:199-213 | by the number of each uncompressed format: 8_8_8_8 is the number with alpha highest and blue lowest; each channel of 5_6_5, 1_5_5_5 and 4_4_4_4 is its own bit field scaled to 255 and rounded down; grey, two-channel and unsupported texels as listed |
| ColourLaws.PackedColour | varianta/runtime/rex_texture.h:199-201 | packing a colour into that number and decoding it gives the colour |
| ColourLaws.BitOfNumber | varianta/runtime/rex_texture.h:145-147 | the shifts of a little-endian number of any length read the bits of its bytes |
| ColourLaws.BlockLaw | varianta/runtime/rex_texture.h:132-151 | a texel of a colour block is, by its own two bits, one of the two ends, or two parts of one end and one of the other, or halfway between them, or transparent black, the last two exactly in three-colour mode |
| ColourLaws.AlphaLaw | varianta/runtime/rex_texture.h:168-170 | entry k of the alpha palette is an end, or the weighted mean of seven or five parts rounded down, or 0 or 255 |
| ColourLaws.CompressedLaw | varianta/runtime/rex_texture.h:132-174 | by the number of each compressed format: colours of the right eight bytes with their own four or three alpha bits, or grey |
| ColourLaws.SwapLaw | varianta/runtime/rex_texture.h:116-123 | by the number of each byte order: which bytes of a pair or of four change places, and that an incomplete group stays |
| ColourLaws.PlaceLaw | varianta/runtime/rex_texture.h:70-82 | the tiled place of a block, bit by bit of its coordinates |
| ColourLaws.FormatLaw | varianta/runtime/rex_texture.h:180-195 | which formats come in blocks and how many bytes each takes |
| ColourLaws.RowLaw | varianta/runtime/rex_texture.h:219-225 | each byte of a row comes from its tiled place, or from its row at the pitch |
| ColourLaws.PixelLaw | varianta/runtime/rex_texture.h:227-245 | the four bytes of a pixel are the colour of its own texel, or of texel (x mod 4, y mod 4) of its own block |
| ColourLaws.DecodingLaw | varianta/runtime/rex_texture.h:216-257 | every decode shows exactly that: bytes from their places, swapped, and each pixel in the colour of its texel, for every format, size, pitch, layout and byte order |
| Pm4.WalkSplit | varianta/runtime/kernel.cpp:2107-2151 | a walk may be split at a packet boundary |
| Pm4.WalkMoved | varianta/runtime/kernel.cpp:2107-2151 | a buffer of whole packets does the same wherever it stands: only its own words are read |
| Pm4.DeepEnough | varianta/runtime/kernel.cpp:2108 | when nesting stays within the depth limit, the limit changes nothing |
| Pm4.FlatRunsTheSame | varianta/runtime/kernel.cpp:1578-1584 | the stream with every indirect buffer put in the place of its call has the same effects in the same order, whatever the nesting |
| Pm4.SelfCall | varianta/runtime/kernel.cpp:2107-2108 | a buffer that calls itself runs once per level that is left, then stops |
| CommandProcessor.Gpu.constructor | varianta/runtime/kernel.cpp:1437 | registers, fences and counters at power-up |
| CommandProcessor.Gpu.Perform | varianta/runtime/kernel.cpp:1440-1441 | one register write, fence, interrupt, draw or swap |
| CommandProcessor.Gpu.LoadConstants | varianta/runtime/kernel.cpp:1632-1639 | SET_CONSTANT writes its words to consecutive registers of the bank its type selects, or to none |
| CommandProcessor.Gpu.FireInterrupts | varianta/runtime/kernel.cpp:1601-1608 | one interrupt per set bit below bit 6, lowest first |
| CommandProcessor.Gpu.EventWriteShd | varianta/runtime/kernel.cpp:1609-1616 | the event register, then the fence with the value or the swap counter |
| CommandProcessor.Gpu.ExecuteCommand | varianta/runtime/kernel.cpp:1601-1653 | all other type-3 packets, by opcode |
| CommandProcessor.Gpu.ExecuteType3 | varianta/runtime/kernel.cpp:1577-1584 | an indirect buffer runs one level deeper, at its translated address |
| CommandProcessor.Gpu.ExecuteType0 | varianta/runtime/kernel.cpp:2129-2135 | register runs, clipped at the buffer's end |
| CommandProcessor.Gpu.ExecuteType1 | varianta/runtime/kernel.cpp:2136-2141 | two register writes |
| CommandProcessor.Gpu.ExecutePacket | varianta/runtime/kernel.cpp:2111-2149 | one packet's effects, where the next packet is, and the machine that those effects leave |
| CommandProcessor.Gpu.ExecutePM4 | varianta/runtime/kernel.cpp:2107-2151 | the loop adds exactly the effects of the walk and leaves the machine that they make, terminates for every memory, and its addresses never leave 32 bits |
| PacketLaws.FenceLaw | varianta/runtime/kernel.cpp:1609-1627 | EVENT_WRITE_SHD with words i, a, v: register 0x21F9 is i mod 64, the word at the physical address of a, cut to four bytes, is v, or the swap counter when i has its top bit; nothing else changes |
| PacketLaws.EventLaw | varianta/runtime/kernel.cpp:1628-1631 | EVENT_WRITE and EVENT_WRITE_EXT: register 0x21F9 only |
| PacketLaws.InterruptLaw | varianta/runtime/kernel.cpp:1601-1608 | INTERRUPT: with a callback, the CPUs of the six low mask bits, lowest first; without one, nothing |
| PacketLaws.SetConstantLaw | varianta/runtime/kernel.cpp:1632-1650 | SET_CONSTANT: which register holds which data word, for each of the five banks, and that nothing else changes; any other bank writes nothing |
| PacketLaws.SetConstant2Law | varianta/runtime/kernel.cpp:1651-1653 | SET_CONSTANT2: which register holds which data word |
| PacketLaws.DrawLaw | varianta/runtime/kernel.cpp:1664-1668 | both draws: the draw count only |
| PacketLaws.SwapLaw | varianta/runtime/kernel.cpp:2093-2095 | XE_SWAP: the swap counter only, on 32 bits |
| PacketLaws.OtherOpLaw | varianta/runtime/kernel.cpp:1577-1653 | all opcodes but those eleven do nothing |
| PacketLaws.CallLaw | varianta/runtime/kernel.cpp:1578-1584 | a call runs as many words as the low 20 bits say, at the physical address, one level deeper |
| PacketLaws.Type0Law | varianta/runtime/kernel.cpp:2129-2135 | type 0: which register holds which data word, up to the buffer's end; with one register, it keeps the last word |
| PacketLaws.Type1Law | varianta/runtime/kernel.cpp:2136-2141 | type 1: its two registers hold the next two words |
| PacketLaws.NothingLaw | varianta/runtime/kernel.cpp:2112-2142 | a word of 0 and type 2 do nothing |
| PacketLaws.NextLaw | varianta/runtime/kernel.cpp:2110-2150 | where the next packet is, by the type |
| PacketLaws.NineLevels | varianta/runtime/kernel.cpp:2107-2108 | from the ring, a buffer that swaps and calls itself swaps nine times |
| Pump.Pm4IsWindowed | varianta/runtime/kernel.cpp:2107-2151 | the walk may be cut into windows at packet boundaries and moved |
| Pump.SlotIsRemainder | varianta/runtime/kernel.cpp:2154-2163 | ring slots are stream positions modulo the ring size |
| Pump.VblankPump.constructor | varianta/runtime/kernel.cpp:2170 | nothing consumed, nothing published |
| Pump.VblankPump.ExecuteRing | varianta/runtime/kernel.cpp:2154-2163 | for any two pointers: a window is one walk, or two when it wraps, and none past the ring's end |
| Pump.VblankPump.Consume | varianta/runtime/kernel.cpp:2300-2307 | whatever write pointer the title stored: a changed one makes the window run, and becomes the consumed and the published pointer |
| Pump.Window | varianta/runtime/kernel.cpp:2154-2163 | executing a window of the ring, wrapped or not, is walking those words of the stream, and the pointers differ |
| Pump.WindowsAddUp | varianta/runtime/kernel.cpp:2300-2307 | induction over kicks, for any interpreter that can be cut into windows |
| Pump.OnePass | varianta/runtime/kernel.cpp:2300-2307 | over every run the windows have exactly the effects of one in-order pass, and the published read pointer is what was consumed |
| Pump.KickSkipsRings | varianta/runtime/kernel.cpp:2300-2307 | a kick of any length runs its last (to - from) % size words and skips the whole rings before them, none exactly when it is below a ring |
| Pump.FullRingIsMissed | varianta/runtime/kernel.cpp:2301 | a kick of exactly one ring is not seen |
| FrameShadow.PacketSeen | varianta/runtime/kernel.cpp:3705-3723 | of one packet the shadow misses nothing exactly when a SET_CONSTANT stays in its bank; type-1 packets cannot reach the shadowed registers |
| FrameShadow.WalkSeen | varianta/runtime/kernel.cpp:3704-3723 | of a segment without indirect buffers the shadow records all kept effects in order, or strictly fewer |
| FrameShadow.ShadowIsExact | varianta/runtime/kernel.cpp:3704-3723 | it records them all if and only if every SET_CONSTANT stays in its bank |
| FrameShadow.CrossingRun | varianta/runtime/kernel.cpp:3715-3719 | a SET_CONSTANT that runs over the end of the ALU bank writes a fetch constant that the shadow misses |
| FrameShadow.FilterKeeps | varianta/runtime/kernel.cpp:3691-3692 | what is filtered out changes no shadowed register and no draw count |
| FrameShadow.ShadowEqualsRegisters | varianta/runtime/kernel.cpp:3691-3723 | from any state, after any list of such segments the shadow of 0x4000-0x407F, 0x4800-0x48FF and the draw count is what execution leaves there |
| FrameShadow.Shadow.constructor | varianta/runtime/kernel.cpp:3691-3692 | the shadow starts from zeroes |
| FrameShadow.Shadow.Write | varianta/runtime/kernel.cpp:3711-3712 | a shadowed register is recorded in its array, any other is not |
| FrameShadow.Shadow.WriteBank | varianta/runtime/kernel.cpp:3716-3719 | bank positions below the limit are recorded |
| FrameShadow.Shadow.WalkType3 | varianta/runtime/kernel.cpp:3715-3725 | SET_CONSTANT, SET_CONSTANT2 and draws |
| FrameShadow.Shadow.WalkPacket | varianta/runtime/kernel.cpp:3705-3725 | one packet, and where the next one is |
| FrameShadow.Shadow.WalkSegment | varianta/runtime/kernel.cpp:3703-3725 | one segment |
| FrameShadow.Shadow.WalkEntry | varianta/runtime/kernel.cpp:3695-3703 | one word of the directory: a descriptor counts, and its segment is walked unless it starts with a type-2 packet |
| FrameShadow.Shadow.ScanDirectory | varianta/runtime/kernel.cpp:3695-3725 | the scan, up to 512 descriptors |
| FrameShadow.Shadow.WalkAll | varianta/runtime/kernel.cpp:3685-3725 | the segments that the directory between the two cursors describes are found and walked in order; if they are clean, the arrays and the draw count are what the command processor leaves |
| FrameLaws.EntryLaw | varianta/runtime/kernel.cpp:3694-3700 | which two words name a segment, where it is and how long: tag 0x81, 1 to 0x7FFF words, a 4-aligned address, no type-2 packet first |
| FrameLaws.DirectoryLaw | varianta/runtime/kernel.cpp:3684-3701 | a segment is found if and only if the directory is sane and one of its first 512 descriptors names it |
| FrameLaws.ArraysLaw | varianta/runtime/kernel.cpp:3691-3719 | the two arrays hold what execution leaves in registers 0x4000 to 0x407F and 0x4800 to 0x48FF |
| Scheduler.FairMutex.constructor | varianta/runtime/kernel.cpp:1115 | a free token, no tickets |
| Scheduler.FairMutex.TakeTicket | varianta/runtime/kernel.cpp:1116 | tickets are issued in order |
| Scheduler.FairMutex.TryEnter | varianta/runtime/kernel.cpp:1117 | entered exactly when free and served |
| Scheduler.FairMutex.Unlock | varianta/runtime/kernel.cpp:1118-1120 | the next ticket is served |
| Scheduler.StepKeepsToken | varianta/runtime/kernel.cpp:1113-1121 | every step of every thread keeps the token invariant |
| Scheduler.OneHolder | varianta/runtime/kernel.cpp:1113-1121 | in every reachable state at most one thread runs, and each ticket from serving to next is owned by exactly one waiting or running thread |
| Scheduler.NextOwner | varianta/runtime/kernel.cpp:1116-1117 | a free token with waiting threads has exactly one enabled next owner |
| Scheduler.GrantedInOrder | varianta/runtime/kernel.cpp:1116-1120 | over every run tickets are granted in issue order, none skipped |
| Scheduler.StepKeepsObjects | varianta/runtime/kernel.cpp:1129-1179 | every step keeps the states non-negative, and a wait that returned true stays ready until its units are taken, timers included |
| Scheduler.NoDebt | varianta/runtime/kernel.cpp:1166-1179 | in every reachable state of runs whose waits and releases are careful, no signal state is negative |
| Scheduler.ReturnsHolding | varianta/runtime/kernel.cpp:1129-1142 | in every reachable state of every run, careful or not, a thread whose FairWaitUntil returned, true or false, holds the token; when it returned true its wait is ready, and choosing and taking cannot get stuck |
| Scheduler.FailsOnlyUnready | varianta/runtime/kernel.cpp:1139 | it returns false only when the wait is not ready at the last look, and then takes nothing |
| Scheduler.PickIsLeast | varianta/runtime/kernel.cpp:5368-5375 | wait-any chooses the least ready index |
| Scheduler.TakesOneUnitEach | varianta/runtime/kernel.cpp:5384-5392 | a successful wait takes exactly one unit of each consumable object it is for, which was there, and nothing else |
| Scheduler.SemaphoreConserved | varianta/runtime/kernel.cpp:5067-5075 | over every careful run semaphore state = initial + released - successful waits |
| Scheduler.UnitsConserved | varianta/runtime/kernel.cpp:5067-5075 | over every run at all, with negative releases, sums past 32 bits and objects named twice: state = initial + released - units taken, modulo 2^32 |
| Scheduler.ReleaseStaysNonNegative | varianta/runtime/kernel.cpp:5067-5075 | exactly when a release leaves a semaphore in credit |
| Scheduler.ConsumeAllTakes | varianta/runtime/kernel.cpp:5384-5392 | a wait-all takes one unit per mention of an object |
| Scheduler.WaitAllStaysNonNegative | varianta/runtime/kernel.cpp:5384-5392 | exactly when a satisfied wait-all leaves no negative state, by the states at that moment |
| Scheduler.NamedOnceIsExact | varianta/runtime/kernel.cpp:5376-5392 | a wait-all on a list never takes a unit that is not there, whatever the states, if and only if the list names no consumable object twice |
| Scheduler.DebtIsReached | varianta/runtime/kernel.cpp:5376-5392 | every other list of existing objects has a run, from a start state, that ends with a negative state |
| Scheduler.FirstSignaled | varianta/runtime/kernel.cpp:5368-5375 | the least signaled index, or -1 when there is none |
| Scheduler.ObjectTable.FindReady | varianta/runtime/kernel.cpp:5368-5381 | the search loops of both multi-object waits |
| Scheduler.ObjectTable.TakeOne | varianta/runtime/kernel.cpp:5384-5385 | one unit of a consumable object, none of another |
| Scheduler.ObjectTable.TakeAll | varianta/runtime/kernel.cpp:5391-5392 | one unit per id, in order |
| Scheduler.ObjectTable.FinishWait | varianta/runtime/kernel.cpp:5389-5394 | the status and what the satisfied wait takes |
| WaitLaws.ActionsFollow | varianta/runtime/kernel.cpp:1129-1142 | over every run from a start, what a thread may do next after its last actions: a wait is checked, yields the token, and after it woke is checked again with the token; only after a timeout it has a last look instead |
| WaitLaws.NeverStuck | varianta/runtime/kernel.cpp:1129-1142 | in every reachable state each thread has such a next action, or waits for its turn, or is blocked on a wait whose objects are not ready and whose time has not run out |
| WaitLaws.InfiniteNeverFails | varianta/runtime/kernel.cpp:1136-1139 | in every reachable state no thread with an infinite wait is about to fail |
| WaitLaws.FailureNeedsTimeout | varianta/runtime/kernel.cpp:1136-1139 | every wait that is given up in a run was begun with a timeout and timed out after the last beginning of a wait by that thread |
| WaitLaws.EndOfWait | varianta/runtime/kernel.cpp:5384-5394 | a wait that can end takes its share of every object, one unit of types 1, 2 and 5 only, per mention for wait-all, by the least index for wait-any, which is the status |
| WaitLaws.LookTakes | varianta/runtime/kernel.cpp:1132-1141 | a check or last look at a wait that can end leads to the taking of its units and nothing else |
| WaitLaws.CheckYields | varianta/runtime/kernel.cpp:1132-1137 | a check of any other gives the token to the next ticket and blocks on that wait |
| WaitLaws.LookGivesUp | varianta/runtime/kernel.cpp:1139 | a last look at any other gives the wait up and takes nothing |
| WaitLaws.ObjectLaw | varianta/runtime/kernel.cpp:1143-1146 | setting, releasing and timers change the state of their own object to what they say, on 32 bits, and no other action but a taking changes any |
| GuestHeap.Find | varianta/runtime/kernel.cpp:264-271 | the predecessor by base, when it contains the address |
| GuestHeap.FindIsScan | varianta/runtime/kernel.cpp:264-271 | on disjoint regions the predecessor search finds the containing region exactly when a linear scan would |
| GuestHeap.ChosenCovers | varianta/runtime/kernel.cpp:286-288 | the pages around a range that the caller chose cover it if and only if their number of bytes does not wrap |
| GuestHeap.CursorPlace | varianta/runtime/kernel.cpp:289-294 | a base that the kernel chooses is the cursor, the size is the request in granules, or 0 when that wraps, and the cursor moves to their sum on 32 bits |
| GuestHeap.AllocateKeeps | varianta/runtime/kernel.cpp:275-321 | for every request: exactly when it keeps the regions disjoint, exactly when it keeps them below the cursor, and exactly when it keeps the invariant; a request inside a region whose end wraps changes no extent |
| GuestHeap.GrownOver | varianta/runtime/kernel.cpp:296-308 | a request inside the first of two touching regions makes them overlap |
| GuestHeap.AboveCursor | varianta/runtime/kernel.cpp:285-308 | a base above the cursor keeps the regions disjoint and breaks only the bound |
| GuestHeap.WrappedCursor | varianta/runtime/kernel.cpp:289-294 | from the start, two requests of 2 GiB move the cursor back to the first region |
| GuestHeap.InsideHasRoom | varianta/runtime/kernel.cpp:298-303 | a caller-chosen range inside a tracked region has room |
| GuestHeap.PoolKeeps | varianta/runtime/kernel.cpp:334-346 | a pool allocation keeps everything if and only if its block fits into the rest of the arena or a new arena ends below 2^32; the block is then new, 16-aligned, in a region and large enough |
| GuestHeap.WrappedPool | varianta/runtime/kernel.cpp:337-345 | a request of nearly 4 GiB is served from an arena of 8 MiB, and the next one gets the first block again |
| GuestHeap.AllocateKeepsBlocks | varianta/runtime/kernel.cpp:275-321 | allocating regions, whatever the request, leaves all pool blocks in place |
| GuestHeap.FreeKeeps | varianta/runtime/kernel.cpp:379-421 | freeing changes no extent, so it keeps everything |
| GuestHeap.CallKeeps | varianta/runtime/kernel.cpp:264-421 | exactly which calls keep a good state good |
| GuestHeap.WrappedDecommit | varianta/runtime/kernel.cpp:406-415 | a request whose end wraps: nearly 4 GiB of a 64 KiB region are written back |
| GuestHeap.LostDecommit | varianta/runtime/kernel.cpp:406-415 | a request whose rounded length wraps: nothing is written back or zeroed |
| GuestHeap.Decommit | varianta/runtime/kernel.cpp:405-415 | the range written back serves the request (inside the region, the requested bytes and less than a page more), exactly its bytes are zeroed, and committed is cleared only when it is the whole region: if and only if the request is servable |
| GuestHeap.DecommitServes | varianta/runtime/kernel.cpp:406-411 | exactly which requests the range written back serves, by base, size and region |
| GuestHeap.RunKeeps | varianta/runtime/kernel.cpp:264-421 | over every run: in all its states regions and arenas are disjoint and below the cursor and all pool blocks 16-aligned and disjoint, if and only if each call meets its condition when it is made |
| GuestHeap.FromStart | varianta/runtime/kernel.cpp:249-250 | the same from the start of the process |
| GuestHeap.RunKeepsPages | varianta/runtime/kernel.cpp:285-294 | over every run at all regions are whole pages |
| GuestHeap.FreesWholePages | varianta/runtime/kernel.cpp:402-411 | so a free in a good state meets a region as the decommit results ask for it |
| GuestHeap.Memory.FindRegion | varianta/runtime/kernel.cpp:264-271 | the search over the map's keys |
| GuestHeap.Memory.NtAllocate | varianta/runtime/kernel.cpp:275-321 | status, base and size written back, regions and cursor |
| GuestHeap.Memory.PoolAlloc | varianta/runtime/kernel.cpp:334-346 | 0 for nothing, else the block, with a new arena when the old one is full |
| GuestHeap.Memory.NtFree | varianta/runtime/kernel.cpp:379-421 | for every argument: status, the range written back, the flags, and memory zeroed exactly there; a release writes back the whole region, zeroes exactly it, and leaves it neither reserved nor committed; a decommit inside a region of whole pages writes back and zeroes exactly the pages it touches |
| HeapLaws.AllocateLaw | varianta/runtime/kernel.cpp:284-308 | where a request goes, as multiples of the page or of 64 KiB, and the size, flags and protection of the region that tracks it, new or grown; all others are the same |
| HeapLaws.PoolLaw | varianta/runtime/kernel.cpp:334-346 | a block is the next of the arena when it has room, else the first of a new arena at the cursor of at least 8 MiB |
| ThreadList.InsertedIsAppended | varianta/runtime/kernel.cpp:638-642 | the tail insertion keeps a circular doubly linked list and its count, with exactly the new thread more, at its tail |
| ThreadList.GuestRam.Store | varianta/runtime/kernel.cpp:560 | a big-endian store changes the word at its address, no other aligned word and no other byte |
| ThreadList.GuestRam.Load | varianta/runtime/kernel.cpp:562 | a big-endian load |
| ThreadList.GuestRam.Fill | varianta/runtime/kernel.cpp:616 | a range gets the given bytes, memory around it is unchanged |
| ThreadList.GuestRam.FillRecord | varianta/runtime/kernel.cpp:614-637 | a record is zeroed and gets its fields, memory around it is unchanged |
| Records.FieldRead | varianta/runtime/kernel.cpp:557-562 | each field of a record whose fields are apart is read back, big-endian |
| Records.KThreadApart | varianta/runtime/kernel.cpp:614-637 | no store into a thread record overwrites another |
| Records.KPcrApart | varianta/runtime/kernel.cpp:645-653 | nor into a KPCR |
| Records.KProcessApart | varianta/runtime/kernel.cpp:688-704 | nor into the process record |
| ThreadList.TlsReadBack | varianta/runtime/kernel.cpp:1033-1036 | what a new thread reads of TLS from the process record is what was stored there |
| ThreadList.MainSlots | varianta/runtime/kernel.cpp:747-750 | every slot that can be allocated lies in the main thread's TLS block if and only if there are a multiple of four slots, or at least 256 |
| ThreadList.WorkerSlots | varianta/runtime/kernel.cpp:747-750 | the same for all other threads, whose slot size is cut to 16 bits |
| Records.SameSlotSize | varianta/runtime/kernel.cpp:673-700 | the 16-bit slot size in the process record is that of the main thread's block exactly for a multiple of four slots below 64 KiB |
| ThreadList.ThreadTable.constructor | varianta/runtime/kernel.cpp:673-714 | process record, the empty list, the main thread's record in it, its KPCR, and, if the template fits, the main TLS block |
| ThreadList.ThreadTable.FillTls | varianta/runtime/kernel.cpp:1051-1052 | the block is zeroed and starts with the template, if that fits; nothing outside block and template changes |
| ThreadList.ThreadTable.FillKPcr | varianta/runtime/kernel.cpp:645-653 | the KPCR's fields, memory around it unchanged |
| ThreadList.ThreadTable.Insert | varianta/runtime/kernel.cpp:638-642 | the five stores of the insertion |
| ThreadList.ThreadTable.FillKThread | varianta/runtime/kernel.cpp:614-643 | all fields of the record; the list stays well formed and gets the new entry at its tail; thread_count is its length; besides the record only links change |
| ThreadList.ThreadTable.NewPages | varianta/runtime/kernel.cpp:1039-1043 | record, KPCR and TLS block get pages of their own, in this order |
| ThreadList.ThreadTable.NewStack | varianta/runtime/kernel.cpp:1045-1049 | below the 32-bit wrap a stack in 64 KiB granules, as few as hold the asked size or 256 KiB for none, and a guard above it |
| ThreadList.ThreadTable.CreateGuestThreadContext | varianta/runtime/kernel.cpp:1029-1060 | record and KPCR with all their contents on pages of their own; the list is kept over every sequence of calls, with any template and stack size, and below the new pages only links change; a template that fits is in the TLS block, a stack below the wrap lies above the last |
| RecordLaws.KPcrLaw | varianta/runtime/kernel.cpp:645-653 | the bytes and words of a KPCR: TLS block, itself, stack base and limit, current thread |
| RecordLaws.KThreadLaw | varianta/runtime/kernel.cpp:614-637 | the bytes and words of a thread record, at each of the addresses stored to |
| RecordLaws.ContextLaw | varianta/runtime/kernel.cpp:1026-1060 | so what a new thread's KPCR and record hold |
| RecordLaws.ProcessLaw | varianta/runtime/kernel.cpp:688-710 | the bytes and words of the process record, with the eight words of the slot bitmap |
| RecordLaws.MainLaw | varianta/runtime/kernel.cpp:659-718 | what the process's setup leaves, by address: process, main thread, its KPCR, and the 16 bits of the slots' size, with 1024 slots for a title that names none |
| RecordLaws.TlsLaw | varianta/runtime/kernel.cpp:1044-1053 | each byte of a TLS block is that of the template as far as it goes, then 0 |
| Tls.TlsProcess.constructor | varianta/runtime/kernel.cpp:701-709 | exactly the slots below the padded count, at most 256, are free |
| Tls.TlsProcess.Alloc | varianta/runtime/kernel.cpp:732-753 | the least free slot is taken and cleared, or 0xFFFFFFFF returned exactly when none is free |
| Tls.TlsProcess.Free | varianta/runtime/kernel.cpp:755-766 | a step of the slot table: the slot is free again, others stay |
| Tls.HighOnes | varianta/runtime/kernel.cpp:706 | the bits of a partly filled word |
| Tls.SetBits | varianta/runtime/kernel.cpp:763 | setting a bit sets that bit and no other |
| Tls.ClearBits | varianta/runtime/kernel.cpp:743 | clearing a bit clears that bit and no other |
| Tls.TopIsHighest | varianta/runtime/kernel.cpp:740 | the leading zero count finds the first free slot of a word |
| Tls.SlotBit | varianta/runtime/kernel.cpp:701-709 | slot 32 i + j is free when word i has the bit worth 2^(31 - j) |
| Tls.NeverTwice | varianta/runtime/kernel.cpp:732-766 | over every run of such steps no live slot is handed out again; when only live slots are freed, allocation fails exactly when all are live |
| Dispatch.LookupHost | varianta/runtime/runtime.cpp:18-24 | the first mapping of an address, or null |
| Dispatch.ValueOfBytes | varianta/runtime/runtime.cpp:82-83 | a pointer is read back from its bytes |
| Dispatch.SlotsApart | varianta/runtime/runtime.cpp:72-83 | slots are inside the allocation and share no byte |
| Dispatch.SlotHolds | varianta/runtime/runtime.cpp:79-84 | once all pointers are stored, reading a slot gives its last mapping |
| Dispatch.DispatchTable.constructor | varianta/runtime/runtime.cpp:72-74 | an empty table maps nothing |
| Dispatch.DispatchTable.Populate | varianta/runtime/runtime.cpp:79-85 | every byte is that of the last pointer stored over it; when all addresses have slots, every slot holds its last mapping |
| Dispatch.DispatchTable.HostFnAt | varianta/runtime/kernel.cpp:68-71 | the pointer read from the place of any address, aligned or not; null outside the code |
| Dispatch.TableReplacesSearch | varianta/runtime/kernel.cpp:68-71 | table and search agree on every 4-aligned address exactly where first and last mapping agree; with unique addresses everywhere |
| Text.Utf16ToUtf8 | src/launcher/launcher.cpp:353-383 | the UTF-8 of the code points before the first NUL, also for unpaired surrogates |
| Text.FirstOfUtf8 | src/launcher/launcher.cpp:366-380 | the bytes of a code point are read back as it, with their length, and a surrogate's as nothing |
| Text.PointsDecode | src/launcher/launcher.cpp:356-364 | the loop's values are those of section 2.2 of RFC 2781 exactly when the text is well formed |
| TextLaws.PairLaw | src/launcher/launcher.cpp:359-364 | the units of a code point by section 2.1 of RFC 2781 are a pair that stands for it |
| TextLaws.UnitsDecode | src/launcher/launcher.cpp:356-366 | every text is read back from its units |
| TextLaws.DecodedUnits | src/launcher/launcher.cpp:356-366 | and what decodes is the units of what it decodes to |
| Text.Utf8RoundTrip | src/launcher/launcher.cpp:366-380 | decoding by section 3 of RFC 3629 gives the code points back, and fails exactly when there is a surrogate |
| Text.TitleRoundTrip | src/launcher/launcher.cpp:353-383 | for every title, reading the result as UTF-8 is reading the units before the first NUL as UTF-16: the same code points, or both fail |
| Text.ResultIsUtf8 | src/launcher/launcher.cpp:353-383 | the result is UTF-8 if and only if no unpaired surrogate comes before the first NUL |
| Text.JsonEscape | src/launcher/launcher.cpp:385-405 | the escape of every byte in order |
| Text.FirstOfEscape | src/launcher/launcher.cpp:388-402 | each escape is read back as its byte |
| Text.EscapeRoundTrip | src/launcher/launcher.cpp:385-405 | for every byte string, reading the escaped string by section 7 of RFC 8259 gives it back, and stops at the closing quote |
| Text.NoRawBytes | src/launcher/launcher.cpp:385-405 | no control byte and no quote that is not escaped, by the parity of the backslashes before it, is left inside, and nothing escapes the closing quote |
| Text.ValidateResultToJson | src/launcher/launcher.cpp:689-699 | the report's text |
| Text.ReportRoundTrip | src/launcher/launcher.cpp:689-699 | every report, with any bytes in its fields, is read back from its text |
| TextLaws.ReportSays | src/launcher/launcher.cpp:689-699 | the whole text of a report, character by character around its four escaped values |
| TextLaws.EscapeSays | src/launcher/launcher.cpp:385-405 | the escape of every byte, as text |
| Stfs.Backing | tools/stfs_extract.py:67-82 | the loop over the levels computes the closed form |
| Stfs.Gap | tools/stfs_extract.py:67-82 | the gap to the next block is one plus f per hash table entered |
| Stfs.BackingIsLayout | tools/stfs_extract.py:9-16 | the closed form is the package laid out block by block, with f copies of each table before the group it begins |
| Stfs.Increasing | tools/stfs_extract.py:67-82 | strictly increasing |
| Stfs.OwnerOf | tools/stfs_extract.py:67-82 | every block of the package is a data block or one of the tables before it |
| Stfs.TablesOf | tools/stfs_extract.py:67-82 | how many table blocks stand before a data block |
| Stfs.OneOwner | tools/stfs_extract.py:67-82 | and belongs to one data block only |
| Stfs.ExceedsDocumented | tools/stfs_extract.py:17 | the code exceeds the documented formula by f per level it goes through |
| Stfs.DocumentedOffset | tools/stfs_extract.py:18 | the documented offset is right exactly for the first 170 blocks of read-only packages |
| Stfs.Anchors | tools/stfs_extract.py:19-20 | the documented anchors, and where a read-write package starts |
| Stfs.ReadContiguous | tools/stfs_extract.py:92-96 | the blocks one after another |
| Stfs.BlocksHold | tools/stfs_extract.py:84-96 | each byte of the result is the byte of its block in the file |
| Stfs.AncestorsChain | tools/stfs_extract.py:125-136 | the walk over parents visits each entry once, each the parent of the one before, and stops only at the root, outside the table, at an unused entry or at one already seen |
| Stfs.WalkStarts | tools/stfs_extract.py:128-135 | where the walk ends: at 0xFFFF, outside the table, at an unused entry or at an index seen |
| Stfs.PathOf | tools/stfs_extract.py:125-136 | the names of the ancestors, joined from the root, for every table, also one with cycles |
| Stfs.RootFirst | tools/stfs_extract.py:136 | in a joined path an ancestor comes before the names below it |
| GotoFix.ParseBack | tools/fix_recomp_labels.py:26-27 | a goto, tail call or trap is read back from its line, whatever its condition says |
| GotoFix.ParseParts | tools/fix_recomp_labels.py:26-27 | a parsed line is its parts put together |
| GotoFix.CollectFunctions | tools/fix_recomp_labels.py:31-38 | the addresses of all functions of all files |
| GotoFix.CollectRanges | tools/fix_recomp_labels.py:48-67 | the functions of a file with their labels |
| GotoFix.RangesAreFunctions | tools/fix_recomp_labels.py:48-67 | everything collected is a function with exactly its labels, and every function is collected |
| GotoFix.LabelsMean | tools/fix_recomp_labels.py:70-76 | the labels that a goto may name, in upper case, are those that some line of its function declares, and going to one leads to such a line; outside functions there are none |
| GotoFix.FixFile | tools/fix_recomp_labels.py:69-97 | the in-place rewriting |
| GotoFix.FixKeepsRoles | tools/fix_recomp_labels.py:48-97 | functions, ends and labels stay what they were, line for line |
| GotoFix.NoneUndeclared | tools/fix_recomp_labels.py:70-97 | afterwards no goto names a label that its function does not declare, in upper case as the script compares them; the line count is the same |
| GotoFix.OthersUnchanged | tools/fix_recomp_labels.py:70-97 | exactly the gotos to undeclared labels are changed |
| GotoFix.Idempotent | tools/fix_recomp_labels.py:17 | a second pass changes nothing, and collects the same functions |
| GotoLabels.LabelsSpelled | tools/fix_recomp_labels.py:63-66 | the labels compared with are the upper-case forms of those that the function declares |
| GotoLabels.LeftOver | tools/fix_recomp_labels.py:79-88 | exactly which gotos name no label, as spelled, after the rewriting: those that name none before, and whose label is declared in another case |
| GotoLabels.UpperCaseIsEnough | tools/fix_recomp_labels.py:79-88 | with labels and gotos in upper case every goto that is left names a label of its function |
| GotoLabels.OtherCase | tools/fix_recomp_labels.py:79-88 | a function with a label in upper case and a goto to it in another: the goto is left, and names nothing |
| GotoFix.FlowKept | tools/fix_recomp_labels.py:13-15 | a rewritten goto does what it meant, under its condition; it is a tail call exactly when the address was collected, else a trap |
| GotoFix.TailCallNames | tools/fix_recomp_labels.py:24-38 | a tail call is written exactly when some definition has the address, and names a defined function as spelled exactly when one of its definitions is spelled in upper case |
| GotoFix.UpperCaseNames | tools/fix_recomp_labels.py:24-38 | with all definitions in upper case every tail call names a defined function |
| GotoFix.LowerCaseName | tools/fix_recomp_labels.py:24-38 | a function defined with lower-case digits and a goto to it: the tail call names nothing that is defined |
| GotoFix.TraceKept | tools/fix_recomp_labels.py:13-15 | every run of the rewritten file, from any line and for any outcome of the conditions, is that of the original, with labels compared as the script does |
| GotoText.GotoLaw | tools/fix_recomp_labels.py:26-27 | a line is read as a goto if and only if it is an indent, perhaps `if (...)`, `goto loc_`, hex digits, `;` and blanks, with exactly these parts |
| GotoText.FuncLaw | tools/fix_recomp_labels.py:24 | a line is read as a function if and only if it begins with `DEFINE_REX_FUNC(sub_`, these digits, `)`, blanks and `{` |
| GotoText.LabelLaw | tools/fix_recomp_labels.py:25 | a line is read as a label if and only if it begins with `loc_`, these digits and `:` |
| GotoText.RewrittenSays | tools/fix_recomp_labels.py:82-94 | what a goto to an undeclared label becomes, read as text: under the same condition, the name before the bracket is `sub_` and the address when some line of the files defines it, with `ctx, base` and then `return;`, else a trap that names the address |
| GotoText.CalledIsDefined | tools/fix_recomp_labels.py:82-83 | that name is the defined name of a line of the files if and only if one of the definitions of the address is spelled in upper case |
| GotoText.OthersSay | tools/fix_recomp_labels.py:70-81 | every other line stays as it is |
| Mappings.DropOutside | tools/fix_recomp_labels.py:127-135 | exactly the lines that are no entry, or an entry of the module, in order, and how many went |
| Mappings.ExactlyTheseStay | tools/fix_recomp_labels.py:127-135 | every line that stays is there as often as before, every other is gone |
| Mappings.FilteredConcat | tools/fix_recomp_labels.py:127-135 | the filter keeps the order: it works part by part |
| Mappings.FilteredTwice | tools/fix_recomp_labels.py:127-135 | afterwards every entry is of the module, and filtering again changes nothing |
| Mappings.AllRegistered | tools/fix_recomp_labels.py:105-112 | no line that is left and reads as an entry stops the registration loop: all are registered, all in the module's range |
| Mappings.EndMarkStays | tools/fix_recomp_labels.py:108-112 | an entry of address 0 is dropped, the table's end mark stays |
| Mappings.CommentedStays | tools/fix_recomp_labels.py:116 | a line that ends in anything but a brace, a comma or blanks, as an entry with a comment does, is not read as an entry, and stays |
| MappingText.EntryRead | tools/fix_recomp_labels.py:116 | every line that is read as an entry is one, part by part, and its address is the value of its digits |
| MappingText.EntryLaw | tools/fix_recomp_labels.py:116 | and every such line is read as one, with that address |
| MappingText.StaysLaw | tools/fix_recomp_labels.py:128-134 | a line stays if and only if it is no entry, or one whose address is in the module |
| MappingText.ValueLaw | tools/fix_recomp_labels.py:130 | the value of hex digits, digit by digit in either case |

## Left out

- Tiling.MachineAddress: surfaces whose size needs more than 32 bits; `Fits` is the bound.
- Decoder.DecodeBytesToRGBA: textures whose number of blocks, texels or tiled bytes wraps in 32 bits (`Decodable`); the caller's buffer must hold what is read (`Readable`), which the source reads unchecked.
- Pm4.FlatRunsTheSame: for buffers made of whole packets that, but for calls of buffers, carry the operands their handlers read; a buffer cut inside a packet goes on into whatever follows its call.
- CommandProcessor.Gpu.ExecutePM4: the words of the stream do not change while it runs, so register writes, fences and interrupts never hit it; an interrupt is a logged event, not guest code.
- CommandProcessor.Gpu.ExecuteCommand: the probes behind `REX_*` variables, and so WAIT_REG_MEM and IM_LOAD_IMMEDIATE, which do nothing without them.
- Pump.VblankPump.Consume: the vblank and completion interrupts of the same turn; the ring and the write-back address are taken as set from the start.
- Pump.VblankPump.ExecuteRing: pointers whose byte address passes 2^32 (`InMemory`).
- Pump.OnePass: kicks on packet boundaries, of less than a ring, with no packet across the ring's end; `Pump.KickSkipsRings` says what a longer kick runs.
- FrameShadow.Shadow.WalkAll: directories in the last two words of the address space, and the reports printed per draw.
- Scheduler.SemaphoreConserved: events set on a semaphore, objects initialised again while in use, and the 64 handles to which a wait by handle is cut; limits are stored but never enforced, so they play no part.
- Scheduler.ReturnsHolding: condition variables are taken to wake a waiter whose predicate holds, and time is any step; fair mode only, since without the token releases read the old count outside the lock.
- GuestHeap.RunKeeps: null result pointers, which only fail the call; a block counts with its size in units of 16 even where the source's sum wraps.
- ThreadList.ThreadTable.constructor: the words of the slot bitmap are given (`Tls` computes them), and the title's optional headers are read already.
- ThreadList.ThreadTable.CreateGuestThreadContext: arenas above their limit, and copies of a template that leave the 4 GiB of guest memory (`TemplateInMemory`).
- Dispatch.DispatchTable.Populate: mappings whose store would miss the table and its slack, which the source would write outside the allocation.
- Dispatch.TableReplacesSearch: at addresses that are not 4-aligned, where the table reads across two slots and the search finds nothing.
- Text.EscapeRoundTrip: the reader does not join escaped surrogate pairs; the writer never writes them.
- Stfs.PathOf: entries' names are given; parsing of table entries, extraction to disk, and fragmented files, whose chain following the source leaves unimplemented.
- GotoFix.FixFile: reading and writing files, whitespace outside Latin-1, and the third, fourth and sixth fixes of the script, which are literal edits of one title's code.
- Mappings.AllRegistered: lines that a compiler reads as an entry and the script's pattern does not (`Mappings.CommentedStays`).
- Mappings.DropOutside: how the module's bounds are read from the header; they are given.
- Vulkan, SDL and ImGui code, the file system, audio and the title's other kernel calls: I/O and foreign calls.
- The text raster, capture and census probes of the kernel: heuristics over guest code that is not part of this model.
- The fence-forwarding stopgaps of the kernel: declared temporary in the source.
