# Verified models of the overlay loader, the save stack, the DMA manager and the build tools

A Dafny model of the logic of this Nintendo 64 game and of the tools that build it, with proofs.  Nothing here
runs the game or the tools; `dafny verify dfyconfig.toml` checks every proof.

| files | what they model |
|---|---|
| `MipsWords`, `Overlay`, `OverlayProof`, `OverlayLuis`, `OverlayTheorems`, `OverlayTwice`, `OverlayPacked` | the overlay relocator: a closed form of its run, the course of every LUI, what every pointer, jump and HI/LO pair becomes, once for decoded entries and once from the bits of the packed table, and relocation as an action of the displacement |
| `Bytes`, `Eeprom`, `SaveImage`, `EepromThread` | the save stack: the write-through EEPROM cache, the two-copy save image and its behaviour under loss of power, and the conversation of client and worker thread |
| `Dma`, `DmaQueues` | the DMA manager: one request from probe to reply, and the two queues under any number of clients |
| `ButtonCombo` | the crash handler's button code |
| `AsmBudget`, `AsmEmit`, `AsmBlock`, `LateRodata`, `SymbolMerge` | asm-processor: budgeting and emitting late rodata, moving it in the object, and merging symbol tables |
| `ElfFormat`, `ElfFile`, `ElfBytes`, `ElfParsed`, `ElfLayout`, `ElfReread`, `ElfAgain`, `ElfKept`, `ElfObject` | asm-processor's ELF reader and writer |
| `ArchiveText`, `Archive`, `ArchiveBuild`, `ArchiveRead`, `ArchiveExact`, `ArchivePatch`, `ArchivePatchRead` | the `ar` archiver and the patcher of archive headers |
| `StackCheck` | the registry of thread stacks |
| `Matrix`, `MatrixInPlace` | the in-place matrix routines, over real numbers |

Each imperative piece of the source is a method or a class proved against a specification function, and the
promises are lemmas about that function.  Where the source does not keep a promise, the model follows the code:
the exact condition under which the promise holds is proved, in both directions, and a concrete case is given
where it is short.

- The relocator checks a low half against the LUI as it stands, which an earlier pair may already have moved.  In
  two corners of the 16 MiB it then leaves a pair alone that should move (`OverlayTheorems.PairMoves`,
  `OverlayTheorems.SharedLuiNotMoved`).
- A LUI that the table announces again after one of its low halves was patched is moved once more by the next one
  (`OverlayTheorems.AnnouncedTwiceMovesTwice`); `OverlayTheorems.PairMoves` has the exact condition.
- A button code that is begun while another is in progress goes unheard (`ButtonCombo.FalseStart`), so that a code
  is heard exactly if it begins while none is in progress (`ButtonCombo.ComboIsTheCode`).
- Two saves in a row that lose power can lose all data: exactly if the first was writing its second copy, the second
  its first copy, and no checksum collides (`SaveImage.TwoLosses`).
- Placeholder values whose lower half is 0 are emitted, against the comment in the source, because the counter is
  compared after the value was packed (`AsmBudget.LuiValueAppears`, `AsmBudget.HexValues`).
- The ELF writer does not write the contents of sections of type SHT_NULL (`ElfKept.NullFileLost`); files come back
  whatever those sections hold exactly if they hold nothing (`ElfKept.ComesBackWhateverNull`).
- An archive does not come back from its image when a number is too wide for its field, or a name looks like something
  else to the reader (`ArchiveExact.RoundTripExactly`, `ArchiveExact.SlashLost`).
- More than ten clients with one request each can bring the DMA manager to a standstill, and ten or fewer cannot
  (`DmaQueues.StallsExactly`).
- Removing a stack entry that is not the last leaves its successor's back link behind, so that the successor can
  no longer be removed (`StackCheck.Registry.CleanupListed`, `StackCheck.Registry.CleanupNeighbours`); emptying the
  list keeps its end (`StackCheck.Registry.InitAfterNone`).

## Model

| member | source | states |
|---|---|---|
| `MipsWords.HighKeepsRegister` | src/main/O2/loadfragment2.c:130-131 | Patching a LUI keeps its opcode and register, exactly unless the rounded high half overflows into a clear bit (addresses from 0xFFFF8000 on) |
| `MipsWords.PatchedPair` | src/main/O2/loadfragment2.c:129-132 | After a pair is patched, the sign-extending sum of its halves is exactly the address it was patched with: the carry correction is right for all words |
| `MipsWords.JumpMoves` | src/main/O2/loadfragment2.c:99-101 | A patched jump keeps its opcode, and lands on the moved address if and only if the displacement is a multiple of 4 and the address stays in 0x80000000..0x8FFFFFFF |
| `MipsWords.UnpatchedPair` | src/main/O2/loadfragment2.c:128-136 | A low half left unpatched under a LUI that was moved still denotes the moved address if and only if the displacement is a multiple of 64 KiB |
| `MipsWords.GuardNear` | src/main/O2/loadfragment2.c:128 | What the range check sees for a low half under a LUI that holds any value near the 16 MiB: it accepts exactly those that stay inside with that high half, which leaves out two corners, 0x8000 with a negative and 0x8100 with a positive low half |
| `Overlay.PatchLowAndLui` | src/main/O2/loadfragment2.c:124-136 | One LO16 in place: the LUI word, the low word and the register tables become those of the abstract step, shared or repeated LUIs included |
| `Overlay.Relocate` | src/main/O2/loadfragment2.c:79-138 | One entry of any type, in place, on the image and the two register tables |
| `Overlay.DoRelocation` | src/main/O2/loadfragment2.c:43-140 | The loop over the table leaves the image of the abstract run, word for word |
| `OverlayProof.RunProgress` | src/main/O2/loadfragment2.c:71-139 | Closed form of a run over a well-formed table, with LUIs shared, interleaved or announced again: every word after k entries is given from the original image and the LUI as last announced, and the register tables hold the last LUIs |
| `OverlayProof.WellFormedIsDefined` | src/main/O2/loadfragment2.c:71-139 | A well-formed table never makes the loader leave the image or use a LUI that was not announced |
| `OverlayLuis.LuiKeepsUpper` | src/main/O2/loadfragment2.c:117-132 | However often it is patched, a LUI keeps opcode and register as long as its own low halves are in range |
| `OverlayLuis.LuiSettles` | src/main/O2/loadfragment2.c:117-132 | The course of a LUI whose low halves agree, entry by entry: as linked before the first, as agreed after it, and moved beyond exactly from the first late low half that the check lets through |
| `OverlayLuis.LuiEnds` | src/main/O2/loadfragment2.c:117-132 | So it ends as agreed if and only if there is no such low half, or it did not have to move |
| `OverlayLuis.AppliedIffAccepted` | src/main/O2/loadfragment2.c:124-132 | A low half passes the check, which reads the LUI as it then stands, if and only if a condition on its original word and on its own LUI's new high half holds |
| `OverlayTheorems.PairWords` | src/main/O2/loadfragment2.c:117-132 | Both words of a HI/LO pair after the whole run, for interleaved and shared pairs; only the low halves of its own LUI have to agree and be in range |
| `OverlayTheorems.PairMoves` | src/main/O2/loadfragment2.c:117-132 | A pair whose LUI's low halves agree decodes to its address plus the displacement if and only if its own low half is accepted and no low half announced late moves the LUI once more |
| `OverlayTheorems.FieldsKept` | src/main/O2/loadfragment2.c:84-132 | Opcodes, registers and every word without an entry are kept, whether or not the low halves of a LUI agree |
| `OverlayTheorems.PointersAndJumpsMove` | src/main/O2/loadfragment2.c:80-106 | Pointers move exactly if in range, jumps exactly under the alignment and region condition |
| `OverlayTheorems.SharedLuiNotMoved` | src/main/O2/loadfragment2.c:124-132 | Concrete image: all addresses in range and both low halves agreeing on the LUI, yet the second pair is not relocated, because the check reads the LUI already moved |
| `OverlayTheorems.OrderlyIsWellFormed` | src/main/O2/loadfragment2.c:71-139 | Tables that announce a LUI before its low halves, and tables whose pairs stay in range, keep the register tables right |
| `OverlayTheorems.AnnouncedTwiceMovesTwice` | src/main/O2/loadfragment2.c:117-132 | Concrete image: a LUI announced again after its first low half was patched is moved twice, and both pairs end 7 MiB below where they should |
| `OverlayTheorems.RelocateInPlace` | src/main/O2/loadfragment2.c:71-139 | Relocating to the linked address changes no word, whatever the table, regenerated LUI halves included |
| `OverlayPacked.Relocated` | src/main/O2/loadfragment2.c:66-139 | From the packed table alone, with types, sections, fields and registers as bits: what a word named by type 2, 4, 5 or 6 becomes, when a pair denotes its moved address, and that no other word changes |
| `OverlayPacked.RelocateOverlay` | src/main/O2/loadfragment2.c:43-140 | The loader, in place, does that for every table in order |
| `OverlayPacked.OnePointer` | src/main/O2/loadfragment2.c:79-100 | The smallest table that does something: one pointer |
| `OverlayPacked.EntryIs` | src/main/O2/loadfragment2.c:66-100 | Which type bits mean what, and which word a relocation names |
| `OverlayTwice.RelocateTwice` | src/main/O2/loadfragment2.c:43-140 | Relocating V to A and then A to B gives the image of V to B if and only if the direct move accepts every low half too; what is asked of the two legs is stated on the image as linked |
| `OverlayTwice.EntriesStay` | src/main/O2/loadfragment2.c:66-77 | The table names the same words wherever the image is placed |
| `OverlayTwice.SlotFromLayout` | src/main/O2/loadfragment2.c:66-77 | The target word follows from section sizes and offset alone, with 32-bit wrap-around |
| `Eeprom.TraceCount` | src/main/eepmgr.c:173-184 | A write request makes one device write for each block that differs, and no other |
| `Eeprom.TraceIsTorn` | src/main/eepmgr.c:173-184 | Every device state on the way is a prefix of new blocks and a suffix of old ones, ending in the block just written |
| `Eeprom.WriteOutcome` | src/main/eepmgr.c:152-187 | A write succeeds exactly if every differing block can be written, and then the device is the buffer; a failed one leaves new blocks before the one refused and old ones from it on |
| `Eeprom.ReadOutcome` | src/main/eepmgr.c:189-212 | A successful read returns the device contents, whatever was cached; a failed one leaves buffer and cached flag alone |
| `Eeprom.ServeKeepsValid` | src/main/eepmgr.c:152-212 | Cached implies cache equals device, kept by every request, failed ones included |
| `Eeprom.DeviceSize` | src/main/eepmgr.c:8 | The chips have 0, 64 and 256 blocks |
| `Eeprom.EepMgr.WriteThrough` | src/main/eepmgr.c:174-180 | One block: skipped if the cache has it, else written to the chip and only then to the cache |
| `Eeprom.EepMgr.WriteBlocks` | src/main/eepmgr.c:171-186 | The loop stops at the first block that differs and is refused |
| `Eeprom.EepMgr.HandleWrite` | src/main/eepmgr.c:152-187 | The class method realises the abstract write on cache, chip and the chip's history of states |
| `Eeprom.EepMgr.FillCache` | src/main/eepmgr.c:199-207 | The cache is filled from the chip up to the first block that cannot be read, and the flag stays clear on failure |
| `Eeprom.EepMgr.HandleRead` | src/main/eepmgr.c:189-212 | The class method realises the abstract read on cache, flag and buffer |
| `SaveImage.BlocksRoundTrip` | include/eepmgr.h:7-13 | A copy of the save data cut into 8-byte blocks and put together again is the same |
| `SaveImage.LoadAfterSave` | src/main/O2/65520.c:493-525 | A load from a completed save gives the saved data |
| `SaveImage.IntactIs` | src/main/O2/65520.c:514-519 | A copy is taken for intact if and only if it is the copy of its own data: checksum in the two bytes behind them, then the bytes 81 31 75 31 |
| `SaveImage.LoadIs` | src/main/O2/65520.c:507-525 | A load gives the data of the first half of the chip that is the copy of some data, and nothing exactly if neither half is |
| `SaveImage.TornFirst` | src/main/O2/65520.c:493-505 | A half-written first copy, over any contents, holds mixed data, and is taken for intact if and only if what stood behind the old data suits the mixture |
| `SaveImage.WholeCopies` | src/main/O2/65520.c:493-505 | The second copy is old until the first is complete, and the first is new from then on |
| `SaveImage.SaveOverAnything` | src/main/O2/65520.c:493-525 | Over any chip contents and after any number of blocks, what a load gives: the new data, a mixture that suits the old checksum, the second copy if it was intact, or nothing |
| `SaveImage.SaveIsAtomic` | src/main/O2/65520.c:493-525 | After any number of blocks a load succeeds, and gives old or new data if and only if the torn first copy is not a checksum collision with other data |
| `SaveImage.PowerLoss` | src/main/O2/65520.c:493-525 | Every state that the EEPROM manager's own writes pass through, over any contents and with failing blocks, is some number of blocks of the save over the old contents |
| `SaveImage.TwoLosses` | src/main/O2/65520.c:493-525 | Two saves in a row cut short lose all data if and only if the first was writing its second copy, the second its first copy, and neither mixture suits its checksum |
| `SaveImage.SaveSlot.Fill` | src/main/O2/65520.c:494-497 | The buffer holds two copies of data, checksum and magic number |
| `SaveImage.SaveSlot.Save` | src/main/O2/65520.c:493-505 | Saving drives the write-through manager with the two copies and reports its status |
| `SaveImage.SaveSlot.Load` | src/main/O2/65520.c:507-525 | Loading takes the first half that is a copy, else the second, and returns 1 exactly if neither is, or the chip cannot be read |
| `EepromThread.RunInv` | src/main/eepmgr.c:214-297 | The invariant of client, worker and both queues holds in every state of every interleaving |
| `EepromThread.Conversation` | src/main/eepmgr.c:214-297 | At most one request is outstanding, replies arrive in order with the statuses of their own operations, the one-slot reply queue never blocks the worker, and the worker never ends by reading a cleared or reused type |
| `EepromThread.ConversationMeans` | src/main/eepmgr.c:152-297 | Over every run: a reply of 0 to a write means that a read had succeeded before and every differing block could be written, and then the chip holds the buffer; a refused write leaves it torn at the first refused block; reads leave it alone and, with 0, fill the client's buffer from it; the cached flag is set exactly by a successful read |
| `EepromThread.ServeAnswers` | src/main/eepmgr.c:152-212 | The same of one request |
| `EepromThread.SomeStep` | src/main/eepmgr.c:229-296 | A request under way never stalls |
| `EepromThread.EveryStepCounts` | src/main/eepmgr.c:229-296 | Every step of either thread brings the reply nearer, so that every schedule delivers it |
| `Dma.DmaManager.StartDma` | src/main/dmamgr.c:37-43 | A transfer copies the ROM slice and changes no other byte; it posts a token only if asked to |
| `Dma.DmaManager.Read` | src/main/dmamgr.c:30-44 | Chunked reading copies exactly the ROM slice, for any chunk size, and posts one token |
| `Dma.DmaManager.Start` | src/main/dmamgr.c:77-82 | Descriptor and token of a read are queued together |
| `Dma.DmaManager.Advance` | src/main/dmamgr.c:48-84 | What the probed header calls for: raw read, compressed read into the given or a new buffer, or failure to allocate, each with its whole effect |
| `Dma.DmaManager.Inflate` | src/main/dmamgr.c:102-103 | The decompressed payload replaces the front of the destination and no more |
| `Dma.DmaManager.Serve` | src/main/dmamgr.c:93-111 | One round of the manager thread: either another read or the reply, with buffers freed exactly if they were allocated here |
| `Dma.DmaManager.RequestSync` | src/main/dmamgr.c:114-148 | A synchronous request takes one round if smaller than a header of 16 bytes and otherwise two, leaves RAM equal to the ROM slice or, behind "CMPR" and a length with its high byte first, to the decompressed payload, and frees its own buffer exactly once; it is answered if and only if no refused allocation was needed |
| `DmaQueues.QueuesFit` | src/main/dmamgr.c:9-12 | With at most ten clients, tokens and running transfers never outnumber descriptors |
| `DmaQueues.RunInv` | src/main/dmamgr.c:30-148 | The counting invariant holds in every state of every interleaving of at most ten clients |
| `DmaQueues.QueuesAreSafe` | src/main/dmamgr.c:77-97 | After taking a token the manager never waits for a descriptor, no token is lost, and its own re-send never blocks, for every run of at most ten clients |
| `DmaQueues.NeverStalls` | src/main/dmamgr.c:93-148 | With at most ten clients some step other than a new request is possible until all are answered or dropped |
| `DmaQueues.CrowdDeadlock` | src/main/dmamgr.c:9-12 | Any number of clients beyond ten can reach a state without any step, every one of them waiting for ever |
| `DmaQueues.StallsExactly` | src/main/dmamgr.c:9-12 | n clients can come to a standstill if and only if n is more than ten |
| `ButtonCombo.WaitButtonCombo` | src/main/fault.c:365-521 | The polling loop ends at the first poll at which the automaton reaches 11, and not before |
| `ButtonCombo.RunIsHeard` | src/main/fault.c:380-520 | Only polls with a new press and the releases between them matter |
| `ButtonCombo.HearTells` | src/main/fault.c:388-518 | One press in the middle of a code: it is the next letter, it opens a new code, or the state falls to 0 |
| `ButtonCombo.Sound` | src/main/fault.c:380-520 | Soundness: every state reached is accounted for by the presses since the last accepted Z |
| `ButtonCombo.Complete` | src/main/fault.c:380-520 | Completeness: a code begun while no other is in progress is always accepted |
| `ButtonCombo.InTimeIs` | src/main/fault.c:505-511 | How long fifty seconds are, in cycles of the clock, for all clocks |
| `ButtonCombo.FiftySecondsIs` | src/main/fault.c:505-511 | And in seconds |
| `ButtonCombo.FreeIsReady` | src/main/fault.c:388-518 | The automaton is ready to open a code if and only if no earlier Z that could open one has its code in progress or complete: the state in terms of the presses alone |
| `ButtonCombo.ComboIsTheCode` | src/main/fault.c:365-521 | The loop ends if and only if the presses contain the ten-step code, spelled without interruption, in time, from a Z that came when no code was in progress; all of it stated on the presses |
| `ButtonCombo.FalseStart` | src/main/fault.c:393-408 | After a false start of two presses, a complete and correct code goes unheard |
| `SymbolMerge.FromCompiled` | tools/asm-processor/asm_processor.py:1237-1238 | All compiled symbols but the first and the temporary ones are candidates, in their order |
| `SymbolMerge.FromAssembled` | tools/asm-processor/asm_processor.py:1240-1273 | Exactly the assembled symbols to carry over are candidates, each with its name, binding, section and value as they are in the compiled object; the merge is refused exactly for a needed temporary symbol, or one whose section has no home or whose late rodata was not moved |
| `SymbolMerge.PlacedIs` | tools/asm-processor/asm_processor.py:1248-1273 | Where an assembled symbol goes, and when there is no place for it |
| `SymbolMerge.Deduplicate` | tools/asm-processor/asm_processor.py:1323-1345 | Fails if and only if candidates clash; otherwise one survivor per name, and every other candidate is undefined and replaced by it |
| `SymbolMerge.ClashSorted` | tools/asm-processor/asm_processor.py:1322-1345 | In the order of definedness, candidates clash exactly if one name is defined twice, a local one is undefined, or a global one has no name |
| `SymbolMerge.SortedKeeps` | tools/asm-processor/asm_processor.py:1323-1350 | Both sorts are stable |
| `SymbolMerge.TableIsWellFormed` | tools/asm-processor/asm_processor.py:1347-1358 | Null symbol first, local entries exactly the first sh_info, `_gp_disp` last of its half, defined symbols before undefined ones and otherwise the order of the tables; no non-empty name twice |
| `SymbolMerge.CandidateMeans` | tools/asm-processor/asm_processor.py:1353-1356 | The number given to a candidate leads to an entry of the same name that is its definition if there is one |
| `SymbolMerge.Number` | tools/asm-processor/asm_processor.py:1353-1356 | New numbers: an entry's own place, and its survivor's for a replaced symbol |
| `SymbolMerge.Reindex` | tools/asm-processor/asm_processor.py:1366-1376 | Relocations get the new numbers of their symbols, or fail exactly for a symbol without one |
| `SymbolMerge.MergeSymbols` | tools/asm-processor/asm_processor.py:1219-1408 | Fails exactly as stated; otherwise the table is determined in order and contents, every carried symbol has the section and value that its place moved to, and every relocation of either object keeps its meaning |
| `SymbolMerge.NamesSurvive` | tools/asm-processor/asm_processor.py:1219-1318 | Every entry names itself in the concatenated strings; a static is found under its emitted name, with the file in front where that is asked for |
| `LateRodata.Find` | tools/asm-processor/asm_processor.py:1190 | The first occurrence from a position on, or none |
| `LateRodata.PlaceWordKeepsInv` | tools/asm-processor/asm_processor.py:1203-1206 | A placed word keeps order, places and earlier words, and every byte that no moved word and no cleared placeholder covers |
| `LateRodata.MovePlaceholder` | tools/asm-processor/asm_processor.py:1187-1206 | One placeholder, double-alignment shift included: the step of the specified track, and failure exactly if it fails |
| `LateRodata.MoveTable` | tools/asm-processor/asm_processor.py:1207-1216 | A jump table follows its function's last placeholder, its words adjacent |
| `LateRodata.MoveFunction` | tools/asm-processor/asm_processor.py:1186-1216 | All of a function's words, then its table; fails exactly if a placeholder is missing or the table has none before it |
| `LateRodata.AfterWordIs` | tools/asm-processor/asm_processor.py:1190-1206 | One step of the track, said of the bytes: first place of the placeholder, or one word on |
| `LateRodata.FunctionsGoHome` | tools/asm-processor/asm_processor.py:1175-1217 | Whatever the track moves is home |
| `LateRodata.StuckFails` | tools/asm-processor/asm_processor.py:1190-1208 | A missing placeholder, or a table without one, makes it fail |
| `LateRodata.FailsStuck` | tools/asm-processor/asm_processor.py:1190-1208 | And it fails for no other reason |
| `LateRodata.MoveLateRodata` | tools/asm-processor/asm_processor.py:1175-1217 | Fails exactly if the sizes disagree, or some placeholder is not to be found behind the words before it, or a table has no placeholder; otherwise every word is on the first place of its own placeholder behind the word before (on the zero word behind that for a float pushed off by double alignment), tables follow their last word, every moved word equals its source word, and every other byte stays, but for the placeholders pushed off, which are zero |
| `LateRodata.MovedApart` | tools/asm-processor/asm_processor.py:1184-1216 | Different source words never share a byte of the target, and keep their order |
| `AsmBudget.HexValues` | tools/asm-processor/asm_processor.py:453-459 | The placeholder values that appear: the first, and every later one that does not end in 0001 |
| `AsmBudget.LuiValueAppears` | tools/asm-processor/asm_processor.py:453-459 | A value with an empty lower half, which the counter is meant to avoid, is emitted: the comparison comes after the value is packed |
| `AsmBudget.GlobalState.NextLateRodataHex` | tools/asm-processor/asm_processor.py:453-459 | The next placeholder value, or failure once values do not fit 32 bits |
| `AsmBudget.PlanLateRodata` | tools/asm-processor/asm_processor.py:707-774 | Four bytes for each placeholder plus the jump table make the section size, the placeholder values are successive values of the counter, floats, doubles and table are chosen exactly where they fit, and the instructions are those the statements cost |
| `AsmBudget.DoublesAligned` | tools/asm-processor/asm_processor.py:753-763 | Every double that is planned starts at a multiple of 8 |
| `AsmBudget.TableIsLast` | tools/asm-processor/asm_processor.py:737-748 | A jump table is the last statement and never the first |
| `AsmEmit.RunKeepsInv` | tools/asm-processor/asm_processor.py:796-826 | The emitter's invariant holds after any run, with its splits, skips and fillers |
| `AsmEmit.EmissionIsFaithful` | tools/asm-processor/asm_processor.py:782-843 | The plan fits if and only if it and the skipped instructions are no more than the block has; then every slot is emitted once and in order, and every generated function has at least the minimum of instructions and at most 112 more than that |
| `AsmEmit.RoomForPlan` | tools/asm-processor/asm_processor.py:796-834 | A condition known before: a plan that fits leaves room for one prelude, and one that leaves room for as many preludes as there can be functions fits; for blocks too short to be split these are the same |
| `AsmEmit.BlanksFollow` | tools/asm-processor/asm_processor.py:798-830 | All blank slots of a statement follow it at once, in the same generated function, with no skip or filler between |
| `AsmEmit.EmissionIs` | tools/asm-processor/asm_processor.py:798-826 | Every token of a block, from the tokens before it: when a function is split, which instructions are skipped, with the prelude only while slots are left, which slot comes next, and fillers after the last |
| `AsmBlock.NoteInstrs` | tools/asm-processor/asm_processor.py:582-592 | Noted instructions add up, and stay in the order of their lines |
| `AsmBlock.GlobalAsmBlock.Align4` | tools/asm-processor/asm_processor.py:578-580 | Pads to the next multiple of 4 and no further |
| `AsmBlock.GlobalAsmBlock.AddSized` | tools/asm-processor/asm_processor.py:582-592 | Sizes are counted, and refused, as the sections demand |
| `AsmBlock.GlobalAsmBlock.Instruction` | tools/asm-processor/asm_processor.py:594-688 | A line with an instruction counts four bytes on its own line, and is refused exactly outside text or before the first label |
| `AsmBlock.GlobalAsmBlock.SettleAlignment` | tools/asm-processor/asm_processor.py:637-649 | The first doubles in late rodata settle where the section starts, modulo 8; later ones must agree, or are refused |
| `AsmBlock.GlobalAsmBlock.AddDoubles` | tools/asm-processor/asm_processor.py:635-651 | Doubles in late rodata start at multiples of 8 under the alignment that is assumed, which the first ones settle, or are refused; elsewhere they are padded to 4 bytes and counted |
| `AsmBlock.GlobalAsmBlock.EmitLines` | tools/asm-processor/asm_processor.py:794-830 | The lines of the generated C, read from top to bottom, are exactly what the emitter produced, and each line stands for the instructions that were noted for it |
| `AsmBlock.GlobalAsmBlock.Finish` | tools/asm-processor/asm_processor.py:699-843 | Plan and lines of a whole block; too short and too full are raised exactly when the plan says so, and otherwise the lines are what the emitter produces from it |
| `ElfFormat.PackRoundTrip` | tools/asm-processor/asm_processor.py:88-97 | Unpacking what was packed gives the values back, in either byte order |
| `ElfFormat.UnpackRoundTrip` | tools/asm-processor/asm_processor.py:88-97 | Packing what was unpacked gives the bytes back |
| `ElfFile.Pad` | tools/asm-processor/asm_processor.py:387-389 | Padding ends at the next multiple; an alignment of 0 asks for none |
| `ElfBytes.HeaderBytes` | tools/asm-processor/asm_processor.py:131-135 | Every field of the file header stands at its offset, in the byte order of the file |
| `ElfBytes.SectionBytes` | tools/asm-processor/asm_processor.py:237-240 | The same of section headers |
| `ElfParsed.ReadIs` | tools/asm-processor/asm_processor.py:120-353 | From the bytes alone: which files the reader accepts (identification, header fields, section flags and entries, the one symbol table), what it makes of each, also of a section cut short and of a header that leaves the count of sections to the first one; it fails exactly if the bytes say no such file |
| `ElfBytes.MdebugBytes` | tools/asm-processor/asm_processor.py:286-324 | Debug data can be moved exactly if it starts with its magic number and every offset stays within 32 bits; then the eleven offsets, at bytes 12, 20 and so on to 92, are moved, and no other byte changes |
| `ElfBytes.MovedIs` | tools/asm-processor/asm_processor.py:394-402 | Only a section of type SHT_MIPS_DEBUG that is put somewhere else is changed by it, in that way |
| `ElfBytes.StoredIs` | tools/asm-processor/asm_processor.py:394 | Which sections have contents in the file |
| `ElfLayout.PlaceLaid` | tools/asm-processor/asm_processor.py:394-402 | Sections are laid out in order, aligned and apart, and the output holds their contents |
| `ElfLayout.WrittenLayout` | tools/asm-processor/asm_processor.py:379-410 | In a written file every section lies at an aligned offset behind the header and before the section headers, and holds its contents |
| `ElfLayout.WrittenApart` | tools/asm-processor/asm_processor.py:394-402 | Stored sections do not overlap |
| `ElfReread.SectionReadBack` | tools/asm-processor/asm_processor.py:204-240 | A printed section header is read back as itself |
| `ElfReread.WrittenReads` | tools/asm-processor/asm_processor.py:326-353 | Whatever is written can be read, section by section |
| `ElfReread.RoundTrip` | tools/asm-processor/asm_processor.py:326-410 | Reading a written file gives what the writer was left with if and only if the contents of every section of type SHT_NULL, which are not written, still stand at its old offset |
| `ElfReread.EmptyNullRoundTrip` | tools/asm-processor/asm_processor.py:326-410 | So always if those sections are empty |
| `ElfReread.SmallestWrites` | tools/asm-processor/asm_processor.py:326-410 | The conditions of the round trip can be met: a smallest file |
| `ElfReread.ReadIsReadable` | tools/asm-processor/asm_processor.py:326-353 | What was read without a section cut short can be written and read again |
| `ElfAgain.MdebugMoves` | tools/asm-processor/asm_processor.py:286-324 | The unpacked header of moved .mdebug data is the shifted one, and what follows it is unchanged |
| `ElfAgain.MdebugMovesBack` | tools/asm-processor/asm_processor.py:286-324 | Moving it back restores it |
| `ElfAgain.WriteAgain` | tools/asm-processor/asm_processor.py:379-410 | Writing what was written gives the same bytes, and moves nothing |
| `ElfKept.WriteKeeps` | tools/asm-processor/asm_processor.py:379-410 | What the writer is left with is the file that it was given: only offsets and sizes are updated, and the contents of a .mdebug section that moved |
| `ElfKept.ComesBackIff` | tools/asm-processor/asm_processor.py:326-410 | So a file comes back, its sections with their own contents, if and only if what is read is what the writer was left with |
| `ElfKept.NullNotWritten` | tools/asm-processor/asm_processor.py:394-402 | Files that differ only in the contents of sections of type SHT_NULL are written to the same bytes |
| `ElfKept.ComesBackWhateverNull` | tools/asm-processor/asm_processor.py:326-410 | All files that differ only in those contents come back if and only if those sections are empty |
| `ElfKept.NullFileLost` | tools/asm-processor/asm_processor.py:326-410 | Concrete file with one byte in such a section: it can be written and read, and the byte is lost |
| `ElfObject.ObjectFile.WriteContents` | tools/asm-processor/asm_processor.py:394-402 | The loop over the sections lays them out as specified and updates their offsets |
| `ElfObject.ObjectFile.WriteHeaders` | tools/asm-processor/asm_processor.py:404-407 | The loop over the section headers writes the table and updates the sizes |
| `ElfObject.ObjectFile.Write` | tools/asm-processor/asm_processor.py:379-410 | The whole writer, and the state it leaves the object in |
| `ElfObject.ReadObject` | tools/asm-processor/asm_processor.py:326-346 | The whole reader: it gives what the bytes say, and fails exactly if they say no file that is accepted |
| `ArchiveText.NumberField` | lib/ultralib/tools/ar.py:81-88 | A number printed into a wide enough field is parsed as itself, in octal and decimal |
| `Archive.HeaderRoundTrip` | lib/ultralib/tools/ar.py:187-194 | A printed member header is read back as itself |
| `Archive.LongNameFound` | lib/ultralib/tools/ar.py:136-151 | A long name is found at its offset in the name table, past the extra line after the first name |
| `Archive.ArmapUpdate` | lib/ultralib/tools/ar.py:166-169 | Overwriting one entry of the symbol map changes that entry alone |
| `Archive.BuiltPatch` | lib/ultralib/tools/ar.py:90-171 | Images with symbol maps of one size differ in the map alone |
| `ArchiveBuild.CollectSymbols` | lib/ultralib/tools/ar.py:105-113 | Symbol names and their defining members, in order |
| `ArchiveBuild.CollectNames` | lib/ultralib/tools/ar.py:132-151 | Name table and header names, for short and long names |
| `ArchiveBuild.BuildImage` | lib/ultralib/tools/ar.py:65-171 | The back-patched image is the one specified outright, or fails exactly if it is not encodable |
| `ArchiveBuild.OwnersDefine` | lib/ultralib/tools/ar.py:105-113 | Map entry and name go together: the member owns the symbol |
| `ArchiveBuild.ArmapPointsHome` | lib/ultralib/tools/ar.py:97-169 | Every entry of the symbol map holds the offset of the header of the member that defines the symbol |
| `ArchiveRead.FromImage` | lib/ultralib/tools/ar.py:179-261 | The cursor loop reads what the specification reads, or fails with it |
| `ArchiveRead.EntryDemands` | lib/ultralib/tools/ar.py:186-253 | Whatever is read as an entry has the end mark and an ASCII name, owners and mode 0 for the map and the name table, one time for both, and a name table before a long name; and what is taken from it |
| `ArchiveRead.RoundTrip` | lib/ultralib/tools/ar.py:65-261 | Reading a built image gives the same members, for names short and long, odd sizes and all fields that fit |
| `ArchiveExact.RoundTripExactly` | lib/ultralib/tools/ar.py:65-261 | For members of any names, numbers and data: what is read holds them all unchanged if and only if every number fits its field, the two tables do, no long name holds a line end, and no short name is empty or starts with white space or a slash |
| `ArchiveExact.SlashLost` | lib/ultralib/tools/ar.py:65-261 | Concrete archive of one member, whose name starts with a slash, that does not come back |
| `ArchiveExact.BuildAndRead` | lib/ultralib/tools/ar.py:65-261 | The two programs one after the other give the members back exactly under that condition |
| `ArchivePatch.FindTime` | lib/ultralib/tools/patch_ar_meta.py:23-44 | The time of the last entry of a name, or none if an entry is not framed |
| `ArchivePatch.PatchEntry` | lib/ultralib/tools/patch_ar_meta.py:54-61 | One header changes in its intended fields alone, in place |
| `ArchivePatchRead.FramedDemands` | lib/ultralib/tools/patch_ar_meta.py:27-36 | What the patcher takes for an entry has the end mark in its place and an ASCII name |
| `ArchivePatch.PatchHeaders` | lib/ultralib/tools/patch_ar_meta.py:46-65 | All headers of the archive change, and no byte of data |
| `ArchivePatch.ArPatch` | lib/ultralib/tools/patch_ar_meta.py:8-65 | Patches the array in place, or fails exactly if a time is missing or an entry is not framed |
| `ArchivePatchRead.PatchedHeader` | lib/ultralib/tools/patch_ar_meta.py:54-61 | A patched header is read as the old one with the new fields |
| `ArchivePatchRead.ReadPatched` | lib/ultralib/tools/patch_ar_meta.py:46-65 | A patched archive reads as the same names and data, with the new owners and modes |
| `ArchivePatchRead.PatchedRoundTrip` | lib/ultralib/tools/patch_ar_meta.py:8-65 | Built, patched, and read: the members are those that went in, with the new owners and modes |
| `ArchivePatchRead.TimesOfBuilt` | lib/ultralib/tools/patch_ar_meta.py:23-44 | In an archive that was built, the patcher finds the time at which it was built, for the map and for the name table |
| `StackCheck.Unsigned` | src/main/O2/stackcheck.c:86 | A minimum as the unsigned value that the comparison makes of it |
| `StackCheck.FilledIsHealthy` | src/main/O2/stackcheck.c:36-41 | A stack just filled is in order if and only if it is not empty and as large as it has to be |
| `StackCheck.NegativeMinimumWarns` | src/main/O2/stackcheck.c:86 | A negative minimum other than -1 is never met |
| `StackCheck.UntouchedElsewhere` | src/main/O2/stackcheck.c:76-82 | A stack's status depends on its own words alone |
| `StackCheck.Registry.Register` | src/main/O2/stackcheck.c:18-34 | The links that registration sets; an entry that is already last comes to follow itself |
| `StackCheck.Registry.Init` | src/main/O2/stackcheck.c:11-43 | A fresh entry is appended to a fully linked list, which stays so, and exactly its stack is filled |
| `StackCheck.Registry.InitNone` | src/main/O2/stackcheck.c:15-16 | Registering no entry empties the list but keeps its end |
| `StackCheck.Registry.InitAfterNone` | src/main/O2/stackcheck.c:15-34 | After that, a new entry is linked back to the old end |
| `StackCheck.Registry.Cleanup` | src/main/O2/stackcheck.c:45-55 | The links that removal sets, whatever they were |
| `StackCheck.Registry.CleanupListed` | src/main/O2/stackcheck.c:45-55 | The forward chain loses exactly the entry; the list stays fully linked if and only if the entry was the last |
| `StackCheck.Registry.CleanupStale` | src/main/O2/stackcheck.c:45-55 | An entry whose back link leads outside the list is not taken out |
| `StackCheck.Registry.CleanupNeighbours` | src/main/O2/stackcheck.c:45-55 | Of two neighbours taken out, the first one first, the second stays in the list |
| `StackCheck.Registry.PerformAll` | src/main/O2/stackcheck.c:11-55 | Any sequence of registrations and removals of the last entry leaves the list fully linked, with exactly the entries that are still in |
| `StackCheck.Registry.CheckOne` | src/main/O2/stackcheck.c:72-98 | The status of a stack: overflow exactly if its far end was written, and in order exactly if its untouched bytes meet the minimum |
| `StackCheck.Registry.CheckAll` | src/main/O2/stackcheck.c:58-69 | The check of all stacks ends, and returns 1 if and only if some stack in the list is not in order |
| `Matrix.CombineMul` | src/main/O2/80C50.c:378-386 | Combining by one matrix and then another is combining by their product |
| `Matrix.MulAssociative` | src/main/O2/80C50.c:23-80 | The product is associative |
| `Matrix.MulIdentity` | src/main/O2/80C50.c:4-15 | The clear matrix is its unit |
| `Matrix.ProductTransforms` | src/main/O2/80C50.c:378-386 | Transforming by a product is transforming twice, for all points and all second matrices, if and only if the first matrix is affine |
| `Matrix.MulAffine` | src/main/O2/80C50.c:23-80 | Products of affine matrices are affine |
| `Matrix.TurnBackX` | src/main/O2/80C50.c:152-177 | Turning back undoes a turn about x if and only if s*s + c*c = 1 |
| `Matrix.TurnBackY` | src/main/O2/80C50.c:125-150 | The same about y |
| `Matrix.TurnBackZ` | src/main/O2/80C50.c:98-123 | The same about z |
| `MatrixInPlace.ScaleRows` | src/main/O2/80C50.c:186-205 | Row scaling, with factors of 1 passed over, is multiplication by the scaling matrix from the left (82-96 is the case z = 1) |
| `MatrixInPlace.RotateRowsX` | src/main/O2/80C50.c:152-177 | Row rotation about x is multiplication by the rotation matrix from the left |
| `MatrixInPlace.RotateRowsY` | src/main/O2/80C50.c:125-150 | Row rotation about y likewise |
| `MatrixInPlace.RotateRowsZ` | src/main/O2/80C50.c:98-123 | Row rotation about z likewise |
| `MatrixInPlace.TranslateRows` | src/main/O2/80C50.c:209-215 | Row translation is multiplication by the translation matrix from the left (179-184 is the case z = 0) |
| `MatrixInPlace.ScaleColumns` | src/main/O2/80C50.c:217-230 | Column scaling is multiplication by the same scaling matrix from the right |
| `MatrixInPlace.RotateColumnsX` | src/main/O2/80C50.c:232-257 | Column rotation about x is multiplication by the same rotation matrix from the right |
| `MatrixInPlace.RotateColumnsY` | src/main/O2/80C50.c:259-284 | Column rotation about y likewise |
| `MatrixInPlace.RotateColumnsZ` | src/main/O2/80C50.c:286-311 | Column rotation about z likewise |
| `MatrixInPlace.TranslateRow` | src/main/O2/80C50.c:346-375 | One row: passing over last entries of 0 and 1 is sound |
| `MatrixInPlace.TranslateColumns` | src/main/O2/80C50.c:343-376 | Column translation is multiplication by the same translation matrix from the right (313-341 is the case z = 0) |
| `MatrixInPlace.MultColumn` | src/main/O2/80C50.c:29-40 | One column of the product, computed in place through four temporaries |
| `MatrixInPlace.Mult` | src/main/O2/80C50.c:23-80 | The in-place product of two different matrices is B times A |
| `MatrixInPlace.TransformPoint` | src/main/O2/80C50.c:378-386 | The point transform, also where source and destination are the same |
| `MatrixInPlace.TransformPoint2` | src/main/O2/80C50.c:388-394 | The planar transform, which leaves the third coordinate alone |
| `MatrixInPlace.ProductOrTwice` | src/main/O2/80C50.c:23-80 | Transforming by the product computed in place agrees with transforming twice |

## Left out

- Operating system calls: queues are bounded and first in, first out, a transfer copies bytes, a block write happens as a whole or not at all, and cache invalidation has no effect.
- Code that the repository only has as assembly: checksum, decompressor and allocator are parameters about which nothing is assumed, but that the allocator hands out fresh memory or refuses.
- Overlay_Load's transfer, clearing of bss and cache calls; the relocation table is taken to be separate from the words it patches.
- Overlay.DoRelocation: entries that would touch memory outside the image, or a LUI of an unset register, are excluded; the C code has no defined effect for them, and `OverlayProof.WellFormedIsDefined` says which tables avoid them.
- Bit masks and shifts of the overlay loader are written as division and remainder.
- EepromThread: setting a request's type and its buffer is one step, and so is the handling of one request.
- DMA transfers complete in the order in which they were started; the contents of memory are modelled for one request at a time.
- Dma.DmaManager.Read: how a transfer is cut into chunks leaves no trace in memory or queues, so that their size is not a part of what is proved.
- Dma.DmaManager.RequestSync: the interleaving of client and manager thread is that of a single request; `DmaQueues` has the interleavings.
- ButtonCombo.ComboIsTheCode: the elapsed time is compared in whole microseconds, where the source divides and compares floats; a newly pressed button is taken to be held.
- SymbolMerge.MergeSymbols: symbol types and sizes, which the source also marks for functions, are not part of a symbol here; the symbols found in .mdebug are an arbitrary list, and the file name that can stand before their names has no NUL; relocations are lists of symbol numbers, and where a relocation applies is left to `LateRodata`.
- LateRodata.MoveLateRodata: the section's bytes are those of the object as compiled; the copying of the other sections is not part of this model.
- AsmBlock.GlobalAsmBlock.Finish: that the placeholder values run out is told by the counter they leave behind, not by a condition on the block; the scanning of assembly lines is not part of this model, nor are the generated names and the declarations for data, rodata and bss.
- ElfFile.ReadFile: names and the decoding of symbols and relocations, which follow from the sections, are not part of this model; sections are values in the list of the object, not objects of their own, so that the links between them are not modelled.
- ElfObject.ObjectFile.Write: a file left half-written by a failure is not modelled.
- ArchiveText.ParseNat: digits only, where Python's `int` also takes signs, underscores and white space inside the padding.
- Archive member texts are ASCII, as the source's encoding demands; the symbols of a member are a list of names, where the source reads its ELF symbol table.
- ArchiveExact.RoundTripExactly: a member's recorded size is that of its data, as for every file that is added from disk.
- ArchivePatch.ArPatch: texts given by its user that are not ASCII make the source fail, and are not modelled.
- MatrixInPlace.Mult: the two arguments are different matrices; multiplying a matrix by itself in place would read columns already overwritten.
- Rounding of floats, and sine and cosine: rotations take any two numbers s and c.
- StackCheck: stacks are word-aligned regions of one memory that holds no registry entries; the colours and messages of the check are left out.
- The rest of fault.c, vimode.c, gfxprint.c, the graphics macros, pad and sleep code, the disassembly and progress scripts: rendering, tables and small helpers that would only add easy members.
