# A verified model of dos_re

dos_re runs 16-bit and 32-bit DOS programs in order to recover their source: an 8086 and a 386
interpreter, the DOS and DPMI services around them, planar video, audio and interrupt devices, and
the planning layer that decides which recovered code replaces which machine code. This project models
the parts of it whose correctness is an argument rather than a look at the code, and proves that
argument for every input or every run.

Code that changes state step by step is modelled by classes and loops, each method proved against a
specification function; what the system promises is proved about those functions.

**Fast path against exact path.** The interpreters replace machine loops by bulk operations and claim
the same end state. Modules `Blocks`, `Memory`, `EgaPlanes`, `RealModeMemory` and `StringOps` treat REP
MOVS/STOS in real mode, `PlanarVga` and `VgaDevice` the planar block copy, `FlatString`,
`FlatTransfers`, `FlatExact`, `FlatShapes`, `FlatBytes`, `FlatMachine` and `Flat386` the 386 string
instruction over RAM and planes, `LzexeCode`, `Lzexe` and `LzexeLoop` the native LZEXE decompressor against the LZ77 meaning of its
stream, expanding in place included, and `Bits`, `Shift` and `Shift386` the shifts and rotates of both
cores against the one-bit step repeated. Where a claim of exactness is false as stated, the condition
under which it holds is given and proved exact: outside it there is an input that fails. That both
paths agree does not say what they leave, so that is proved as well, byte by byte and bit by bit: which
byte of EAX or of the source stands where, which planes a store reaches under each bit of the map mask,
and what each bit of a planar write is.

**Arithmetic with carried flags.** `X86Flags`, `Arith` and `ArithUnit` model the flag helpers for any
operand width: carries, signed misfits, and PF as an even count of ones. `MultiWord` proves that ADC and SBB chains add, subtract and compare numbers of any
length, with INC and DEC of a pointer and a counter between the words; `PackedDecimal` proves the same
of ADC followed by DAA on packed decimal numbers.

**Allocator and devices.** `DosMemory` and `DosHost` (paragraph allocator), `Journal`, `JournalDevice`
and `PaletteEffects` (video journal and its classifier), `AudioQueue` and `AudioRing`, `KeyTiming` and
`Keyboard`, `Pic` and `PicDevice`, `ShadowStack`, `ShadowRun` and `ShadowObserver` (lazily unwound
call stacks) and `Observable` (the effect stream) prove invariants over every run.

**Planning and reachability.** `Planner` treats the selection of providers, the region checks and the
service closure; `PlanTerms` says in plain terms of the request what a plan has to fulfil, and
`PlanResolution` proves that the whole planning call returns a plan that does and, when identities are
unique, refuses only if there is none. `Atlas` and `Coverage` prove shortest paths and
least closed sets of the worklists.

**Loading and naming.** `LeLoader`, `LeRebase` and `LeLinker` prove what loading a Linear Executable
at another base changes, and `LeLimits` exactly when a load is refused and when the size of the memory
shows; `LeFields` says what a loaded image holds, so that every object, page and fixup is where the file
puts it. `Identity` proves that printed identity keys are injective within a program,
and says exactly when taking a key apart again gives its parts.

## Where the code and its comments disagree

The model follows the code.

- `dos_re/dos4gw.py:117-122` calls the block copy byte-exact. It loads the latches after its stores and
  the byte loop loads them before, which shows when a byte is copied onto itself in write mode 0
  (`PlanarVga.BulkCopyExact`, `PlanarVga.SelfCopyDiverges`).
- `dos_re/cpu386.py:1344-1348` promises False for every transfer the slices cannot reproduce. Only the
  two end points of a range are tested, so a range that swallows the aperture is treated as RAM; and wide
  units between planes are copied byte by byte. `FlatShapes.BulkStringExact` gives the exact condition on
  the instruction's shape and `FlatExact.InStepExact` the one on contents for the shapes that remain.
- `dos_re/cpu386.py:992-993` returns before CF is stored when a rotation is a whole number of turns
  (`Shift386.Rol386Exact`, `Shift386.Ror386Exact`), and `dos_re/cpu386.py:967` shifts by a negative
  number, which raises, when the count of a SHL exceeds the width (`Shift386.Shl386Exact`).
- JE after a chain of SUB and SBB over the words of two numbers looks at the top words alone:
  `MultiWord.JeExact` says exactly when it still decides equality.
- `dos_re/dos.py:1497` says growing is fine while nothing else occupies the space. A block of no
  paragraphs finds itself there (`DosMemory.EmptiedBlockCannotGrow`). Such a block also splits the free
  paragraphs around it: a request can fail, and report too small a maximum, although one free run holds it
  (`DosMemory.EmptyBlockSplitsRoom`). It fails exactly when every run that fits is split in this way
  (`DosMemory.AllocateFailsExactly`, `DosMemory.ReportsLongestExactly`).
- `dos_re/le.py:308-309` masks a displacement that is then packed as a signed number, so a backward
  self-relative fixup raises (`LeLimits.SelfRelativeExact`) and refuses the image
  (`LeLimits.BackwardRefusesLoad`). A store at a negative index counts from the end of the memory, so it
  moves with the memory's size (`LeLimits.BackwardStoresWander`).
- `dos_re/pm_replay_evidence.py:315-318` takes every stack but the current one to be quiescent at a
  frame boundary. One stack that spans two 64 KiB windows is closed while its calls are in progress
  (`ShadowRun.FinishKeepsLiveExactly`).
- `dos_re/pm_backend.py:225-247` and `dos_re/keyboard.py:44-72` do what they say on orderly input; a
  stray key release is delivered as a break without a make (`KeyTiming.StrayUpBreaks`).

## Model

| member | source | states |
|---|---|---|
| Shift.ShlIsIterated | dos_re/cpu.py:1638-1644 | for every width and every count, the closed form for SHL gives the result and CF of the one-bit step applied count times |
| Shift.ShrIsIterated | dos_re/cpu.py:1645-1651 | for every width and every count, the closed form for SHR gives the result and CF of the one-bit step applied count times |
| Shift.SarIsIterated | dos_re/cpu.py:1652-1660 | for every width and every count, the closed form for SAR gives the result and CF of the one-bit step applied count times |
| Shift.RolIsIterated | dos_re/cpu.py:1661-1665 | for every width and every count, the closed form for ROL gives the result and CF of the one-bit step applied count times |
| Shift.RorIsIterated | dos_re/cpu.py:1666-1670 | for every width and every count, the closed form for ROR gives the result and CF of the one-bit step applied count times |
| Shift.RclIsIterated | dos_re/cpu.py:1671-1678 | for every width and every count, the closed form for RCL gives the result and CF of the one-bit step applied count times |
| Shift.RcrIsIterated | dos_re/cpu.py:1679-1686 | for every width and every count, the closed form for RCR gives the result and CF of the one-bit step applied count times |
| Shift.ThroughCarryPeriod | dos_re/cpu.py:1671-1686 | a rotation through carry of an n-bit operand repeats after n + 1 steps |
| Shift.WrapIsMod | dos_re/cpu.py:1662-1673 | the rotate amount, counted up one turn at a time, is the remainder the source takes |
| Shift.StepMeans | dos_re/cpu.py:1638-1686 | the one-bit step in arithmetic: to the left twice the operand less the sign, to the right half of it, plus the bit the group brings in, with CF the bit that falls out |
| X86Flags.ParityCounts | dos_re/x86.py:24-25 | PF is set exactly when the eight low bits of the result hold an even number of ones |
| Shift.OverflowIsSignChange | dos_re/cpu.py:1702-1721 | the seven per-operation OF formulas for a count of one all say that the sign bit changed |
| Shift.StatusIsReference | dos_re/cpu.py:1690-1722 | the flags stored after a shift or rotate are those of the one-bit reference, including which flags each group leaves alone |
| Shift.ReferenceMeans | dos_re/cpu.py:1690-1722 | that reference, flag by flag: CF of the steps, AF kept, ZF, SF and an even count of ones in PF after the shifts alone, OF after a count of one exactly when the sign changed |
| Shift.ShiftResult | dos_re/cpu.py:1631-1690 | result and carry for any group, width and reduced count equal the iterated one-bit step |
| Shift.Cpu8086.Shift | dos_re/cpu.py:1624-1723 | result and each flag after count mod 32 one-bit steps, PF included; count 0 (mod 32) changes nothing and the undefined /6 group is refused with flags untouched |
| Shift386.TurnIsStep | dos_re/cpu386.py:1004-1010 | one turn of the 386 core's RCL/RCR loop is the one-bit step |
| Shift386.RotateThroughCarry386 | dos_re/cpu386.py:1001-1012 | the 386 loop of cnt % (bits + 1) turns equals the one-bit step applied cnt times |
| Shift386.Rol386Exact | dos_re/cpu386.py:990-1000 | the 386 ROL matches the one-bit steps if and only if the count is 0, the turn is partial, or CF already equals bit 0 |
| Shift386.Ror386Exact | dos_re/cpu386.py:990-1000 | the 386 ROR matches the one-bit steps if and only if the count is 0, the turn is partial, or CF already equals the top bit |
| Shift386.Shl386Exact | dos_re/cpu386.py:965-972 | the 386 SHL gives the result and CF of the one-bit steps if and only if the count does not exceed the width; above it the code raises |
| Shift386.Shr386IsIterated | dos_re/cpu386.py:973-980 | the 386 SHR is the one-bit step repeated, for every width and count |
| Shift386.Sar386IsIterated | dos_re/cpu386.py:981-989 | the 386 SAR on the signed reading is the one-bit step repeated, for every width and count |
| Blocks.UnitsAreMove | dos_re/memory.py:389-392 | moving a range in units of any width equals one slice move when no byte is read after it was overwritten |
| Blocks.OverlapReplicates | dos_re/cpu386.py:1395-1400 | with a forward overlap every destination byte of the element loop equals the one (dst - src) before it |
| Blocks.OverlapGuardIsNeeded | dos_re/cpu386.py:1395-1400 | a snapshot copy differs from the element loop as soon as the first source and destination bytes do |
| Blocks.FillUnitsIsPut | dos_re/memory.py:360-369 | storing a pattern count times, one after another, is one slice store of the repeated pattern |
| Memory.BlockWriteIsScalar | dos_re/memory.py:308-329 | the slice store of write_external_block equals the byte loop through wb |
| RealModeMemory.RealMemory.Rb | dos_re/memory.py:212-245 | a byte read as above, the latches a planar read loads included |
| RealModeMemory.RealMemory.Rw | dos_re/memory.py:247-272 | a word read as above; at offset FFFFh it uses the next linear byte |
| RealModeMemory.RealMemory.EgaWb | dos_re/memory.py:451-511 | a planar write: per-plane result of the write mode, set/reset and bit mask, or a refusal |
| EgaPlanes.EgaOutputBits | dos_re/memory.py:479-511 | each bit a planar write stores: the latch where the bit mask has a zero, elsewhere the set/reset bit or the rotated byte through the chosen operation with the latch |
| EgaPlanes.EgaWbMeans | dos_re/memory.py:451-511 | a planar write, bit by bit in all four planes: only planes in the map mask change, only at this address, and modes 2 and 3 are refused |
| EgaPlanes.ComparedBits | dos_re/memory.py:212-245 | read mode 1 answers a one for each pixel whose bit equals the compare colour in every plane that counts |
| EgaPlanes.RbMeans | dos_re/memory.py:212-245 | a byte read returns the byte at sixteen times the segment plus the offset, within a megabyte; on the screen it fills the latches from the four planes and answers by read mode |
| EgaPlanes.RwMeans | dos_re/memory.py:247-272 | a word read returns that byte and the next one, on the screen by two byte reads |
| EgaPlanes.WbMeans | dos_re/memory.py:274-306 | a byte write changes nothing in the ROM, the planes on the screen, and one byte of RAM elsewhere |
| EgaPlanes.WwMeans | dos_re/memory.py:394-449 | a word write leaves the low byte there and the high byte after it |
| EgaPlanes.OrdinaryExactly | dos_re/memory.py:331-346 | the guard accepts a range if and only if each byte of it follows the one before, is off the screen and, for a write, not in the ROM |
| RealModeMemory.RealMemory.Wb | dos_re/memory.py:274-306 | a byte write: ROM is skipped, the aperture goes to the planes, anything else to RAM |
| RealModeMemory.RealMemory.Ww | dos_re/memory.py:394-449 | a word write as the source splits it |
| RealModeMemory.RealMemory.OrdinaryAddress | dos_re/memory.py:331-346 | the base address of a range in which a slice is as good as its bytes, or None |
| RealModeMemory.RealMemory.TryForwardBulkFill | dos_re/memory.py:348-369 | the guarded fill, or no change at all |
| RealModeMemory.RealMemory.TryForwardBulkCopy | dos_re/memory.py:371-392 | the guarded copy with its overlap test, or no change at all |
| RealModeMemory.RealMemory.WriteExternalBlock | dos_re/memory.py:308-329 | whichever path is taken, the memory is that of storing each byte in turn |
| StringOps.BulkCopyIsLoop | dos_re/cpu.py:1545-1574 | whenever the guards accept a copy, memory, SI, DI and CX are those of the element loop, for either width and any count |
| StringOps.BulkFillIsLoop | dos_re/cpu.py:1537-1544 | whenever the guards accept a fill, memory, DI and CX are those of the element loop |
| StringOps.ElementMeans | dos_re/cpu.py:1569-1593 | one element: STOS puts AL, or AL and then AH, MOVS what it reads; pointers go up or, with DF, down by the width, and stay after an unsupported write |
| StringOps.FillLeaves | dos_re/cpu.py:1537-1544 | REP STOS over ordinary bytes leaves AL, or AL and AH in turn, in each of them and no other byte changed, CX at 0 and DI past them |
| StringOps.CopyLeaves | dos_re/cpu.py:1545-1574 | REP MOVS over ordinary bytes that are read before they are overwritten leaves each byte of the source in its place and no other changed |
| StringOps.Cpu8086.Step | dos_re/cpu.py:1569-1593 | one MOVS or STOS element in either direction |
| StringOps.Cpu8086.TryBulk | dos_re/cpu.py:1535-1553 | the bulk attempt leaves what the element loop would, or the state as it was |
| StringOps.Cpu8086.StringOp | dos_re/cpu.py:1513-1622 | the instruction with its fast path is the element loop with no fast path, and leaves the bytes, pointers and count stated for it |
| LzexeCode.MatchRepeats | dos_re/bootstrap_lzexe.py:146-149 | each byte a match appends equals the one dist before it, also when the match overlaps itself |
| LzexeCode.MatchCopies | dos_re/bootstrap_lzexe.py:146-149 | a match that does not overlap itself is a copy of a slice |
| LzexeCode.LayoutCarries | dos_re/bootstrap_lzexe.py:55-63 | the bit-interleaved encoder's bytes carry exactly the flags and bytes it was given |
| Lzexe.OpToken | dos_re/bootstrap_lzexe.py:89-150 | one trip round the loop consumes one token: memory, pointers, bit buffer and 1 <= DX <= 16 afterwards |
| Lzexe.RebaseKeepsAddresses | dos_re/bootstrap_lzexe.py:128-135 | normalising both segments keeps both linear addresses modulo 2^20, with SI below 16 and DI in the sixteen bytes from 2000h |
| Lzexe.DecodesTokens | dos_re/bootstrap_lzexe.py:66-150 | for every token list whose encoding stands at DS:SI, in place too as long as no token's output covers stream bytes still to be read, the loop writes its LZ77 expansion at ES:DI and nothing else, stops at the end marker just past the stream, and raises if and only if the operation limit is at most the number of tokens |
| Lzexe.ApartIsClear | dos_re/bootstrap_lzexe.py:66-150 | a stream and an output that lie apart are one such layout, whatever the tokens |
| Lzexe.EncodedIsReadable | dos_re/bootstrap_lzexe.py:55-63 | the encoder's output is such a stream, whatever follows it |
| LzexeLoop.Stub.RunMainLoop | dos_re/bootstrap_lzexe.py:66-150 | the imperative loop computes the specified run; registers are stored back only at the end marker |
| PlanarVga.LoopIsCopied | dos_re/dos4gw.py:77-150 | a byte loop that never reads what it stored leaves slice contents in every enabled plane and the last source column in the latches |
| PlanarVga.WriteStores | dos_re/dos4gw.py:77-105 | a write stores the byte, or in mode 1 the latches, in plane 0, 1, 2, 3 exactly where the map mask has bit 1, 2, 4, 8, changes no other byte, and raises as stated |
| PlanarVga.ReadLatches | dos_re/dos4gw.py:107-112 | a read loads the four latches and returns the byte of plane readMap mod 4 |
| PlanarVga.BulkCopyStores | dos_re/dos4gw.py:114-150 | for the same or separate ranges the copy stores, under the bits of the map mask, each plane's own bytes in mode 1 and the read-map plane's in mode 0, and latches the last source column |
| PlanarVga.UnsupportedLoop | dos_re/dos4gw.py:77-112 | an unsupported write still lets the first read load the latches |
| PlanarVga.BulkCopyExact | dos_re/dos4gw.py:114-150 | for every length, overlap, map mask, read map, write mode and bit mask, bulk_copy leaves the planes, latches and exception of the byte loop if and only if the call is outside the stated family |
| PlanarVga.BulkCopyIsLoop | dos_re/dos4gw.py:114-150 | for distinct offsets or write mode 1 bulk_copy is the byte loop, fallback included |
| PlanarVga.SelfCopyDiverges | dos_re/dos4gw.py:148-150 | copying a byte onto itself through another plane shows the difference in the latches |
| PlanarVga.CopyLoopSplit | dos_re/dos4gw.py:114-150 | a copy that raises nothing is the copy of its first part and then of the rest |
| VgaDevice.VGASequencer.Read | dos_re/dos4gw.py:107-112 | a read loads the four latches and returns the read-map plane's byte |
| VgaDevice.VGASequencer.Write | dos_re/dos4gw.py:77-105 | after a write the byte at the offset is the stored one in the planes whose own bit of the map mask is set, plane by plane, and the old one in the others |
| VgaDevice.VGASequencer.BulkCopy | dos_re/dos4gw.py:114-150 | the in-place copy is the specified one, and for the same or separate ranges stores under each bit of the map mask what is stated |
| FlatString.UnitsIsLoopMemory | dos_re/cpu386.py:1134-1177 | memory and exception of the REP loop are those of its memory accesses alone, stopping at the first that raises, and the registers of a loop that raises nothing depend on the number of units alone |
| FlatTransfers.RamToRam | dos_re/cpu386.py:1343-1434 | the unit loop from RAM to RAM leaves one slice move |
| FlatTransfers.FillRam | dos_re/cpu386.py:1343-1434 | the unit loop of a RAM fill leaves one slice store |
| FlatTransfers.FillPlanes | dos_re/cpu386.py:1343-1434 | the unit loop of a fill of the planes leaves one slice store in every enabled plane |
| FlatTransfers.RamToPlanes | dos_re/cpu386.py:1343-1434 | the unit loop from RAM to the planes leaves one slice store in every enabled plane |
| FlatTransfers.PlanesToRam | dos_re/cpu386.py:1343-1434 | the unit loop from the planes to RAM leaves the read-map bytes in RAM and the last column in the latches |
| FlatTransfers.PlanesToPlanes | dos_re/cpu386.py:1343-1434 | the unit loop between planes is the device's byte copy, for byte units, for wide units that cannot disturb themselves, and where no plane takes stores |
| FlatExact.EndPointsDecide | dos_re/cpu386.py:1360-1371 | testing the two end points decides a whole range unless it swallows the aperture |
| FlatExact.BulkStringIsLoop | dos_re/cpu386.py:1343-1434 | the sufficient condition a caller checks on the shape: RAM, planes, latches, ESI, EDI and ECX are those of the REP loop and the loop raises nothing |
| FlatBytes.UnitLeaves | dos_re/cpu386.py:1146-1154 | one unit straight across: bytes 0 to 3 of EAX the lowest first, RAM or the read-map plane arrive in RAM or under the map mask, nothing else changes, and the pointers go on |
| FlatBytes.UnitsLeave | dos_re/cpu386.py:1169-1171 | so does every unit of the REP loop: byte i of the destination is byte i mod the unit size of EAX, or byte i of the source, and ECX is 0 |
| FlatBytes.RepLeaves | dos_re/cpu386.py:1134-1177 | and the instruction as it runs, by slices or by the loop |
| FlatBytes.ScreenLeaves | dos_re/cpu386.py:1384-1393 | from planes to planes, in the same place or apart, it is the device's block copy with RAM untouched |
| FlatExact.InStepExact | dos_re/cpu386.py:1343-1434 | for every content of RAM, planes and latches: where the slices can follow the units, the result is the REP loop's if and only if the call is not a copy of planes onto themselves whose last byte changes |
| FlatShapes.BulkStringExact | dos_re/cpu386.py:1343-1434 | the exact condition on modes, map mask, ranges, unit size and count: an instruction the slices take agrees with the REP loop on all contents if and only if its shape is safe; every unsafe shape has contents that tell the difference |
| FlatShapes.SafeAgrees | dos_re/cpu386.py:1343-1434 | a safe shape agrees with the REP loop on every content of RAM, planes and latches |
| FlatShapes.SwallowedStoreShows | dos_re/cpu386.py:1360-1371 | a MOVS or STOS of any unit size whose destination swallows the aperture differs from the loop wherever RAM under the aperture changes |
| FlatShapes.SwallowedReadShows | dos_re/cpu386.py:1360-1371 | a MOVS whose source swallows the aperture differs from the loop, which loads the latches there: shown with planes of zeros and latches of ones |
| FlatShapes.WideLatchShows | dos_re/cpu386.py:1388-1393 | units of 2 or 4 bytes between planes in write mode 1, any count and overlap, differ from the loop whenever the first unit's first and last bytes differ in an enabled plane |
| FlatShapes.StaggeredShows | dos_re/cpu386.py:1388-1393 | units of 2 or 4 bytes copied 1 to 3 bytes up between planes in write mode 0 differ from the loop in the latches whenever the planes are zero but for the last source column |
| FlatMachine.FlatMemory.Read | dos_re/cpu386.py:75-98 | a unit read: the first byte's address chooses aperture or RAM |
| FlatMachine.FlatMemory.Write | dos_re/cpu386.py:100-139 | a unit write: the first byte's address chooses aperture or RAM |
| Flat386.CPU386.Once | dos_re/cpu386.py:1146-1154 | one MOVS or STOS unit, with the bytes of EAX or of the source where they belong |
| Flat386.CPU386.Loop | dos_re/cpu386.py:1169-1171 | the REP loop, counting ECX down and stopping at an exception |
| Flat386.CPU386.Guards | dos_re/cpu386.py:1355-1422 | the guards, in order |
| Flat386.CPU386.Slices | dos_re/cpu386.py:1384-1428 | gather and scatter, or the device's own block copy |
| Flat386.CPU386.BulkString | dos_re/cpu386.py:1343-1434 | the slices with their register updates, or no change at all |
| Flat386.CPU386.StringOp | dos_re/cpu386.py:1134-1177 | the whole instruction; where the slices can follow the units and no self-copy shows it is the unit loop, and straight across it leaves the stated bytes and registers |
| Arith.AddMeans | dos_re/cpu.py:264-285 | for any width, CF is the carry out of ADD/ADC and OF holds if and only if the signed sum does not fit |
| Arith.SubMeans | dos_re/cpu.py:287-308 | CF is the borrow of SUB/SBB/CMP, OF holds if and only if the signed difference does not fit, and SF != OF if and only if it is negative |
| Arith.NibbleCarry | dos_re/cpu.py:264-308 | AF is the carry or borrow between the low nibbles |
| Arith.IncDecKeepsCarry | dos_re/cpu.py:310-336 | INC and DEC set every flag ADD 1 and SUB 1 set, except CF, which they keep |
| Arith.AddFlagsMean | dos_re/cpu.py:264-285 | the ADD helper's six flags with their arithmetic meaning, the other three kept |
| Arith.SubFlagsMean | dos_re/cpu.py:287-308 | the SUB helper's six flags with their arithmetic meaning, the other three kept |
| Arith.AluMeans | dos_re/cpu.py:1467-1488 | result and flags of the five arithmetic operations, for any width |
| Arith.CompareDecides | dos_re/cpu.py:1490-1511 | after CMP or SUB the ten order conditions decide the unsigned and signed comparisons they are named for |
| Arith.SingleConditions | dos_re/cpu.py:1490-1511 | after any of the five operations JO, JS and JP and their opposites speak of the signed misfit, the sign and an even count of ones in the result |
| MultiWord.ChainAdds | dos_re/cpu.py:1467-1476 | ADD then ADC over n words of any width compute the exact sum with CF as the carry out, with INC and DEC between the words |
| MultiWord.ChainSubtracts | dos_re/cpu.py:1476-1481 | SUB then SBB over n words compute the exact difference with CF as the borrow |
| MultiWord.ChainCompares | dos_re/cpu.py:1490-1511 | after the chain JB decides the unsigned and JL the signed comparison of the whole n-word numbers |
| MultiWord.EqualTopsLookEqual | dos_re/cpu.py:1490-1511 | JE after a chain does not decide equality: with equal top words it is taken although the numbers differ |
| MultiWord.JeMeans | dos_re/cpu.py:1490-1511 | JE after a comparison chain is taken if and only if the top words differ by exactly the borrow that enters them, modulo the width |
| MultiWord.JeExact | dos_re/cpu.py:1490-1511 | JE decides equality of the whole numbers if and only if the lower parts are equal or the top words do not differ by exactly that borrow |
| MultiWord.NumBound | dos_re/cpu.py:1467-1488 | an n-word number fits n words, so the sums and differences above are unique |
| PackedDecimal.BcdByteAdds | dos_re/cpu.py:223-245 | ADC then DAA on packed bytes gives the two digits of the decimal sum with CF as the decimal carry |
| PackedDecimal.BcdChainAdds | dos_re/cpu.py:223-245 | repeating ADC and DAA adds packed decimal numbers of any length: valid digits, exact sum, decimal carry out |
| PackedDecimal.DaaAdjusts | dos_re/cpu.py:223-245 | those corrections, for every AL and flags |
| ArithUnit.CPU8086.SetAddFlags | dos_re/cpu.py:264-285 | CF is the carry out, OF the signed misfit, AF the nibble carry, ZF, SF and PF those of the masked sum with PF an even count of ones; TF, IF and DF are kept |
| ArithUnit.CPU8086.SetSubFlags | dos_re/cpu.py:287-308 | CF is the borrow, OF the signed misfit, AF the nibble borrow, ZF, SF and PF those of the masked difference with PF an even count of ones; TF, IF and DF are kept |
| ArithUnit.CPU8086.SetIncDecFlags | dos_re/cpu.py:310-336 | the stored flags are those of adding or subtracting one with CF as it was, PF an even count of ones |
| ArithUnit.CPU8086.Alu | dos_re/cpu.py:1467-1488 | ADD, ADC, SUB, SBB and CMP: the masked result and the flags with their arithmetic meaning, PF included |
| ArithUnit.CPU8086.Daa | dos_re/cpu.py:223-245 | AL and flags after decimal adjust: 6 for a low digit above 9 or AF, 60h above 99h or with CF, AF and CF saying which, ZF, SF and PF of the result |
| DosMemory.GapsAreFree | dos_re/dos.py:1511-1529 | from the scan's cursor up every paragraph is in a live block or in a yielded gap, never in both |
| DosMemory.GapsOrdered | dos_re/dos.py:1511-1529 | the gaps are non-empty, in address order, apart from each other and inside memory |
| DosMemory.FirstFitIsLowest | dos_re/dos.py:1531-1535 | the first gap large enough starts at the lowest address that fits, and there is none exactly when nothing fits |
| DosMemory.FloorIs | dos_re/dos.py:1511-1522 | the scan starts at the lowest block, or where the next one would go if there is none |
| DosMemory.LargestIsMaximum | dos_re/dos.py:1537-1538 | the largest gap is the largest size with a free place no empty block splits |
| DosMemory.AllocateMeans | dos_re/dos.py:1450-1468 | allocation takes the lowest free place that no empty block splits, fails only when there is none, reports the largest size that has one, and keeps the table valid |
| DosMemory.FreeUndoesAllocate | dos_re/dos.py:1470-1482 | freeing what was just allocated restores the table, unless the block took the place of an empty one |
| DosMemory.ResizeMeans | dos_re/dos.py:1483-1508 | a shrink succeeds; growing a non-empty block succeeds if and only if there is room; a refusal reports the largest size there is room for |
| DosMemory.FreeIsUnsplit | dos_re/dos.py:1511-1529 | a free place is a run of paragraphs no block takes, with no empty block strictly inside it |
| DosMemory.AllocateFailsExactly | dos_re/dos.py:1450-1468 | a request fails if and only if every run of free paragraphs that fits it has an empty block strictly inside |
| DosMemory.ReportsLongestExactly | dos_re/dos.py:1537-1538 | the reported size is the longest run of free paragraphs if and only if no size has all of its runs split |
| DosMemory.RoomIsUnsplit | dos_re/dos.py:1483-1508 | the room a block can grow into is a run of paragraphs no other block takes, with no empty block strictly inside |
| DosMemory.EmptyBlockSplitsRoom | dos_re/dos.py:1511-1529 | five calls from a seeded table leave thirty free paragraphs in one piece of which twenty-five cannot be allocated |
| DosMemory.EmptiedBlockCannotGrow | dos_re/dos.py:1498-1503 | a block resized to nothing cannot be given its space back although it is free, because it finds itself as the next used segment |
| DosMemory.RunTiles | dos_re/dos.py:1450-1529 | over every run of calls from the seeded table live blocks stay disjoint, and blocks and gaps tile [PSP, limit) if and only if the PSP block is live |
| DosHost.ScanGaps | dos_re/dos.py:1520-1529 | the cursor loop yields the specified gaps |
| DosHost.DOSMachine.SeedInitialMemoryBlock | dos_re/dos.py:467-482 | one block from the PSP to the top, or a refusal |
| DosHost.DOSMachine.FreeGaps | dos_re/dos.py:1511-1529 | the gaps of the current table |
| DosHost.DOSMachine.FindFreeGap | dos_re/dos.py:1531-1535 | first fit over those gaps |
| DosHost.DOSMachine.LargestFreeGap | dos_re/dos.py:1537-1538 | the size of the largest gap |
| DosHost.DOSMachine.Allocate | dos_re/dos.py:1450-1468 | AH=48h on the table in place, with what it promises on a valid table |
| DosHost.DOSMachine.Free | dos_re/dos.py:1470-1482 | AH=49h: the record is dropped, an unknown segment changes nothing |
| DosHost.DOSMachine.Resize | dos_re/dos.py:1483-1508 | AH=4Ah on the table in place, with what it promises on a valid table |
| Atlas.FrontIsNearest | dos_re/atlas.py:1062-1075 | when the target reaches the front of the queue no walk to it is shorter than its distance |
| Atlas.EmptyMeansNoWalk | dos_re/atlas.py:1064-1076 | when the queue runs empty there is no walk to the target |
| Atlas.KnownGraphArcs | dos_re/atlas.py:1058-1061 | an arc exists exactly for a resolved or observed edge |
| Atlas.Trace | dos_re/atlas.py:1067-1071 | following predecessors back and reversing gives a walk one node longer than the distance |
| Atlas.Path | dos_re/atlas.py:1056-1076 | a shortest path over the known edges, or none exactly when no path exists |
| Atlas.SortedArranges | dos_re/atlas.py:1072-1072 | successors are visited in ascending order, each as often as it was listed |
| Coverage.CoverGraphArcs | dos_re/atlas.py:1116-1132 | an arc exists exactly for an edge the coverage rule follows |
| Coverage.Sweep | dos_re/atlas.py:1133-1140 | the worklist computes the least set that holds the roots and is closed under the rule, terminating although nodes are queued repeatedly |
| Coverage.CoverageFor | dos_re/atlas.py:1108-1140 | coverage of a product, with the two refusals for absent and for unknown roots |
| Coverage.CoverageIsReachability | dos_re/atlas.py:1133-1140 | the least closed set holds exactly the nodes some root reaches |
| LeLoader.PatchMoves | dos_re/le.py:283-309 | under a shift of the image the offset fields of a patch grow modulo their width; selectors and self-relative displacements stay |
| LeLoader.StoresMove | dos_re/le.py:163-281 | a shifted load makes the stores of the unshifted one in the same places, its address fields grown, or raises exactly where that one does |
| LeLoader.BytesGrow | dos_re/le.py:288-291 | adding to a field and truncating is adding to the number and truncating |
| LeRebase.ApplyIsLastCover | dos_re/le.py:283-309 | each byte of the image is the one its last store put there |
| LeRebase.RebaseLoad | dos_re/le.py:120-281 | loading the image shifted by d succeeds when the unshifted load does and the memory is no smaller, and the only bytes that differ belong to address fields grown by d |
| LeRebase.RebaseUp | dos_re/le.py:176-181 | with the default memory size, a power-of-two page and d >= 0, that always applies |
| LeRebase.RebaseUnderLimit | dos_re/le.py:176-181 | under one explicit limit above both tops the two loads succeed together |
| LeRebase.EntryMoves | dos_re/le.py:94-99 | entry and stack move by d |
| LeFields.EntryIs | dos_re/le.py:93-99 | entry and stack lie at their offset above the base, moved by d, of the object their number names; number 0 names the last object and a number past it raises |
| LeFields.LoadPatchesAll | dos_re/le.py:217-281 | every source of every fixup record of every page is among the stores of a load: the target object's base moved by d plus the target offset modulo the width of the field, the displacement from the field's end, or selector 0Ch or 14h by that object's executable flag |
| LeFields.LoadHolds | dos_re/le.py:120-281 | and memory reads back every store no later one touches |
| LeFields.BytesValue | dos_re/le.py:288-309 | a patched field holds its number modulo its width, the lowest byte first |
| LeFields.PageStarts | dos_re/le.py:222-229 | global page numbers count through the pages of the objects in order |
| LeFields.LoadStoresPages | dos_re/le.py:183-198 | each page of each object is stored at its place from the file page its map entry names, big-endian, the last file page being shorter |
| LeFields.TopIs | dos_re/le.py:176-177 | the top is where the highest object ends |
| LeFields.SizeIs | dos_re/le.py:177-181 | the memory is the limit, or the first whole number of pages, a power of two in size, that holds the top |
| LeFields.EncodedParses | dos_re/le.py:237-266 | the parser takes apart every fixup record the format can write: one source or a list, narrow or wide object number, and an offset as wide as type and flag say |
| LeFields.EncodedRecords | dos_re/le.py:231-278 | and the cursor loop finds exactly the records written one after another |
| LeRebase.FieldMoves | dos_re/le.py:283-309 | a field no later store touches reads d more modulo its width, any other settled store reads the same |
| LeLimits.StoresExact | dos_re/le.py:217-281 | the fixup pass has its stores if and only if the pages are there, every page's records parse, and every fixup of every record can be packed |
| LeLimits.SelfRelativeExact | dos_re/le.py:294-309 | within 2 GB either way a self-relative fixup can be packed if and only if its target is not before the end of its own field |
| LeLimits.BackwardRefusesLoad | dos_re/le.py:294-309 | one backward self-relative fixup in any record of any page refuses the whole image, at every base and memory size |
| LeLimits.ApplyExact | dos_re/le.py:283-309 | any list of stores succeeds if and only if all of them, with negative indices counted from the end, land inside; each byte is then its last store's |
| LeLimits.LoadBytes | dos_re/le.py:120-281 | an image loads under a memory limit if and only if all its stores land inside, and every byte of the memory is then its last store's, negative indices included |
| LeLimits.RebaseAnywhere | dos_re/le.py:120-281 | loading at another base without any condition on negative indices: with equal memory sizes, or when later stores bury what wandered, only address fields differ and they grow by d |
| LeLimits.BackwardStoresWander | dos_re/le.py:283-309 | stores give the same bytes in memories of two sizes, whatever values are stored, if and only if no byte both memories share comes from a store at a negative index |
| LeLinker.LEImage.PatchSources | dos_re/le.py:275-278 | every source of a record patched in place |
| LeLinker.LEImage.FixRecords | dos_re/le.py:231-278 | the record cursor over one page's slice: on success every source of its records is patched with its object's address and settled fields read back |
| LeLinker.LEImage.ApplyFixups | dos_re/le.py:217-281 | the whole pass over the shared memory makes the specified stores, or raises exactly where they do; on success every fixup of the file is patched and settled fields read back |
| ShadowStack.KeptAreAbove | dos_re/pm_replay_evidence.py:246-255 | the wrap-safe unwind keeps exactly the frames above the pointer |
| ShadowStack.FireWellFormed | dos_re/pm_replay_evidence.py:281-310 | a probed call keeps the levels of every stack strictly decreasing |
| ShadowStack.FinishWellFormed | dos_re/pm_replay_evidence.py:312-330 | so does closing the books at a frame boundary |
| ShadowStack.FireMeans | dos_re/pm_replay_evidence.py:281-310 | a probed call ends, at the next boundary, exactly the calls of its 64 KiB window at or below the caller's level, and puts the new one on top |
| ShadowStack.FinishMeans | dos_re/pm_replay_evidence.py:312-330 | a frame boundary ends exactly the calls at or below the pointer on its own stack and every call on any other |
| ShadowStack.StackFitsWindow | dos_re/pm_replay_evidence.py:306-310 | a stack of decreasing levels fits its 64 KiB window, far below the observer's cap |
| ShadowRun.ExitsAreLate | dos_re/pm_replay_evidence.py:202-330 | over every run of calls, returns and quiet boundaries no call in progress is popped and every recorded exit lies after the frame in which the call returned |
| ShadowRun.FinishKeepsLiveExactly | dos_re/pm_replay_evidence.py:312-330 | closing the books keeps every call in progress if and only if none is in progress in another 64 KiB window |
| ShadowObserver.PMFunctionObserver.Unwind | dos_re/pm_replay_evidence.py:246-255 | the pop loop leaves the specified stack and exits |
| ShadowObserver.PMFunctionObserver.Fire | dos_re/pm_replay_evidence.py:281-310 | a probed call on the stacks in place, with the frames that stay and the exits recorded as stated |
| ShadowObserver.PMFunctionObserver.Finish | dos_re/pm_replay_evidence.py:312-330 | the frame boundary on the stacks in place, with the frames that stay and the exits recorded as stated |
| Journal.JournalIsLossless | dos_re/dos.py:650-916 | for every sequence of port accesses the closed runs followed by the open one are the status reads and palette writes in exact order, each with its true length, contents and times; no two neighbours could have been one; at most one is open; the newest 512 are kept |
| Journal.PaletteIsReplay | dos_re/dos.py:896-916 | the palette is the journalled writes applied in order |
| Journal.AccessTracks | dos_re/dos.py:650-916 | one port access extends what the journal records by exactly the status reads and palette writes it makes |
| JournalDevice.DOSVideo.VgaStatus | dos_re/dos.py:694-703 | a status read closes an open palette group and opens or extends the read run; the journal afterwards records what it did and then this read |
| JournalDevice.DOSVideo.CompleteTriple | dos_re/dos.py:899-916 | a completed triple closes the read run and extends the group or opens a new one; the journal afterwards records what it did and then this write |
| JournalDevice.DOSVideo.TrackVgaDacPorts | dos_re/dos.py:876-916 | byte and word writes to the DAC ports; the journal afterwards records what it did and then the writes they complete |
| JournalDevice.UploadPaints | dos_re/dos.py:876-916 | an index and then red, green and blue of any number of entries paint those entries, six bits spread over eight, and no other |
| JournalDevice.UploadReadsBack | dos_re/dos.py:743-754 | whatever was uploaded reads back through the read index: six bits of each component of up to 256 entries |
| JournalDevice.DOSVideo.ReadDacData | dos_re/dos.py:743-754 | a read of the data port answers red, green and blue of the entry in turn, then those of the next |
| PaletteEffects.ScanIsFaithful | dos_re/palette_effects.py:95-119 | the bands of a cycle, applied to any palette, replay the cycle's writes |
| PaletteEffects.ShownIsReplay | dos_re/palette_effects.py:95-119 | a cycle shows what its journalled events show when they are replayed one by one |
| PaletteEffects.ScanLocates | dos_re/palette_effects.py:95-119 | every group of writes is in a band at the line the status reads before it have counted, or in one without a line if it came more than 256 steps late |
| PaletteEffects.KindIsExact | dos_re/palette_effects.py:121-133 | static exactly without bands, split exactly when at most one band has no line and every line is between 1 and 1024, unresolved otherwise |
| PaletteEffects.ScanInOrder | dos_re/palette_effects.py:95-119 | bands the evidence places lie on strictly increasing lines at two reads per line |
| PaletteEffects.CountedLines | dos_re/palette_effects.py:100-106 | a counted run moves down by at least three lines, halves rounding to even |
| PaletteEffects.PlanExplains | dos_re/palette_effects.py:119-133 | base and bands together replay the cycle, in line order, and the plan is static exactly when no band remains |
| PaletteEffects.Classify | dos_re/palette_effects.py:77-133 | with fewer than two syncs, runs of at most six reads, nothing is claimed; otherwise the plan explains the entries between the last two and puts every group where the counts before it say, with the exact verdict |
| AudioQueue.PlaybackMovesForward | dos_re/pm_backend.py:180-247 | for any interleaving of pumps and callbacks the buffer is the newest unplayed end of what was produced, never a ring full, and playback only moves forward |
| AudioQueue.EmitsNext | dos_re/pm_backend.py:180-202 | a callback emits the next produced samples in order, then silence |
| AudioQueue.CallbackPlays | dos_re/pm_backend.py:180-202 | a callback that has started or finds 1764 samples plays the oldest there are and then silence; before that silence alone |
| AudioQueue.PumpKeeps | dos_re/pm_backend.py:225-247 | a pump leaves the newest 4410 samples in order |
| AudioRing.SoundDeviceSink.Callback | dos_re/pm_backend.py:180-202 | the ring with its wrap-around implements the queue's callback |
| AudioRing.SoundDeviceSink.Pump | dos_re/pm_backend.py:225-247 | the ring keeps the newest 4410 samples of buffer plus input |
| KeyTiming.AlternatesExactly | dos_re/keyboard.py:44-72 | the codes of a key alternate, make first, if and only if no no-frame pump met a pending release of that key while it was up |
| KeyTiming.OrderlyKeysAlternate | dos_re/keyboard.py:38-72 | when every up posted follows a down of the same key, its codes alternate |
| KeyTiming.BreaksWaitAFrame | dos_re/keyboard.py:55-92 | a break delivered by pump comes at least one completed boundary after its make |
| KeyTiming.PumpMeans | dos_re/keyboard.py:74-92 | one pump: at most one make, the break of a key that is up again and was held for a frame if releases are allowed, and one frame more for a key still down |
| KeyTiming.PumpEventsMeans | dos_re/keyboard.py:62-72 | without a frame a key that is up is released at once |
| KeyTiming.ReleaseArrives | dos_re/keyboard.py:74-92 | a key that went down and up is broken off by the second pump that may release it |
| KeyTiming.StrayUpBreaks | dos_re/keyboard.py:55-72 | one up without a down, drained by pump_events, delivers a break first |
| Keyboard.KeyDispatcher.PostDown | dos_re/keyboard.py:38-39 | the event joins the queue and touches no other key |
| Keyboard.KeyDispatcher.PostUp | dos_re/keyboard.py:41-42 | the event joins the queue and touches no other key |
| Keyboard.KeyDispatcher.DrainEvents | dos_re/keyboard.py:44-53 | every key receives exactly its own events |
| Keyboard.KeyDispatcher.ReleaseReady | dos_re/keyboard.py:55-60 | every key with a release due is released, no other |
| Keyboard.KeyDispatcher.PumpEvents | dos_re/keyboard.py:62-72 | every key does what the one-key model does, and so what is stated of it |
| Keyboard.KeyDispatcher.Pump | dos_re/keyboard.py:74-92 | every key does what the one-key model does, and so what is stated of it |
| Keyboard.BytesTell | dos_re/keyboard.py:44-60 | below 80h a make is the scan code and a break the scan code with its high bit set |
| Pic.AcknowledgeMeans | dos_re/pic.py:35-49 | an acknowledge that answers picks the lowest unmasked request, puts it alone in service and removes only it; None means something is in service or nothing is waiting |
| Pic.AtMostOneInService | dos_re/pic.py:21-49 | over every interleaving of raise, mask, EOI and acknowledge from reset at most one line is in service |
| Pic.RequestsWait | dos_re/pic.py:21-49 | a request, masked or not, stays pending until it is acknowledged |
| Pic.GatherAsks | dos_re/dos4gw.py:393-407 | a line is requested at a poll exactly if it was before, a device raised it, a scan code waits (line 1) or the timer is due (line 0), and the timer's next count is a period on |
| Pic.PendingIrqMeans | dos_re/dos4gw.py:393-422 | polled while idle the host delivers the lowest line asked for and not masked to its handler, alone in service, or consumes it without one; polled while a line is in service it answers None and collects requests |
| Pic.UnhookedIsConsumed | dos_re/dos4gw.py:408-421 | None with requests waiting means the lowest of them had no handler and was consumed |
| Pic.EoiMeans | dos_re/pic.py:30-33 | isr & (isr - 1) takes the lowest line in service out of service and no other, for every register value |
| Pic.RaiseMeans | dos_re/pic.py:21-22 | raising a line requests it, modulo 8, and touches nothing else |
| PicDevice.PIC8259.Eoi | dos_re/pic.py:30-33 | the lowest line in service, and no other, leaves it; with none in service nothing changes |
| PicDevice.PIC8259.Acknowledge | dos_re/pic.py:35-49 | the lowest unmasked request moves from requested to in service, or nothing changes |
| PicDevice.DOS4GWHost.PendingIrq | dos_re/dos4gw.py:393-422 | timer, keyboard and device requests, then the acknowledge and the EOI for unhooked vectors |
| Identity.QuoteRoundTrip | dos_re/identity.py:14-25 | percent-encoding a component loses nothing |
| Identity.QuoteIsPlain | dos_re/identity.py:14-18 | an encoded component is not empty and holds no colon |
| Identity.QuoteByteIs | dos_re/identity.py:14-18 | letters, digits and -._~ stand for themselves, any other byte is a percent sign and its two hexadecimal digits |
| Identity.KeysAreInjective | dos_re/identity.py:89-196 | within one program different identities of any kind have different keys |
| Identity.ImageKey | dos_re/identity.py:88-93 | the text of an image's key: program, kind, encoded label, algorithm and digest, with colons between |
| Identity.RegionKey | dos_re/identity.py:168-170 | the text of a region's key |
| Identity.BoundaryKey | dos_re/identity.py:188-193 | the text of a boundary's key |
| Identity.AddressKey | dos_re/identity.py:113-119 | an address appends its kind, space and address to its image's key |
| Identity.VariantKey | dos_re/identity.py:151-153 | a variant appends its digest to its slot's key |
| Identity.AfterIsField | dos_re/identity.py:199-204 | splitting at the first token is looking for the first colon-separated field equal to the marker |
| Identity.SplitChildExact | dos_re/identity.py:199-204 | taking a key apart at a field gives the fields after it if and only if no earlier field is the marker |
| Identity.AddressSplitsExactly | dos_re/identity.py:199-204 | splitting an address key at its own kind returns its space and address if and only if the marker is neither a later part of the program key nor the image's name |
| Identity.ImageNamedFunction | dos_re/identity.py:199-204 | a function in an image named "function" is one the split gets wrong |
| Planner.OrderedInOrder | dos_re/execution.py:1371-1381 | the candidates of a target come out in (rank, identity) order |
| Planner.NotAfterMeans | dos_re/execution.py:1376-1381 | the sort key in places: of two listed identities the one listed last earlier comes first, of two others the one with the smaller name |
| Planner.ListedFirstExactly | dos_re/execution.py:1376-1381 | all listed identities come before the others if and only if none is listed twice, which the configuration requires |
| Atlas.BeforeMeans | dos_re/execution.py:1378-1381 | identities compare character by character after a common prefix |
| Planner.EligibleIs | dos_re/execution.py:1319-1368 | a candidate is not rejected exactly if it needs nothing forbidden, runs on the build platform, has enough evidence when authored, and is the carrier's own or adapted to it |
| Planner.BestIsPicked | dos_re/execution.py:2011-2027 | the first candidate that is not rejected is eligible, no eligible one stands before it in the list, and among unlisted ones none has a smaller name |
| Planner.PickedIsBest | dos_re/execution.py:2011-2027 | and with every entry listed once nothing else decides |
| Planner.Select | dos_re/execution.py:2011-2027 | the eligible candidate the places in the list and the names pick, or none exactly when no candidate is eligible |
| Planner.Bind | dos_re/execution.py:2010-2066 | every reachable target is bound to the candidate so picked, or is unresolved because none is eligible |
| Planner.Claim | dos_re/execution.py:2095-2102 | a region's targets are recorded under it, or a target already belongs to another region |
| Planner.CheckRegions | dos_re/execution.py:2070-2115 | the region loop accepts if and only if every selected region is bound as one unit, lies inside the coverage and has an adapter, and distinct regions share no target |
| Planner.CloseServices | dos_re/execution.py:2173-2195 | the closure loop computes the least set that holds the seeds and every known member's dependencies |
| PlanResolution.ExecutionCarrier | dos_re/execution.py:1384-1413 | the one carrier named by the owners of the roots that carry a program, overrides first, none when there are none, or a refusal exactly when they disagree |
| PlanResolution.CarrierForced | dos_re/execution.py:1384-1413 | at most one carrier resolves |
| PlanTerms.SelectedFirstBeats | dos_re/execution.py:1977-1981 | the order of choice: overrides before anything else, then the preferences in order, then the smallest name |
| PlanTerms.SoundFulfils | dos_re/execution.py:1853-2513 | the planner's conditions are the ones said in plain terms of the request: owners, attachments, eligibility, digests, regions, the least set of services, capabilities, open edges, features and overrides |
| PlanResolution.PlanExecution | dos_re/execution.py:1853-2513 | a returned plan fulfils all of them, and for a catalog with unique identities a refusal means there is no plan that does |
| PlanResolution.OverrideIsBound | dos_re/execution.py:1977-2027 | in such a plan an eligible override of a target is what the target is bound to |
| PlanResolution.NothingForbidden | dos_re/execution.py:2276-2303 | in a sound plan no implementation, service, feature or bootstrap part needs a forbidden capability |
| Planner.MostPreferredUnique | dos_re/execution.py:1371-1381 | at most one candidate is the most preferred |
| Observable.PackLayout | dos_re/observable.py:82-100 | a record is forty bytes: the kind in four, four zeros and four fields of eight, the lowest byte first |
| Observable.StreamIsFaithful | dos_re/observable.py:82-112 | as long as payload kinds and record kinds do not mix, the hashed stream determines the effects and their order |
| Observable.MixedKindsCollide | dos_re/observable.py:102-112 | when they mix, two different histories of the same length can give one stream |
| Observable.RollingEffectDigest.RecordEffect | dos_re/observable.py:82-100 | one packed record is fed, however the buffer is batched; a finished digest refuses |
| Observable.RollingEffectDigest.RecordBytes | dos_re/observable.py:102-112 | a header record and its payload are fed in order |
| Observable.RollingEffectDigest.Finish | dos_re/observable.py:114-127 | everything recorded has reached the hash |

## Left out

Members stated under a condition:

- FlatShapes.BulkStringExact: the ranges lie inside memory that ends below 4 GB, so that neither a Python slice nor an index past the end of the byte array is involved; an instruction of an unsafe shape can still agree on particular contents.
- FlatExact.BulkStringIsLoop: the corollary for callers; the exact conditions are `FlatShapes.BulkStringExact` and `FlatExact.InStepExact`.
- FlatExact.InStepExact: for the shapes whose units the slices can follow; the others are the business of `FlatShapes.BulkStringExact`.
- Flat386.CPU386.Once: forward direction and 32-bit addressing, the only ones with a bulk form; the offsets then wrap at 4 GB, where the memory modelled has ended.
- Flat386.CPU386.BulkString: ranges inside memory that ends below 4 GB; past its end the source slices short or raises an index error.
- Flat386.CPU386.StringOp: the same ranges, forward, with 32-bit addressing.
- PlanarVga.BulkCopyIsLoop: the corollary for callers; the exact condition is `PlanarVga.BulkCopyExact`.
- Shift.Cpu8086.Shift: the nine named flags; the reserved bits of the status word are not modelled.
- RealModeMemory.RealMemory.Rb: real mode; the selector table of the same lines is not modelled.
- RealModeMemory.RealMemory.Rw: real mode; the selector table of the same lines is not modelled.
- RealModeMemory.RealMemory.Wb: real mode; neither the selector table nor what a write watcher is told is modelled.
- RealModeMemory.RealMemory.Ww: real mode; neither the selector table nor what a write watcher is told is modelled.
- StringOps.Cpu8086.StringOp: MOVS and STOS; the other string instructions of these lines have no fast path.
- ArithUnit.CPU8086.Alu: ADD, ADC, SUB, SBB and CMP; OR, AND and XOR of the same lines clear CF and OF and carry nothing.
- JournalDevice.DOSVideo.VgaStatus: the journal; the returned bits toggle or depend on host time.
- StringOps.BulkCopyIsLoop: memory inside the machine's address space with no selector table; a registered write watcher makes the guard refuse, and what the watcher is told is not modelled.
- Lzexe.DecodesTokens: offsets do not wrap between segment markers, no token's output covers stream bytes still to be read, and the output is plain RAM below the BIOS ROM and every match reaches back to an address in memory. Bytes below the output that a match reaches are part of what is expanded.
- LeRebase.RebaseLoad: every store has a non-negative index and the memory of the shifted load is no smaller; without the first, `LeLimits.RebaseAnywhere` and `LeLimits.BackwardStoresWander` say what still holds and when.
- LeRebase.RebaseUp: the page size is a power of two, because the alignment is a bit mask.
- LeRebase.FieldMoves: about stores no later store touches; overlapping stores are settled byte by byte by `LeRebase.RebaseLoad`.
- ShadowRun.ExitsAreLate: frame boundaries at which no call is in progress on another stack, which is the condition `ShadowRun.FinishKeepsLiveExactly` proves necessary.
- FlatBytes.RepLeaves: ranges each on one side of the aperture's edges, where no byte of RAM is read after it was overwritten, and planes written in mode 0 with every bit enabled; forward overlaps are the business of `Blocks.OverlapReplicates`, the rest of `FlatShapes.BulkStringExact`.
- FlatBytes.ScreenLeaves: planes onto the same place or onto columns apart; overlaps are left to `PlanarVga.BulkCopyExact`.
- StringOps.CopyLeaves: a forward copy of ordinary bytes none of which is read after it was overwritten; the rest is said of one element by `StringOps.ElementMeans`.
- PlanarVga.BulkCopyStores: the same place or columns apart; the rest is `PlanarVga.BulkCopyExact`.
- LeFields.LoadHolds: fields that are settled, which no other store touches; the bytes of the others are their last store's (`LeLimits.LoadBytes`).
- Planner.PickedIsBest: a list without repeats, which the configuration enforces (`dos_re/execution.py:409-416`); `Planner.ListedFirstExactly` shows that repeats let an unlisted identity come before a listed one.
- LeLimits.BackwardRefusesLoad: a displacement of at most 2 GB; a target further back than that wraps to a positive one.
- PlanResolution.PlanExecution: unique implementation identities, which the catalog enforces (`dos_re/execution.py:711-714`); with duplicates the stable sort would decide by catalog order. The plain terms suppose overrides and preferences listed once, which the configuration enforces (`dos_re/execution.py:409-416`).
- KeyTiming.OrderlyKeysAlternate: one key at a time; a queue of events for many keys is the merge of its keys' queues, which `Keyboard.KeyDispatcher.DrainEvents` proves.
- PaletteEffects.ScanInOrder: two status reads per scan line, the only value the host passes.
- Observable.StreamIsFaithful: payload kinds are disjoint from record kinds; `Observable.MixedKindsCollide` shows why.

Parts of the modelled files:

- Notification of write watchers, selector mode of the real-mode memory, and EGA write modes 2 and 3 (refused, as in the source).
- The reserved bits of the status word; the flag record holds its nine named flags.
- OR, AND and XOR in `alu`, and INS, OUTS, LODS, CMPS and SCAS in the string instruction: straight table work.
- The other flags of the 386 shifts; `_alu_op`; `step` and its interrupt delivery.
- Header fields of an LE file: the loader starts from the fields it reads. An image whose page slice would resize the byte array, and a page number or first page of 0, make the model refuse where the source goes on. The census and the count of fixups.
- Other DOS calls, file services, mouse and text console; the allocator before its PSP block is seeded.
- The retrace bit of the status port, which depends on host time when a time source is set.
- Evidence text of the palette plan.
- The Sound Blaster's own service inside `pending_irq`: the lines it raises are an input.
- `_entered_via_call` and caller attribution in the function observer: only entries that pass the test are events. `detach`.
- Scan codes of 80h and above, whose make and break codes coincide.
- The planner's text: an unresolved edge is a value, not a string to split, and findings are reduced to whether one blocks; milestones and reports. The bootstrap provider's verdict and whether a digest is there are inputs; how digests are computed, and assets. Bindings are a map, not a sorted tuple.
- Claim merging in the Atlas (`rematerialize`, `_materialize_claims`), `resolve`, and the listings of unresolved edges.
- Lower-casing and digest parsing in the identity constructors; text outside ASCII in `unquote`, which goes through UTF-8.
- Hash functions: an effect digest is the byte sequence that was fed to it.

Not modelled at all:

- Host input and output, frontends, overlays, snapshots and tools: no logic to prove.
- Floating point: both x87 units, OPL3 synthesis and audio resampling. The audio ring receives arbitrary samples.
- Opcode decoding, tracing, hooks and telemetry.
- The REP helpers of `asm.py`, which have no overlap or ROM guard.
- 64-bit IDIV, which the source computes through a double.
