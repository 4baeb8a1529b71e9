# Verified models of the TXW4002A SDK's stateful cores

A Dafny project that models the parts of the SDK where state is changed in place, shared between threads and
interrupt handlers, or packed into registers, and proves what those parts promise. `dafny verify dfyconfig.toml`
checks all of it. The build modelled is the one for TXW4002ACK803 (`project/txw4002a.cdkproj`).

| file | what it models |
|---|---|
| `Seqs.dfy` | sequences without repetition, rotation, removal (shared by the two list modules) |
| `IntrusiveList.dfy` | `list_head` rings: every operation on the heap, refined by a sequence operation |
| `HashList.dfy` | `hlist` chains, whose nodes point back at the slot that holds them |
| `Bits.dfy` | exclusive or, and, powers of two on numbers |
| `CrcUnit.dfy` | the CRC driver of one caller: hold, one-shot and continued calculations |
| `CrcSharing.dfy` | the same driver as a protocol between any number of threads and the engine |
| `M2mDma.dfy` | the memory DMA driver: channels, rows, hardware and software paths |
| `M2mChannels.dfy` | the channel allocator as a protocol between concurrent transfers |
| `DmaHal.dfy` | `dma_memcpy` and `dma_memset` on top of it |
| `DwDmac.dfy` | the DMA controller driver shared by SPI and UART |
| `DmacHandshake.dfy` | SPI and UART calls, completions and interrupts as one protocol |
| `AesCbc.dfy` | CBC as in section 6.2 of NIST SP 800-38A, on sequences of blocks |
| `SysAes.dfy` | the AES driver in place on byte buffers |
| `SpiNor.dfy` | page programming on a flash that wraps inside a page and only clears bits |
| `Gpio.dfy` | packed pin registers, and the pins they stand for |
| `PairSta.dfy` | the table of paired stations and its bulk rewrite |
| `TickTimer.dfy` | the 32-bit tick from a 16-bit counter, its interrupt and its reader |
| `CacheRange.dfy` | cache maintenance by range, on a write-back cache |
| `TimerStart.dfy` | choice of prescaler and elapsed time |

Code that rewrites fields, arrays and registers is modelled by classes and methods with loops, each proved
against a function of the old state; where several parties interleave there is besides a state machine whose
steps are the indivisible sections of the code, and theorems over every run of it. History that the program does
not keep (who was granted a channel, what a session has summed, how many overflows were lost) is carried by
fields of the state machines that no step reads.

## What the hardware is taken to do

- A memory DMA channel moves bytes from low to high addresses, one byte more than its length register says.
- The CRC engine turns CRC_INIT into `fold(step, CRC_INIT, data) ^ CRC_INV` and interrupts once. `step` is a parameter.
  Resetting the unit stops the engine and leaves CRC_OUT.
- The mutex behind the hold protocol is the kernel's: its owner may lock it again, and only its owner unlocks it
  (`csky/csi_kernel/rhino/core/k_mutex.c`). In `CrcSharing.dfy` a thread comes with one cookie of its own, so it never
  meets its own lock; what a second cookie does is in `HgCrc.Hold` and `HgCrc.Calc`: the holder is let in again and
  the cookie it held before is overwritten.
- A DMA controller transfer ends with one interrupt, success or error; an SPI or UART device is used by one caller at a time.
- The AES engine applies one block function per key and direction, a parameter; decryption inverts encryption
  only where a theorem says so. A started block operation completes.
- A flash program command wraps inside its page and can only clear bits; an erase sets those of one sector.
- The GPIO data register reads back what was last written to it, for inputs as for outputs.
- Writing a one to a pending bit of a timer clears it, writing a zero does not (`sdk/include/dev/timer/hgtimer_v2.h`);
  a stopped timer keeps its count. The tick interrupt has the highest priority and the reader masks it.
- A cleaned line is written back when dirty and stays in the cache; an invalidated line is dropped.
- `os_memcpy` between two ranges copies upwards.
- Sizes and constants: `HG_M2M_DMA_NUM` 2, `DW_DMAC_MAX_DMAC_CHN` 4, `HGGPIO_V2_MAX_PINS` 32, SRAM_BASE 0x20000000.
  `GPIO_DS_53MA` and the numbers behind the pull levels and pin functions are not part of this model; the first is a
  parameter that fits four bits, the others are any word.

## Where the code falls short of its promise

Each of these is a theorem that says exactly when the code does what is expected.

- Tick: the reader restarts the timer with the control word it read, whose pending bit, if set, is a one and so
  clears the overflow before the handler has counted it. The value returned is right; every later one is 0x10000
  short per such reader (`ExactUntilOverflowWasRead`, `TimeRunsBack`, `OverflowForgotten`).
- Cache ranges: `(int32_t)addr % 16` is negative for an unaligned address from 0x80000000 on, and exactly the last
  line of the range is left out (`TouchesOverlapping`, `ExactLinesIff`, `CleanMakesMemoryAgreeIff`).
- CRC sharing: a step keeps exclusive ownership exactly when it obeys two rules (`StepSafeIffDisciplined`). A release
  of a unit that another thread holds fails and copies the owner's cookie to the caller, who then owns the unit too
  (`ReleaseSafeIff`, `StrayReleaseSharesUnit`, `StrayReleaseHappens`); so does a cookie drawn twice from the clock
  (`CookieSafeIffFresh`).
- CRC hand-back: a calculation that found the unit free leaves it free exactly when it is not a continuation and the
  cookie drawn is not the one it came with (`CalcEndsFreeIff`, `HgCrc.Calc`). A continuation on a free unit takes it
  and never gives it back (`ContinuationKeepsUnit`).
- CRC value: a wait that gave up leaves its token to the next calculation, which then returns RET_OK with the CRC_OUT of
  before, whatever its data (`StaleToken`, `StaleTokenHappens`). Sessions that begin with the semaphore empty are
  right in every run, timeouts of anyone included (`ReportedValue`); any fresh calculation is right exactly as far as
  its engine has completed when CRC_OUT is read (`FreshValue`).
- Memory DMA: an M2M transfer that read `ch0_lock` before it was set can still be granted channel 0
  (`ZeroAfterGrantIffStale`, `StaleChoiceHappens`); an empty transfer would make the engine run through 2^32 bytes
  (`EngineMovesNonEmpty`); a copy to a higher overlapping address sees bytes it has already written
  (`CopyUpCopiesIff`).
- DMA controller: SPI and UART ignore a refused channel and then wait for ever (`RefusedWaitsForever`,
  `RefusedWaitHappens`); a width the controller cannot do costs a channel (`DwDmac.Controller.Xfer`).
- AES: in CBC mode a key length other than 256 bits yields RET_OK with the blocks chained but not encrypted (`SysAes.Sysaes.Encrypt`).
- `hlist_move_list` onto the same head loses the chain (`HlistMoveList`).
- GPIO: pull levels and function numbers are not masked; other pins are safe exactly when no bit of the
  value leaves the pin's field (`OtherPinsSafeIff`).
- Pairing: the zero address is accepted as long as a slot is free (`PairSta.Config.PreAuth`), pairing it on a full
  table pushes a station out (`PairedMembers`), and station mode can store an address twice
  (`StationModeDistinctIff`). In `wificfg_set_paired_stas` the test `ifidx < 0` never holds, since `ifidx` is
  unsigned; the model makes one request per unwanted station.
- Timer start: the tick count is taken modulo 2^32, so a time that is too long may be accepted and run short
  (`AcceptedPeriodRightIff`); exactly 2^23 ticks pass the assertion and are then refused (`SomePrescalerIff`). A time
  difference across a wrap is one tick short (`TimerStart.DifferenceExactIff`).

## Model

| member | source | states |
|---|---|---|
| IntrusiveList.RingUnique | sdk/include/list.h:39-50 | following `next` from a node yields one sequence: a ring's contents are determined by the heap |
| IntrusiveList.RingsCoincideOrDisjoint | sdk/include/list.h:39-50 | two rings that share a node are one ring read from different starts |
| IntrusiveList.RotateRing | sdk/include/list.h:231-239 | a ring read from any of its nodes is a ring |
| IntrusiveList.LinkBetween | sdk/include/list.h:52-65 | linking a new node between the ends of a ring appends it to the ring |
| IntrusiveList.ListAdd | sdk/include/list.h:75-78 | the list becomes the new entry followed by the old entries |
| IntrusiveList.ListAddTail | sdk/include/list.h:89-92 | the list becomes the old entries followed by the new one |
| IntrusiveList.Unlink | sdk/include/list.h:101-108 | two non-null neighbours are joined and keep their outer links; a null one changes nothing |
| IntrusiveList.ListDelEntry | sdk/include/list.h:116-119 | the ring closes without the entry, whose own links are kept |
| IntrusiveList.ListDel | sdk/include/list.h:121-126 | the ring closes without the entry, whose links are cleared |
| IntrusiveList.ListDelAgain | sdk/include/list.h:101-126 | deleting a deleted entry changes nothing |
| IntrusiveList.ListDelInit | sdk/include/list.h:159-163 | the ring closes without the entry, which becomes an empty list |
| IntrusiveList.ListReplace | sdk/include/list.h:139-146 | the new node takes the old one's place, everything else stays |
| IntrusiveList.ListReplaceInit | sdk/include/list.h:148-153 | likewise, and the old node becomes an empty list |
| IntrusiveList.ListMove | sdk/include/list.h:170-174 | an entry moves to the front of its own or another list; the ring it left closes |
| IntrusiveList.ListMoveTail | sdk/include/list.h:181-186 | an entry moves to the end of its own or another list; the ring it left closes |
| IntrusiveList.ListEmpty | sdk/include/list.h:203-206 | true exactly for the list without entries |
| IntrusiveList.ListIsSingular | sdk/include/list.h:245-248 | true exactly for lists of one entry |
| IntrusiveList.ListRotateLeft | sdk/include/list.h:231-239 | the first entry moves to the end |
| IntrusiveList.RotateLeftNIsRotated | sdk/include/list.h:231-239 | n left rotations of a sequence bring entry n to the front |
| IntrusiveList.RotateRepeatedly | sdk/include/list.h:231-239 | n calls on the heap do so too, and a full turn restores the list |
| IntrusiveList.FullRotation | sdk/include/list.h:231-239 | one rotation per entry is the identity |
| IntrusiveList.CutAt | sdk/include/list.h:250-261 | the list is cut after the entry into two lists |
| IntrusiveList.ListCutPosition | sdk/include/list.h:276-288 | each branch: cut after the entry, cut nothing at the head, refuse an empty list and a stranger |
| IntrusiveList.SpliceBetween | sdk/include/list.h:290-302 | the entries of a list are linked between two neighbours of a disjoint ring, none lost or doubled |
| IntrusiveList.ListSplice | sdk/include/list.h:309-314 | the entries of one list come before those of the other |
| IntrusiveList.ListSpliceTail | sdk/include/list.h:321-326 | the entries of one list come after those of the other |
| IntrusiveList.ListSpliceInit | sdk/include/list.h:335-342 | as splice, and the source becomes empty |
| IntrusiveList.ListSpliceTailInit | sdk/include/list.h:352-359 | as splice at the tail, and the source becomes empty |
| IntrusiveList.CutThenSplice | sdk/include/list.h:276-342 | cutting at any point and splicing back onto the same head restores the list |
| IntrusiveList.ForEachSafe | sdk/include/list.h:425-427 | the loop visits each original entry once, in order, whatever its body does with the current one: keep, delete or move away; the lists end up with the entries so chosen |
| IntrusiveList.SelectHolds | sdk/include/list.h:425-427 | an entry is among the kept, deleted or moved exactly when its body chose so |
| IntrusiveList.SelectOneMore | sdk/include/list.h:425-427 | and those chosen keep their order |
| HashList.PprevPointsBack | sdk/include/list.h:598-621 | in a chain `*pprev` of every node is that node |
| HashList.ChainUnique | sdk/include/list.h:609-612 | a chain's contents are determined by the heap |
| HashList.HlistDel | sdk/include/list.h:614-628 | the chain closes without the node, whose links are cleared |
| HashList.HlistDelInit | sdk/include/list.h:630-636 | likewise, and nothing happens to a node on no chain |
| HashList.HlistAddHead | sdk/include/list.h:638-646 | the chain becomes the node followed by the old chain |
| HashList.HlistAddBefore | sdk/include/list.h:649-656 | the node is inserted before a given one |
| HashList.HlistAddAfter | sdk/include/list.h:658-667 | the second argument is inserted after the first |
| HashList.HlistAddFakeThenDel | sdk/include/list.h:670-673 | a node made to look hashed can be deleted, writing only itself and a stale successor |
| HashList.HlistMoveList | sdk/include/list.h:679-686 | the chain changes heads exactly when the heads differ or it is empty |
| CrcUnit.FoldAppend | sdk/driver/crc/hg_crc.c:128-147 | the engine's register after a ++ b is that after b started from that after a |
| CrcUnit.FoldOne | sdk/driver/crc/hg_crc.c:275-282 | one byte steps the register once, no byte leaves it |
| CrcUnit.FoldSnoc | sdk/driver/crc/hg_crc.c:275-282 | a further byte steps the register left by the data before it |
| CrcUnit.FoldIsLast | sdk/driver/crc/hg_crc.c:275-282 | the fold is the last of the register values the bytes step through |
| CrcUnit.ContinueChecksum | sdk/driver/crc/hg_crc.c:134-146 | starting from CRC_OUT ^ CRC_INV continues the checksum of what went before, for every configuration |
| CrcUnit.HgCrc.Hold | sdk/driver/crc/hg_crc.c:150-180 | each branch of hold and release: result, cookie and whole new state, the owner's nested lock included |
| CrcUnit.HgCrc.CalcContinue | sdk/driver/crc/hg_crc.c:128-147 | the value continued from the last output, and the stale one a left-over semaphore token gives |
| CrcUnit.HgCrc.Calc | sdk/driver/crc/hg_crc.c:218-288 | result and value on success, timeout, busy and bad requests, for one byte in terms of the step itself; it hands the unit back exactly when it took it, is no continuation and drew another cookie than it came with |
| CrcUnit.HgCrc.Session | sdk/driver/crc/hg_crc.c:128-288 | calc(d0), continue(d1), ... returns the checksum of d0 ++ d1 ++ ... for any number of chunks exactly when every chunk completes in time; the unit is kept either way |
| CrcSharing.MutualExclusion | sdk/driver/crc/hg_crc.c:150-180 | under the protocol's invariant one thread owns the unit, and HOLD implies the mutex |
| CrcSharing.ProtocolStep | sdk/driver/crc/hg_crc.c:150-288 | every step that obeys the two rules keeps that invariant |
| CrcSharing.StepSafeIffDisciplined | sdk/driver/crc/hg_crc.c:150-288 | and no other step does |
| CrcSharing.ReachableExclusion | sdk/driver/crc/hg_crc.c:150-288 | so in every reachable state at most one thread owns the unit |
| CrcSharing.OneOwnerIffFresh | sdk/driver/crc/hg_crc.c:157-169 | taking the unit leaves one owner exactly when the new cookie is in nobody else's hand |
| CrcSharing.CookieSafeIffFresh | sdk/driver/crc/hg_crc.c:157-169 | and keeps the protocol exactly then |
| CrcSharing.ReleaseSafeIff | sdk/driver/crc/hg_crc.c:169-179 | a release keeps the protocol exactly when it is the owner's or nobody holds the unit |
| CrcSharing.StrayReleaseSharesUnit | sdk/driver/crc/hg_crc.c:169-179 | a release of a unit held by another fails and makes the caller a second owner |
| CrcSharing.StrayReleaseHappens | sdk/driver/crc/hg_crc.c:150-180 | a run from the start in which it does |
| CrcSharing.ReportedValue | sdk/driver/crc/hg_crc.c:128-288 | over every run, timeouts included, a calculation in a session begun with the semaphore empty reports the checksum of all the session's data |
| CrcSharing.LegReports | sdk/driver/crc/hg_crc.c:218-288 | one call in any interleaving: in a session its value is the checksum of the data of the call after what the session had before, in the type the call or the session named |
| CrcSharing.SessionReports | sdk/driver/crc/hg_crc.c:128-288 | in every interleaving of threads calc(d0), continue(d1), ... of a thread whose session stays open return what one calculation on d0 ++ d1 ++ ... returns, in the type the first call named |
| CrcSharing.FreshValue | sdk/driver/crc/hg_crc.c:252-287 | over every run a fresh calculation reports the checksum of its data if the engine has completed when CRC_OUT is read, and the CRC_OUT it found if not |
| CrcSharing.StaleToken | sdk/driver/crc/hg_crc.c:256-287 | a fresh calculation that finds a token returns RET_OK with the previous CRC_OUT |
| CrcSharing.StaleTokenHappens | sdk/driver/crc/hg_crc.c:119-287 | a run from the start that leads there |
| CrcSharing.CalcEndsFreeIff | sdk/driver/crc/hg_crc.c:243-287 | over every run, however a calculation ends, it leaves the unit free exactly when it is no continuation and its cookie is not the one it came with; otherwise it still holds it |
| CrcSharing.EarlyAnswers | sdk/driver/crc/hg_crc.c:156-227 | bad requests, a hold already held and a wait for the unit that runs out answer RET_ERR, RET_OK and -EBUSY, and change nothing else |
| CrcSharing.ContinuationKeepsUnit | sdk/driver/crc/hg_crc.c:243-250 | a run in which a continuation takes a free unit and returns holding it |
| M2mDma.BlockArrives | sdk/driver/dma/hg_m2m_dma.c:40-83 | block copy moves byte (row, col) to (row, col) for every pair in range |
| M2mDma.BlockLeaves | sdk/driver/dma/hg_m2m_dma.c:40-83 | and leaves every byte outside the destination rows as it was, the gaps included |
| M2mDma.ApartIsSafe | sdk/driver/dma/hg_m2m_dma.c:40-83 | areas that are apart may be copied row by row |
| M2mDma.MemDma.GetFreeCh | sdk/driver/dma/hg_m2m_dma.c:12-31 | which channel is granted, and that its bit and no other becomes busy |
| M2mDma.MemDma.HwBlkcpy | sdk/driver/dma/hg_m2m_dma.c:59-83 | one channel operation per row makes the block copy, and the channel is returned |
| M2mDma.MemDma.SoftBlkcpy | sdk/driver/dma/hg_m2m_dma.c:40-58 | the software loops make the same block copy |
| M2mDma.MemDma.Xfer | sdk/driver/dma/hg_m2m_dma.c:86-163 | the memory effect, overlap included, is the same by channel 0, channel 1 or software for every non-empty request; what was taken is returned; at most (count >> 8) + 1 attempts |
| M2mDma.TransferredAt | sdk/driver/dma/hg_m2m_dma.c:86-158 | byte by byte, what a fill and a copy of so many elements of a given width leave, inside the range and outside |
| M2mDma.CopyUpCopiesIff | sdk/driver/dma/hg_m2m_dma.c:115-158 | going upwards copies the source as it was, whatever memory holds, exactly when no byte is overwritten before it is read |
| M2mDma.EngineMovesNonEmpty | sdk/driver/dma/hg_m2m_dma.c:71-75 | the length register asks for n bytes exactly when n is not zero |
| M2mChannels.BusyIffOwned | sdk/driver/dma/hg_m2m_dma.c:12-38 | in every reachable state a busy bit is set exactly while a transfer owns the channel |
| M2mChannels.OneOwner | sdk/driver/dma/hg_m2m_dma.c:12-38 | two transfers never own one channel |
| M2mChannels.AllReturned | sdk/driver/dma/hg_m2m_dma.c:86-163 | when all callers are back all channels are free |
| M2mChannels.AttemptsBounded | sdk/driver/dma/hg_m2m_dma.c:91-126 | the retry bound, in every interleaving |
| M2mChannels.AttemptsOfCall | sdk/driver/dma/hg_m2m_dma.c:86-126 | a call for count bytes makes at most (count >> 8) + 1 attempts before it returns |
| M2mChannels.ZeroAfterGrantIffStale | sdk/driver/dma/hg_m2m_dma.c:91-126 | after a non-M2M grant of channel 0 an M2M transfer gets it exactly on an out-of-date reading of the flag with channel 1 taken and channel 0 free |
| M2mChannels.NeverZeroAfterGrant | sdk/driver/dma/hg_m2m_dma.c:91-126 | with flag read and grab in one step it never does |
| M2mChannels.StaleChoiceHappens | sdk/driver/dma/hg_m2m_dma.c:91-126 | a run in which it does |
| DmaHal.PiecesMakeCopy | sdk/hal/dma.c:51-85 | a moved middle and the two saved ends make the whole copy |
| DmaHal.CopiedAt | sdk/hal/dma.c:23-86 | byte by byte, what a copy leaves |
| DmaHal.FilledAt | sdk/hal/dma.c:88-138 | byte by byte, what a fill leaves |
| DmaHal.DmaMemcpy | sdk/hal/dma.c:23-86 | the destination equals the original source, for every n, disjoint or with the destination below the source |
| DmaHal.DmaMemset | sdk/hal/dma.c:88-138 | exactly the n bytes take the value |
| DwDmac.Controller.Xfer | sdk/driver/dma/dw_dmac.c:35-136 | every return: closed, no channel, a width that leaks the channel, a direction that gives it back, and the start of the lowest free channel with the caller's handler |
| DwDmac.Controller.Stop | sdk/driver/dma/dw_dmac.c:155-170 | the channel is free and no longer runs if it was taken; nothing else changes |
| DwDmac.Controller.IrqHandler | sdk/driver/dma/dw_dmac.c:12-33 | afterwards nothing is pending, a channel is in use exactly if it was and had nothing pending, and every semaphore is up by the interrupts pending for it |
| DwDmac.LoopServes | sdk/driver/dma/dw_dmac.c:17-32 | the same of the channels the loop has passed, the others untouched |
| DmacHandshake.IrqHandlerIsRun | sdk/driver/dma/dw_dmac.c:12-33 | the handler is the run of the interrupt steps pending |
| DmacHandshake.XferIsRun | sdk/driver/dma/dw_dmac.c:51-62 | a granted transfer is a take step and a start step |
| DmacHandshake.InvStep | sdk/driver/dma/dw_dmac.c:12-170 | calls, grants, starts, completions, interrupts and waits all keep channels, tokens and pending waits in balance |
| DmacHandshake.OneTransferPerChannel | sdk/driver/dma/dw_dmac.c:51-62 | in every reachable state a taken channel has exactly one transfer outstanding and a free one none |
| DmacHandshake.ReturnedClean | sdk/driver/spi/hgspi_dw.c:427-504 | a finished SPI or UART write call has every channel released and its semaphores at zero |
| DmacHandshake.MasterReadActs | sdk/driver/spi/hgspi_dw.c:427-466 | over every run a master's read that has returned took and started one receive and one transmit channel, in that order, and waited for the transmit side before the receive side |
| DmacHandshake.SlaveReadActs | sdk/driver/spi/hgspi_dw.c:427-466 | a slave's took, started and waited for the receive channel alone |
| DmacHandshake.WriteActs | sdk/driver/spi/hgspi_dw.c:486-504 | a write over SPI or UART took, started and waited for one transmit channel |
| DmacHandshake.WaitEndsIffGranted | sdk/driver/spi/hgspi_dw.c:427-504 | a waiting call has its token coming exactly when its channel was granted |
| DmacHandshake.RefusedWaitsForever | sdk/driver/uart/hguart.c:197-210 | a call whose refusal was ignored waits in every later state |
| DmacHandshake.RefusedWaitHappens | sdk/driver/spi/hgspi_dw.c:486-504 | five writers and four channels: a run from the start after which the fifth waits in every later state |
| AesCbc.EncryptAt | sdk/driver/sysaes/hg_sysaes.c:109-120 | C_i = E(P_i xor C_(i-1)) with C_0 the iv |
| AesCbc.DecryptAt | sdk/driver/sysaes/hg_sysaes.c:158-170 | P_i = D(C_i) xor C_(i-1) |
| AesCbc.XorBlockAt | sdk/driver/sysaes/hg_sysaes.c:117-119 | bit i of byte k of the exclusive or is set exactly when the two bits differ |
| Bits.XorByteAt | sdk/driver/sysaes/hg_sysaes.c:117-119 | the same of one byte |
| Bits.XorWordAt | sdk/driver/crc/hg_crc.c:134-134 | the same of a 32-bit word |
| AesCbc.EncryptPrefix | sdk/driver/sysaes/hg_sysaes.c:109-120 | cipher blocks depend only on the blocks up to their own |
| AesCbc.RoundTrip | sdk/driver/sysaes/hg_sysaes.c:100-176 | decryption undoes encryption for every block count |
| AesCbc.RoundTripBack | sdk/driver/sysaes/hg_sysaes.c:100-176 | encryption undoes decryption |
| AesCbc.EncryptAppend | sdk/driver/sysaes/hg_sysaes.c:100-128 | encrypting a ++ b is encrypting a and then b with a's last cipher block as iv |
| AesCbc.DecryptAppend | sdk/driver/sysaes/hg_sysaes.c:145-176 | likewise for decryption, with the last block of a itself |
| SysAes.Sysaes.Hdl | sdk/driver/sysaes/hg_sysaes.c:47-87 | the block function applied to every block, or an error and nothing changed |
| SysAes.Sysaes.CipherBlock | sdk/driver/sysaes/hg_sysaes.c:89-131 | each block of an encryption, in either mode and for every key length, from the block function and the block before |
| SysAes.Sysaes.PlainBlock | sdk/driver/sysaes/hg_sysaes.c:133-179 | likewise of a decryption |
| SysAes.Sysaes.Encrypt | sdk/driver/sysaes/hg_sysaes.c:89-131 | the destination holds the CBC or ECB encryption of the original source; bytes outside and para's fields are as before |
| SysAes.Sysaes.Decrypt | sdk/driver/sysaes/hg_sysaes.c:133-179 | likewise for decryption |
| SysAes.Sysaes.EncryptThenDecrypt | sdk/driver/sysaes/hg_sysaes.c:89-179 | in place, decrypting what was just encrypted restores the buffer, given a block function that decryption inverts |
| SpiNor.ProgramInPage | sdk/hal/spi_nor.c:52-77 | a command inside one page is a plain and-write |
| SpiNor.FlatAndAt | sdk/hal/spi_nor.c:52-77 | byte by byte, what a write leaves, inside the range and outside |
| SpiNor.ErasedAt | sdk/hal/spi_nor.c:79-85 | byte by byte, what an erase leaves, inside the sector and outside |
| SpiNor.WellPlacedMeans | sdk/hal/spi_nor.c:61-76 | each command of a write lies in one page and starts where the one before ended |
| SpiNor.PagesAre | sdk/hal/spi_nor.c:61-76 | the pages counted are those that hold a byte of the range |
| Bits.AndByteAt | sdk/hal/spi_nor.c:52-77 | programming: a bit stays set exactly when it was set in both |
| Bits.CoversIff | sdk/hal/spi_nor.c:52-77 | covering a byte is covering each of its bits |
| SpiNor.ReadBackIff | sdk/hal/spi_nor.c:44-77 | what is read back is the buffer exactly when the flash had every bit of it set |
| SpiNor.Flash.Write | sdk/hal/spi_nor.c:52-77 | contiguous commands inside pages that concatenate to the buffer, one per page touched, with the effect of one flat and-write |
| SpiNor.Flash.SectorErase | sdk/hal/spi_nor.c:79-85 | the sector an address lies in becomes all ones, the rest stays |
| SpiNor.Flash.WriteThenRead | sdk/hal/spi_nor.c:44-85 | reading back returns the buffer exactly when each byte fell into the sector erased or onto bits that were set |
| Gpio.SpreadPin | sdk/driver/gpio/hggpio_v2.c:383-401 | for one pin the bit spread gives its mode field's low bit and its function field's low bit |
| Gpio.AfioField | sdk/driver/gpio/hggpio_v2.c:371-425 | the function field of the pin is set, whatever it held, and no other |
| Gpio.AfioModeAt | sdk/driver/gpio/hggpio_v2.c:371-425 | the mode field of the pin becomes 2, and no other changes |
| Gpio.SetFieldAt | sdk/driver/gpio/hggpio_v2.c:49-68 | setting one 4-bit field leaves the other 31 |
| Gpio.SetModeFieldAt | sdk/driver/gpio/hggpio_v2.c:164-194 | setting one 2-bit field leaves the other 31 |
| Gpio.WritesPin | sdk/driver/gpio/hggpio_v2.c:24-194 | an accepted request changes its pin's record as it should and no other pin's |
| Gpio.OpenDrainBit | sdk/driver/gpio/hggpio_v2.c:138-162 | the open-drain bit is clear after the three plain modes and set after the three open-drain ones |
| Gpio.NoPullFields | sdk/driver/gpio/hggpio_v2.c:33-57 | no pull clears both pull fields |
| Gpio.PullUpFields | sdk/driver/gpio/hggpio_v2.c:58-78 | pull-up writes its own field and keeps the other |
| Gpio.PullDownFields | sdk/driver/gpio/hggpio_v2.c:79-98 | pull-down writes its own field and keeps the other |
| Gpio.ModeFields | sdk/driver/gpio/hggpio_v2.c:177-191 | an input has mode 0, an output 1 |
| Gpio.AnalogFields | sdk/driver/gpio/hggpio_v2.c:311-324 | analog has mode 3, switched off 1 |
| Gpio.AfioFields | sdk/driver/gpio/hggpio_v2.c:371-425 | an alternate function has mode 2 and its number |
| Gpio.DriveAnswer | sdk/driver/gpio/hggpio_v2.c:107-246 | only own pins and no drive beyond the strongest |
| Gpio.ExecutePin | sdk/driver/gpio/hggpio_v2.c:164-425 | foreign pins and refused requests change nothing |
| Gpio.RunRefinesPins | sdk/driver/gpio/hggpio_v2.c:24-425 | any sequence of requests treats the registers as independent pin records |
| Gpio.SetThenGet | sdk/driver/gpio/hggpio_v2.c:248-275 | a value set is read back until that pin is set again, whatever else happens |
| Gpio.OthersSafeIffNoSpill | sdk/driver/gpio/hggpio_v2.c:49-97 | the other fields of a register are safe for every register value exactly when no bit of the value leaves the field |
| Gpio.OtherPinsSafeIff | sdk/driver/gpio/hggpio_v2.c:24-425 | an accepted request leaves all other pin records alone, whatever the registers hold, exactly when it stays in its field |
| Gpio.RunRefinesPinsWithinFields | sdk/driver/gpio/hggpio_v2.c:24-425 | any sequence of requests that stay in their fields acts on independent pin records with the low four bits of its values |
| Gpio.Controller.AlternateFunction | sdk/driver/gpio/hggpio_v2.c:371-425 | the register writes are the request as specified |
| Gpio.Controller.Direction | sdk/driver/gpio/hggpio_v2.c:164-194 | the register writes are the request as specified, a bad direction is refused |
| Gpio.Controller.AnalogSelect | sdk/driver/gpio/hggpio_v2.c:300-327 | the register writes are the request as specified |
| Gpio.Controller.DriverStrength | sdk/driver/gpio/hggpio_v2.c:107-246 | the register writes are the request as specified, too strong a drive is refused |
| Gpio.Controller.Mode | sdk/driver/gpio/hggpio_v2.c:138-234 | the open-drain bit and the pull registers, a bad mode is refused before anything is written |
| Gpio.Controller.Pull | sdk/driver/gpio/hggpio_v2.c:24-105 | pull-up and pull-down are separate fields |
| Gpio.Controller.SetValue | sdk/driver/gpio/hggpio_v2.c:260-275 | the register write is the request as specified |
| PairSta.StepKeepsNoDup | project/pairsta.c:54-101 | an event in access-point mode keeps the non-zero entries distinct |
| PairSta.UnpairedMembers | project/pairsta.c:76-82 | unpairing takes exactly that station out |
| PairSta.PairedMembers | project/pairsta.c:71-100 | pairing brings the station in, pushes out at most one that is not connected, and fails exactly when all slots hold connected ones |
| PairSta.RunKeepsNoDup | project/pairsta.c:54-112 | distinctness over every run |
| PairSta.ConnectedStaysPaired | project/pairsta.c:54-112 | a station reported connected at every pairing and never unpaired stays in the table |
| PairSta.NobodyUninvited | project/pairsta.c:54-112 | who is in the table was in it or has been paired |
| PairSta.UnpairedStaysOut | project/pairsta.c:54-112 | an unpaired station is out until paired again |
| PairSta.StationModeDistinctIff | project/pairsta.c:59-69 | station mode keeps the table distinct exactly when no other slot holds the newcomer |
| PairSta.RewrittenTable | project/syscfg.c:1300-1303 | the rewritten table is distinct exactly when the list is, and late deletions cannot touch it |
| PairSta.UnwantedInOrder | project/syscfg.c:1280-1299 | the stations to unpair, in the order of the table |
| PairSta.Config.Check | project/pairsta.c:43-52 | 0 exactly for an address in the table |
| PairSta.Config.Save | project/pairsta.c:54-101 | station mode: slot 0 takes the newcomer, or is cleared if it held the station unpaired, and no other slot changes; access-point mode: the first slot that will do is cleared or takes the newcomer, over nobody who is connected |
| PairSta.Config.PreAuth | project/pairsta.c:112-118 | with pair_conn_only accepted exactly when in the table |
| PairSta.Config.NotifyAll | project/pairsta.c:103-120 | events handled one by one on the array make the run, and keep it distinct |
| PairSta.Config.SetPairedStas | project/syscfg.c:1274-1304 | however deletions interleave slot i ends as entry i of the list, or empty past its end; from a distinct table the requests are exactly the unwanted stations in order |
| TickTimer.StepBalances | sdk/chip/txw4002ack803/ticker_api.c:16-76 | every overflow is counted, pending, in the handler, merged or cleared, at every step |
| TickTimer.ReadingExactIff | sdk/chip/txw4002ack803/ticker_api.c:38-61 | in every interleaving a value is the true count modulo 2^32 exactly when the overflows it misses are a multiple of 0x10000 |
| TickTimer.DifferenceExactIff | sdk/chip/txw4002ack803/ticker_api.c:38-61 | differences of two values are true exactly when no overflow was missed in between, up to that multiple |
| TickTimer.ExactUntilOverflowWasRead | sdk/chip/txw4002ack803/ticker_api.c:38-61 | what is missed is one overflow per earlier reader that found one pending |
| TickTimer.TimeRunsBack | sdk/chip/txw4002ack803/ticker_api.c:45-57 | two calls in a row with an overflow pending: the second value is 0x10000 less |
| TickTimer.OverflowForgotten | sdk/chip/txw4002ack803/ticker_api.c:16-76 | a run in which the second call returns 0 and the handler finds nothing to count |
| TickTimer.Ticker.GetTick | sdk/chip/txw4002ack803/ticker_api.c:38-61 | the code in place makes the steps of the protocol; its value, and the overflow it clears |
| TickTimer.Ticker.IrqHandler | sdk/chip/txw4002ack803/ticker_api.c:68-76 | a pending overflow is counted once, whatever passes meanwhile |
| CacheRange.WritesInOrder | csky/csi_core/include/core_803.h:1205-1242 | the values written name consecutive lines and carry the operation bits intact |
| CacheRange.TouchesOverlapping | csky/csi_core/include/core_803.h:1205-1333 | a non-empty range touches the lines it overlaps, all or all but the last |
| CacheRange.ExactLinesIff | csky/csi_core/include/core_803.h:1205-1333 | for every size, when the lines touched are exactly the lines overlapped |
| CacheRange.MaintainAllLine | csky/csi_core/include/core_803.h:1205-1333 | a line named by the writes gets the operation, no other line changes |
| CacheRange.CleanKeepsView | csky/csi_core/include/core_803.h:1251-1290 | cleaning changes nothing the processor reads |
| CacheRange.CleanMakesMemoryAgreeIff | csky/csi_core/include/core_803.h:1251-1290 | when memory agrees with the processor on the whole range afterwards |
| CacheRange.InvalidateShowsMemory | csky/csi_core/include/core_803.h:1205-1333 | after invalidating, memory is read; with cleaning, dirty data reached it first |
| CacheRange.Cache.Walk | csky/csi_core/include/core_803.h:1205-1242 | the unrolled loop and the remainder loop write exactly the specified sequence |
| CacheRange.Cache.CleanRange | csky/csi_core/include/core_803.h:1251-1290 | the effect, and agreement of memory under the guard |
| CacheRange.Cache.InvalidRange | csky/csi_core/include/core_803.h:1205-1242 | the effect, and agreement of memory under the guard |
| CacheRange.Cache.CleanInvalidRange | csky/csi_core/include/core_803.h:1293-1333 | the effect, and agreement of memory under the guard |
| TimerStart.SomePrescalerIff | sdk/driver/timer/hgtimer_v2.c:78-87 | a prescaler is found exactly below 2^23 ticks |
| TimerStart.PeriodBounds | sdk/driver/timer/hgtimer_v2.c:79-98 | the period fits 16 bits, is less than one prescaled step short, and off by less than 2^-15 with a prescaler |
| TimerStart.AcceptedPeriodRightIff | sdk/driver/timer/hgtimer_v2.c:77-98 | an accepted time runs as asked exactly when its ticks fit 32 bits |
| TimerStart.DifferenceExactIff | sdk/driver/timer/hgtimer_v2.c:125-131 | the difference is the true number of ticks, or one less exactly when the counter wrapped |
| TimerStart.MicrosBounds | sdk/driver/timer/hgtimer_v2.c:125-132 | the microseconds returned against the time elapsed |
| TimerStart.Timer.Start | sdk/driver/timer/hgtimer_v2.c:63-107 | every return code, and the registers after success |
| TimerStart.Timer.TimeDiff | sdk/driver/timer/hgtimer_v2.c:116-132 | the answer for the running timer |

## Left out

- Gpio.Controller.Pull: the registers are one record that the methods replace, not separate memory words; locking of the system controller around the writes is not modelled.
- CacheRange.Cache.Walk: the three range functions share one body here, since they differ only in the operation bits; barriers are left out.
- M2mDma.MemDma.Xfer: nothing is said of memory after an empty request that an engine took, see `EngineMovesNonEmpty`; the read of `element_size` beyond its table that precedes the rejection of a bad width is not modelled.
- DwDmac.Controller.Xfer: the registers for shape and addresses of a transfer, and the done and error flags in `state`, are not modelled.
- DmaHal.DmaMemset: the caller's local variable holding the value must lie outside the range.
- DmacHandshake.ReturnedClean: register writes other than channel enable and status, and the contents of the FIFOs, are not modelled; `hguart_gets` does not wait and is covered only by `OneTransferPerChannel`.
- SysAes.Sysaes.Encrypt: lock timeouts, engine timeouts and a second caller loading another key are not modelled.
- PairSta.Config.SetPairedStas: interface restart and saving are not modelled; reads and writes of one slot are indivisible; more stations than slots, which would write past the table, are excluded.
- PairSta.Config.Save: the answers of the connection query are taken not to change during one call.
- TimerStart.Timer.Start: ASSERT is not modelled; a counter that the hardware masks to 16 bits when no tick is left is not followed further.
- TickTimer.Ticker.GetTick: interrupts that nest inside the handler are excluded, as its priority is the highest.
- `hg_crc8_calc_nonos`, which bypasses the hold protocol, and suspend and resume of all drivers.
- `dw_dmac_get_status`, `hg_m2m_dma_get_status`, `hggpio_v2_ioctl`, pin interrupts, hysteresis and speed: single register reads or writes.
- Code for chips other than TXW4002ACK803.
- Thin dispatchers under `sdk/hal`, the AT commands, other setters of `project/syscfg.c`, start-up code: no invariant of their own.
- `ffs`, `fls`, the device registry and saturating intrinsics: standalone helpers with textbook proofs.
