# Pokemon-SVE: a model of the HAL runtime and of the game hardware

The repository is a small role-playing game on an FPGA: SystemVerilog state machines move
the player and fill a frame buffer, and a Nios II processor runs an Altera HAL board support
package beside them. This project models the parts of both in which state is shared, wraps
around or is changed while it is being walked, and proves what they are for.

* **JTAG UART fast driver** (`Ring`, `JtagUart`). Two 2048-byte rings are shared without a
  lock between the foreground `read`/`write` and an interrupt routine that also turns its own
  interrupts off. The foreground code is cut into its steps (index snapshot, each byte of the
  copy, index store, interrupt enable) and `Driver.Interrupt` is called between them: it runs
  any number of interrupt routines, timer routines and host actions. `AnySession` is the
  result: over any sequence of reads, writes, closes and interrupts both directions are FIFO queues
  that lose, repeat and reorder nothing, output is never stranded, and the receiver is never
  left deaf. `Irq` and `FlushOut` say that requested interrupts do get the bytes through.
* **Alarms** (`AlarmList`, `AlarmTiming`, `AlarmLog`, `AlarmService`, `AlarmRun`). 32-bit deadlines with a one-bit
  rollover flag, exact against ticks that are counted without wrapping; an intrusive circular
  list that callbacks change while `alt_tick` walks it, with a log of what they did. The result
  is `AnyProgram`: over any run of starts, stops and ticks, whatever the callbacks start and
  stop, exactly those alarms fire whose deadline, read off the history alone, has come.
* **File descriptors** (`FdTable`, `FdCalls`, `FdEffects`, `FdLocking`). The table as a value, every
  call as a function on it, the C code in place on an array proved equal to those functions, what
  each call answers and changes, and then exclusive locking over whole runs of calls.
* **The player** (`Gym`, `Player`, `Teleports`, `Stepping`, `Statues`, `PowerUp`, `Turning`). The
  product of the three clocked machines: confinement to the rooms, the length and course of a
  teleport, the length of a step, its displacement with walls and with keys that change between
  the clock edges, exactly when it keeps to the 16-pixel grid, who can get into a statue, what a
  game that starts at power-up does first, and what holding a key comes to.
* **The picture** (`Raster`). The VGA counters at every clock, the schedule that fills the
  frame buffer beside the visible picture, and what every visible pixel shows.
* **Arithmetic** (`TimeOfDay`, `Division`, `Digits`, `IntPrint`, `HexPrint`, `Heap`). Set and
  get time of day, two integer printers, `sbrk` and the profiler's slab allocator on top of it.
  `Words` holds the word types.

What the C code changes in place is a class or an array here. The hardware registers are
values: every register takes the value its input had just before the clock edge, all at once,
which is one function from the old state to the new.

## What the models take for granted

* UART: a read interrupt is requested only if it is enabled and a byte waits, a write interrupt
  only if it is enabled and the hardware has room. A request stays raised as long as that is so.
  A byte written without room would be lost. RAVAIL is 0 whenever RVALID is 0. The semaphores and
  event flags are no-ops in this build (`alt_sem.h`). Interrupt disable and enable bracket an
  atomic step. A parameter `patience` bounds the interrupts that happen during a busy wait, and
  every contract holds for all of them: a call that is still spinning when that many have happened
  has not returned, and its outcome is `Waiting`. `tally` counts those interrupts, and how often
  the host was found to have timed out or to be there.
* Game: the bounds checker's instance, commented out in `framebuffer.sv` lines 243-248, is
  wired as that comment says. A literal such as `5'd39` has five bits (section 5.7.1 of IEEE
  1800-2017), so the teleport counters compare with 7. The key may differ between any two
  clock edges; `Stepping` counts in pulses of VGA_VS, a falling edge and the rising edge two
  lines later. Registers hold 0 at power-up; the reset button also holds VGA_VS low, so a game
  normally starts at power-up.
* Words: `long` and `time_t` are 32 bits. The heap limit is 0x18000000 (`linker.x`), so sums of
  a heap address and a request that is not negative do not wrap. O_APPEND and O_NONBLOCK have the values of newlib,
  0x0008 and 0x4000.
* Drivers' open, close and ioctl callbacks return anything but do not touch the descriptor
  table.

## Where the code does not do what it promises

The models follow the code. Each of these is proved, with the exact condition.

* A lock is documented to be granted only if no other descriptor is open on the device. The
  scan stops one entry below the high-water mark, so it is granted although that entry is open
  (`LockVerdict`, `LockPromiseFails`). The invariant that a holder has the smallest index on
  its device still makes holders unique.
* `close` is documented to release the lock. It does not for descriptors 0 to 2
  (`CloseReleasesTheLock`, `ClosePromiseFails`).
* An alarm started with 2^32 - 1 ticks fires at the next tick instead, unless the counter is
  just about to overflow (`StartedAlarmIsExact`, `StartOnTime`). A callback that restarts its own
  alarm and also returns a period gets the sum of the two, unless the sum wraps
  (`RestartOnTime`). Starting an alarm that is first in the list a second time leaves it
  pointing to itself, so that the next tick never ends (`Insert`, `RemovedEntryTraps`).
* `settimeofday` multiplies ticks in 32 bits, so a time set late after reset is read back wrong
  (`ReadBack`, `SetThenGet`, `LateSettingIsLost`).
* `gettimeofday` keeps time only at rates that divide a second into whole microseconds
  (`TicksKeepTime`).
* `mcount_allocate` does not check whether its slab was granted, so near the heap's limit it
  hands out the address of the failure (`ServedVerdict`, `RefusedSlabIsUsed`). It does not check
  an object's size against a fresh slab either, but it is only called with the sizes of two
  12-byte structures (`alt_gmon.c` lines 187 and 198), so that cannot show.
* The game is meant to be walked on a 16-pixel grid. A key that only one of the two edges of a
  pulse sees moves a resting player by a pixel, or starts a step that is a pixel short
  (`LegVerdict`, `KeyLostBetweenEdges`); and the north walls stand one pixel off the grid
  (`OnlyNorthWallsLeaveTheGrid`, `NorthWallIsMet`).
* The statues' left and right sides are tested for their upper 32 pixels only, their other sides
  for one position only. On the grid that is enough (`StrollAvoidsStatues`); off it the player gets
  in through the rest (`StepVerdictOnStatues`), also from where the game puts him after power-up
  (`StatueIsEntered`, `PowerUpMeetsStatue`).
* The step counter holds 0 at power-up and is not set when the game begins, so without a reset
  the player is walked 15 pixels down, off the grid, before a key is accepted
  (`PowerUpLeavesTheGrid`; after a reset he is not, `ResetGameRests`).
* Only the start screen sets the player's position. Enter seen by the very first clock edge
  after power-up starts the game outside the rooms (`PowerUpIsSafe`).
* The player starts on a teleport tile, so he is teleported behind the start screen, in 18
  frames; every teleport of the game itself takes 74 (`PlayedTeleportsAreLong`).

## Model

| member | source | states |
|---|---|---|
| Ring.RunsAreExact | software/Pokemon-SVE_app_bsp/drivers/src/altera_avalon_jtag_uart_write.c:109-117 | the producer finds no room exactly when 2047 items wait, the consumer finds nothing exactly when none does, and neither count ever exceeds what is there |
| Ring.StaleCountIsSafe | software/Pokemon-SVE_app_bsp/drivers/src/altera_avalon_jtag_uart_write.c:105-114 | a count taken from an index the other side has since moved on is still safe |
| Ring.FreeSlotIsInvisible | software/Pokemon-SVE_app_bsp/drivers/src/altera_avalon_jtag_uart_write.c:122-122 | copying into counted free slots changes nothing the interrupt routine can see |
| Ring.PublishRun | software/Pokemon-SVE_app_bsp/drivers/src/altera_avalon_jtag_uart_write.c:126-126 | the index store appends exactly the bytes copied, in order, also when it wraps |
| Ring.PopRun | software/Pokemon-SVE_app_bsp/drivers/src/altera_avalon_jtag_uart_read.c:125-140 | the oldest items are the ones copied out, and the index store removes exactly them |
| JtagUart.Driver.constructor | software/Pokemon-SVE_app_bsp/drivers/src/altera_avalon_jtag_uart_init.c:66-97 | after initialisation the queues are empty, the whole discipline holds, the host counts as present, and the timeout is 10, or INT_MAX if the alarm cannot be started |
| JtagUart.Driver.FillRx | software/Pokemon-SVE_app_bsp/drivers/src/altera_avalon_jtag_uart_init.c:125-167 | the receive loop ends, keeps every valid byte in order, and turns the interrupt off exactly when data is left over, which is only when the ring is full |
| JtagUart.Driver.DrainTx | software/Pokemon-SVE_app_bsp/drivers/src/altera_avalon_jtag_uart_init.c:169-195 | the transmit loop sends the oldest bytes, as many as fit, and leaves the interrupt on exactly when it filled the device's space |
| JtagUart.Driver.Irq | software/Pokemon-SVE_app_bsp/drivers/src/altera_avalon_jtag_uart_init.c:117-196 | the interrupt routine ends and keeps both queues and both enable disciplines; a requested read has brought a byte in, or the ring is full and the interrupt off; a requested write has sent a byte, or the ring was empty and the interrupt is off; nothing is reported any more |
| JtagUart.Driver.FlushOut | software/Pokemon-SVE_app_bsp/drivers/src/altera_avalon_jtag_uart_init.c:169-195 | as many requested interrupts as bytes wait empty the transmit ring, whatever else happens between them: everything accepted has been sent |
| JtagUart.Driver.Timeout | software/Pokemon-SVE_app_bsp/drivers/src/altera_avalon_jtag_uart_init.c:203-225 | the host's silence is counted up to a bound and forgotten when it is seen; the queues are untouched |
| JtagUart.Driver.WriteChunk | software/Pokemon-SVE_app_bsp/drivers/src/altera_avalon_jtag_uart_write.c:103-127 | one round puts the next bytes of the caller in the queue whatever interrupts strike between its steps, and puts none only if the ring was full |
| JtagUart.Driver.Write | software/Pokemon-SVE_app_bsp/drivers/src/altera_avalon_jtag_uart_write.c:83-215 | exactly the reported number of bytes entered the queue, in order; a call that returns short is non-blocking, or has waited until there was room or the host timed out and then saw the host silent, and while the host stays silent it waits at most once; one that goes on waiting has a full ring and has been interrupted as often as its patience; what fitted on entry is always taken; the transmit interrupt is on whenever bytes wait |
| JtagUart.Driver.ReadChunk | software/Pokemon-SVE_app_bsp/drivers/src/altera_avalon_jtag_uart_read.c:117-142 | one round moves the oldest bytes to the caller whatever interrupts strike between its steps, also between the copy and the index store |
| JtagUart.Driver.Read | software/Pokemon-SVE_app_bsp/drivers/src/altera_avalon_jtag_uart_read.c:100-203 | the caller gets exactly the oldest bytes and the rest of his buffer is unchanged; anything waiting on entry is delivered; a blocking call on an empty ring fails only if the host was, or during the call is, found to have timed out, and until then goes on waiting; after a delivery the receiver is on |
| JtagUart.Driver.Close | software/Pokemon-SVE_app_bsp/drivers/src/altera_avalon_jtag_uart_init.c:241-254 | success means that everything accepted was sent, or the host timed out; would-block, and going on waiting, mean that neither is so, and which of the two is the caller's mode |
| JtagUart.AnySession | software/Pokemon-SVE_app_bsp/drivers/src/altera_avalon_jtag_uart_init.c:117-196 | over every run of reads, writes, closes and interrupts: written = sent + ring, arrived = read + ring + hardware FIFO, no ring above 2047, a non-empty transmit ring has its interrupt on in the device, a receive ring with room has its interrupt on |
| AlarmList.Insert | software/Pokemon-SVE_app_bsp/HAL/inc/sys/alt_llist.h:90-98 | a new entry is first and the list stays circular and doubly linked; the first entry inserted again points to itself |
| AlarmList.Remove | software/Pokemon-SVE_app_bsp/HAL/inc/sys/alt_llist.h:105-117 | the neighbours are joined and the entry points to itself |
| AlarmList.Unlink | software/Pokemon-SVE_app_bsp/HAL/inc/sys/alt_llist.h:105-117 | exactly the entry leaves the list, and removing it again changes nothing |
| AlarmList.RemovedEntryTraps | software/Pokemon-SVE_app_bsp/HAL/src/alt_tick.c:100-140 | a walk that has saved an entry that is then removed never leaves it |
| AlarmTiming.StartIsDue | software/Pokemon-SVE_app_bsp/HAL/src/alt_alarm_start.c:80-96 | time and flag stand for the tick nticks + 1 ahead exactly when nticks is below 2^32 - 1 |
| AlarmTiming.EarlyTick | software/Pokemon-SVE_app_bsp/HAL/src/alt_tick.c:109-115 | no tick before the deadline makes the callback, across the overflow too |
| AlarmTiming.DueTick | software/Pokemon-SVE_app_bsp/HAL/src/alt_tick.c:109-115 | the tick of the deadline makes it |
| AlarmTiming.RearmIsDue | software/Pokemon-SVE_app_bsp/HAL/src/alt_tick.c:125-138 | after a callback the alarm stands for exactly the returned period later, for every period |
| AlarmTiming.LongestStart | software/Pokemon-SVE_app_bsp/HAL/src/alt_alarm_start.c:80-96 | what happens for nticks = 2^32 - 1 |
| AlarmTiming.FireTickIsNext | software/Pokemon-SVE_app_bsp/HAL/src/alt_tick.c:104-116 | for every timer whatever, the next tick at which its callback is made can be told in advance and stays the same until then |
| AlarmTiming.StartFires | software/Pokemon-SVE_app_bsp/HAL/src/alt_alarm_start.c:80-96 | the first callback of a started alarm, for every nticks: nticks + 1 later, except that 2^32 - 1 comes at the next tick unless the counter is about to overflow |
| AlarmTiming.RearmFires | software/Pokemon-SVE_app_bsp/HAL/src/alt_tick.c:125-138 | an alarm that fires at its own tick fires again exactly the returned period later |
| AlarmTiming.StartOnTime | software/Pokemon-SVE_app_bsp/HAL/src/alt_alarm_start.c:80-96 | a started alarm stands for the tick nticks + 1 ahead if and only if nticks is below 2^32 - 1 or the counter is about to overflow |
| AlarmTiming.RestartOnTime | software/Pokemon-SVE_app_bsp/HAL/src/alt_tick.c:117-138 | an alarm that its own callback restarts, and that answers with a period, stands for the sum if and only if the stated bound on it holds |
| AlarmTiming.OnTimeNext | software/Pokemon-SVE_app_bsp/HAL/src/alt_tick.c:104-138 | an alarm that stands for its deadline still does after an earlier tick, and after its own stands for exactly the returned period later |
| AlarmTiming.FiresOnSchedule | software/Pokemon-SVE_app_bsp/HAL/src/alt_tick.c:96-139 | the callbacks of any number of ticks come at the deadline and at exact sums of the returned periods, each once |
| AlarmTiming.StartedAlarmIsExact | software/Pokemon-SVE_app_bsp/HAL/src/alt_alarm_start.c:80-96 | a started alarm fires exactly on its schedule if and only if nticks is below 2^32 - 1 or the counter is about to overflow |
| AlarmService.Service.AlarmStart | software/Pokemon-SVE_app_bsp/HAL/src/alt_alarm_start.c:64-112 | the alarm is first in the list, its timer stands for nticks + 1 ticks ahead exactly under the condition of StartOnTime, and no other timer changes; the two errors change nothing |
| AlarmService.Service.AlarmStop | software/Pokemon-SVE_app_bsp/HAL/src/alt_tick.c:66-73 | exactly this alarm leaves the list, however often it is stopped |
| AlarmService.Service.Visit | software/Pokemon-SVE_app_bsp/HAL/src/alt_tick.c:109-139 | an alarm's turn: called back exactly when its timer says, then unlinked on a zero answer, or due its answer after its own tick; an alarm that a callback started, itself included, has the timer of that start, with its own answer on top; only a callback that was made acts |
| AlarmService.Service.Tick | software/Pokemon-SVE_app_bsp/HAL/src/alt_tick.c:87-141 | the walk ends; every alarm that was running is visited exactly once unless a callback stopped it first; callbacks are made exactly for those due; those answering zero are gone; no alarm is visited after an earlier callback acted on it; an alarm that callbacks acted on is running, with exactly the timer of its start, if and only if the last action was a start and its own callback did not then answer zero; the list stays well formed |
| AlarmService.OrderedStep | software/Pokemon-SVE_app_bsp/HAL/src/alt_tick.c:100-140 | the order of visits and actions: an alarm acted on before its turn does not get one |
| AlarmService.QuietTick | software/Pokemon-SVE_app_bsp/HAL/src/alt_tick.c:100-140 | if no callback starts or stops anything, every running alarm is visited and exactly those answering zero are gone |
| AlarmRun.TickIsExact | software/Pokemon-SVE_app_bsp/HAL/src/alt_tick.c:87-141 | at a tick no deadline has been missed, a visited alarm fires if and only if its deadline has come, and one that is not visited was acted on by an earlier callback |
| AlarmRun.TickKeeps | software/Pokemon-SVE_app_bsp/HAL/src/alt_tick.c:96-141 | after a tick the running alarms and their deadlines are those that the answers and the callbacks' starts and stops say |
| AlarmRun.AnyProgram | software/Pokemon-SVE_app_bsp/HAL/src/alt_tick.c:87-141 | over every run of starts, stops and ticks, whatever the callbacks start and stop, every tick is exact for the deadlines read off the history: first nticks + 1 after the start, then exact sums of the answers |
| FdTable.FlagUpdates | software/Pokemon-SVE_app_bsp/HAL/src/alt_fcntl.c:86-90 | open and fcntl can neither forge nor clear the lock bit or the device bit |
| FdCalls.FdPool.AllocateFd | software/Pokemon-SVE_app_bsp/HAL/src/alt_get_fd.c:54-101 | the first free entry is taken and the high-water mark raised |
| FdCalls.FdPool.LockFd | software/Pokemon-SVE_app_bsp/HAL/src/alt_fd_lock.c:54-75 | refused exactly when another descriptor below the high-water mark is on the device, else the flag is set |
| FdCalls.FdPool.UnlockFd | software/Pokemon-SVE_app_bsp/HAL/src/alt_fd_unlock.c:52-56 | the lock flag of this descriptor alone is cleared |
| FdCalls.FdPool.FileLocked | software/Pokemon-SVE_app_bsp/HAL/src/alt_open.c:64-92 | marks a device descriptor and finds another holder up to the high-water mark |
| FdCalls.FdPool.ReleaseFd | software/Pokemon-SVE_app_bsp/HAL/src/alt_release_fd.c:44-51 | frees an entry of the pool and leaves 0 to 2 alone |
| FdCalls.FdPool.OpenFile | software/Pokemon-SVE_app_bsp/HAL/src/alt_open.c:105-171 | every branch of open, with its error and its clean-up |
| FdCalls.FdPool.RedirectFd | software/Pokemon-SVE_app_bsp/HAL/src/alt_io_redirect.c:58-72 | a successful open is moved to the standard entry and its own entry released |
| FdCalls.FdPool.IoRedirect | software/Pokemon-SVE_app_bsp/HAL/src/alt_io_redirect.c:85-94 | output, input and error are redirected in that order |
| FdCalls.FdPool.CloseFile | software/Pokemon-SVE_app_bsp/HAL/src/alt_close.c:64-101 | the entry is released whatever the driver answers |
| FdCalls.FdPool.IoctlFile | software/Pokemon-SVE_app_bsp/HAL/src/alt_ioctl.c:106-168 | lock requests of device descriptors are handled here, all others by the driver |
| FdCalls.FdPool.FcntlFile | software/Pokemon-SVE_app_bsp/HAL/src/alt_fcntl.c:66-101 | reads hide the two internal bits, writes change only the two user bits |
| FdEffects.OpenAnswers | software/Pokemon-SVE_app_bsp/HAL/src/alt_open.c:105-171 | every answer of open, errors in their order: ENODEV, EMFILE with no free entry, EACCES for a held device, the driver's error, else the first free entry |
| FdEffects.OpenFills | software/Pokemon-SVE_app_bsp/HAL/src/alt_open.c:130-166 | a successful open fills that entry completely, raises the mark to it and changes nothing else |
| FdEffects.RedirectMoves | software/Pokemon-SVE_app_bsp/HAL/src/alt_io_redirect.c:58-72 | for each standard entry: if the open succeeds, the entry is the opened descriptor, the one it was opened in is free, and the others are as before; if not, no descriptor changes |
| FdEffects.AllRedirected | software/Pokemon-SVE_app_bsp/HAL/src/alt_io_redirect.c:81-94 | if all three names open, output, input and error are on their devices and nothing else is open, from every table that holds nothing and has only the standard entries |
| FdEffects.StartRedirects | software/Pokemon-SVE_app_bsp/HAL/src/alt_io_redirect.c:81-94 | the same from start-up |
| FdEffects.CloseFrees | software/Pokemon-SVE_app_bsp/HAL/src/alt_close.c:64-101 | a closed descriptor above 2 is free, whatever the driver answers, and nothing else changes; the answer is EBADFD, the driver's error or 0 |
| FdEffects.IoctlLocks | software/Pokemon-SVE_app_bsp/HAL/src/alt_ioctl.c:106-168 | lock and unlock set and clear exactly the lock bit of a device descriptor, with EACCES when refused; every other request is the driver's and changes nothing |
| FdEffects.FcntlSets | software/Pokemon-SVE_app_bsp/HAL/src/alt_fcntl.c:66-101 | F_SETFL sets exactly O_APPEND and O_NONBLOCK as asked, F_GETFL hides exactly the two internal bits, any other command is EINVAL |
| FdLocking.StartIsSound | software/Pokemon-SVE_app_bsp/HAL/src/alt_dev.c:118-149 | the start-up table satisfies the invariant |
| FdLocking.OpenEffect | software/Pokemon-SVE_app_bsp/HAL/src/alt_open.c:130-171 | a failed open leaves every descriptor as it was; a successful one takes a free entry of the pool on a device nobody holds |
| FdLocking.RedirectIsSound | software/Pokemon-SVE_app_bsp/HAL/src/alt_io_redirect.c:62-71 | copying a descriptor to a small index cannot break the order argument |
| FdLocking.LockIsSound | software/Pokemon-SVE_app_bsp/HAL/src/alt_fd_lock.c:61-69 | granting a lock keeps the invariant although the scan stops early |
| FdLocking.StepIsSound | software/Pokemon-SVE_app_bsp/HAL/src/alt_open.c:105-171 | every call keeps the invariant: a holder has the smallest index on its device |
| FdLocking.AtMostOneHolder | software/Pokemon-SVE_app_bsp/HAL/src/alt_fd_lock.c:54-75 | after any calls from start-up no device has two exclusive holders |
| FdLocking.HeldDeviceIsClosed | software/Pokemon-SVE_app_bsp/HAL/src/alt_open.c:79-87 | open and redirect of a held device fail with the right error and change no descriptor |
| FdLocking.HeldDeviceOnlyShrinks | software/Pokemon-SVE_app_bsp/HAL/src/alt_open.c:130-166 | over any run during which a device stays held, its descriptors only go |
| FdLocking.LockVerdict | software/Pokemon-SVE_app_bsp/HAL/src/alt_fd_lock.c:61-69 | the lock is granted as documented if and only if the high-water entry is not the only other one on the device |
| FdLocking.LockPromiseFails | software/Pokemon-SVE_app_bsp/HAL/src/alt_fd_lock.c:61-69 | a run of three calls that ends with a holder that is not alone |
| FdLocking.CloseReleasesTheLock | software/Pokemon-SVE_app_bsp/HAL/src/alt_close.c:84-94 | closing a holder frees the device if and only if the descriptor is above 2 |
| FdLocking.ClosePromiseFails | software/Pokemon-SVE_app_bsp/HAL/src/alt_release_fd.c:44-51 | a run from start-up after which a closed standard output still holds the UART |
| Gym.PartnerIsInvolution | gymTileLogic.sv:176-287 | teleporting twice returns to the start, and no tile leads to itself |
| Gym.JoinedPairs | gymTileLogic.sv:45-84 | the thirteen pairs, each tile leading to the other, in coordinates |
| Gym.TilesAreInRooms | gymTileLogic.sv:45-84 | every tile stands inside a room |
| Statues.ObstacleIs | gymBoundsChecker.sv:13-54 | in a room and outside the statues, the checker stops the player exactly where the next pixel would leave the room, across the 10-bit wrap too, or enter a statue but through a hole |
| Player.PowerUpIsSafe | framebuffer.sv:100-108 | the first frame after power-up puts the player in the rooms if and only if it does not see Enter without a reset |
| Player.ResetIsSafe | gameFSM.sv:39-47 | a reset frame starts a safe board |
| Player.RiseIsSafe | gymTileLogic.sv:99-138 | the rising edge keeps a spinning player on a tile and the target a tile |
| Player.FallIsSafe | framebuffer.sv:130-171 | the falling edge keeps the player in a room, moved or placed |
| Player.PlayerIsConfined | framebuffer.sv:100-171 | from every safe board, over every run of keys, speeds and resets, the player is in a room, and the default branch of the teleport table is never taken |
| Player.GameIsProper | gameFSM.sv:57-84 | over every run the game is in one of three states, with the fade and animation counters in range |
| Teleports.TeleportCourse | gymTileLogic.sv:99-138 | frame by frame: pinned on the tile while spinning, then on its partner |
| Teleports.TeleportLength | gymTileLogic.sv:106-132 | the player is free after exactly 18 frames (counter 0) or 74 (counter 8), not before |
| Teleports.NoSecondTeleport | gymTileLogic.sv:128-132 | a free player stays free while he stays on the tiles |
| Teleports.JumpsAreApart | gymTileLogic.sv:99-138 | between a jump and the start of the next teleport, in any run without a reset, there is a frame in which the player stands off the tiles |
| Teleports.YoungStart | gymTileLogic.sv:30-43 | a reset and a power-up start with the teleport counter at 0, on a tile |
| Teleports.YoungOrOld | gymTileLogic.sv:30-43 | from there on, whatever the keys and resets, the counter at rest is 0 until the first teleport ends and 8 ever after |
| Teleports.PlayedTeleportsAreLong | gymTileLogic.sv:290-310 | every teleport that starts in the game starts with the counter at 8 |
| Stepping.StepDisplacement | framebuffer.sv:130-167 | every step that no tile interrupts goes 16 pixels plus one for each off-phase pulse spent running, minus one exactly when the first falling edge missed the key and would have moved, or stops at the first obstacle on its way |
| Stepping.StepLasts | gameFSM.sv:116-138 | every accepted step, into a wall or onto a tile too, drives the moving signal at 32 rising edges in a row, in one direction, ignoring later direction keys, and the player is at rest after the 32nd and not before |
| Stepping.AdvancedIs | gymBoundsChecker.sv:13-54 | pixels gone one by one end at the first obstacle, or are all gone |
| Stepping.GoneIs | gymBoundsChecker.sv:13-54 | the pixels gone are as many as lie before the first obstacle, or all |
| Stepping.WalkerSlips | gameFSM.sv:116-138 | a walking step slips if and only if it can begin and then meets an obstacle on its way or lacks its first pixel |
| Stepping.LegVerdict | gameFSM.sv:113-187 | a pulse at rest, or a whole step, walking or running, blocked or not, leaves the player at rest, facing the way its first key asks for, and in the cell of the grid it began in if and only if it does not slip, which keys, phase and walls decide beforehand |
| Stepping.StrollKeepsGrid | gameFSM.sv:113-187 | over any number of such legs the player stays on his grid if and only if no leg slips |
| Stepping.TilesAreOnGrid | gymTileLogic.sv:45-84 | the start and every tile stand on one 16-pixel grid |
| Stepping.GridWalls | gymBoundsChecker.sv:13-54 | from that grid only the three north walls are met in mid-step |
| Stepping.OnlyNorthWallsLeaveTheGrid | gymBoundsChecker.sv:25-32 | from the game's grid, a whole walking step whose key both edges see, blocked or not, ends on it if and only if it does not go up from below a north wall |
| Stepping.NorthWallIsMet | gymBoundsChecker.sv:25-28 | from (192, 283), W held for a step ends at y = 282 |
| Statues.EntryVerdict | gymBoundsChecker.sv:13-54 | a way of up to 32 pixels from outside gets into a statue if and only if it starts close enough in front of a hole |
| Statues.StepVerdictOnStatues | framebuffer.sv:130-167 | a step, walking or running, finds the player inside a statue at some pulse if and only if the pixels it has to go reach a hole |
| Statues.LegAvoidsStatues | gymBoundsChecker.sv:13-54 | no pulse of a leg that begins on the game's grid finds him inside |
| Statues.StrollAvoidsStatues | gymBoundsChecker.sv:13-54 | however long he walks on the grid, no pulse finds him inside a statue |
| Statues.TilesAreOutside | gymTileLogic.sv:45-84 | the start and every tile are outside the statues |
| Statues.CellAhead | gymBoundsChecker.sv:13-54 | from a cell of the grid 16 pixels lead exactly to the next cell if it is in a room and not in a statue, and otherwise nowhere, but for the pixel below a north wall |
| Statues.StatueIsEntered | gymBoundsChecker.sv:34-42 | from (288, 330) a player running left ends in a statue |
| Turning.RestPulse | gameFSM.sv:124-187 | at rest W, S, A and D turn the player their way if he does not face it and start a step if he does; any other key but escape does neither |
| Turning.HeldKey | gameFSM.sv:113-187 | whatever a resting player faces, a held W, S, A or D, after one turning pulse if he must turn, moves him 16 pixels up, down, left or right, or as far as the first obstacle, and leaves him at rest facing that way |
| Turning.HeldKeyOnGrid | framebuffer.sv:130-167 | on the grid that is exactly the next cell, or nothing if the cell is outside the rooms or in a statue, or the one pixel below a north wall |
| Turning.StepAnimates | gameFSM.sv:113-118 | through a step the animation counter goes round modulo 40 |
| Turning.EscapeRestarts | gameFSM.sv:78-81 | escape, in a step or not, and no other key leads back to the start screen, where the player is put on the start position |
| Turning.PowerUpMeetsStatue | gymBoundsChecker.sv:34-42 | a run from power-up, turned left after the first walk, that ends inside a statue |
| PowerUp.PowerUpLeavesTheGrid | gameFSM.sv:39-54 | in every game begun from power-up without a reset, a player who does not run is walked to (288, 330), whatever keys are pressed short of escape, before he is first at rest |
| PowerUp.ResetGameRests | gameFSM.sv:39-47 | in every game begun after a reset the player is at rest at once, at the start, on the grid and facing up |
| PowerUp.BootIsBooting | gameFSM.sv:57-84 | such a game exists: Enter after one idle frame, and fifty more |
| PowerUp.KeyLostBetweenEdges | framebuffer.sv:130-167 | a run from power-up in which a key that only the falling edge sees moves the resting player a pixel |
| Raster.CountersAt | VGA_controller.sv:73-85 | n clocks after reset the counters are n mod 800 and (n / 800) mod 525 |
| Raster.SyncsAt | VGA_controller.sv:87-99 | from the first clock on, the syncs and the blanking agree with the counters they are seen with |
| Raster.EdgesOfFrame | VGA_controller.sv:93-95 | VGA_VS falls and rises once a frame, at lines 490 and 492, and once more on leaving reset |
| Raster.RegistersHoldStill | VGA_controller.sv:93-95 | no clock edge of the game's registers falls on a line where cells are written or shown |
| Raster.WrittenOnce | framebuffer.sv:55-68 | in a frame whose state is not 0 every cell is written at exactly one clock; in any other frame none is |
| Raster.AddressesFit | framebuffer.sv:76-80 | no address lies outside the 38400 cells |
| Raster.ShownByFour | framebuffer.sv:79-83 | every cell is shown by exactly a square of two by two pixels |
| Raster.PictureIs | framebuffer.sv:55-88 | over every run, a visible pixel shows what this frame drew, except that line 80, and all of a frame that does not draw, shows what the frames before left |
| TimeOfDay.SystemClock.SetTimeOfDay | software/Pokemon-SVE_app_bsp/HAL/src/alt_settod.c:72-96 | what is stored, with the product taken in 32 bits, and the error without a clock |
| TimeOfDay.Borrow | software/Pokemon-SVE_app_bsp/HAL/src/alt_gettod.c:95-107 | negative microseconds are borrowed for; a negative total becomes zero |
| TimeOfDay.Carry | software/Pokemon-SVE_app_bsp/HAL/src/alt_gettod.c:109-112 | whole seconds are carried, ending normalised |
| TimeOfDay.SystemClock.GetTimeOfDay | software/Pokemon-SVE_app_bsp/HAL/src/alt_gettod.c:70-124 | the sum of base and ticks, normalised, and the error without a clock |
| TimeOfDay.ReadBeforeSetting | software/Pokemon-SVE_app_bsp/HAL/src/alt_gettod.c:91-112 | before any setting a read gives the ticks in seconds, as a signed count, and their microseconds |
| TimeOfDay.PartsAgree | software/Pokemon-SVE_app_bsp/HAL/src/alt_settod.c:83-84 | the 32-bit and the 64-bit product agree below a second if and only if the lost part is a multiple of 15625 wraps |
| TimeOfDay.ReadBack | software/Pokemon-SVE_app_bsp/HAL/src/alt_settod.c:80-84 | an immediate read returns what was set, for every rate and every normalised time, if and only if that product was exact (or zero was clamped back to zero) |
| TimeOfDay.SetThenGet | software/Pokemon-SVE_app_bsp/HAL/src/alt_gettod.c:89-112 | for every rate, every normalised time and every two ticks: a read returns the time set plus the ticks elapsed if and only if the setting was exact and no negative time is clamped (or the clamp makes up for an inexact zero) |
| TimeOfDay.EarlySettingIsKept | software/Pokemon-SVE_app_bsp/HAL/src/alt_gettod.c:89-112 | at a whole number of microseconds a tick, a time set before the product overflows is read back plus the ticks since, normalised |
| TimeOfDay.TicksKeepTime | software/Pokemon-SVE_app_bsp/HAL/src/alt_gettod.c:91-93 | the ticks keep the time at every count if and only if the rate divides a second into whole microseconds |
| TimeOfDay.LateSettingIsLost | software/Pokemon-SVE_app_bsp/HAL/src/alt_settod.c:83-84 | a concrete setting that is not read back |
| Digits.ValueOf | software/Pokemon-SVE_app_bsp/HAL/src/alt_log_printf.c:282-296 | the digits of a number denote it |
| Digits.FixedIsOf | software/Pokemon-SVE_app_bsp/HAL/src/alt_log_printf.c:247-296 | quotients by descending powers, from the largest that fits, are the digits without a leading zero |
| IntPrint.RepChar | software/Pokemon-SVE_app_bsp/HAL/src/alt_log_printf.c:106-110 | the character is repeated, not at all for a negative count |
| IntPrint.CountDigits | software/Pokemon-SVE_app_bsp/HAL/src/alt_log_printf.c:247-255 | the loop ends with the digit count and the largest power not above the value, which never overflows |
| IntPrint.PrintDigits | software/Pokemon-SVE_app_bsp/HAL/src/alt_log_printf.c:281-296 | the loop ends and emits one character per power |
| IntPrint.PrintInteger | software/Pokemon-SVE_app_bsp/HAL/src/alt_log_printf.c:206-297 | the emitted text is sign, padding and digits in the order the flags ask for |
| IntPrint.PrintRoundTrip | software/Pokemon-SVE_app_bsp/HAL/src/alt_log_printf.c:206-297 | reading the text gives the value back, for every word, base, signedness, width and padding |
| IntPrint.PrintLength | software/Pokemon-SVE_app_bsp/HAL/src/alt_log_printf.c:257-297 | the text is as long as the larger of the width and the digits with sign, and its digits have no leading zero |
| IntPrint.PrintLayout | software/Pokemon-SVE_app_bsp/HAL/src/alt_log_printf.c:257-297 | character by character: the sign first and zeros behind it, or blanks first and the sign behind them, then digits of the alphabet asked for |
| HexPrint.MaskInPlace | software/Pokemon-SVE_app_bsp/HAL/src/alt_printf.c:100-106 | masking at a position keeps exactly the digit there |
| HexPrint.FirstDigit | software/Pokemon-SVE_app_bsp/HAL/src/alt_printf.c:98-101 | the search ends, at the highest digit that is not zero |
| HexPrint.PrintHex | software/Pokemon-SVE_app_bsp/HAL/src/alt_printf.c:84-112 | the text is the hexadecimal digits of the word without leading zeros |
| HexPrint.PrintBoth | software/Pokemon-SVE_app_bsp/HAL/src/alt_printf.c:84-112 | the shifting and the dividing printer emit the same text for every word |
| Heap.Allocator.Sbrk | software/Pokemon-SVE_app_bsp/HAL/src/alt_sbrk.c:68-136 | the end is aligned even on failure, and moves on exactly when the limit allows |
| Heap.Allocator.Allocate | software/Pokemon-SVE_app_bsp/HAL/src/alt_gmon.c:133-148 | a new slab is taken, unchecked, by an unsigned comparison, and the object is cut off its front |
| Heap.ExtendIs | software/Pokemon-SVE_app_bsp/HAL/src/alt_sbrk.c:76-95 | a request is granted exactly when it fits below the limit; the block is aligned and lies between the old end and the new |
| Heap.GiveBack | software/Pokemon-SVE_app_bsp/HAL/src/alt_sbrk.c:76-95 | a negative request moves the end down from the aligned old end, and is refused exactly when that would pass below 0 |
| Heap.ServedVerdict | software/Pokemon-SVE_app_bsp/HAL/src/alt_gmon.c:137-147 | an object lies in a granted slab if and only if it is at most 1020 bytes and any slab it needs is granted |
| Heap.RefusedSlabIsUsed | software/Pokemon-SVE_app_bsp/HAL/src/alt_gmon.c:139-147 | a run from reset: one request that takes all but 256 bytes, then a 12-byte object handed out at the address of the refused slab |
| Heap.ObjectIsApart | software/Pokemon-SVE_app_bsp/HAL/src/alt_gmon.c:126-148 | an object keeps clear of every block but its own slab |
| Heap.RunIsSound | software/Pokemon-SVE_app_bsp/HAL/src/alt_gmon.c:133-148 | every run of served requests keeps blocks and objects in address order without overlap |
| Heap.NothingOverlaps | software/Pokemon-SVE_app_bsp/HAL/src/alt_sbrk.c:68-136 | from reset, over every run of served requests: blocks are aligned, inside the heap and pairwise disjoint; objects lie in slabs, disjoint from each other and from every other block |

## Left out

- AlarmService.Service.AlarmStart: starting an alarm that is already running is outside its precondition; `AlarmList.Insert` says what it does to the first of the list.
- AlarmRun.AnyProgram: an alarm whose start or restart cannot be kept has no deadline until it is started again; `AlarmTiming.StartFires` and `AlarmTiming.FireTickIsNext` still tell when it fires.
- AlarmService.Service.Tick: callbacks may start and stop any alarms, their own included, but not stop the saved successor (`AlarmList.RemovedEntryTraps` shows that the walk would not end) and not start one that is running.
- Stepping.StrollKeepsGrid: steps that a tile takes over, and the escape key; where a tile puts the player is `Stepping.TilesAreOnGrid`, and what escape does is `Turning.EscapeRestarts`.
- Turning.HeldKey: steps that a tile takes over, as above.
- TimeOfDay.SetThenGet: answers beyond the first and last second of a signed 32-bit count.
- AlarmService: an alarm that was never started points to itself here; in C its links are null until then, and stopping it is an error of the caller.
- Heap.RunIsSound: negative `sbrk` requests, which give memory back, are modelled for one call but not in runs.
- Heap: the call-graph lists that `__mcount_record` builds in its objects, and stack checking, which this build does not enable.
- IntPrint: the format-string parser, `%c`, `%s` and the unused precision; the field width is taken as parsed.
- HexPrint: bit operations are defined bit by bit on numbers rather than on bit-vectors.
- FdCalls: the lookup of names in the device and file-system lists; what a name resolves to is a parameter, and so are the drivers' answers.
- JtagUart: `alt_irq_disable_all` nesting and the instruction order inside one C assignment; an assignment to an index or to a byte is one step.
- JtagUart: the small polled driver, the uC/OS-II branches and the build that ignores a full FIFO.
- Player: colours, sprites, the fade and the animation frame shown; the animation counter is kept because it is a register of the same machine.
- Raster: sub-pixel timing between the two clocks and RAM latency; one pixel is one step, and what the drawing logic offers at a clock is a parameter.
- USB enumeration, audio set-up, seven-segment and colour-mapper logic: register pokes and drawing.
- Interrupt entry, exception registration, cache and busy-sleep assembly, and the HAL stubs that only set an error.
