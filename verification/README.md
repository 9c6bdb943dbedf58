# sensor-rp2040 firmware core, modelled in Dafny

This project models the control logic of the RP2040 sensor firmware that talks the
Xerxes bus protocol. The firmware keeps all of its state in one byte array, the
register bank `mainRegister`. Every part of the firmware reads and writes typed fields
of that array at fixed offsets: the error word, the configuration byte, the desired
and net cycle times, and the gains.

The firmware has three execution contexts:

- **Core 1's sampling loop** updates the sensor when free-running. It keeps a moving
  average of the net cycle time. It then sleeps for the rest of the cycle, or flags a
  sensor overload.
- **Core 0's command loop**, in bus mode, refreshes the watchdog and lets the slave
  dispatcher handle at most one incoming message. It then drains the transmit queue
  into one UART write and flags a UART overload when a queue is full.
- **The UART receive interrupt** appends each received byte to the receive queue, or
  flags a CPU overload when the queue is full.

Start-up initialises the queues and the bank. The bank is restored from flash, or
factory defaults are loaded. Start-up then clears the error word, records a watchdog
reboot, honours the factory-reset button, initialises the sensor, turns on free-run and
statistics in USB mode, and empties both queues. Long sleeps go through `sleep_hp` and `sleep_lp`. These split
any sleep below 2^64 - 1000 us that the 200 ms watchdog would not survive into
half-window chunks, with a watchdog refresh after each chunk. Longer requests wrap the
loop guard and are slept in one piece (see Findings).

The modules follow the source files:

| module | file | models |
|---|---|---|
| `Hardware` | hardware.dfy | The observable effects: sleeps, watchdog refreshes, GPIO, clocks, UART and flash writes, sensor updates, writes of `core1idle`. They are recorded as a trace. |
| `Register` | register.dfy | The register bank as bytes, with little-endian 32- and 64-bit field access, `errorSet`, `errorClear` and the configuration bits. These are spec functions on `seq<bv8>`, plus methods that update an `array<bv8>` in place. |
| `Queue` | queue.dfy | The SDK byte queue `queue_t` as a class whose queued bytes are a `seq` field. |
| `SlaveDispatch` | slave.dfy | `Xerxes::Slave`: the binding table, `bind`, `call`, both `send` overloads and `sync`. |
| `Sensor` | sensor.dfy | The sensor driver interface: which register fields `init` and `update` may write, and the register write of the SCL3400's `init`. |
| `Sleep` | sleep.dfy | `sleep_hp` and `sleep_lp`. |
| `InitUtils` | init_utils.dfy | `userLoadDefaultValues`, `userInitQueue`, `uart_interrupt_handler` and `userInit`. |
| `Core` | core.dfy | `main`'s start-up, one bus-mode iteration of `main`'s loop, and one iteration of `core1Entry`'s loop. The shared globals are fields of class `Firmware`. |

Each imperative routine is a method over arrays and objects. Each method is proved
against a spec function of the old state (`mainRegister[..] == CycleImage(old(mainRegister[..]), …)`),
and the source's promises are proved as lemmas about those functions. The model uses
these representations:

- Handlers are opaque tokens of a type parameter `H`. A dispatch returns the list of
  handler invocations it makes.
- The protocol's `readMessage` and `sendMessage` are passed in as functions.
- The sensor's `init` and `update` are functions from the bank they find to the bank
  they leave. They are constrained by the fields every driver leaves alone: the error
  word and the configuration byte, and for `update` also both cycle times.
- What an invoked handler does is given as the bytes its replies put into the transmit
  queue and as a function from the bank it finds to the bank it leaves.
- Timestamps, the flash-restore result, the GPIO levels read at start-up and the byte
  the UART delivers are parameters.

`bind` stores with `std::unordered_map::emplace`. `emplace` does not overwrite, so the
FIRST handler bound to an id is the one that stays.

The net cycle time is computed in `double` as
`static_cast<uint32_t>(0.9 * net) + static_cast<uint32_t>(0.1 * static_cast<uint32_t>(cycleDuration))`,
where `net` is the stored 32-bit net cycle time. The doubles nearest to 0.9 and 0.1 are
slightly above them. Both operands are below 2^32 (the inner cast reduces the 64-bit
duration modulo 2^32), so the rounding error stays far below the 0.1 gap between a quotient and the
next integer. Each truncation is therefore the integer quotient (`9 * net / 10` and
`(cycleDuration mod 2^32) / 10`), and that is what the model computes.

Several register constants are defined in headers that are not part of this model:

- the field offsets and the bank size;
- the error masks;
- the configuration bit positions;
- `DEFAULT_CYCLE_TIME_US`;
- `RX_TX_QUEUE_SIZE`.

The values in register.dfy and init_utils.dfy are stand-ins. The proofs rely only on
four facts: the fields lie inside the bank; they do not overlap; each mask is a single
distinct bit; the queue capacity is positive.

## Model

| member | source | states |
|---|---|---|
| Register.StoreU32 | src/InitUtils.cpp:114-123 | A typed 32-bit store through a pointer into the bank reads back as the stored value. The bank keeps its length, and every byte outside the four written is unchanged. |
| Register.StoreU64 | src/InitUtils.cpp:43-44 | A 64-bit store at the error offset reads back as the stored value, and every byte outside the eight written is unchanged. |
| Register.StoreU32Twice | src/InitUtils.cpp:119-121 | A second store to the same word hides the first, so writing `gainPv1` three times leaves the same bank as writing it once. |
| Register.WithErrorSet | src/main.cpp:70 | `errorSet` makes the error word the old word OR the mask, and every byte outside the error word is unchanged. |
| Register.WithErrorClear | src/main.cpp:65 | `errorClear` makes the error word the old word AND NOT the mask, and every byte outside the error word is unchanged. |
| Register.ErrorSetCommutes | src/main.cpp:187 | Two `errorSet` calls give the same bank in either order, and both masks end up set: no flag is lost whichever fault site runs first. |
| Register.ErrorClearAfterSet | src/main.cpp:65 | Clearing every bit leaves an error word of 0. Clearing A after setting A and B on a clean word leaves exactly B when A and B are disjoint. |
| Register.WideOrHalves | src/InitUtils.cpp:44 | OR-ing a 32-bit mask into a 64-bit word changes only the low half, which becomes the low half OR the mask. |
| Register.WideOrIsErrorSet | src/InitUtils.cpp:43-44 | The interrupt's 8-byte read-modify-write, an OR-assignment through a `uint64_t *` at the error offset, gives exactly the bank `errorSet(mask)` gives. |
| Register.WithConfigBits | src/main.cpp:105-106 | Setting a configuration bitfield ORs the bit into the configuration byte, and every other byte is unchanged. |
| Register.PutU32 | src/InitUtils.cpp:118-123 | The in-place word store leaves the array equal to `StoreU32` of its old contents. |
| Register.PutU64 | src/InitUtils.cpp:43-44 | The in-place 64-bit store leaves the array equal to `StoreU64` of its old contents. |
| Register.ErrorSetWide | src/InitUtils.cpp:43-44 | The in-place 64-bit OR leaves the array equal to `WithErrorSet` of its old contents. |
| Register.ErrorSet | src/main.cpp:70 | The in-place `errorSet` leaves the array equal to `WithErrorSet` of its old contents. |
| Register.ErrorClear | src/main.cpp:65 | The in-place `errorClear` leaves the array equal to `WithErrorClear` of its old contents. |
| Register.SetConfigBits | src/main.cpp:105-106 | The in-place bitfield write leaves the array equal to `WithConfigBits` of its old contents. |
| Queue.ByteQueue.Init | src/InitUtils.cpp:26-27 | `queue_init` gives an empty queue with the given element size and capacity. |
| Queue.ByteQueue.TryAdd | src/InitUtils.cpp:38 | `queue_try_add` succeeds iff the queue had room. On success the byte is appended at the tail; on failure the queue is unchanged. |
| Queue.ByteQueue.RemoveBlocking | src/main.cpp:177 | `queue_remove_blocking` on a non-empty queue returns the head and leaves the rest in order. |
| Queue.ByteQueue.IsEmpty | src/main.cpp:167 | `queue_is_empty` is true iff no byte is queued. |
| Queue.ByteQueue.IsFull | src/main.cpp:184 | `queue_is_full` is true iff the queue holds its capacity. |
| Queue.ByteQueue.Level | src/main.cpp:169-170 | `queue_get_level` is the number of queued bytes and never exceeds the capacity, which is the `assert` at line 170. |
| SlaveDispatch.Emplace | include/Slave.hpp:42-45 | `emplace` adds the id to the bound ids, keeps the handler of every id already bound, and binds a new id to the given handler. |
| SlaveDispatch.Dispatch | include/Slave.hpp:48-54 | `call` invokes at most one handler. It invokes one iff the message id is bound, and then it is that id's handler, invoked with the message itself. |
| SlaveDispatch.BindAllFirstWins | include/Slave.hpp:42-45 | After any series of `bind` calls, an id keeps the handler it had. An id that was unbound has the handler of its first `bind`; later binds of it are ignored. |
| SlaveDispatch.RebindKeepsFirst | include/Slave.hpp:42-54 | `bind(id, h1); bind(id, h2); call(m)` for `m.msgId == id` invokes `h1` alone. |
| SlaveDispatch.Slave.constructor | include/Slave.hpp:33-35 | The slave starts with the given address and no bindings. The address is a constant field that no method can change. |
| SlaveDispatch.Slave.Bind | include/Slave.hpp:42-45 | `bind` leaves the table equal to `Emplace` of the old table. |
| SlaveDispatch.Slave.Call | include/Slave.hpp:48-54 | `call` with a bound id invokes exactly that id's handler once, with the message. With an unbound id it invokes nothing. The table is only read. |
| SlaveDispatch.Slave.Send | include/Slave.hpp:57-61 | `send` hands `sendMessage` a message from the slave's own address to the given destination, with the given id and no payload, and returns its result. |
| SlaveDispatch.Slave.SendWithPayload | include/Slave.hpp:64-68 | The payload overload does the same with the given payload. |
| SlaveDispatch.Slave.Sync | include/Slave.hpp:71-89 | `sync` returns true iff `readMessage` delivered a message within the timeout. It then dispatches that message exactly once; otherwise it dispatches nothing. |
| Sleep.ChunksShape | src/Hardware/Sleep.cpp:48-55 | The sleeps of `sleep_hp` add up to the requested time. Every in-loop sleep is half the watchdog window (`DEFAULT_WATCHDOG_DELAY * 500` us), and the trace ends with the remaining sleep. |
| Sleep.ChunksAreWatchdogSafe | src/Hardware/Sleep.cpp:48-55 | Every sleep plus the 1 ms margin stays within the watchdog window, and a `watchdog_update` follows every sleep but the last. |
| Sleep.AsWrittenAgreesBelowWrap | src/Hardware/Sleep.cpp:48 | With the guard computed in `uint64_t`, the loop behaves as intended for every request more than 1000 us below 2^64. |
| Sleep.AsWrittenWrapSkipsChunking | src/Hardware/Sleep.cpp:48 | With the guard computed in `uint64_t`, a request of 2^64 - 1 us is slept in one piece with no keep-alive, and the trace is not watchdog safe. |
| Sleep.AsWrittenSum | src/Hardware/Sleep.cpp:48-55 | With the guard computed in `uint64_t`, the sleeps of the loop still add up to the request for every `us` below 2^64. |
| Sleep.SleepHp | src/Hardware/Sleep.cpp:45-56 | The loop, with its guard evaluated in `uint64_t` as compiled, produces the as-written trace for the request, and its sleeps add up to the request. For every request more than 1000 us below 2^64 the trace is the intended chunked trace and is watchdog safe. The loop never underflows `us` and terminates. |
| Sleep.SleepLp | src/Hardware/Sleep.cpp:13-42 | The same as-written trace, preceded by disabling RS485, releasing the user LED and lowering the clocks, and followed by the reverse. The sleeps add up to the request, and below the wrap the middle part is the intended chunked trace. |
| Sensor.Scl3400InitFrame | src/Sensors/Murata/SCL3400.cpp:10-63 | The SCL3400's `init` writes only the desired cycle time, which it sets to 100 000 us whatever it was, so it keeps the error word and the configuration byte as every driver's `init` must. |
| InitUtils.DefaultImageFields | src/InitUtils.cpp:101-126 | The factory-default bank has `gainPv0` and `gainPv1` at 1.0f, and `gainPv2` and `gainPv3` at 0 because `gainPv1` is written three times. The desired cycle time is `DEFAULT_CYCLE_TIME_US`, every configuration bit (free-run and statistics included) is clear, the error word and the net cycle time are 0, and every byte outside the written fields is 0. |
| InitUtils.LoadDefaultValues | src/InitUtils.cpp:101-126 | Zeroing every byte in a loop and then writing the fields leaves exactly the factory-default bank, which is then written to flash. |
| InitUtils.InitQueue | src/InitUtils.cpp:24-28 | Two distinct, empty queues with element size 1 and capacity `RX_TX_QUEUE_SIZE`. |
| InitUtils.UartInterruptHandler | src/InitUtils.cpp:31-50 | With nothing readable, nothing changes. A byte that fits is appended at the tail of `rxFifo` and the bank is untouched. A byte that does not fit is dropped, `rxFifo` is unchanged, and the CPU-overload bit is OR-ed into the error word with every other byte kept. |
| InitUtils.UserInit | src/InitUtils.cpp:129-145 | Both queues are created empty. The bank keeps the restored image iff the flash reports a valid one; otherwise it holds the factory defaults and one flash write is made. |
| Core.BootErrorWord | src/main.cpp:65-106 | For any sensor whose `init` keeps the status fields, the error word after start-up is 0, except the watchdog bit. That bit is set iff the reboot was watchdog-caused and no factory reset was requested: the reset at line 78 runs after line 70 and wipes the bit. |
| Core.BootConfig | src/main.cpp:74-106 | For any such sensor, USB mode sets free-run and statistics. Otherwise a bank rebuilt from defaults has every configuration bit clear, and a restored bank keeps its own bits. |
| Core.BootDesiredCycleTime | src/main.cpp:78-106 | With the SCL3400 fitted, the desired cycle time after start-up is 100 000 us whatever the flash or the factory defaults held: its `init` (line 87) runs after both, and the USB configuration bits do not touch it. |
| Core.Discard | src/main.cpp:125-126 | Removing until empty leaves the queue empty. |
| Core.CycleDuration | src/main.cpp:233 | The `uint64_t` difference of the two timestamps is below 2^64, and it is the true difference when the clock did not wrap. |
| Core.AverageBounds | src/main.cpp:236 | The truncated average `9 * net / 10 + cycle / 10` is at most a tenth of `9 * net + cycle`. It lies between the old average and the sample, less at most 1. |
| Core.NextNetCycleTime | src/main.cpp:236 | The new net cycle time fits in 32 bits and never exceeds the larger of the old value and the 32-bit sample. It is at least the smaller of them less 1. |
| Core.SleepFor | src/main.cpp:239 | The `int64_t` result of the `uint64_t` subtraction is the true difference `desired - cycle`, unless the cycle overran by more than 2^63 us. It is positive iff the cycle finished early, or overran by that impossible amount. |
| Core.CycleUpdatesIffFreeRun | src/main.cpp:223-226 | The sensor is updated in a cycle iff the free-run bit is set. |
| Core.RunSensor | src/main.cpp:223-226 | The in-place step leaves the bank as the sensor's `update` leaves it when the free-run bit is set, and unchanged otherwise. The desired cycle time is kept. |
| Core.StoreAverage | src/main.cpp:236 | The in-place store leaves the bank with the new moving average as its net cycle time and nothing else changed, so the desired cycle time is kept. |
| Core.CycleFrame | src/main.cpp:223-252 | For any sensor whose `update` keeps the status fields and both cycle times, a cycle stores the moving average of the old net cycle time as the net cycle time, and keeps the desired cycle time and the configuration byte. Outside the net cycle time and the error word, every byte is as the sensor left it, and as it was when the free-run bit is clear. |
| Core.CycleWithinBudget | src/main.cpp:239-248 | A cycle shorter than the desired time sleeps exactly the rest of it, with `core1idle` raised only around that sleep. It clears the sensor-overload bit and keeps every other error bit. |
| Core.CycleOverBudget | src/main.cpp:239-252 | A cycle that takes the desired time or longer, by at most 2^63 us, does not sleep and does not touch `core1idle`. It sets the sensor-overload bit and keeps every other error bit. (An overrun beyond 2^63 us makes the `int64_t` difference positive, as `Core.SleepFor` states.) |
| Core.UartOverloadSticky | src/main.cpp:184-188 | The UART-overload bit is set whenever either queue is full, is never cleared by that test, and no other error bit or byte changes. |
| Core.Enqueue | src/main.cpp:164 | The reply bytes a handler queues during `sync` are appended, in order, at the tail of the transmit queue. |
| Core.Consume | src/main.cpp:164 | Reading a frame during `sync` takes the first `n` queued bytes off the receive queue, in order, and leaves the rest queued. |
| Core.Drain | src/main.cpp:169-178 | Removing the queue's level of bytes one at a time empties the queue and yields its bytes in order. |
| Core.Firmware.Boot | src/main.cpp:57-126 | Start-up leaves the bank equal to `BootImage` of the restored bank, the sensor's `init` and the start-up inputs, and records the flash writes of the default loads. Both queues are empty, `core1idle` is true and `useUsb` is the switch level. |
| Core.Firmware.Core1Step | src/main.cpp:215-253 | One sampling cycle, with the sensor's `update` run when free-running, leaves the bank equal to `CycleImage` of the old bank and returns `CycleEffects`. `core1idle` is false after a cycle that slept and unchanged otherwise. |
| Core.Firmware.BusIteration | src/main.cpp:133-199 | One bus-mode iteration refreshes the watchdog and dispatches the message `sync` read, if any. When a handler ran, its register writes are applied and its replies are queued behind the bytes already waiting. Every queued transmit byte is then written, in order, in one UART write, and `txFifo` is left empty. `rxFifo` loses the bytes the frame read consumed, and the bank gets the UART-overload bit iff `rxFifo` is still full after that. It naps 10 us after that iff this is a release build and core 1 is idle. |

## Left out

- The USB diagnostic branch of the main loop (src/main.cpp:137-160) and the USB set-up and printing at src/main.cpp:94-102 are stream output and float formatting. Only the configuration bits USB mode sets are modelled. The wrap-around in the sleep time at line 156 is what feeds the finding below.
- The seven `bind` calls at src/main.cpp:116-122, the `unicast`/`broadcast` wrappers and the callbacks are not part of this model. `Core.Firmware.Boot` takes an already-bound slave.
- What a handler does when invoked is given by its effects (reply bytes and the bank it leaves), not computed from the callbacks. The framing of `Protocol::readMessage`/`sendMessage` is not modelled; they are passed in as functions. How many receive bytes a frame read consumes is a parameter of `Core.Firmware.BusIteration`, not computed from the framing.
- Core.Firmware.BusIteration: requires that the handler's reply bytes fit into the transmit queue. What the RS485 layer does with bytes that do not fit is not part of this model.
- The values the sensor measures and writes (process values and, with `calcStat`, their statistics; src/Sensors/Murata/SCL3400.cpp:73-103) are not modelled, nor the SPI exchange. Core.Firmware.Core1Step, Core.CycleFrame and the start-up lemmas hold for every driver that keeps the fields `Sensor.UpdateFrame` and `Sensor.InitFrame` name.
- Hardware I/O is left out: the LED pulses, `irq_clear`, GPIO/clock/UART set-up (`userInitClocks`, `userInitGpio`, `userInitUart`, `userInitUartDisabled`) and `watchdog_enable`. So are the two watchdog refreshes, the sensor construction and the SPI/GPIO part of the sensor's `init` during start-up (src/main.cpp:81-89).
- `userInitFlash` is not part of this model. The bank's contents on entry to start-up stand for the restored image, and whether it was valid is a parameter. `updateFlash` is recorded as a flash-write effect.
- The two cores and the interrupt run concurrently. Each loop body and the interrupt are modelled as one atomic step, so lost updates from interleaved read-modify-writes of the error word are not captured. Neither are `multicore_launch_core1`, `multicore_lockout_victim_init` and `volatile`.
- The slave's address is read from the bank during static initialisation (src/main.cpp:38). The model takes it as a constructor parameter.
- `msgid_t` is modelled as an unbounded natural number, and payloads have no length bound.
- Gains are IEEE 754 floats. The model stores the bit pattern of 1.0f (`0x3F800000`) and does no float arithmetic.
- `Sleep.SleepLp` reuses the chunking loop of `Sleep.SleepHp`. The source repeats the same loop inline (src/Hardware/Sleep.cpp:25-32), so the trace is the same.

## Findings

| source | as written | input that shows it | evidently intended | confidence | as-written member | corrected member |
|---|---|---|---|---|---|---|
| src/Hardware/Sleep.cpp:48 (same guard at :25) | The loop guard `us + 1000 > DEFAULT_WATCHDOG_DELAY * 1000` is computed in `uint64_t`, and the sum wraps for `us >= 2^64 - 1000`. | `us` from 2^64 - 1000 to 2^64 - 1. src/main.cpp:156 computes `99 990 - elapsed` in `uint64_t`, so it produces exactly these values when printing takes 99 991 to 100 990 us (2^64 - 1 at 99 991 us). The sum then wraps below 1000, the loop is skipped, and the whole request goes to one `sleep_us` with no watchdog refresh. A print slower than 100 990 us gives 2^64 - 1001 or less, which is chunked, so that request also hangs, but with the watchdog fed. | The guard compares the mathematical sum, so every long request is chunked with keep-alives. | not executed | Sleep.AsWrittenWrapSkipsChunking | Sleep.ChunksAreWatchdogSafe |
