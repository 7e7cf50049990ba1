# An AES-128 accelerator and its board support code

This project models two halves of a system on an FPGA and proves what they are for.

The hardware half is an AES-128 encryption engine written in Verilog: a system state machine, an input register
block, a key-expansion engine with eleven round-key registers, a round engine, and one sixteen-byte S-box memory
that both engines share. The model is one clock edge as a step over all registers, for arbitrary host inputs and
arbitrary values on undriven nets; the specification is FIPS 197 (sections 5.1 to 5.3).

The software half is the parts of the hardware abstraction layer that hold state: the interrupt-driven JTAG UART
driver, the alarm service, the file descriptor pool with its exclusive locks, the time of day, and two integer
printers.

## How it is laid out

| files | contents |
|---|---|
| `GaloisField`, `SboxRom`, `Fips197` | GF(2^8), the S-box table, the cipher, its key schedule and its inverse |
| `Datapath`, `AesMachine`, `AesTop` | the combinational modules; the step function; the clocked object that performs it in place |
| `AesRuns`, `AesTheorems`, `AesBlocks`, `AesHost`, `AesSequence`, `AesScenario` | runs, and the theorems about them: results, the fate of each block, the view of the host |
| `AesVectors` | the worked example of FIPS 197 appendix B, on the specification and on the machine |
| `Hal` | machine integers and error numbers |
| `UartRing`, `Uart`, `UartStreams`, `UartControl`, `UartBlocking`, `UartReturns`, `UartProgress` | the driver as an interleaved transition system: its invariants over every run, why calls return what they return, and that they return |
| `UartSteps`, `UartDriver` | the driver as code over its buffers, proved to do only runs of that system |
| `LinkedList`, `AlarmTimer`, `AlarmSchedule`, `AlarmList`, `AlarmRuns`, `AlarmHistory` | the alarm service: links, 32-bit times, the walk of a tick, whole runs |
| `Descriptors`, `DescriptorLaws`, `DescriptorPool` | the descriptor pool as a value with its histories; what each call answers and changes; the array that implements it |
| `TimeOfDay` | the clock offset arithmetic and the two loops of `gettimeofday` |
| `Numerals`, `HexBits`, `Printing` | numerals; masks and shifts of a word; printing by shifts and by division |

Objects that the source updates in place are classes with the fields of the source. Each of their methods is proved
equal to a step of a specification on values, and the properties are proved about that specification.

## Where the code falls short of its description

* An alarm started with 2^32-1 ticks fires at once unless the counter is about to wrap
  (`AlarmTimer.StartExact`, `AlarmTimer.LongestFiresAtOnce`), and its next period is then one tick short.
* The lock on a device is described as going to a sole opener. The scan leaves out the descriptor in the top slot
  (`Descriptors.LockExact`, `Descriptors.LockOfTwo`). That at most one descriptor holds the lock is true all the
  same, by the order of events.
* close() is described as releasing the lock; for the three standard descriptors it does not
  (`Descriptors.CloseUnlocks`, `Descriptors.StandardKeepsLock`).
* settimeofday() multiplies in 32 bits where gettimeofday() multiplies in 64, so that a time set late enough after
  reset reads up to a second off (`TimeOfDay.ExactIff`, `TimeOfDay.LateAfterAnHour`).
* The accelerator drops a block that is loaded together with a key, one that is loaded in the cycle of a core start,
  and one that another block replaces before the core start (`AesBlocks.StartedIff`, `AesBlocks.LostWithKey`,
  `AesBlocks.LostAtStart`, `AesBlocks.LostReplaced`).
* A key loaded between the start of its expansion and the start of a block changes only the first key addition of that
  block (`AesHost.CipherIff`, `AesHost.LateKeySpoils`).

## Reading the models

* AES: nets that `AES_Top.v` uses before declaring them are read at their declared widths. The S-box memory has
  its address registered and its output not, and holds the table of `asROM.v`. `new_key` and `key_generated` do
  not influence anything. A reset begins a new run. A reset state has all registers at their reset values and any
  ROM address.
* UART: the interrupt routine may start between any two memory accesses of `read` and `write` and runs to
  completion, while the host moves at any time. Assumed of the device: RI is raised only with RE set and data
  present, WI only with WE set and room in the FIFO, and a read that reports no valid byte reports none remaining.
  The calls of the driver object are watched for a given number of turns of each waiting loop, because a blocking
  call may wait for ever; nothing else is bounded. While interrupts are disabled only the host moves.
* UART results: a call with nothing to do returns the error of a call that did nothing, as the code does. A negative
  count acts like zero.
* Alarms: `entries` and `ticks` are ghost fields, an unbounded account of what the 32-bit fields stand for. What a
  callback does is a parameter: the period it returns and the alarms it starts.
* Descriptors: a device is the address of its structure, zero for none. What the callbacks behind open(), close()
  and ioctl() return is a parameter. Calls on descriptors that are not open, which dereference a null pointer, are
  outside the histories.
* Time of day: seconds and microseconds are signed 32-bit integers with the wrap-around written out.
* Printing: alt_printf works on a 32-bit vector with the masks and shifts of the source; the log printer, which
  divides, on its number.

## Model

| member | source | states |
|---|---|---|
| AesTheorems.DisciplinedCipher | AES_Top.v:1-96 | In every run from reset, for every host that loads only while ready and never key and data together, and has loaded a key: each cycle with `CTValid` shows the FIPS 197 section 5.1 cipher of the last loaded data under the section 5.2 schedule of the last loaded key |
| AesHost.CipherIff | InputInterface.v:16-34 | For any host, in terms of its own loads and the ready line: the ciphertext shown is the FIPS 197 cipher of the block loaded last before the core start under the key loaded last in a ready cycle, if and only if that key was also the last one loaded in any cycle before the core start |
| AesHost.LateKeySpoils | InputInterface.v:22-32 | The failing case: key, block, and another key while the first is expanded give a text that is not the cipher of the block under the key loaded while ready |
| AesTheorems.CipherTextIsCipherIff | InputInterface.v:30-34 | The same in terms of the registers: the key register at the core start against the key of the schedule |
| AesTheorems.CipherTextOfAnyRun | ProcessingCore.v:52-70 | For any host: a valid ciphertext is rounds 1 to 10 of FIPS 197, under the schedule of the last started key, of the data and key that were in the input registers at the core start |
| AesTheorems.RunInvariant | SystemController.v:28-89 | What every reachable state satisfies: the three state machines in lock step, the register file a prefix of the schedule, the state register the rounds done so far |
| AesTheorems.ScheduleInForce | KeyLogic.v:23-62 | When `expansion_done` rises, and in every cycle until the next key start, `key_reg[0..10]` is exactly the section 5.2 schedule of the started key |
| AesTheorems.EnginesInStep | SystemController.v:45-57 | For any host: the key controller is out of idle exactly in `wait_Keyex`, the round controller exactly in `wait_PCore`, the S-box mux is switched to the engine that runs, consumed round keys have indices 1 to 10, and no unused encoding is reached |
| AesTheorems.FloatingNeverMatters | KeyLogic.v:61-62 | No register and no valid ciphertext depends on the value of an undriven net, in any run |
| AesTheorems.EngineLatency | ProcessingCoreController.v:22-64 | Each engine reports completion exactly 21 cycles after its start pulse and in no cycle before, whatever the host does |
| AesTheorems.LoadLatency | SystemController.v:27-81 | A block loaded alone while ready shows its result after exactly 22, 23 or 45 cycles, as determined by what was pending and by a key load in the next cycle, and not earlier, whatever the host does after the load |
| AesTheorems.BlocksConserved | SystemController.v:71-79 | In every run, for any host: data loads = results shown + block in flight + block pending + loads made while another block was pending; so results never outnumber loads |
| AesBlocks.StartedIff | InputInterface.v:16-34 | For every run and every load of a block, when no later load carries a key and a block together: the block is taken by a later core start if and only if its cycle had no key load, was not itself a core start, and no other block came before the next core start |
| AesBlocks.TakenByNextStartIff | SystemController.v:69-80 | The same at the first core start after the load, and then the core works on that very block |
| AesBlocks.TakenIff | InputInterface.v:22-23 | For any host and any later core start: the core takes the block if and only if the load carried no key and no other block has come in between |
| AesBlocks.PendingIff | SystemController.v:70-80 | `in_loaded` is set exactly when some load outside a core-start cycle has come since the last core start |
| AesBlocks.AcceptedStarts | SystemController.v:27-59 | Every load outside a core-start cycle is followed by a core start within 47 cycles, whatever the host does |
| AesBlocks.LostWithKey | InputInterface.v:22-23 | First witness of a loss: a block loaded together with a key is never taken, and the core runs on the zero block |
| AesBlocks.LostAtStart | SystemController.v:78-80 | Second witness: a block loaded in the cycle of a core start is never taken, and the block before it is |
| AesBlocks.LostReplaced | InputInterface.v:23 | Third witness: a block replaced before the core start is never taken, and the later one is |
| AesBlocks.BroughtBack | SystemController.v:71 | Why later joint loads matter: one of them starts the core on a block that had been dropped |
| AesTheorems.WaitingHostLosesNothing | SystemController.v:84-89 | For a host that loads only when every earlier block has shown its result: loads = results + in flight + pending |
| AesSequence.ShownInOrder | AES_Top.v:2-9 | The ciphertexts shown to a disciplined host that waits for each result are, in order, the ciphers of the blocks it loaded, each under the last key loaded when it is shown; at most the last block has none yet |
| AesScenario.EncryptOneBlock | AES_Top.v:21-90 | From any reset state: key in one cycle, data 23 cycles later, and the FIPS 197 ciphertext after 46 cycles, for every key and block |
| AesVectors.WorkedExampleOnMachine | AES_Top.v:21-90 | Loaded with the key and the block of FIPS 197 appendix B, the accelerator shows the ciphertext printed there |
| AesVectors.WorkedExample | ProcessingCore.v:52-70 | The specification itself gives the ciphertext of appendix B and, backwards, its block: every byte is in the place where the standard has it |
| AesVectors.PrintedKeys | tb_KeyLogic.sv:134-165 | For the key that the test bench loads, the eleven round keys are those printed in appendix A.1 |
| Fips197.AddRoundKeyByte | InputInterface.v:32 | In every key addition the byte in row r and column c meets the byte of the key in row r and column c, and they are added bit by bit |
| Fips197.ShiftRowsByte | ShiftRow.v:37-42 | Row r of the state is rotated by r columns (equation 5.3) |
| Fips197.MixColumnsByte | MixColumnsAddRoundKey.v:42-45 | Each byte of a mixed column is {02} times its own byte, {03} times the next one down, plus the other two (equation 5.6) |
| GaloisField.XtimeIsReduction | MixColumnsAddRoundKey.v:8-13 | The shift with the conditional 1b is multiplication by x with nine coefficients, reduced by the polynomial 11b |
| AesMachine.ControlStep | KeyLogicController.v:21-51 | Every clock edge keeps the lock step of the three controllers, for any inputs |
| AesRuns.KeyDataStep | KeyLogic.v:23-33 | Every clock edge keeps: the registers written so far are the round keys of the key taken at the start pulse, and the S-box output is the substitution of the rotated last word |
| AesRuns.CoreDataStep | ProcessingCore.v:52-65 | Every clock edge keeps: the state register is the input after the rounds counted so far, and the S-box output is its SubBytes after ShiftRows |
| AesTop.Accelerator.Clock | AES_Top.v:21-90 | One clock edge on the object that holds all registers, module by module, is exactly the step that the theorems are about |
| AesTop.Accelerator.ClockAll | AES_Top.v:2-9 | Any number of clock edges takes the object through exactly the run that the theorems are about |
| AesTop.Accelerator.EdgeInputInterface | InputInterface.v:16-29 | A key load wins over a data load in the same cycle |
| AesTop.Accelerator.EdgeKeyLogicController | KeyLogicController.v:29-51 | State and round counter of the key controller after an edge |
| AesTop.Accelerator.EdgeProcessingCoreController | ProcessingCoreController.v:22-59 | State and round counter of the round controller after an edge |
| AesTop.Accelerator.EdgeSystemController | SystemController.v:61-82 | State, `in_loaded` and `key_generated` after an edge; the start of a block clears `in_loaded` even against a load in that cycle |
| Datapath.SubBytesAfterShiftRow | ShiftRow.v:37-42 | The byte permutation, followed by sixteen lookups, is SubBytes followed by ShiftRows |
| Datapath.MixColumnsAddRoundKeyIsFips | MixColumnsAddRoundKey.v:8-68 | The fused column products and key addition are MixColumns (products in GF(2^8)) then AddRoundKey |
| Datapath.RconCaseIsRcon | RoundKeyExpander.v:18-32 | The ten constants are the powers of x in GF(2^8), and the default outside rounds 1 to 10 is zero |
| Datapath.RoundKeyExpanderIsFips | RoundKeyExpander.v:35-48 | Fed with round key r-1 and the substituted rotated word, the expander gives round key r of FIPS 197 section 5.2 |
| SboxRom.SboxIsFips | asROM.v:10-78 | The 256 entries are the affine transform of the inverse in GF(2^8), where the inverse is characterised by y * b = 1 |
| SboxRom.SubByteInverse | asROM.v:12-78 | The table is a permutation: the inverse transform undoes it and is undone by it |
| GaloisField.MixInverse | MixColumnsAddRoundKey.v:42-45 | The column product with 2, 3, 1, 1 and the one with 14, 11, 13, 9 undo each other, both ways |
| Fips197.TenRoundsBijection | ProcessingCore.v:58-62 | For every key schedule the block map of the ten rounds is a bijection, undone by the inverse of FIPS 197 section 5.3 and undoing it |
| Fips197.CipherBijection | ProcessingCore.v:56-63 | The same for the whole cipher: decryption undoes encryption and encryption undoes decryption, for every schedule |
| Fips197.RoundKeyStep | RoundKeyExpander.v:38-47 | The word recurrence of section 5.2, four words at a time |
| Fips197.NextKeyInverse | RoundKeyExpander.v:42-47 | Each expansion step can be undone, from either side |
| Fips197.UnwindRoundKey | KeyLogic.v:30-31 | Round key r, unwound r times, is the cipher key |
| Fips197.RoundKeyBijection | KeyLogic.v:28-31 | Two keys with the same round key r (for instance `key_reg[10]`) are the same key |
| UartStreams.TransmitStream | software/helloAES_bsp/drivers/src/altera_avalon_jtag_uart_write.c:100-200 | With the interrupt routine interleaved at any memory access: bytes sent to the device, followed by the ring, are the bytes accepted from callers, in order; a call that returned n had exactly its first n bytes accepted, and one that took nothing returned the error of its mode, would-block exactly when non-blocking |
| UartStreams.ReceiveStream | software/helloAES_bsp/drivers/src/altera_avalon_jtag_uart_read.c:115-179 | With the interrupt routine interleaved at any memory access: bytes returned to callers, followed by the ring, are the bytes taken from the device; a call that returned n was given exactly the next n, and one that brought nothing returned the error of its mode |
| UartStreams.HostToReader | software/helloAES_bsp/drivers/src/altera_avalon_jtag_uart_init.c:125-154 | From end to end: what readers got, then the ring, then the device FIFO, is what the host sent |
| UartStreams.DeviceStreamStep | software/helloAES_bsp/drivers/src/altera_avalon_jtag_uart_init.c:142-150 | No event ever takes back a byte that was sent, accepted, taken or returned |
| UartStreams.StreamsStep | software/helloAES_bsp/drivers/src/altera_avalon_jtag_uart_init.c:131-184 | Every event of writer, reader, interrupt routine, timer and host keeps both stream invariants |
| UartStreams.Execute | software/helloAES_bsp/drivers/src/altera_avalon_jtag_uart_init.c:66-100 | Whatever events come in whatever order, the state reached satisfies both stream invariants |
| UartRing.Publish | software/helloAES_bsp/drivers/src/altera_avalon_jtag_uart_write.c:122-126 | Moving `tx_in` over filled slots appends their contents and nothing else |
| UartRing.Consume | software/helloAES_bsp/drivers/src/altera_avalon_jtag_uart_read.c:136-140 | Moving `rx_out` over unread slots removes exactly those from the front |
| UartRing.UsedIsLength | software/helloAES_bsp/drivers/src/altera_avalon_jtag_uart_write.c:105-117 | A ring never holds more than 2047 bytes, and is empty exactly when its indices agree |
| UartControl.NoWakeupLost | software/helloAES_bsp/drivers/src/altera_avalon_jtag_uart_init.c:156-194 | In every reachable state outside the window between moving an index and re-enabling: a non-empty transmit ring has WE set in `irq_enable`, and RE clear means a non-empty receive ring; with nobody inside an update the device has the same bits, so that between calls bytes to send, and an empty receive ring, have their interrupts enabled in both |
| UartControl.DeviceNeverOverrun | software/helloAES_bsp/drivers/src/altera_avalon_jtag_uart_init.c:169-184 | The transmit FIFO of the device is never written when full |
| UartControl.InterruptRoutineEnds | software/helloAES_bsp/drivers/src/altera_avalon_jtag_uart_init.c:117-196 | Whatever the host does meanwhile, the routine takes fewer than 16400 steps and can always take the next: it returns |
| UartControl.RoutineReturns | software/helloAES_bsp/drivers/src/altera_avalon_jtag_uart_init.c:117-123 | The routine returns from a look at the control register that shows neither interrupt, and from nowhere else |
| UartControl.IsrWorks | software/helloAES_bsp/drivers/src/altera_avalon_jtag_uart_init.c:128-192 | Every step of the routine uses up a free receive slot, a byte to send, an enable bit, or progress within the pass |
| UartControl.ControlStep | software/helloAES_bsp/drivers/src/altera_avalon_jtag_uart_init.c:102-196 | Every event keeps: enable bits and device agree outside the two stores of an update, and only one party updates them |
| UartBlocking.BlockingWrite | software/helloAES_bsp/drivers/src/altera_avalon_jtag_uart_write.c:140-203 | A blocking write that returned accepted all its bytes, unless at some time after the call began the host had been inactive for the timeout |
| UartBlocking.BlockingRead | software/helloAES_bsp/drivers/src/altera_avalon_jtag_uart_read.c:144-202 | A blocking read of a positive count that returned has delivered at least one byte, unless at some time after the call began the host had been inactive for the timeout |
| UartReturns.WriteTakesWhatFits | software/helloAES_bsp/drivers/src/altera_avalon_jtag_uart_write.c:102-203 | A write that returned with bytes left over: at some time after the call began all 2047 slots of the ring were taken, and if the call may block the host had been inactive for the timeout besides |
| UartReturns.ReadTakesWhatIsThere | software/helloAES_bsp/drivers/src/altera_avalon_jtag_uart_read.c:119-202 | A read that returned with room left over: at some time after the call began the ring was empty, and if it brings nothing and may block the host had been inactive for the timeout besides |
| UartProgress.WriteEnds | software/helloAES_bsp/drivers/src/altera_avalon_jtag_uart_write.c:99-203 | A call of write ends: whatever is interleaved, it takes at most 2100 steps a byte and 2065 more that are not turns of its waiting loop with the host there and `tx_out` unmoved, and then it has returned |
| UartProgress.ReadEnds | software/helloAES_bsp/drivers/src/altera_avalon_jtag_uart_read.c:115-202 | A call of read ends in the same way |
| UartProgress.WriterWorks | software/helloAES_bsp/drivers/src/altera_avalon_jtag_uart_write.c:102-191 | Every step of the writer but such a turn leaves it strictly less to do, by bytes left and place in the code |
| UartProgress.ReaderWorks | software/helloAES_bsp/drivers/src/altera_avalon_jtag_uart_read.c:115-173 | Every step of the reader but a turn of its waiting loop leaves it strictly less to do |
| UartDriver.JtagUart.constructor | software/helloAES_bsp/drivers/src/altera_avalon_jtag_uart_init.c:66-96 | The driver starts with empty rings, receive interrupts on and transmit interrupts off, at the beginning of a run |
| UartDriver.JtagUart.NothingStuck | software/helloAES_bsp/drivers/src/altera_avalon_jtag_uart_init.c:156-194 | On the fields of the driver: between calls, bytes to send have WE set in driver and device, and an empty receive ring has RE set in both |
| UartDriver.JtagUart.Irq | software/helloAES_bsp/drivers/src/altera_avalon_jtag_uart_init.c:108-197 | The routine as loops over the buffers in place, with the host moving before every access: it terminates; what it did continues the run of the transition system; no byte stream loses anything, the streams of the callers are unchanged and the callers undisturbed. Where the device shows RI whenever it may, it returns only with the device empty or RE off; where it shows WI whenever it may, only with the device full or WE off |
| UartDriver.JtagUart.ReceiveAll | software/helloAES_bsp/drivers/src/altera_avalon_jtag_uart_init.c:125-167 | The receive part: it ends with RE cleared in driver and device and the ring full, or with the enables unchanged and the device seen empty or the ring full |
| UartDriver.JtagUart.ReceiveLoop | software/helloAES_bsp/drivers/src/altera_avalon_jtag_uart_init.c:130-161 | The receive loop, and RE cleared in `irq_enable` exactly when data is left over for a full ring |
| UartDriver.JtagUart.TransmitAll | software/helloAES_bsp/drivers/src/altera_avalon_jtag_uart_init.c:169-194 | The transmit part: it ends with WE cleared in driver and device and the ring empty, or with the enables unchanged and exactly as many bytes sent as the device reported room for |
| UartDriver.JtagUart.TimerExpires | software/helloAES_bsp/drivers/src/altera_avalon_jtag_uart_init.c:203-225 | The timer callback: activity rewrites the enables of the device and resets `host_inactive`, which otherwise counts up to saturation; a step of the run, with every stream kept |
| UartDriver.JtagUart.Others | software/helloAES_bsp/drivers/src/altera_avalon_jtag_uart_init.c:108-225 | Whatever comes between two accesses of a call: any number of host moves, timer callbacks and whole runs of the interrupt routine continue the run and leave the callers undisturbed |
| UartDriver.JtagUart.Write | software/helloAES_bsp/drivers/src/altera_avalon_jtag_uart_write.c:84-217 | The call as loops over the buffer in place, with host, timer and interrupts between any two accesses: it appends to the accepted bytes a prefix of those it was given, exactly as many as its result counts when it is done; a call that took nothing returns would-block when non-blocking and an input-output error otherwise; bytes are left over only if the ring was full at some time during the call, and after a blocking call only if the host was inactive; what was returned to readers is unchanged; only a blocking call is ever left waiting, and then with `tx_out` unmoved and the host there |
| UartDriver.JtagUart.FillRing | software/helloAES_bsp/drivers/src/altera_avalon_jtag_uart_write.c:102-127 | The copying loop leaves bytes over only when the ring was full at its last look, with the `tx_out` of that look |
| UartDriver.JtagUart.EnableTransmit | software/helloAES_bsp/drivers/src/altera_avalon_jtag_uart_write.c:136-139 | Interrupts are disabled around the two stores: at the end WE is set in driver and device |
| UartDriver.JtagUart.Read | software/helloAES_bsp/drivers/src/altera_avalon_jtag_uart_read.c:101-203 | The call as loops over the buffer in place, with host, timer and interrupts between any two accesses: when it is done it has appended to the returned bytes exactly those it delivers, as many as its result counts and no more than asked for; a call that brought nothing returns would-block when non-blocking and an input-output error otherwise; it brings less than asked for only if the ring was empty at some time during the call, and a blocking call nothing only if the host was inactive; what was accepted from writers is unchanged; only a blocking call is ever left waiting, and then with `rx_in` unmoved and the host there |
| UartDriver.JtagUart.DrainRing | software/helloAES_bsp/drivers/src/altera_avalon_jtag_uart_read.c:119-142 | The two-chunk copying loop never delivers more than asked for, and leaves room over only when the ring was empty at its last look |
| UartDriver.JtagUart.EndRead | software/helloAES_bsp/drivers/src/altera_avalon_jtag_uart_read.c:188-195 | With bytes delivered, RE is set in driver and device when the call returns |
| UartDriver.JtagUart.Close | software/helloAES_bsp/drivers/src/altera_avalon_jtag_uart_init.c:241-254 | Success means that everything accepted before the call has been sent or that the host is inactive; `EWOULDBLOCK` only for a non-blocking call with bytes left |
| UartSteps.CallAccepted | software/helloAES_bsp/drivers/src/altera_avalon_jtag_uart_write.c:199-202 | A call of write, at every time: the accepted bytes are those before the call and the prefix copied so far; once returned, as many as its result counts, with the error of its mode for none |
| UartSteps.CallDelivered | software/helloAES_bsp/drivers/src/altera_avalon_jtag_uart_read.c:197-202 | A returned call of read: the returned bytes are those before the call and the ones in the buffer of the caller, as many as its result counts, with the error of its mode for none |
| AlarmTimer.StartExact | software/helloAES_bsp/HAL/src/alt_alarm_start.c:80-98 | Against an unbounded tick count, an alarm started with n ticks first fires exactly n+1 ticks later, across any wraps, if and only if n <= 2^32-2 or the counter is about to wrap |
| AlarmTimer.LongestFiresAtOnce | software/helloAES_bsp/HAL/src/alt_alarm_start.c:82-96 | The failing case: n = 2^32-1 away from the wrap fires on the very next tick |
| AlarmTimer.FirstExpiresWhenDue | software/helloAES_bsp/HAL/src/alt_tick.c:107-115 | The time and rollover test of every tick is false before the due tick and true on it, however often the counter wraps |
| AlarmTimer.PeriodExact | software/helloAES_bsp/HAL/src/alt_tick.c:125-138 | After a nonzero return the next expiry is exactly that many ticks later |
| AlarmTimer.StartStandsFor | software/helloAES_bsp/HAL/src/alt_alarm_start.c:82-96 | For every number of ticks the time and the rollover flag that are stored stand for the due tick |
| AlarmTimer.RearmStandsFor | software/helloAES_bsp/HAL/src/alt_tick.c:127-138 | For every period the time and the rollover flag after a callback stand for the next due tick, also for an alarm whose time lies one tick behind |
| AlarmRuns.FiringsAreCountdown | software/helloAES_bsp/HAL/src/alt_tick.c:87-141 | In every run of ticks, starts and stops of other alarms, an alarm fires on exactly the ticks on which it would fire if it were alone |
| AlarmRuns.TickForOne | software/helloAES_bsp/HAL/src/alt_tick.c:114-138 | On one tick an alarm fires if it is due, once, and otherwise not; it keeps its due time, gets the next one, or leaves the list |
| AlarmRuns.CountdownExact | software/helloAES_bsp/HAL/src/alt_tick.c:115-138 | Those ticks: the first is the due one, each further one is one returned period after the one before, none is missed by the end of the run, and a return of zero is the last |
| AlarmRuns.StartedAlarm | software/helloAES_bsp/HAL/src/alt_alarm_start.c:64-98 | An alarm started with any number n of ticks fires first on its due tick, which is n+1 ticks after the start but for n = 2^32-1, then by its periods, in every run that leaves it alone |
| AlarmRuns.StartedByCallback | software/helloAES_bsp/HAL/src/alt_tick.c:115-118 | An alarm that a callback starts on a tick is registered on that tick and fires from then on in every run exactly as if it had been started between ticks |
| AlarmRuns.StoppedAlarm | software/helloAES_bsp/HAL/src/alt_tick.c:66-73 | An alarm that has been stopped does not fire again in any run until somebody starts it |
| AlarmHistory.Drive | software/helloAES_bsp/HAL/src/alt_tick.c:87-141 | The service driven through any run of ticks, starts and stops: its list goes where the run goes, and each alarm is called back on exactly the ticks of the run |
| AlarmList.AlarmService.Tick | software/helloAES_bsp/HAL/src/alt_tick.c:87-141 | The walk over the links, with callbacks that remove their own alarm or start others: it terminates, visits each alarm registered at its start once and in order, fires exactly those that are due, and leaves a well-formed list of the new alarms and the survivors, each with the right due tick |
| AlarmList.AlarmService.Start | software/helloAES_bsp/HAL/src/alt_alarm_start.c:64-112 | Links the alarm at the head with its due tick, for every number of ticks; `ENOTSUP` without a clock, `EINVAL` for a null alarm, and then nothing changes |
| AlarmList.AlarmService.Stop | software/helloAES_bsp/HAL/src/alt_tick.c:66-73 | Takes the alarm off the list, or does nothing when it is not on it |
| AlarmList.AlarmService.Fire | software/helloAES_bsp/HAL/src/alt_tick.c:116-138 | The callback with the alarms it starts, then removal or the new time |
| LinkedList.Insert | software/helloAES_bsp/HAL/inc/sys/alt_llist.h:90-98 | The new entry comes first and the circle of links stays whole |
| LinkedList.Remove | software/helloAES_bsp/HAL/inc/sys/alt_llist.h:105-117 | The circle closes over the removed entry, which is left linked to itself, so that a second removal is harmless |
| AlarmSchedule.AfterTickExact | software/helloAES_bsp/HAL/src/alt_tick.c:96-140 | Exactly what is registered after a tick, both ways: what the callbacks that fired asked for, due from this tick on; the alarms that were not due, unchanged; and those that fired and returned a period, due again |
| AlarmSchedule.AfterTickStep | software/helloAES_bsp/HAL/src/alt_tick.c:96-140 | The list after a tick, entry by entry: what the callbacks start goes in front, survivors keep their order |
| AlarmSchedule.ProperStep | software/helloAES_bsp/HAL/src/alt_tick.c:98-117 | What one callback starts is never on the list as the earlier callbacks left it |
| Descriptors.AtMostOneHolder | software/helloAES_bsp/HAL/src/alt_fd_lock.c:54-75 | After any history of open, close, lock, unlock, fcntl and redirection from start-up, at most one descriptor of a device carries `ALT_FD_EXCL` |
| Descriptors.After | software/helloAES_bsp/HAL/src/alt_open.c:105-171 | Every history of allowed calls ends in a state that satisfies the pool invariant |
| Descriptors.HolderKeeps | software/helloAES_bsp/HAL/src/alt_open.c:64-92 | While a holder neither closes nor unlocks, no history takes its lock away, and no descriptor is added to its device |
| Descriptors.OpenWhileLocked | software/helloAES_bsp/HAL/src/alt_open.c:143-165 | While a device is locked every open of it fails with `EACCES` (or `EMFILE`) and frees its slot |
| Descriptors.LockExact | software/helloAES_bsp/HAL/src/alt_fd_lock.c:61-69 | Exactly when a lock is granted; and it goes to sole openers only, as documented, if and only if the one other descriptor of the device is not the one in the top slot, which the scan misses |
| Descriptors.LockOfTwo | software/helloAES_bsp/HAL/src/alt_fd_lock.c:61-67 | The failing case: a device opened twice from start-up is locked through the first descriptor |
| Descriptors.CloseUnlocks | software/helloAES_bsp/HAL/src/alt_release_fd.c:44-51 | close() gives the lock up exactly when the descriptor is not one of the three standard ones |
| Descriptors.StandardKeepsLock | software/helloAES_bsp/HAL/src/alt_io_redirect.c:58-94 | The failing case: standard output redirected at start-up, locked and closed still holds the lock, and the device cannot be opened |
| Descriptors.StepKeeps | software/helloAES_bsp/HAL/src/alt_ioctl.c:106-168 | Every call keeps the pool invariant, in which a holder in the top slot has its device to itself |
| Descriptors.NoOther | software/helloAES_bsp/HAL/src/alt_fd_lock.c:61-69 | Why the short scan is enough: a descriptor that is granted the lock shares its device with no holder |
| Descriptors.LockSeen | software/helloAES_bsp/HAL/src/alt_open.c:72-85 | The scan in open() sees every holder in the pool |
| Descriptors.SettledFlags | software/helloAES_bsp/HAL/src/alt_fcntl.c:87-92 | fcntl() can neither take nor give up a lock, nor turn a file into a device |
| Descriptors.SettledBits | software/helloAES_bsp/HAL/src/alt_fcntl.c:89-90 | F_SETFL sets O_APPEND and O_NONBLOCK to what is asked and leaves every other bit alone |
| Descriptors.RedirectKeeps | software/helloAES_bsp/HAL/src/alt_io_redirect.c:58-72 | Redirection of a standard descriptor keeps the pool invariant |
| DescriptorLaws.OpenLaw | software/helloAES_bsp/HAL/src/alt_open.c:105-171 | open() succeeds exactly for a known name, a free slot, no lock on the device and a driver that agrees; then the first free slot has the device and the flags asked for, bit by bit; else the answer is -1 with the error of the first failing condition; no other slot changes |
| DescriptorLaws.OpenThenGetFlags | software/helloAES_bsp/HAL/src/alt_open.c:139 | The flags given to open(), without the two bits kept for the pool, are what F_GETFL then reports |
| DescriptorLaws.CloseLaw | software/helloAES_bsp/HAL/src/alt_close.c:64-101 | close() frees the slot exactly for descriptors above 2, whatever the driver answers, and passes a failure of the driver on as -1 and errno |
| DescriptorLaws.CloseThenOpen | software/helloAES_bsp/HAL/src/alt_close.c:84-92 | After close() of a descriptor above 2 an open succeeds, with a descriptor no higher |
| DescriptorLaws.LockLaw | software/helloAES_bsp/HAL/src/alt_ioctl.c:129-133 | TIOCEXCL on a device: granted, it answers 0 and sets exactly the lock bit; refused, it answers -EACCES and changes nothing |
| DescriptorLaws.UnlockLaw | software/helloAES_bsp/HAL/src/alt_ioctl.c:134-138 | TIOCNXCL on a device answers 0 and clears exactly the lock bit; if this descriptor held the lock, the device is no longer locked |
| DescriptorLaws.UnlockThenOpen | software/helloAES_bsp/HAL/src/alt_fd_unlock.c:52-56 | After the holder has unlocked a device, the next open of it succeeds when a slot is free |
| DescriptorLaws.OtherLaw | software/helloAES_bsp/HAL/src/alt_ioctl.c:147-165 | Any other request, and any request on a file, gets the answer of the driver, as result and as errno when negative, and changes nothing |
| DescriptorLaws.GetFlagsLaw | software/helloAES_bsp/HAL/src/alt_fcntl.c:84-85 | F_GETFL reports all flags but the two bits kept for the pool |
| DescriptorLaws.SetFlagsLaw | software/helloAES_bsp/HAL/src/alt_fcntl.c:86-92 | F_SETFL changes the slot, in the bits of O_APPEND and O_NONBLOCK only, to what is asked |
| DescriptorLaws.SetThenGetFlags | software/helloAES_bsp/HAL/src/alt_fcntl.c:84-92 | F_GETFL after F_SETFL |
| DescriptorLaws.RedirectLaw | software/helloAES_bsp/HAL/src/alt_io_redirect.c:58-72 | Redirection gives the standard slot what was opened, frees again the slot that open() took, and changes no other; a failed one leaves the standard slot alone; either way the first free descriptor is the same as before |
| DescriptorLaws.FirstDescriptor | software/helloAES_bsp/HAL/src/alt_io_redirect.c:86-94 | After the three redirections at start-up, whether they succeed or not, the first successful open gets descriptor 3 |
| DescriptorPool.FileTable.GetFd | software/helloAES_bsp/HAL/src/alt_get_fd.c:54-101 | The search takes the first free slot and raises `alt_max_fd` to it, or reports `EMFILE` and changes nothing |
| DescriptorPool.FileTable.Open | software/helloAES_bsp/HAL/src/alt_open.c:105-171 | The call on the array is the step of the pool, with its result and errno |
| DescriptorPool.FileTable.FileLocked | software/helloAES_bsp/HAL/src/alt_open.c:64-92 | The scan marks the descriptor as a device and finds a holder elsewhere exactly when there is one |
| DescriptorPool.FileTable.FdLock | software/helloAES_bsp/HAL/src/alt_fd_lock.c:54-75 | The scan grants or refuses the lock as specified and changes only the flag |
| DescriptorPool.FileTable.FdUnlock | software/helloAES_bsp/HAL/src/alt_fd_unlock.c:52-56 | Clears the one bit and nothing else |
| DescriptorPool.FileTable.Close | software/helloAES_bsp/HAL/src/alt_close.c:64-101 | The call on the array is the step of the pool, with its result and errno |
| DescriptorPool.FileTable.Ioctl | software/helloAES_bsp/HAL/src/alt_ioctl.c:106-168 | The call on the array is the step of the pool, with its result and errno; lock requests reach the pool only for devices |
| DescriptorPool.FileTable.Fcntl | software/helloAES_bsp/HAL/src/alt_fcntl.c:66-101 | The call on the array is the step of the pool, with its result and errno |
| DescriptorPool.FileTable.Redirect | software/helloAES_bsp/HAL/src/alt_io_redirect.c:58-72 | Opening, copying to the standard slot and releasing is the step of the pool, with its errno |
| TimeOfDay.SetThenGet | software/helloAES_bsp/HAL/src/alt_gettod.c:88-112 | For a rate that divides a million: a get gives the time set plus the ticks passed in microseconds plus what the set lost, or zero where that is negative; always normalised |
| TimeOfDay.ExactWhenFitting | software/helloAES_bsp/HAL/src/alt_settod.c:82-84 | When the microseconds at the set fit 32 bits, a later get gives exactly the time set plus the length of the ticks since, with microseconds in range, and the clamp to zero is never taken |
| TimeOfDay.ExactIff | software/helloAES_bsp/HAL/src/alt_settod.c:83-84 | The result is exact if and only if the 32-bit product at the set lost nothing (or its loss was clamped away at time zero) |
| TimeOfDay.LateAfterAnHour | software/helloAES_bsp/HAL/src/alt_settod.c:83-84 | The failing case: at 1000 ticks a second, set at tick 4294968, the clock reads 967296 microseconds late |
| TimeOfDay.CountsFromReset | software/helloAES_bsp/HAL/src/alt_gettod.c:91-93 | Before the first set the clock counts from reset: n / r seconds, and n tick lengths in all |
| TimeOfDay.OneSecond | software/helloAES_bsp/HAL/src/alt_gettod.c:91-93 | r ticks after reset the clock reads exactly one second if and only if r divides a million (or exceeds it) |
| TimeOfDay.WallClock.SetTimeOfDay | software/helloAES_bsp/HAL/src/alt_settod.c:72-96 | Stores the offset and the time zone; without a clock fails with `ENOSYS` and changes neither |
| TimeOfDay.WallClock.GetTimeOfDay | software/helloAES_bsp/HAL/src/alt_gettod.c:71-125 | The two loops bring the time into range, for every 32-bit offset and tick count; without a clock neither time nor time zone is written |
| TimeOfDay.WallClock.Borrow | software/helloAES_bsp/HAL/src/alt_gettod.c:95-107 | Borrowing keeps the time, or clamps it to zero exactly when it is negative |
| TimeOfDay.WallClock.Carry | software/helloAES_bsp/HAL/src/alt_gettod.c:109-112 | Carrying keeps the time |
| Printing.PrintedDigits | software/helloAES_bsp/HAL/src/alt_log_printf.c:281-296 | Counted from the right, character i of a field is the digit of the magnitude at base to the power i, in the case asked for |
| Printing.PrintedFilling | software/helloAES_bsp/HAL/src/alt_log_printf.c:257-280 | Before the digits stand a sign and then only zeros when zeros were asked for, only blanks and then the sign when not; the sign is there exactly for a signed conversion of a negative number |
| Printing.HexadecimalText | software/helloAES_bsp/HAL/src/alt_printf.c:96-111 | The hexadecimal text of a word, from the right: character j is entry `(v >> 4j) & 15` of 0123456789abcdef; at most eight characters |
| Printing.PrintedReadsBack | software/helloAES_bsp/HAL/src/alt_log_printf.c:238-296 | For every 32-bit argument, base, width and filling the printed field reads back to the argument, sign included |
| Printing.PrintedLength | software/helloAES_bsp/HAL/src/alt_log_printf.c:257-280 | The field is as long as the width, or as the digits and sign need, whichever is more |
| Printing.SameHexadecimal | software/helloAES_bsp/HAL/src/alt_printf.c:82-111 | The %x by division and the %x by masks and shifts print the same text for every 32-bit word if and only if the width does not exceed the number of digits |
| HexBits.NumberOfBits | software/helloAES_bsp/HAL/src/alt_printf.c:101-105 | The number printed for a word is the sum of its eight groups of four bits, each times its power of sixteen |
| HexBits.LowIsMask | software/helloAES_bsp/HAL/src/alt_printf.c:104 | The number that the last four bits stand for is the value of those four bits |
| HexBits.NibbleIsDigit | software/helloAES_bsp/HAL/src/alt_printf.c:104 | For every word and every shift of the loop: mask and shift pick out the hexadecimal digit of that place |
| HexBits.EmptyIsZero | software/helloAES_bsp/HAL/src/alt_printf.c:98-99 | The mask leaves nothing exactly when that digit is zero |
| HexBits.ZeroNumber | software/helloAES_bsp/HAL/src/alt_printf.c:90-94 | A word is zero exactly when its number is |
| Printing.Console.PutHex | software/helloAES_bsp/HAL/src/alt_printf.c:82-111 | The two loops over masks and shifts of a 32-bit word print its hexadecimal numeral |
| Printing.Console.PutInteger | software/helloAES_bsp/HAL/src/alt_log_printf.c:206-297 | Sign, digit count, filling and digits give the specified field, for every 32-bit value |
| Printing.Console.CountDigits | software/helloAES_bsp/HAL/src/alt_log_printf.c:247-255 | The largest place value is found without overflowing 32 bits |
| Printing.Console.PutDigits | software/helloAES_bsp/HAL/src/alt_log_printf.c:281-296 | The division loop prints the digits from the left |
| Printing.Console.Repeatedly | software/helloAES_bsp/HAL/src/alt_log_printf.c:106-110 | Prints the character r times, and nothing for r <= 0 |
| Numerals.NumeralAt | software/helloAES_bsp/HAL/src/alt_log_printf.c:281-296 | Counted from the right, character i of a numeral is the digit v / b^i mod b |
| Numerals.CountBounds | software/helloAES_bsp/HAL/src/alt_log_printf.c:247-255 | A number has exactly as many digits as it needs: b^(n-1) <= v < b^n |
| Numerals.NumeralReadsBack | software/helloAES_bsp/HAL/src/alt_log_printf.c:281-296 | A numeral in any base up to 16 reads back to its number; so two numbers never print alike |
| Numerals.FixedFromLeft | software/helloAES_bsp/HAL/src/alt_log_printf.c:286-295 | Dividing by the place value gives the leading digit, and the remainder has the other digits |

## Left out

- UartDriver.JtagUart.Write: a blocking call is followed for a given number of turns of its waiting loop, because it may wait for ever; `UartBlocking.BlockingWrite` has no such bound.
- UartDriver.JtagUart.Read: a blocking call is followed for a given number of turns of its waiting loop; `UartBlocking.BlockingRead` has no such bound.
- AlarmList.AlarmService.Start: takes an alarm that is not registered; starting a registered one corrupts the list.
- AlarmList.AlarmService.Tick: a callback that stops another alarm, or restarts its own, is not modelled; if it stops the next one the walk goes astray.
- The character loops of both printers, which read the format string and the argument list, with %c and %s: they would add only easy members.
- The `IGNORE_FIFO_FULL_ERROR` variant of the write call: compiled out here.
- The real-time operating system branches of the UART driver, its semaphores and event flags, and the small driver: compiled out here.
- The tick rate is fixed when the alarm service is made; alt_sysclk_init sets it once.
- The `priv` field of a descriptor, which the pool only copies.
- Tick counters that wrap between settimeofday() and gettimeofday(): the time then falls back, as the code does nothing about it.
- The Avalon wrapper and the generated system: the host is an arbitrary environment of the engine.
- Device registration and the search by name: their outcome is a parameter of open().
- Start-up code, cache routines, heap, profiling, interrupt dispatch and the stubs of the hardware abstraction layer: easy or not expressible.
- AES_EncryptionCore.v, SubWord.v, rot_word.v, register.v and addr_decoder.v: unused by the top module.
- The demonstration program: one fixed run through a register map that is not part of this model.
