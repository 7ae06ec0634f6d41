# FreeMicroNix interrupt path, libc text routines, clock, timer and terminal

This project models parts of the FreeMicroNix kernel and libc in Dafny and proves what
they do over all inputs and, for the interrupt path, over all runs. `dafny verify
dfyconfig.toml` checks it.

## What is modelled

**The interrupt path.** `Pic8259` is one 8259A: IRR, ISR, IMR, vector base, cascade and mode
words, the initialisation phase, the read-select bit, and what each byte written to its two
ports does. `InterruptMachine` puts two of them, the CPU's interrupt flag and acknowledge
cycle, the stack of interrupt frames and the dispatcher into one state machine. A step is a
device line rising or dropping, a mask change, IF changing in main code or in a handler, an
install or uninstall, INT being sampled, either acknowledge pulse, the dispatcher's check, the
handler's return, the slave EOI, the master EOI, or `iret`. Lines may drop between the sampling
of INT and the acknowledge, and between the two pulses, so both spurious interrupts arise by
themselves. On top of it:

- `NestedService`: handlers may set IF. An invariant says that the frames that still owe an EOI
  outrank each other strictly (0, 1, 8..15, 3..7), that the two ISRs are exactly their lines,
  and that the next spurious check will be right. One step keeps it **if and only if** it is
  not an acknowledge that finds no request while a genuine IRQ7 is in service; a whole run
  keeps it throughout if and only if it has no such step. From it: every non-specific EOI
  retires the finishing frame's own line, and any complete service, with whatever nests
  inside, gives back both ISRs.
- `SpuriousClash`: that one exception is reachable from boot, and each time it happens the
  spurious frame runs as a genuine one and its EOI retires a line an interrupted frame holds.
- `UnnestedService`: handlers leave IF clear, lines do as they like. The log is whole services
  one after another and nothing is in service between them.
- `DeviceLines`: over every run a line is requested exactly when it has risen and has neither
  dropped nor been delivered since, so every genuine delivery has its own rise of its own line.
- `Draining`: with lines and masks at rest, what is dispatched is what was pending, strictly in
  priority order, each line once; the work left falls at every step, the machine never
  sticks, and from every state it can run on to main code with nothing pending.
- `InterruptKernel`: the C code as methods over a class (port I/O, `Initialize_8259_PIC`, the
  ISR read, the EOIs, `IRQ_Handler`, the IDT and its installer), tied to the state machine.
  While `IRQ_Handler` waits for the installed handler, and before each EOI, anything may happen
  that the state machine allows: device lines, the handler's own steps, complete interrupts.
- `StubFrames`: the assembly stubs as pushes and pops, the context record, and complete
  interrupts nested as a tree of any depth.
- `Dispatch`: from a line to the handler last installed for it. Over every clash-free run with
  nested handlers the log has one delivery per frame, and one call per genuine frame past its
  check that found a handler, of the handler last installed at that check.

Hardware behaviour follows the Intel 8259A datasheet ("Interrupt Sequence", "Initialization
Command Words", "Fully Nested Mode", "End of Interrupt (EOI)", "Reading the 8259A Status") and
the interrupt-gate description of the Intel SDM, volume 3A, chapter 6.

**The libc.** `CString` has the span, search, compare and move routines over one flat byte
memory with pointers as indices. `Tokenizers` has `strtok` with its static pointer and
`strtok_r` with the caller's, and proves them bisimilar. `TokenRuns` proves what the tokens
are. `Digits` is positional notation; `NumberText`, `SignedText` and `Atoi` are the printers,
the parser and their round trips. Bytes are 0..255, `unsigned int` is 32 bits, `unsigned long
long` 64, `char` is signed, and unsigned arithmetic wraps.

**The clock, the timer, the terminal.** `Rtc` is the loop of `RTC_Update` against a clock that
may tick before any register access; what the environment does is a finite script, and a run
that leaves the loop has a finite one. `Timer` is the 8254 handler and wait loop. `Terminal`
and `Kprintf` are the cursor machine, for every character and every cursor, and the format
interpreter. Rows, columns and cell indices are 32-bit words, and video memory has a cell for
each index.

## Where the code departs from its intent

Each departure is kept and its exact condition proved.

- A spurious IRQ7 while a genuine IRQ7 is in service is taken for a genuine one
  (`NestedService.StepKeepsInv`, `SpuriousClash.ClashRetiresAnothersLine`).
- `strstr` of an empty needle in an empty haystack is null although the needle occurs; in every
  other case the result is the least occurrence (`CString.Strstr`). ISO C11 7.24.5.7 asks for
  the haystack there.
- `itoa` of INT_MIN in decimal is not the canonical text; of every other value it is
  (`SignedText.DecimalIsCanonical`). C leaves the negation of INT_MIN undefined; the model
  uses two's complement.
- `kprintf`'s 20-byte buffer holds a number's text exactly for `d` above INT_MIN, `u` at or
  above zero, and `x` (`SignedText.FitsKprintfBuffer`).
- The clock loop compares a day it never records: it is left after the first two passes in a
  row that agree on the other five registers and of which the second reads the day that
  variable happens to hold, and never without such passes (`Rtc.Cmos.Update`); while the
  register shows another day it goes on (`Rtc.WrongDayNeverLeaves`).
- Two passes that agree can still be torn. On a BCD wall clock they never are **if and only if**
  they have to take less than 3541 seconds (`Rtc.SnapshotExactly`), and the loop's own exits are
  snapshots exactly then or when it is never left (`Rtc.ExitsOnSnapshotsExactly`).
- The column leaves 0..80 exactly on a tab in one of the last eight columns
  (`Terminal.ColumnLeavesTheGrid`).
- A character is sure to be seen **if and only if** it is no line break and the 32-bit index of
  the place it is drawn at, which the cursor alone decides, is on the screen
  (`Terminal.SeenExactly`); after n newlines from home the next one is if and only if n is below
  25, until the index wraps around (`Terminal.SeenAfterNewlines`). A drawn plain character
  scrolls the screen exactly from row 25 on, and the row does not come back
  (`Terminal.ScrollsExactly`). So printing a plain text is its layout exactly when it fits
  (`Terminal.LayoutExactly`).
- The divisor bytes of `PIT_8254_Phase` rebuild the divisor exactly from 19 Hz up
  (`Timer.Pit.Phase`).
- IDT entry 121 leads to stub 120 (`InterruptKernel.Kernel.InstallInterrupts`).

## Model

| member | source | states |
|---|---|---|
| Pic8259.MaskSurvivesTheBus | kernel/x86/isa/8259.c:53-54 | a mask read as a byte and written back is the same set of masked lines |
| Pic8259.BitsAreLines | kernel/x86/isa/8259.c:143-157 | bit i of a register byte is line i, the lowest bit line 0 |
| Pic8259.StatusWordBits | kernel/x86/isa/8259.c:151-157 | bits 7 and 15 of the joined status word are line 7 of the master and line 7 of the slave |
| Pic8259.Highest | kernel/x86/isa/8259.c:133-141 | the line a non-specific EOI or an acknowledge picks is in the set and at or above every other member, 8 only for the empty set |
| Pic8259.CommandEffects | kernel/x86/isa/8259.c:133-157 | the three command bytes the kernel sends decode to a non-specific EOI and to the two read selections |
| NestedService.StepKeepsInv | kernel/x86/isa/interrupt/interrupt.c:150-180 | from a state where the open frames are in priority order and the ISRs are exactly their lines, one step keeps that if and only if it is not an acknowledge of nothing while a genuine IRQ7 is in service |
| NestedService.NestedServiceInvariant | kernel/x86/isa/interrupt/interrupt.c:150-180 | over a whole run with handlers free to set IF, the invariant holds at every state if and only if no step is such an acknowledge |
| NestedService.IsrsAreTheOpenFrames | kernel/x86/isa/interrupt/interrupt.c:170-179 | a line is in service exactly when some frame still owes its EOI, plus the cascade line between the two acknowledge pulses |
| NestedService.ReachableFramesAreOrdered | kernel/x86/isa/interrupt/interrupt.c:150-180 | after every clash-free run from boot an inner open frame strictly outranks an outer one in the order 0, 1, 8..15, 3..7 |
| NestedService.ReachableSlaveEoiIsExact | kernel/x86/isa/interrupt/interrupt.c:175-178 | after every clash-free run the slave EOI about to be sent finds only its own line in service and leaves none |
| NestedService.ReachableMasterEoiIsExact | kernel/x86/isa/interrupt/interrupt.c:179-179 | after every clash-free run the master EOI about to be sent retires the finishing frame's line and no other, also when higher lines came in after the slave EOI |
| NestedService.CheckRecognisesSpurious | kernel/x86/isa/interrupt/interrupt.c:159-168 | the ISR test lets a frame through to its handler exactly when a controller put its line in service |
| NestedService.SlaveEoiRetiresOwnLine | kernel/x86/isa/8259.c:138-141 | the non-specific EOI to the slave picks the finishing frame's line, the only one in service there, and no interrupted frame sits behind the cascade |
| NestedService.MasterEoiRetiresOwnLine | kernel/x86/isa/8259.c:133-136 | the non-specific EOI to the master picks the finishing frame's line and leaves exactly what the interrupted frames hold |
| NestedService.ServiceRestoresInServiceState | kernel/x86/isa/interrupt/interrupt.c:150-180 | from the sampling of INT to the return to the same depth both ISRs and the frames below come back, for genuine and spurious interrupts and any nesting in between |
| SpuriousClash.ClashRetiresAnothersLine | kernel/x86/isa/interrupt/interrupt.c:159-162 | whenever nothing is acknowledged while IRQ7 is in service, the spurious frame reaches a handler and its EOI retires a line an interrupted frame holds |
| SpuriousClash.ClashIsReachable | kernel/x86/isa/interrupt/interrupt.c:159-162 | such an acknowledge can follow boot: IRQ7's handler sets IF, IRQ3 rises, is sampled and drops |
| UnnestedService.UnnestedServiceInvariant | kernel/x86/isa/interrupt/interrupt.c:150-180 | with handlers that leave IF clear and lines at will, every reachable state has at most one frame and a log of whole services and the current one |
| UnnestedService.IdleMeansNothingInService | kernel/x86/isa/interrupt/interrupt.c:159-179 | with no frame active both ISRs are empty, but for the cascade line between two acknowledge pulses |
| UnnestedService.ServicesInTheLog | kernel/x86/isa/interrupt/interrupt.c:159-179 | a finished spurious IRQ7 did nothing, a spurious IRQ15 sent the master EOI only, a genuine request called its handler if any and retired its own line on every controller |
| Draining.QuietRunDrainsInOrder | kernel/x86/isa/interrupt/interrupt.c:170-179 | along any run with lines and masks at rest the dispatched lines are pending ones in strict priority order, they and the rest make up what was pending, and nothing left outranks them |
| Draining.DrainedWhenIdle | kernel/x86/isa/interrupt/interrupt.c:170-179 | when such a run is back in main code with IF set and INT low, every unmasked pending line was dispatched, once, in as many dispatches |
| Draining.ProgressIsBounded | kernel/x86/isa/interrupt/interrupt.c:170-179 | such a run makes no more progress steps than the work it began with |
| Draining.NeverStuck | kernel/x86/isa/interrupt/interrupt.c:170-179 | with a frame, an acknowledge, or IF set and something pending, a progress step is enabled |
| Draining.MasksHoldBack | kernel/x86/isa/8259.c:75-76 | a request is pending exactly when its line is unmasked, and for a slave line master line 2 too |
| Draining.Drains | kernel/x86/isa/interrupt/interrupt.c:170-179 | from every state with a frame or IF set, where an acknowledge under way still has its request, there is a run with lines and masks at rest, of no more progress steps than the work there was, to main code with IF set and nothing pending; it has dispatched what was pending, each line once and in priority order |
| InterruptKernel.ServiceRuns | kernel/x86/isa/interrupt/interrupt.c:150-180 | what IRQ_Handler is proved against is what the steps of the state machine do from the check to the last EOI, with interludes of any steps during the handler and before each EOI |
| InterruptKernel.InitialisationWords | kernel/x86/isa/8259.c:53-76 | the five words sent to a chip in any phase leave it ready with base, cascade and mode set and the mask it had |
| InterruptKernel.Kernel.InitializePic | kernel/x86/isa/8259.c:48-79 | from any phases, masks and bases: both chips ready, based at the byte sent less its low three bits, cascaded on line 2, masks as read at the start, in-service lines kept |
| InterruptKernel.Kernel.PicEoiMaster | kernel/x86/isa/8259.c:133-136 | retires the highest line in service on the master and leaves the slave alone |
| InterruptKernel.Kernel.PicEoiSlave | kernel/x86/isa/8259.c:138-141 | retires the highest line in service on the slave and leaves the master alone |
| InterruptKernel.Kernel.PicReadIsr | kernel/x86/isa/8259.c:151-157 | whatever was selected before, the word is both in-service registers |
| InterruptKernel.Kernel.PicReadIrr | kernel/x86/isa/8259.c:143-149 | whatever was selected before, the word is both request registers |
| InterruptKernel.Kernel.IrqHandler | kernel/x86/isa/interrupt/interrupt.c:150-180 | a call for the innermost frame goes where the state machine's service of it goes, whatever comes in during the handler and between the EOIs |
| InterruptKernel.Kernel.InterruptHandler | kernel/x86/isa/interrupt/interrupt.c:182-188 | vectors below 32 end in a panic, 32..47 go through the state machine's service steps with those interludes, others change nothing |
| Dispatch.InstallLasts | kernel/x86/isa/interrupt/interrupt.c:86-90 | after a call that installs a handler, the table has it for its vector until the next install or uninstall there, whatever the run does in between, and other vectors keep theirs |
| Dispatch.UninstallLasts | kernel/x86/isa/interrupt/interrupt.c:92-95 | after a call that uninstalls, the table has null for that vector until the next install there, and other vectors keep theirs |
| InterruptKernel.Kernel.CreateIdtEntry | kernel/x86/isa/interrupt/idt.c:31-37 | the low and high half of the handler's address and the other fields are where the CPU looks for them, always0 is zero, no other entry changes |
| InterruptKernel.Kernel.InstallIdt | kernel/x86/isa/interrupt/idt.c:39-47 | the CPU is given the address of the table and a limit that admits exactly the vectors below 256, and every entry is empty |
| InterruptKernel.Kernel.InstallInterrupts | kernel/x86/isa/interrupt/interrupt.c:192-255 | every vector 0..47 leads to its own stub through a kernel interrupt gate, 120 and 121 both to stub 120, the controllers are based at 32 and 40, and a machine with nothing in service is then in the boot state, whatever handlers are installed |
| InterruptKernel.Kernel.StartUp | kernel/kernel.c:55-60 | kmain's order, timer handler first, reaches the boot state, which is the one without that handler after its install step |
| StubFrames.StubsMatchTheCpu | kernel/x86/isa/interrupt/interrupt_handler.asm:72-151 | every stub pushes its vector, and a zero exactly where the CPU pushed no error code, which it does for 8, 10 to 14, 17 and 30 |
| StubFrames.Cpu.EnterDispatcher | kernel/x86/isa/interrupt/interrupt_handler.asm:155-170 | the dispatcher is entered with IF clear, the other flags kept and the data segments 0x10; the words of the record, by their offsets, are the interrupted registers, the vector and the error code, in one shape for all vectors; the stack above is untouched |
| StubFrames.Cpu.RestoreContext | kernel/x86/isa/interrupt/interrupt_handler.asm:171-178 | every register is loaded from the record and the stack pointer ends above the frame |
| StubFrames.Cpu.ServeInterrupt | kernel/x86/isa/interrupt/interrupt_handler.asm:155-178 | a complete interrupt from ring 0, with any tree of interrupts nested in a handler that may overwrite its argument, restores all registers, eip, cs, eflags, esp and the stack above |
| Dispatch.TableReplaysInstalls | kernel/x86/isa/interrupt/interrupt.c:86-95 | after any run the table holds for every vector the handler last installed, null if uninstalled since, and what it held at boot if neither |
| Dispatch.DeliveryNamesItsLine | kernel/x86/isa/interrupt/interrupt.c:195-195 | a genuine delivery under vector 32 + k took a request of line k that was not in service into service, with IF clear |
| DeviceLines.RaiseRequests | kernel/x86/isa/interrupt/interrupt.c:229-244 | a line that rises becomes requested and no other does |
| DeviceLines.LowerWithdraws | kernel/x86/isa/interrupt/interrupt.c:229-244 | a line that drops is requested no more and every other is as it was |
| DeviceLines.RequestsAreRaises | kernel/x86/isa/interrupt/interrupt.c:229-244 | over every run from a state with no request, a line is requested if and only if it has risen and has neither dropped nor been delivered since |
| DeviceLines.EveryDeliveryWasRaised | kernel/x86/isa/interrupt/interrupt.c:229-244 | every genuine delivery under vector 32 + k has its own rise of line k, after every earlier delivery under that vector and with no drop since |
| Dispatch.OneCallPerGenuineFrame | kernel/x86/isa/interrupt/interrupt.c:150-180 | over every clash-free run, handlers free to set IF, the deliveries in the log are one per frame on the stack or served, and the calls one per genuine frame past its check whose handler is not null |
| Dispatch.EveryHandlerWasLookedUp | kernel/x86/isa/interrupt/interrupt.c:157-157 | over every run each frame past its check carries the handler that was last installed for its vector when the check was made |
| Dispatch.OneCallPerInterrupt | kernel/x86/isa/interrupt/interrupt.c:150-188 | back in main code, every delivery was served, every genuine one with one call of the handler last installed at its check, or none if that was null, no spurious one with any |
| Dispatch.EndToEndDispatch | kernel/x86/isa/interrupt/interrupt.c:182-244 | a genuine frame of line k goes back to a rise of line k of its own, has vector 32 + k, an IDT entry that rebuilds the address of that request's stub, a stub that pushes the same number, and a check that calls the handler last installed, if any, once: before and after it the calls in the log are those the frames account for |
| Dispatch.TakeInterrupt | kernel/x86/isa/interrupt/interrupt.c:150-188 | as the code runs: the vector's entry leads to its stub, the stub's record shows the interrupted registers and the vector as int_no, and the dispatcher reading that number calls the handler in the table, if any, and makes the state machine's service |
| CString.Strlen | libc/string/strlen.c:22-26 | the distance to the first NUL |
| CString.CharsAre | libc/string/strchr.c:22-27 | a byte is one of a string's characters exactly when it stands at some index of the string |
| CString.Strchr | libc/string/strchr.c:22-27 | the first occurrence up to and including the terminator, null exactly when no byte of the string is the character |
| CString.Lfind | libc/string/lfind.c:22-28 | the first occurrence at or after the pointer |
| CString.Span | libc/string/strspn.c:22-27 | the leading bytes in (or out of) the set, stopped by the first that is not or by the NUL |
| CString.SpanIs | libc/string/strcspn.c:22-30 | there is one length with those properties |
| CString.Strspn | libc/string/strspn.c:22-27 | the leading bytes that occur in the second string, ended by one that does not or by the NUL |
| CString.Strcspn | libc/string/strcspn.c:22-30 | the leading bytes that occur nowhere in the second string, ended by one that does or by the NUL |
| CString.Strpbrk | libc/string/strpbrk.c:22-46 | the first byte that occurs in the second string, null when none does; agrees with the complementary span on every pair of strings |
| CString.Memcmp | libc/string/memcmp.c:22-30 | zero exactly for equal blocks, else the difference of the first bytes that differ, all before them being equal, and nothing behind them is read |
| CString.TerminatorStopsCompare | libc/string/strstr.c:22-29 | a compare of the needle's length that does not match mismatches at or before the haystack's terminator |
| CString.Strstr | libc/string/strstr.c:22-29 | the first place where the needle's bytes stand within the haystack, null exactly when they stand nowhere, for all but two empty strings; no compare reads past the haystack's terminator |
| CString.Memmove | libc/string/memmove.c:22-33 | for every overlap the destination gets the source's old bytes and nothing else changes |
| Tokenizers.Tokenizer.Next | libc/string/strtok.c:22-35 | bytes, static pointer and token after a call are those of the step function |
| Tokenizers.NextR | libc/string/strtok_r.c:22-41 | bytes, save pointer and token after a call are those of the other step function |
| Tokenizers.CallsAgree | libc/string/strtok_r.c:22-41 | on related pointers one call of each returns the same token, leaves the same bytes and related pointers |
| Tokenizers.TokenizersAreBisimilar | libc/string/strtok.c:22-35 | over any list of calls, with delimiters changing at every call, both return the same tokens and nulls and leave the same bytes |
| TokenRuns.StrtokFromIsOneToken | libc/string/strtok.c:29-34 | a call returns the next delimiter-free run, null when only delimiters are left, and overwrites only the delimiter that ends it |
| TokenRuns.TokensAreTheMaximalRuns | libc/string/strtok.c:25-34 | the tokens of a string are exactly its maximal delimiter-free runs, in order |
| TokenRuns.TokenizingClearsOnlyDelimiters | libc/string/strtok.c:33-33 | bytes change only where a delimiter ended a token, and there are at most (length + 1) / 2 tokens |
| TokenRuns.TokenizingAString | libc/string/strtok.c:22-35 | a call on the string and n null-argument calls return, in order, exactly the maximal runs of bytes that occur nowhere in the delimiter string, then null at every further call; once all are out, only the bytes that ended a token have changed, to NUL |
| Digits.ValueDeterminesText | libc/stdlib/u64toa.c:33-47 | digit texts of one length and one value are the same text |
| Digits.DigitCharacters | libc/stdlib/u64toa.c:24-24 | the digits are '0' to '9' and 'A' to 'F', with the values 0 to 15, and those below the base are the digits of a base |
| Digits.PrintsOneText | libc/stdlib/uitoa.c:32-46 | one text meets the printers' promise, so both printers write the same text for the same value |
| Digits.PaddedOnTheLeft | libc/stdlib/u64toa.c:39-42 | the padding is zeros on the left only, and what follows starts with a non-zero digit unless the value is zero |
| Digits.DigitCountBounds | libc/stdlib/u64toa.c:33-37 | the digit count places the value between two powers of the base |
| NumberText.XorCancels | libc/stdlib/strreverse.c:31-33 | exclusive or with the same byte twice gives the byte back |
| NumberText.XorSwap | libc/stdlib/strreverse.c:31-33 | the three exclusive ors exchange two different cells and touch no other |
| NumberText.Strreverse | libc/stdlib/strreverse.c:22-37 | the string is turned round in place and every other byte is unchanged; null gives null |
| NumberText.U64toa | libc/stdlib/u64toa.c:23-48 | for bases 2..16 a NUL-terminated text of length max(min, digit count) whose positional value is the argument, else the empty text |
| NumberText.Uitoa | libc/stdlib/uitoa.c:22-47 | the same over a 32-bit argument |
| SignedText.Itoa | libc/stdlib/itoa.c:24-62 | a sign exactly for a negative decimal, then the shortest text of the 64-bit magnitude, NUL at the returned pointer |
| SignedText.DecimalText | libc/stdlib/itoa.c:32-37 | for d and 10 the text is the shortest decimal of the absolute value behind a minus sign exactly for a negative value, for INT_MIN that of 2^64 - 2^31 |
| SignedText.HexadecimalText | libc/stdlib/itoa.c:38-41 | for x and 16 the text is the shortest hexadecimal of the value sign-extended to 64 bits, and no other |
| SignedText.OtherText | libc/stdlib/itoa.c:27-30 | for u and every other base the text is the shortest decimal of the value sign-extended to 64 bits |
| SignedText.DecimalIsCanonical | libc/stdlib/itoa.c:32-37 | the decimal text is canonical and parses to the argument if and only if the argument is not INT_MIN |
| SignedText.CanonicalIsUnique | libc/stdlib/itoa.c:24-62 | a value has one canonical signed decimal |
| SignedText.ItoaLengths | libc/stdlib/itoa.c:24-62 | with its NUL decimal takes at most 12 bytes above INT_MIN and hexadecimal at most 17 |
| SignedText.FitsKprintfBuffer | kernel/x86/video/vga.c:183-202 | the text fits the 20-byte buffer exactly for d above INT_MIN, u from zero up, and x |
| Atoi.Atoi | libc/stdlib/atoi.c:22-32 | the left-to-right decimal value modulo 2^32 as a signed word, for strings of any length and any bytes |
| Atoi.OneMoreCharacter | libc/stdlib/atoi.c:28-29 | any character behind adds its code as a signed char less 48 to ten times the value |
| Atoi.WrappedStep | libc/stdlib/atoi.c:28-29 | wrapping every operation of a turn of the loop wraps the sum |
| Atoi.PrintedDecimalParses | libc/stdlib/atoi.c:22-32 | any printed decimal, however padded, parses to the value modulo 2^32 |
| Atoi.PrintAndParse | libc/stdlib/uitoa.c:22-47 | atoi(uitoa(v, 10, min)) is v as a 32-bit word |
| Atoi.PrintAndParse64 | libc/stdlib/u64toa.c:23-48 | atoi(u64toa(v, 10, min)) is v modulo 2^32 |
| Rtc.Cmos.Update | kernel/x86/rtc.c:59-100 | the loop is left after the first two passes in a row that agree on second, minute, hour, month and year and of which the second reads the day the unset variable holds, with what the second read; without such passes it is not left; if those two read the seconds less than 60 s apart, all five kept values were on the clock at one time |
| Rtc.Cmos.ReadPass | kernel/x86/rtc.c:85-92 | a call makes accesses until one finds the update flag clear, every one before having found it set, and reads the six registers at the next six accesses, in this order; it makes no pass exactly when the accesses end before |
| Rtc.PassesAre | kernel/x86/rtc.c:59-92 | the passes of a run are one behind each access that is the first to find the flag clear since the pass before, with the times of its six reads, and there are no others |
| Rtc.LeavesByRegister | kernel/x86/rtc.c:98-100 | two passes let the loop go exactly when their seconds, minutes, hours, months and years agree and the day of the second is what the unset variable holds |
| Rtc.PassesFollow | kernel/x86/rtc.c:83-92 | each pass holds every register's value at the time of its read, in reading order, and begins after the one before it ended |
| Rtc.StillClockLeaves | kernel/x86/rtc.c:98-100 | two passes within one second let the loop go if and only if the day register shows what the variable holds |
| Rtc.WrongDayNeverLeaves | kernel/x86/rtc.c:98-100 | while the day register does not show what the variable holds, no two passes let the loop go |
| Rtc.ClockSnapshot | kernel/x86/rtc.c:76-100 | if those passes read the seconds less than 60 s apart, one instant showed all five kept values |
| Rtc.SnapshotWithinWindow | kernel/x86/rtc.c:76-100 | if they took less than the time in which a compared register can come back to a value, the kept values were shown when the second pass read the seconds |
| Rtc.WallClockTells | kernel/x86/rtc.c:87-92 | a BCD wall clock over any calendar meets both conditions, the second for windows up to 3541 s |
| Rtc.SnapshotExactly | kernel/x86/rtc.c:76-100 | on a BCD wall clock over any calendar, whatever two agreeing passes keep was on the clock at some time from the first read to the last if and only if they have to take less than 3541 s |
| Rtc.ExitsOnSnapshotsExactly | kernel/x86/rtc.c:76-100 | every exit of the loop whose two passes lie within a window keeps values that were on the clock together if and only if the window is at most 3541 s or no day shows what the unset variable holds |
| Rtc.EveryPairIsARun | kernel/x86/rtc.c:76-100 | any two passes in order are the passes of some run of the loop, so the torn ones are |
| Timer.Pit.Handler | kernel/x86/isa/8254.c:40-47 | one more tick, and seconds stay ticks / 1000 |
| Timer.Pit.Wait | kernel/x86/isa/8254.c:49-56 | the wait ends exactly when at least n handlers ran, and ends if enough come |
| Timer.Pit.Phase | kernel/x86/isa/8254.c:31-38 | from 19 Hz up, and only then, the two bytes sent are the whole divisor d, which is 1193182 / hz: d * hz <= 1193182 < (d + 1) * hz |
| Terminal.PrintIsLayout | kernel/x86/video/vga.c:78-124 | printing from the start of a row puts the text's lines on the grid from that row down, changes no other cell and leaves the cursor after the last line |
| Terminal.LayoutExactly | kernel/x86/video/vga.c:78-124 | printing a plain text from the start of a row gives its layout, whatever memory held, if and only if no character is drawn at row 25 or below, as long as no index wraps around |
| Terminal.FitsByLines | kernel/x86/video/vga.c:107-113 | a plain text is drawn above row 25 throughout exactly when every line with a character is above it and the rows do not wrap around |
| Terminal.PrintAppend | kernel/x86/video/vga.c:116-124 | printing two texts in turn is printing them joined |
| Terminal.CellBytes | kernel/x86/video/vga.c:78-83 | a cell has the character in its low byte and the colour in its high byte, or 0xFF for a negative character |
| Terminal.CharactersByCode | kernel/x86/video/vga.c:86-114 | what each character does by its code: line feed starts the next row, tab, return and backspace are drawn after their move, any other is drawn at the cursor |
| Terminal.TabStops | kernel/x86/video/vga.c:94-97 | a tab goes to the next multiple of eight |
| Terminal.Terminal.Putch | kernel/x86/video/vga.c:86-114 | for every character and cursor, line break, tab, backspace, return, scrolling and drawing are those of the one-character step the layout results are about |
| Terminal.Terminal.PrintString | kernel/x86/video/vga.c:116-124 | the string's characters, in order, up to its NUL, whatever they are |
| Terminal.Terminal.Scroll | kernel/x86/video/vga.c:67-76 | every screen cell takes the one below it, the last line row 25 of memory, and no other cell changes |
| Terminal.Terminal.Initialize | kernel/x86/video/vga.c:48-64 | the cursor is home, all 2000 cells are 0x0720 and the rest of memory is as it was |
| Terminal.ColumnLeavesTheGrid | kernel/x86/video/vga.c:86-114 | from a column in 0..80 a character leaves that range if and only if it is a tab in one of the columns 72..79 |
| Terminal.SeenExactly | kernel/x86/video/vga.c:78-114 | a character is sure to be on the screen afterwards, whatever memory held, if and only if it is no line break and the index of the place it is drawn at is below 2000 |
| Terminal.SeenAfterNewlines | kernel/x86/video/vga.c:86-114 | from home, with n newlines printed and no index wrapped around, the next plain character is sure to be seen if and only if n is below 25 |
| Terminal.ScrollsExactly | kernel/x86/video/vga.c:107-113 | a drawn plain character moves the screen up a line, whatever memory held, if and only if the row is 25 or more, and leaves the row as it is |
| Kprintf.Kprintf | kernel/x86/video/vga.c:179-239 | the terminal gets exactly the expansion of the format and its arguments, up to the end or a trailing percent sign, for every text and every cursor |
| Kprintf.PlainFirst | kernel/x86/video/vga.c:187-192 | what stands before a percent sign is printed as it is |
| Kprintf.DirectiveText | kernel/x86/video/vga.c:193-236 | d prints the canonical decimal of its word, u from zero up the shortest decimal, x the shortest hexadecimal of the word sign-extended to 64 bits, s the string at that address or "(null)", any other its low byte; then comes the rest of the format with the words left |
| Kprintf.OneArgumentEach | kernel/x86/video/vga.c:181-231 | the expansion uses one argument word per directive and depends on no other |
| Kprintf.ItoaWritesItoaOf | kernel/x86/video/vga.c:202-202 | itoa's promise leaves one text, the one the expansion names |

## Left out

- Terminal.Terminal.Putch: where an index beyond the screen reaches other memory than video memory is not modelled, nor is the hardware cursor.
- Kprintf.Kprintf: calls that C leaves undefined, with too few arguments, a string directive on a word that is no string, or a number whose text overflows the 20-byte buffer (`SignedText.FitsKprintfBuffer` says which); a string at address 0 is null.
- Timer.Pit.Wait: the 64-bit counters do not wrap and are read in one piece.
- Rtc.Cmos.Update: the day is not claimed to be part of the snapshot, since the loop compares it with a variable it never sets; century, BCD and 12-hour decoding and the storage behind the result are not part of this model.
- StubFrames.Cpu.ServeInterrupt: interrupts from ring 3 and stack overflow; the handler's compiled body is any change of registers, of its argument's slot and of words below its frame, and it returns to its caller's stack pointer as the calling convention asks.
- InterruptKernel.Kernel.IrqHandler: the installed handler is any list of the state machine's steps; a handler that itself writes to the controllers or never returns is not modelled.
- Atoi.Atoi: memory is at most 2^32 bytes, the address space of the machine.
- `Enable_8259_PIC`, `Disable_8259_PIC`, `Acknowledge_8259_PIC`: they pass port and value in the opposite order to `outb`; masks change only by environment steps.
- OCW2 rotation commands, special mask mode, polling, level triggering and automatic EOI: the kernel selects none of them.
- Exceptions below 32 beyond their stack frame: they end in a panic.
- The mode-switch handlers of vectors 120 and 121: the dispatcher ignores vectors from 48 up.
- `memset`, `memcpy`, `strcpy`, `strcat`, `strncpy`, `strcmp`, `abs`: single loops or expressions.
- GDT, TSS, NMI, speaker, keyboard, CPUID, boot code and paging: straight-line hardware set-up.
- Port timing and `io_wait` delays.
