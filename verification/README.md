# Proofs about a breakpoint debugger, a mini libc and a call logger

This project models the hardest parts of the 2021 Advanced UNIX Programming homework repository and
proves properties of them with Dafny 4.11. `dafny verify dfyconfig.toml` checks everything.

**The debugger** (`0616078_hw4`). `Processor`, `Runs` and `Ptrace` model a process with byte memory,
an arbitrary deterministic instruction step, `int3`, and the ptrace requests the debugger uses,
including a scheduler that lets a continued process run any number of instructions before the next
request. `Debugger` is the program itself: the globals, the eight-byte peek and poke behind
`replace_byte`, `check_stop`, and every command that touches the process. `SessionSpec` tells the
same commands on a *clean* process: no `0xcc`, no saved bytes, no rewinding, only a table of live
addresses and the two addresses the debugger remembers (`rip_now`, `bpaddr_now`). Each method of
`Debugger` is proved to do to the clean process what `SessionSpec` says, while the real memory is
always the clean memory overlaid with the live breakpoints. `SessionRuns`, `Transparency` and `Visits`
then prove what single commands and whole scripts mean and report, and `Corners` gives programs on which the
debugger does *not* do what its user expects, each showing that a condition is needed:

- a breakpoint stepped off and reached again is neither reported nor left by any later `cont` or `si`
  (`LoopLosesItsBreakpoint`; the exact condition for running on to the next *other* breakpoint is in `ContExact`);
- `start` keeps `rip_now` and `bpaddr_now`, so the new process can pass a breakpoint in silence
  (`RestartSwallowsTheReport`): `cont` reports the first live breakpoint the program comes to exactly if that is
  not the remembered one (`ReportsFirstExact`, and `RestartReportsExactly` for a process just started); without
  `set rip` that is the last breakpoint hit, in whatever process it was (`RemembersAlways`);
- after a hit, `cont` reports the next visit to a live breakpoint exactly unless it is to the same one, so a lone
  breakpoint in a loop is reported once (`ReportsVisitExact`; for any number of `cont` commands `ContsReportAll`
  says that consecutive repeats are just what is missing);
- a `si` that lands just behind an armed address, as every one-byte instruction at a breakpoint does,
  is taken for a hit, and `rip` is moved back (`OneByteInstructionIsRewound`; exact condition in `SiExact`);
- after `set rip`, `cont` can leave `0xcc` where no breakpoint is (`SetRipSmudgesTheProgram`; exact
  condition in `ForgottenContKeepsProcess`, and in `ForgottenSiKeepsProcess` for `si`; `GuardAlways` shows it
  cannot happen without `set rip`).

The comment over `check_stop` (`0616078_hw4/hw4.cpp:150-151`) says it tells a first hit from a repeated one. The
code compares with `rip_now` only, which also matches after a detour and after `start`; the model follows the code.

The hypotheses on the debugged program are the predicate `Processor.Debuggable`: breakpoint sites are
mapped, the program has no `int3` of its own and ends by exiting, and its steps neither read nor write
armed bytes as data. They are asked only of a set `good` of states closed under the program's step,
which may be as small as the states the session goes through. A command that waits is required to be
one whose wait ends (`ContReturns`).

**The mini libc** (`0616078_hw3`). `WordMemory` and `NonLocalJump` execute `setjmp` and `longjmp`
instruction by instruction on a small x86-64 machine with byte-addressed memory, the stack, and system
call 14. `JumpRuns` executes any sequence of `setjmp` calls, jumps and returns, nested to any depth, with
arbitrary code in between, and the whole run of `jmp2.c` for any number of functions. `SignalWords` and `SignalSets`
prove that the bit operations on a `sigset_t` are operations on finite sets; `Signals` covers `sigaction`,
`signal` and `sigprocmask`. `PrintLong` is the decimal printer of `test.c`.

**Loader, dump and logger.** `Elf` has the linked list of string tables, the search for `.text`, both
tied to the bytes of the file, and the positions of `disasm`; `Dump` the paging of the `dump` command, which keeps
its counts in an `int` and so is exact up to 2^35 bytes past the end and not beyond (`FarPastEnd`, with the exact
conditions in `CountExactly` and `StaysExactly`); `Logger` the log descriptor that moves out of
the way when the traced program closes it, and what each file receives from the program and from the log.

## Model

| member | source | states |
|---|---|---|
| Processor.SpliceOneByte | 0616078_hw4/hw4.cpp:143-148 | the little-endian read-modify-write of a word changes exactly the byte at the address, and the returned character is the byte displaced, for every sign |
| Debugger.Debugger.ReplaceByte | 0616078_hw4/hw4.cpp:143-148 | on a stopped process with the word mapped one byte is exchanged; otherwise nothing changes and 0xff comes back |
| Debugger.Debugger.CheckStop | 0616078_hw4/hw4.cpp:152-195 | every outcome of the wait: exit, a stop elsewhere, the remembered breakpoint (1, rip rewound, original byte ready), another breakpoint (0, announced and remembered) |
| Debugger.Debugger.ContOver | 0616078_hw4/hw4.cpp:522-528 | disarm, continue and re-arm give one outcome however far the process has run when the early re-arm is tried |
| Debugger.Debugger.Cont | 0616078_hw4/hw4.cpp:511-531 | on the clean process `cont` is ContView in every case, and the overlay invariant is kept through the step-over windows |
| Debugger.Debugger.SiOver | 0616078_hw4/hw4.cpp:542-550 | the same for one instruction |
| Debugger.Debugger.Si | 0616078_hw4/hw4.cpp:533-551 | on the clean process `si` is SiView in every case, including steps taken for hits, and the overlay invariant is kept |
| Debugger.Debugger.Listed | 0616078_hw4/hw4.cpp:568-570 | the search finds a row exactly if the address is live |
| Debugger.Debugger.Break | 0616078_hw4/hw4.cpp:559-577 | the clean process is untouched, a known address keeps the table and the counter as they are, a new one is one row with the next id at the end, and the overlay survives exactly if the word can be patched |
| Debugger.Debugger.Arm | 0616078_hw4/hw4.cpp:566-577 | the same behind the check of the state: the byte is patched first, and a row is added only for an address not listed |
| Debugger.Debugger.Delete | 0616078_hw4/hw4.cpp:579-600 | exactly the row with the id goes, its byte is restored, the clean process is untouched |
| Debugger.Debugger.Set | 0616078_hw4/hw4.cpp:307-324 | the register named gets the value, every other register, `rip` and memory are kept; `set rip` changes `rip` alone and is remembered |
| Processor.WriteOne | 0616078_hw4/hw4.cpp:307-324 | a write to a register changes that register and nothing else |
| Debugger.Debugger.Start | 0616078_hw4/hw4.cpp:450-489 | a fresh unpatched process, an empty table, and every other global kept |
| Debugger.Debugger.Run | 0616078_hw4/hw4.cpp:491-509 | does nothing before a program is loaded, continues a running process, starts and continues a loaded one |
| Debugger.Debugger.Session | 0616078_hw4/hw4.cpp:609-707 | for every allowed script the debugger keeps the overlay, does what ScriptView says, and the restored process is one the undebugged program reaches |
| Debugger.RestoredShows | 0616078_hw4/hw4.cpp:566-576 | armed bytes at mapped live addresses make memory the overlay of the restored process |
| Debugger.OverBreakpoint | 0616078_hw4/hw4.cpp:522-528 | with its byte back the process runs as the clean one to the next other breakpoint, and re-arming restores the full overlay |
| Debugger.StuckAtBreakpoint | 0616078_hw4/hw4.cpp:522-528 | with another address "disarmed" the process traps again where it is |
| Runs.GoesPatched | 0616078_hw4/hw4.cpp:518-519 | the patched process reaches its next int3 exactly as the clean one reaches its next armed address |
| Runs.GoesPast | 0616078_hw4/hw4.cpp:518-527 | without one breakpoint the run is the same up to the first stop and goes on only from that breakpoint |
| SessionRuns.ContExact | 0616078_hw4/hw4.cpp:511-531 | `cont` runs to the next breakpoint other than the remembered one, or to exit, and reports it, exactly unless the run first returns to a remembered breakpoint that was stepped off |
| SessionRuns.ReportsFirstExact | 0616078_hw4/hw4.cpp:152-195 | `cont` reports the first live breakpoint of any kind, or the end, exactly unless that breakpoint is the remembered one |
| SessionRuns.RestartReportsExactly | 0616078_hw4/hw4.cpp:450-531 | the same for the first `cont` after `start` and any breakpoint edits; the address not reported is the remembered one, which is that of the last hit printed before |
| SessionRuns.ContRemembers | 0616078_hw4/hw4.cpp:511-531 | after any `cont` what is remembered is the hit it prints; otherwise `rip_now` is as it was, also when the process ends, and `bpaddr_now` is 0 exactly if the remembered breakpoint was met, else as it was |
| SessionRuns.EndFromHit | 0616078_hw4/hw4.cpp:511-531 | a `cont` from a hit in which the process ends leaves `rip_now` as it was and `bpaddr_now` 0 |
| SessionRuns.SiRemembers | 0616078_hw4/hw4.cpp:533-551 | the same for `si` |
| SessionRuns.RemembersKept | 0616078_hw4/hw4.cpp:152-195 | every command but `set rip` keeps "`rip_now` is the address of the last hit printed and `bpaddr_now` is 0 or that address" |
| SessionRuns.RemembersAlways | 0616078_hw4/hw4.cpp:152-195 | hence over every session without `set rip`, across ends and starts of processes |
| SessionRuns.ContFromHit | 0616078_hw4/hw4.cpp:511-531 | from a reported breakpoint it always does, leaving by at least one instruction |
| SessionRuns.ReportsVisitExact | 0616078_hw4/hw4.cpp:511-531 | after a hit `cont` reports the program's next visit to any live breakpoint, or its end, exactly unless that visit is to the same one |
| SessionRuns.SiExact | 0616078_hw4/hw4.cpp:533-551 | no clean step exactly at armed addresses other than a reported one, where an unreported one is reported; otherwise exactly one, unless the step lands just behind an armed address |
| SessionRuns.OverrunRewinds | 0616078_hw4/hw4.cpp:542-550 | in that last case `rip` is one back and the hit is announced unless it is the remembered one, from where `si` may go on |
| SessionRuns.SiReportsThenExecutes | 0616078_hw4/hw4.cpp:152-195 | a breakpoint reached by stepping is reported by the next `si` and executed by the one after |
| SessionRuns.InStepKept | 0616078_hw4/hw4.cpp:152-195 | every command but `set rip` keeps "nothing remembered, or remembered where last stopped", which implies the guard |
| SessionRuns.GuardAlways | 0616078_hw4/hw4.cpp:511-600 | hence the guard at every point of every session without `set rip` |
| SessionRuns.IssuableAllowed | 0616078_hw4/hw4.cpp:511-600 | a session without `set rip` needs no guard: if its commands can be issued they are allowed |
| SessionRuns.GuardKeptByRunning | 0616078_hw4/hw4.cpp:511-551 | with `set rip` in play, `cont` and `si` keep the guard on every outcome of their waits |
| SessionRuns.StuckKeepsProcess | 0616078_hw4/hw4.cpp:522-528 | the exact condition under which disarming and re-arming the remembered address leaves the program's memory alone; otherwise 0xcc at that address is the whole damage |
| SessionRuns.ForgottenContKeepsProcess | 0616078_hw4/hw4.cpp:511-531 | the same for a whole `cont` |
| SessionRuns.ForgottenSiKeepsProcess | 0616078_hw4/hw4.cpp:533-551 | the same for a whole `si`, from where it stands or is taken to stand |
| SessionRuns.OtherSiOnlySteps | 0616078_hw4/hw4.cpp:533-551 | in every other `si` memory changes only by an instruction of the program |
| SessionRuns.ForgottenForever | 0616078_hw4/hw4.cpp:511-551 | on a breakpoint stepped off and reached again, no sequence of `cont` and `si` moves the process or prints anything |
| SessionRuns.TableKept | 0616078_hw4/hw4.cpp:559-600 | one command keeps ids increasing and addresses distinct and never revives an old id |
| SessionRuns.IdsNeverReused | 0616078_hw4/hw4.cpp:462-577 | the same over every session, across `start` |
| SessionRuns.EditEffect | 0616078_hw4/hw4.cpp:559-600 | `break` adds its address and nothing else, or changes nothing at all if it is known; `delete` removes the row with its id and no other |
| SessionRuns.CommandEffect | 0616078_hw4/hw4.cpp:307-600 | every command, field by field, on everything the debugger keeps; `run` is `start` and `cont`, or `cont` |
| SessionRuns.ScriptAppend | 0616078_hw4/hw4.cpp:609-707 | a session is its commands one after the other |
| Debugger.Debugger.EditBreakpoints | 0616078_hw4/hw4.cpp:559-600 | after any interleaving of breaks at mapped words and deletes, process memory is the original overlaid with the live set, and the process is the original when none is left |
| SessionSpec.CommandSound | 0616078_hw4/hw4.cpp:450-600 | every allowed command leaves the process in a state of the program with breakpoints at sites |
| Transparency.ContRan | 0616078_hw4/hw4.cpp:511-531 | `cont` is a number of undebugged instructions, and its report is true of where they lead |
| Transparency.SiRan | 0616078_hw4/hw4.cpp:533-551 | `si` is at most one undebugged instruction |
| Transparency.CommandExplained | 0616078_hw4/hw4.cpp:450-600 | each command continues the undebugged run that explains the process, or starts a new one, and its report is true of that run |
| Transparency.SessionChronicle | 0616078_hw4/hw4.cpp:609-707 | for every allowed script all reports in order are true of undebugged runs that only ever go on: each hit stands at a breakpoint live then, each end is the run's own |
| Transparency.SessionTransparent | 0616078_hw4/hw4.cpp:609-707 | for every allowed script the restored process is reached undebugged from its image with the same `set` writes interleaved |
| Visits.SeenToStop | 0616078_hw4/hw4.cpp:518-527 | the next stop other than the remembered one is the next address seen that is not a repeat |
| Visits.ContsReportAll | 0616078_hw4/hw4.cpp:511-531 | any number of `cont` commands reports exactly the program's visits to live addresses, consecutive repeats dropped, and then its end |
| Corners.LoopLosesItsBreakpoint | 0616078_hw4/hw4.cpp:533-551 | a loop on which a breakpoint is reported once and then holds the process for ever |
| Corners.RestartSwallowsTheReport | 0616078_hw4/hw4.cpp:450-531 | a restarted program passing its breakpoint without a report |
| Corners.OneByteInstructionIsRewound | 0616078_hw4/hw4.cpp:542-550 | a one-byte instruction at a breakpoint executed and then undone in rip only |
| Corners.SetRipSmudgesTheProgram | 0616078_hw4/hw4.cpp:307-324 | a script with `set rip` after which `cont` leaves int3 at an address without a breakpoint |
| NonLocalJump.Machine.Setjmp | 0616078_hw3/libmini64.asm:91-117 | the buffer records callee-saved registers, rsp, return address and mask; 0 is returned; nothing else outside the stack window changes; it returns once |
| NonLocalJump.MaskedMembers | 0616078_hw3/libmini.c:208-220 | signal by signal, what block, unblock and set do to the mask; KILL and STOP are never blocked |
| NonLocalJump.Machine.Longjmp | 0616078_hw3/libmini64.asm:119-147 | from any registers, stack and mask the recorded environment is back, rax is the value given, and only the five words from 32 bytes below the saved stack pointer are written |
| WordMemory.StoreLoadBytes | 0616078_hw3/libmini64.asm:93-101 | a word stored little-endian reads back, for every width |
| WordMemory.StoredByte | 0616078_hw3/libmini64.asm:93-101 | byte k of a stored word is its k-th digit to the base 256 |
| SignalWords.EncodeDecode | 0616078_hw3/libmini.h:177-182 | the word written for a set of signals reads back as that set |
| SignalWords.DecodeEncode | 0616078_hw3/libmini.h:177-182 | and every word is the one written for the set it stands for |
| JumpRuns.OuterHeld | 0616078_hw3/libmini64.asm:119-147 | a jump keeps the environment jumped to and every outer one, wherever inner buffers lie |
| JumpRuns.InnerAdded | 0616078_hw3/libmini64.asm:91-117 | a setjmp in a frame clear of the older buffers adds its environment and keeps the others |
| JumpRuns.Enter | 0616078_hw3/libmini64.asm:91-117 | the call of setjmp itself, returning 0 where it was called from |
| JumpRuns.RunActions | 0616078_hw3/libmini64.asm:91-147 | for any script of setjmp calls, jumps and returns nested to any depth, with any code in between, every jump lands exactly as the executed setjmp it goes back to returned, but for the value; these are all the returns the machine executes |
| JumpRuns.SigProcMask | 0616078_hw3/libmini.c:208-220 | the mask changes by the set stored in memory and the old mask is stored as a set |
| JumpRuns.Jmp2 | 0616078_hw3/jmp2.c:25-56 | for any number of functions the program, with its sigset and sigprocmask calls, ends, calls each function once in order, finds SIGALRM blocked on every pass, and ends with only SIGALRM unblocked and its counter at n; setjmp returns n + 1 times, with 0 to n, on the same frame with the same registers and mask |
| JumpRuns.TranscriptShape | 0616078_hw3/jmp2.c:42-54 | that output has N+1 "blocked" lines and the N calls between them in order |
| SignalWords.DecodeOr | 0616078_hw3/libmini.c:253 | or on words is union of sets |
| SignalWords.DecodeAnd | 0616078_hw3/libmini.c:267 | and on words is intersection |
| SignalWords.DecodeNot | 0616078_hw3/libmini.c:266 | complement of a word is complement of the set |
| SignalSets.Memset | 0616078_hw3/libmini.c:177-181 | exactly the first `size` bytes become the value |
| SignalSets.Memcpy | 0616078_hw3/libmini.c:183-188 | exactly the first `size` bytes are copied |
| SignalSets.ByteOf | 0616078_hw3/libmini.c:244-255 | byte k of a stored set has the weight of the k-th power of 256 |
| SignalSets.Sets.SigEmptySet | 0616078_hw3/libmini.c:222-231 | the stored set becomes empty, or EINVAL for a null pointer |
| SignalSets.Sets.SigFillSet | 0616078_hw3/libmini.c:233-242 | the stored set becomes all 64 signals, or EINVAL |
| SignalSets.Sets.SigAddSet | 0616078_hw3/libmini.c:244-255 | exactly the signal is added, or EINVAL and no change |
| SignalSets.Sets.SigDelSet | 0616078_hw3/libmini.c:257-269 | exactly the signal is removed, or EINVAL and no change |
| SignalSets.Sets.SigIsMember | 0616078_hw3/libmini.c:271-284 | 1 exactly for members, 0 for others, -1 with EINVAL out of range |
| SignalSets.AndNotRemoves | 0616078_hw3/libmini.c:264-267 | clearing one bit removes one signal and touches no other member |
| SignalSets.Sets.Apply | 0616078_hw3/libmini.c:222-269 | any sequence of operations leaves the word standing for the abstract result |
| SignalSets.AppliedLast | 0616078_hw3/libmini.c:222-269 | and a signal is in that result exactly if nothing took it out after it was last put in |
| Signals.LibraryMadeExactly | 0616078_hw3/libmini.c:294-301 | exactly the dispositions with restorer flag, the library's restorer and a blockable mask come out of sigaction |
| Signals.Process.SigAction | 0616078_hw3/libmini.c:286-312 | the old disposition is returned and the new one installed: the handler, the mask without KILL and STOP, the flags with SA_RESTORER set and every other bit kept, the restorer; other signals keep theirs; EINVAL and no change for bad numbers, KILL and STOP; a null action installs uninitialised data |
| Signals.RestorerBits | 0616078_hw3/libmini.c:299-300 | one flag is set and every other bit of the caller's flags is kept |
| Signals.Process.Signal | 0616078_hw3/libmini.c:314-330 | the old handler is returned and the handler installed with exactly its own signal masked and exactly SA_RESTART and SA_RESTORER set |
| Signals.Process.Exchange | 0616078_hw3/libmini.c:286-312 | reinstalling what came back restores everything exactly for library-made dispositions, and handler and mask always |
| Signals.Process.SignalTwice | 0616078_hw3/libmini.c:314-330 | `signal(s, signal(s, h))` restores the handler exactly if it was not SIG_ERR |
| Signals.Process.SigProcMask | 0616078_hw3/libmini.c:208-220 | the mask is changed as asked, stated signal by signal, and the old one returned, or EINVAL and no change |
| Signals.Process.RunSection | 0616078_hw3/libmini.c:208-220 | save/SETMASK sections of any depth restore the mask whatever happens inside, and inside it is what each section asks for |
| PrintLong.PrintLong | 0616078_hw3/test.c:3-26 | one canonical decimal line that parses back to the number, in at most 21 characters |
| PrintLong.Produce | 0616078_hw3/test.c:14-18 | at most 19 digits, which reversed are the number's digits |
| PrintLong.ReverseInPlace | 0616078_hw3/test.c:19-23 | the first l characters are reversed |
| PrintLong.DigitsValue | 0616078_hw3/test.c:14-18 | the digits have the number as value and no leading zero |
| PrintLong.DecimalLineUnique | 0616078_hw3/test.c:3-26 | two canonical lines are equal exactly if their numbers are |
| Elf.TablesExact | 0616078_hw4/open_elf.cpp:71-83 | one row per string table section and no other, ids strictly decreasing; byte k of its data is the byte of the file at the section's offset plus k, or 0 behind the end |
| Elf.LoadStrTab | 0616078_hw4/open_elf.cpp:63-85 | the list built is acyclic and holds exactly those rows: a node for every string table, with the bytes of the file from that section on |
| Elf.FindTable | 0616078_hw4/hw4.cpp:237-240 | the node with the id is found exactly if there is one |
| Elf.SameName | 0616078_hw4/hw4.cpp:242 | names compare equal exactly if they are, reading only inside the table |
| Elf.NamedInFile | 0616078_hw4/hw4.cpp:242 | a name in a table is .text exactly if those five bytes and a zero stand in the file at the table's offset plus the name's |
| Elf.Load | 0616078_hw4/hw4.cpp:237-246 | the first section named .text is selected, or none: in the file, .text and a zero stand where its name is, and not where that of an earlier section is |
| Elf.Disasm | 0616078_hw4/hw4.cpp:440-447 | positions start at the start address, follow each other by instruction lengths, and end only after `len`, at the end of the section or at an undecodable one; all lie in the section exactly if the start is not before it |
| Dump.CountExact | 0616078_hw4/hw4.cpp:380-384 | from 2^35 bytes past the end to less than 2^31 before it, one dump shows the next 80 bytes or all that are left |
| Dump.CountExactly | 0616078_hw4/hw4.cpp:380-384 | anywhere, it does so exactly if the byte and line counts kept in an `int` come out right |
| Dump.StaysExactly | 0616078_hw4/hw4.cpp:384-393 | past the end dumpaddr stays exactly if the line count kept is not positive |
| Dump.NextExact | 0616078_hw4/hw4.cpp:384-393 | where dumpaddr goes: 80 bytes on, or to the first line boundary behind the end; from less than 16 bytes past the end one line more, from further on nowhere |
| Dump.FarPastEnd | 0616078_hw4/hw4.cpp:380-384 | two addresses far past the end where a dump is not empty |
| Dump.PagesCover | 0616078_hw4/hw4.cpp:378-421 | repeated dumps show every byte once, in order, and then nothing |
| Dump.FixedPoint | 0616078_hw4/hw4.cpp:381-393 | past the end, however far, dumpaddr moves at most once more |
| Dump.Pager.Page | 0616078_hw4/hw4.cpp:361-423 | the bytes shown, each with its address, and the new dumpaddr |
| Dump.Pager.Pages | 0616078_hw4/hw4.cpp:361-423 | a row of dumps without argument shows exactly the cells of those pages, with the addresses of Shown |
| Dump.PageBytes | 0616078_hw4/hw4.cpp:389-417 | where memory is mapped every byte shown is the byte at its address, inside the range |
| Logger.Logger.InitFd | 0616078_hw2/0616078_hw2/logger.cpp:37-50 | the log is placed on standard error or on a newly opened file, or nowhere if that does not open; the program's descriptors stay |
| Logger.Logger.Close | 0616078_hw2/0616078_hw2/logger.cpp:132-159 | the descriptor asked for is closed; the log stays open on its file, moved only if its descriptor was closed |
| Logger.Logger.Perform | 0616078_hw2/0616078_hw2/logger.cpp:132-602 | every intercepted call does exactly what the program asked to the descriptors other than the log's and to the files, and then logs its line; file by file, the bytes of a write go behind what its descriptor's file holds, the line behind what the log's file holds, and nothing goes anywhere else |
| Logger.CallAppends | 0616078_hw2/0616078_hw2/logger.cpp:52-58 | whatever the program asked for, one call adds one line, to the log's file and to no other |
| Logger.Logger.Hook | 0616078_hw2/0616078_hw2/logger.cpp:132-602 | the same from the first call on: the program's descriptors change as asked, its bytes and one line are appended where they belong, and the log is set up when needed and kept in place |
| Logger.Logger.Run | 0616078_hw2/0616078_hw2/logger.cpp:37-240 | over every run the log stays on one file, which receives all lines in order; if it could not be opened no line goes anywhere; every file holds what it held and, in order, the bytes written to its descriptors and the lines if it is the log's; descriptors stay on their files until closed |
| Logger.StaysOpen | 0616078_hw2/0616078_hw2/logger.cpp:37-240 | over every run a descriptor no call closes stays on its file, and no other descriptor comes to a file that is not the log's |
| Logger.FileDelivers | 0616078_hw2/0616078_hw2/logger.cpp:132-602 | so a file the program has one such descriptor on ends with exactly the bytes written to it, in order |

## Left out

- Command tokenising, `help`, `list`, `get`, `getregs`, `vmmap` and all terminal text: formatting; of the output only breakpoint hits and terminations are kept.
- Capstone: an instruction is an arbitrary positive length, or a decoding failure.
- fork, exec and kill: `start` is given the stopped process that exec produces; a killed process is dropped.
- Death of the traced process by a signal, its own `int3`, and `load` while running: outside the hypotheses above.
- A peek that fails followed by a poke that succeeds within one `replace_byte`: the two are one step with respect to the process stopping.
- Debugger.Debugger.Break: takes the address as a number, so `break` without an argument (read as address 0) is just the unmapped case.
- Debugger.Debugger.Set: an unknown register name dereferences a null pointer in the program and is not modelled; the register is one of the eighteen names.
- Debugger.Debugger.Cont: requires that its waits end; a `cont` that never returns has no outcome to state.
- `bpid` and other `int` counters are unbounded here.
- NonLocalJump.Machine.Longjmp: with value 0 it returns 0, as the code does and its contract says, where section 7.13.2.1 of ISO C11 asks for 1.
- The rest of the x86-64 instruction set, flags, r8 and r9: neither routine touches them.
- JumpRuns.Jmp2: the counter is a 64-bit word of the caller's frame; the two sets of `main` are objects beside the machine's memory; each called function is arbitrary code below that frame.
- Non-positive signal numbers in the set operations: the program shifts by a negative amount.
- Signals.Process.SigAction: the uninitialised structure of a null action is a parameter; flags unknown to the kernel are kept.
- `perror`, the thin system call wrappers, `alarm*.c`, `testsig.c`, `jmp1.c`: nothing beyond what is proved here, or dependent on kernel timing.
- PrintLong.PrintLong: the smallest 64-bit integer is excluded, because negating it overflows.
- Elf.Load: requires the section of names to be a string table with terminated names; the program dereferences a null pointer or reads past the table otherwise. The ELF header and program headers are not read.
- Logger.Logger.InitFd: the environment variable is assumed to be set, and descriptor 2 to be open when the log goes there; `dup` of an open descriptor is assumed to find a free one.
- The text of the logged lines is a parameter of each call.
- Logger.Logger.Perform: a `write` to an open descriptor is taken to write all its bytes; short writes, reads and file positions are not modelled.
- `0616078_hw1`, `0616078_hw2/hw2.cpp`, the older `0616078_hw2/logger.cpp` and the copies under `0616078_hw4/0616078_hw4`: they would add only easy members.
