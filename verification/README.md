# A verified model of the 391 kernel and its user programs

The repository is a small x86 teaching kernel with several terminals that share one
physical screen, a timer scheduler, a process table of eight pids, a read-only block file
system, a line discipline, virtual real-time clocks, and a handful of user programs. This
project models the parts where state is shared, aliased or carried over between calls, and
proves what they promise.

The recurring shape is a pair. A step is first a function on plain values, about which the
theorems are stated (what every step keeps, what whole runs do, what one call undoes); then
the code itself, as methods over arrays, objects and loops, is proved to take exactly that
step. The modules, from the bottom up:

- `Bytes`, `Arithmetic`, `Strings`, `Text`: machine words, division facts, NUL-terminated
  strings, and laying text out in rows (of the screen, and of grep's buffer).
- `Screen`: one 25x80 screen and the unbounded document it shows the end of.
- `KernelState`: the kernel as a value. Video memory is one byte string with the display in
  page 0 and terminal t's buffer in page t + 1; each process has a VIDEO page that leads to
  one of them. `ProcessProofs`, `VideoProofs`, `RoundRobin` and `Runs` prove its invariants
  and simulations, `ProcessRuns` what holds of the process table in longer runs, `Limits`
  exactly where all this ends, and `Reached` runs from the start that get there; `UserPages`
  says which programs have a vidmap page.
- `Paging`, `PidBits`, `Memory`: page tables and the hardware walk (Intel SDM Volume 3A,
  sections 4.3 and 4.6), the pid bitmap, and the assembly copy loops.
- `Kernel`: the same kernel as objects with pointers, one physical memory array reached
  through the page tables, and the code's own loops.
- `Grep`; `Blink` and `BlinkDriver`; `FileSystem`, `FileDriver`, `Loading` and
  `Descriptors`; `Keyboard` and `KeyboardDriver`; `Rtc`; `Commands`; `Emulate`; `Numbers`.

The number of terminals is arbitrary (below 256 for the objects of `Kernel`); the code has
three.

## What the code does not do as documented

Each of these is proved, with a condition that holds exactly where the code is right:

- A pid taken for a program that then cannot be read stays taken: for an executable that
  ends before its entry point, or is too long for the bound on reads
  (`Loading.ExecuteHealthyIff`). In the second case the new page directory stays loaded too
  (`Limits.FailedLoadScrollsDisplay`).
- A root shell that halts while another terminal is displayed frees the displayed terminal
  (`Limits.HaltHealthyIff`).
- A program started by execute in the background has its VIDEO page on the physical screen,
  so it scrolls the displayed terminal (`Limits.ExecuteSoundIff`).
- A program that halts returns to a parent whose page table is as it was when the program
  started: whenever its terminal is not displayed, the parent scrolls the display, and a
  vidmap page of the parent is no longer kept up to date (`Limits.HaltSoundIff`).
- These VIDEO pages are put right when the terminal is next scheduled
  (`Limits.TickRestoresPages`).
- A terminal opened before those below it gets no shell of its own: the shell is recorded as
  another terminal's and prints there. One that is left before its shell has started, or for
  which no pid is free, goes wrong too (`Limits.TickSoundIff`, `Reached.OutOfTurnIsReached`),
  and a program started before that shell takes its terminal (`Limits.ProgramTakesTerminal`).
- A background backspace in the top left corner moves the cursor to column 65535
  (`VideoProofs.PutcKeepsInvIff`).
- `read_data` validates the block slot behind the last byte when that byte ends its block,
  and bounds requests by the number of directory entries (`FileSystem.ReadSucceedsIff`).
- grep compares the pattern's first byte as a signed character, so a pattern that starts
  above 127 matches nothing (`Grep.RightForAllTextsIff`).
- A blink phase of length 0 or above 32768 lasts one tick, while 32768 works
  (`Blink.BlinkIsPeriodic`); an entry for location 0 corrupts the pool, and the next one
  ties the list in a knot (`Blink.AddKeepsListedIff`, `Blink.LocationZeroTiesKnot`); sync
  displays the off character also in a lit phase (`Blink.SyncShowsFaceIff`).
- Of several blink entries for one location that turn in the same tick the oldest is
  displayed, though find and remove know the latest (`Blink.OldestTurningIsDisplayed`).
- The page that vidmap maps at 160 MB is readable and writable at address 0 as well
  (`Paging.FirstPageIsShared`).
- A program that never called vidmap gets the page when it is next scheduled, if the shell
  that started it, or one that ended before it, had called it (`UserPages.PageFollowsTerminal`,
  `UserPages.HaltForgetsIff`, `UserPages.InheritedPageIsReached`).
- A caps lock key that repeats while it is held ends up on, whatever the first press did
  (`Keyboard.HeldCapsLockTogglesIff`).
- A second Enter behind a full line is stored outside the line buffer
  (`Keyboard.IndexStaysInBuffer`, `Keyboard.SecondEnterIsReached`).
- A command with a leading space makes the emulated execute run `./` alone
  (`Emulate.ArgvIsWordsIff`).
- The kernel's `itoa` takes a signed remainder (`Numbers.KernelAgreesIff`).

## Assumptions

Runs contain only steps that keep the invariant: `Runs.Enabled`, which is exactly what
`Limits` and `VideoProofs.PutcKeepsInvIff` find, or for the process table alone the wider
`ProcessRuns.Keeps`. A write is one step, since the code masks interrupts around it. Blink
entries are not added at location 0 (`Blink.Proper`). grep's spare byte `data[1024]` is not
a newline, and its reads are short only at the end of the file. No byte of a command is
stored behind its 128-byte buffer (`Commands.Fits`). Files are smaller than 1023 blocks, and
directory entries of regular files name existing inodes.

## Model

| member | source | states |
|---|---|---|
| VideoProofs.PutcSim | student-distrib/lib.c:339-427 | a byte printed by the running process does to its own terminal's screen what Screen.Putc says, whether that screen is the display or a buffer behind a remapped page, and leaves every other screen and cursor alone |
| VideoProofs.PutcKeepsInvIff | student-distrib/lib.c:373-382 | printing keeps the invariant exactly unless it is a background backspace at (0,0), whose cursor wraps to 65535 |
| VideoProofs.WriteSim | student-distrib/terminal_driver.c:29-53 | a whole write prints its bytes on the writer's screen, in order, and on no other |
| VideoProofs.SwitchSim | student-distrib/terminal_driver.c:183-236 | a switch changes no terminal's logical screen or cursor, although it copies two screens over each other |
| VideoProofs.SwitchedWriterSeesIff | student-distrib/terminal_driver.c:207-236 | between a switch and the rescheduling the interrupted process writes to its own terminal exactly if that was the displayed one, to whose buffer it is left mapped |
| VideoProofs.RealSwitchReschedules | student-distrib/pit.c:52-72 | after a real switch the tick always picks another terminal than the running one, so the mapping the switch leaves behind is never used |
| VideoProofs.ResumeSim | student-distrib/pit.c:86-113 | resuming a terminal leaves its process's VIDEO and vidmap pages on that terminal's own output and every screen as it was |
| VideoProofs.StartSim | student-distrib/pit.c:124-128 | starting a displayed terminal's shell maps it to the display and changes no screen |
| VideoProofs.TickSim | student-distrib/pit.c:52-129 | a tick, with or without a switch, keeps the invariant and every terminal's screen and cursor, also while a terminal that was switched to still waits for its shell |
| Runs.StepSim | student-distrib/pit.c:52-129 | every enabled step keeps the invariant and changes only the running terminal's screen, by what the running program prints or stores |
| Runs.VidmapSim | student-distrib/syscall.c:481-500 | vidmap keeps the invariant and every screen |
| Runs.PokeSim | student-distrib/pit.c:140-160 | a store through the vidmap page shows on the storer's own terminal only, and not at all in the last 96 bytes of the page |
| UserPages.UnaskedStaysUnmapped | student-distrib/syscall.c:481-508 | over any allowed run a terminal whose programs never call vidmap never has a page for them, whatever the others do |
| UserPages.BootPages | student-distrib/terminal_driver.c:126-173 | at the start there is none |
| UserPages.PageFollowsTerminal | student-distrib/pit.c:99-109 | a process that a tick resumes has a vidmap page exactly if its terminal is recorded to have asked, whichever of its processes did |
| UserPages.HaltForgetsIff | student-distrib/syscall.c:111-143 | halt withdraws that record exactly for a program with a parent; a shell leaves it to its successor, which has no page yet |
| Runs.ScreensAreIndependent | student-distrib/pit.c:52-129 | after any run of ticks, switches, writes, vidmap stores, execute and halt, each terminal's screen and cursor are what its own programs' outputs alone make of its first screen |
| Runs.BootInv | student-distrib/terminal_driver.c:126-173 | init_terminals and the first shell establish the invariant; every terminal but the first starts with a cleared screen |
| Runs.FreshTerminalShowsItsText | student-distrib/lib.c:339-427 | all the texts a fresh terminal prints, however many and wherever in a run, are shown at the end as the last rows of their concatenation laid out |
| Limits.ExecuteSoundIff | student-distrib/syscall.c:232-304 | execute keeps the full invariant exactly if no pid leaks and a started program's terminal is the displayed one |
| Limits.BackgroundProgramScrollsDisplay | student-distrib/paging.c:71-98 | a program started in the background scrolls the displayed screen, not its own, with a newline on its last row |
| Limits.BackgroundParentScrollsDisplay | student-distrib/syscall.c:96-154 | so does the parent to which a program returns in the background |
| Limits.FailedLoadScrollsDisplay | student-distrib/syscall.c:232-247 | a load that fails while the program is read leaves the new page directory loaded, so the next newline in the background scrolls the display; one that fails before it leaves the pages alone |
| Limits.TickSoundIff | student-distrib/pit.c:52-129 | a tick keeps the full invariant exactly if no terminal is opened before those below it or without a free pid, and none is left before its shell has started |
| Limits.TickRestoresPages | student-distrib/pit.c:86-113 | a tick that schedules another terminal points its process's VIDEO page, and its vidmap page if the terminal has one, at its output, whatever they led to before |
| Reached.BackgroundExecuteIsReached | student-distrib/syscall.c:232-304 | four events after the start a background shell may execute a program that scrolls the display |
| Reached.BackgroundReturnIsReached | student-distrib/syscall.c:96-154 | and a program may return in the background to a parent that scrolls it |
| Reached.StaleUserPageIsReached | student-distrib/syscall.c:139-143 | a shell that has called vidmap gets a page back from its program that its terminal no longer updates |
| UserPages.InheritedPageIsReached | student-distrib/pit.c:99-109 | a program that never asked has the page four events after the start |
| Reached.UnderflowIsReached | student-distrib/lib.c:373-382 | a fresh terminal in the background has its cursor at (0,0), where a backspace leaves the screen |
| Reached.OutOfTurnIsReached | student-distrib/terminal_driver.c:245-257 | the first switch may open the third terminal, whose shell is then recorded as the second's and prints there |
| Reached.WaitingIsReached | student-distrib/pit.c:52-72 | a terminal may still wait for its shell after the tick that switched to it; a program started then takes it over, and leaving it strands it |
| Screen.PutcShows | student-distrib/lib.c:339-427 | the 25x80 screen stays the last 25 rows of an unbounded document that receives the same byte, unless a backspace asks for a row that has scrolled away |
| Screen.TypedTextIsShown | student-distrib/lib.c:339-427 | after any text of printable characters, newlines and tabs the screen and cursor are exactly the end of that text laid out in rows of 80 |
| Screen.EraseReturns | student-distrib/lib.c:373-382 | a printable character followed by a backspace returns to the same document position, now blank, with at most a fresh row below |
| Screen.EraseOnScreen | student-distrib/lib.c:373-382 | the same on the screen, also across a wrap that scrolled |
| Screen.ScrollShows | student-distrib/lib.c:45-56 | scrolling shows one more blank row of the document |
| Screen.TypeAppend | student-distrib/terminal_driver.c:43-47 | printing two texts is printing their concatenation |
| Text.RowsOfLonger | student-distrib/lib.c:405-424 | wrapping text byte by byte agrees with wrapping it as a whole |
| Kernel.Kernel.TerminalPutc | student-distrib/lib.c:339-427 | the code, through virtual addresses and the page walk, takes exactly the step PutcAt |
| Kernel.Kernel.ScrollUp | student-distrib/lib.c:45-56 | memmove and blanking scroll the page behind VIDEO and touch nothing else |
| Kernel.Kernel.SetScreenXY | student-distrib/lib.c:136-143 | the displayed cursor moves only to a position on the screen |
| Kernel.Kernel.SetTerminalScreenXY | student-distrib/lib.c:152-161 | a saved cursor is refused only for a terminal that does not exist or if both coordinates are out of range |
| Kernel.Kernel.TerminalWrite | student-distrib/terminal_driver.c:29-53 | returns -1 and changes nothing for a null buffer or no bytes, else prints all bytes on the writer's terminal and returns their number |
| Kernel.Kernel.PokeVideo | student-distrib/lib.c:401-403 | a byte stored at a video address lands where the loaded page tables lead |
| Kernel.Kernel.SwitchTerminal | student-distrib/terminal_driver.c:183-197 | nothing for the displayed or a missing terminal, else exactly Restore and then ready and current |
| Kernel.Kernel.RestoreTerminal | student-distrib/terminal_driver.c:207-236 | cursors and screens are exchanged and the running process is left mapped to the old terminal's buffer |
| Kernel.Kernel.CopyScreen | student-distrib/terminal_driver.c:226-230 | 4000 bytes move between two video pages addressed virtually, nothing else changes |
| Kernel.Kernel.NextReady | student-distrib/pit.c:62-66 | the search ends, because terminal 0 stays ready, at the first ready terminal round the ring |
| Kernel.Kernel.Descend | student-distrib/pit.c:87-93 | the walk down the child pointers ends at the last process of the terminal's chain |
| Kernel.Kernel.Remap | student-distrib/pit.c:99-109 | the resumed process's VIDEO page, and its vidmap page if its terminal has one, lead to the terminal's output page |
| Kernel.Kernel.Dispatch | student-distrib/pit.c:62-128 | resumes the next ready terminal's last process or starts its shell; nothing if it is running already |
| Kernel.Kernel.IrqhPit | student-distrib/pit.c:52-129 | the whole interrupt is the step Tick, whichever terminal is asked for |
| Kernel.Kernel.Vidmap | student-distrib/syscall.c:481-508 | -1 and nothing for a pointer below 8 MB, else 160 MB is stored, the owner terminal is marked and the page there leads to its output page |
| Kernel.Kernel.InitTerminals | student-distrib/terminal_driver.c:126-173 | clears the buffers of all terminals but the first, opens the first and starts its shell |
| ProcessProofs.LinksAreInverse | student-distrib/syscall.c:287-300 | parent and child pointers of live processes are inverse to each other and lead to live processes; only roots have parent pid -1 |
| ProcessProofs.OneChainEach | student-distrib/syscall.c:284-300 | the processes of the chains are live and in one place each, so chains are acyclic and disjoint and started terminals have distinct root pids |
| ProcessProofs.RunningIsLeaf | student-distrib/pit.c:87-93 | the running process is live and the last of the scheduled chain |
| ProcessProofs.OwnerOfPid | student-distrib/terminal_driver.c:80-89 | looking up a live pid finds a terminal exactly if it is that terminal's root shell |
| ProcessProofs.ExecuteKeepsProc | student-distrib/syscall.c:219-304 | execute keeps the process invariant unless a pid leaks or a program starts while the displayed terminal waits for its shell |
| ProcessProofs.HaltKeepsProc | student-distrib/syscall.c:96-154 | halt keeps the process invariant if a root halts only while displayed; a restarted root shell takes its terminal again |
| ProcessProofs.TickKeepsProc | student-distrib/pit.c:52-129 | a tick keeps the process invariant, also with a terminal waiting for its shell |
| ProcessProofs.TickRunsLeaf | student-distrib/pit.c:82-99 | after each tick the running process is the childless end of the selected terminal's chain, and the selected terminal is the next ready one |
| ProcessRuns.TableStaysSound | student-distrib/terminal_driver.c:98-117 | after any run from the start in which no pid leaks, no program starts while a terminal waits for its shell, roots halt only while displayed and terminals are opened in turn: pointers are inverse, no process is in two places, and the climb from the running process finds the scheduled terminal |
| ProcessRuns.StepKeepsTable | student-distrib/syscall.c:96-304 | every such step, writes off the screen and background starts and returns included, keeps the process invariant |
| ProcessRuns.StepStarted | student-distrib/syscall.c:111-131 | a started terminal stays started |
| Limits.ExecuteHealthyIff | student-distrib/syscall.c:232-247 | execute leaves a well-formed process table exactly unless loading fails after the pid was taken, or a program starts while the displayed terminal waits for its shell |
| Limits.LeakedPidIsNowhere | student-distrib/syscall.c:232-247 | such a pid stays set although no reading of the pointers gives it a place |
| Reached.LeakIsReached | student-distrib/syscall.c:232-247 | the first command after the start may lose a pid |
| Limits.ProgramTakesTerminal | student-distrib/syscall.c:279-286 | a program started while the displayed terminal waits for its shell is recorded as that terminal's root though another one runs it |
| Limits.HaltHealthyIff | student-distrib/syscall.c:111-133 | halt leaves a well-formed process table exactly unless a root halts while another terminal is displayed |
| Limits.BackgroundRootHalts | student-distrib/syscall.c:114-131 | in that case the displayed terminal is freed instead, and no reading of the pointers is well formed |
| Reached.BackgroundShellIsReached | student-distrib/syscall.c:114-131 | two ticks after the start a shell runs in the background, where it may exit |
| Limits.HaltSoundIff | student-distrib/syscall.c:96-154 | halt keeps the full invariant exactly if the terminal is displayed, and for a child if its parent holds no vidmap page |
| Kernel.Kernel.GetRunningTerminal | student-distrib/terminal_driver.c:98-117 | the climb over the parent pointers ends and returns the terminal whose chain is scheduled |
| Kernel.Kernel.GetTerminalFromPid | student-distrib/terminal_driver.c:80-89 | the first terminal recorded with the pid, or null |
| Kernel.Kernel.NewTerminal | student-distrib/terminal_driver.c:245-257 | takes the first idle terminal for the pid, or none |
| Kernel.Kernel.TakePid | student-distrib/syscall.c:219-230 | the least pid whose bit is clear, whose bit is then set |
| Kernel.FindFree | student-distrib/syscall.c:219-225 | the moving mask finds the least pid not among the set bits |
| Kernel.Kernel.Execute | student-distrib/syscall.c:219-304 | takes exactly the step Execute and reports whether control passed on |
| Kernel.Kernel.Halt | student-distrib/syscall.c:96-154 | takes exactly the step Halt; the terminal is found while the pid is still set |
| PidBits.SetBit | student-distrib/syscall.c:221-222 | setting a pid's bit adds just that pid to the set of live ones |
| PidBits.ReleaseBit | student-distrib/syscall.c:111-112 | clearing it removes just that pid |
| Loading.LoadOfIs | student-distrib/syscall.c:202-247 | for every image and name: what is refused before a pid is taken, what fails after it (no entry point, or not readable as a whole), and what loads |
| Loading.SoundFileLoads | student-distrib/syscall.c:202-247 | a sound file is refused exactly without the magic number, loses a pid exactly if it then ends before the entry point or reaches the bound on reads, and otherwise loads with all its bytes at the load address |
| Loading.ExecuteHealthyIff | student-distrib/syscall.c:202-304 | the process table stays well formed exactly if nothing starts or the file can be read whole and the displayed terminal has its shell |
| RoundRobin.NextIsClosest | student-distrib/pit.c:62-66 | the pick is the ready terminal closest beyond the current one |
| RoundRobin.EveryoneOnceARound | student-distrib/pit.c:62-66 | for any number of terminals, between two picks of one ready terminal every other ready one is picked exactly once and nothing else |
| RoundRobin.TicksFollowRound | student-distrib/pit.c:52-76 | successive ticks select exactly the picks of that round |
| Paging.MappedPageTranslates | student-distrib/paging.c:126-145 | after map_vid_mem every offset of the page leads to the same offset of the physical page, also when the physical address given is not its start, and user code may write there |
| Paging.OtherPagesKeepTranslation | student-distrib/paging.c:126-145 | every other page of any process keeps its translation, unless it shares the table entry or its directory slot led elsewhere |
| Paging.NewTaskTranslates | student-distrib/paging.c:71-98 | a new task sees low memory and the kernel in place, page 0 not at all, and its program in its own 4 MB frame; user code may write all of these, as every entry of the walk says so (PG_4M includes PG_USPACE) |
| Paging.ProgramsAreDisjoint | student-distrib/paging.c:71-145 | after any run of creations, removals and mappings outside the program page, a task's program is in its own frame, open to user code, exactly if it was created and not removed since; programs never meet each other, the kernel or low memory |
| Paging.MemoryStaysOpen | student-distrib/paging.c:71-145 | through any run of those calls, with mappings outside the kernel's slot too, low memory above page 0 and the kernel's frame stay open to user code, and the kernel's frame stays in place |
| Paging.FirstPageIsShared | student-distrib/paging.c:126-145 | a page mapped at the start of any other slot, as vidmap's at 160 MB, appears at address 0 too, which a new task cannot read |
| Paging.Mmu.MakeTaskPgdir | student-distrib/paging.c:71-98 | fails for a pid out of range, else fills the process's table and three directory slots as MakeTask says and loads it |
| Paging.Mmu.MapVidMem | student-distrib/paging.c:126-145 | fails for a pid out of range, else writes one directory and one table entry and reloads |
| Paging.Mmu.RemoveTaskPgdir | student-distrib/paging.c:107-118 | takes only the program page away |
| Memory.MemMove | student-distrib/lib.c:718-735 | for any overlap the destination gets the old source bytes and nothing else changes |
| Memory.MemCopy | student-distrib/lib.c:673-708 | head, words and tail together are a plain byte copy for every length and alignment |
| Memory.MemSet | student-distrib/lib.c:593-626 | for every length and alignment exactly the range gets the low byte |
| Grep.ScanFile | syscalls/ece391grep.c:18-58 | the chunked scan ends and prints exactly the hits of the file, in order, once each, for every NUL-free file; up to a read that fails, a prefix of that |
| Grep.DoOneFile | syscalls/ece391grep.c:9-64 | the whole call, with its output and return values when opening, a read or closing fails |
| Grep.HitsAreMatchingLines | syscalls/ece391grep.c:40-49 | for lines of at most 1024 bytes the hits are the lines containing the pattern exactly if the pattern's first byte is below 128 or nothing matches |
| Grep.RightForAllTextsIff | syscalls/ece391grep.c:40-49 | a pattern is searched for correctly in all such texts exactly if its first byte is below 128 or no line could hold it |
| Grep.HighByteIsMissed | syscalls/ece391grep.c:41-42 | a pattern starting above 127 is missed in a line that contains it |
| Grep.RowsMatchLikeLines | syscalls/ece391grep.c:28-37 | cutting at 1024 bytes and at newlines selects the same lines as cutting at newlines alone |
| Grep.OutputIsLinePerHit | syscalls/ece391grep.c:43-47 | the output read line by line is the hits in order, each behind the file's name and a colon |
| Grep.ScanBuffer | syscalls/ece391grep.c:26-55 | one pass over the buffer prints the complete matching lines and leaves the unfinished one at the start |
| Grep.CarryOver | syscalls/ece391grep.c:31-37 | the unfinished line is moved to the start whole, also where it overlaps itself |
| Grep.SearchLine | syscalls/ece391grep.c:40-49 | whether the terminated line contains the pattern by the program's own test |
| Grep.StrNCmp | syscalls/ece391support.c:31-41 | zero exactly if the pattern lies at that place of the line |
| Grep.CopyDown | syscalls/ece391support.c:14-17 | an overlapping copy to lower addresses moves the string unchanged |
| Blink.AddKeepsListed | fish/blink.S:140-162 | adding puts the entry in front; the list stays acyclic and holds exactly the slots with a location |
| Blink.AddKeepsListedIff | fish/fish.c:155-164 | some list accounts for the pool after an add exactly if the location is not 0 |
| Blink.RemoveKeepsListed | fish/blink.S:206-223 | bypassing and clearing a slot keeps the list acyclic and exactly the slots with a location |
| Blink.RemoveDropsEntry | fish/blink.S:206-223 | the other entries stay, in order |
| Blink.UpdateKeepsListed | fish/blink.S:84-86 | changing countdown and status in place keeps the list |
| Blink.OneList | fish/blink.S:351-379 | the pool determines the list that its links form |
| Blink.FullIffAllUsed | fish/fish.c:155-164 | the search for a free slot fails exactly if the list has used all of them |
| Blink.PoolIsBounded | fish/fish.c:155-164 | over any run of proper calls there are at most 2000 entries |
| Blink.RemoveMakesRoom | fish/blink.S:105-223 | with 2000 entries an add changes nothing, until a remove finds one |
| Blink.LocationZeroBreaksPool | fish/fish.c:157-161 | an entry for location 0 leaves a pool that no list accounts for |
| Blink.LocationZeroTiesKnot | fish/blink.S:140-162 | the next add then gets the same slot and links it to itself, so that no list ends and a tick would not either |
| Blink.FindIsTop | fish/blink.S:351-379 | find answers with the latest unremoved entry for its location, if any |
| Blink.RemovePops | fish/blink.S:187-223 | remove deletes just that one and no entry of another location |
| Blink.LocationsAreStacks | fish/blink.S:105-237 | over any run of adds at locations other than 0, removes and ticks each location is a stack of its own |
| Blink.BlinkIsPeriodic | fish/blink.S:49-90 | countdown and status t ticks after the add in closed form, for every t and all lengths; lengths 0 and above 32768 last one tick |
| Blink.DisplayIsPeriodic | fish/blink.S:49-90 | an entry alone at its location shows its on character exactly if t mod (on+off) is less than on, whatever is added (but at 0), removed and ticked at other locations |
| Blink.OldestTurningIsDisplayed | fish/blink.S:49-99 | of several entries of one location that turn in a tick the oldest is displayed, and where none turns the screen stays |
| Blink.LastCharacterStays | fish/blink.S:187-237 | where no entry is left the last character stays through any calls until the next add there |
| Blink.RemovedCharacterStays | fish/blink.S:187-237 | in particular the character of the entry that was removed |
| BlinkDriver.Driver.Malloc | fish/fish.c:155-164 | a free slot, or none exactly if all 2000 are used |
| BlinkDriver.Driver.Free | fish/fish.c:166 | the slot is zeroed |
| BlinkDriver.Driver.Add | fish/blink.S:105-184 | fails exactly if the location is out of range or all slots are used, else adds in front and displays |
| BlinkDriver.Driver.FindHelper | fish/blink.S:351-379 | the slot of the first entry for the location |
| BlinkDriver.Driver.Find | fish/blink.S:302-349 | the latest entry for the location, or failure |
| BlinkDriver.Driver.Remove | fish/blink.S:187-237 | unlinks and frees the latest entry, or fails if there is none |
| BlinkDriver.Driver.Sync | fish/blink.S:240-302 | lengths, countdown and status are copied from one location's latest entry to another's, and its off character is displayed |
| Blink.SyncedBlinkTogether | fish/blink.S:240-302 | after a sync the two entries are lit and dark at the same ticks for good, each with its own characters, and no other entry has changed |
| Blink.SyncShowsFaceIff | fish/blink.S:275-285 | what sync displays is right exactly in a dark phase or for equal characters |
| BlinkDriver.Driver.Tasklet | fish/blink.S:49-99 | one tick for every entry, front to back, with its stores to the screen |
| FileSystem.BlocksAt | student-distrib/fs.c:213-216 | dividing a position gives the block and offset of that byte in the concatenated blocks |
| FileSystem.ReadIsSlice | student-distrib/fs.c:208-264 | on a sound file a read below the bound returns min(length, size - offset) and exactly those bytes of the concatenated blocks |
| FileSystem.ReadIsSliceOrFails | student-distrib/fs.c:208-264 | whatever is asked, a sound file answers with its own bytes from the offset on or with -1 and nothing |
| FileSystem.ReadSucceedsIff | student-distrib/fs.c:229-259 | a read inside a file succeeds exactly if the bound holds and no slot up to that of the byte after its last is bad |
| FileSystem.BlockBoundaryFails | student-distrib/fs.c:252-259 | a complete one-block file cannot be read to its end unless a second slot is valid too |
| FileSystem.ReadAtTheEdges | student-distrib/fs.c:208-230 | a missing inode cannot be read, and from the end of a file on there is nothing to read, whatever the bound |
| FileSystem.NothingAskedNothingRead | student-distrib/fs.c:229-264 | a length of 0 or with the sign bit set reads nothing, and fails only for the bound or a bad slot at the offset |
| FileSystem.PiecesConcatenate | student-distrib/fs.c:61-75 | positive reads of any lengths return consecutive pieces that concatenate to a prefix of the file |
| FileSystem.LookupIsFirst | student-distrib/fs.c:163-178 | a name stands for its first directory entry |
| FileDriver.Filesystem.ReadData | student-distrib/fs.c:208-264 | result and buffer are exactly those of Read, including what a failing read leaves behind; the rest of the buffer is untouched |
| FileDriver.Filesystem.CopyOut | student-distrib/fs.c:237-263 | the byte loop with its block changes |
| FileDriver.NamesCompared | student-distrib/fs.c:170-171 | the length test and the 32-byte comparison together compare whole names, with or without a terminator in the entry |
| FileDriver.Filesystem.ReadDentryByName | student-distrib/fs.c:163-178 | the first of the 63 entries with the name, used or not |
| FileDriver.Filesystem.FileReadName | student-distrib/fs.c:77-90 | a piece of the named file, all of it for size 0 |
| Strings.StrNCmp | student-distrib/lib.c:748-762 | zero exactly if the first n bytes hold the same string |
| Strings.StrLen | student-distrib/lib.c:580-585 | the number of bytes before the first NUL |
| Strings.StrCpy | student-distrib/lib.c:769-777 | the string and its NUL arrive, nothing else changes |
| Descriptors.AfterAnyCalls | student-distrib/syscall.c:328-450 | after any calls a descriptor is in use exactly if its jump table is set, 0 and 1 are open, and each regular file has returned its first position bytes since it was opened |
| Descriptors.OpenTakesLeast | student-distrib/syscall.c:370-425 | open hands out the least unused descriptor from 2 on, at position 0, with the jump table of the entry's type and a regular file's inode, and touches no other; -1 exactly for an unknown name or type or when all six are taken |
| Descriptors.OpenedFileIsRead | student-distrib/syscall.c:328-425 | a sound regular file that is opened and then read any number of times returns exactly its consecutive pieces from the start, a size of 0 asking for all of it, whatever is opened, closed and read on other descriptors in between |
| Descriptors.ReadsArePieces | student-distrib/fs.c:61-75 | the same from any position on, with the position where the pieces end |
| Descriptors.CloseReleases | student-distrib/syscall.c:434-450 | a close that succeeds leaves the descriptor without a jump table and not in use, so that it can be neither closed again nor read, and all others unchanged |
| Descriptors.OpenCloseRestores | student-distrib/syscall.c:370-450 | an open followed by its close leaves flags and jump tables as before, so the next open of any name answers as it would have |
| Descriptors.DescriptorsAreIndependent | student-distrib/syscall.c:328-450 | calls about other descriptors, even on the same file, leave one untouched |
| Descriptors.StandardStaysOpen | student-distrib/syscall.c:434-437 | no call changes descriptors 0 and 1: a read of either reaches its device at any time, for every size |
| Descriptors.Process.constructor | student-distrib/syscall.c:259-273 | a new process starts with standard input and output |
| Descriptors.Process.Open | student-distrib/syscall.c:370-425 | the descriptors and result are those of WithOpened and Opened, about which OpenTakesLeast and OpenedFileIsRead are |
| Descriptors.Process.Close | student-distrib/syscall.c:434-450 | releases a descriptor from 2 on that is in use and answers 0, else -1 and no change |
| Descriptors.Process.Read | student-distrib/syscall.c:328-339 | fails and changes nothing for bad arguments, else advances a regular file by what it returned |
| Descriptors.Process.ReadFile | student-distrib/fs.c:61-75 | the position advances by the bytes read, and not on failure |
| Keyboard.UpperIffOneOfBoth | student-distrib/keyboard.c:222-282 | a letter is upper case exactly if shift xor caps lock; caps lock changes nothing else |
| Keyboard.HandleEdits | student-distrib/keyboard.c:123-213 | any scancode edits the line by append, dropped at 127, or pop, or not at all, and keeps the rest of the buffer clear |
| Keyboard.IndexStaysInBuffer | student-distrib/keyboard.c:179-195 | the index never passes 128 unless an Enter comes while a full line is waiting |
| Keyboard.SecondEnterIsReached | student-distrib/keyboard.c:179-195 | 127 letters and two Enters from a cleared line get there |
| Keyboard.TypingIsEditing | student-distrib/keyboard.c:123-213 | any sequence of taps, shifts and caps lock leaves exactly the edited text and modifiers |
| Keyboard.LineIsWhatWasTyped | student-distrib/keyboard.c:123-213 | from a cleared buffer, typing up to the first Enter leaves the edited line and its newline within the buffer |
| Keyboard.ReaderGetsTheLine | student-distrib/keyboard.c:44-82 | the reader gets that line cut to the size it asked for |
| Keyboard.ReadClears | student-distrib/keyboard.c:291-303 | after a read the line is empty, the index 0, all 128 bytes NUL and reading off, while the keys held stay as they are |
| Keyboard.EveryLineIsRead | student-distrib/keyboard.c:44-82 | over any number of lines, each typed up to its Enter and read, the i-th read returns exactly the i-th edited line cut to the size asked for |
| Keyboard.TextComesBack | student-distrib/keyboard.c:123-213 | a text struck on the keys that it is engraved on, with shift where needed, is what the reader gets, and the newline |
| Keyboard.EveryCharacterHasItsKey | student-distrib/keyboard.h:30-83 | every printable character is engraved on some key |
| Keyboard.AltAsksForTerminal | student-distrib/keyboard.c:147-160 | exactly F1, F2 and F3 with Alt held ask for a terminal, F1 + t for terminal t, and they leave the line alone |
| Keyboard.HeldCapsLockTogglesIff | student-distrib/keyboard.c:138-145 | caps lock held for n repetitions changes over exactly if it was off or n is 1: every repetition turns it on |
| Keyboard.PrefixedIsSkipped | student-distrib/keyboard.c:123-132 | a scancode behind the multi-byte prefix changes nothing |
| Keyboard.HeldKeysDecide | student-distrib/keyboard.c:160-195 | while backspace is held every other key erases too; Ctrl-L, releases and keys that nobody reads leave the line alone |
| KeyboardDriver.Driver.HandleKeypress | student-distrib/keyboard.c:123-213 | takes exactly the step Handle on the key state and line buffer |
| KeyboardDriver.Driver.IsFuncKey | student-distrib/keyboard.c:325-331 | some function key is down |
| KeyboardDriver.Driver.FindNewline | student-distrib/keyboard.c:22-33 | the first newline, or -1 |
| KeyboardDriver.Driver.BeginRead | student-distrib/keyboard.c:44-57 | does not wait for a null buffer or a size that is not positive, else reading is on |
| KeyboardDriver.Driver.GetLineBuf | student-distrib/keyboard.c:44-82 | -1 and nothing for a null buffer or a size that is not positive, else the line cut to nbytes and its length, one newline behind it, the buffer clear and reading off |
| KeyboardDriver.Driver.ClearLineBuf | student-distrib/keyboard.c:291-303 | all 128 bytes NUL and the index 0, the keys as they were |
| Rtc.AcceptedIff | student-distrib/rtc.c:171-181 | accepted are exactly the powers of two up to the real frequency |
| Rtc.WriteSetsFreq | student-distrib/rtc.c:171-181 | an accepted frequency is the clock's from then on, with a fresh count; a refused one changes nothing |
| Rtc.OneBitIffPow2 | student-distrib/rtc.c:174 | freq & (freq - 1) is zero exactly for a power of two |
| Rtc.FirstFlag | student-distrib/rtc.c:57 | after a reset the flag is set from the (real/virtual)-th interrupt on, and not before |
| Rtc.FirstFlagAfterWrite | student-distrib/rtc.c:171-181 | also without a read, the first flag after an accepted frequency comes with the (real/freq)-th interrupt |
| Rtc.EachStartedOnce | student-distrib/rtc.c:43-58 | each interrupt counts every started terminal's clock exactly once and no other |
| Rtc.ClocksAreIndependent | student-distrib/rtc.c:43-88 | over any run of interrupts, clock calls and kernel steps (ticks, programs that start and end) a started terminal's clock is what its own calls and the interrupts make of it |
| Rtc.ReaderWaits | student-distrib/rtc.c:74-88 | a reader waits exactly (real/virtual) interrupts, whatever the other terminals and the kernel do meanwhile |
| Rtc.WriteSetsTheWait | student-distrib/rtc.c:74-181 | a terminal that has asked for a frequency, and reads at some later time, waits exactly (real/freq) interrupts if it was accepted and as long as before if refused, whatever happens elsewhere in between and meanwhile |
| Rtc.TunedStays | student-distrib/rtc.c:171-181 | the virtual frequency stays a power of two up to the real one through anything that happens to the clock |
| Rtc.Driver.IrqhRtc | student-distrib/rtc.c:43-58 | the pid loop over the clocks of the terminals that the kernel finds |
| Rtc.Driver.RtcRead | student-distrib/rtc.c:74-82 | flag and count are reset, or -1 without a terminal |
| Rtc.Driver.SetVirtualFreq | student-distrib/rtc.c:171-181 | 0 exactly for an accepted frequency, which is then set with a fresh count; else -1 and no change |
| Commands.PartsOfCommand | student-distrib/syscall.c:183-198 | every command is spaces, its name, spaces and its arguments |
| Commands.OnePartition | student-distrib/syscall.c:183-198 | any such partition is that of Name and Arguments: first space-delimited word, and the rest without its leading spaces |
| Commands.BlockHoldsBoth | student-distrib/syscall.c:276-279 | a command whose parts fit with both terminators is found as two strings in the block |
| Commands.ParseCommand | student-distrib/syscall.c:183-198 | the buffer gets name, NUL, arguments and NULs, for every command of which no byte is stored behind the buffer |
| Commands.StrNonSpace | student-distrib/lib.c:566-574 | the first position that holds no space, or the end |
| Commands.GetArgs | student-distrib/syscall.c:460-471 | -1 exactly for a null buffer, a negative size or no arguments, else the arguments and their NUL cut to nbytes |
| Emulate.SpreadIsSplit | syscalls/ece391emulate.c:72-98 | words separated by any number of spaces, with or without a final newline, are found again |
| Emulate.SplitIsSpread | syscalls/ece391emulate.c:72-98 | every command with no newline but a final one is its words with spaces around them |
| Emulate.ArgvIsWordsIff | syscalls/ece391emulate.c:77-96 | the arguments are the command's words, the first with ./ in front, exactly if no space comes first; otherwise the program is ./ alone |
| Emulate.ArgvIsShort | syscalls/ece391emulate.c:65-68 | at most half as many words as bytes, so the 1024 slots are never overrun |
| Emulate.SplitCommand | syscalls/ece391emulate.c:65-98 | -1 exactly for more than 1023 bytes, else each pointer leads to its word as a string in the cut buffer and a null pointer ends the list |
| Emulate.NextWord | syscalls/ece391emulate.c:84-96 | finds the next word and ends it in place, or finds none |
| Emulate.GetArgs | syscalls/ece391emulate.c:126-150 | 0 exactly if the single-space join and its NUL fit, which are then written; nothing behind the size and its spare byte changes |
| Emulate.SplitOfJoin | syscalls/ece391emulate.c:126-150 | splitting the join gives the words back |
| Emulate.SplitJoinSplit | syscalls/ece391emulate.c:72-150 | a command's words survive being joined and split again |
| Numbers.ParseOfItoa | syscalls/ece391support.c:44-75 | the printed string is a numeral without leading zero, and reading it gives the number back |
| Numbers.ItoaOfParse | syscalls/ece391support.c:44-75 | every numeral is printed back from the number it reads as |
| Numbers.ItoaFits | syscalls/ece391support.c:44-75 | 32 digits and a NUL fit every number in every radix |
| Numbers.UserItoa | syscalls/ece391support.c:44-75 | the buffer gets the digits most significant first and a NUL |
| Numbers.StrRev | syscalls/ece391support.c:78-96 | the string at the front is reversed in place |
| Numbers.KernelAgreesIff | student-distrib/lib.c:511-541 | the kernel copy gives the same string exactly below 2^31 or where the last digit is 0 either way |
| Numbers.KernelGoesWrong | student-distrib/lib.c:530 | 0xFFFFFFFF in radix 10 looks up a digit before the table, and 0xFFFFFFF6 prints a wrong one |
| Numbers.KernelItoaInPlace | student-distrib/lib.c:511-541 | the kernel copy in its buffer, or a read outside the table exactly where KernelItoa has no result |

## Left out

- Port I/O, the PIC, PIT and RTC chips, descriptor tables and multiboot: device plumbing.
- Stack switching, `iret` and saved stack pointers: control passes to a process as a step.
- `putc`, `clear`, `printf` and the echo of typed keys: they use the displayed cursor only.
- Signals (`set_handler`, `sigreturn`): unimplemented in the repository.
- `fork`, `execv`, `mmap` and the directory calls around the emulated system calls, and the exit status that execute returns.
- The simple user programs (cat, hello, counter, pingpong, shell, syserr) and the fish animation itself.
- Reading a directory by index: it copies an uninitialised entry at its end.
- A caps lock key that repeats while held, and multi-byte scancodes, within typed lines; the single steps cover them.
- The values that device reads (terminal, clock, directory) return through a descriptor: they are a parameter of the model.
- Spinning loops (`get_line_buf`, `rtc_read`): each is split into what happens before the wait and after it.
- Kernel.Kernel.TerminalPutc: requires a cursor on the screen and no background underflow, because the address a wrapped cursor leads to lies outside the video buffers.
- Kernel.Kernel.TerminalWrite: excludes a text that underflows in the background, for the same reason.
- Kernel.Kernel.Dispatch: does not save stack pointers or switch stacks; control passes as a step.
- Kernel.Kernel.Execute: how loading goes is a parameter, which `Loading` computes from the file system; descriptors and the argument block are in `Descriptors` and `Commands`, stack pointers are left out.
- Kernel.Kernel.Halt: does not close the descriptors, record the exit status or switch stacks.
- Kernel.Kernel.InitTerminals: does not set the line buffers and clocks, which `KeyboardDriver` and `Rtc` start from.
- KeyboardDriver.Driver.HandleKeypress: does not echo or clear the screen, and stands for the terminal that is displayed.
- KeyboardDriver.Driver.GetLineBuf: the wait for a newline is assumed to be over.
- Rtc.Driver.RtcRead: ends where the wait for the flag begins; how long that lasts is `Rtc.ReaderWaits`.
- Descriptors.Process.Read: what a device read returns is a parameter.
- Grep.ScanFile: excludes NUL bytes in the file, which cut its lines short, and reads that are short before its end.
- Commands.ParseCommand: excludes commands of which the code stores bytes behind its buffer.
- Limits.ExecuteSoundIff: the condition names the started terminal's display, not what the new program prints until it is next scheduled.
- ProcessProofs.TickKeepsProc: one direction only; `Limits.TickSoundIff` has both, for the full invariant.
