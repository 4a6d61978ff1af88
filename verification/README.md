# A verified model of proto-os

proto-os is a small x86_64 kernel in Rust. This project models its stateful core in Dafny and
proves what the pieces promise, one by one and together.

| file | what it models |
|---|---|
| `TextLayout.dfy` | the meaning of terminal text with no screen: lines, rows of 80, an endless paper roll |
| `Terminal.dfy` | `src/vga_buffer.rs`: the 25x80 grid, lazy wrapping, scrolling, backspace, the cursor registers, searching |
| `Commands.dfy` | the command language of `src/shell.rs`: trimming, splitting, dispatch |
| `LineEditor.dfy` | the line buffer and the lines handed to `execute` |
| `Shell.dfy` | `feed`, the commands, and the agreement of the line buffer with the screen |
| `Dialogue.dfy` | the prompt told in rows: the reply to every command name, what Enter adds to the roll, transcripts |
| `Keyboard.dfy` | `src/keyboard.rs`: shift state, the scancode table, the typing round trip |
| `ScancodeQueue.dfy` | the drop-oldest ring buffer of `src/interrupts.rs` |
| `IdleLoop.dfy` | `src/main.rs` interleaved with the IRQ1 handler: interrupt flag, locks, queue |
| `Kernel.dfy` | queue, decoder and prompt drained together; typed scripts end to end |
| `Frames.dfy` | the boot memory map and the frame allocator of `src/memory.rs` |
| `Paging.dfy` | four-level page tables in physical memory, translation and `map_to` |
| `Heap.dfy` | `map_page`, `init_heap` (`src/allocator.rs`), and whole runs of both |
| `FatalGate.dfy` | `src/panic.rs`: the gate shared by panics and fatal exceptions |

Code that updates things in place (the writer, the line buffer, the ring, the decoder, the
allocator, the mapper, the gate) is a class whose methods are proved equal to functions on
values; the theorems are lemmas about those functions. Message texts, the scancodes that
arrive, the moments interrupts fire, the memory map and the tables set up by the bootloader
are parameters, so every statement holds for all of them.

## Main results

- **Terminal.** In every run of prints, backspaces and clears, the grid is the window on the
  last 25 rows of an unbounded paper roll (`TerminalRefinesPaper`). From a cleared screen, any
  text leaves the last 25 rows of its closed-form layout (`ClearedThenWritten`).
- **Prompt.** In every run, the bottom row left of the cursor is a suffix of prompt + line and
  the rest of it is blank; it shows the whole of prompt + line *if and only if* the line has
  never been longer than 70 bytes since the prompt (`PromptAgreesWithLine`).
- **Dialogue.** In every run the screen is the window on a roll on which Enter breaks the line,
  then come the lines of the reply, then the prompt (`EnterOnRoll`, `SessionOnRoll`). The reply
  follows from the typed text, name by name (`FixedReplies`, `RepeatingReplies`, `FaultReplies`,
  `BlankAndClear`). A script whose lines fit their rows leaves its transcript on the screen,
  from the last `clear` on (`TypedScriptIsShown`).
- **Keyboard.** After any scancode history, a key with two caps gives its upper byte *if and only
  if* the latest event of the left or of the right shift was a make (`KeyGives`). Every printable
  text can be typed, with either shift key for each stroke (`TypingRoundTrip`).
- **Executed lines.** They are a closed-form function of the bytes typed (`EditorClosedForm`)
  and so of the scancodes taken, whatever the batches and the interleaving
  (`ExecutedLinesFromScancodes`). Every script of printable lines whose commands return is
  executed exactly by some run of the interrupted kernel (`SomeRunExecutesScript`).
- **Interrupts.** In every interleaving no context ever tries a held lock and none is stuck
  (`NoContention`); the queue during the sleep is exactly the last 16 arrivals since the drain
  (`QueueWhileAsleep`); no scancode is reordered or unaccounted for (`QueueNeverReorders`), and
  none is lost *if and only if* at most 16 arrive between any two drains
  (`NoLossWhileWindowsFit`). Every interrupt queues its scancode once, in order
  (`EveryInterruptIsQueued`), and the queue changes only under its lock (`QueueIsGuarded`).
- **Frames.** The allocator gives every usable frame, each once, and in the order of the memory
  map (`AllocatorDeliversEachFrameOnce`, `AllocatorDeliversInOrder`).
- **Memory.** For every sequence of `map_page` and `init_heap` calls, translation through the
  tables is the plain map of the pages they added over what was there before
  (`TranslationIsPlainMap`), and the permissions of all other pages are determined too
  (`PermissionsAreOpened`, `PermissionChangesWhen`). Answer, cost and pages left mapped of
  `init_heap` are given in full from the state before it (`InitHeapReport`). From boot, the
  heap's frames are distinct, in usable regions, and no table's (`BootHeapIsUsable`).
- **Fatal events.** However they nest, at most one reaches the screen
  (`AtMostOneReachesTheScreen`). The first to pass the gate is never turned away
  (`FirstIsLetThrough`), and undisturbed it locks the writer within three steps
  (`WinnerGetsThrough`).

## Where code and comments differ

- `src/main.rs:34-37` says that no key is left waiting by the sleep. From the second pass on
  an IRQ1 can fire between the end of `without_interrupts` and `sti; hlt`, and the CPU then
  sleeps on a pending key: `SomeRunSleepsOnAPendingKey` builds such a run, and
  `QueueWhileAsleep` says exactly when it happens.
- `src/shell.rs:86-89` says that Backspace erases the last character. At column 0, which a
  wrapped line leaves behind, the line loses a byte and the screen does not: exactly then
  (`PopWithoutEcho`), and such a state is reached (`LineAndScreenPart`). The terminal's own
  backspace does what `src/vga_buffer.rs:145-147` says: it erases the byte it follows, and does
  nothing on an empty row, so also after newline (`BackspaceErasesLast`). It restores the
  *screen* as it was if and only if the byte did not wrap; after newline, only if the screen
  was cleared (`BackspaceUndoesPut`).
- `src/memory.rs:115-119` lists two errors of `map_page`. There is a third, a huge page on the
  way, and the order matters: an exhausted allocator is reported before a page in the way.
  A page in the way also costs the data frame taken first (`MapPageOutcome`).
- `init_heap` is not all-or-nothing: it leaves its first pages mapped exactly when the first can
  be mapped and the whole heap cannot (`AllOrNothingUnless`, with an instance in
  `HeapCanBeLeftHalfMapped`).
- `map_to` makes the entries above level 1 on the page's walk writable. Other pages keep their
  frames, but become writable exactly when all their read-only entries are among those
  (`PermissionChangesWhen`), and a call that fails does this too (`FailedCallOpensHugePage`).
- The number of bytes `init` reports: over the integers it is the allocatable amount if and
  only if no usable region of the map is inverted (`ReportedBytesAreAllocatable`). In `u64`
  with overflow checks the sum is reached if and only if, besides, the amount fits
  (`CheckedBytesAreAllocatable`); without checks it is the integer sum modulo 2^64
  (`WrappedBytesAreModulo`).

## Model

| member | source | states |
|---|---|---|
| `TextLayout.SplitJoin` | src/vga_buffer.rs:78-97 | the line split used by the layout loses nothing and cuts exactly at newlines |
| `TextLayout.TypingIsLayout` | src/vga_buffer.rs:78-97 | typing byte by byte with lazy wrapping gives the closed form: split at newlines, rows of 80 |
| `TextLayout.TypingKeepsRows` | src/vga_buffer.rs:78-110 | text written later never changes a row already left |
| `Terminal.PutByteRefines` | src/vga_buffer.rs:78-97 | one byte on the grid is one byte on the roll, wrap and scroll included |
| `Terminal.PutStringConcat` | src/vga_buffer.rs:99-110 | writing s then t equals writing s + t |
| `Terminal.BackspaceRefines` | src/vga_buffer.rs:148-162 | backspace on the grid rubs out on the roll, nothing at column 0 |
| `Terminal.TerminalRefinesPaper` | src/vga_buffer.rs:78-162 | in every run of prints, backspaces and clears the grid is the last 25 rows of the roll |
| `Terminal.ClearedThenWritten` | src/vga_buffer.rs:99-143 | from a cleared screen the grid is the last 25 rows of the layout of the sanitised text, column included |
| `Terminal.WindowCells` | src/vga_buffer.rs:78-134 | each of the 25 x 80 cells shows its byte of the last 25 rows of the roll, or a space beyond a row or above the roll |
| `Terminal.ClearedIsSpaces` | src/vga_buffer.rs:126-143 | a cleared screen holds spaces in the writer's colour, and only runs of 1 to 80 spaces are found on it |
| `Terminal.ByteShows` | src/vga_buffer.rs:99-110 | a printable byte shows as itself, newline breaks the row, any other byte shows as 0xfe |
| `Terminal.BackspaceErasesLast` | src/vga_buffer.rs:145-162 | backspace erases exactly the byte it follows, wrapped or not, and does nothing after newline |
| `Terminal.BackspaceUndoesPut` | src/vga_buffer.rs:78-162 | the screen is restored if and only if the byte did not wrap; after newline, if and only if the screen was cleared |
| `Terminal.WrittenTextIsFound` | src/vga_buffer.rs:240-265 | printable text that fits its row is found until its row has scrolled away |
| `Terminal.Writer.constructor` | src/vga_buffer.rs:193-208 | the global writer starts at column 0 over untouched video memory |
| `Terminal.Writer.MoveHardwareCursor` | src/vga_buffer.rs:167-183 | the two register bytes encode the cell of the next byte |
| `Terminal.Writer.ClearRow` | src/vga_buffer.rs:126-134 | one row blank, every other cell unchanged |
| `Terminal.Writer.ScrollUp` | src/vga_buffer.rs:115-121 | each row takes the contents of the one below it |
| `Terminal.Writer.NewLineInPlace` | src/vga_buffer.rs:115-124 | the in-place scroll equals the specification |
| `Terminal.Writer.WriteByte` | src/vga_buffer.rs:78-97 | the in-place write equals the specification and the cursor follows |
| `Terminal.Writer.WriteString` | src/vga_buffer.rs:99-110 | the loop equals writing the sanitised bytes in order |
| `Terminal.Writer.ClearScreen` | src/vga_buffer.rs:137-143 | all cells blank, column 0, cursor follows |
| `Terminal.Writer.EraseLast` | src/vga_buffer.rs:148-162 | the in-place backspace equals the specification |
| `Terminal.Writer.ScreenContains` | src/vga_buffer.rs:248-265 | true exactly when the needle is 1 to 80 bytes and stands unbroken in one row |
| `Commands.OuterSpacesIgnored` | src/shell.rs:117-121 | spaces at the ends of a line do not change its command |
| `Commands.SplitRebuilds` | src/shell.rs:123-126 | name and rest rebuild the line, and the name is one word |
| `Commands.EchoRepeats` | src/shell.rs:117-131 | `echo ` followed by a text yields that text without trailing spaces |
| `Commands.DispatchMatchesTable` | src/shell.rs:19-30 | the names `help` lists are exactly the names the dispatch knows; a blank line does nothing |
| `Commands.CommandsSpelt` | src/shell.rs:19-30 | the seven command names, letter by letter |
| `Commands.FaultsSpelt` | src/shell.rs:199-208 | the five kinds of `falha`, letter by letter |
| `LineEditor.PrintableIsKept` | src/shell.rs:49-56 | printable bytes are kept as typed until 128, the rest refused |
| `LineEditor.BackspaceCancels` | src/shell.rs:49-66 | backspace takes back the printable byte before it if and only if the line held less than 128; else it takes the 128th |
| `LineEditor.OtherBytesIgnored` | src/shell.rs:90-112 | bytes outside printable ASCII and backspace leave the line alone, and so does backspace an empty one |
| `LineEditor.EditorClosedForm` | src/shell.rs:90-112 | executed lines and line buffer are a closed form of the byte history, up to a command that does not return |
| `LineEditor.LineStaysPrintable` | src/shell.rs:72-76 | the line is always printable and at most 128 bytes |
| `LineEditor.PrintableIsUtf8` | src/shell.rs:72-76 | printable contents are UTF-8, so the empty-string fallback is never taken |
| `LineEditor.LineBuffer.constructor` | src/shell.rs:40-45 | an empty line of fixed capacity |
| `LineEditor.LineBuffer.Push` | src/shell.rs:49-56 | appends, or refuses without effect when full |
| `LineEditor.LineBuffer.Pop` | src/shell.rs:60-66 | removes the last byte, or refuses without effect when empty |
| `LineEditor.LineBuffer.Clear` | src/shell.rs:68-70 | empties the line |
| `LineEditor.LineBuffer.AsStr` | src/shell.rs:74-76 | the contents when they are UTF-8, which printable contents are; else the empty string |
| `Shell.CommandsEndAtColumnZero` | src/shell.rs:117-208 | every returning command started at column 0 ends there, whatever it prints |
| `Shell.PrintedLineIsFound` | src/shell.rs:146-148 | a printed line that fits a row is found on the screen |
| `Shell.CommandsShowTheirText` | src/shell.rs:131-148 | the argument of echo and the error for an unknown name appear on the screen |
| `Shell.FeedKeepsCoupling` | src/shell.rs:90-112 | each call of feed keeps the agreement of line, column, row and longest length |
| `Shell.WholeIffColumn` | src/shell.rs:82-112 | the row equals prompt + line if and only if the column is their length |
| `Shell.BootIsCoupled` | src/main.rs:19-22 | the first prompt agrees with the empty line |
| `Shell.PromptAgreesWithLine` | src/shell.rs:82-138 | in every run: suffix and blanks; whole line shown if and only if never past 70 bytes |
| `Shell.PopWithoutEcho` | src/shell.rs:100-104 | the line loses a byte and the screen none exactly at column 0 with a nonempty line |
| `Shell.LineAndScreenPart` | src/shell.rs:100-109 | a run from boot that reaches column 0 with 70 bytes in the line |
| `Shell.HaltedStays` | src/shell.rs:156-158 | after a command that does not return nothing changes |
| `Shell.RunsCompose` | src/main.rs:25-32 | a run of feeds split into batches is the same run |
| `Shell.EchoDoesNotDecide` | src/shell.rs:90-112 | executed lines do not depend on the screen or on message texts |
| `Shell.Prompt.constructor` | src/shell.rs:79-84 | an empty line over the given writer |
| `Shell.Prompt.Boot` | src/main.rs:19-22 | clearing, the welcome lines and the first prompt leave the boot session |
| `Shell.Prompt.PrintAll` | src/shell.rs:140-154 | a series of println calls equals the specification |
| `Shell.Prompt.Execute` | src/shell.rs:117-138 | returns exactly for the returning commands, with their effect on the screen |
| `Shell.Prompt.Feed` | src/shell.rs:90-112 | the in-place step on line, screen and log equals the specification |
| `Dialogue.TrimIsMiddle` | src/shell.rs:117-118 | trimming takes white space off both ends and leaves none there |
| `Dialogue.WordsAreRead` | src/shell.rs:117-126 | between outer spaces, a word and what follows its space are read as name and rest |
| `Dialogue.BlankAndClear` | src/shell.rs:117-130 | a blank line says nothing; the screen is wiped exactly for the name `clear` |
| `Dialogue.FixedReplies` | src/shell.rs:128-134 | `help`, `sobre` and `mem` print their own texts whatever follows; `panic` does not return |
| `Dialogue.RepeatingReplies` | src/shell.rs:128-148 | `echo` prints its rest; a name outside the seven is printed inside the error line |
| `Dialogue.FaultReplies` | src/shell.rs:199-208 | `falha` returns exactly for `breakpoint` and unknown kinds, with the message of each |
| `Dialogue.EnterOnRoll` | src/shell.rs:90-99 | Enter breaks the line first; then the reply, each line ended by a newline, then the prompt; after `clear` the prompt alone; without return nothing more, and the line is kept |
| `Dialogue.ReplyIsRows` | src/shell.rs:90-99 | a reply whose lines fit stands as those rows under the typed line, the prompt below it |
| `Dialogue.EnterShowsRows` | src/shell.rs:90-148 | instances on the screen: echo, a reply of several lines, an unknown name, a blank line |
| `Dialogue.ClearWipes` | src/shell.rs:130-130 | `clear` leaves the window on a fresh roll: only runs of 1 to 80 spaces are found |
| `Dialogue.FeedOnRoll` | src/shell.rs:90-112 | each call of feed does on the screen what it does on the roll |
| `Dialogue.SessionOnRoll` | src/shell.rs:90-112 | in every run of the prompt the screen is the window on the roll and the editor that of the bytes alone |
| `Dialogue.BootOnRoll` | src/main.rs:19-22 | at boot the roll is the welcome lines and the prompt |
| `Dialogue.TypedScriptIsShown` | src/main.rs:19-32 | from boot, a typed script executes its lines and leaves its transcript under the welcome lines, from the last `clear` on |
| `Keyboard.ShiftsTrackKeys` | src/keyboard.rs:13-72 | each shift is held exactly when its own latest event was a make |
| `Keyboard.EmittedBytes` | src/keyboard.rs:78-138 | only backspace, newline and printable ASCII come out |
| `Keyboard.EveryPrintableHasAKey` | src/keyboard.rs:78-138 | the table reaches all 95 printable bytes with plain make codes |
| `Keyboard.KeyIsRecovered` | src/keyboard.rs:84-137 | off the three shift-independent keys, the byte determines key and shift |
| `Keyboard.KeysAreInjective` | src/keyboard.rs:78-138 | equal bytes come from the same key, and the same shift unless it does not matter |
| `Keyboard.UpperRowsSpelt` | src/keyboard.rs:84-108 | the caps of the digit row and the row below it, without and with shift |
| `Keyboard.LowerRowsSpelt` | src/keyboard.rs:110-133 | the caps of the two lower rows, without and with shift |
| `Keyboard.OtherKeys` | src/keyboard.rs:78-138 | backspace, Enter and space ignore shift; the remaining codes give nothing |
| `Keyboard.KeyGives` | src/keyboard.rs:46-72 | after any history a key with two caps gives the upper one if and only if the latest event of either shift was a make |
| `Keyboard.PrintableComesFromItsKey` | src/keyboard.rs:46-138 | after any history exactly one scancode gives a printable byte, and only under the shift state its key needs |
| `Keyboard.TypingRoundTrip` | src/keyboard.rs:46-138 | every printable text has keystrokes, with either shift key for each stroke, that decode to it and release both shifts |
| `Keyboard.Decoder.constructor` | src/keyboard.rs:19-24 | both shifts released |
| `Keyboard.Decoder.Translate` | src/keyboard.rs:46-72 | the in-place decoder equals the specification |
| `ScancodeQueue.OnlyTheOldestLeaves` | src/interrupts.rs:265-286 | pop consumes the oldest; push drops the oldest exactly when 16 are queued |
| `ScancodeQueue.QueueNeverReorders` | src/interrupts.rs:265-286 | for every interleaving: suffix of produced, produced = consumed + dropped + queued, order kept |
| `ScancodeQueue.Ring.constructor` | src/interrupts.rs:256-263 | an empty ring |
| `ScancodeQueue.Ring.Store` | src/interrupts.rs:273-275 | storing at the tail appends and touches no slot in use |
| `ScancodeQueue.Ring.Advance` | src/interrupts.rs:269-272 | moving the head forgets the oldest |
| `ScancodeQueue.Ring.Push` | src/interrupts.rs:268-276 | the ring becomes the last 16 of contents + scancode; tail = head + len mod 16 is kept |
| `ScancodeQueue.Ring.Pop` | src/interrupts.rs:278-286 | gives and removes the oldest, or none |
| `IdleLoop.ConsumeIsDecodeThenFeed` | src/main.rs:27-31 | handling scancodes one by one equals decoding all and feeding the result |
| `IdleLoop.StepKeepsInv` | src/interrupts.rs:228-317 | every step of main flow, handler and interrupt keeps locks, queue and consumer in order |
| `IdleLoop.NoContention` | src/interrupts.rs:223-317 | no lock is tried while held, none is held with interrupts on, nobody is stuck |
| `IdleLoop.QueueWhileAsleep` | src/main.rs:25-39 | asleep, the queue is the last min(16, n) of the n arrivals since the drain; n = 0 the first time |
| `IdleLoop.ExecutedLinesFromScancodes` | src/main.rs:25-32 | decoder, editor and executed lines are a function of the scancodes taken |
| `IdleLoop.BatchingDoesNotMatter` | src/main.rs:25-32 | runs that take the same scancodes end in the same state of decoder and editor |
| `IdleLoop.NoLossWhileWindowsFit` | src/interrupts.rs:265-276 | nothing is dropped if and only if at most 16 scancodes arrive between any two drains; then the executed lines follow from the scancodes produced |
| `IdleLoop.QueueIsGuarded` | src/interrupts.rs:228-317 | the queue changes, or is found empty, only in a step that holds its lock and releases it |
| `IdleLoop.EveryInterruptIsQueued` | src/interrupts.rs:228-243 | in every run the scancodes produced are those of the interrupts, each once and in order, less the one in flight |
| `IdleLoop.WindowStep` | src/main.rs:26-32 | a window ends exactly when the main flow finds the queue empty, holds what was produced in it, and the widest is the greatest |
| `IdleLoop.InterruptIsQueued` | src/interrupts.rs:228-243 | an interrupt queues its scancode under the lock of the queue |
| `IdleLoop.InterruptIsSignalled` | src/interrupts.rs:228-243 | then the PIC is notified under its lock, and interrupts are on again |
| `IdleLoop.HandlerIsAlone` | src/interrupts.rs:223-243 | while the handler runs nothing else can step |
| `IdleLoop.DrainIsAlone` | src/main.rs:26-32 | during a drain only the main flow can step |
| `IdleLoop.DrainCompletes` | src/main.rs:26-32 | a drain ends, with the queue empty and consumed in order, unless a command does not return |
| `IdleLoop.SomeRunSleepsOnAPendingKey` | src/main.rs:34-38 | a run that sleeps with a key in the queue |
| `IdleLoop.TypeWhileAsleep` | src/main.rs:25-39 | scancodes that complete no non-returning command can be typed into the sleeping kernel, one wake-up each |
| `Kernel.TypedLineIsExecuted` | src/shell.rs:86-99 | a printable line of at most 128 bytes, typed with either shift key and entered, is executed as it stands |
| `Kernel.TypedScriptIsExecuted` | src/main.rs:25-32 | consuming a typed script of returning commands executes exactly its lines, in order |
| `Kernel.SomeRunExecutesScript` | src/main.rs:25-39 | for every such script a reachable state of the interrupted idle loop has executed exactly its lines |
| `Kernel.Consumer.constructor` | src/main.rs:16-24 | empty queue, released shifts, empty line |
| `Kernel.Consumer.Handle` | src/main.rs:28-30 | one scancode: decoder, editor and screen equal the specification |
| `Kernel.Consumer.Drain` | src/main.rs:25-32 | the drain loop empties the queue, or stops at a command that does not return; prompt and screen as specified, each feed with its own message texts |
| `Frames.UsableFramesMembers` | src/memory.rs:45-53 | a frame is listed exactly when it lies in a usable region |
| `Frames.UsableFramesDistinct` | src/memory.rs:45-53 | over disjoint regions no frame is listed twice |
| `Frames.UsableFramesInOrder` | src/memory.rs:45-53 | of two listed frames the earlier lies in an earlier region, or lower in the same one |
| `Frames.ReportedBytesAreAllocatable` | src/memory.rs:198-203 | the sum over the integers is 4096 times the frames an allocator can give if and only if no usable region is inverted |
| `Frames.CheckedBytesAreAllocatable` | src/memory.rs:198-203 | in checked u64 the sum is reached if and only if no usable region is inverted and the amount fits, and is then that amount |
| `Frames.WrappedBytesAreModulo` | src/memory.rs:198-203 | in wrapping u64 the sum is the integer sum modulo 2^64 |
| `Frames.AllocatorDeliversEachFrameOnce` | src/memory.rs:62-68 | of the frames a run of calls delivers: each in a usable region, none twice, all eventually, and none stays none |
| `Frames.AllocatorDeliversInOrder` | src/memory.rs:45-67 | of two calls the earlier gives the frame of the earlier region, or the lower one of the same region |
| `Frames.FrameAllocator.constructor` | src/memory.rs:36-41 | a new instance starts at the first frame |
| `Frames.FrameAllocator.AllocateFrame` | src/memory.rs:63-67 | gives the next-th usable frame and always moves on |
| `Frames.FrameAllocator.AllocateMany` | src/memory.rs:62-68 | a run of calls delivers the usable frames in order from the counter on, so two instances over one map deliver the same |
| `Frames.FrameAllocator.NthUsable` | src/memory.rs:45-64 | walking region by region finds the n-th element of the flattened list |
| `Paging.TranslationKeepsOffset` | src/memory.rs:101-110 | translation is the page-to-frame map with the offset kept, huge pages included |
| `Paging.MapFromKeepsTree` | src/memory.rs:125-148 | mapping keeps the tables a tree, and new tables stand in frames just taken |
| `Paging.MapFromHits` | src/memory.rs:138-147 | on success the page leads to its frame, writable at every level, never for user code |
| `Paging.MapFromWrites` | src/memory.rs:112-147 | entry by entry: a free one stays free, or gets the frame, or a link to a new table, both writable and not for user code; any other keeps its frame and user bit |
| `Paging.LookupAgrees` | src/memory.rs:101-110 | a page is open to user code, or writable, if and only if the entries of all levels down to its leaf are |
| `Paging.MapFromOpens` | src/memory.rs:112-147 | the walk of every other page, and on failure of the page itself, is the walk before with the entries shared with the page's walk opened |
| `Paging.OpenedWritable` | src/memory.rs:138-145 | an opened walk is writable exactly when all its read-only entries were opened |
| `Paging.MapFromOutcome` | src/memory.rs:112-119 | the answer and the frames taken follow from where the walk stops |
| `Paging.NeighboursEnd` | src/allocator.rs:15-19 | pages of one last-level table share the walk down to it |
| `Heap.BootIsReady` | src/memory.rs:180-196 | a map with disjoint usable regions that hold no page table satisfies what the memory theorems assume |
| `Heap.TakenIsUsable` | src/memory.rs:45-67 | every frame taken for a page or a table lies in a usable region |
| `Heap.MapPageEffect` | src/memory.rs:125-148 | success adds exactly the page, to a frame taken just now that is no table; failure adds nothing; every other walk is opened along the page's, permissions included |
| `Heap.PermissionChangesWhen` | src/memory.rs:138-145 | a page becomes writable exactly when its read-only entries all stand above level 1 on the walk of the page asked for |
| `Heap.FailedCallOpensHugePage` | src/memory.rs:138-145 | a failing call that makes a read-only huge page writable |
| `Heap.MapPageOutcome` | src/memory.rs:112-148 | success exactly when the page is unmapped and enough frames remain; exact errors and costs |
| `Heap.ChangesTrans` | src/memory.rs:125-148 | changes of consecutive calls add up, frames staying apart |
| `Heap.HeapFromEffect` | src/allocator.rs:44-58 | the loop adds its pages and nothing else, also when it fails, permissions included |
| `Heap.HeapAddedIsPrefix` | src/allocator.rs:44-58 | the pages mapped are the first ones, all 25 exactly on success |
| `Heap.InitHeapReport` | src/allocator.rs:32-69 | answer, frames taken, pages left mapped and their frames, all from the state before the call |
| `Heap.AllOrNothingUnless` | src/allocator.rs:44-58 | all or nothing, except exactly when the first page can be mapped and the whole cannot |
| `Heap.HeapCanBeLeftHalfMapped` | src/allocator.rs:44-58 | a failing call that leaves its first page mapped |
| `Heap.RunChanges` | src/memory.rs:125-148 | every run of calls adds exactly the pages its successes asked for |
| `Heap.PermissionsAreOpened` | src/memory.rs:125-148 | after every run of calls the walk of a page not added is its first walk, opened along the pages asked for |
| `Heap.TranslationIsPlainMap` | src/memory.rs:101-148 | after every run of calls translation is the plain map over the initial translation |
| `Heap.HeapPageRange` | src/allocator.rs:36-42 | the 25 heap pages are those of the first to the last heap byte |
| `Heap.HeapTailReport` | src/allocator.rs:44-58 | once the last-level table stands, each further page costs one frame, up to the first taken page or the last frame |
| `Heap.InitHeapOutcome` | src/allocator.rs:32-69 | Ok exactly when the range is unmapped and 25 frames plus the missing tables remain; takes that many, at most 28 |
| `Heap.HeapIsMapped` | src/allocator.rs:15-58 | heap addresses translate with their offset to distinct frames that are no tables; all others, HEAP_START + HEAP_SIZE included, as before |
| `Heap.BootHeapIsUsable` | src/memory.rs:180-196 | from a boot map with disjoint usable regions holding no table, Ok means 25 distinct frames in usable regions, none a table |
| `Heap.Mapper.constructor` | src/memory.rs:125-133 | a mapper over the active tables |
| `Heap.Mapper.CreateNextTable` | src/memory.rs:145-145 | one level of map_to in place equals the specification |
| `Heap.Mapper.MapTo` | src/memory.rs:138-147 | the four-level descent in place equals the specification |
| `Heap.Mapper.MapPage` | src/memory.rs:125-148 | the in-place map_page equals the specification |
| `Heap.Mapper.InitHeap` | src/allocator.rs:32-69 | the in-place loop with early exit equals the specification |
| `Heap.Mapper.Translate` | src/memory.rs:101-110 | the in-place walk equals the specification |
| `FatalGate.AtMostOneReachesTheScreen` | src/panic.rs:15-47 | for every nesting: at most one locks the writer, the first to swap; the flag stays; a buried winner's screen stays |
| `FatalGate.FirstIsLetThrough` | src/panic.rs:21-47 | the first activation to swap the flag is never turned away, and once it writes or has halted it is the one that locked the writer |
| `FatalGate.WinnerGetsThrough` | src/panic.rs:26-47 | the winner, or a first activation at the gate, locks the writer within three undisturbed steps |
| `FatalGate.LatecomerIsTurnedAway` | src/interrupts.rs:155-168 | an activation at the gate with the flag up halts in two steps without a lock |
| `FatalGate.BuriedStaysBuried` | src/interrupts.rs:155-168 | once another event strikes above the winner the screen is never touched again |
| `FatalGate.Gate.EnterFatalHandler` | src/panic.rs:21-23 | tells whether the flag was set, and sets it |
| `FatalGate.Gate.Activate` | src/panic.rs:26-47 | one activation writes its report on the screen if and only if none came before |
| `FatalGate.Gate.ActivateAll` | src/interrupts.rs:148-221 | of any number of activations only the first shows |

## Left out

- The code of version 0.15 of the `x86_64` crate, whose `map_to` and `translate_addr` the kernel calls, is not part of this model; the tables follow its published behaviour and section 4.5 of volume 3A of the Intel SDM.
- Page-table entries that are neither zero nor present, and a huge page in the level-4 table: the crate panics on both. The first cannot be expressed in the model; the second is excluded by `WellFormed`.
- Virtual addresses are their low 48 bits; the sign extension of canonical addresses, `CR3`, the physical-memory offset and the TLB flush are not modelled.
- The allocator's counter `next`, which would need 2^64 calls to overflow, and `PhysAddr`'s limit of 52 bits.
- The global heap allocator behind the mapped range: it belongs to the `linked_list_allocator` crate.
- Message texts, formatting and the numbers shown by `mem`: parameters of every statement.
- Non-ASCII white space in `trim`: the line is always printable ASCII.
- What the screen shows after a command that does not return: the run ends there, and `FatalGate` says who may still write.
- `falha pagina` is modelled as not returning, which holds while the page after the heap is unmapped; `Heap.HeapIsMapped` says `init_heap` does not map it.
- Locks other than the queue's and the PIC's: `SHIFT`, `LINE`, `WRITER` and `SERIAL1` are never taken by the IRQ1 handler.
- Completion of the fatal handler when the interrupted code holds `WRITER` or `SERIAL1`: the code does not ensure it.
- GDT, TSS, IDT loading, PIC programming, the UART, QEMU exit codes and the test runner: hardware set-up and plumbing.
- The VGA colour enumeration: a colour is one byte, fixed for the writer as in the source.
