# A verified model of a small shell and a threaded line pipeline

This project models two C programs in Dafny.

**The shell (Project2/mainSetup.c).**
- `setup` reads one line of at most 80 bytes. It splits the line in place into NUL-terminated words and fills `args` with pointers to them.
- A ring of 10 history slots of 80 bytes is kept with a running count. It supports `add_to_history`, `print_history` and `history -i <index>`.
- A list of background process ids is kept. It supports `fg %<pid>` and the `exit` guard.

**The pipeline (Project3/project3.c).**
- Read threads each fetch line `i` of a file into `lines[i]` and strip its newline. A non-empty line is counted in `totalLines`; an empty one ends the thread uncounted.
- Upper thread `i` upper-cases `lines[i]`, and replace thread `i` turns its spaces into underscores.
- One write thread writes the first `totalLines` rows.
- `main` checks its arguments and converts the thread counts with `atoi`.

**Modules.**

| file | module | contents |
|---|---|---|
| `bytes.dfy` | `Bytes` | the byte type, the ASCII codes the programs test, and C strings (`CStr`) |
| `shell_setup.dfy` | `ShellSetup` | `setup` and the word offsets it records |
| `shell_history.dfy` | `ShellHistory` | class `History` over the `history[10][80]` array |
| `shell_jobs.dfy` | `ShellJobs` | class `BackgroundJobs` over `background_pids[10]` |
| `line_transforms.dfy` | `LineTransforms` | the two byte maps and their algebra |
| `line_pipeline.dfy` | `LinePipeline` | class `LineStore` over `lines[100][1000]`, the per-line thread bodies, and the whole run |
| `pipeline_args.dfy` | `PipelineArgs` | the argument check and `atoi` |

**How the model represents the programs.**
- Pointers into the input buffer become offsets: `Arg = Null | At(offset)`.
- The read() call, the input file and the written output become values.
- The threads of the pipeline run one at a time:
  - the read threads run in the order they take `read_mutex`; the `i`-th to enter takes line `i`;
  - the upper and replace threads run in any order `schedule` of their tasks, one per thread, because `process_mutex` serialises them.
- `ExpectedOutput` gives the output of the whole pipeline.
- The proofs show:
  - the result does not depend on the schedule;
  - every offset `setup` records is the start of a word of the line;
  - with the newline resetting the word start, on a line without '&' or NUL, every argument is one of the words of the line. The program as written does not reset it, and an '&' clears the byte before it, so `ls&` yields the argument `l`.

## Model

| member | source | states |
|---|---|---|
| Bytes.CStrLen | Project3/project3.c:44 | strlen: the index of the first NUL, or the length when there is none |
| Bytes.CStr | Project3/project3.c:122 | the C string at the front of a buffer: the bytes before its first NUL, a prefix with no NUL |
| Bytes.CStrOfTerminated | Project3/project3.c:122 | a string followed by a NUL reads back as itself, whatever follows |
| ShellSetup.Setup | Project2/mainSetup.c:89-157 | end of input exits with 0 and a read error other than EINTR exits with -1, with nothing changed; an interrupted read gives args[0] == NULL; otherwise the buffer holds the line with its separators and each byte before an '&' set to NUL, args holds the recorded word offsets followed by NULL, the other entries are untouched, and background is set exactly when the line holds an '&' |
| ShellSetup.ParseLine | Project2/mainSetup.c:122-153 | the scan over the bytes read, then the closing NULL, leaves the cleared buffer, the offsets followed by NULL in args, the rest of both arrays unchanged, and reports whether an '&' was seen |
| ShellSetup.ParseByte | Project2/mainSetup.c:124-151 | one turn of the switch advances the scan state, args and the buffer by one byte |
| ShellSetup.Blank | Project2/mainSetup.c:125-133 | a blank or tab records the open word and forgets its start |
| ShellSetup.Newline | Project2/mainSetup.c:135-142 | a newline records the open word and writes NULL after it, but keeps the start |
| ShellSetup.WordByte | Project2/mainSetup.c:144-150 | any other byte opens a word when none is open; an '&' clears the byte before it |
| ShellSetup.StepRecords | Project2/mainSetup.c:124-151 | one turn of the switch as a function of the scan state (`Step`): it only appends to the recorded offsets, at most one, and exactly when a separator ends an open word; a blank or tab always leaves no word open, a newline only with the reset |
| ShellSetup.ScanRecordsWordStarts | Project2/mainSetup.c:120-151 | for the scan of a prefix (`ScanOf`, whose recorded offsets are `Tokens` and `TokensResetting`), whether or not a newline resets the start, the open word and every recorded offset start a word, no word is open only at the start or after a separator, and at most one offset is recorded per byte |
| ShellSetup.TokensAreWordStarts | Project2/mainSetup.c:122-153 | every offset args receives, as written or with the reset, is the start of a word of the line |
| ShellSetup.ClearedAt | Project2/mainSetup.c:125-150 | a byte after the pass is either kept or set to NUL, and is never a blank, tab or newline |
| ShellSetup.Cleared | Project2/mainSetup.c:122-151 | the buffer after the pass has the length of the line read |
| ShellSetup.ClearedBytes | Project2/mainSetup.c:122-151 | in the buffer after the pass (`Cleared`) no separator is left and every byte is kept or cleared; on a line without '&' or NUL exactly the separators are cleared |
| ShellSetup.ScanBytes | Project2/mainSetup.c:122-151 | the loop over all bytes read leaves the cleared buffer and the recorded offsets in args, the later entries of args and the rest of the buffer untouched, and reports whether an '&' was seen |
| ShellSetup.ReceiveLine | Project2/mainSetup.c:99-153 | the bytes read land at the front of the buffer, which is then cleared, with args holding the offsets and NULL |
| ShellSetup.SetupResettingOnNewline | Project2/mainSetup.c:135-142 | setup with the newline resetting the word start; every line of at most 80 bytes fits in args, with no bound on its words required |
| ShellSetup.ResettingScanShape | Project2/mainSetup.c:122-151 | the invariant of the resetting scan: the open word, increasing offsets that are exactly the closed words, and at most one word per two bytes |
| ShellSetup.TokensResettingAreClosedWords | Project2/mainSetup.c:122-153 | with the reset, args receives, in increasing order, exactly the starts of the words that a separator ends |
| ShellSetup.TokensResettingBound | Project2/mainSetup.c:164 | with the reset, a line of n bytes yields at most n/2 words, so 80 bytes fit in the 41 entries of args with the NULL |
| ShellSetup.ScanPrefix | Project2/mainSetup.c:122-151 | the offsets recorded after a prefix of the line are a prefix of those recorded for the whole line |
| ShellSetup.AgreeWithoutNewline | Project2/mainSetup.c:135-142 | on bytes without a newline, the scan as written and the resetting scan are the same |
| ShellSetup.OneLineAgrees | Project2/mainSetup.c:135-142 | a single line whose only newline is its last byte is split identically by both scans, and fits in args |
| ShellSetup.RepeatedNewlines | Project2/mainSetup.c:135-142 | a word followed by k newlines: the scan as written records offset 0 k times, the resetting scan once |
| ShellSetup.NewlinesOverflowArgs | Project2/mainSetup.c:164 | one read of 80 bytes ("a" and 79 newlines) makes the scan as written record 79 offsets, more than the 41 entries of args |
| ShellSetup.SecondLineLost | Project2/mainSetup.c:135-142 | for "a\nb\n" the scan as written records offsets [0, 0], so "b" is lost; the resetting scan records [0, 2] |
| ShellSetup.ArgIsWord | Project2/mainSetup.c:125-142 | in a line without '&' or NUL, an offset at a closed word reads, in the cleared buffer, as exactly that word |
| ShellSetup.ArgsAreWords | Project2/mainSetup.c:125-153 | with the reset, every argument of such a line is one of its blank-separated words |
| ShellHistory.Stored | Project2/mainSetup.c:26-27 | what a slot keeps of a command: its C string cut to 79 bytes, with no NUL |
| ShellHistory.SlotOwner | Project2/mainSetup.c:26 | slot j holds the latest command whose number is j modulo 10, and that command is in the listed window |
| ShellHistory.WindowStart | Project2/mainSetup.c:33 | the oldest listed command is never negative and the window up to the newest holds the last min(count, 10) commands |
| ShellHistory.History.constructor | Project2/mainSetup.c:15-16 | the history starts empty |
| ShellHistory.History.AddToHistory | Project2/mainSetup.c:25-29 | the command, cut and NUL-padded, goes to slot count % 10; the count grows by one; every other slot keeps its bytes; the invariant tying the last 10 commands to their slots is kept |
| ShellHistory.History.CopyToSlot | Project2/mainSetup.c:26-27 | strncpy and the explicit terminator leave the slot holding the cut command padded with NULs, and touch no other slot |
| ShellHistory.History.SlotHoldsAdded | Project2/mainSetup.c:26-28 | each of the last 10 commands reads back from its slot |
| ShellHistory.History.PrintHistory | Project2/mainSetup.c:32-37 | the listing has min(count, 10) entries, numbered from 0, holding the last commands oldest first; the newest is last |
| ShellHistory.History.ListedEntry | Project2/mainSetup.c:35 | the printed line for command i carries its number i - start and the command itself |
| ShellHistory.History.CopySlot | Project2/mainSetup.c:54 | strcpy leaves the slot's C string in the buffer and the bytes after its terminator untouched |
| ShellHistory.History.ExecuteHistoryCommand | Project2/mainSetup.c:49-54 | the index is accepted exactly when 0 <= index < 10 and index < count; a rejected index leaves the buffer untouched; an accepted one copies the command held in physical slot index |
| ShellHistory.History.ExecuteListedHistoryCommand | Project2/mainSetup.c:49-54 | the same check, copying the command listed under that number |
| ShellHistory.PhysicalSlotIsListedEntry | Project2/mainSetup.c:32-54 | slot n holds the command listed as n exactly when at most 10 commands were added or their count is a multiple of 10 |
| ShellHistory.ElevenCommands | Project2/mainSetup.c:32-54 | after eleven commands, number 0 lists command 1 while slot 0 holds command 10 |
| ShellJobs.FirstIndex | Project2/mainSetup.c:60-61 | the position of the first entry equal to the pid |
| ShellJobs.SwapRemoved | Project2/mainSetup.c:65 | removal by moving the last entry into the hole: one entry shorter, the prefix kept, the last entry in the hole |
| ShellJobs.SwapRemovedMultiset | Project2/mainSetup.c:65 | the removal takes away one copy of the removed pid and keeps every other pid |
| ShellJobs.BackgroundJobs.constructor | Project2/mainSetup.c:19-20 | no background process is listed at start |
| ShellJobs.BackgroundJobs.Add | Project2/mainSetup.c:263 | a started background process is appended to the list |
| ShellJobs.BackgroundJobs.BringToForeground | Project2/mainSetup.c:59-70 | found exactly when the pid is listed; then its first occurrence is swap-removed and the multiset loses one copy of it; otherwise nothing changes |
| ShellJobs.BackgroundJobs.HandleExit | Project2/mainSetup.c:73-79 | exit goes ahead exactly when no background process is listed |
| LineTransforms.Uppercased | Project3/project3.c:69-73 | same length; each of a..z is lowered by 32, every other byte kept |
| LineTransforms.Underscored | Project3/project3.c:94-98 | same length; each space becomes '_', every other byte kept |
| LineTransforms.UppercasedIdempotent | Project3/project3.c:69-73 | upper-casing twice is upper-casing once |
| LineTransforms.UppercasedHasNoLower | Project3/project3.c:69-73 | no lower-case letter is left |
| LineTransforms.UnderscoredIdempotent | Project3/project3.c:94-98 | replacing twice is replacing once |
| LineTransforms.UnderscoredHasNoSpace | Project3/project3.c:94-98 | no space is left |
| LineTransforms.TransformsKeepCString | Project3/project3.c:69-98 | neither map creates or removes a NUL |
| LineTransforms.TransformsCommute | Project3/project3.c:174-198 | upper then replace equals replace then upper |
| LineTransforms.UpperAfterTransformed | Project3/project3.c:69-73 | the upper step on a line that went through any steps gives the line with the upper step done |
| LineTransforms.ReplaceAfterTransformed | Project3/project3.c:94-98 | the same for the replace step |
| LinePipeline.NewlineSpan | Project3/project3.c:43 | strcspn(s, "\n"): the bytes before the first newline or NUL |
| LinePipeline.Stripped | Project3/project3.c:43 | the line kept of a chunk: a prefix without NUL or newline, ended in the chunk by one of them |
| LinePipeline.ReadLines | Project3/project3.c:31-43 | after r read threads, rows 0..min(r, lines in file)-1 hold the stripped lines of the file |
| LinePipeline.CountNonEmpty | Project3/project3.c:44-50 | totalLines counts at most the lines read |
| LinePipeline.CountNonEmptyAll | Project3/project3.c:44-50 | totalLines equals the number of lines read exactly when none of them is blank |
| LinePipeline.SplitJoined | Project3/project3.c:120-124 | lines without newlines, each written with "%s\n", split back into the same lines |
| LinePipeline.JoinedShape | Project3/project3.c:120-124 | the text written for lines, each followed by "\n" (`Joined`): empty exactly when no line is written, otherwise ending in a newline, with at least one byte per line |
| LinePipeline.JoinedPrefix | Project3/project3.c:120-124 | writing the first n lines writes a prefix of the text for all of them |
| LinePipeline.WrittenPrefix | Project3/project3.c:120-124 | the write thread's output for a smaller totalLines is a prefix of that for a larger one |
| LinePipeline.OutputIsPrefix | Project3/project3.c:44-124 | the program's output (`ExpectedOutput`: the first CountNonEmpty rows transformed and written) is a prefix of the output that counts every line read |
| LinePipeline.LineStore.constructor | Project3/project3.c:11-13 | all rows empty, both counters 0 |
| LinePipeline.LineStore.FGets | Project3/project3.c:35 | one fgets puts the chunk and a NUL at the front of the row and keeps the rest of that row and all other rows |
| LinePipeline.LineStore.FetchLine | Project3/project3.c:34-40 | k+1 fgets calls leave line k of the file in row k, or fail when the file has at most k lines, leaving the last chunk read |
| LinePipeline.LineStore.StripNewline | Project3/project3.c:43 | the line of the row is cut at its first newline |
| LinePipeline.LineStore.ReadLine | Project3/project3.c:31-50 | the thread takes the next index; row index gets the stripped line of the file; totalLines grows exactly when that line exists and is not blank |
| LinePipeline.LineStore.ReadLineCountingBlanks | Project3/project3.c:44-50 | the same, counting every line that exists, blank or not |
| LinePipeline.LineStore.UpperLine | Project3/project3.c:69-73 | the line of row k is upper-cased; the bytes after its NUL and all other rows are unchanged |
| LinePipeline.LineStore.ReplaceLine | Project3/project3.c:94-98 | the line of row k has its spaces replaced; the bytes after its NUL and all other rows are unchanged |
| LinePipeline.LineStore.WriteOutput | Project3/project3.c:120-124 | the output is the first totalLines lines, each followed by a newline |
| LinePipeline.ReadAll | Project3/project3.c:161-171 | after r read threads the rows hold ReadLines(file, r) and totalLines counts its non-blank lines |
| LinePipeline.ReadStep | Project3/project3.c:31-43 | the rows after read thread i extend the lines read by one |
| LinePipeline.ReadNext | Project3/project3.c:161-171 | read thread i keeps the read state |
| LinePipeline.ReadAllCountingBlanks | Project3/project3.c:161-171 | with the corrected read thread, totalLines is the number of lines read |
| LinePipeline.ReadNextCountingBlanks | Project3/project3.c:161-171 | the corrected read thread i keeps the read state |
| LinePipeline.TaskMembership | Project3/project3.c:174-188 | the tasks of the U upper threads are lines 0..U-1, and the same for the P replace threads |
| LinePipeline.ApplyTask | Project3/project3.c:59-98 | the thread of a task rewrites its own line and no other |
| LinePipeline.ScheduleCovers | Project3/project3.c:174-188 | an order of all the tasks contains upper task k exactly when k < U, and replace task k exactly when k < P |
| LinePipeline.ScheduledLine | Project3/project3.c:174-188 | every scheduled task names a row of the store |
| LinePipeline.AppliedNext | Project3/project3.c:174-198 | lines reflecting the tasks done so far reflect one more task after its thread runs, whatever the order |
| LinePipeline.ApplyNext | Project3/project3.c:174-198 | running the next scheduled thread keeps the lines in step with the tasks done |
| LinePipeline.ScheduleDone | Project3/project3.c:174-198 | once all tasks ran, line k is upper-cased exactly when k < U and replaced exactly when k < P |
| LinePipeline.TransformAll | Project3/project3.c:174-198 | for any order of the upper and replace threads, each line k ends up transformed by exactly the steps whose thread count exceeds k |
| LinePipeline.Run | Project3/project3.c:161-210 | the output of the program for any schedule equals ExpectedOutput |
| LinePipeline.RunCountingBlankLines | Project3/project3.c:161-210 | with the corrected read thread, the output equals OutputCountingBlankLines |
| LinePipeline.TransformedKeepsNewlines | Project3/project3.c:122 | neither step creates or removes a newline, so each written line stays one line |
| LinePipeline.OutputLines | Project3/project3.c:120-124 | the output, split into lines, is the first totalLines lines read, transformed |
| LinePipeline.OutputLinesCountingBlankLines | Project3/project3.c:120-124 | with the corrected count, the output split into lines is every line read, transformed |
| LinePipeline.BlankLineLosesLines | Project3/project3.c:44-50 | fewer lines are written than read exactly when a blank line was read; otherwise both outputs agree |
| LinePipeline.BlankLineFileRead | Project3/project3.c:44-50 | "a\n\nb\n" is read as "a", "" and "b", with totalLines 2 |
| LinePipeline.BlankLineExample | Project3/project3.c:44-50 | for "a\n\nb\n" and three threads of each kind, three lines are read and two written; the corrected count writes three |
| PipelineArgs.RunLength | Project3/project3.c:140-143 | the run of leading bytes of one kind that atoi skips or consumes |
| PipelineArgs.Atoi | Project3/project3.c:140-143 | atoi: a negative result needs a '-' in the text, and text without digits gives 0 |
| PipelineArgs.NoDigitsNoValue | Project3/project3.c:140-143 | in text without digits every suffix has leading value 0 |
| PipelineArgs.Decimal | Project3/project3.c:140-143 | the decimal digits of a number, at least one |
| PipelineArgs.DigitsValueOfDecimal | Project3/project3.c:140-143 | the digits of n have value n |
| PipelineArgs.DigitRunStops | Project3/project3.c:140-143 | atoi's digit run stops at the first non-digit |
| PipelineArgs.LeadingValueOfDecimal | Project3/project3.c:140-143 | the leading digits of n's decimal form, followed by a non-digit, have value n |
| PipelineArgs.AtoiNoSpace | Project3/project3.c:140-143 | atoi on text without leading white space reads an optional sign and the digits |
| PipelineArgs.AtoiOfNatural | Project3/project3.c:140-143 | atoi reads back a non-negative number followed by any non-digit text |
| PipelineArgs.AtoiOfNegative | Project3/project3.c:140-143 | atoi reads back a negative number followed by any non-digit text |
| PipelineArgs.AtoiOfDecimal | Project3/project3.c:140-143 | atoi reads back every integer written in decimal |
| PipelineArgs.AtoiReadsDecimal | Project3/project3.c:140-143 | atoi reads back every integer written in decimal with nothing after it |
| PipelineArgs.AtoiSkipsSpace | Project3/project3.c:140-143 | atoi ignores leading white space |
| PipelineArgs.GuardAdmitsMissingCounts | Project3/project3.c:133-143 | the guard as written accepts a 6-argument command line that has no argv[6] or argv[7] |
| PipelineArgs.AcceptedAsWritten | Project3/project3.c:133 | the guard as written lets every complete command line through, and whatever it accepts has "-d" and "-n" in place |
| PipelineArgs.ParseArgs | Project3/project3.c:133-143 | a configuration is returned exactly when there are at least 8 arguments with "-d" and "-n" in place; whatever it accepts the guard as written accepts too; the file name is argv[2] |
| PipelineArgs.ParseCommandLine | Project3/project3.c:133-143 | parsing the command line written from a configuration gives that configuration back |

## Left out

- read(), exit(), fork(), execv(), waitpid(), kill() and the signal handler are left out. The effect of read() is the `ReadResult` parameter of `Setup`. exit is its `Exit(code)` outcome.
- ShellSetup.Setup: a line whose first byte is '&' makes `setup` clear the byte before the buffer, which is undefined behaviour. So `Setup` requires that the first byte is not '&'. It also requires the recorded words to fit in the 41 entries of `args`, since writing past the array is also undefined.
- `execute_history_command` calls `setup` again, and that call reads a fresh line over the copied command. The model stops after the copy.
- `main`'s command loop, the PATH search and the `fg %<pid>` / `history -i` argument parsing are not part of this model. Their effects on the modelled state are:
  - the call to `add_to_history` for every command other than `history`;
  - the append to `background_pids` (`Add`).
- `foreground_pid` and the waiting in `bring_to_foreground` are left out. Only the list update is modelled.
- ShellJobs.BackgroundJobs.Add requires a free entry. The program writes past `background_pids` when more than 10 background processes are started.
- Threads, mutexes and pthread creation are left out. The read threads run in the order they take `read_mutex`. The upper and replace threads run in any order given as `schedule`.
- Only one write thread is created. `writeThreadsNumber` only sizes the array `write_threads` (Project3/project3.c:153), which is never used. The model has a single `WriteOutput`.
- A `writeThreadsNumber` of 0 or less gives that array a size C leaves undefined, and so does a count of 0 or less for the other three arrays (Project3/project3.c:150-152). The model does not capture this.
- printf/fprintf logging of both programs is left out. The file name `deneme.txt` is fixed in the program and `argv[2]` is never used. Both files become values: the input is the sequence of chunks fgets returns, and the output is a byte sequence. A failing fopen is not modelled.
- LinePipeline.IsChunked: lines of 999 bytes or more, which fgets splits into several chunks, are modelled only as the chunks themselves.
- LinePipeline.LineStore.ReadLine states the C string of each row, not the bytes after its NUL.
- LinePipeline.Run requires each thread count to be between 0 and 100. `threadIndex[MAX_LINES]` and the rows overflow beyond 100, and a negative count makes an invalid array size.
- `int` overflow of the counters and of atoi is not modelled. Integers are unbounded.

## Findings

| source | as written | input that shows it | evidently intended | confidence | as-written member | corrected member |
|---|---|---|---|---|---|---|
| Project2/mainSetup.c:135-142 | a newline records the open word but does not reset `start`, so each later separator records the same word again | one read of "a\nb\n" gives args "a", "a"; one read of "a" and 79 newlines records 79 offsets into the 41 entries of args | a newline ends the word like a blank | high, not executed | ShellSetup.Setup, ShellSetup.SecondLineLost, ShellSetup.NewlinesOverflowArgs | ShellSetup.SetupResettingOnNewline, ShellSetup.TokensResettingBound |
| Project2/mainSetup.c:54 | `history -i n` copies physical slot `history[n]`, while `print_history` numbers entries from the oldest of the last ten | after eleven commands, `history -i 0` copies command 11 although the listing shows command 2 as number 0 | run the command listed under number n | medium, not executed | ShellHistory.History.ExecuteHistoryCommand, ShellHistory.PhysicalSlotIsListedEntry | ShellHistory.History.ExecuteListedHistoryCommand |
| Project3/project3.c:44-50 | a read thread that reads a blank line leaves it in its row but does not count it, and the writer writes only the first `totalLines` rows | the file "a\n\nb\n" with three threads of each kind: "A" and "" are written and "B" is lost | every line read reaches the output | high, not executed | LinePipeline.LineStore.ReadLine, LinePipeline.BlankLineExample, LinePipeline.BlankLineLosesLines | LinePipeline.LineStore.ReadLineCountingBlanks, LinePipeline.OutputLinesCountingBlankLines |
| Project3/project3.c:133-143 | the guard accepts 6 or more arguments, but main then reads argv[6] and argv[7] | `prog -d f -n 1 1` (argc 6) passes the guard | require all 8 arguments | high, not executed | PipelineArgs.GuardAdmitsMissingCounts | PipelineArgs.ParseArgs |
