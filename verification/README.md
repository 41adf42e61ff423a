# A model of errmark

errmark runs a program under `ptrace`, stops it at every `write()`, has the kernel write
nothing for file descriptors 1 and 2, writes the bytes itself, and puts start and end marks
where the output switches between the two descriptors. This project models that tracer and
the code under it, and proves what a user relies on: the marked output with its marks erased
is the output of the program run by itself.

The imperative code is modelled as imperative code, in classes over a stdio buffer, a
terminal and a kernel (`Stdio.Stream`, `Marks.Marker`, `Tracee.Machine`, `Errmark.Command`)
and in methods with loops over arrays and strings. Each method is proved against a function
or a predicate, and the theorems are lemmas about those.

| file | content |
|---|---|
| Base.dfy | bytes, 64-bit words and their conversions |
| RemoteMemory.dfy | the tracee's memory as PEEKDATA shows it, the word/chars union |
| Stdio.dfy | a buffered stream on a device that is also written directly |
| RemoteRead.dfy, RemoteReadFacts.dfy | `pmem_copy`, `pmem_fwrite`, and what a remote read yields |
| Marks.dfy | the marker, its buffering, mark specifications |
| Runs.dfy, Texts.dfy | the offline specification: maximal runs, bracketed, and their bytes |
| Tracee.dfy | events, registers, the kernel, ptrace requests, and the program run without a tracer |
| Tracer.dfy | one iteration of the wait loop, and runs of it, as functions |
| Errmark.dfy | `guard_ptrace`, `ptrace_cmd`, `errmark_run_program`, the end of `main` |
| LoopFacts.dfy, Endings.dfy | the entry/exit protocol for any failures; when the loop ends, and what an abort leaves |
| LogFacts.dfy, Bracketing.dfy | the log as bracketed runs, and how often the last is closed |
| Arrival.dfy, Transparency.dfy | one traced write, and whole runs, against the direct run |
| LostWrite.dfy | a concrete run in which output is lost |
| Reactive.dfy | tracees that react to the registers they are given back |
| CopyFile.dfy | the copy file |
| Colors.dfy, Terminal.dfy, Painting.dfy, Decoding.dfy | colour table, rendering by a terminal, whole runs on it, reading the output back |
| Tool.dfy | the tool from end to end |
| Visible.dfy | `fshow_str` |

## Premises

* A tracee is a finite sequence of events (a stop on the way into or out of a `write`, any
  other stop, its end), each with a raw wait status, registers, a memory, and an errno for
  every ptrace request made at it. `Tracee.Disciplined` says that a stop whose system call
  number is that of `write` is a write entry or the exit that belongs to it. A sequence may
  stop anywhere, so the statements about runs hold of every state a run reaches.
* The machine is x86-64: `write` is system call 1, words are little-endian, PEEKDATA at an
  unaligned address returns the eight bytes that start there.
* fd 1 and fd 2 of the tracer are one device, and its raw `write()` and `fwrite()` complete.
  The stdio buffer may be written out at any moment (`Stream.Fwrite` chooses how much).
* In the direct run the terminal takes every write to fd 1 or 2 whole.
* Freshly allocated memory holds arbitrary bytes, an input of each event; uninitialised
  locals hold whatever the `stack` argument says.

## Where the code and its description differ

* The usage comment of `parse_mark_specs` shows an end string closed by a separator. The code
  keeps that separator in the end string (`Marks.TrailingSeparatorIsKept`).
* `child_exited` is raised by every request that does not fail with ESRCH, and not by ESRCH.
  It is up in time all the same (`Endings.EsrchEndsTheRun`), but for a child that exits with
  status 0 before its first stop, which is never noticed (`Endings.NeverNoticed`).
* `mark_state` is never reset, so the last end mark is repeated
  (`Bracketing.ProgramIsBracketed`).
* Argument register 3 of a traced write is not given back (`Transparency.Answered`). A tracee
  that does not look at it carries on as it would alone (`Reactive.ReactionsAreUnchanged`).
* A traced write of a buffer that is not mapped, or not all of it, is reported as fully
  written, where the direct run gets EFAULT or a short count. The results agree exactly when
  every traced buffer is mapped, the one exception being an unmapped buffer whose length is the
  code of EFAULT (`Transparency.TracedRunIsDirectRun`, `Transparency.AllTold`).
* `pmem_copy` and `pmem_fwrite` read a word even for a few bytes, so a buffer at an unaligned
  address just before the end of the last mapped page is not read at all, while the tracee is
  told that it was written (`Transparency.PagedRunIsDirectRun`, `LostWrite.LastByteIsLost`).
* With a copy file, bytes that could not be read are replaced by what the buffer held
  (`CopyFile.ShortCopyIsPadded`).
* The exit code is the wait status shifted by eight bits, so a tracee killed by a signal
  yields 0 (`Errmark.Command.Execute`).

## Model

| member | source | states |
|---|---|---|
| Tool.RunColored | src/cmd/errmark.c:143-165 | for every colour name and any buffering, and every program whose requests succeed, whose traced writes arrive and hold no escape sequence, and that ends: the device, read by a terminal, shows the direct output with every fd 2 byte in the colour of that name (red is foreground 1) and every fd 1 byte in the default, ends in the default state, the copy file has exactly the fd 2 bytes, and the exit code is the status / 256 |
| Tool.RunColoredAnyway | src/liberrmark/guard-ptrace.c:31-37 | for any failing requests and payloads free of ESC: when the tool has returned, or aborted with payload still in its buffer, the device leaves the terminal in its default rendition |
| Tool.RunMarked | src/cmd/errmark.c:281-298 | with any marks, on a fresh terminal: the device holds the whole logical log when the tool returns, and when it aborts while the current descriptor's end mark is set; in any case nothing up to the last mark that is set is missing; and the bytes on return are each run between its own marks' texts, with the last end text repeated |
| Transparency.TracedRunIsDirectRun | src/liberrmark/run-program.c:108-209 | with requests that succeed: the marked run with marks erased is the direct run if and only if every write arrives; the kernel adds nothing to fd 1 and 2 and treats other descriptors as in the direct run; registers come back as in the direct run but for a traced write's arg3 and its result, which is always its length and equals the direct result if and only if every traced buffer was mapped, or unmapped with EFAULT's code for its length; the tracee's status is returned |
| Transparency.PagedRunIsDirectRun | src/liberrmark/pmem-fwrite.c:42-63 | in paged memory without faults the marked run with marks erased is the direct run if and only if every traced write is deliverable; without a copy file, if and only if no non-empty traced buffer's head overhangs the last mapped page |
| Transparency.ShownAlone | src/liberrmark/run-program.c:161-179 | the log is what the direct run itself has shown exactly when the run did not end inside a traced write |
| Reactive.ReactionsAreUnchanged | src/liberrmark/run-program.c:162-192 | a tracee whose next event depends on the registers it is given back, but not on a traced write's arg3, and whose traced buffers are mapped, produces the same events and gets the same registers back under the tracer as alone |
| Reactive.IterateFacing | src/liberrmark/run-program.c:108-209 | what the tracer does at an event does not depend on the events after it |
| Arrival.SentIsDue | src/liberrmark/run-program.c:170-180 | the payload put out is what the kernel would have written exactly when the tracer reads as far as the kernel does, or a copied write is mapped whole and old buffer content stands in for what was not read |
| Arrival.PagedRead | src/liberrmark/pmem-fwrite.c:42-101 | in paged memory the tracer reads everything the kernel would, or nothing, and nothing exactly when the head overhangs |
| Arrival.ArrivesInPages | src/liberrmark/run-program.c:170-180 | in paged memory a write arrives exactly when a guard on its address, length and mapping holds |
| Arrival.ReadIsAvailable | src/liberrmark/pmem-fwrite.c:65-101 | what the tracer shows is always a prefix of what the kernel would have written |
| Arrival.DirectResult | src/liberrmark/run-program.c:186-193 | the length that is faked is the direct result exactly when the buffer is mapped, or when the length happens to be the error code of an unmapped one |
| LostWrite.LastByteIsLost | src/liberrmark/pmem-fwrite.c:49-57 | a complete run of one one-byte write: alone the byte appears and 1 is returned, under the tracer nothing appears and 1 is returned |
| Transparency.CleanEntry | src/liberrmark/run-program.c:132-181 | at a write's entry stop, with no failure: the kernel gets the registers with arg3 zeroed if the descriptor is traced and unchanged otherwise, and the log gains exactly that write's payload |
| Transparency.EntryByDescriptor | src/liberrmark/run-program.c:134-181 | in numbers: a write whose first argument is 1 or 2 in its low 32 bits has its length zeroed and its payload put out as that descriptor; any other leaves kernel, log and copy file as they are |
| Base.AsInt | src/liberrmark/run-program.c:134 | the 32-bit signed integer congruent to the register |
| Transparency.CleanExit | src/liberrmark/run-program.c:183-199 | at the exit stop: the return register becomes the original length for a traced descriptor, and no register changes for another |
| Transparency.NullifiedWritesNothing | src/liberrmark/run-program.c:162-164 | whatever the kernel answers, a nullified write puts no byte anywhere |
| Bracketing.EntryFinal | src/liberrmark/run-program.c:157-181 | when setting the registers aborts, or memory runs out, at a write's entry stop, no payload has been put out; otherwise the log is again that of the online marker |
| LoopFacts.IterateFollows | src/liberrmark/run-program.c:127-200 | for any event and any failing request: the toggle is up exactly inside a write and the noted fd, address and length are then those of that very call; a gone tracee ends the loop with its status; once going on, `child_exited` is set |
| LoopFacts.StatusDecides | src/liberrmark/run-program.c:111 | in numbers: the statuses 0x057f and 0x117f keep the loop going, and a stop of them that is not at system call 1 is passed over and the tracee resumed; any other status but 0 ends the run with that status |
| LoopFacts.FailuresAreNoticed | src/liberrmark/run-program.c:122-208 | if the loop goes on after a stop, GETREGS succeeded, and SETREGS, made at both stops of a traced write and on the way out of any write, and the request to resume succeeded or said ESRCH |
| Tracee.LiveStatuses | src/liberrmark/run-program.c:111 | of the stop signals below 256 exactly 5 and 17 keep the loop going, whatever the status holds above its low 16 bits |
| Bracketing.IterateMarks | src/liberrmark/run-program.c:157-181 | for any event but a traced write that the marker ignores, and any failing request, the log stays that of the online marker, or is closed as often as it should be |
| LoopFacts.LoopFollows | src/liberrmark/run-program.c:108-209 | over whole runs of any length: as long as the loop goes on every event has been consumed with the protocol kept, and `child_exited` is up after the first |
| Bracketing.ProgramIsBracketed | src/liberrmark/run-program.c:111-120 | for any events and failures, no traced write being ignored by the marker, the log is every maximal run bracketed; the last end mark is emitted twice in all for status 0 and three times otherwise, once when a request aborts, and never without a traced write |
| Bracketing.ProgramText | src/liberrmark/mark-write.c:140-200 | the same in bytes for every table of marks: each run stands between the start and the end text of its own descriptor, and the last end text follows once or twice more |
| Texts.BracketedText | src/liberrmark/mark-write.c:140-200 | the bytes of bracketed runs are start1, payloads, end1 for fd 1 and start2, payloads, end2 for fd 2, run after run |
| Bracketing.NoMemoryNoPayload | src/liberrmark/run-program.c:173 | without memory for a copied payload the tool ends before anything of it is put out or copied |
| Bracketing.IgnoredWriteIsUnmarked | src/liberrmark/mark-write.c:205-207 | a traced write with NULL buffer or length (size_t)-1 is shown with no switch and leaves the current descriptor alone, the first one included |
| LogFacts.MarkingAborts | src/liberrmark/guard-ptrace.c:27-37 | a failed request aborts if and only if it is not ESRCH, closing the open run once; any other outcome leaves the log alone |
| LogFacts.PrimedAborts | src/liberrmark/guard-ptrace.c:31-37 | aborting between the start mark and the payload closes the run just opened |
| Endings.LoopEndsExactlyWhen | src/liberrmark/run-program.c:122-125 | a finite program whose first registers can be read ends the loop if and only if it has not gone with status 0 before its first stop |
| Endings.EndingStops | src/liberrmark/run-program.c:111-125 | whatever requests fail, a program the tracer has heard from ends the loop |
| Endings.NeverNoticed | src/liberrmark/run-program.c:109-125 | a child gone with status 0 before any stop keeps the loop going however often wait() is repeated |
| Endings.EsrchEndsTheRun | src/liberrmark/run-program.c:122-125 | whatever else fails, no run gets past an event after the first at which GETREGS says ESRCH: the flag is up by then |
| Endings.AbortEndsWithMark | src/liberrmark/guard-ptrace.c:31-37 | when a request aborts the run, the log ends with the end mark of the run that was open |
| CopyFile.CopyIsProjection | src/liberrmark/run-program.c:170-177 | for any events and failures the copy file is the concatenation of the fd 2 payloads of the log, without marks |
| CopyFile.CopyIsDirect | src/liberrmark/run-program.c:170-177 | if every write arrives the copy file is what the direct run writes to fd 2 |
| CopyFile.ShortCopyIsPadded | src/liberrmark/run-program.c:173-176 | a copied payload has the full length, is padded with the buffer's old content after the bytes read, and equals the payload without a copy file exactly when the read was complete |
| Errmark.Command.PtraceCmd | src/liberrmark/run-program.c:95-222 | the wait loop, for all events and any buffering, computes the run of the specification, keeping device plus pending buffer equal to the log and every set mark on the device |
| Errmark.Command.WriteStop | src/liberrmark/run-program.c:127-200 | one write stop, in or out, takes tracer and kernel to the specified state |
| Errmark.Command.EnterWrite | src/liberrmark/run-program.c:151-181 | open, mark, disarm, set registers, emit: in this order, and stopping at an abort |
| Errmark.Command.EmitPayload | src/liberrmark/run-program.c:170-180 | either payload path leaves device plus pending buffer equal to the log, and the copy file equal to what was copied |
| Errmark.Command.GuardPtrace | src/liberrmark/guard-ptrace.c:6-39 | flag, close and abort as specified; the register buffer is untouched by a failed request |
| Errmark.Command.RunProgram | src/liberrmark/run-program.c:224-252 | resets the state, runs the loop, closes once more when marks were opened |
| Errmark.Command.Execute | src/cmd/errmark.c:297-298 | on exit the device holds exactly the log's bytes and the copy file its own; on abort() the device holds the log at least up to the last mark that is set, and all of it if that mark comes last |
| Marks.Marker.BeforeWrite | src/liberrmark/mark-write.c:202-214 | the marks of a switch land on the device after everything written or buffered before |
| Marks.Marker.SwitchFromFd | src/liberrmark/mark-write.c:180-189 | the end mark of the descriptor, if any, comes after all earlier bytes |
| Marks.Marker.SwitchToFd | src/liberrmark/mark-write.c:191-200 | likewise the start mark |
| Marks.Marker.WriteStartStdout | src/liberrmark/mark-write.c:140-148 | flush, then raw write: the device holds all earlier bytes and then start1, if that is set |
| Marks.Marker.WriteEndStdout | src/liberrmark/mark-write.c:150-158 | likewise for end1 |
| Marks.Marker.WriteStartStderr | src/liberrmark/mark-write.c:160-168 | likewise for start2 |
| Marks.Marker.WriteEndStderr | src/liberrmark/mark-write.c:170-178 | likewise for end2 |
| Marks.Marker.MarkClose | src/liberrmark/mark-write.c:239-243 | emits the current descriptor's end mark and forgets nothing |
| Marks.Marker.SetMark | src/liberrmark/mark-write.c:121-138 | installs marks for fd 1 or 2, leaves the other's alone, refuses any other fd |
| Marks.Marker.ParseMarkSpecs | src/liberrmark/mark-write.c:37-119 | the pointer-advancing parser accepts and installs what the grammar of specifications says |
| Marks.SpecRoundTrip | src/liberrmark/mark-write.c:48-119 | fd sep start sep end parses to exactly (start, end) for that fd, for any end, and leaves the other fd alone |
| Marks.ParseAccepts | src/liberrmark/mark-write.c:53-64 | exactly the specifications that start with the digit 1 or 2 are accepted, for that descriptor; a lone digit and a rejected specification change no mark |
| Marks.ParseInverts | src/liberrmark/mark-write.c:48-119 | every accepted specification of two or more characters is rebuilt from its parse in one of the two forms |
| Marks.TrailingSeparatorIsKept | src/liberrmark/mark-write.c:79-81 | the strip of a trailing separator never fires: the parsed end is the stripped end exactly when there is none |
| Runs.OnlineIsOffline | src/liberrmark/mark-write.c:180-243 | before_write and payloads over any writes on any descriptors, then one close, are every maximal run bracketed |
| Runs.CutIsMaximal | src/liberrmark/mark-write.c:209-213 | cutting whenever the descriptor changes gives maximal runs, and the current descriptor is the last run's |
| Runs.MaximalRunsAreCut | src/liberrmark/mark-write.c:209-213 | maximal runs are unique |
| RemoteRead.PmemCopy | src/liberrmark/pmem-copy.c:23-102 | head, body and tail return, peek and store what the word-by-word specification says; the rest of the buffer is untouched |
| RemoteRead.PmemFwrite | src/liberrmark/pmem-fwrite.c:27-105 | the same result, peeks and bytes as pmem_copy for every memory, length and failure, appended to the stream; flushed on full success |
| RemoteReadFacts.ReadShowsMemory | src/liberrmark/pmem-copy.c:55-59 | whatever is read is the tracee's memory from the start of the region, at most the length asked for |
| RemoteReadFacts.ReadEnds | src/liberrmark/pmem-copy.c:46-54 | a read either gets everything or stops at the first failing peek, at the address after the last byte read; the result is the count for errno 5 after progress, and -1 for any other errno or without progress |
| RemoteReadFacts.EmptyRead | src/liberrmark/pmem-copy.c:38-59 | an empty range at an unaligned address is peeked at once, with -1 if that fails, and at an aligned one not at all |
| RemoteReadFacts.NonNegativeResult | src/liberrmark/pmem-copy.c:48-53 | a result r >= 0 counts the bytes stored, and r < len only if the peek at raddr + r failed with EIO |
| RemoteReadFacts.PeeksAreExact | src/liberrmark/pmem-copy.c:38-99 | one peek per aligned word touched, ascending, all aligned but possibly the first |
| RemoteReadFacts.MappedRegionIsReadWhole | src/liberrmark/pmem-copy.c:38-99 | a mapped region in paged memory is read whole if and only if its head does not overhang; otherwise the result is -1 and nothing is read |
| RemoteReadFacts.AlignedWordIsWhole | src/liberrmark/pmem-copy.c:65-81 | an aligned peek cannot straddle pages |
| RemoteReadFacts.CompleteReadIsTheRegion | src/liberrmark/pmem-copy.c:101 | a complete read is exactly the mapped region |
| RemoteMemory.UnionRoundTrip | src/liberrmark/pmem-copy.c:26-29 | a peeked long read back as chars gives the tracee's eight bytes |
| RemoteMemory.PeekIsExact | src/liberrmark/pmem-copy.c:45-47 | the error test holds exactly when ptrace failed; otherwise the union holds memory |
| RemoteMemory.AllOnesIsNotAnError | src/liberrmark/pmem-copy.c:47 | a mapped word of eight 0xff bytes reads as -1 and is accepted |
| Colors.LookupColor | src/libcscript/lookup-color-name.c:53-79 | black, red, green, yellow, blue, magenta, cyan and white, plain or with "bright-", and no other names are known, and each gets the bytes ESC [ 0 or 1 ; 3 n m with its own n, and ESC [ m |
| Colors.LiteralNames | src/libcscript/lookup-color-name.c:26-48 | the names in the order of their SGR colours |
| Colors.OptColor | src/cmd/errmark.c:143-165 | a known colour is installed for fd 2 only, an unknown one changes nothing |
| Terminal.RenderEscStart | src/libcscript/lookup-color-name.c:26-48 | every start sequence of both tables selects its colour from any rendition |
| Terminal.RenderEscEnd | src/libcscript/lookup-color-name.c:26-48 | the end sequence returns to the default rendition |
| Terminal.PictureIs | src/libcscript/lookup-color-name.c:26-48 | bytes of fd 1 are pictured in the default rendition and bytes of fd 2 in the foreground and weight chosen |
| Terminal.RenderOnline | src/liberrmark/mark-write.c:202-214 | after any writes, what is shown so far is right and the rendition is that of the current descriptor |
| Painting.ProgramRenders | src/liberrmark/mark-write.c:160-214 | at any point of any run, failures included, with payloads free of ESC: every byte put out is shown in its descriptor's rendition, in order and nothing besides; the terminal is in the current descriptor's rendition while the run goes on and in the default once it has returned, despite the repeated end marks, or aborted |
| Painting.DeviceIsRestored | src/liberrmark/mark-write.c:140-178 | the same rendition on the device itself, whatever part of the payload is still buffered |
| Painting.ColoredDirectRun | src/cmd/errmark.c:143-165 | for payloads free of ESC that arrive, the picture on the terminal is the direct run's output, coloured |
| Decoding.DecodeInvertsMarking | src/liberrmark/mark-write.c:160-214 | for payloads free of ESC the output up to the first close decodes to its maximal runs, up to empty fd 1 runs at the ends |
| Decoding.UniquelyDecodable | src/liberrmark/mark-write.c:160-214 | two such outputs are equal if and only if the runs are, up to those empty runs |
| Decoding.OutputDecodes | src/liberrmark/run-program.c:211-213 | the output of a program that has returned starts with a text that decodes to its runs, and only repeated end marks follow |
| Visible.ShowCharR | src/libcscript/show-char.c:55-75 | the buffer holds the representation as a C string of the returned length, or the call aborts for want of room |
| Visible.FshowStr | src/libcscript/fshow-str.c:44-55 | the stream gains the representations of all characters in order |
| Visible.EscapedIsPrintable | src/libcscript/show-char.c:66-73 | everything shown is printable, one to four characters each |
| Visible.ShownCharIs | src/libcscript/show-char.c:66-73 | the characters 32 to 126 stand for themselves, and any other becomes a backslash, an x and two lower-case hexadecimal digits |
| Visible.EscapingIsFaithful | src/libcscript/show-char.c:66-73 | the string can be read back if and only if it holds no literal escape of an unprintable character; otherwise another string is shown the same |
| Visible.NoBackslashIsFaithful | src/libcscript/fshow-str.c:51-54 | on strings without a backslash escaping is injective and inverted by the decoder |
| Visible.BackslashConfuses | src/libcscript/show-char.c:66-70 | a concrete pair of strings shown alike |

## Left out

- `fork`, `execvp`, `wait` and `ptrace` themselves: their effects are the event sequence, the register file, the memory and the errno of each request.
- Signal delivery, untraced grandchildren and threads; a stop other than SIGTRAP or SIGCHLD ends the loop with its status, as in the code.
- A signal-delivery stop whose stale system call number is that of `write`: the code cannot tell it from a write stop, and `Tracee.Disciplined` excludes it.
- Debug and verbose output, `sleep`, `trace_fbt`, the usage and version texts and the getopt loop of src/cmd/errmark.c.
- The errno, signal and message tables, `explain_err`, `fshow_errno`, `fshow_wait_status`, `set-print-fh`, `sname` and `fshow_str_array`: lookups and plumbing.
- Short or failing raw `write()` and `fwrite()` of the tracer, whose results the code ignores.
- Separate devices for fd 1 and fd 2.
- i386, where `write` has another number and words are four bytes.
- Bytes of 0x80 and above in `fshow_str`, which are negative as signed chars.
- Bracketing.ProgramIsBracketed: assumes that the marker ignores no traced write (NULL buffer or length (size_t)-1); `Bracketing.IgnoredWriteIsUnmarked` says what the code does with one.
- Decoding.OutputDecodes: likewise.
- Painting.ProgramRenders: assumes payloads without ESC, since a payload may itself change the rendition, and none at all for a write that the marker ignores, since such a payload takes the rendition of the run going on.
- Decoding.DecodeInvertsMarking: assumes payloads without ESC, since a payload may itself hold a mark.
- Reactive.ReactionsAreUnchanged: a tracee sees the registers with which it comes out of its writes; memory it shares with others, time and its other system calls are part of its behaviour, not of the tracer.
- Visible.ShowCharR: does not cover characters of 0x80 and above, for the same reason as above.
- Visible.FshowStr: likewise.
