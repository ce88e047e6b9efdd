# Verified models of the protocol and data-structure code

This project models, in Dafny, the code of the repository that keeps several copies of something equal,
manages memory, or runs a protocol, and proves what that code is meant to keep.

- **The document mirror of clewn** (`netbeans.c`): a linked list of lines that must stay equal to the text
  the editor holds, changed at byte offsets and by three commands that also send edits to the editor
  (`LineSpec`, `LineList`, `EditorLink`, `MirrorSync`, `MirrorCommands`), and whole runs of those commands and
  of the editor's events from the opened buffer (`MirrorRuns`); the quoting of strings (`Quoting`), the splitting of the stream into
  messages (`Framing`), and the table of buffers (`BufferTable`).
- **The object stack** (`obstack.c`, `obstack.h`): chunks of memory with one growing object, on a model of
  memory as a map from addresses to bytes (`ObstackModel`, `ObstackAllocator`, `ObstackRuns`).
- **Breakpoints** (`gdb_lvl3.c`, `clewn.c`): nodes move between two lists while the editor's signs are kept
  in step, each breakpoint with sign types of its own (`BreakpointSpec`, `BreakpointTheorems`, `BreakpointSigns`,
  `Breakpoints`).
- **Variable objects** (`gdb_lvl3.c`): one GDB command at a time over a list that shrinks (`VarObjects`), and which
  commands an object calls for (`VarTalk`).
- **The out-of-band engine** (`clewn.c`): a table of functions asked, fed and completed in turn, with a trace
  of the calls (`OobEngine`).
- **The address book** (`addressbook.pb.cc`): two serialisers, a size computation, a parser and a merge
  (`WireFormat`, `AddressBookSpec`, `AddressBookTheorems`, `AddressBookReading`, `AddressBookSizes`,
  `AddressBookMessages`), with the
  cached size that every message keeps for its length prefix. The primitives follow the
  Protocol Buffers "Encoding" documentation, sections "Base 128 Varints", "Length-Delimited Records" and
  "Last One Wins".
- **The mtab lock** (`mtab.c`): any number of processes, one step at a time, with signals (`MtabLock`).
- **The prompt matcher of sshpass** (`main.c`): a search that falls back to the start (`PromptMatcher`).

Code that works in place is a class with the same fields, and each method is proved against a function;
the theorems are lemmas about those functions. `dafny verify dfyconfig.toml` checks everything.

## What the proofs turned up

- `cnb_append` on a buffer with one non-empty line of other text puts the new line after it in the mirror, but
  before it in the editor. On a cleared buffer, where the editor shows one empty line and the mirror has none,
  an empty row gives the editor one line more than the mirror (`MirrorSync.AppendKeepsInStep`). The next
  `cnb_clear` hides a wrong order (`MirrorRuns.ClearHidesBadAppend`).
- Of what is typed and erased in the editor, the mirror does not follow a range over several lines, text that mixes
  a newline with something else, a newline at the end of a non-empty last line or into a cleared buffer, or an only
  line erased with its newline. A new last line comes in two events, with the mirror ahead in between
  (`MirrorRuns.LineTypedAtEnd`). The editor is in step all along exactly when nothing in the run is of these kinds
  (`MirrorRuns.RunInStep`).
- A message too long for the line buffer is dropped without notice while the mirror is changed all the same
  (`MirrorSync.ReplaceKeepsInStep`).
- `unquote` fails on an unclosed string but leaves what it read in the growing object, where it comes in
  front of the next string (`Quoting.Scratch.UnquoteString`).
- The comment above `lock_mtab` says that the lock file is removed if a signal is caught. The handler only
  exits; the callers register `unlock_mtab` with `atexit` (`GetOsVersion/winexe-1.00/client/mount.cifs.c:1625`, `umount.cifs.c:157` beside it).
  Even so a signal between `link()` and the flag leaves the file (`MtabLock.SignalLeavesLockIff`), and one
  between the unlink and the clearing of the flag removes somebody else's lock
  (`MtabLock.CutUnlockBreaksExclusion`, `MtabLock.CutUnlockLetsTwoIn`).
- `lock_mtab` can fail and keep the lock: link() succeeded and open() then failed. The flag stays set and the lock
  file in place, until `unlock_mtab` runs as the exit handler, and another call returns 0 at once
  (`MtabLock.FailedCallKeepsLock`, `MtabLock.IdleOwnsLockIff`, `MtabLock.Mounter.LockMtab`).
- A prompt given to sshpass that is not of the kind named in `PromptMatcher.ReportsExactly` can be missed, and
  sshpass then goes on waiting (`PromptMatcher.JudgesExactly`).
- A chunk is not refused when it is too small to hold the alignment of its first object; the object stack is
  then unsound from the start (`ObstackAllocator.Obstack.Begin`).
- A table of GDB's that reports a new breakpoint twice would give two records (`BreakpointTheorems.Reconciled`).
- A quit annotation inside an out-of-band cycle completes a reply more than once, and a query annotation
  there can lose one (`OobEngine.QuitCompletesTwice`, `OobEngine.QueryLosesReply`).
- GDB's first prompt starts an out-of-band cycle although no command is in progress. `OS_CMD` is clear in it, so
  the user's first command is accepted at once and the reply then outstanding is lost
  (`OobEngine.StartUpLosesReply`).

## Model

| member | source | states |
|---|---|---|
| `LineSpec.InsertRefinesText` | GDB/clewn-1.15/netbeans.c:2393-2526 | for every list of lines and every offset inside the text, an insertion in the mirror is the same insertion in the flattened text if and only if it is not a newline at the end of a non-empty last line and not text mixing a newline with something else; those two leave the mirror alone |
| `LineSpec.RemoveRefinesText` | GDB/clewn-1.15/netbeans.c:2529-2609 | a deletion in the mirror is the same deletion in the text if and only if the range is empty, inside one line, or exactly one line with its newline; every other range leaves the mirror alone |
| `LineSpec.InsertOutside` | GDB/clewn-1.15/netbeans.c:2393-2526 | an insertion at an offset outside the text opens a new last line |
| `LineSpec.LocateInside` | GDB/clewn-1.15/netbeans.c:2363-2388 | an offset is found in some line exactly when it is inside the flattened text |
| `LineSpec.LocateUnique` | GDB/clewn-1.15/netbeans.c:2363-2388 | the line found is the only one that holds the offset |
| `LineSpec.CutInThreeSteps` | GDB/clewn-1.15/netbeans.c:2465-2479 | the recursive split (take the tail off, end the line, put the tail back one further) cuts the line in two, also on the last line, where the inner newline is dropped |
| `LineList.Document.LineGet` | GDB/clewn-1.15/netbeans.c:2363-2388 | the loop returns the link to the line that holds the offset and that line's start, or the last link and no line |
| `LineList.Document.LineInsert` | GDB/clewn-1.15/netbeans.c:2393-2526 | on the linked list: the new lines are the specified insertion; chain, cached lengths and newline-freedom are kept; terminates although it calls itself |
| `LineList.Document.InsertNewline` | GDB/clewn-1.15/netbeans.c:2417-2481 | the branch for a lone newline, in front of, inside, or behind a line |
| `LineList.Document.BreakLine` | GDB/clewn-1.15/netbeans.c:2434-2480 | a newline behind the first character of a line: splits it, opens an empty line behind it, or is ignored at the end of the buffer, as specified |
| `LineList.Document.InsertText` | GDB/clewn-1.15/netbeans.c:2483-2522 | the branch for newline-free text, on a missing line, a line without a string, or inside a string |
| `LineList.Document.SplitLine` | GDB/clewn-1.15/netbeans.c:2465-2479 | a newline in the middle of a line, through the three recursive calls |
| `LineList.Document.LineRemove` | GDB/clewn-1.15/netbeans.c:2529-2609 | on the linked list: the new lines are the specified deletion, nothing is allocated, and the invariant is kept |
| `LineList.Document.Unlink` | GDB/clewn-1.15/netbeans.c:2574-2582 | one node leaves the chain and every other keeps its place |
| `LineList.Document.EditFile` | GDB/clewn-1.15/netbeans.c:2324-2355 | an opened buffer has one empty line |
| `MirrorSync.ReplaceKeepsInStep` | GDB/clewn-1.15/netbeans.c:2166-2273 | an editor that holds the mirror's text, after applying the messages sent, holds the text of the mirror with line k alone replaced, if and only if the insertion was short enough to be sent |
| `MirrorSync.AppendKeepsInStep` | GDB/clewn-1.15/netbeans.c:2006-2109 | after cnb_append an editor that was in step holds the mirror's text (an empty line when the mirror has none) if and only if the message fits, the buffer is not a single non-empty line different from the row, and an empty row is not the first of a cleared buffer |
| `MirrorSync.ClearMends` | GDB/clewn-1.15/netbeans.c:2112-2163 | clearing leaves one empty line in the editor whatever it held, as long as its text had the mirror's length and ended in a newline |
| `MirrorCommands.CnbAppend` | GDB/clewn-1.15/netbeans.c:2022-2109 | the list gets the line in front of its last one (behind a single non-empty one, and with an empty line behind it in a cleared buffer), the one message is sent, and the exact condition under which both sides stay equal |
| `MirrorCommands.CnbReplace` | GDB/clewn-1.15/netbeans.c:2166-2273 | only line lnum changes, a number out of range changes and sends nothing, and the exact condition under which both sides stay equal |
| `MirrorCommands.CnbClear` | GDB/clewn-1.15/netbeans.c:2112-2163 | the loops count the text and free every line, all but the last newline is removed in the editor, and both sides stay equal |
| `MirrorCommands.InsertRow` | GDB/clewn-1.15/netbeans.c:2080-2098 | the two insertions, in the order that suits the last line, add the row as specified |
| `MirrorRuns.StepInStep` | GDB/clewn-1.15/netbeans.c:788-815 | each of cnb_append, cnb_replace and cnb_clear keeps an editor in step if and only if its insertion is sent and an append meets the condition above; an event that something was typed or erased does if and only if the mirror follows it: text at an offset of a line that is not refused, a newline at the end of the text, text without a newline into a cleared buffer; part of a line, or one of several lines with its newline |
| `MirrorRuns.RunInStep` | GDB/clewn-1.15/netbeans.c:788-2609 | from the opened buffer, over any run of the three commands and of the editor's insert and remove events, the editor is in step after each of them if and only if each one was of the kind just described |
| `MirrorRuns.TypedKeepsInStep` | GDB/clewn-1.15/netbeans.c:788-803 | an insertion the editor reports, at any offset of its text or at its end, leaves the mirror equal to it exactly in the cases named |
| `MirrorRuns.ErasedKeepsInStep` | GDB/clewn-1.15/netbeans.c:806-821 | the same for a deletion; erasing an only line with its newline leaves the mirror without lines and the editor without text |
| `MirrorRuns.LineTypedAtEnd` | GDB/clewn-1.15/netbeans.c:2014-2021 | a new last line comes in two events, its text and then its newline: out of step in between, in step after the newline, which the mirror ignores |
| `MirrorRuns.ClearMendsRun` | GDB/clewn-1.15/netbeans.c:2112-2163 | a clear brings the editor in step whatever order earlier appends left the lines in, provided every insertion was sent, no empty row was appended to a cleared buffer, and the events were of the kinds followed, the last newline not being erased |
| `MirrorRuns.ClearHidesBadAppend` | GDB/clewn-1.15/netbeans.c:2006-2163 | a run that is out of step after its append and in step again after the clear: being in step at the end does not mean having been so all along |
| `MirrorRuns.Play` | GDB/clewn-1.15/netbeans.c:788-2609 | the commands and events on the linked list, one after the other, give the lines of the run; an editor that makes its own changes and carries out the messages sent has the text of the run |
| `EditorLink.RemoveFits` | GDB/clewn-1.15/netbeans.c:1042-1075 | no remove message of int-sized numbers is ever dropped for its length |
| `EditorLink.FitsExactly` | GDB/clewn-1.15/netbeans.c:1042-1068 | a message is sent if and only if its printed line and the NUL fit the buffer for all numbers of up to thirty characters |
| `EditorLink.InsertFits` | GDB/clewn-1.15/netbeans.c:1042-1068 | the exact length up to which an insertion is sent: one of 4022 characters never is, one of 2006 always |
| `EditorLink.DecimalReads` | GDB/clewn-1.15/netbeans.c:1058-1060 | numbers are printed so that they read back, without leading zeros |
| `EditorLink.ApplyQuoted` | GDB/clewn-1.15/netbeans.c:1042-1075 | a quoted insert message is, for an editor that reads quoted strings as clewn does, a splice of the original string |
| `Quoting.ReadQuoted` | GDB/clewn-1.15/netbeans.c:1664-1777 | reading a quoted string back gives the string, and ends right behind it whatever follows |
| `Quoting.QuotedOnOneLine` | GDB/clewn-1.15/netbeans.c:1724-1777 | a quoted string has no newline and no carriage return |
| `Quoting.AnyTextReads` | GDB/clewn-1.15/netbeans.c:1664-1721 | any text behind an opening quote, whoever wrote it: the five escapes stand for their characters, an illegal escape for nothing, everything else for itself, up to the first quote that is not escaped, or without one to the end |
| `Quoting.InPieces` | GDB/clewn-1.15/netbeans.c:1664-1721 | every text is made of such pieces, so that says what is read of any |
| `Quoting.OtherwisePlain` | GDB/clewn-1.15/netbeans.c:1724-1777 | quoting changes a string exactly when it holds a quote, a backslash, a newline or a carriage return |
| `Quoting.Scratch.QuoteString` | GDB/clewn-1.15/netbeans.c:1724-1777 | the loop over the characters builds the quoted string behind what the growing object held |
| `Quoting.Scratch.UnquoteString` | GDB/clewn-1.15/netbeans.c:1664-1721 | the loop reads up to the matching quote, drops illegal escapes, and on an unclosed string fails leaving what it read in the growing object |
| `Framing.LinesAreText` | GDB/clewn-1.15/netbeans.c:520-592 | lines and unfinished tail put together are the text again, and none holds a newline |
| `Framing.OnlySplit` | GDB/clewn-1.15/netbeans.c:520-592 | no other lines and tail without newlines inside put together are that text: the splitting is the only one possible |
| `Framing.AnyChunking` | GDB/clewn-1.15/netbeans.c:520-592 | however the stream is cut into reads, interrupted ones anywhere among them, the parser is given the lines of all that came before the connection was gone (up to the first line it rejects), only the unfinished tail is kept, and the connection stays open exactly when no line was rejected and it was not gone |
| `Framing.NulFree` | GDB/clewn-1.15/netbeans.c:550-559 | a stream without NUL characters is seen whole |
| `Framing.CutAtNul` | GDB/clewn-1.15/netbeans.c:550-559 | of a read that holds a NUL exactly what is in front of the first one is seen |
| `Framing.FeedMeaning` | GDB/clewn-1.15/netbeans.c:561-577 | lines are handed over in order up to and including the first whose parsing fails, and the connection closes then only |
| `Framing.QuotedMessageArrives` | GDB/clewn-1.15/netbeans.c:520-592 | a message holding a quoted string, in any NUL-free stream cut anywhere, arrives as one line and reads back |
| `Framing.Connection.DataEvt` | GDB/clewn-1.15/netbeans.c:520-592 | the loop over the received text does to the partial line and to the lines handed over what the specification says, also on an interrupted read and at the end of the connection |
| `BufferTable.LookupAgrees` | GDB/clewn-1.15/netbeans.c:1945-1977 | from every start of the rotation, lookup answers the number that create would for a live name, and -1 exactly when no buffer of the name is live; it moves the start of the next one to the place found and changes nothing else |
| `BufferTable.EveryPlace` | GDB/clewn-1.15/netbeans.c:1964-1967 | once round from any start reaches every buffer |
| `BufferTable.RunKeepsUnique` | GDB/clewn-1.15/netbeans.c:1835-1892 | after any run of create, kill and lookup at most one live buffer has a given name |
| `BufferTable.RunIsLater` | GDB/clewn-1.15/netbeans.c:1779-1892 | over any run a number keeps its buffer until it is killed and then stays killed |
| `BufferTable.NeverReused` | GDB/clewn-1.15/netbeans.c:1835-1892 | a number once answered for a name is never answered for another, and after a kill never again, whatever runs between |
| `BufferTable.RemoveKills` | GDB/clewn-1.15/netbeans.c:1880-1892 | a kill marks the live buffer of its number, forgetting its name when it is wiped out, and leaves every other buffer and the rotation alone |
| `BufferTable.KilledNeverAnswers` | GDB/clewn-1.15/netbeans.c:1835-1977 | once a number is killed, no later create or lookup answers it, whatever runs between |
| `BufferTable.KilledNameIsFree` | GDB/clewn-1.15/netbeans.c:1880-1977 | after a kill the name is looked up in vain, and creating it again gives the next number, not the old one |
| `BufferTable.MakeAdds` | GDB/clewn-1.15/netbeans.c:1837-1878 | create keeps every buffer, answers a live one of the name, and adds one, at the next number, exactly when none was live |
| `BufferTable.Buffers.CreateBuf` | GDB/clewn-1.15/netbeans.c:1837-1878 | the search and the growth of the array give the specified table and number; every unused place stays blank |
| `BufferTable.Buffers.LowLevelBuf` | GDB/clewn-1.15/netbeans.c:1788-1815 | room is made without changing any buffer, and a killed one is refused |
| `BufferTable.Buffers.KillBuf` | GDB/clewn-1.15/netbeans.c:1880-1892 | the table becomes that of `RemoveKills`: the buffer of that number is killed and no other changes; the table stays unique |
| `BufferTable.Buffers.LookupBuf` | GDB/clewn-1.15/netbeans.c:1945-1977 | the rotating loop is the specified lookup, and changes nothing but where the next one starts |
| `ObstackModel.AlignProperties` | GDB/clewn-1.15/obstack.h:125-142 | rounding up gives the first multiple at or after an address, at most the mask further |
| `ObstackModel.NewChunkHasRoom` | GDB/clewn-1.15/obstack.c:263-283 | after header and rounding a new chunk holds the moved object and the bytes asked for, and an eighth of the object's size plus 84 bytes besides; it has the usual size at least, and a larger one has no more than that and the mask |
| `ObstackModel.MoveKeepsChunks` | GDB/clewn-1.15/obstack.c:263-321 | allocating a chunk apart from the others and writing into it keeps every finished object of the chain |
| `ObstackAllocator.Obstack.Begin` | GDB/clewn-1.15/obstack.c:150-198 | an empty stack with the default size and alignment where 0 is given; it is sound if and only if the first object's place is still inside the chunk |
| `ObstackAllocator.Obstack.CopyObject` | GDB/clewn-1.15/obstack.c:285-303 | words from the last to the first, then the odd bytes, copy the whole object and touch nothing else |
| `ObstackAllocator.Obstack.NewChunk` | GDB/clewn-1.15/obstack.c:250-325 | the growing object has its bytes at its new place, all finished objects are kept, there is room for the bytes asked for; the old chunk leaves the chain and memory if and only if no finished object lies in it and no empty one is on record, whatever the size of the object moved |
| `ObstackAllocator.Obstack.Grow` | GDB/clewn-1.15/obstack.h:292-300 | the growing object gets the bytes, moved or not; finished objects keep address and bytes; the bound on moved bytes is kept |
| `ObstackAllocator.Obstack.Grow0` | GDB/clewn-1.15/obstack.h:302-311 | the same with a final zero byte |
| `ObstackAllocator.Obstack.Grow1` | GDB/clewn-1.15/obstack.h:313-318 | the same for one byte |
| `ObstackAllocator.Obstack.Blank` | GDB/clewn-1.15/obstack.h:353-360 | the same for bytes left as they are; a negative length takes that many bytes off the end and changes nothing else |
| `ObstackAllocator.Obstack.MakeRoom` | GDB/clewn-1.15/obstack.h:276-282 | the room is there and the object and the finished ones are as before, within the same bound on moved bytes |
| `ObstackAllocator.Obstack.Finish` | GDB/clewn-1.15/obstack.h:382-395 | the object joins the finished ones at the address returned, aligned when not empty; the next one starts at most the mask behind it, though its base may be cut to the chunk's unaligned limit |
| `ObstackAllocator.Obstack.AllocatedP` | GDB/clewn-1.15/obstack.c:334-351 | true exactly when the walk from the newest chunk finds one |
| `ObstackAllocator.Obstack.FreeFunction` | GDB/clewn-1.15/obstack.c:356-389 | releases exactly the chunks in front of the one the walk finds: memory loses the addresses of those and no other; aborts exactly when it finds none and the address is not null |
| `ObstackAllocator.Obstack.Free` | GDB/clewn-1.15/obstack.h:397-403 | freeing a live object leaves exactly the objects finished before it, with their bytes, and memory loses exactly the addresses of the newer chunks |
| `ObstackAllocator.WalkFindsHome` | GDB/clewn-1.15/obstack.c:365-376 | the walk stops at the chunk an object lies in, also for an empty object at the very end of a chunk |
| `ObstackAllocator.CurrentFinished` | GDB/clewn-1.15/obstack.h:382-395 | after finish the next object starts aligned or at the chunk's limit, and a non-empty object started aligned |
| `ObstackRuns.ObjectsHold` | GDB/clewn-1.15/obstack.c:250-389 | every finished object has its bytes where its address says |
| `ObstackRuns.ObjectsApart` | GDB/clewn-1.15/obstack.c:250-389 | two finished objects share no byte |
| `ObstackRuns.Run` | GDB/clewn-1.15/obstack.c:150-389 | after any run of grow, blank (also with negative lengths), make-room, finish and free, with any answers of malloc, the stack holds exactly the strings a stack of strings would, bytes left as they were being whatever memory held; after each operation of the run every finished string was in memory at the address handed out for it, and no address ever changed; at most 9 times the largest size of the growing object was copied for it; in a run without free every chunk behind the newest holds a finished object |
| `ObstackRuns.StaysPut` | GDB/clewn-1.15/obstack.c:150-389 | an object that lives from one moment of a run to a later one has the same address at both |
| `ObstackRuns.PeakIsSize` | GDB/clewn-1.15/obstack.h:292-318 | where no bytes are taken off and no room is made in advance, that largest size is the object's size |
| `BreakpointTheorems.ProcessKeepsInStep` | GDB/clewn-1.15/gdb_lvl3.c:3938-4078 | each record of GDB's table keeps ids distinct over both lists and the editor's signs exactly those of the records, when its breakpoint was not reported before |
| `BreakpointTheorems.Reconciled` | GDB/clewn-1.15/gdb_lvl3.c:2944-2985 | for any reports: ids stay distinct and the editor shows exactly the signs of the new table if and only if no file opens for a breakpoint of which an earlier report already made a record; then the table has exactly one record for each reported breakpoint that was known or whose file opened, with the flags of its first such report |
| `BreakpointTheorems.DistinctDoNotRepeat` | GDB/clewn-1.15/gdb_lvl3.c:2944-2985 | reports of distinct breakpoints, as in one table of GDB's, meet that condition |
| `BreakpointTheorems.RepeatedReport` | GDB/clewn-1.15/gdb_lvl3.c:3938-4078 | a new breakpoint reported twice gets two records with the same id |
| `BreakpointTheorems.UnliteAll` | GDB/clewn-1.15/gdb_lvl3.c:2969-2972 | taking down the signs of the records left over leaves exactly the signs of the new table |
| `BreakpointTheorems.KillKeepsInStep` | GDB/clewn-1.15/clewn.c:2438-2463 | a wiped out buffer takes its records and its signs away together |
| `BreakpointSigns.ProcessTypes` | GDB/clewn-1.15/gdb_lvl3.c:3938-4078 | each record of GDB's table keeps the sign types of all records of a buffer, old and new, in either state, pairwise different and at most the last one defined there |
| `BreakpointSigns.ReconciledTypes` | GDB/clewn-1.15/gdb_lvl3.c:2944-2985 | the same for the whole completion, whatever is reported |
| `BreakpointSigns.KillKeepsTypes` | GDB/clewn-1.15/clewn.c:2438-2463 | the same when a buffer is wiped out |
| `BreakpointSigns.ShownTypesDiffer` | GDB/clewn-1.15/netbeans.c:1334 | two breakpoints shown in one buffer never show the same sign type |
| `BreakpointSigns.SwitchedTypes` | GDB/clewn-1.15/clewn.c:2096-2126 | a breakpoint that is enabled or disabled shows another type than before at the same place, and the first one again when switched back |
| `BreakpointSigns.DefinedOrRefused` | GDB/clewn-1.15/netbeans.c:1261-1334 | a sign type is refused exactly where none is known for the state and the buffer is not open or the id is not positive; a new one is the next of its buffer |
| `BreakpointSigns.WipedShowsNone` | GDB/clewn-1.15/clewn.c:2438-2463 | a wiped buffer shows no breakpoint and takes no sign; the other buffers keep all of theirs |
| `Breakpoints.Table.ProcessRecord` | GDB/clewn-1.15/gdb_lvl3.c:3938-4078 | on the two linked lists: a known node moves from one to the other, a new one is linked, no node is lost or in both, and the record that was not linked is reused |
| `Breakpoints.Table.MoveOld` | GDB/clewn-1.15/gdb_lvl3.c:3958-3984 | a known record is updated, its sign replaced when it was enabled or disabled, and its node moved |
| `Breakpoints.Table.UpdateOld` | GDB/clewn-1.15/gdb_lvl3.c:3960-3977 | the flags and the sign of a known record, which after a switch between enabled and disabled is of the type of the new state (`BreakpointSigns.SwitchedTypes`) |
| `Breakpoints.Table.GetBpComplete` | GDB/clewn-1.15/gdb_lvl3.c:2944-2985 | the whole completion on the linked lists: the specified table and signs; each old node is in the new table or freed, and not both; the sign types of every buffer stay apart |
| `Breakpoints.Table.UnliteOlds` | GDB/clewn-1.15/clewn.c:2071-2093 | looking each id up again in the old table takes down exactly the old signs |
| `Breakpoints.Table.FreeRecords` | GDB/clewn-1.15/clewn.c:2438-2463 | exactly the records of the buffer leave the list |
| `Breakpoints.Table.ReplaceTable` | GDB/clewn-1.15/clewn.c:2465-2482 | the walk over the old list frees exactly its nodes, and the new list takes its place |
| `Breakpoints.Table.FreeBpList` | GDB/clewn-1.15/clewn.c:2465-2482 | the walk frees every node of the list once, in order, and leaves it empty |
| `VarObjects.Machine.Choose` | GDB/clewn-1.15/gdb_lvl3.c:3124-3335 | the loop over the list, objects without anything to send passed over or removed, sends what the first one that calls for a command calls for; at the end of the list, none |
| `VarObjects.Machine.ForObject` | GDB/clewn-1.15/gdb_lvl3.c:3124-3335 | one turn for the object at hand is the specified one, which `TurnFollows` ties to what its fields and the window call for: it is sent that command, passed over, or removed when it was not created and there is no variables buffer |
| `VarObjects.Machine.OobComplete` | GDB/clewn-1.15/gdb_lvl3.c:3348-3553 | each answer has the specified effect, which `AnswerFollows` ties to what the answers call for: the object waits for its next command, is dealt with, or leaves the list after a deletion or a failed creation |
| `VarObjects.Machine.CompletePrint` | GDB/clewn-1.15/gdb_lvl3.c:3348-3553 | a value that was printed ends the object's turn; after an error GDB is asked to evaluate it, once |
| `VarObjects.Machine.RemoveObject` | GDB/clewn-1.15/gdb_lvl3.c:3706-3727 | the object at hand leaves the list and the walk goes on with the one behind it, so the walk is always at a member of the list or at its end |
| `VarObjects.Machine.Pass` | GDB/clewn-1.15/gdb_lvl3.c:3124-3553 | one pass ends whatever GDB answers and whatever the window shows; every object of the list at its start was dealt with once, in order, and was sent exactly the commands that `VarTalk.Talk` names for its fields, the window and the answers from its turn on; the list is left with exactly the objects neither deleted nor refused at creation, in order, the new ones named as GDB named them; the commands sent are those of the objects, at most four each |
| `VarTalk.TalkOfCreated` | GDB/clewn-1.15/gdb_lvl3.c:3190-3553 | a created object is deleted, and sent nothing else, exactly when there is no variables buffer or its name is not found there; otherwise its children are listed first exactly when it has any, it is updated, printed exactly when in scope, and evaluated exactly when printing failed |
| `VarTalk.TalkOfNew` | GDB/clewn-1.15/gdb_lvl3.c:3124-3553 | an object not created yet is created exactly when there is a buffer and stays exactly when GDB names it; then its format is set exactly when it has two characters, and its value printed exactly when it has such a format or none |
| `VarTalk.TalkIsShort` | GDB/clewn-1.15/gdb_lvl3.c:3124-3553 | no object is sent a command twice in a pass, nor more than four |
| `VarObjects.TurnFollows` | GDB/clewn-1.15/gdb_lvl3.c:3124-3335 | the code's choice by stages sends the next command the object calls for, passes it over when it calls for no more, and removes it only when it is to go |
| `VarObjects.AnswerFollows` | GDB/clewn-1.15/gdb_lvl3.c:3348-3553 | the code's treatment of each answer leaves the object at the stage, or deals with it, as it calls for |
| `VarObjects.JoinFollows` | GDB/clewn-1.15/gdb_lvl3.c:282-294 | an object that joins the list in the middle of a pass does not disturb it |
| `VarObjects.Machine.Exchange` | GDB/clewn-1.15/gdb_lvl3.c:3124-3553 | an answer and the next command keep the pass going as the fields, the window and the answers call for, and bring its end closer |
| `VarObjects.FourForEach` | GDB/clewn-1.15/gdb_lvl3.c:3124-3553 | the commands of a pass are at most four times the objects dealt with |
| `OobEngine.StepFollows` | GDB/clewn-1.15/clewn.c:2321-2436 | one event keeps the bracketing, with idx telling if a reply is outstanding, if and only if it is not a prompt after a quit annotation or an accepted command while a reply is outstanding; a prompt that ends with idx -1 leaves OS_CMD and OS_QUIT clear |
| `OobEngine.RunFollows` | GDB/clewn-1.15/clewn.c:2321-2436 | a run, interrupted or not, keeps the bracketing with idx telling if a reply is outstanding, if and only if no event in it is one of those; once such an event came the two never agree again |
| `OobEngine.CommandClearAtEnd` | GDB/clewn-1.15/clewn.c:2366-2384 | whatever went before, a prompt that ends a cycle or starts none leaves OS_CMD clear |
| `OobEngine.TimelyIsCalm` | GDB/clewn-1.15/clewn.c:1148-1178 | a run with no quit, query or commands annotation inside a cycle, and no ordinary command inside a cycle while OS_CMD is clear, has no such events; GDB's first prompts are covered |
| `OobEngine.WellBracketed` | GDB/clewn-1.15/clewn.c:2321-2436 | each COLLECT or COMPLETE of an entry follows the CMD of that entry that sent a command, with only that command's output collected between |
| `OobEngine.ReplyCollected` | GDB/clewn-1.15/clewn.c:2321-2436 | in a run that nothing upsets, from the prompt at which an entry sent its command to the next prompt, the entry is given exactly the chunks of output that came outside prompts and before an interrupt, counted from the events alone; it is then completed, and the cycle ends at once exactly when there was an interrupt |
| `OobEngine.Meanwhile` | GDB/clewn-1.15/clewn.c:2387-2436 | until the next prompt nothing but those chunks is added to the calls made, and the same entry stays outstanding |
| `OobEngine.NothingOutside` | GDB/clewn-1.15/clewn.c:2387-2436 | outside a cycle no output is collected and no entry is called until a prompt comes |
| `OobEngine.PromptAsks` | GDB/clewn-1.15/clewn.c:2321-2384 | a prompt completes the outstanding entry and asks on from it or from the next, or from the first outside a cycle; the entry that waits then is the first that sends a command, and the cycle ends when there is none or after an interrupt |
| `OobEngine.BusyUntilPrompt` | GDB/clewn-1.15/clewn.c:1148-1178 | once a command was given, the engine is busy until a prompt or a query annotation comes |
| `OobEngine.QuitSkipsPrompt` | GDB/clewn-1.15/clewn.c:2340-2380 | after a quit annotation outside a cycle the next prompt calls nothing, and engine and annotation are cleared |
| `OobEngine.QueryLetsCommandIn` | GDB/clewn-1.15/clewn.c:1148-1178 | after a query annotation the next command is accepted whatever is outstanding, and ends the cycle |
| `OobEngine.AskedInOrder` | GDB/clewn-1.15/clewn.c:2321-2384 | entries are asked in table order from the first, and again only after a completion that says so |
| `OobEngine.QuitCompletesTwice` | GDB/clewn-1.15/clewn.c:2350-2382 | a quit annotation inside a cycle makes a later prompt complete the same reply again |
| `OobEngine.QueryLosesReply` | GDB/clewn-1.15/gdb_lvl3.c:1148-1195 | a query annotation inside a cycle lets a command through that drops the outstanding reply |
| `OobEngine.StartUpLosesReply` | GDB/clewn-1.15/gdb_lvl3.c:1128-1145 | GDB's first prompt starts a cycle with OS_CMD clear, so the user's first command, if it comes before that cycle ends, drops the outstanding reply |
| `OobEngine.Oob.Send` | GDB/clewn-1.15/clewn.c:2321-2384 | the loop that completes one entry and asks the next ones gives the specified state and calls |
| `OobEngine.Oob.Ask` | GDB/clewn-1.15/clewn.c:2356-2382 | the loop that asks the entries in turn stops at the first that sends a command, at the end of the table, or on an interrupt |
| `OobEngine.Oob.Receive` | GDB/clewn-1.15/clewn.c:2387-2436 | output becomes what the specified step gives, which `ReplyCollected` describes: it goes to the entry whose reply is outstanding; the count is always that of the chunks collected since the last command |
| `OobEngine.Oob.DoCmd` | GDB/clewn-1.15/clewn.c:1148-1178 | one command at a time, interrupts always, and idx reset for an accepted one |
| `AddressBookTheorems.RoundTrip` | ProtoBuff/addressbook.pb.cc:1024-1136 | for every address book with valid strings that fits a message, parsing what is written gives it back |
| `AddressBookTheorems.ConcatenationMerges` | ProtoBuff/addressbook.pb.cc:1153-1161 | parsing one written book followed by another is merging the second into the first |
| `AddressBookTheorems.PersonConcatenationMerges` | ProtoBuff/addressbook.pb.cc:898-920 | the same for people: set scalars override, phones are appended, last_updated merges |
| `AddressBookTheorems.BytesDetermineBook` | ProtoBuff/addressbook.pb.cc:1066-1109 | two books written with the same bytes are the same book |
| `AddressBookTheorems.ParsePersonBytes` | ProtoBuff/addressbook.pb.cc:618-716 | parsing a written person in front of anything merges it and goes on with the rest |
| `AddressBookTheorems.ParsePhoneBytes` | ProtoBuff/addressbook.pb.cc:296-355 | the same for a phone number |
| `AddressBookTheorems.ParseBookBytes` | ProtoBuff/addressbook.pb.cc:1024-1064 | the same for an address book |
| `AddressBookReading.RoundTripIff` | ProtoBuff/addressbook.pb.cc:1024-1136 | a book of people under 2 GiB each comes back from its bytes if and only if all its strings are valid UTF-8 |
| `AddressBookReading.BookKeepsStrings` | ProtoBuff/addressbook.pb.cc:1024-1064 | whatever bytes are read, a parse that succeeds leaves only valid strings in the book, at every depth |
| `AddressBookReading.BookThen` | ProtoBuff/addressbook.pb.cc:1024-1064 | whatever the bytes of a message that ends where they do: parsing goes on in what follows with the message read so far |
| `AddressBookReading.PersonThen` | ProtoBuff/addressbook.pb.cc:618-716 | the same for a person |
| `AddressBookReading.PhoneThen` | ProtoBuff/addressbook.pb.cc:296-355 | the same for a phone number |
| `AddressBookReading.TimeThen` | ProtoBuff/addressbook.pb.cc:686-695 | the same for the time of the last update |
| `AddressBookReading.BookSkips` | ProtoBuff/addressbook.pb.cc:1046-1056 | a field whose number, or whose wire type for its number, is not known, in any of the four wire types that can be skipped, put between the fields of a book changes nothing of what is read |
| `AddressBookReading.PersonSkips` | ProtoBuff/addressbook.pb.cc:698-707 | the same for a person |
| `AddressBookReading.PhoneSkips` | ProtoBuff/addressbook.pb.cc:337-346 | the same for a phone number |
| `AddressBookReading.TimeSkips` | ProtoBuff/addressbook.pb.cc:686-695 | the same for the time of the last update |
| `AddressBookReading.BookStops` | ProtoBuff/addressbook.pb.cc:1024-1064 | a zero byte or an unended tag ends a book there, and the end is reported as not legitimate |
| `AddressBookReading.PersonStops` | ProtoBuff/addressbook.pb.cc:1033-1042 | inside a nested person it makes reading fail |
| `AddressBookReading.PhoneStops` | ProtoBuff/addressbook.pb.cc:673-683 | inside a nested phone number it makes reading fail |
| `AddressBookTheorems.PhoneLength` | ProtoBuff/addressbook.pb.cc:418-445 | the size computed for a phone number is the number of bytes written |
| `AddressBookTheorems.PersonLength` | ProtoBuff/addressbook.pb.cc:828-881 | the size computed for a person, its fields summed in another order than written, is the number of bytes written |
| `AddressBookTheorems.BookLength` | ProtoBuff/addressbook.pb.cc:1111-1136 | the size computed for an address book is the number of bytes written |
| `AddressBookSizes.BookSizedIff` | ProtoBuff/addressbook.pb.cc:1066-1109 | what the serialisers write is the bytes of the book if and only if the cached size of every nested message, at every depth, is the size of that message |
| `AddressBookSizes.PersonSizedIff` | ProtoBuff/addressbook.pb.cc:718-826 | the same for a person: its phones' and its time's cached sizes decide |
| `AddressBookSizes.VarintEnds` | ProtoBuff/addressbook.pb.cc:309-350 | a varint tells where it ends: with anything behind them, two varints agree only if number and rest do |
| `AddressBookMessages.PhoneMessage.MergePartialFromCodedStream` | ProtoBuff/addressbook.pb.cc:296-355 | the loop over tags sets the fields as specified, skips unknown ones, and fails where the specification does |
| `AddressBookMessages.PhoneMessage.SerializeWithCachedSizes` | ProtoBuff/addressbook.pb.cc:357-384 | writes the specified bytes behind the output |
| `AddressBookMessages.PhoneMessage.InternalSerializeToArray` | ProtoBuff/addressbook.pb.cc:386-416 | writes the same bytes into the array at the target and nothing else |
| `AddressBookMessages.PhoneMessage.ByteSizeLong` | ProtoBuff/addressbook.pb.cc:418-445 | computes and caches the number of bytes written |
| `AddressBookMessages.PhoneMessage.MergeFrom` | ProtoBuff/addressbook.pb.cc:462-476 | set fields override |
| `AddressBookMessages.PersonMessage.MergePartialFromCodedStream` | ProtoBuff/addressbook.pb.cc:618-716 | the loop over tags, with nested messages read to their length |
| `AddressBookMessages.PersonMessage.SerializeWithCachedSizes` | ProtoBuff/addressbook.pb.cc:718-769 | calls the nested serialisers and takes each length prefix from the nested message's cached size; the bytes are the specified ones for those sizes |
| `AddressBookMessages.PersonMessage.InternalSerializeToArray` | ProtoBuff/addressbook.pb.cc:771-826 | stores the same bytes in the array at the target and nothing else, by the nested array serialisers and cached sizes |
| `AddressBookMessages.PersonMessage.ByteSizeLong` | ProtoBuff/addressbook.pb.cc:828-881 | computes and caches the number of bytes written, and sets the cached size of every nested message to its number |
| `AddressBookMessages.PersonMessage.MergeFrom` | ProtoBuff/addressbook.pb.cc:898-920 | appends copies of the phones, merges last_updated into its own message, overrides set scalars |
| `AddressBookMessages.BookMessage.MergePartialFromCodedStream` | ProtoBuff/addressbook.pb.cc:1024-1064 | the loop over tags, with nested people |
| `AddressBookMessages.BookMessage.SerializeWithCachedSizes` | ProtoBuff/addressbook.pb.cc:1066-1086 | calls each person's serialiser and takes each length prefix from that person's cached size; the bytes are the specified ones for the sizes of all nested messages |
| `AddressBookMessages.BookMessage.InternalSerializeToArray` | ProtoBuff/addressbook.pb.cc:1088-1109 | stores the same bytes in the array at the target and nothing else |
| `AddressBookMessages.BookMessage.ByteSizeLong` | ProtoBuff/addressbook.pb.cc:1111-1136 | computes and caches the number of bytes written, and leaves the cached size of every nested message, down to the phones, right |
| `AddressBookMessages.BookMessage.MergeFrom` | ProtoBuff/addressbook.pb.cc:1153-1161 | appends copies of the people |
| `AddressBookMessages.WriteStream` | ProtoBuff/addressbook.pb.cc:1066-1136 | whatever sizes were cached before, sizes first and then the stream serialiser gives exactly the bytes of the book |
| `AddressBookMessages.WriteArray` | ProtoBuff/addressbook.pb.cc:1088-1136 | whatever sizes were cached before, sizes first and then the array serialiser fills an array of the computed size with exactly the bytes of the book |
| `AddressBookMessages.WriteAndRead` | ProtoBuff/addressbook.pb.cc:1024-1136 | one message object sized and written, and another read from the bytes, hold the same book |
| `AddressBookMessages.StoreAndRead` | ProtoBuff/addressbook.pb.cc:1024-1136 | the same through the array serialiser |
| `WireFormat.VarintReads` | ProtoBuff/addressbook.pb.cc:309-350 | a varint reads back and reading stops behind it (Protocol Buffers Encoding, Base 128 Varints) |
| `WireFormat.VarintLength` | ProtoBuff/addressbook.pb.cc:418-445 | the size computed for a varint is its length |
| `WireFormat.DelimitedReads` | ProtoBuff/addressbook.pb.cc:639-705 | a length-delimited record reads back (Protocol Buffers Encoding, Length-Delimited Records) |
| `WireFormat.DelimitedIff` | ProtoBuff/addressbook.pb.cc:639-705 | a record is read if and only if its length is less than 2^31 and no more than what is there |
| `WireFormat.UnendedVarint` | ProtoBuff/addressbook.pb.cc:309-350 | a varint that has not ended after ten bytes, or where the input ends, is refused |
| `WireFormat.Unskippable` | ProtoBuff/addressbook.pb.cc:337-346 | field number 0, the end of a group and the two unused wire types are refused |
| `MtabLock.StepKeepsInv` | GetOsVersion/winexe-1.00/client/mtab.c:64-72 | over all steps of all processes the invariant is kept if and only if the step is not a signal between unlock_mtab's unlink and the clearing of its flag |
| `MtabLock.MutualExclusion` | GetOsVersion/winexe-1.00/client/mtab.c:141-218 | in every interleaving of any number of processes, none stopped there by a signal, at most one is between lock_mtab returning 0 and the unlink, and the lock file is the one it made |
| `MtabLock.OwnLinkFound` | GetOsVersion/winexe-1.00/client/mtab.c:165-187 | after its own link a process cannot find the lock file missing: that retry cannot be reached |
| `MtabLock.NoTargetLeft` | GetOsVersion/winexe-1.00/client/mtab.c:141-218 | outside lock_mtab a live process leaves no link target, unless it called lock_mtab while holding the lock |
| `MtabLock.SecondCallLeavesTarget` | GetOsVersion/winexe-1.00/client/mtab.c:141-160 | a call with the flag set, after a call that returned 0 or one that failed, returns 0 at once and leaves its link target behind |
| `MtabLock.FailedCallKeepsLock` | GetOsVersion/winexe-1.00/client/mtab.c:160-187 | from any state with a free lock, a call whose link() succeeds and whose open() then fails returns with the flag set and its lock file in place |
| `MtabLock.IdleOwnsLockIff` | GetOsVersion/winexe-1.00/client/mtab.c:141-218 | in every state that can be reached, a process outside the section owns the lock file exactly when its flag is set, and then nobody is in the section |
| `MtabLock.SignalLeavesLockIff` | GetOsVersion/winexe-1.00/client/mtab.c:53-72 | a caught signal, followed by the exit handler it starts, leaves the process's lock file behind exactly when it comes between link() and the setting of the flag |
| `MtabLock.CutUnlockBreaksExclusion` | GetOsVersion/winexe-1.00/client/mtab.c:64-72 | in every state that can be reached, a process stopped by a signal after unlock_mtab's unlink removes the lock of whichever process is then in the section, and any fresh process joins that one there |
| `MtabLock.CutUnlockLetsTwoIn` | GetOsVersion/winexe-1.00/client/mtab.c:64-72 | with the lock free at that moment, any two fresh processes can come to be in the section together |
| `MtabLock.ClearingReached` | GetOsVersion/winexe-1.00/client/mtab.c:64-72 | with any number of processes such a moment is reached by a lock and an unlock |
| `MtabLock.OwnEvents` | GetOsVersion/winexe-1.00/client/mtab.c:108-218 | in an interleaving each process goes through its own events as if alone |
| `MtabLock.Mounter.LockMtab` | GetOsVersion/winexe-1.00/client/mtab.c:108-218 | the retry loop, whatever link, open and fcntl answer, makes only moves of the state machine, and its last round decides: the process owns the lock exactly when link() succeeded there, and 0 is returned exactly when open() did too; a call with the flag set returns 0 exactly when its link target opened; a link target is left exactly when the lock was its own on entry |
| `MtabLock.Mounter.Round` | GetOsVersion/winexe-1.00/client/mtab.c:160-217 | one round of that loop makes the lock, or fails and leaves no link target and the lock exactly if link() made it, or goes on, exactly when in time and the lock was missing or waited for |
| `MtabLock.Mounter.UnlockMtab` | GetOsVersion/winexe-1.00/client/mtab.c:64-72 | unlinks only a lock it made, and clears the flag last |
| `PromptMatcher.ReportsExactly` | GetOsVersion/sshpass-1.06/main.c:433-448 | the matcher reports exactly the streams that hold the prompt, if and only if no beginning of the prompt ends an earlier part of it and then goes on differently |
| `PromptMatcher.StateIsLongest` | GetOsVersion/sshpass-1.06/main.c:433-448 | for such a prompt the state is the longest beginning of the prompt that ends the stream |
| `PromptMatcher.FullMeansOccurs` | GetOsVersion/sshpass-1.06/main.c:433-448 | for any prompt a full match means that the prompt occurred contiguously |
| `PromptMatcher.Missed` | GetOsVersion/sshpass-1.06/main.c:433-448 | a stream that holds any other prompt and is missed |
| `PromptMatcher.MatchedSplit` | GetOsVersion/sshpass-1.06/main.c:433-448 | matching goes on over any cut of the stream |
| `PromptMatcher.FirstStaysFirstIsSimple` | GetOsVersion/sshpass-1.06/main.c:433-448 | a prompt whose first character does not come back satisfies the condition |
| `PromptMatcher.BuiltInPrompts` | GetOsVersion/sshpass-1.06/main.c:378-379 | both built-in prompts satisfy the condition |
| `PromptMatcher.JudgesExactly` | GetOsVersion/sshpass-1.06/main.c:367-431 | for any prompt: whatever the reads, sshpass sends the password and returns as the text calls for, if and only if the prompt meets the condition of ReportsExactly |
| `PromptMatcher.LooksNoMore` | GetOsVersion/sshpass-1.06/main.c:367-431 | after a read that does not return 0 the answer stands |
| `PromptMatcher.Watcher.HandleOutput` | GetOsVersion/sshpass-1.06/main.c:367-431 | one read updates the three static variables and returns as specified |
| `PromptMatcher.Match` | GetOsVersion/sshpass-1.06/main.c:433-448 | the loop computes the specified state |

## Left out

Of the mirror and its link to the editor:

- The editor's own reading of messages is taken to follow clewn's `unquote`; Vim's code is not in the repository.
- Of `edit_file` only the first empty line is modelled; the modified flag, cursor moves (`setDot`), debugging output
  and the growth of `cnb_buf` are not.
- `cnb == NULL`, a NULL name and failed allocations, which return at once.
- MirrorSync.ReplaceKeepsInStep: requires text and row to be countable by an int of 32 bits, as the code does silently.
- MirrorCommands.CnbReplace: the same requirement; texts of 2^31 characters and more are outside the model.
- MirrorCommands.CnbClear: the same requirement, for the count in the message.
- MirrorRuns.RunInStep: the same requirement along the run, and events at offsets of the editor's text. It is about
  being in step after each command and event, since a later one can hide an earlier difference.
- Framing.Connection.DataEvt: what parse_msg does with a line is only its verdict, a function of the lines so far.
- BufferTable.Buffers.KillBuf: asm buffers, initialisation flags and the lines of a buffer are not in the table.

Of the object stack:

- ObstackAllocator.Obstack.Begin: for a chunk smaller than its own header, the bytes the code then writes outside it.
- ObstackAllocator.Obstack.Blank: more bytes than the object has cannot be taken off.
- ObstackRuns.Run: an operation no caller may ask for, freeing what is not there or taking off too much, does nothing.
- Pointer and integer growth, failed allocation and overflow of sizes.
- The mask is any number and rounding is by remainder; the code's bit operation agrees for powers of two.
- The chain of chunk headers is a sequence, newest first; the header's bytes are reserved but not modelled.

Of breakpoints, variables and the engine:

- The text of GDB's records, asm breakpoints, frame signs, and files: a report says which buffer a file opened in,
  or that it did not, or that the table was not reported as changed.
- The text of variable-object commands and the lines of the variables window; what the window shows is an input.
- The temporary replacement of the function table for balloons, and writing to GDB.

Of the address book:

- AddressBookTheorems.RoundTrip: UTF-8 validity is a predicate parameter, and a person's size is below 2^31.
- AddressBookReading.BookSkips: unknown fields are skipped but not kept, so that they are not written again.
- WireFormat.Unskippable: an unknown group, which the library skips up to its end, is refused as well.
- google/protobuf/timestamp.pb.cc is not part of this model: Timestamp is a message of two numbers with the same
  serialisers and cached size as the others.
- Arenas, reflection, descriptors and the recursion limit.

Of the mtab lock and sshpass:

- MtabLock.MutualExclusion: excludes a signal between unlink and clearing of the flag in unlock_mtab, where it is false.
- Reuse of a process number, other programs that remove the files, and the setting up of the signal handlers.
- MtabLock.Mounter.LockMtab: the clock is a number of rounds after which the time is up; fcntl and alarm are one answer.
- A read of sshpass that fails (a negative length), and the password's transfer.

Not modelled at all:

- The other commands of `netbeans.c`: each sends one message or sets one field.
- `gdb_lvl2.c` and the variant for a patched Vim: other front ends of the state modelled here.
- Readline and terminal handling, sockets, and the two console programs of the address book: input and output.
- The Samba libraries: a copy of another project's code.
