# Proofs about an operating system's algorithms

This project models eleven pieces of the system's C code and proves what each of them is
there for. Procedures that change things in place are methods on classes and arrays; each
is proved against functions on values, and the theorems are about those.

- **diff** (`Diff*.dfy`, `EditScript.dfy`, `Frontier.dfy`, `Myers.dfy`, `Unified*.dfy`): files
  read and cut into lines, the search for a shortest edit, the walk back that lays it out in
  blocks, and hunks that are a correct patch with the right lines around each change. Equality of
  lines is an arbitrary relation wherever that is possible, because the one in use is not transitive.
- **edit** (`Edit*.dfy`): the line table, two ring stacks of records under one byte budget, and
  every key. `EditKeys.dfy` says what each key makes of the whole state, and the editor does that;
  `EditText.dfy` says what that is to the text before and behind the cursor. Over any run each record
  still held leads to a text that stood in one of its states.
- **fdt** (`Fdt*.dfy`): the streaming rewriter of flattened device trees (chapter 5 of the Devicetree
  Specification) performs an edit on trees and writes exactly that, or fails; `FdtFacts.dfy` reads the
  new tree back without knowing of the edit.
- **awk** (`Awk*.dfy`) and **calc** (`Calc*.dfy`): two recursive-descent parsers undo printers
  that bracket only where binding asks for it. `CalcBits.dfy` says what the operators mean bit by bit.
- **fat32** (`Fat*.dfy`): files along cluster chains, and long names put together from pieces.
- **guard** (`Guard*.dfy`): what is done to processes that spin, over any run and told from their
  tick counts, and which group of processes is killed in a storm.
- **firewall** (`Netlink*.dfy`): nested attributes with lengths set afterwards, and their reader;
  the whole ruleset, which always fits the buffer it is built in, which packets it lets through,
  and what is shown of it.
- **string, defend, grep** (`MemCopy.dfy`, `Ipv6Text.dfy`, `GrepContext.dfy`): overlapping copies
  by words, canonical IPv6 text, lines of context.

`Optional.dfy`, `Octets.dfy`, `Sequences.dfy` and `Numerals.dfy` hold what several of them use.
`dafny verify dfyconfig.toml` checks everything.

## Where the code does not keep a promise

Each is shown at an input, with the exact condition for all inputs.

- diff: with blanks ignored, the quick answer overlooks blanks behind the last newline
  (`DiffPair.QuickOverlooksALine`, `DiffPair.SameTexts`), though a comment says that both
  answers compare the same thing.
- diff: a text counts as the same as the binary file with NULs for its newlines
  (`DiffPair.TextTakenForBinary`, `DiffPair.BinaryAnswer`).
- edit: a byte read after the first one of a character may put a newline inside a line, and its
  record then loses text (`EditHistory.NewlineIsLost`, `EditHistory.RecordUndoesClean`,
  `EditKeys.PutInStaysClean`, `EditKeys.ReplacingStaysClean`).
- edit: undo can leave the mark outside the buffer, and keys that use it then read lines that are
  not there (`EditSession.Session.LeaveMarkBehind`, `EditKeys.MarkDecides`).
- fat32: letters of a deleted longer name can get into the next one
  (`FatDirectory.StaleLettersLeak`, `FatDirectory.LongNameDelivered`,
  `FatDirectory.DirectoryAsStored`).
- fat32: a directory whose chain goes round is walked for ever (`FatVolume.RoundForEver`); the walk
  is over whenever some number of clusters is enough, which is what `FatVolume.Volume.Find` asks.
- fdt: a header whose sums wrap around counts as valid though its blocks lie outside the tree
  (`FdtCopy.StrayHeader`, `FdtBytes.ValidMeansInside`), against a comment that says the check is
  there to prevent just that.
- firewall: the limit on new connections by ssh turns nothing away, because the rule behind it takes
  every packet to that port (`NetlinkPolicy.NewSshOverLimit`, `NetlinkPolicy.SshIsNotLimited`,
  `NetlinkPolicy.LimitDecides`), though a comment says that new connections are limited to 30 a minute.
- firewall: a counter with a number of fewer than eight bytes is read past its end
  (`NetlinkShown.ShortCounter`, `NetlinkFormat.NumbersCount`).

One more would fail, but no caller in the program gets there: data longer than the 256 bytes of the
firewall's overflow sink would be written past its end (`NetlinkRules.Stray`, with the exact condition
in `NetlinkBatch.Batch.AttrPut`). Whatever the ruleset, building it never does (`NetlinkRules.Build`).

## Model

| member | source | states |
|---|---|---|
| DiffPair.Compare | userland/diff/diff.c:488-543 | The whole comparison, from two files that may not open, break off, or not fit. Quiet: trouble exactly if one does not open, else same exactly when the bytes that count, up to the end or a failed read, are the same. Otherwise trouble for a file that cannot be read to its end or is too long, and for no other unless memory runs out; with a binary file, same exactly when both stand alike in memory; two texts are the same exactly when the bytes that count are and both or neither end in a newline, and otherwise the answer is a correct patch with the fewest possible changed lines that shows exactly the lines within the asked context of a change, or that every edit changes more than 400 |
| DiffPair.Quick | userland/diff/diff.c:283-311 | Streaming two files through 4096-byte buffers tells them the same exactly when what is left of them after skipping blanks and folding case is the same |
| DiffPair.Reader.Next | userland/diff/diff.c:263-280 | Each call takes the next byte that counts, folded, and none exactly when no more of them is to come, however the reads cut the file |
| DiffPair.SameTexts | userland/diff/diff.c:117-129 | All lines of two texts compare equal if and only if the bytes that count are the same and both or neither end in a newline; so the quick answer and the long one differ exactly when only one of two otherwise equal texts ends in a newline |
| DiffPair.QuickOverlooksALine | userland/diff/diff.c:253-259 | The input where they differ: with blanks ignored, a blank behind the last newline is nothing to the quick answer and one more line to the long one, against the comment in the source |
| DiffPair.BinaryAnswer | userland/diff/diff.c:502-509 | With a binary file among the two the answer is right exactly when it is not a text set against the binary file that has a NUL for each of its newlines; loading has turned the newlines to NULs by then |
| DiffPair.TextTakenForBinary | userland/diff/diff.c:239-243 | Such a pair: the letter a with a newline, and with a NUL |
| DiffPair.EndedOnce | userland/diff/diff.c:208-247 | Bytes can be cut into newline-ended lines and a rest in one way only |
| DiffLoad.ReadIn | userland/diff/diff.c:155-203 | The growing buffer ends up with the whole file, whatever amounts the reads deliver, if file and size hint are below 2 MB and no read fails; each failure has its cause |
| DiffLoad.Load | userland/diff/diff.c:141-251 | A file is held exactly if it can be, unless memory runs out; a text keeps every byte in its lines and final-newline mark, no line holds a newline, and memory holds it with NULs for newlines |
| DiffLoad.Cut | userland/diff/diff.c:237-247 | The lines a cut finds, each with a newline behind it, and the rest are the file; as many lines as newlines |
| DiffLines.HashLine | userland/diff/diff.c:78-90 | The hash of a line is a function of its normal form alone |
| DiffLines.SameText | userland/diff/diff.c:92-111 | Comparing with two cursors is equality of normal forms, which are never built |
| DiffLines.NormalMeans | userland/diff/diff.c:78-111 | Two lines count as equal exactly when, white space left out if it is ignored, they are equally long and alike byte by byte: the same byte, or with case ignored the same letter up to case |
| DiffLines.Eq | userland/diff/diff.c:121-129 | Looking at the hashes first hides no equality: equal normal forms, and for two last lines equal final newlines |
| DiffFiles.Trim | userland/diff/diff.c:513-517 | The pairs cut off both ends all compare equal, and nothing is left exactly when all lines of both files pair up equal |
| DiffFiles.Diff | userland/diff/diff.c:513-531 | Equal exactly when all lines pair up; otherwise a patch from the first file to the second that marks as many lines as the cheapest edit script removes and adds and shows exactly the lines near a change, or, exactly when every script costs more than 400, too far |
| DiffFiles.PlainPatchIsExact | userland/diff/diff.c:121-129 | Without options the patch makes exactly the lines of the second file |
| EditScript.TrimmingKeepsLeast | userland/diff/diff.c:514-515 | For any relation in place of equality, transitive or not: a cost is a lower bound over the middle exactly when it is over the whole |
| EditScript.BlocksAreScript | userland/diff/diff.c:369-408 | Blocks that lay out two ranges are an edit script between them costing exactly the lines they change |
| Frontier.NothingGoesFurther | userland/diff/diff.c:344-365 | Every script of cost d ends no further along its diagonal than step d of the search |
| Frontier.FirstAtCorner | userland/diff/diff.c:344-365 | The first step with a furthest point behind both edges stands exactly on the corner, and no script costs less than its number |
| Frontier.AlwaysReached | userland/diff/diff.c:333-335 | As many steps as there are lines always suffice, so the cap at that number turns nothing away |
| Myers.Differ.Search | userland/diff/diff.c:331-365 | The search ends at the least cost, with all rows kept for the walk back, or finds that no step up to 400 reaches the corner |
| Myers.Differ.WalkBack | userland/diff/diff.c:369-408 | The walk along the kept rows leaves blocks that lay out the two ranges, none empty and no two adjacent, changing exactly as many lines as steps were taken |
| Myers.Differ.Run | userland/diff/diff.c:331-415 | 0 with blocks that are a shortest edit, or 1 exactly when the shortest is longer than 400 |
| Unified.PutHunk | userland/diff/diff.c:444-482 | A patch program that can stand before a hunk can stand behind it: its counts match what follows, its context is right, and it marks what its blocks change. What is seen so far keeps the rule of the context: the lines shown are those near a change, cut off where the file begins and ends |
| Unified.Emit | userland/diff/diff.c:437-484 | For every context size the printed hunks patch the first file into the second and mark exactly the changed lines; read as plain tokens, the lines of the first file that stand in hunks are exactly those no more than the context away from a change, once and in order, two changes share a hunk exactly when no more than twice the context lies between them, removed lines come before added ones, and the remark about a missing newline stands behind exactly the lines that call for it |
| UnifiedView.HunkSeen | userland/diff/diff.c:456-468 | One hunk more over blocks that lie close keeps what was shown exact: the lines near a change, with the context cut off at the ends of the file and never shown twice |
| EditLines.CaptureReadsBack | userland/edit/edit.c:179-248 | Lines joined by newlines are read back exactly if no line holds a newline itself |
| EditLines.PartsJoinBack | userland/edit/edit.c:204-248 | Cutting a text at all its newlines and joining the parts is the identity |
| EditLines.CutThenPaste | userland/edit/edit.c:1111-1235 | Cutting a region and pasting its text where the cursor is left restores every line and puts the cursor at the region's end |
| Editor.Table.Capture | userland/edit/edit.c:179-199 | The text of a range of lines, one newline between each two |
| Editor.Table.Splice | userland/edit/edit.c:204-248 | In place: refused exactly for a place outside the buffer or too many lines; otherwise the lines read off the text stand in place of the old ones, and an emptied buffer gets one empty line |
| Editor.Ring.DropOldest | userland/edit/edit.c:283-291 | The oldest record leaves the ring, all others stay in order |
| EditHistory.RecordUndoesClean | userland/edit/edit.c:315-333 | Applying the record of a change restores the buffer if and only if no newline stands inside a line it holds |
| EditHistory.NewlineIsLost | userland/edit/edit.c:1782-1799 | The input where it does not: after the first byte of a character the next byte is put into the line unchecked, and may be a newline |
| EditHistory.InverseUndoes | userland/edit/edit.c:344-367 | A record and the inverse made when it is applied undo each other, on every good buffer |
| EditHistory.RewindsInOrder | userland/edit/edit.c:369-377 | Taking records off the top of a true stack restores the earlier buffers one after the other |
| EditHistory.ChainDrop | userland/edit/edit.c:283-291 | Forgetting the oldest records leaves the others as true as before |
| EditHistory.RoomDropsOldest | userland/edit/edit.c:296-305 | Room is made only by dropping oldest records, from the own stack only when the other is gone, none while the budget holds, and it is made exactly if the record fits the budget alone |
| EditHistory.PushKeepsBudget | userland/edit/edit.c:296-311 | A push keeps 64 records and the byte budget, puts the record on top of what is left of the stack, drops nothing while there is room, and fails exactly for a record over the budget |
| EditHistory.PushKeepsChains | userland/edit/edit.c:296-387 | A push as the buffer changes keeps both stacks true |
| EditSession.Session.StackPush | userland/edit/edit.c:296-311 | The ring and byte count changed in place end up as the push on sequences says |
| EditSession.Session.RecordChange | userland/edit/edit.c:315-333 | Clears what could be redone and pushes the record of the lines about to change |
| EditSession.Session.ApplyChange | userland/edit/edit.c:344-367 | The record's lines take their place, the cursor goes where it was, clamped, and the exact inverse goes on the other stack |
| EditSession.Session.Undo | userland/edit/edit.c:369-377 | The buffer is again what stood when the last record was made; what stood until now can be redone exactly if the budget can hold it, and nothing is dropped while there is room |
| EditSession.Session.Redo | userland/edit/edit.c:379-387 | The same forwards |
| EditSession.Session.UndoThenRedo | userland/edit/edit.c:369-387 | Undo and then redo leaves the buffer as it was, and the cursor up to clamping |
| EditSession.Session.TypeText | userland/edit/edit.c:972-985 | The bytes stand at the cursor and the cursor behind them; the line is recorded as it was unless the run of typing has recorded it already |
| EditKeys.TypingIsOneRecord | userland/edit/edit.c:336-342 | Typing one piece and then the next is typing both at once, history and all: a run of typing leaves one record |
| EditSession.Session.SplitLine | userland/edit/edit.c:991-1024 | The line is split at the cursor, the new one with the same white space in front; nothing happens in a full buffer |
| EditSession.Session.JoinLines | userland/edit/edit.c:1027-1050 | Two lines become one, the cursor at the seam |
| EditText.JoiningTakesTheBreak | userland/edit/edit.c:1027-1050 | On the text of the whole buffer: joining takes out exactly the one newline there, everything before and behind it stays, and the cursor stands where it was |
| EditText.BackspaceTakesOne | userland/edit/edit.c:1054-1071 | Backspace takes off what stands last before the cursor, a newline or one to four bytes of one character, and nothing else; at the start of the text nothing |
| EditText.DeleteTakesOne | userland/edit/edit.c:1073-1086 | Delete takes what stands first behind the cursor, a newline or the bytes up to the next character, and nothing else; at the end of the text nothing |
| EditText.TypingAdds | userland/edit/edit.c:972-985 | What is typed stands between what was before the cursor and what was behind it |
| EditText.EnterBreaksOnce | userland/edit/edit.c:991-1024 | Enter puts in one newline and the white space its line starts with, up to the cursor, and nothing else |
| EditText.BackspaceTakesEnterBack | userland/edit/edit.c:991-1071 | Where the line has no indent, Enter and then Backspace leave text and cursor as they were |
| EditSession.Session.Backspace | userland/edit/edit.c:1054-1071 | The character before the cursor goes, or the line break; at the start of the file nothing does |
| EditSession.Session.DeleteForward | userland/edit/edit.c:1073-1086 | The character at the cursor goes, or the line break; at the end of the file nothing does |
| EditSession.Session.CopySelection | userland/edit/edit.c:1111-1145 | The clipboard is the selected text exactly if there is a selection and it fits; else it is kept |
| EditSession.Session.DeleteSelection | userland/edit/edit.c:1147-1169 | What stood between mark and cursor is gone, the cursor where it began, and an undo record is kept for it |
| EditSession.Session.CutLine | userland/edit/edit.c:1171-1195 | The line goes, to the clipboard with its line break if it fits |
| EditText.SelectionIsBetween | userland/edit/edit.c:1111-1145 | The selected text is what stands between its two ends in the text of the whole buffer |
| EditText.RemovingTakesTheSelection | userland/edit/edit.c:1147-1169 | Removing the selection takes out exactly that text |
| EditText.CuttingTakesTheLine | userland/edit/edit.c:1171-1195 | Cutting a line takes out its bytes and one line break, the one behind it or, for the last line, the one before it |
| EditText.PastingAdds | userland/edit/edit.c:1197-1235 | Pasting puts the bytes of the clipboard, line breaks and all, between what was before the cursor and what was behind it, or nothing if the lines would be too many |
| EditSession.Session.Paste | userland/edit/edit.c:1197-1235 | The clipboard stands at the cursor and the cursor behind it, unless that takes too many lines |
| EditSession.Session.CutAndPaste | userland/edit/edit.c:1696-1719 | Cutting the selection and pasting at once restores the buffer, the cursor at the selection's end |
| EditKeys.CutPastesBack | userland/edit/edit.c:1111-1235 | Cutting a selection and pasting it gives back the text, from every state |
| EditKeys.LineReplace | userland/edit/edit.c:1361-1380 | Every occurrence from a place on is replaced, from left to right without overlap |
| EditKeys.FindFwd | userland/edit/edit.c:1273-1282 | The first occurrence at or after a place, or none |
| EditSession.Session.ReplaceRest | userland/edit/edit.c:1386-1408 | Every occurrence behind the cursor is replaced, as one undo step |
| EditSession.Session.ReplaceAt | userland/edit/edit.c:1458-1472 | The occurrence at the cursor is replaced, as an undo step of its own, and the cursor stands behind it |
| EditText.ReplacingPutsIn | userland/edit/edit.c:1458-1472 | One occurrence replaced: the new text stands before the cursor in place of as many bytes behind it as the pattern has |
| EditPrompt.GoToNext | userland/edit/edit.c:1432-1449 | The cursor goes to the first occurrence at or behind it, on whatever line, or stays if there is none |
| EditPrompt.ReplacePrompt | userland/edit/edit.c:1410-1489 | The prompt: from the top of the text one occurrence after the other is replaced, passed over, or replaced with all the rest, as the answers say |
| EditPrompt.YesThenAll | userland/edit/edit.c:1386-1489 | Saying yes any number of times and then all makes the text that all at once would have made |
| EditKeys.PutInStaysClean | userland/edit/edit.c:1773-1799 | Bytes put into a line leave all lines without newlines exactly if they hold none: the boundary for typing |
| EditKeys.ReplacingStaysClean | userland/edit/edit.c:1386-1408 | Replacing does so exactly if the new text holds no newline or nothing is found |
| EditSession.Session.Press | userland/edit/edit.c:1614-1806 | The whole state is what the key makes of it, for every key that puts no newline inside a line and reads no mark left behind; records lead only to buffers that stood, and none is forgotten while there is room for what the key records |
| EditSession.Session.Run | userland/edit/edit.c:1612-1810 | Any run of keys goes through the states that the keys make, one for each, and every undo and redo record still held leads to a text that stood in one of them. It stops only before a key that would read a mark left behind or put a newline inside a line |
| EditKeys.OneRun | userland/edit/edit.c:1612-1810 | The states of a run are determined by its first state and its keys |
| EditKeys.OneRecord | userland/edit/edit.c:296-333 | A key makes no record, or just the one of the lines it changes, before they change; what was undone cannot be redone then, and nothing is forgotten while there is room |
| EditKeys.UndoTakesBack | userland/edit/edit.c:369-377 | Undo behind any key that recorded something gives back the text before the key, and the cursor; a record over the budget leaves nothing to undo |
| EditKeys.MarkDecides | userland/edit/edit.c:1111-1169 | Copying and deleting a selection read only lines and columns that are there, both exactly when the mark lies in the text |
| EditSession.Session.LeaveMarkBehind | userland/edit/edit.c:1683-1695 | Enter, mark, undo: three keys from an empty buffer leave the mark behind |
| FdtBytes.DecodeReads | firmware/src/fdt.c:194-224 | A structure block reads back as the tokens it was written from (section 5.4 of the Devicetree Specification) |
| FdtBytes.ValidMeansInside | firmware/src/fdt.c:63-89 | A header that counts as valid places both blocks inside the tree exactly when neither of the two 32-bit sums it is judged by wraps around |
| FdtCopy.StrayHeader | firmware/src/fdt.c:63-89 | A valid header of forty bytes whose structure block would begin four gigabytes on |
| FdtTree.RunsTree | firmware/src/fdt.c:361-454 | Streaming over the tokens of a tree, no-ops anywhere, with only a depth and a few flags writes the tokens of the edited tree |
| FdtTree.ArgsReadBack | firmware/src/fdt.c:123-164 | Reading the edited tree gives back the boot arguments that were put in |
| FdtTree.CellsOfTree | firmware/src/fdt.c:231-267 | The streaming reader finds the root's cell counts |
| FdtTree.RegReadsBack | firmware/src/fdt.c:270-279 | The memory range spelled in cells reads back whole, or modulo 2^32 where one cell is given |
| FdtCopy.NamesOfCopy | firmware/src/fdt.c:484-493 | Every old name keeps its meaning behind the longer strings block, and the new one means bootargs |
| FdtCopy.RegOfTree | firmware/src/fdt.c:231-279 | The reg put in spells the memory range in the cells the root of the tree asks for |
| FdtCopy.CopyMeans | firmware/src/fdt.c:291-517 | The new tree decodes to the old one without its no-ops, edited: bootargs where given, in a /chosen made if there is none, memory nodes with the new reg where a size is given, names kept, reservations kept; the arguments are found in it, and it counts as valid exactly up to 16 MB |
| FdtFacts.CopyTells | firmware/src/fdt.c:291-517 | What a reader of plain tokens, which knows of no edit, finds in the new tree: every reg of a memory node below the root spells base and size in the cells of the new tree itself; the given boot arguments stand once, in /chosen; every other node and property is there as it was, in order, with its old value, and nothing is new but a /chosen where there was none |
| FdtFacts.EditedFacts | firmware/src/fdt.c:361-454 | The same of any tree and any fix, read through the names in use |
| FdtRewrite.FindStringAt | firmware/src/fdt.c:105-118 | The offset of a string in the strings block, or none |
| FdtRewrite.FindBootargs | firmware/src/fdt.c:123-164 | The loop finds the arguments the reader on tokens finds |
| FdtRewrite.RootCellsOf | firmware/src/fdt.c:231-267 | The loop finds the cell counts of the tokens before the first child |
| FdtRewrite.WBuf.Bytes | firmware/src/fdt.c:194-199 | Bytes follow what was written, or the buffer overflows and keeps still |
| FdtRewrite.WBuf.Prop | firmware/src/fdt.c:217-224 | A property as the format spells it, padded |
| FdtRewrite.CopyToken | firmware/src/fdt.c:361-454 | One token copied with the edit: what is written and the flags after it are as the edit on tokens says, whose meaning is read off the new tree in FdtFacts.CopyTells |
| FdtRewrite.ReservationLength | firmware/src/fdt.c:319-330 | The length of the reservation block up to its two zero words, or out of all measure |
| FdtRewrite.CopyWithFixups | firmware/src/fdt.c:291-517 | For a header that is not valid, or valid without a sum that wraps around: the copy is made exactly when there are fixups, the header is valid, no token is unknown, the reservations are sane and the new tree fits; then the output is that tree, byte for byte |
| AwkPrinter.Reads | userland/awk/awk.c:1118-1379 | Each of the thirteen levels reads a tree printed for it, whatever follows that it would not go on with; in a print list that holds of every tree that shows no greater-than outside brackets |
| AwkPrinter.ReadsBack | userland/awk/awk.c:1357-1379 | A printed expression is consumed entirely and the same tree comes back: right-associative power, assignment and conditional, left-associative arithmetic, one comparison only, concatenation told from sum |
| AwkPrinter.RedirectionStops | userland/awk/awk.c:1278-1296 | In a print list a tree without a bare greater-than is read up to a greater-than behind it, which is left there to redirect |
| AwkPrinter.BracketsCompare | userland/awk/awk.c:1118-1199 | In a print list every expression in brackets is read whole, its greater-than a comparison, and one behind the brackets redirects |
| AwkParsed.PrintNormalises | userland/awk/awk.c:1357-1379 | For every token list the parser accepts, printing its tree and reading that gives the same tree |
| AwkParser.Parser.ReadArgs | userland/awk/awk.c:1045-1065 | Arguments as the grammar reads them |
| AwkParser.Parser.ReadCall | userland/awk/awk.c:1067-1116 | A call with as many arguments as the function takes; length alone needs no brackets |
| AwkParser.Parser.ReadPrimary | userland/awk/awk.c:1118-1199 | Operands: the procedure on the global token and print flag gives the tree, the rest or the error that the grammar gives |
| AwkParser.Parser.ReadPostfix | userland/awk/awk.c:1201-1213 | Increments behind an lvalue, the same way |
| AwkParser.Parser.ReadPower | userland/awk/awk.c:1215-1228 | Powers: right-associative, a minus allowed in the exponent |
| AwkParser.Parser.ReadUnary | userland/awk/awk.c:1230-1236 | Signs and negation, above powers |
| AwkParser.Parser.ReadMul | userland/awk/awk.c:1238-1249 | Products, left-associative |
| AwkParser.Parser.ReadAdd | userland/awk/awk.c:1251-1262 | Sums, left-associative |
| AwkParser.Parser.ReadConcat | userland/awk/awk.c:1264-1276 | Operands next to each other, as long as the next token can start one without being an operator |
| AwkParser.Parser.ReadRel | userland/awk/awk.c:1278-1296 | One comparison; inside a print list a greater-than is none |
| AwkParser.Parser.ReadMatch | userland/awk/awk.c:1298-1309 | Matches, left-associative |
| AwkParser.Parser.ReadIn | userland/awk/awk.c:1311-1323 | Membership, left-associative |
| AwkParser.Parser.ReadAnd | userland/awk/awk.c:1325-1333 | Conjunctions |
| AwkParser.Parser.ReadOr | userland/awk/awk.c:1335-1343 | Disjunctions |
| AwkParser.Parser.ReadTernary | userland/awk/awk.c:1345-1355 | Conditionals, right-associative |
| AwkParser.Parser.ReadExpr | userland/awk/awk.c:1357-1379 | A whole expression: what the grammar reads at its top level, with the print flag given back |
| CalcPrinter.Reads | userland/calc/calc.c:60-200 | Each of the nine levels reads an expression printed for it, blanks anywhere, with its value |
| CalcPrinter.EvaluatesToValue | userland/calc/calc.c:223-242 | The text of any tree evaluates to the tree's own value, as long as every value in it, and every quotient taken for a remainder, stays in 64 bits; all text is consumed. The tree's value is exact arithmetic, for the operators on bits the number that has the right bit in all 64 places |
| CalcBits.ResultBits | userland/calc/calc.c:167-200 | Bit by bit: and, or and exclusive or give the bit the two operands' bits make; a shift by the low six bits of the distance moves every bit that far and fills with zeros, to the right too |
| CalcBits.ResultOfBits | userland/calc/calc.c:167-200 | So each result is the one 64-bit number with these bits |
| CalcBits.NotTurnsBits | userland/calc/calc.c:124-131 | The tilde turns every bit |
| CalcBits.DivisionMeans | userland/calc/calc.c:133-154 | Quotient and remainder are the only pair whose product and sum give the dividend, the remainder smaller than the divisor and of the dividend's sign |
| CalcParser.Parser.ReadDigits | userland/calc/calc.c:79-94 | Digits in any base with underscores between them, wrapping at 64 bits, and where they end |
| CalcParser.Parser.ReadAtom | userland/calc/calc.c:60-101 | A bracket or number: value, place and error flag as the grammar says |
| CalcParser.Parser.ReadPower | userland/calc/calc.c:104-122 | Powers, right-associative, negative exponents an error |
| CalcParser.Parser.ReadSigned | userland/calc/calc.c:124-131 | Signs |
| CalcParser.Parser.ReadMul | userland/calc/calc.c:133-154 | Products, quotients and remainders, left-associative; two stars are not a product, and zero divides nothing |
| CalcParser.Parser.ReadAdd | userland/calc/calc.c:156-165 | Sums and differences |
| CalcParser.Parser.ReadShift | userland/calc/calc.c:167-175 | Shifts, by the low six bits of the distance |
| CalcParser.Parser.ReadAnd | userland/calc/calc.c:178-183 | Conjunctions bit by bit |
| CalcParser.Parser.ReadXor | userland/calc/calc.c:185-193 | Exclusive disjunctions |
| CalcParser.Parser.ReadOr | userland/calc/calc.c:195-200 | Disjunctions |
| CalcParser.Evaluate | userland/calc/calc.c:223-242 | Every line, good or bad, ends in the value or the error that the grammar gives it |
| FatVolume.Volume.NextCluster | firmware/src/fat32.c:56-75 | The next cluster of the chain; 0 at its end, and where the table cannot be read |
| FatVolume.Volume.ReadFile | firmware/src/fat32.c:331-380 | True exactly when the card is ready, the file starts on a cluster, fits, and every byte of it can be reached along the chain; then the destination starts with those bytes. Nothing behind the size is written, and it ends on every chain, also one that goes round |
| FatChain.StoredSpells | firmware/src/fat32.c:331-380 | A chain spells the file whose parts its clusters hold |
| FatChain.ClustersInARow | firmware/src/fat32.c:50-53 | Cluster 2 starts where the data area does, and each cluster follows directly behind the one before it, as long as the numbers fit 32 bits |
| FatChain.EntriesInARow | firmware/src/fat32.c:56-64 | The entries of the table stand behind each other, four bytes each |
| FatNames.MadeFragmentHolds | firmware/src/fat32.c:217-225 | The slots made for a part of a name hold it: thirteen units, a mark on the last, 0 and 0xFFFF behind the end |
| FatNames.FragmentsCollect | firmware/src/fat32.c:261-272 | Walking over a name's fragments, last part first, collects the whole name and leaves the rest of the buffer |
| FatDirectory.LongNameDelivered | firmware/src/fat32.c:235-298 | A name of 1 to 255 ASCII letters is delivered exactly if a NUL stands behind it in the buffer |
| FatDirectory.StaleLettersLeak | firmware/src/fat32.c:255-272 | It need not: letters of a longer name whose entry was deleted lengthen the next name of thirteen letters |
| FatDirectory.DirectoryWalk | firmware/src/fat32.c:235-298 | Over long names, short ones, deleted ones, labels and fragments left over, from a buffer in any state, the items are delivered in order up to the first that is wanted |
| FatDirectory.DirectoryAsStored | firmware/src/fat32.c:235-298 | Every item is delivered as it is stored if and only if nothing left over reaches into any of them |
| FatDirectory.NoOrphansNothingLeft | firmware/src/fat32.c:235-298 | Where every fragment belongs to an entry nothing is left over |
| FatVolume.Volume.LfnChars | firmware/src/fat32.c:217-225 | The letters of a fragment up to its terminator, zeros behind |
| FatVolume.Volume.Expand83 | firmware/src/fat32.c:199-210 | A short name spelled out with its dot |
| FatNames.ShortSpells | firmware/src/fat32.c:199-210 | Name and extension written into their fields, spaces behind, are spelled with a dot between them, or without one where there is no extension |
| FatVolume.Volume.NameEq | firmware/src/fat32.c:188-196 | Equality up to ASCII case |
| FatVolume.Volume.FindCallback | firmware/src/fat32.c:308-320 | Stops at an entry that is a file of the given name |
| FatDirectory.EntryGivesBack | firmware/src/fat32.c:316-317 | An entry written for a first cluster and a size gives both back |
| FatVolume.Volume.WalkRoot | firmware/src/fat32.c:235-298 | The walk by clusters, sectors and slots ends as the walk over all slots in a row does |
| FatVolume.Volume.Find | firmware/src/fat32.c:322-327 | The first entry that is a file of that name up to case, wherever sectors and clusters cut its slots |
| FatVolume.RoundForEver | firmware/src/fat32.c:235-298 | A directory whose chain goes round, where one round finds nothing and leaves the scan as it was, is walked for ever |
| FatVolume.DirectoryFound | firmware/src/fat32.c:235-327 | In a root directory that holds some records, the search finds the first one wanted and otherwise none |
| GuardHistory.LookIsFair | userland/guard/guard.c:764-921 | Every look keeps a history fair, so every run is: nothing is demoted before 30 s of uninterrupted hot samples or given back before 30 s of calm ones, and what is given back is exactly what was taken |
| GuardHistory.StandingIsRight | userland/guard/guard.c:764-921 | A protected process is never demoted, one that is not never loses a boost |
| GuardHistory.HotLook | userland/guard/guard.c:824-913 | What a hot sample does: demotes to 10 an unprotected process once, takes a protected one's boost once, and only at 30 s |
| GuardHistory.CalmLook | userland/guard/guard.c:795-823 | What a calm sample does: a boost comes back at once, a demoted one gets its old priority back at 30 s, and counting starts again |
| GuardHistory.BlindLook | userland/guard/guard.c:779-788 | A look that shows nothing new starts the hot count again and changes nothing else |
| GuardRuns.SampleMeans | userland/guard/guard.c:786-795 | A process is hot exactly when the ticks it used since the reading before, times a hundred, reach ninety times the ticks one core has in that time, calm when they do not, and neither without a reading to compare with |
| GuardWatch.OneSlotEach | userland/guard/guard.c:715-744 | No process holds two slots |
| GuardWatch.Watch.CpuSlot | userland/guard/guard.c:715-744 | The slot of a process, its own or a free one; none exactly if it has none and the table is full |
| GuardWatch.Watch.CpuIsUnboosted | userland/guard/guard.c:748-754 | Whether its boost was taken |
| GuardWatch.Watch.LookAt | userland/guard/guard.c:773-914 | One process: counters and priority become what its history of samples calls for, also where the kernel refuses to set its priority |
| GuardWatch.Watch.CheckCpuHogs | userland/guard/guard.c:764-921 | A pass looks at every listed process that is tracked or finds a slot, once, and forgets those that are gone |
| GuardWatch.Watch.ApplyPriorities | userland/guard/guard.c:673-695 | Every listed protected process gets its priority, except those that lost their boost and those the kernel refuses; no other changes |
| GuardWatch.Watch.SlowPass | userland/guard/guard.c:1614-1673 | Both together: starting from the priorities applied, every listed process is dealt with as the policy asks, no other changes, and those that are gone are forgotten; hogs are looked at only after 5 s of sleep. A protected process that goes on spinning stays without its boost, one at rest has exactly its old priority back |
| GuardWatch.Watch.Run | userland/guard/guard.c:1609-1783 | The loop, over whatever processes and priorities it meets: every round does what the policy asks for, and every history stays fair |
| GuardWatch.RunIsPatient | userland/guard/guard.c:1609-1783 | Over every run, no process that stands undisturbed is demoted or loses its boost before the loop has slept for 30 s |
| GuardWatch.RunGivesBackLate | userland/guard/guard.c:1609-1783 | Over every run, a demoted process does not get its priority back before the loop has slept for 30 s since its last hot sample |
| GuardRuns.ReadingIs | userland/guard/guard.c:773-788 | Over every run, the ticks kept of a process are those of the last look at it |
| GuardRuns.CountsAre | userland/guard/guard.c:764-921 | Over every run, its hot and calm seconds are those of the looks at which its ticks had risen by that share of a core, or by less |
| GuardRuns.RoundDecides | userland/guard/guard.c:764-921 | Over every run, what a look does follows from the tick readings alone: a demotion or a lost boost exactly when the ticks rose by that share in looks covering 30 s and nothing stands against it; a boost given back exactly when they rose by less, a priority when they did so in looks covering 30 s |
| GuardStorm.Histogram.Choose | userland/guard/guard.c:1110-1131 | Striking out forbidden groups ends at the eligible group with the most killable listed members, or at none exactly if there is none |
| GuardStorm.LeaderIsProtected | userland/guard/guard.c:1147-1167 | Whether the leader must not be killed: by the list, or by asking |
| GuardStorm.LeaderMeans | userland/guard/guard.c:1147-1167 | A listed leader is protected exactly if the list says so of the first process with its pid; one that is not listed, exactly if asking says so |
| GuardStorm.KillListed | userland/guard/guard.c:1206-1214 | The listed killable members, and only those, are signalled |
| GuardStorm.KillBiggestGroup | userland/guard/guard.c:1066-1239 | The right victim; a group whose leader is protected is stopped, its killable members signalled one by one, twice, and continued; any other is killed whole or else one by one. No group is killed whole whose leader is listed as protected |
| NetlinkFormat.DecodeReads | userland/firewall/firewall.c:272-314 | Attribute trees whose lengths fit sixteen bits tile their bytes on 4-byte boundaries and read back the same |
| NetlinkFormat.FindReads | userland/firewall/firewall.c:1133-1147 | The reader returns the payload of the first attribute of each type |
| NetlinkFormat.RuleCounts | userland/firewall/firewall.c:1158-1185 | Both 64-bit counters are recovered wherever the counter expression stands among the others |
| NetlinkFormat.NumbersCount | userland/firewall/firewall.c:1158-1185 | A counter's numbers are read past their end exactly if one of them is shorter than eight bytes; else they are its packets and bytes |
| NetlinkBatch.CounterExprCounts | userland/firewall/firewall.c:433-439 | The counter expression that is sent is one that the reader takes for a counter, with its numbers |
| NetlinkBatch.MessageReads | userland/firewall/firewall.c:249-270 | A message within the batch starts with its own length and holds exactly the attributes put in, nests and all |
| NetlinkBatch.Batch.Put | userland/firewall/firewall.c:228-239 | Bytes go behind the others or, once there is no room, into a sink; they run past its end exactly if they are more than its 256 |
| NetlinkBatch.Batch.AttrPut | userland/firewall/firewall.c:272-279 | One attribute more in the innermost nest; bytes stray past the sink exactly if the data has no room and is longer than the sink |
| NetlinkBatch.Batch.AttrU32 | userland/firewall/firewall.c:281-285 | A 32-bit number as an attribute |
| NetlinkBatch.Batch.AttrU64 | userland/firewall/firewall.c:287-292 | A 64-bit number as an attribute, most significant byte first |
| NetlinkBatch.Batch.AttrStr | userland/firewall/firewall.c:294-297 | A string with its NUL, the length cut to sixteen bits |
| NetlinkBatch.Batch.NestBegin | userland/firewall/firewall.c:299-306 | A nest opens; beyond eight it is noted that one is too deep |
| NetlinkBatch.Batch.NestEnd | userland/firewall/firewall.c:308-314 | The innermost nest becomes an attribute of the one around it, its length set afterwards |
| NetlinkBatch.Batch.MsgBegin | userland/firewall/firewall.c:249-262 | A message opens with the next number |
| NetlinkBatch.Batch.MsgEnd | userland/firewall/firewall.c:264-270 | The open message becomes one of the complete ones, its length set afterwards |
| NetlinkBatch.Batch.ExprBegin | userland/firewall/firewall.c:318-323 | An expression is a list element with a name and a nest of data |
| NetlinkBatch.Batch.ECounter | userland/firewall/firewall.c:433-439 | The counter expression as the reader looks for it |
| NetlinkBatch.FindAttr | userland/firewall/firewall.c:1133-1147 | The loop finds what the reader on bytes finds, on any bytes |
| NetlinkBatch.RuleCounter | userland/firewall/firewall.c:1158-1185 | The loop returns the counters of the first counting expression |
| NetlinkRules.EMeta | userland/firewall/firewall.c:331-339 | Loads something about the packet: the expression as a tree |
| NetlinkRules.EPayload | userland/firewall/firewall.c:341-350 | Loads bytes of the packet |
| NetlinkRules.ECmp | userland/firewall/firewall.c:352-363 | Compares with a value in a nest of its own |
| NetlinkRules.EMask | userland/firewall/firewall.c:381-398 | Keeps some bits, mask and zero in nests of their own |
| NetlinkRules.ECtStateAny | userland/firewall/firewall.c:400-418 | Any of some bits of the connection's state: three expressions |
| NetlinkRules.ELimit | userland/firewall/firewall.c:420-431 | A rate limit, with two 64-bit numbers |
| NetlinkRules.EVerdict | userland/firewall/firewall.c:441-452 | The verdict, three nests deep in its expression |
| NetlinkRules.MTable | userland/firewall/firewall.c:456-462 | The message that makes or removes the table |
| NetlinkRules.MChain | userland/firewall/firewall.c:464-477 | The message that makes a chain, with its hook and its policy |
| NetlinkRules.RuleBegin | userland/firewall/firewall.c:479-499 | A rule up to its expressions, with its label in at most 64 bytes |
| NetlinkRules.RuleEnd | userland/firewall/firewall.c:501-505 | The rule is a complete message behind the others |
| NetlinkRules.RulePort | userland/firewall/firewall.c:862-873 | The rule that lets packets to a port through |
| NetlinkRules.BuildInput | userland/firewall/firewall.c:875-961 | The rules for what comes in: the standing ones, one for each port asked for, and the count of what is denied |
| NetlinkRules.BuildOutput | userland/firewall/firewall.c:963-1020 | The rules for what goes out, in both modes |
| NetlinkRules.Build | userland/firewall/firewall.c:1022-1067 | All messages in order and numbered; whatever the configuration asks for, nothing is nested too deep and nothing written behind the end of the sink |
| NetlinkRules.LastAnswer | userland/firewall/firewall.c:1055-1063 | The message before the last, whose answer is waited for, is the last one that asks for an answer |
| NetlinkRules.Apply | userland/firewall/firewall.c:1022-1080 | What is sent is the whole ruleset byte for byte, or nothing exactly if it is longer than a batch |
| NetlinkPolicy.Fates | userland/firewall/firewall.c:875-1053 | Evaluating what is sent on any packet: at the input hook it is accepted exactly if its connection is known, it comes over lo, or is for tcp 22, udp 68 or a port asked for, or is ICMPv6, or a ping under its limit, and dropped otherwise; forwarded packets are dropped; output is accepted unless strict mode is on and it is none of what that lets out |
| NetlinkPolicy.Unasked | userland/firewall/firewall.c:875-961 | A TCP packet of no known connection, not over lo, gets in exactly if it is for port 22 or a TCP port that was asked for |
| NetlinkPolicy.SshIsNotLimited | userland/firewall/firewall.c:893-915 | Whatever comes to the ssh port is let in, over the limit on new connections or under it |
| NetlinkPolicy.NewSshOverLimit | userland/firewall/firewall.c:893-915 | Such a packet: a new connection while every limit is exceeded |
| NetlinkPolicy.LimitDecides | userland/firewall/firewall.c:893-936 | Whether limits are exceeded changes what happens exactly for pings that nothing else lets in, through the limit of 20 a second |
| NetlinkRules.Stray | userland/firewall/firewall.c:228-239 | A call that would write behind the sink; the program makes none like it |
| NetlinkShown.RulesetFits | userland/firewall/firewall.c:1022-1074 | With at most 24 ports asked for the ruleset always fits the batch, so that none is ever refused as too long, and every rule in it can be told by its chain, label and counter |
| NetlinkShown.FilledCounts | userland/firewall/firewall.c:1158-1185 | Whatever the kernel has counted for a rule, and wherever its counter stands, is what is read of it |
| NetlinkShown.StatusReads | userland/firewall/firewall.c:1233-1262 | In whatever order the kernel gives the parts of a rule back, its chain, its label up to 47 characters and its counters are what is shown |
| NetlinkShown.ShortCounter | userland/firewall/firewall.c:1158-1185 | The input that is read past its end: a counter whose numbers have one byte |
| MemCopy.MemMove | firmware/src/string.c:34-50 | For every source, destination, length and overlap: memory as if all were read before any is written, and nothing else changed |
| MemCopy.MemCpy | firmware/src/string.c:20-32 | A simultaneous copy also by 8-byte words, for regions apart or with the destination in front |
| MemCopy.MemSet | firmware/src/string.c:4-18 | Exactly the target bytes are the low byte of the value, also by words |
| Ipv6Text.PutHex16 | userland/defend/defend.c:247-258 | A group in lower case without leading zeros |
| Ipv6Text.FindRun | userland/defend/defend.c:269-278 | The first of the longest runs of zero groups, none if none is as long as two |
| Ipv6Text.FmtV6 | userland/defend/defend.c:263-292 | The canonical text of section 4 of RFC 5952, in 46 characters with its NUL; a reader gives back the same groups |
| Ipv6Text.TextReads | userland/defend/defend.c:263-292 | With any run of zero groups collapsed the text reads back as the address |
| GrepContext.Input.PickIsThoseShown | userland/grep/grep.c:109-175 | The lines printed are exactly those in some hit's context, each once, in order, with the right text and mark |
| GrepContext.Grepper.GrepFd | userland/grep/grep.c:109-175 | The ring and the countdown print exactly those lines and count the hits; quiet and counting print nothing, names print one |

## Left out

- DiffPair.Compare: which message is printed for which trouble is left out; where memory runs out is left open, and a read that fails in the quick answer counts as the end of the file, as in the code.
- DiffFiles.Diff: the claim is about lines: a last line without its newline compares equal to one that is not last, so the patch need not be right about final newlines.
- Unified.Emit: file names, and numbers as printed digits, are not modelled; the notice about a missing newline is a token that changes nothing.
- diff over directories (`diff_dirs`) and symbolic links.
- EditSession.Session.Run: drawing, searching for text, going to a line, loading and saving are only what they do to the cursor and the text; a read-only file is one whose keys do nothing. Prompts are left out: what was typed into one is part of the key.
- EditSession.Session.Press: a key that reads a mark left behind, or puts a newline inside a line, is excluded; the promise fails there, as shown above.
- EditPrompt.ReplacePrompt: the replacement holds no newline; the line that reads it and the count that is shown are left out.
- FdtRewrite.CopyWithFixups: valid headers whose sums wrap around are excluded, because the code reads outside the tree then, as shown above, and so are blocks in which a string, token or reservation goes on behind the end; messages are left out, and so is the loop that aligns the structure block to 8 bytes, which never has anything to do.
- FdtCopy.CopyMeans: the flags for being inside /chosen and a memory node stay set in the nodes below, as in the code, and the edit on trees is defined that way.
- AwkPrinter.ReadsBack: trees start from tokens; the lexer, its choice between division and a regular expression, and statements are left out. A printed `length` always has brackets, and the text is read outside a print list; inside one `AwkPrinter.Reads` says what is read.
- CalcPrinter.EvaluatesToValue: the tree has no value where something leaves 64 bits; exponents are at most 63 there. The parser itself wraps around as two's complement does, where the C standard leaves signed overflow open.
- CalcParser.Evaluate: the texts of error messages are left out.
- FatVolume.Volume.Find: the walk has to be over after some number of clusters, given as a ghost; where none is enough the code never ends, as shown above.
- FatVolume.Volume.WalkRoot: the same.
- FatDirectory.LongNameDelivered: names in ASCII only; other units become question marks.
- FatVolume.Volume.ReadFile: mounting is left out; a card is a map from block numbers to blocks, and a block that is not in it cannot be read.
- GuardWatch.Watch.Run: which processes are protected, and at what priority, is given and does not change; whether a slow pass is due is given for each round, because a storm may force one. Scores for the memory killer, the second application of priorities behind a storm and the texts of notices are left out.
- GuardStorm.KillBiggestGroup: the list is no longer than the table of groups, as in the code, so no group goes without a place; what a whole-group kill does to members that are protected is not promised against.
- NetlinkBatch.Batch.Put: what is written behind the sink is not modelled, only that it happens.
- NetlinkBatch.RuleCounter: counter values of fewer than 8 bytes, which the code reads past the end of, are excluded, as shown above.
- NetlinkBatch.Batch.ExprBegin: names shorter than 64 K.
- NetlinkRules.Apply: opening the socket, sending, and waiting for answers are left out; whether a table is there already is given. The configuration file is read by code that is left out, which asks for at most 24 ports.
- NetlinkPolicy.Fates: what the kernel does with each expression is modelled from its documented meaning: the register is read as far as the comparison goes, with zeros behind what was loaded; whether a limit is exceeded is given. How the chain of a hook is reached, connection tracking itself, and fragments are left out.
- NetlinkShown.StatusReads: user data other than a rule's label, as other programs write it, is left out.
- MemCopy.MemCpy: addresses are indices into one memory; a destination inside the source's region from behind is excluded, as the C standard excludes it.
- Ipv6Text.FmtV6: sockets and the base64 text in the same file are left out.
- GrepContext.Grepper.GrepFd: the matcher is any predicate on lines; separators between groups and the colour of matches are left out, and so is how file names are shown.
