# A model of Proc::ProcessTable's allocator, scrapers and table loops

Proc::ProcessTable reads the operating system's process table into Perl
hashes.  Its C side keeps everything it reads on an obstack, a
stack-of-objects allocator that the Cygwin build carries along
(`os/obstack.c`, `os/obstack.h`).  This project models, in Dafny 4.11,

* the obstack itself, as a class over a flat memory of 2^64 characters, and
  what every sequence of its operations keeps (`Bits`, `ChunkAllocator`,
  `Memory`, `Obstacks`, `ObstackRuns`);
* the `/proc` readers and `OS_get_table` of `os/Cygwin.c` as a client of that
  class, with temporary and retained objects on one obstack (`ProcFiles`,
  `ProcRecord`, `RecordFields`, `RecordLaws`, `Scraper`, `ProcessTable`), and the
  parsers shared with `os/Linux.c` (`Scanf`, `StatLine`, `Lines`, `StatusFile`, `CommandLines`);
* the format interpreter of `ProcessTable.xs` (`Bless`) and the argument
  decoder of `os/darwin.c` (`Darwin`, `DarwinBuffers`);
* the process-tree walks, the batched kernel-table loops and the rotating
  sample buffer of the Perl programs (`ProcTree`, `TableScans`,
  `SampleBuffer`); `Listings` is what the table loops of all ports share.

`dafny verify dfyconfig.toml` checks the whole project.

## How to read it

**The obstack.**  `Obstack` has the fields of `struct obstack`.  Memory is an
`array<char>` indexed by address; the struct at the front of each chunk
(`limit`, `prev`) is an entry of the field `headers`.  Four ghost fields say
what the concrete ones mean: `chain` (the chunks, oldest first), `objects`
(the finished objects that have not been freed, oldest first, each with its
address, its bytes and the index of its chunk), `growing` (the bytes of the
object being built) and `copied` (all bytes `_obstack_newchunk` has moved).
`Valid` ties them together.

**The allocator.**  `Allocator.Alloc` answers null or any region of the address
space apart from all blocks in use; which region, and when to refuse, is left
open.  Its ledger numbers the requests, so that "given back exactly once" can be
said, and it keeps the sizes that were refused.  The handler for a refused request is taken never to return: `failures`
counts its calls, a method answers `ok == false` exactly when it was called, and
nothing is done after that.

**The readers.**  What the system says about a process is the value `Proc`:
for each file either that it cannot be opened or the blocks `read` gives and
whether it then ends or fails.  `fmt` is the address of the process's format
string, a live object whose bytes `field_enable` lower-cases in place.
`Intact` says what the memory discipline of one turn of the loop is: the objects
of before and the new record are untouched, and every pointer kept so far leads
to a live object that holds what was read.

**The records.**  `RecordLaws` says what a record holds from end to end: from the
text the kernel prints for a process to the value under each key, without
reference to the argument list in between.

**Loops and recursion.**  Every loop of the modelled code is a method with a
loop, proved equal to a recursive function of its input; the properties are
proved of those functions.

## What was found

* The line loops of `init_static_vars` and `get_proc_status` never end on a text
  whose first character is a newline, and end on every other text
  (`Lines.NumberLoopEndsIff`, `StatusFile.StatusLoopEndsIff`).
* `field_enable` on a position that holds 'V' makes `bless_into_proc` croak, as
  'v' is no format letter; on every other documented letter it is safe
  (`Bless.EnableKnown`, `Bless.EnabledScalarCroaks`).  The croak is latent:
  `os/DecOSF.h` and `os/FreeBSD-kvm.h` have formats that hold 'V', and no caller
  switches fields on in those.
* On Digital Unix, when fetching a window fails, the `continue` skips only its
  first entry, and the others report the entries of the last window fetched; if
  the first fetch fails they report whatever the uninitialised array holds
  (`TableScans.FailedFetchRepeats`).  The scan is right for all tables of a size
  if and only if every window asked for is fetched
  (`TableScans.FlatIffFetched`).
* On Darwin, empty arguments in front are taken for padding but still counted,
  so that the environment's first strings are shown in their place.  Arguments
  are shown right before every environment if and only if there are none or the
  first is not empty (`DarwinBuffers.ShownRightIff`).
* `get_pids` ends exactly when no cycle of parent links hangs below a requested
  pid; one process that is its own parent is enough to keep it from ending
  (`ProcTree.EndsIff`, `ProcTree.SelfParentNeverEnds`).
* When `/proc` cannot be opened, `OS_get_table` of `os/Cygwin.c` returns without
  freeing its obstack, so its chunk is never given back (`ProcessTable.GetTable`).
* Three comments differ from their code, which the model follows.
  `get_proc_stat` says the first ')' is cut (os/Linux.c:332) but takes the last
  one; `read_file` says it leaves the obstack as it is on failure
  (os/Linux.c:225) but frees its object; `getproclline` says a '=' ends the
  arguments (os/darwin.c:435-441) but counts them.

## Model

| member | source | states |
|---|---|---|
| `Bits.AlignClears` | os/obstack.h:131-142 | the pointer-rounding mask clears the low bits of the wrapped sum |
| `Bits.AlignIsLeast` | os/obstack.h:131-142 | for every power-of-two alignment the macro yields the least aligned address not below its input; where the sum wraps it yields 0 |
| `Bits.NoneAbove` | os/obstack.h:131-142 | where the sum wraps there is no aligned address left below the end of the address space |
| `ChunkAllocator.Allocator.Alloc` | os/obstack.c:88-95 | null, or a block apart from all blocks in use, entered in the ledger |
| `ChunkAllocator.Allocator.Free` | os/obstack.c:97-104 | the block must be in use, so none is given back twice |
| `ChunkAllocator.LedgerServe` | os/obstack.c:88-95 | after a request every request ever served is in use at one address or was returned once |
| `ChunkAllocator.LedgerReturn` | os/obstack.c:97-104 | the same after a block is given back |
| `Obstacks.MallocOverhead` | os/obstack.c:121-136 | the two roundings of malloc's header and slack leave the default chunk size 4064 |
| `Obstacks.Obstack.Configure` | os/obstack.c:119-139 | zero asks for the default chunk size or alignment |
| `Obstacks.Obstack.FirstChunk` | os/obstack.c:144-150 | an obstack on its first chunk is valid, and its cursor is at the first aligned address |
| `Obstacks.Obstack.Begin` | os/obstack.c:113-153 | a valid, empty obstack of one chunk of the size asked for; it fails only if the allocator refuses that size, and then holds nothing |
| `Obstacks.NewChunkSize` | os/obstack.c:195-206 | the request goes out exactly when the needed size does not overflow; it is then for exactly that size, an eighth of the object and 100 bytes, without the last two if the sum would wrap, and never for less than the obstack's chunk size |
| `Obstacks.SizeSuffices` | os/obstack.c:195-206 | even where the padded size wraps, a block apart from the present chunk leaves room for header, alignment, nine eighths of the object and the new bytes |
| `Obstacks.Obstack.Acquire` | os/obstack.c:195-208 | null only if the allocator refused a request of exactly that size or the size overflows; else a block of that size, apart from every chunk, big enough |
| `Obstacks.Obstack.MoveTo` | os/obstack.c:209-218 | the growing object is copied whole to the first aligned address of the new chunk; no finished object changes |
| `Obstacks.Obstack.Relocate` | os/obstack.c:209-235 | the object goes on in the new chunk; the old chunk leaves the chain exactly when it is unused |
| `Obstacks.TopUnused` | os/obstack.c:223-226 | with no empty object about, a cursor at the first aligned address means that the chunk holds no finished object |
| `Obstacks.Obstack.RetireOld` | os/obstack.c:220-230 | the old chunk is given back exactly when the test says it is unused, and then no finished object, zero-length ones included, was in it |
| `Obstacks.Obstack.ReleaseBelow` | os/obstack.c:228-229 | one chunk is unlinked and given back; the rest of the chain stays linked |
| `Obstacks.Obstack.NewChunk` | os/obstack.c:187-236 | the growing object has the same bytes at an aligned base, there is room for the new bytes, the room is at least nine eighths of the object, the finished objects are the same; the new chunk has exactly the size asked for; failure changes nothing |
| `Obstacks.OwnerUnique` | os/obstack.c:253-256 | at most one chunk of the chain owns an address |
| `Obstacks.Obstack.OwnerOfObject` | os/obstack.c:274-277 | a live object, a zero-length one at a chunk's limit included, is owned by its own chunk and no other |
| `Obstacks.Obstack.AllocatedP` | os/obstack.c:246-262 | true exactly when some chunk of the chain owns the address |
| `Obstacks.Obstack.ReleaseUntil` | os/obstack.c:273-285 | chunks are given back, newest first, until one owns the address; the flag for empty objects is set if any was |
| `Obstacks.Obstack.FreeChunks` | os/obstack.c:267-295 | it aborts exactly when the address is not null and no chunk owns it |
| `Obstacks.Obstack.Unwind` | os/obstack.c:267-295 | called for a live object it never aborts, and stops at that object's chunk |
| `Obstacks.Obstack.MoveCursor` | os/obstack.h:421-428 | the short cut inside the newest chunk and the long way leave the same chain and cursor |
| `Obstacks.Obstack.Free` | os/obstack.h:421-428 | exactly the objects finished before the freed one remain, with their bytes; it never aborts |
| `Obstacks.Obstack.FreeAll` | os/obstack.c:264-295 | freeing null gives back every chunk |
| `Obstacks.Obstack.MemoryUsed` | os/obstack.c:297-308 | the sum of the sizes of the chunks in the chain, which is the sum of all blocks the allocator has in use, each counted once |
| `Obstacks.Obstack.MakeRoom` | os/obstack.h:300-306 | room for the bytes asked for, without any change if it was there; it fails only if it was not |
| `Obstacks.Obstack.Grow` | os/obstack.h:316-324 | the bytes are appended to the growing object; the finished objects are the same |
| `Obstacks.Obstack.OneGrow` | os/obstack.h:337-342 | one byte is appended; it copies the object at most once, and only to a chunk with nine eighths of its room |
| `Obstacks.Obstack.BlankFast` | os/obstack.h:271 | the bytes in the room, whatever they are, become part of the growing object |
| `Obstacks.Obstack.Blank` | os/obstack.h:378-384 | so many more bytes of any content behind those already there |
| `Obstacks.Obstack.NextStart` | os/obstack.h:412-417 | the least aligned address from the cursor to the chunk's limit, or the limit if there is none, although the rounding may wrap |
| `Obstacks.Obstack.Finish` | os/obstack.h:406-419 | the growing object joins the finished ones where it stands; an empty one is remembered in the flag |
| `Obstacks.Obstack.StoreGrowing` | os/Cygwin.c:254-262 | a store into the growing object changes those bytes and no other object |
| `Obstacks.Obstack.StoreObject` | os/Cygwin.c:179-182 | a store through a pointer into a live object changes those bytes of that object and no other object |
| `Obstacks.Obstack.Apart` | os/obstack.c:188-236 | in every valid state two live objects, the growing one included, share no byte, and each lies in a chunk of the chain |
| `Obstacks.Obstack.NonEmptyAligned` | os/obstack.h:406-419 | every finished object that holds a byte starts on the alignment, although the end of a chunk need not |
| `Obstacks.Obstack.ChunksConserved` | os/obstack.c:223-235 | in every state each block ever obtained is one chunk of the chain or was given back exactly once, never both |
| `Obstacks.Obstack.GrowEach` | os/obstack.c:196-218 | building an object of n bytes one at a time copies at most 9n bytes in all |
| `ObstackRuns.Perform` | os/obstack.h:316-428 | each operation a client can ask for takes the one step its kind allows, and the client's handles stay right |
| `ObstackRuns.Run` | os/obstack.h:316-428 | every sequence of operations is a run of such steps, through valid states only; it stops early only at an operation on no live object or a refused chunk |
| `ObstackRuns.Immovable` | os/obstack.h:378-428 | in every run a finished object keeps its address until it is freed, and its bytes unless they are stored to |
| `ObstackRuns.Unwinding` | os/obstack.c:267-295 | in every run, freeing an object brings back exactly the objects there were when it was begun |
| `Scanf.ScanPrinted` | os/Linux.c:328-330 | a printed number scans back to itself and leaves what follows it |
| `Scanf.ScanPrintAll` | os/Linux.c:365-399 | a printed row of numbers scans back to those numbers; asked for more, the scan stops where no number follows |
| `Scanf.ScanGaps` | os/Cygwin.c:569-575 | the same whatever white space stands between the numbers |
| `Scanf.ScanPastSpaces` | os/Cygwin.c:365-392 | white space in front of a number, as C knows it, does not matter |
| `Scanf.ScanPlus` | os/Cygwin.c:365-392 | a number with a plus sign is that number |
| `StatLine.StatReads` | os/Linux.c:313-434 | for every pid, every name with spaces and parentheses in it and every tail without ')': that pid, the name itself if it fits its field and its longest fitting front if not, the tail's own conversions, and the fields switched on exactly when all of them succeed (the name field has 16 bytes and 33 items must convert on Linux, 255 and 23 on Cygwin) |
| `StatLine.StatRoundTrip` | os/Linux.c:313-434 | a line printed from a process reads back as that process; with too few numbers those there are read and nothing is switched on |
| `Lines.LineStartsAre` | os/Linux.c:88-98 | the line starts are, in increasing order, the start of the text and every position behind a newline |
| `Lines.VisitsAreLineStarts` | os/Linux.c:88-98 | unless the text starts with a newline the loop visits exactly the line starts in order, blank lines included, and then ends |
| `Lines.NewlineFirstLoops` | os/Linux.c:88-98 | on a text that starts with a newline every visit is at its start |
| `Lines.LoopEndsIff` | os/Linux.c:88-98 | the loop, left without its exits, ends if and only if the text does not start with a newline |
| `Lines.NumberLoopEndsIff` | os/Linux.c:88-98 | with its `break` too: on a text that starts with a newline the word is never there to be found |
| `Lines.FirstNumberIs` | os/Linux.c:93-98 | the number found is that of the first line that carries the word and a number, and there is none only if no line does |
| `Lines.FirstNumberRead` | os/Linux.c:113-125 | if the first line with the word is the word, white space, a printed number and no digit behind it, that number is found |
| `Lines.StrNCmp` | os/Linux.c:93 | whether the text at an offset starts with the word, read through memory |
| `Lines.NextLine` | os/Linux.c:88-91 | the `strchr` and the increment lead to the next visit |
| `Lines.ScanForNumber` | os/Linux.c:88-98 | the loop returns that number |
| `Lines.SystemMemory` | os/Linux.c:113-125 | the memory size is 1024 times the number of the first MemTotal line that has one |
| `StatusFile.LineActs` | os/Linux.c:548-557 | a line acts on the ids of the word it carries and on no others |
| `StatusFile.EnabledIff` | os/Linux.c:542-563 | each group of fields is switched on if and only if some line carries its word, although the loop may stop early |
| `StatusFile.ReadUntilComplete` | os/Linux.c:559-562 | lines are looked at until everything wanted has been seen, and not one more |
| `StatusFile.LastLineDecides` | os/Linux.c:542-563 | for every text the last of the lines looked at that carries a word decides its ids; those it leaves open are as the lines before it left them |
| `StatusFile.UidsRead` | os/Linux.c:549-551 | of the numbers printed on the deciding "Uid:" line the second, third and fourth are the effective, saved and file-system user id; one that is missing leaves its id as the lines before left it |
| `StatusFile.GidsRead` | os/Linux.c:552-554 | the same for "Gid:" and the group ids |
| `StatusFile.TracerRead` | os/Linux.c:555-557 | the number printed on the deciding "TracerPid:" line is the tracer |
| `StatusFile.ValueUntouched` | os/Linux.c:542-563 | if no line looked at carries a word, its ids stay |
| `StatusFile.ValueFromItsLine` | os/Linux.c:542-563 | if one line alone carries a word, the user, group or tracer ids are what that line says, wherever it stands |
| `StatusFile.StatusLoopEndsIff` | os/Linux.c:542-563 | the loop, its short circuit included, ends if and only if the text does not start with a newline |
| `StatusFile.ScanStatus` | os/Linux.c:542-563 | the loop ends and computes what those lines say |
| `Bless.SplitArray` | ProcessTable.xs:160-167 | the loop of letter 'a' collects the NUL-separated strings of the buffer |
| `Bless.BlessIntoProc` | ProcessTable.xs:122-253 | the interpreter computes the walk of format, names and arguments; an unknown letter croaks |
| `Bless.StoreTtyDev` | ProcessTable.xs:76-97 | the terminal's name is stored, or an empty string when none is listed |
| `Bless.StoreArg` | ProcessTable.xs:149-239 | each letter stores its value under the field's name, and `ttynum` the terminal's name as well |
| `Bless.LastWriter` | ProcessTable.xs:147-243 | the last field that writes a key decides it, from its own argument slots: an enabled field holds its own value, an ignored one undef, and of `ttydev` and `ttynum` the later decides the terminal's name |
| `Bless.Untouched` | ProcessTable.xs:147-243 | a key that no field writes stays as it was |
| `Bless.NoCroak` | ProcessTable.xs:236-238 | it croaks if and only if some letter is unknown |
| `Bless.CroaksIff` | ProcessTable.xs:147-238 | the letters it takes are exactly "ASIULPJ", "asiulpj" and "V" |
| `Bless.FitsAt` | ProcessTable.xs:100-121 | what the caller owes is met at every field's own slots |
| `Bless.InStep` | os/Linux.c:176-189 | lower-casing any set of positions moves no field's argument slots |
| `Bless.EnableKnown` | os/Linux.c:176-189 | a format of known letters stays so if and only if no switched-on position holds 'V' |
| `Bless.EnabledScalarCroaks` | ProcessTable.xs:231-238 | a one-field format "V", switched on, croaks |
| `CommandLines.TwoViews` | os/Linux.c:470-504 | for every content of the file the decoded array joined with single spaces is the string made by the in-place pass |
| `CommandLines.DecodeEncode` | ProcessTable.xs:156-170 | NUL-terminated arguments decode to exactly themselves, empty ones included |
| `ProcFiles.ObstackPrintf` | os/obstack_printf.c:6-18 | the text is appended to the growing object |
| `ProcFiles.ProcPidFile` | os/Cygwin.c:201-215 | the path, closed by a NUL, is one new object |
| `ProcFiles.TryPath` | os/Cygwin.c:693-708 | a path built and freed again leaves the live objects as they were |
| `ProcFiles.ReadLoop` | os/Cygwin.c:250-259 | whatever the short reads, the growing object begins with the file's bytes and has room for the NUL, although it may have moved between reads |
| `ProcFiles.ReadFile` | os/Cygwin.c:230-272 | exactly the file's bytes and a NUL in one new object, the length, and earlier objects untouched; on a failed open or read null and the live objects as before |
| `ProcRecord.RecordFits` | os/Cygwin.c:791-835 | whichever fields are switched on, the argument list has for each of them what its letter takes |
| `ProcRecord.RecordExists` | os/Cygwin.c:791-835 | whatever the system says, the call for a process never croaks |
| `Scraper.FieldEnable` | os/Cygwin.c:179-182 | one more field is switched on in the live format string; no other object changes |
| `Scraper.FieldEnableRange` | os/Cygwin.c:184-192 | exactly the fields of the range are switched on as well |
| `Scraper.GetUserInfo` | os/Cygwin.c:282-305 | owner ids if the directory could be asked, and only then their fields; the live objects are as before |
| `Scraper.StatFields` | os/Cygwin.c:325-412 | the record of the parsed line, with the closing parenthesis overwritten in place and only that object changed |
| `Scraper.GetProcStat` | os/Cygwin.c:316-422 | the record of the file's text, its fields on exactly when every conversion succeeded, and the temporary text gone |
| `Scraper.StatusStep` | os/Cygwin.c:569-575 | a line with one of the words switches its fields on in the live format string at once |
| `Scraper.BothOn` | os/Cygwin.c:577-580 | the two letters of the format string tell exactly whether both groups of ids have been read |
| `Scraper.StatusLoop` | os/Cygwin.c:563-581 | the loop over the live text, switching fields on and stopping by the format string, reads what the lines say |
| `Scraper.GetProcStatus` | os/Cygwin.c:542-585 | the ids of the status file, their fields on exactly when found, and the temporary text gone |
| `Scraper.GetProcWinpid` | os/Cygwin.c:523-540 | the Windows pid, its field on exactly when it converts, and the temporary text gone |
| `Scraper.KeepFile` | os/Cygwin.c:479-521 | the file's bytes stay as one new object and the field is on, or nothing is kept and nothing changes |
| `Scraper.SpaceOut` | os/Cygwin.c:468-473 | the in-place loop makes every NUL but the last byte a space, in that object only |
| `Scraper.GetProcCmndline` | os/Cygwin.c:458-477 | the spaced text stays as one new object and the field is on |
| `Scraper.EvalLink` | os/Cygwin.c:424-456 | the resolved path stays as one new object and the field is on; the temporary path is gone |
| `Scraper.FixupFields` | os/Cygwin.c:594-642 | the state field is on exactly for a known state letter, the two time fields always |
| `Scraper.PercentFields` | os/Cygwin.c:652-675 | the memory share is on exactly when the memory size is known |
| `Scraper.NewProcess` | os/Cygwin.c:743-750 | the zeroed record and a fresh copy of the default format lie above the objects of before |
| `Scraper.AllFields` | os/Cygwin.c:743-789 | the fields switched on along the way are together exactly those whose reader found its value |
| `Scraper.Scrape` | os/Cygwin.c:743-789 | at the call of `bless_into_proc` the format string and all six kept texts are live and unmodified, whatever was freed in between, and the objects of before are untouched; a vanished process leaves exactly its record and format string |
| `Scraper.LoadTexts` | os/Cygwin.c:826-833 | every pointer argument, read through memory, gives the text that was read from its file or link |
| `ProcessTable.CheckPid` | os/Cygwin.c:682-691 | true exactly when every character lies between '0' and '9'; so for an empty name as well |
| `ProcessTable.BlessProcess` | os/Cygwin.c:791-835 | the hash pushed is the record of what the system said about the process |
| `ProcessTable.OneProcess` | os/Cygwin.c:737-839 | a completed turn returns the obstack to its live objects of before; a vanished process leaves two |
| `ProcessTable.Walk` | os/Cygwin.c:737-839 | the table is the records of exactly the entries whose names are digits alone and whose processes stayed, in the order of the directory; two objects are left for each that vanished |
| `ProcessTable.GetTable` | os/Cygwin.c:710-845 | exactly the records of the processes that stayed, in the order of the directory, and every chunk given back; if `/proc` cannot be opened an empty table and chunks kept |
| `RecordFields.FieldOf` | os/Cygwin.c:791-835 | every one of the 39 fields of every record holds the value of its own arguments if its reader found it, and undef if not |
| `RecordFields.TtyDevOf` | ProcessTable.xs:75-97 | the terminal's name is in the record exactly when the stat line was read, and is the name listed under that number written as an unsigned 64-bit one, or empty |
| `RecordFields.KeysOf` | os/Cygwin.c:791-835 | a record has no other keys |
| `RecordFields.RecordViewsAgree` | os/Cygwin.c:458-492 | in every record whose two readings found the same bytes, however the reads were cut, `cmdline` joined with spaces is `cmndline` |
| `RecordLaws.StatKeys` | os/Cygwin.c:365-409 | for every line the kernel prints for a process, whatever its name: `pid`, `fname`, `ppid`, `pgrp`, `sess`, `ttynum`, `flags`, the four fault counts, the four times, `priority`, `start`, `size`, `rss` and the two sums of times hold the printed numbers of their own columns |
| `RecordLaws.StateWord` | os/Cygwin.c:597-623 | the printed state letter gives the word of its case, and an unknown one undef |
| `RecordLaws.TtyDevKey` | ProcessTable.xs:76-97 | `ttydev` is looked up by the terminal number of the printed line |
| `RecordLaws.StatMissing` | os/Cygwin.c:410-418 | if the line did not convert, each of the keys from `pid` to `rss` is undef |
| `RecordLaws.TimesMissing` | os/Cygwin.c:630-642 | without a stat file the state is undef, and the sums of times are there all the same |
| `RecordLaws.OwnerKeys` | os/Cygwin.c:282-305 | `uid` and `gid` are the directory's owner and group, and undef if it could not be asked |
| `RecordLaws.UidKeys` | os/Cygwin.c:569-570 | `euid`, `suid` and `fuid` are the second, third and fourth number of the deciding "Uid:" line |
| `RecordLaws.GidKeys` | os/Cygwin.c:572-573 | `egid`, `sgid` and `fgid` are those of the deciding "Gid:" line |
| `RecordLaws.IdsMissing` | os/Cygwin.c:569-575 | without such a line the three keys of the word are undef |
| `RecordLaws.PercentKeys` | os/Cygwin.c:652-675 | `pctcpu` and `pctmem` hold their own texts, `pctmem` undef when the memory size is not known |
| `RecordLaws.LinkKeys` | os/Cygwin.c:424-456 | `exec`, `cwd` and `winexename` hold their own path, and undef when there is none |
| `RecordLaws.WinPidKey` | os/Cygwin.c:523-540 | a file that begins with a printed number gives `winpid` that number |
| `RecordLaws.EnvironKey` | os/Cygwin.c:495-507 | strings each closed by a NUL come back as the list `environ` |
| `RecordLaws.CmdlineKey` | os/Cygwin.c:479-492 | and as the list `cmdline` |
| `RecordLaws.CmndlineKey` | os/Cygwin.c:458-477 | while `cmndline` is their join with single spaces |
| `RecordLaws.FilesMissing` | os/Cygwin.c:458-540 | a file that could not be read, or holds no number for `winpid`, leaves its key undef |
| `Darwin.ItemsAre` | os/darwin.c:442-462 | strings laid out one after the other, and then an incomplete one or all that are wanted, are the strings found |
| `Darwin.CutArguments` | os/darwin.c:442-462 | the loop leaves in place the join of the complete arguments, at most as many as counted, closed by the last NUL |
| `Darwin.GetProcLine` | os/darwin.c:408-511 | for every buffer the command line is that join, or the bracketed short name if there is no complete argument |
| `DarwinBuffers.DecodesArguments` | os/darwin.c:408-511 | a buffer laid out as count, path, padding, arguments and anything decodes to the counted arguments; one that ends early to its complete ones; one with none to the short name in parentheses |
| `DarwinBuffers.CountRead` | os/darwin.c:408-409 | the first four bytes count the arguments, as a signed number, lowest byte first |
| `DarwinBuffers.DecodesStrings` | os/darwin.c:408-511 | for every list of strings: empty ones in front are skipped as padding, and as many of the others as were counted are shown |
| `DarwinBuffers.Decompose` | os/darwin.c:422-462 | whatever stands behind the padding is such a list and an incomplete string, so the two lemmas before speak of every buffer |
| `DarwinBuffers.ShownRightIff` | os/darwin.c:422-462 | arguments are shown right before every environment if and only if there are none or the first is not empty |
| `DarwinBuffers.EnvironmentShown` | os/darwin.c:422-462 | one empty argument before the environment "A=b" is shown as "A=b" |
| `ProcTree.GetPids` | lib/Proc/Killfam.pm:39-54 | the nested loops and the recursion compute the depth-first listing below each requested pid |
| `ProcTree.EndsIff` | lib/Proc/Killfam.pm:39-54 | the recursion ends if and only if no cycle of parent links hangs below the pid |
| `ProcTree.SelfParentNeverEnds` | lib/Proc/Killfam.pm:39-54 | a process that is its own parent keeps it from ending |
| `ProcTree.EnoughFuel` | lib/Proc/Killfam.pm:39-54 | without a cycle calls nest at most as deep as there are processes |
| `ProcTree.ListedOnce` | lib/Proc/Killfam.pm:39-54 | with unique pids and no cycle each process below a pid is listed exactly once, and nothing else is |
| `ProcTree.ListedPerAncestor` | lib/Proc/Killfam.pm:39-54 | each process is listed once for every requested pid that is its proper ancestor |
| `ProcTree.ParentsPrecede` | lib/Proc/Killfam.pm:44-48 | a listed process stands behind its parent |
| `ProcTree.SubprocIds` | contrib/ppt_profile.pl:126-135 | the loop over the matching rows computes its descent |
| `ProcTree.SameList` | contrib/ppt_profile.pl:126-135 | `subproc_ids` and `get_pids` make the same list for one root, and end in the same cases |
| `ProcTree.Killfam` | lib/Proc/Killfam.pm:24-37 | the pids signalled are those given and, when the table loads, the listing below them: with unique pids, every process below them once per ancestor |
| `TableScans.BlessProcs` | os/aix_getprocs.c:134-146 | every process of one batch, in order, less those in state SNONE; nothing for a failed fetch |
| `Listings.ScanLists` | os/aix_getprocs.c:95-105 | a pass over a table in which each entry reports at most one element lists exactly the entries that report, each once, in increasing order |
| `TableScans.AixTable` | os/aix_getprocs.c:95-105 | with successful fetches the list is the pids of exactly the entries that are not in state SNONE, in increasing order, sizes that are exact multiples of the batch included; with a failed one a front part |
| `TableScans.DecTable` | os/DecOSF.c:51-71 | what each entry number reports, in order, whichever fetches fail |
| `TableScans.DecScanIsFlat` | os/DecOSF.c:51-71 | when every window asked for is fetched, it always shows the entry asked for and the scan is the flat one |
| `TableScans.DecLists` | os/DecOSF.c:51-71 | the flat scan lists the pids of exactly the entries that are not empty and can be read, in increasing order |
| `TableScans.FlatIffFetched` | os/DecOSF.c:51-71 | for every table size, the scan is the flat one for all tables if and only if every window asked for is fetched |
| `TableScans.FailedFetchRepeats` | os/DecOSF.c:56-69 | whichever fetches fail: a failed one skips its first entry only, and the others report that slot of the last window fetched, or of whatever the array held at the start when none has been |
| `TableScans.HpuxTable` | os/HPUX.c:106-176 | the cursor loop lists the pids of exactly the slots in use, in increasing order, whatever the size of the burst |
| `SampleBuffer.Sampler.Record` | contrib/pctcpu_example.pl:44-52 | each process of the poll has its time in the current slot; the others are as before |
| `SampleBuffer.SampleIs` | contrib/pctcpu_example.pl:44-52 | of two entries with one pid the later gives the sample |
| `SampleBuffer.RingStep` | contrib/pctcpu_example.pl:34-57 | recording a poll keeps the ring of a process the samples of the polls in reach, each in its slot, and nothing else |
| `SampleBuffer.OldSlot` | contrib/pctcpu_example.pl:34-35 | the slot compared with holds the sample of exactly `num_steps - 1` polls ago if and only if the process was there in every poll since, and is undefined otherwise |
| `SampleBuffer.Sampler.Report` | contrib/pctcpu_example.pl:68-72 | each line has the last sample, the one of `num_steps - 1` polls ago or 0, and the time between those polls |
| `SampleBuffer.Sampler.TakePoll` | contrib/pctcpu_example.pl:34-78 | for every history of processes appearing, dying and pids coming back, exactly the processes of this poll are reported, each with its own line |

## Left out

- Begin: chunk sizes that leave less than 112 bytes above header and alignment padding are not modelled; the repository only uses the default size.
- FirstChunk: as for `Begin`, smaller chunks are not modelled.
- ObstackPrintf: output of 1024 characters and more is not modelled.
- Blank: says nothing about the content of the new bytes, as the source does not.
- ScanPrinted: as for `ScanInt`, numbers are unbounded.
- ScanPrintAll: as for `ScanInt`, numbers are unbounded.
- ScanInt: numbers are unbounded; what `sscanf` does with one that does not fit its type is not modelled.
- StatFields: the record is a value beside its obstack object; the object has its size only, so that the reader's stores into `struct procstat` are not stores into memory.
- EvalLink: resolved paths of 1024 characters and more are not modelled, as they pass through `obstack_printf`.
- GetProcStatus: a text that starts with a newline is excluded, as the loop does not end on it.
- BlessProcess: the scalar arguments are values carried beside the record's object, not loads from it.
- GetUserInfo: the directory's owner is given together with the path that asks for it.
- FixupFields: the unit conversions of times, start time and resident size are parameters of `System`.
- PercentFields: the two percentages are given as texts; their floating-point arithmetic is not modelled.
- GetTable: nothing is said of what happens when the allocator refuses a chunk, as the handler ends the process.
- BlessIntoProc: letters 'l', 'p' and 'j' go through a double, so that values beyond 2^53 are rounded, and this rounding is not modelled; blessing, the list of field names kept for Perl and reference counts are not modelled; each argument is one slot whatever its width.
- TtyName: the terminal table is a map; a negative number is looked up as the unsigned long it converts to.
- GetProcLine: `eflg` is 0, as in the repository's only call; the size the kernel reports is at most the buffer's, and the byte order is little-endian.
- GetPids: the ghost argument says how deep the calls nest; any depth that suffices will do, and `ProcTree.EndsIff` says when there is one.
- Killfam: sending the signal is not modelled.
- BlessProcs: of a process only its pid and whether its state is SNONE are modelled.
- DecTable: of a process only its pid, whether its slot is empty and whether its file can be opened and asked are modelled; the first call, which asks for the number of entries, is taken to succeed.
- Report: the ratio, its threshold and the printing are not modelled.
- `obstack_grow0`, `obstack_ptr_grow`, `obstack_int_grow`, `obstack_copy`, `obstack_empty_p`: combinations of modelled steps.
- `os/Linux.c` `OS_get_table`: its loop has the shape of the Cygwin one that is modelled; the memory check at the end of `init_static_vars` is left out.
- The sampling windows of `contrib/ppt_profile.pl`, the NUL replacement of `os/aix_getprocs.c` and the older `getproclline` of `os/darwin.c`, a self-described heuristic.
- System calls and kernel interfaces: their answers are parameters.
- The remaining ports, the terminal cache, the Perl modules and the build scripts: field copying and plumbing.
