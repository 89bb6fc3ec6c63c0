# NiFile container model

A Dafny model of `NiFile`, the container-level driver of the NetImmerse/Gamebryo
NIF reader and writer in xLODGen. A NIF file is a header that declares a list of
`(block type name, byte size)` descriptors, followed by the blocks' bytes in
order and a two-int trailer. `NiFile` chooses where the bytes come from (a
loose file under the game directory, else the BSA/BA2 archives). It dispatches
each declared block through a registry from type names to classes. It writes
the header, the blocks and the trailer back out.

Modules:

- `Registry`: the `Kind` of every class the registry can build, and the
  constant `ClassTypes: map<string, Kind>`, alias included.
- `Source`: `ResolveSource`, the choice between the loose file, the archive and
  "not found", with each fatal outcome's exit code and log lines.
- `NifData`: bytes, header descriptors, decoded objects, and `Collaborators`.
  `Collaborators` holds, as function values, the code `NiFile` calls but does
  not define: the `NiHeader` reader, updater and writer, the per-type
  `NiObject` decoders and encoders, and `NiHeader.AddBlock`.
- `Load`: the block loop of `Read` as functions (`Step`, `Replay`) and the whole
  effect of `Read` (`ReadSpec`), with the lemmas about them.
- `Save`: the block loop of `Write` (`EmitBlocks`) and the whole effect of
  `Write` (`WriteSpec`), with the lemmas about them.
- `NifFile`: the `NiFile` class (fields `header` and `blocks`, methods `Read`,
  `Write`, `AddBlock`, functions `GetNumBlocks`, `GetBlockAtIndex`). Its methods
  are proved against `ReadSpec` and `WriteSpec`. The module also defines a small
  `LogFile` class that records the lines written to the log and whether it was
  closed.
- `Text`: the decimal rendering of a block index inside a log message.

Process exit (`System.Environment.Exit(code)`) is a returned `Some(code)`. A
.NET exception raised by a collaborator is `Threw(message)`. The block list is
`seq<Option<NiObject>>`, and `None` is the `null` that a skipped block leaves
behind.

The model follows what the code does, including where it departs from a
fatal-on-corrupt-block policy or from replacing the file's contents on each read:

- A decoder exception is not fatal. `Read` catches it, writes one log line,
  keeps the blocks loaded so far and returns without exiting.
- An unsupported block is not logged by itself. Its message is only stored in
  `error`, and it reaches the log only if a later exception ends the load.
- `Read` appends to `blocks` and never clears it. A second `Read` on the same
  object therefore extends the first one's list.
- `Read` does not check that the source bytes are non-empty. If the header
  reader throws on an empty stream, this is logged as "Read error <file>".
- The header is read into the `NiHeader` the file already holds
  (`this.header.Read(reader)`). The header reader therefore receives the current
  header as well as the bytes, so whatever a previous `Read` or `AddBlock` left in
  it can influence the outcome.
- `ReadBytes(count)` allocates `new byte[count]` before it reads anything. A
  declared size above `int.MaxValue` becomes a negative count under `(int)`,
  which it rejects. A size above 0x7FFFFFC7, the runtime's largest byte array,
  fails the allocation even on a short stream. In both cases `ReadBytes` throws
  (`NifData.MaxReadCount`). `error` has already been set to that block's
  "Unsupported block" text, and no tombstone is appended.
- `ReadBytes` past the end of the stream returns the bytes that are left. The
  cursor then stops at the end of the stream (`Load.Skip`).

## Model

| member | source | states |
|---|---|---|
| `Registry.LeafAnimNodeIsNiNode` | NiFile.cs:49-64 | "BSLeafAnimNode" and "NiNode" are both keys of the registry and build the same kind, NiNode |
| `Registry.LookupIsCaseSensitive` | NiFile.cs:231 | lookup is by exact string: "ninode", "NINODE" and "BSLeafAnimNode " are not registered |
| `Source.ResolveSource` | NiFile.cs:169-222 | bytes are obtained exactly when the loose file exists and reads, or no loose file exists and the archive entry exists and reads; they are the loose file's bytes whenever it exists; every other outcome is an exit with code 404, 500, 501 or 502 and at least one log line |
| `Source.LooseFileTakesPrecedence` | NiFile.cs:172-194 | when the loose file exists the outcome is the same whatever the archive holds, and is bytes exactly when reading the loose file succeeds |
| `Source.ExitCodeCategories` | NiFile.cs:187-221 | exit 500 iff the loose file exists and its read throws; 501 iff only the archive has the file and its read throws; 404 iff neither has it; 502 iff an existence check throws |
| `Source.NotFoundMessage` | NiFile.cs:209-214 | with neither source present the outcome is exit 404 with the single log line "<file> not found" |
| `Registry.ClassTypes` | NiFile.cs:11-157 | the registry from type names to the kinds `Read` builds, written out entry by entry; its defining properties are stated by `LeafAnimNodeIsNiNode` and `LookupIsCaseSensitive` |
| `Load.Skip` | NiFile.cs:240-241 | skipping a block advances the cursor by its size when the stream holds that many bytes, never moves it backwards within the stream, and otherwise stops it at the end |
| `Load.Step` | NiFile.cs:231-243 | one iteration appends at most one entry; from a state without an exception it throws exactly when it appends nothing; `error` either stays or comes to name this block |
| `Load.Replay` | NiFile.cs:229-251 | the loop after n iterations, an exception ending it for good: at most n entries appended, and `error` names, if any, a block before n |
| `Load.LastUnsupported` | NiFile.cs:225-239 | the index of the last unregistered block among the first m, whose message `error` holds; it is always below m |
| `Load.LoadSpec` | NiFile.cs:223-252 | after the source is chosen, Read never exits or closes the log and writes at most one line; a header-read exception keeps the current header, appends nothing and logs "Read error <file>"; otherwise the parsed header is installed and no more entries than it declares are appended |
| `Load.ReadSpec` | NiFile.cs:167-253 | the whole effect of Read: the log is closed exactly when the process exits, and every exit code is 404, 500, 501 or 502 |
| `Load.StepAppends` | NiFile.cs:231-243 | one loop iteration either throws and appends nothing, or appends exactly one entry. For a registered type the entry is the decoder's object read at the cursor, and the cursor moves to where the decoder stopped. Otherwise the entry is a tombstone and the cursor skips the declared size. An unregistered block always becomes `error`'s block, and its step throws exactly when its size is above `MaxReadCount` |
| `Load.ReplayPrefix` | NiFile.cs:229-244 | the entries appended after i iterations are a prefix of those appended after any later count: the loop only ever appends |
| `Load.ReplayEntryDecoded` | NiFile.cs:229-244 | entry i of the loaded list comes from block i's iteration, started from the cursor the earlier blocks left with exactly i entries before it. For a registered type the decoder succeeded there, the entry is its object, and block i+1 starts where the decoder stopped. For an unregistered type the entry is a tombstone and block i+1 starts after the skipped size |
| `Load.ReplayLength` | NiFile.cs:229-251 | after n iterations the list holds n new entries, or fewer than n when an exception ended the loop |
| `Load.ReplayEntries` | NiFile.cs:229-244 | entry i is a tombstone exactly when declared type i is not in the registry, and otherwise an object of the kind the registry gives for that name |
| `Load.ReplayError` | NiFile.cs:225-239 | the `error` variable holds the message of the last unsupported block looked at (the failing one included), or "Read error <file>" when there was none |
| `Load.LastUnsupportedIsLast` | NiFile.cs:225-239 | the block `error` names is unregistered and every later block looked at is registered; it names none exactly when every block looked at is registered |
| `Load.ReplayStaysFailed` | NiFile.cs:246-251 | once an exception has ended the loop, no later block is looked at |
| `Load.ReplayFailureAt` | NiFile.cs:226-251 | a failed load failed at the block right after the ones it kept, and its state is that block's failing step |
| `Load.DecodeFailureStopsLoad` | NiFile.cs:233-251 | a decoder exception at block k stops the load with exactly the k entries appended before it, and `error` still names the last unsupported block before k |
| `Load.UnsupportedBlockSkipped` | NiFile.cs:237-243 | an unregistered block whose size is at most `MaxReadCount`, in a stream that holds that many bytes past the cursor, moves the cursor by exactly its declared size and appends a tombstone. The step is the same whatever the decoders do (no decoder runs) |
| `Load.OversizeStopsLoad` | NiFile.cs:237-248 | an unregistered block whose size is above `MaxReadCount` makes `ReadBytes` throw: the load ends failed, keeps exactly the entries before that block, and `error` names that block |
| `Load.ReplayCompletes` | NiFile.cs:229-244 | when every decoder call succeeds and every unregistered size is a valid count, the loop reaches the last declared block |
| `Load.ReplayCursorInStream` | NiFile.cs:223-244 | with readers that never move backwards or past the end, the cursor stays between the header's end and the end of the stream |
| `Load.ReadExitLeavesFileAlone` | NiFile.cs:187-221 | a fatal source outcome returns its exit code, closes the log and leaves the header and the block list unchanged |
| `Load.ReadLogsAtMostOnce` | NiFile.cs:223-251 | once bytes are obtained, Read never exits, never closes the log and writes at most one log line |
| `Load.ReadLoadsEveryBlock` | NiFile.cs:228-244 | without an exception Read installs the parsed header, appends one entry per declared block (a tombstone exactly for unregistered types) and logs nothing |
| `Load.ReadLogsFailure` | NiFile.cs:246-251 | when an exception ends the load, fewer entries than declared are appended and the single log line is the last "Unsupported block" text, else "Read error <file>" |
| `Load.ThreeBlockExample` | NiFile.cs:229-244 | declared types NiNode, UnknownFutureType, NiTriShapeData load as a NiNode object, a tombstone and a NiTriShapeData object, with no exception, `error` naming block 1 and nothing logged |
| `Text.DecimalString` | NiFile.cs:239 | the index in a message is a non-empty string of decimal digits without a leading zero |
| `Text.DecimalRoundTrip` | NiFile.cs:239 | the rendered index reads back as the same number |
| `Text.DecimalInjective` | NiFile.cs:239 | different indices render as different text |
| `Save.Int32LE` | NiFile.cs:266-267 | an int is written as four bytes |
| `Save.Int32RoundTrip` | NiFile.cs:266-267 | reading back the four bytes written for an int gives that int |
| `Save.TrailerBytes` | NiFile.cs:266-267 | the trailer is the bytes 1,0,0,0,0,0,0,0, which read back as int32 1 and int32 0 |
| `Save.EmitBlocks` | NiFile.cs:262-265 | the block loop of Write over the first n declared blocks, stopping at the first exception; it completes only when the list holds at least n entries |
| `Save.WriteSpec` | NiFile.cs:255-277 | the whole effect of Write: on success nothing is logged and the output ends with the trailer; otherwise the exit code is 502 with two log lines |
| `Save.EmitStaysFaulted` | NiFile.cs:262-270 | once a block write throws, no later block is written |
| `Save.EmitBlocksFaultFree` | NiFile.cs:262-265 | the block loop completes exactly when every block it visits is present and encodes |
| `Save.EmitInIndexOrder` | NiFile.cs:262-265 | a completed block loop emits the blocks' encodings one after another in index order |
| `Save.EmitBlocksPrefix` | NiFile.cs:262-265 | the bytes emitted for earlier blocks are a prefix of what is emitted after later ones |
| `Save.WriteLayout` | NiFile.cs:255-277 | Write succeeds exactly when the file opens, the header updates and writes, and every block the updated header declares is present and encodes; the output is then the updated header, the block encodings in index order and 1,0,0,0,0,0,0,0, with nothing logged; otherwise exit 502 with the "Error writing" line and the Mod Organizer hint |
| `Save.WriteTombstoneExits` | NiFile.cs:260-276 | a null entry in the block list makes Write end in exit 502, given a header update that keeps one descriptor per block |
| `NifFile.NiFile.constructor` | NiFile.cs:161-165 | a new file has a fresh header and an empty block list |
| `NifFile.NiFile.Read` | NiFile.cs:167-253 | the exit code, new header, log lines and log closure are those of `ReadSpec`, and the blocks are the old blocks followed by the newly loaded ones |
| `NifFile.NiFile.LoadBlocks` | NiFile.cs:223-252 | the header read and block loop leave the header, the appended blocks and the log as `LoadSpec` states, and do not close the log |
| `NifFile.NiFile.DispatchBlocks` | NiFile.cs:229-251 | the block loop appends exactly `Replay`'s entries over the declared blocks and leaves the header alone. It logs the `error` text once if an exception ended the loop, and nothing otherwise |
| `NifFile.ReadSource` | NiFile.cs:169-222 | the source chosen is `ResolveSource`'s; a fatal outcome writes its log lines and closes the log, while bytes leave the log untouched |
| `NifFile.LogAccessFailure` | NiFile.cs:216-221 | an access failure logs "Error accessing <dir><file> <message>" and the Mod Organizer hint, closes the log and means exit 502 |
| `NifFile.NiFile.Write` | NiFile.cs:255-277 | the exit code, output bytes, updated header and log lines are those of `WriteSpec`; the block list is unchanged |
| `NifFile.LogWriteFailure` | NiFile.cs:270-276 | a write failure logs "Error writing <file> <message>" and the Mod Organizer hint, closes the log and means exit 502 |
| `NifFile.NiFile.GetNumBlocks` | NiFile.cs:279-282 | the count is the length of the block list, not the header's count |
| `NifFile.NiFile.GetBlockAtIndex` | NiFile.cs:284-287 | an index inside the list gives that entry (possibly null); any other index throws |
| `NifFile.NiFile.AddBlock` | NiFile.cs:329-334 | the object is appended, the header registers it, and the index returned is the count before the append, where the object can be read back |
| `NifFile.AddBlockNumbersFromZero` | NiFile.cs:329-334 | on a fresh file, three AddBlock calls return 0, 1 and 2 |

## Left out

- The loop that retries acquiring the file stream (`Utils.GetFileStream`). It polls blocking I/O with no bound, so the model takes the file's read result as given.
- `BinaryReader`, `BinaryWriter`, `MemoryStream` and `FileStream` mechanics. The stream is a `seq<byte>` and the reader's position is a `nat`. Buffering and flushing of the output file are not modelled: `Write`'s output is every byte handed to the writer.
- Partial output from a collaborator that throws part-way: a header or block write that throws contributes no bytes.
- The inside of `NiHeader` (`Read`, `Update`, `Write`, `AddBlock`, the string table), the per-type `NiObject.Read`/`Write` codecs and `BSAArchive`. These are not part of this model. They are function values in `Collaborators` (or `SourceEnv` for the existence checks and reads), and their exceptions are `Threw(message)`.
- The state of the header after `NiHeader.Read` throws: the model keeps the previous header.
- The pass-through members `GetStringAtIndex`, `SetHeaderString`, `GetVersion`, `SetVersion`, `GetUserVersion`, `SetUserVersion`, `SetUserVersion2`, `SetCreator` and `AddString` (NiFile.cs:289-327, 336-339). They only forward to `NiHeader`, whose internals are not part of this model.
- Reflection (`Activator.CreateInstance`). The registry maps names to the `Kind` datatype, and a decoded object records its kind.
- `LogFile` beyond recording lines and closure, and `System.Environment.Exit`, which is the returned exit code.
- `AddBlock(null)`: the parameter is a present object. The model does not cover the exception that `NiHeader.AddBlock` would raise on a null argument.
- An `OutOfMemoryException` from `ReadBytes` for a count the runtime allows but the process cannot allocate at that moment. It depends on available memory, so only counts above `MaxReadCount` are modelled as throwing.
- Exceptions thrown by the logger itself, and reads of files over 2 GB (the `(int)length` cast).
- The round trip from `Write` back through `Read`. Whether a written block decodes to the same object depends on the per-type codecs, which are not part of this model. The model proves only the container layout that `Write` emits.
- The text of the runtime's own exceptions (a null block or an index past the list during `Write`, a bad index in `GetBlockAtIndex`). The model uses the .NET Framework messages as constants.
- Registry.LeafAnimNodeIsNiNode: the model does not prove that the alias is the only name two keys share. The registry's contents are written out entry by entry in `Registry.ClassTypes`.
