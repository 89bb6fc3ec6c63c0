/** The NiFile container: a header and a block list that Read, Write and
    AddBlock update in place, and the log the operations write to. */
module NifFile {
  import opened Wrappers
  import opened Registry
  import opened NifData
  import opened Source
  import opened Load
  import opened Save

  /** The diagnostics sink: the lines written so far and whether it has been closed. */
  class LogFile {
    var lines: seq<string>
    var closed: bool

    constructor()
      ensures lines == [] && !closed
    {
      lines, closed := [], false;
    }

    method WriteLog(line: string)
      modifies this
      ensures lines == old(lines) + [line] && closed == old(closed)
    {
      lines := lines + [line];
    }

    method Close()
      modifies this
      ensures closed && lines == old(lines)
    {
      closed := true;
    }
  }

  class NiFile {
    /** The header and block codecs this file works with. */
    const io: Collaborators
    var header: Header
    /** `None` is the null a skipped (unregistered) block leaves in the list. */
    var blocks: seq<Option<NiObject>>

    constructor(io: Collaborators)
      ensures this.io == io && header == io.emptyHeader && blocks == []
    {
      this.io := io;
      header := io.emptyHeader;
      blocks := [];
    }

    /** Selects the source, reads the header and loads every declared block, appending to
        the blocks already held. A fatal source outcome logs, closes the log and returns the
        process exit code; an exception while loading blocks is logged and ends the load. */
    method Read(gameDir: string, fileName: string, env: SourceEnv, logFile: LogFile) returns (exit: Option<int>)
      modifies this, logFile
      ensures var e := ReadSpec(io, gameDir, fileName, env, old(header));
        && exit == e.exit && header == e.header && blocks == old(blocks) + e.appended
        && logFile.lines == old(logFile.lines) + e.log
        && logFile.closed == (old(logFile.closed) || e.closesLog)
    {
      var source := ReadSource(gameDir, fileName, env, logFile);
      if source.Exit? {
        return Some(source.code);
      }
      LoadBlocks(ClassTypes, gameDir, fileName, source.data, logFile);
      exit := None;
    }

    /** The header read and block loop of Read, over the bytes of the selected source,
        dispatching through `registry` (Read passes the static ClassTypes). */
    method LoadBlocks(registry: map<string, Kind>, gameDir: string, fileName: string, data: seq<byte>, logFile: LogFile)
      modifies this, logFile
      ensures var e := LoadSpec(registry, io, gameDir, fileName, data, old(header));
        && header == e.header && blocks == old(blocks) + e.appended
        && logFile.lines == old(logFile.lines) + e.log && logFile.closed == old(logFile.closed)
    {
      var parsed := io.readHeader(header, data);
      if parsed.Threw? {
        logFile.WriteLog(ReadErrorMessage(fileName));
        return;
      }
      header := parsed.value.header;
      DispatchBlocks(registry, gameDir, fileName, data, parsed.value.next, logFile);
    }

    /** The block loop of Read: dispatches every block the header declares through `registry`,
        starting at stream position `start`, and on an exception logs the `error` text and stops. */
    method DispatchBlocks(registry: map<string, Kind>, gameDir: string, fileName: string, data: seq<byte>,
                          start: nat, logFile: LogFile)
      modifies this, logFile
      ensures var input := LoadInput(registry, io, old(header), data, gameDir, fileName, start);
        var r := Replay(input, |old(header).blocks|);
        && header == old(header) && blocks == old(blocks) + r.loaded
        && logFile.lines == old(logFile.lines) + (if r.failed then [ErrorText(input, r.lastUnsupported)] else [])
        && logFile.closed == old(logFile.closed)
    {
      var error := ReadErrorMessage(fileName);
      var pos := start;
      ghost var input := LoadInput(registry, io, header, data, gameDir, fileName, start);
      ghost var before := blocks;
      var index := 0;
      while index < |header.blocks|
        invariant index <= |header.blocks| == |input.header.blocks| && header == input.header
        invariant var s := Replay(input, index);
          && !s.failed && blocks == before + s.loaded && pos == s.pos
          && error == ErrorText(input, s.lastUnsupported)
        invariant logFile.lines == old(logFile.lines) && logFile.closed == old(logFile.closed)
      {
        assert Replay(input, index + 1) == Step(input, index, Replay(input, index));
        var info := header.blocks[index];
        if info.typeName in registry {
          var kind := registry[info.typeName];
          var decoded := io.decode(kind, header, data, pos);
          if decoded.Threw? {
            ReplayStaysFailed(input, index + 1, |header.blocks|);
            logFile.WriteLog(error);
            return;
          }
          blocks := blocks + [Some(NiObject(kind, decoded.value.fields))];
          pos := decoded.value.next;
        } else {
          error := UnsupportedMessage(index, info.typeName, gameDir, fileName);
          if info.size > MaxReadCount {
            ReplayStaysFailed(input, index + 1, |header.blocks|);
            logFile.WriteLog(error);
            return;
          }
          pos := Skip(data, pos, info.size);
          blocks := blocks + [None];
        }
        index := index + 1;
      }
    }

    /** Updates the header from the block list, then emits the header, every block in index
        order and the trailer. Any exception logs, closes the log and yields exit code 502. */
    method Write(fileName: string, openFault: Option<string>, logFile: LogFile)
      returns (exit: Option<int>, output: seq<byte>)
      modifies this, logFile
      ensures var e := WriteSpec(io, fileName, openFault, old(header), old(blocks));
        && exit == e.exit && output == e.output && header == e.header && blocks == old(blocks)
        && logFile.lines == old(logFile.lines) + e.log
        && logFile.closed == (old(logFile.closed) || e.exit.Some?)
    {
      output := [];
      if openFault.Some? {
        exit := LogWriteFailure(fileName, openFault.value, logFile);
        return;
      }
      var updated := io.updateHeader(header, blocks);
      if updated.Threw? {
        exit := LogWriteFailure(fileName, updated.message, logFile);
        return;
      }
      header := updated.value;
      var headerBytes := io.writeHeader(header);
      if headerBytes.Threw? {
        exit := LogWriteFailure(fileName, headerBytes.message, logFile);
        return;
      }
      output := headerBytes.value;
      var index := 0;
      while index < |header.blocks|
        invariant index <= |header.blocks| && header == updated.value && blocks == old(blocks)
        invariant var e := EmitBlocks(io, header, blocks, index);
          e.fault.None? && output == headerBytes.value + e.bytes
        invariant logFile.lines == old(logFile.lines) && logFile.closed == old(logFile.closed)
      {
        var fault: Option<string> := None;
        if index >= |blocks| {
          fault := Some(IndexOutOfRangeText);
        } else {
          match blocks[index] {
            case None =>
              fault := Some(NullReferenceText);
            case Some(obj) =>
              var encoded := io.encode(obj, header);
              match encoded {
                case Threw(m) => fault := Some(m);
                case Ok(b) => output := output + b;
              }
          }
        }
        if fault.Some? {
          EmitStaysFaulted(io, header, blocks, index + 1, |header.blocks|);
          exit := LogWriteFailure(fileName, fault.value, logFile);
          return;
        }
        index := index + 1;
      }
      output := output + Trailer;
      exit := None;
    }

    /** The number of blocks in the list (not the header's count). */
    function GetNumBlocks(): (n: int)
      reads this
      ensures n == |blocks|
    {
      |blocks|
    }

    /** The block at `index`; an index outside the list throws. */
    function GetBlockAtIndex(index: int): (r: Attempt<Option<NiObject>>)
      reads this
      ensures r.Ok? <==> 0 <= index < |blocks|
      ensures r.Ok? ==> r.value == blocks[index]
      ensures r.Threw? ==> r.message == IndexOutOfRangeText
    {
      if 0 <= index < |blocks| then Ok(blocks[index]) else Threw(IndexOutOfRangeText)
    }

    /** Appends a block, registers it with the header and returns its index. */
    method AddBlock(obj: NiObject) returns (index: int)
      modifies this
      ensures blocks == old(blocks) + [Some(obj)] && header == io.addBlock(old(header), obj)
      ensures index == |old(blocks)| == GetNumBlocks() - 1
      ensures GetBlockAtIndex(index) == Ok(Some(obj))
    {
      blocks := blocks + [Some(obj)];
      header := io.addBlock(header, obj);
      index := |blocks| - 1;
    }
  }

  /** The source selection of Read: the bytes of the loose file or of the archive entry, or
      the log lines, log close and exit code of a fatal outcome. */
  method ReadSource(gameDir: string, fileName: string, env: SourceEnv, logFile: LogFile) returns (source: Outcome)
    modifies logFile
    ensures source == ResolveSource(gameDir, fileName, env)
    ensures source.Bytes? ==> logFile.lines == old(logFile.lines) && logFile.closed == old(logFile.closed)
    ensures source.Exit? ==> logFile.lines == old(logFile.lines) + source.log && logFile.closed
  {
    match env.loose {
      case ProbeFault(m) =>
        source := LogAccessFailure(gameDir, fileName, m, logFile);
      case Exists =>
        match env.looseRead {
          case FetchFault(m) =>
            logFile.WriteLog("Error reading " + fileName + " " + m);
            logFile.Close();
            source := Exit(500, ["Error reading " + fileName + " " + m]);
          case Fetched(d) =>
            source := Bytes(d);
        }
      case Missing =>
        match env.archive {
          case ProbeFault(m) =>
            source := LogAccessFailure(gameDir, fileName, m, logFile);
          case Exists =>
            match env.archiveRead {
              case FetchFault(m) =>
                logFile.WriteLog("Error reading " + fileName + " from BSA/BA2 " + m);
                logFile.Close();
                source := Exit(501, ["Error reading " + fileName + " from BSA/BA2 " + m]);
              case Fetched(d) =>
                source := Bytes(d);
            }
          case Missing =>
            logFile.WriteLog(fileName + " not found");
            logFile.Close();
            source := Exit(404, [fileName + " not found"]);
        }
    }
  }

  /** The two log lines, log close and exit code of a failure to access the source. */
  method LogAccessFailure(gameDir: string, fileName: string, message: string, logFile: LogFile)
    returns (source: Outcome)
    modifies logFile
    ensures source == AccessFailure(gameDir, fileName, message)
    ensures logFile.lines == old(logFile.lines) + source.log && logFile.closed
  {
    logFile.WriteLog("Error accessing " + gameDir + fileName + " " + message);
    logFile.WriteLog(ModOrganizerHint);
    logFile.Close();
    source := AccessFailure(gameDir, fileName, message);
  }

  /** The two log lines, log close and exit code of a failed Write. */
  method LogWriteFailure(fileName: string, message: string, logFile: LogFile) returns (exit: Option<int>)
    modifies logFile
    ensures exit == Some(502) && logFile.lines == old(logFile.lines) + WriteFailureLog(fileName, message)
    ensures logFile.closed
  {
    logFile.WriteLog("Error writing " + fileName + " " + message);
    logFile.WriteLog(ModOrganizerHint);
    logFile.Close();
    exit := Some(502);
  }

  /** On a fresh file, AddBlock hands out the indices 0, 1, 2, ... */
  method AddBlockNumbersFromZero(io: Collaborators, a: NiObject, b: NiObject, c: NiObject)
    returns (first: int, second: int, third: int)
    ensures first == 0 && second == 1 && third == 2
  {
    var file := new NiFile(io);
    first := file.AddBlock(a);
    second := file.AddBlock(b);
    third := file.AddBlock(c);
  }
}
