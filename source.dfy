/** Where NiFile.Read gets its bytes: a loose file under the game directory,
    else the loaded BSA/BA2 archives, else a fatal "not found". Each fatal
    outcome is an exit code with the log lines written before the exit. */
module Source {
  import opened NifData

  /** Result of an existence check; `ProbeFault` is an exception thrown by the check itself.
      `File.Exists` answers false instead of throwing, so for the loose file `ProbeFault`
      over-approximates the program: the 502 exit of the loose-file check cannot happen there.
      `BSAArchive.FileExists` is not part of this model and may throw. */
  datatype Probe = Exists | Missing | ProbeFault(message: string)

  /** Result of reading the whole content of a source. */
  datatype Fetch = Fetched(data: seq<byte>) | FetchFault(message: string)

  /** The file system and archive state one `Read` observes. */
  datatype SourceEnv = SourceEnv(
    loose: Probe,        // File.Exists(gameDir + fileName)
    looseRead: Fetch,    // reading that file
    archive: Probe,      // BSAArchive.FileExists(fileName)
    archiveRead: Fetch)  // BSAArchive.GetFile(fileName)

  /** What the source selection yields: the bytes to parse, or a process exit with its log lines. */
  datatype Outcome = Bytes(data: seq<byte>) | Exit(code: int, log: seq<string>)

  const ModOrganizerHint: string :=
    "In case Mod Organizer is used, set output path outside of game and MO virtual file system directory"

  function AccessFailure(gameDir: string, fileName: string, message: string): Outcome {
    Exit(502, ["Error accessing " + gameDir + fileName + " " + message, ModOrganizerHint])
  }

  /** The source selection at the top of NiFile.Read. */
  function ResolveSource(gameDir: string, fileName: string, env: SourceEnv): (r: Outcome)
    ensures r.Bytes? <==>
      || (env.loose.Exists? && env.looseRead.Fetched?)
      || (env.loose.Missing? && env.archive.Exists? && env.archiveRead.Fetched?)
    ensures r.Bytes? ==> r.data == (if env.loose.Exists? then env.looseRead.data else env.archiveRead.data)
    ensures r.Exit? ==> r.code in {404, 500, 501, 502} && |r.log| >= 1
  {
    match env.loose
    case ProbeFault(m) => AccessFailure(gameDir, fileName, m)
    case Exists => (
      match env.looseRead
      case Fetched(data) => Bytes(data)
      case FetchFault(m) => Exit(500, ["Error reading " + fileName + " " + m]))
    case Missing => (
      match env.archive
      case ProbeFault(m) => AccessFailure(gameDir, fileName, m)
      case Exists => (
        match env.archiveRead
        case Fetched(data) => Bytes(data)
        case FetchFault(m) => Exit(501, ["Error reading " + fileName + " from BSA/BA2 " + m]))
      case Missing => Exit(404, [fileName + " not found"]))
  }

  /** A loose file, when it exists, decides the outcome: the archive is never consulted. */
  lemma LooseFileTakesPrecedence(gameDir: string, fileName: string, env: SourceEnv, other: SourceEnv)
    requires env.loose.Exists? && other.loose == env.loose && other.looseRead == env.looseRead
    ensures ResolveSource(gameDir, fileName, env) == ResolveSource(gameDir, fileName, other)
    ensures ResolveSource(gameDir, fileName, env).Bytes? <==> env.looseRead.Fetched?
  {
  }

  /** Each failure category has its own exit code. */
  lemma ExitCodeCategories(gameDir: string, fileName: string, env: SourceEnv)
    ensures var r := ResolveSource(gameDir, fileName, env);
      && (r.Exit? && r.code == 500 <==> env.loose.Exists? && env.looseRead.FetchFault?)
      && (r.Exit? && r.code == 501 <==>
            env.loose.Missing? && env.archive.Exists? && env.archiveRead.FetchFault?)
      && (r.Exit? && r.code == 404 <==> env.loose.Missing? && env.archive.Missing?)
      && (r.Exit? && r.code == 502 <==>
            env.loose.ProbeFault? || (env.loose.Missing? && env.archive.ProbeFault?))
  {
  }

  /** When neither source exists the log names the missing file. */
  lemma NotFoundMessage(gameDir: string, fileName: string, env: SourceEnv)
    requires env.loose.Missing? && env.archive.Missing?
    ensures ResolveSource(gameDir, fileName, env) == Exit(404, [fileName + " not found"])
  {
  }
}
