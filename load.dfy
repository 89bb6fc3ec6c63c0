/** The block-loading half of NiFile.Read as functions of its inputs: one
    `Step` per declared block over a shared cursor, `Replay` of the first n
    steps, and `ReadSpec`, the whole effect of one Read call. */
module Load {
  import opened Wrappers
  import opened Text
  import opened Registry
  import opened NifData
  import opened Source

  /** Everything the block loop depends on once the header has been read. */
  datatype LoadInput = LoadInput(
    registry: map<string, Kind>,  // the type registry consulted (NiFile uses ClassTypes)
    io: Collaborators,
    header: Header,
    bytes: seq<byte>,
    gameDir: string,
    fileName: string,
    start: nat)  // the reader's position just after the header

  /** The loop's state: blocks appended so far, the reader's position, the index of the
      unsupported block whose message the `error` variable holds (none: still "Read error"),
      and whether an exception has ended the loop. */
  datatype LoadState = LoadState(loaded: seq<Option<NiObject>>, pos: nat, lastUnsupported: Option<nat>, failed: bool)

  /** What Read does to the file and the log. `appended` goes after the blocks already held. */
  datatype ReadEffect = ReadEffect(
    exit: Option<int>,
    header: Header,
    appended: seq<Option<NiObject>>,
    log: seq<string>,
    closesLog: bool)

  function ReadErrorMessage(fileName: string): string {
    "Read error " + fileName
  }

  function UnsupportedMessage(index: nat, typeName: string, gameDir: string, fileName: string): string {
    "Unsupported block " + DecimalString(index) + " " + typeName + " in " + gameDir + fileName
  }

  /** The text of the `error` variable. */
  function ErrorText(input: LoadInput, lastUnsupported: Option<nat>): string
    requires lastUnsupported.Some? ==> lastUnsupported.value < |input.header.blocks|
  {
    match lastUnsupported
    case None => ReadErrorMessage(input.fileName)
    case Some(i) => UnsupportedMessage(i, input.header.blocks[i].typeName, input.gameDir, input.fileName)
  }

  /** `BinaryReader.ReadBytes(count)` on the memory stream: it consumes what is left, up to `count`. */
  function Skip(bytes: seq<byte>, pos: nat, count: nat): (next: nat)
    ensures pos + count <= |bytes| ==> next == pos + count
    ensures pos <= |bytes| ==> pos <= next <= |bytes|
    ensures pos + count > |bytes| ==> next == if pos <= |bytes| then |bytes| else pos
  {
    if pos + count <= |bytes| then pos + count else if pos <= |bytes| then |bytes| else pos
  }

  /** One iteration of the loop for block `i`. A known type runs its decoder and appends the
      object; an unknown type records its message in `error`, skips its declared size and
      appends a tombstone. A size above `MaxReadCount` makes `ReadBytes` throw (a negative
      count, or an array larger than the runtime allows) after `error` has been set. */
  function Step(input: LoadInput, i: nat, s: LoadState): (r: LoadState)
    requires i < |input.header.blocks|
    ensures |s.loaded| <= |r.loaded| <= |s.loaded| + 1
    ensures !s.failed ==> (r.failed <==> r.loaded == s.loaded)
    ensures r.lastUnsupported == s.lastUnsupported || r.lastUnsupported == Some(i)
  {
    var info := input.header.blocks[i];
    if info.typeName in input.registry then
      var kind := input.registry[info.typeName];
      match input.io.decode(kind, input.header, input.bytes, s.pos)
      case Threw(_) => s.(failed := true)
      case Ok(d) => s.(loaded := s.loaded + [Some(NiObject(kind, d.fields))], pos := d.next)
    else if info.size > MaxReadCount then s.(lastUnsupported := Some(i), failed := true)
    else s.(loaded := s.loaded + [None], pos := Skip(input.bytes, s.pos, info.size), lastUnsupported := Some(i))
  }

  /** The state after the first `n` iterations; an exception ends the loop for good. */
  function Replay(input: LoadInput, n: nat): (r: LoadState)
    requires n <= |input.header.blocks|
    ensures |r.loaded| <= n
    ensures r.lastUnsupported.Some? ==> r.lastUnsupported.value < n
  {
    if n == 0 then LoadState([], input.start, None, false)
    else
      var s := Replay(input, n - 1);
      if s.failed then s else Step(input, n - 1, s)
  }

  /** The last unsupported block among `0..m-1`, whose message `error` holds after them. */
  function LastUnsupported(input: LoadInput, m: nat): (r: Option<nat>)
    requires m <= |input.header.blocks|
    ensures r.Some? ==> r.value < m
  {
    if m == 0 then None
    else if input.header.blocks[m - 1].typeName in input.registry then LastUnsupported(input, m - 1)
    else Some(m - 1)
  }

  /** The effect of the part of Read after the source is selected: header, block loop, log. */
  function LoadSpec(registry: map<string, Kind>, io: Collaborators, gameDir: string, fileName: string, data: seq<byte>, current: Header): (r: ReadEffect)
    ensures r.exit == None && !r.closesLog && |r.log| <= 1
    ensures io.readHeader(current, data).Threw? ==>
      r.header == current && r.appended == [] && r.log == [ReadErrorMessage(fileName)]
    ensures io.readHeader(current, data).Ok? ==>
      r.header == io.readHeader(current, data).value.header && |r.appended| <= |r.header.blocks|
  {
    match io.readHeader(current, data)
    case Threw(_) => ReadEffect(None, current, [], [ReadErrorMessage(fileName)], false)
    case Ok(hr) =>
      var input := LoadInput(registry, io, hr.header, data, gameDir, fileName, hr.next);
      var r := Replay(input, |hr.header.blocks|);
      ReadEffect(None, hr.header, r.loaded, if r.failed then [ErrorText(input, r.lastUnsupported)] else [], false)
  }

  /** The whole effect of `Read(gameDir, fileName, logFile)` on a file whose header is `current`. */
  function ReadSpec(io: Collaborators, gameDir: string, fileName: string, env: SourceEnv, current: Header): (r: ReadEffect)
    ensures r.closesLog <==> r.exit.Some?
    ensures r.exit.Some? ==> r.exit.value in {404, 500, 501, 502}
  {
    match ResolveSource(gameDir, fileName, env)
    case Exit(code, lines) => ReadEffect(Some(code), current, [], lines, true)
    case Bytes(data) => LoadSpec(ClassTypes, io, gameDir, fileName, data, current)
  }

  // ---------------------------------------------------------------------------
  // Properties of the loop

  /** After n iterations: one entry per block looked at, unless an exception stopped the loop,
      which appends nothing for the failing block. */
  lemma {:induction false} ReplayLength(input: LoadInput, n: nat)
    requires n <= |input.header.blocks|
    ensures var r := Replay(input, n);
      && (!r.failed ==> |r.loaded| == n)
      && (r.failed ==> |r.loaded| < n)
  {
    if n > 0 {
      ReplayLength(input, n - 1);
    }
  }

  /** The entry a block of type `info` leaves in the list: an object of the registered kind,
      or a tombstone when the type is not registered. */
  predicate EntryFits(registry: map<string, Kind>, info: BlockInfo, entry: Option<NiObject>) {
    if info.typeName in registry then entry.Some? && entry.value.kind == registry[info.typeName]
    else entry.None?
  }

  /** One iteration either fails and appends nothing, or appends exactly one fitting entry:
      the decoder's object read at the cursor, after which the cursor is where the decoder
      stopped, or a tombstone, after which the cursor has skipped the declared size. */
  lemma StepAppends(input: LoadInput, i: nat, s: LoadState)
    requires i < |input.header.blocks| && !s.failed
    ensures var r := Step(input, i, s);
      || (r.failed && r.loaded == s.loaded)
      || (!r.failed && r.loaded == s.loaded + [r.loaded[|s.loaded|]] &&
          EntryFits(input.registry, input.header.blocks[i], r.loaded[|s.loaded|]))
    ensures var r := Step(input, i, s); var info := input.header.blocks[i];
      !r.failed ==>
        if info.typeName in input.registry then
          var kind := input.registry[info.typeName];
          var d := input.io.decode(kind, input.header, input.bytes, s.pos);
          d.Ok? && r.loaded[|s.loaded|] == Some(NiObject(kind, d.value.fields)) && r.pos == d.value.next
        else
          r.pos == Skip(input.bytes, s.pos, info.size)
    ensures var r := Step(input, i, s); var info := input.header.blocks[i];
      info.typeName !in input.registry ==>
        && r.lastUnsupported == Some(i)
        && (r.failed <==> info.size > MaxReadCount)
        && (r.failed ==> r.loaded == s.loaded)
  {
  }

  /** The entries of an earlier iteration count are a prefix of those of a later one. */
  lemma {:induction false} ReplayPrefix(input: LoadInput, i: nat, n: nat)
    requires i <= n <= |input.header.blocks|
    ensures var a := Replay(input, i).loaded; var b := Replay(input, n).loaded;
      |a| <= |b| && b[..|a|] == a
  {
    if n > i {
      ReplayPrefix(input, i, n - 1);
      var s := Replay(input, n - 1);
      if !s.failed {
        StepAppends(input, n - 1, s);
      }
    }
  }

  /** Entry i of the loaded list is what block i's iteration appended, starting from the cursor
      the earlier blocks left: the decoder's object at that cursor, after which the next block
      starts where the decoder stopped, or a tombstone, after which the declared size is skipped. */
  lemma ReplayEntryDecoded(input: LoadInput, n: nat, i: nat)
    requires n <= |input.header.blocks| && i < |Replay(input, n).loaded|
    ensures i < n
    ensures var s := Replay(input, i); var info := input.header.blocks[i];
      && !s.failed && |s.loaded| == i
      && (info.typeName in input.registry ==>
            var kind := input.registry[info.typeName];
            var d := input.io.decode(kind, input.header, input.bytes, s.pos);
            && d.Ok?
            && Replay(input, n).loaded[i] == Some(NiObject(kind, d.value.fields))
            && Replay(input, i + 1).pos == d.value.next)
      && (info.typeName !in input.registry ==>
            && Replay(input, n).loaded[i] == None
            && Replay(input, i + 1).pos == Skip(input.bytes, s.pos, info.size))
  {
    ReplayLength(input, n);
    var s := Replay(input, i);
    ReplayLength(input, i);
    if s.failed {
      ReplayStaysFailed(input, i, n);
      assert false;
    }
    ReplayLength(input, i + 1);
    if Replay(input, i + 1).failed {
      ReplayStaysFailed(input, i + 1, n);
      assert false;
    }
    assert Replay(input, i + 1) == Step(input, i, s);
    StepAppends(input, i, s);
    ReplayPrefix(input, i + 1, n);
  }

  /** An entry is a tombstone exactly when its declared type is not registered, and otherwise
      an object of the registered kind. */
  lemma {:induction false} ReplayEntries(input: LoadInput, n: nat)
    requires n <= |input.header.blocks|
    ensures var r := Replay(input, n);
      |r.loaded| <= n &&
      forall i :: 0 <= i < |r.loaded| ==> EntryFits(input.registry, input.header.blocks[i], r.loaded[i])
  {
    ReplayLength(input, n);
    if n > 0 {
      ReplayEntries(input, n - 1);
      ReplayLength(input, n - 1);
      var s := Replay(input, n - 1);
      if !s.failed {
        StepAppends(input, n - 1, s);
      }
    }
  }

  /** `error` holds the message of the last unsupported block looked at, the failing one
      included. */
  lemma {:induction false} ReplayError(input: LoadInput, n: nat)
    requires n <= |input.header.blocks|
    ensures var r := Replay(input, n);
      && |r.loaded| + (if r.failed then 1 else 0) <= n
      && r.lastUnsupported == LastUnsupported(input, |r.loaded| + if r.failed then 1 else 0)
      && (r.lastUnsupported.Some? ==> r.lastUnsupported.value < n)
  {
    ReplayLength(input, n);
    if n > 0 {
      ReplayError(input, n - 1);
      ReplayLength(input, n - 1);
    }
  }

  /** Once an exception ends the loop, later iterations change nothing. */
  lemma {:induction false} ReplayStaysFailed(input: LoadInput, k: nat, n: nat)
    requires k <= n <= |input.header.blocks| && Replay(input, k).failed
    ensures Replay(input, n) == Replay(input, k)
  {
    if n > k {
      ReplayStaysFailed(input, k, n - 1);
    }
  }

  /** A failed loop failed in the iteration for the block right after the ones it kept. */
  lemma {:induction false} ReplayFailureAt(input: LoadInput, n: nat)
    requires n <= |input.header.blocks| && Replay(input, n).failed
    ensures var k := |Replay(input, n).loaded|;
      && k < n
      && !Replay(input, k).failed
      && Replay(input, k).loaded == Replay(input, n).loaded
      && Replay(input, n) == Replay(input, k + 1) == Step(input, k, Replay(input, k))
  {
    var s := Replay(input, n - 1);
    ReplayLength(input, n - 1);
    if s.failed {
      ReplayFailureAt(input, n - 1);
    } else {
      ReplayLength(input, n);
    }
  }

  /** A decoder exception at block k ends the load: the k blocks before it are kept, the
      loop stops, and `error` is what the earlier blocks left in it. */
  lemma DecodeFailureStopsLoad(input: LoadInput, k: nat)
    requires k < |input.header.blocks| && !Replay(input, k).failed
    requires input.header.blocks[k].typeName in input.registry
    requires input.io.decode(input.registry[input.header.blocks[k].typeName], input.header,
                             input.bytes, Replay(input, k).pos).Threw?
    ensures var r := Replay(input, |input.header.blocks|);
      && r.failed
      && r.loaded == Replay(input, k).loaded
      && |r.loaded| == k
      && r.lastUnsupported == LastUnsupported(input, k)
  {
    var s := Replay(input, k);
    var kind := input.registry[input.header.blocks[k].typeName];
    assert input.io.decode(kind, input.header, input.bytes, s.pos).Threw?;
    assert Step(input, k, s) == s.(failed := true);
    assert Replay(input, k + 1) == s.(failed := true);
    ReplayStaysFailed(input, k + 1, |input.header.blocks|);
    ReplayLength(input, k);
    ReplayError(input, k);
  }

  /** An unsupported block whose size `ReadBytes` cannot serve ends the load: the blocks before
      it are kept, and `error` names that block. */
  lemma OversizeStopsLoad(input: LoadInput, k: nat)
    requires k < |input.header.blocks| && !Replay(input, k).failed
    requires input.header.blocks[k].typeName !in input.registry
    requires input.header.blocks[k].size > MaxReadCount
    ensures var r := Replay(input, |input.header.blocks|);
      && r.failed
      && r.loaded == Replay(input, k).loaded
      && r.lastUnsupported == Some(k)
  {
    assert Replay(input, k + 1) == Step(input, k, Replay(input, k));
    ReplayStaysFailed(input, k + 1, |input.header.blocks|);
  }

  /** An unsupported block advances the cursor by exactly its declared size (when the stream
      holds that many bytes) and runs no decoder: the step is the same whatever the decoder. */
  lemma UnsupportedBlockSkipped(input: LoadInput, i: nat, s: LoadState,
                                decoder: (Kind, Header, seq<byte>, nat) -> Attempt<Decoded>)
    requires i < |input.header.blocks|
    requires input.header.blocks[i].typeName !in input.registry
    requires input.header.blocks[i].size <= MaxReadCount
    requires s.pos + input.header.blocks[i].size <= |input.bytes|
    ensures Step(input, i, s).pos == s.pos + input.header.blocks[i].size
    ensures Step(input, i, s).loaded == s.loaded + [None]
    ensures Step(input, i, s) == Step(input.(io := input.io.(decode := decoder)), i, s)
  {
  }

  /** When every decoder call succeeds and every unsupported size is a valid count, the loop
      runs to the end. */
  lemma {:induction false} ReplayCompletes(input: LoadInput, n: nat)
    requires n <= |input.header.blocks|
    requires forall i, p: nat :: 0 <= i < n && input.header.blocks[i].typeName in input.registry ==>
      input.io.decode(input.registry[input.header.blocks[i].typeName], input.header, input.bytes, p).Ok?
    requires forall i :: 0 <= i < n && input.header.blocks[i].typeName !in input.registry ==>
      input.header.blocks[i].size <= MaxReadCount
    ensures !Replay(input, n).failed
  {
    if n > 0 {
      ReplayCompletes(input, n - 1);
    }
  }

  /** With well-behaved readers the cursor stays within the stream and never moves back. */
  lemma {:induction false} ReplayCursorInStream(input: LoadInput, n: nat)
    requires n <= |input.header.blocks|
    requires StaysInStream(input.io) && input.start <= |input.bytes|
    ensures input.start <= Replay(input, n).pos <= |input.bytes|
  {
    if n > 0 {
      ReplayCursorInStream(input, n - 1);
    }
  }

  /** `LastUnsupported` names the last unregistered block before m, or none when all are registered. */
  lemma {:induction false} LastUnsupportedIsLast(input: LoadInput, m: nat)
    requires m <= |input.header.blocks|
    ensures var r := LastUnsupported(input, m);
      && (r.None? <==> forall i :: 0 <= i < m ==> input.header.blocks[i].typeName in input.registry)
      && (r.Some? ==> input.header.blocks[r.value].typeName !in input.registry &&
                      forall i :: r.value < i < m ==> input.header.blocks[i].typeName in input.registry)
  {
    if m > 0 {
      LastUnsupportedIsLast(input, m - 1);
    }
  }

  // ---------------------------------------------------------------------------
  // Properties of a whole Read

  /** A fatal source outcome exits with its code and touches neither the header nor the blocks. */
  lemma ReadExitLeavesFileAlone(io: Collaborators, gameDir: string, fileName: string, env: SourceEnv, current: Header)
    requires ResolveSource(gameDir, fileName, env).Exit?
    ensures var e := ReadSpec(io, gameDir, fileName, env, current);
      && e.exit == Some(ResolveSource(gameDir, fileName, env).code)
      && e.header == current && e.appended == [] && e.closesLog
  {
  }

  /** Once bytes are available, Read never exits the process and writes at most one log line:
      the text of `error` when an exception ended the load, nothing otherwise (unsupported
      blocks alone are not logged). */
  lemma ReadLogsAtMostOnce(io: Collaborators, gameDir: string, fileName: string, env: SourceEnv, current: Header)
    requires ResolveSource(gameDir, fileName, env).Bytes?
    ensures var e := ReadSpec(io, gameDir, fileName, env, current);
      && e.exit == None && !e.closesLog && |e.log| <= 1
  {
  }

  /** Without an exception Read appends one entry per declared block, a tombstone exactly
      for the unregistered types, and logs nothing. */
  lemma ReadLoadsEveryBlock(io: Collaborators, gameDir: string, fileName: string, env: SourceEnv,
                            current: Header, data: seq<byte>, hr: HeaderRead)
    requires ResolveSource(gameDir, fileName, env) == Bytes(data)
    requires io.readHeader(current, data) == Ok(hr)
    requires !Replay(LoadInput(ClassTypes, io, hr.header, data, gameDir, fileName, hr.next), |hr.header.blocks|).failed
    ensures var e := ReadSpec(io, gameDir, fileName, env, current);
      && e.exit == None && e.header == hr.header && e.log == []
      && |e.appended| == |hr.header.blocks|
      && (forall i :: 0 <= i < |e.appended| ==> EntryFits(ClassTypes, hr.header.blocks[i], e.appended[i]))
  {
    var input := LoadInput(ClassTypes, io, hr.header, data, gameDir, fileName, hr.next);
    ReplayLength(input, |hr.header.blocks|);
    ReplayEntries(input, |hr.header.blocks|);
  }

  /** An exception while decoding stops the load, keeps the blocks appended before it and logs
      exactly one line: the last "Unsupported block" text, else "Read error <file>". */
  lemma ReadLogsFailure(io: Collaborators, gameDir: string, fileName: string, env: SourceEnv,
                        current: Header, data: seq<byte>, hr: HeaderRead)
    requires ResolveSource(gameDir, fileName, env) == Bytes(data)
    requires io.readHeader(current, data) == Ok(hr)
    requires Replay(LoadInput(ClassTypes, io, hr.header, data, gameDir, fileName, hr.next), |hr.header.blocks|).failed
    ensures var input := LoadInput(ClassTypes, io, hr.header, data, gameDir, fileName, hr.next);
      var e := ReadSpec(io, gameDir, fileName, env, current);
      && e.exit == None
      && |e.appended| < |hr.header.blocks|
      && e.log == [ErrorText(input, LastUnsupported(input, |e.appended| + 1))]
  {
    var input := LoadInput(ClassTypes, io, hr.header, data, gameDir, fileName, hr.next);
    ReplayLength(input, |hr.header.blocks|);
    ReplayError(input, |hr.header.blocks|);
  }

  /** The three-block example: a NiNode, an unregistered type and a NiTriShapeData load as an
      object, a tombstone and an object, and nothing is logged. */
  lemma ThreeBlockExample(input: LoadInput, current: Header)
    requires input.registry == ClassTypes
    requires input.io.readHeader(current, input.bytes) == Ok(HeaderRead(input.header, input.start))
    requires |input.header.blocks| == 3
    requires input.header.blocks[0].typeName == "NiNode"
    requires input.header.blocks[1] == BlockInfo("UnknownFutureType", input.header.blocks[1].size)
    requires input.header.blocks[1].size <= MaxReadCount
    requires input.header.blocks[2].typeName == "NiTriShapeData"
    requires forall k, p: nat :: input.io.decode(k, input.header, input.bytes, p).Ok?
    ensures var r := Replay(input, 3);
      && !r.failed && |r.loaded| == 3
      && r.loaded[0].Some? && r.loaded[0].value.kind == NiNode
      && r.loaded[1] == None
      && r.loaded[2].Some? && r.loaded[2].value.kind == NiTriShapeData
      && r.lastUnsupported == Some(1)
    ensures LoadSpec(input.registry, input.io, input.gameDir, input.fileName, input.bytes, current).log == []
  {
    ExampleKinds();
    var s0 := Replay(input, 0);
    var s1 := Replay(input, 1);
    assert s1 == Step(input, 0, s0);
    var d0 := input.io.decode(NiNode, input.header, input.bytes, s0.pos);
    assert d0.Ok?;
    assert s1 == s0.(loaded := [Some(NiObject(NiNode, d0.value.fields))], pos := d0.value.next);
    assert !s1.failed && |s1.loaded| == 1 && s1.loaded[0].Some? && s1.loaded[0].value.kind == NiNode;
    var s2 := Replay(input, 2);
    assert s2 == Step(input, 1, s1);
    assert !s2.failed && s2.loaded == s1.loaded + [None];
    assert Replay(input, 3) == Step(input, 2, s2);
  }
}
