/** NiFile.Write as functions of its inputs: the header is re-synchronised with
    the block list, then the header, every block in index order and the
    two-int trailer are emitted; any exception ends in exit code 502. */
module Save {
  import opened Wrappers
  import opened NifData
  import opened Source

  /** `BinaryWriter.Write(int)`: four bytes, little-endian two's complement. */
  function Int32LE(v: int): (b: seq<byte>)
    requires -0x8000_0000 <= v < 0x8000_0000
    ensures |b| == 4
  {
    var u := if v < 0 then v + 0x1_0000_0000 else v;
    [(u % 0x100) as byte, (u / 0x100 % 0x100) as byte, (u / 0x1_0000 % 0x100) as byte, (u / 0x100_0000) as byte]
  }

  /** `BinaryReader.ReadInt32()`: the inverse of `Int32LE`. */
  function ReadInt32LE(b: seq<byte>): int
    requires |b| == 4
  {
    var u := b[0] as int + 0x100 * b[1] as int + 0x1_0000 * b[2] as int + 0x100_0000 * b[3] as int;
    if u < 0x8000_0000 then u else u - 0x1_0000_0000
  }

  lemma Int32RoundTrip(v: int)
    requires -0x8000_0000 <= v < 0x8000_0000
    ensures ReadInt32LE(Int32LE(v)) == v
  {
  }

  /** The end-of-stream marker: int32 1 followed by int32 0. */
  const Trailer: seq<byte> := Int32LE(1) + Int32LE(0)

  lemma TrailerBytes()
    ensures Trailer == [1, 0, 0, 0, 0, 0, 0, 0]
    ensures ReadInt32LE(Trailer[..4]) == 1 && ReadInt32LE(Trailer[4..]) == 0
  {
  }

  /** Exception texts of the runtime for a null block and for an index past the list. */
  const NullReferenceText: string := "Object reference not set to an instance of an object."
  const IndexOutOfRangeText: string :=
    "Index was out of range. Must be non-negative and less than the size of the collection.\r\nParameter name: index"

  /** Bytes handed to the writer by the block loop, and the exception that ended it, if any. */
  datatype Emitted = Emitted(bytes: seq<byte>, fault: Option<string>)

  /** What Write does: the exit code if any, the header afterwards, the bytes handed to the
      writer and the log lines. */
  datatype WriteEffect = WriteEffect(exit: Option<int>, header: Header, output: seq<byte>, log: seq<string>)

  /** The first `n` iterations of the block loop of Write, bounded by the header's count. */
  function EmitBlocks(io: Collaborators, h: Header, blocks: seq<Option<NiObject>>, n: nat): (r: Emitted)
    requires n <= |h.blocks|
    ensures r.fault.None? ==> n <= |blocks|
  {
    if n == 0 then Emitted([], None)
    else
      var prev := EmitBlocks(io, h, blocks, n - 1);
      if prev.fault.Some? then prev
      else if n - 1 >= |blocks| then prev.(fault := Some(IndexOutOfRangeText))
      else match blocks[n - 1]
        case None => prev.(fault := Some(NullReferenceText))
        case Some(obj) => (
          match io.encode(obj, h)
          case Threw(m) => prev.(fault := Some(m))
          case Ok(b) => prev.(bytes := prev.bytes + b))
  }

  function WriteFailureLog(fileName: string, message: string): seq<string> {
    ["Error writing " + fileName + " " + message, ModOrganizerHint]
  }

  /** The whole effect of `Write(fileName, logFile)`; `openFault` is the exception, if any,
      of creating the output file. */
  function WriteSpec(io: Collaborators, fileName: string, openFault: Option<string>,
                     current: Header, blocks: seq<Option<NiObject>>): (r: WriteEffect)
    ensures r.exit.None? ==>
      r.log == [] && |Trailer| <= |r.output| && r.output[|r.output| - |Trailer|..] == Trailer
    ensures r.exit.Some? ==> r.exit == Some(502) && |r.log| == 2
  {
    if openFault.Some? then WriteEffect(Some(502), current, [], WriteFailureLog(fileName, openFault.value))
    else match io.updateHeader(current, blocks)
      case Threw(m) => WriteEffect(Some(502), current, [], WriteFailureLog(fileName, m))
      case Ok(h) => (
        match io.writeHeader(h)
        case Threw(m) => WriteEffect(Some(502), h, [], WriteFailureLog(fileName, m))
        case Ok(hb) =>
          var e := EmitBlocks(io, h, blocks, |h.blocks|);
          if e.fault.Some? then WriteEffect(Some(502), h, hb + e.bytes, WriteFailureLog(fileName, e.fault.value))
          else WriteEffect(None, h, hb + e.bytes + Trailer, []))
  }

  /** Block i of the list can be written under header h. */
  predicate Writable(io: Collaborators, h: Header, blocks: seq<Option<NiObject>>, i: int) {
    0 <= i < |blocks| && blocks[i].Some? && io.encode(blocks[i].value, h).Ok?
  }

  /** The bytes block i encodes to (empty when it cannot be written). */
  function EncodingOf(io: Collaborators, h: Header, blocks: seq<Option<NiObject>>, i: int): seq<byte> {
    if Writable(io, h, blocks, i) then io.encode(blocks[i].value, h).value else []
  }

  function Concat(parts: seq<seq<byte>>): seq<byte> {
    if parts == [] then [] else parts[0] + Concat(parts[1..])
  }

  lemma {:induction false} ConcatAppend(parts: seq<seq<byte>>, p: seq<byte>)
    ensures Concat(parts + [p]) == Concat(parts) + p
  {
    if parts != [] {
      assert (parts + [p])[1..] == parts[1..] + [p];
      ConcatAppend(parts[1..], p);
    }
  }

  // ---------------------------------------------------------------------------
  // Properties of the block loop and of a whole Write

  /** Once an exception ends the loop, later iterations change nothing. */
  lemma {:induction false} EmitStaysFaulted(io: Collaborators, h: Header, blocks: seq<Option<NiObject>>, k: nat, n: nat)
    requires k <= n <= |h.blocks| && EmitBlocks(io, h, blocks, k).fault.Some?
    ensures EmitBlocks(io, h, blocks, n) == EmitBlocks(io, h, blocks, k)
  {
    if n > k {
      EmitStaysFaulted(io, h, blocks, k, n - 1);
    }
  }

  /** The loop completes exactly when every block it visits is present and encodes. */
  lemma {:induction false} EmitBlocksFaultFree(io: Collaborators, h: Header, blocks: seq<Option<NiObject>>, n: nat)
    requires n <= |h.blocks|
    ensures EmitBlocks(io, h, blocks, n).fault.None? <==> forall i :: 0 <= i < n ==> Writable(io, h, blocks, i)
  {
    if n > 0 {
      EmitBlocksFaultFree(io, h, blocks, n - 1);
      assert (forall i :: 0 <= i < n ==> Writable(io, h, blocks, i)) <==>
        (forall i :: 0 <= i < n - 1 ==> Writable(io, h, blocks, i)) && Writable(io, h, blocks, n - 1);
    }
  }

  /** A completed loop emits the blocks' encodings one after another, in index order. */
  lemma {:induction false} EmitInIndexOrder(io: Collaborators, h: Header, blocks: seq<Option<NiObject>>, n: nat)
    requires n <= |h.blocks|
    requires forall i :: 0 <= i < n ==> Writable(io, h, blocks, i)
    ensures EmitBlocks(io, h, blocks, n).bytes == Concat(seq(n, i => EncodingOf(io, h, blocks, i)))
  {
    if n > 0 {
      EmitInIndexOrder(io, h, blocks, n - 1);
      EmitBlocksFaultFree(io, h, blocks, n - 1);
      assert Writable(io, h, blocks, n - 1);
      assert EmitBlocks(io, h, blocks, n).bytes ==
        EmitBlocks(io, h, blocks, n - 1).bytes + EncodingOf(io, h, blocks, n - 1);
      var parts := seq(n, i => EncodingOf(io, h, blocks, i));
      assert parts == seq(n - 1, i => EncodingOf(io, h, blocks, i)) + [EncodingOf(io, h, blocks, n - 1)];
      ConcatAppend(seq(n - 1, i => EncodingOf(io, h, blocks, i)), EncodingOf(io, h, blocks, n - 1));
    }
  }

  /** What is emitted for earlier blocks is never changed by later ones. */
  lemma {:induction false} EmitBlocksPrefix(io: Collaborators, h: Header, blocks: seq<Option<NiObject>>, n: nat, m: nat)
    requires n <= m <= |h.blocks|
    ensures EmitBlocks(io, h, blocks, n).bytes <= EmitBlocks(io, h, blocks, m).bytes
  {
    if n < m {
      EmitBlocksPrefix(io, h, blocks, n, m - 1);
    }
  }

  /** Write succeeds exactly when the file opens, the header updates and writes, and every
      declared block is present and encodes; it then emits the updated header, the blocks
      and the trailer, and logs nothing. Otherwise it ends in exit 502 with two log lines. */
  lemma WriteLayout(io: Collaborators, fileName: string, openFault: Option<string>,
                    current: Header, blocks: seq<Option<NiObject>>)
    ensures var e := WriteSpec(io, fileName, openFault, current, blocks);
      && (e.exit == None <==>
            && openFault == None
            && io.updateHeader(current, blocks).Ok?
            && io.writeHeader(io.updateHeader(current, blocks).value).Ok?
            && forall i :: 0 <= i < |e.header.blocks| ==> Writable(io, e.header, blocks, i))
      && (e.exit == None ==>
            && e.header == io.updateHeader(current, blocks).value
            && e.output == io.writeHeader(e.header).value
                           + Concat(seq(|e.header.blocks|, i => EncodingOf(io, e.header, blocks, i)))
                           + [1, 0, 0, 0, 0, 0, 0, 0]
            && e.log == [])
      && (e.exit != None ==> e.exit == Some(502) && |e.log| == 2 && e.log[1] == ModOrganizerHint)
  {
    TrailerBytes();
    if openFault == None && io.updateHeader(current, blocks).Ok? {
      var h := io.updateHeader(current, blocks).value;
      EmitBlocksFaultFree(io, h, blocks, |h.blocks|);
      if forall i :: 0 <= i < |h.blocks| ==> Writable(io, h, blocks, i) {
        EmitInIndexOrder(io, h, blocks, |h.blocks|);
      }
    }
  }

  /** A tombstone in the list makes Write end in exit 502, provided the header update keeps
      one descriptor per block. */
  lemma WriteTombstoneExits(io: Collaborators, fileName: string, openFault: Option<string>,
                            current: Header, blocks: seq<Option<NiObject>>, k: nat)
    requires UpdateKeepsCount(io)
    requires k < |blocks| && blocks[k] == None
    ensures WriteSpec(io, fileName, openFault, current, blocks).exit == Some(502)
  {
    if openFault == None && io.updateHeader(current, blocks).Ok? {
      var h := io.updateHeader(current, blocks).value;
      EmitBlocksFaultFree(io, h, blocks, |h.blocks|);
      assert !Writable(io, h, blocks, k);
    }
  }
}
