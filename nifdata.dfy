/** The values NiFile works with: bytes, the header's block descriptors, decoded
    blocks, and the collaborators whose code is not part of this model (the
    NiHeader codec and the per-type NiObject codecs). */
module NifData {
  import opened Wrappers
  import opened Registry

  newtype byte = x: int | 0 <= x < 256

  /** The largest count `BinaryReader.ReadBytes` can serve: it allocates `new byte[count]`
      before reading, and the runtime's largest byte array holds 0x7FFF_FFC7 elements. A larger
      `uint` size either exceeds `int.MaxValue` and becomes a negative count under `(int)`, or
      exceeds the largest array; both make `ReadBytes` throw before it consumes anything. */
  const MaxReadCount: nat := 0x7FFF_FFC7

  /** One declared block: the type name and the byte size the header records for it. */
  datatype BlockInfo = BlockInfo(typeName: string, size: nat)

  /** The NiHeader state NiFile relies on. Only `blocks` is inspected here; the
      other fields are carried through for the collaborators. */
  datatype Header = Header(
    version: nat,
    userVersion: nat,
    userVersion2: nat,
    creator: string,
    blocks: seq<BlockInfo>,
    strings: seq<string>)

  /** A decoded block: the kind the registry chose and the field state its decoder read. */
  datatype NiObject = NiObject(kind: Kind, fields: seq<byte>)

  /** What a block decoder leaves behind: the object's fields and the reader's new position. */
  datatype Decoded = Decoded(fields: seq<byte>, next: nat)

  /** What `NiHeader.Read` leaves behind: the header and the reader's position after it. */
  datatype HeaderRead = HeaderRead(header: Header, next: nat)

  /** The code NiFile calls but does not define. */
  datatype Collaborators = Collaborators(
    /** `new NiHeader()` */
    emptyHeader: Header,
    /** `header.Read(reader)` on the header the file already holds, from position 0 of the stream */
    readHeader: (Header, seq<byte>) -> Attempt<HeaderRead>,
    /** `NiObject.Read(header, reader)` for a fresh object of the given kind at the given position */
    decode: (Kind, Header, seq<byte>, nat) -> Attempt<Decoded>,
    /** `NiHeader.Update(header, blocks)` */
    updateHeader: (Header, seq<Option<NiObject>>) -> Attempt<Header>,
    /** `NiHeader.Write(writer)` */
    writeHeader: Header -> Attempt<seq<byte>>,
    /** `NiObject.Write(header, writer)` */
    encode: (NiObject, Header) -> Attempt<seq<byte>>,
    /** `NiHeader.AddBlock(header, obj)` */
    addBlock: (Header, NiObject) -> Header)

  /** Readers never move backwards or past the end of the stream. */
  ghost predicate StaysInStream(io: Collaborators) {
    && (forall h, b :: io.readHeader(h, b).Ok? ==> io.readHeader(h, b).value.next <= |b|)
    && (forall k, h, b, p: nat :: p <= |b| && io.decode(k, h, b, p).Ok? ==>
          p <= io.decode(k, h, b, p).value.next <= |b|)
  }

  /** `NiHeader.Update` re-synchronises the header with the block list: one descriptor per block. */
  ghost predicate UpdateKeepsCount(io: Collaborators) {
    forall h, bs :: io.updateHeader(h, bs).Ok? ==> |io.updateHeader(h, bs).value.blocks| == |bs|
  }
}
