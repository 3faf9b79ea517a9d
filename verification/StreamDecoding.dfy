/** What the decoder answers, and writes, as a function of its whole input. */
module StreamDecoding {
  import opened Bytes
  import opened Results
  import opened Primitives
  import opened StreamFormat
  import opened Legacy

  /** One opened record and the input that follows it. */
  datatype Piece = Piece(kind: byte, plaintext: seq<byte>, rest: seq<byte>)

  function DecryptRecordBody(ss: Session, record: seq<byte>, sequence: nat, input: seq<byte>, maxPlaintext: nat)
    : (r: Result<Piece>)
    requires ss.Valid() && |record| == RECORD_HEADER_SIZE
    ensures r.Ok? ==> |r.value.rest| + TAG_SIZE <= |input|
  {
    var n := FromBigEndian(record[9..13]);
    if n < TAG_SIZE || n - TAG_SIZE > maxPlaintext then Err(ResourceLimit(RecordLength))
    else if |input| < n then Err(InvalidFileFormat)
    else
      match Decrypt(ss.suite, ss.key, RecordNonce(ss.baseNonce, sequence), input[..n], RecordAad(ss.header, record))
      case Err(e) => Err(e)
      case Ok(p) => Ok(Piece(record[0], p, input[n..]))
  }

  /** The record expected first, with its fixed type and sequence number. */
  function ReadRecord(ss: Session, input: seq<byte>, sequence: nat, kind: byte, maxPlaintext: nat): Result<Piece>
    requires ss.Valid()
  {
    if |input| < RECORD_HEADER_SIZE then Err(InvalidFileFormat)
    else if input[0] != kind then Err(DecryptionFailed)
    else if FromBigEndian(input[1..9]) != sequence then Err(DecryptionFailed)
    else DecryptRecordBody(ss, input[..13], sequence, input[13..], maxPlaintext)
  }

  function MaxPlaintext(kind: byte, chunkSize: nat): nat {
    if kind == RECORD_DATA then chunkSize else FINAL_PLAINTEXT_SIZE
  }

  function ReadNextRecord(ss: Session, chunkSize: nat, input: seq<byte>, sequence: nat): (r: Result<Piece>)
    requires ss.Valid()
    ensures r.Ok? ==> |r.value.rest| + RECORD_HEADER_SIZE + TAG_SIZE <= |input|
    ensures r.Ok? ==> r.value.kind == RECORD_DATA || r.value.kind == RECORD_FINAL
  {
    if |input| < RECORD_HEADER_SIZE then Err(InvalidFileFormat)
    else if FromBigEndian(input[1..9]) != sequence then Err(DecryptionFailed)
    else if input[0] != RECORD_DATA && input[0] != RECORD_FINAL then Err(InvalidFileFormat)
    else
      match DecryptRecordBody(ss, input[..13], sequence, input[13..], MaxPlaintext(input[0], chunkSize))
      case Err(e) => Err(e)
      case Ok(piece) => if sequence + 1 >= U64_LIMIT then Err(ResourceLimit(RecordCounter)) else Ok(piece)
  }

  /** The bytes handed to the writer, on success and on failure alike, and the answer. */
  datatype Decoded = Decoded(written: seq<byte>, outcome: Result<nat>)

  function FinishStream(plaintext: seq<byte>, rest: seq<byte>, total: nat, count: nat): Result<nat> {
    if |plaintext| != FINAL_PLAINTEXT_SIZE then Err(InvalidFileFormat)
    else if FromBigEndian(plaintext[..8]) != total || FromBigEndian(plaintext[8..]) != count then Err(DecryptionFailed)
    else if rest != [] then Err(InvalidFileFormat)
    else Ok(total)
  }

  function DecodeRecords(ss: Session, chunkSize: nat, input: seq<byte>, sequence: nat, total: nat, count: nat): Decoded
    requires ss.Valid()
    decreases |input|
  {
    match ReadNextRecord(ss, chunkSize, input, sequence)
    case Err(e) => Decoded([], Err(e))
    case Ok(piece) =>
      if piece.kind == RECORD_FINAL then Decoded([], FinishStream(piece.plaintext, piece.rest, total, count))
      else if piece.plaintext == [] then Decoded([], Err(InvalidFileFormat))
      else if total + |piece.plaintext| >= U64_LIMIT then
        Decoded(piece.plaintext, Err(ResourceLimit(PlaintextLength)))
      else if count + 1 >= U64_LIMIT then Decoded(piece.plaintext, Err(ResourceLimit(ChunkCounter)))
      else
        var d := DecodeRecords(ss, chunkSize, piece.rest, sequence + 1, total + |piece.plaintext|, count + 1);
        Decoded(piece.plaintext + d.written, d.outcome)
  }

  /** The texts of the data records handed to the writer, one by one. */
  function RecordTexts(ss: Session, chunkSize: nat, input: seq<byte>, sequence: nat, total: nat, count: nat)
    : seq<seq<byte>>
    requires ss.Valid()
    decreases |input|
  {
    match ReadNextRecord(ss, chunkSize, input, sequence)
    case Err(_) => []
    case Ok(piece) =>
      if piece.kind == RECORD_FINAL || piece.plaintext == [] then []
      else if total + |piece.plaintext| >= U64_LIMIT || count + 1 >= U64_LIMIT then [piece.plaintext]
      else
        [piece.plaintext]
        + RecordTexts(ss, chunkSize, piece.rest, sequence + 1, total + |piece.plaintext|, count + 1)
  }

  /** Together they are everything that is written. */
  lemma {:induction false} TextsAreWritten(ss: Session, chunkSize: nat, input: seq<byte>, sequence: nat, total: nat,
                                           count: nat)
    requires ss.Valid()
    ensures Concat(RecordTexts(ss, chunkSize, input, sequence, total, count))
      == DecodeRecords(ss, chunkSize, input, sequence, total, count).written
    decreases |input|
  {
    hide ReadNextRecord, FinishStream;
    match ReadNextRecord(ss, chunkSize, input, sequence)
    case Err(_) =>
    case Ok(piece) =>
      if piece.kind != RECORD_FINAL && piece.plaintext != [] {
        if total + |piece.plaintext| >= U64_LIMIT || count + 1 >= U64_LIMIT {
          assert [piece.plaintext][1..] == [];
          assert Concat([piece.plaintext]) == piece.plaintext + Concat([]);
        } else {
          var tail := RecordTexts(ss, chunkSize, piece.rest, sequence + 1, total + |piece.plaintext|, count + 1);
          assert ([piece.plaintext] + tail)[1..] == tail;
          TextsAreWritten(ss, chunkSize, piece.rest, sequence + 1, total + |piece.plaintext|, count + 1);
        }
      }
  }

  // ---------------------------------------------------------------- opening

  datatype Opened =
    | OpenedV2(filename: seq<byte>, ss: Session, chunkSize: nat, rest: seq<byte>)
    | OpenedV1(filename: seq<byte>, content: seq<byte>)

  function ParseMetadata(suite: Suite, metadata: seq<byte>): Result<seq<byte>> {
    if |metadata| < 2 then Err(InvalidFileFormat)
    else if |metadata| != FromBigEndian(metadata[..2]) + 2 then Err(InvalidFileFormat)
    else if !suite.utf8(metadata[2..]) then Err(InvalidFileFormat)
    else if metadata[2..] == [] then Err(InvalidFileFormat)
    else Ok(metadata[2..])
  }

  function OpenV2(suite: Suite, password: seq<byte>, input: seq<byte>): (r: Result<Opened>)
    ensures r.Ok? ==> r.value.OpenedV2? && r.value.ss.Valid()
  {
    if |input| < HEADER_SIZE then Err(InvalidFileFormat)
    else
      var header := input[..HEADER_SIZE];
      var h := ParseHeader(header);
      if !(MIN_CHUNK_SIZE <= h.chunkSize <= MAX_CHUNK_SIZE) then Err(ResourceLimit(ChunkSizeRange))
      else
        match DeriveKey(suite, password, h.salt, h.kdf)
        case Err(e) => Err(e)
        case Ok(key) =>
          var ss := Session(suite, key, header, h.baseNonce);
          match ReadRecord(ss, input[HEADER_SIZE..], 0, RECORD_METADATA, MAX_FILENAME_BYTES + 2)
          case Err(e) => Err(e)
          case Ok(piece) =>
            match ParseMetadata(suite, piece.plaintext)
            case Err(e) => Err(e)
            case Ok(filename) => Ok(OpenedV2(filename, ss, h.chunkSize, piece.rest))
  }

  function OpenV1(suite: Suite, password: seq<byte>, input: seq<byte>): (r: Result<Opened>)
    ensures r.Ok? ==> r.value.OpenedV1?
  {
    if |input| > MAX_LEGACY_FILE_SIZE then Err(ResourceLimit(LegacySize))
    else
      match DecryptFile(suite, password, input)
      case Err(e) => Err(e)
      case Ok(f) => Ok(OpenedV1(f.filename, f.content))
  }

  function OpenStream(suite: Suite, password: seq<byte>, input: seq<byte>): (r: Result<Opened>)
    ensures r.Ok? && r.value.OpenedV2? ==> r.value.ss.Valid()
  {
    if |input| < 9 then Err(InvalidFileFormat)
    else if input[..8] != MAGIC_BYTES then Err(InvalidFileFormat)
    else if input[8] == V2 then OpenV2(suite, password, input)
    else if input[8] == V1 then OpenV1(suite, password, input)
    else Err(InvalidFileFormat)
  }

  function DecodeOpened(o: Opened): Decoded
    requires o.OpenedV2? ==> o.ss.Valid()
  {
    match o
    case OpenedV2(_, ss, chunkSize, rest) => DecodeRecords(ss, chunkSize, rest, 1, 0, 0)
    case OpenedV1(_, content) => Decoded(content, Ok(|content|))
  }

  /** The pieces in which an opened file is written. */
  function OpenedTexts(o: Opened): seq<seq<byte>>
    requires o.OpenedV2? ==> o.ss.Valid()
  {
    match o
    case OpenedV2(_, ss, chunkSize, rest) => RecordTexts(ss, chunkSize, rest, 1, 0, 0)
    case OpenedV1(_, content) => [content]
  }

  /** Whole texts were written, from the first on: nothing ends inside a record. */
  ghost predicate OnBoundary(start: seq<byte>, texts: seq<seq<byte>>, written: seq<byte>) {
    exists n :: 0 <= n <= |texts| && written == start + Concat(texts[..n])
  }

  /** The file a complete input stands for, if it is accepted. */
  function DecodeFile(suite: Suite, password: seq<byte>, input: seq<byte>): Result<PlainFile> {
    match OpenStream(suite, password, input)
    case Err(e) => Err(e)
    case Ok(o) =>
      match DecodeOpened(o).outcome
      case Err(e) => Err(e)
      case Ok(_) => Ok(PlainFile(o.filename, DecodeOpened(o).written))
  }
}
