/** Whole version 2 files: the accepted language exactly, prefix-freeness, round trip and sizes. */
module StreamTheorems {
  import opened Bytes
  import opened Results
  import opened Primitives
  import opened StreamFormat
  import opened StreamDecoding
  import opened StreamGrammar
  import opened Legacy
  import StreamEncoder

  /** A metadata text names a file exactly when it is a length-prefixed, non-empty UTF-8 name. */
  lemma MetadataExact(suite: Suite, metadata: seq<byte>, filename: seq<byte>)
    ensures ParseMetadata(suite, metadata) == Ok(filename) <==>
      metadata == Metadata(filename) && 1 <= |filename| <= MAX_FILENAME_BYTES && suite.utf8(filename)
  {
    Pow256Values();
    if metadata == Metadata(filename) && |filename| <= MAX_FILENAME_BYTES {
      assert metadata[..2] == BigEndian(|filename|, 2) && metadata[2..] == filename;
      BigEndianRoundTrip(|filename|, 2);
    }
    if ParseMetadata(suite, metadata) == Ok(filename) {
      FromBigEndianRoundTrip(metadata[..2]);
      assert metadata == metadata[..2] + metadata[2..];
    }
  }

  ghost predicate HeaderOk(suite: Suite, password: seq<byte>, header: seq<byte>) {
    && |header| == HEADER_SIZE && header[..8] == MAGIC_BYTES && header[8] == V2
    && MIN_CHUNK_SIZE <= ParseHeader(header).chunkSize <= MAX_CHUNK_SIZE
    && DeriveKey(suite, password, ParseHeader(header).salt, ParseHeader(header).kdf).Ok?
  }

  ghost function HeaderSession(suite: Suite, password: seq<byte>, header: seq<byte>): (ss: Session)
    requires HeaderOk(suite, password, header)
    ensures ss.Valid()
  {
    var h := ParseHeader(header);
    Session(suite, DeriveKey(suite, password, h.salt, h.kdf).value, header, h.baseNonce)
  }

  /** The grammar of accepted version 2 files, with the file each one stands for. */
  ghost predicate InLanguage(suite: Suite, password: seq<byte>, header: seq<byte>, w: Wire,
                             filename: seq<byte>, chunks: seq<seq<byte>>)
  {
    && HeaderOk(suite, password, header)
    && var ss := HeaderSession(suite, password, header);
    && Sized(w.metadata, MAX_FILENAME_BYTES + 2)
    && OpenRecord(ss, RECORD_METADATA, 0, w.metadata) == Some(Metadata(filename))
    && 1 <= |filename| <= MAX_FILENAME_BYTES && suite.utf8(filename)
    && BodyOk(ss, ParseHeader(header).chunkSize, w.data, w.final, chunks, 1, 0, 0)
  }

  lemma ReadMetadataFrame(ss: Session, ciphertext: seq<byte>, rest: seq<byte>, plaintext: seq<byte>)
    requires ss.Valid() && Sized(ciphertext, MAX_FILENAME_BYTES + 2)
    requires OpenRecord(ss, RECORD_METADATA, 0, ciphertext) == Some(plaintext)
    ensures ReadRecord(ss, Frame(RECORD_METADATA, 0, ciphertext) + rest, 0, RECORD_METADATA, MAX_FILENAME_BYTES + 2)
      == Ok(Piece(RECORD_METADATA, plaintext, rest))
  {
    FrameFields(RECORD_METADATA, 0, ciphertext, rest);
  }

  lemma MetadataReadIsFrame(ss: Session, input: seq<byte>) returns (ciphertext: seq<byte>)
    requires ss.Valid()
    requires ReadRecord(ss, input, 0, RECORD_METADATA, MAX_FILENAME_BYTES + 2).Ok?
    ensures
      var piece := ReadRecord(ss, input, 0, RECORD_METADATA, MAX_FILENAME_BYTES + 2).value;
      && input == Frame(RECORD_METADATA, 0, ciphertext) + piece.rest
      && Sized(ciphertext, MAX_FILENAME_BYTES + 2)
      && OpenRecord(ss, RECORD_METADATA, 0, ciphertext) == Some(piece.plaintext)
  {
    hide DecryptRecordBody, Frame, OpenRecord;
    ciphertext := BodyIsFrame(ss, input, 0, MAX_FILENAME_BYTES + 2);
  }

  /** Every word of the grammar is accepted, as exactly the file it stands for. */
  lemma GrammarComplete(suite: Suite, password: seq<byte>, header: seq<byte>, w: Wire,
                        filename: seq<byte>, chunks: seq<seq<byte>>)
    requires InLanguage(suite, password, header, w, filename, chunks)
    ensures DecodeFile(suite, password, WireBytes(header, w)) == Ok(PlainFile(filename, Concat(chunks)))
  {
    hide Frame, OpenRecord, ReadRecord, BodyBytes, BodyOk, DecodeRecords, ParseMetadata, Metadata;
    var input, ss := WireBytes(header, w), HeaderSession(suite, password, header);
    var body := BodyBytes(w.data, w.final, 1);
    assert input == header + (Frame(RECORD_METADATA, 0, w.metadata) + body);
    assert input[..HEADER_SIZE] == header && input[..8] == header[..8] && input[8] == header[8];
    assert input[HEADER_SIZE..] == Frame(RECORD_METADATA, 0, w.metadata) + body;
    ReadMetadataFrame(ss, w.metadata, body, Metadata(filename));
    MetadataExact(suite, Metadata(filename), filename);
    BodyDecodes(ss, ParseHeader(header).chunkSize, w.data, w.final, chunks, 1, 0, 0);
  }

  /** Every accepted version 2 file is a word of the grammar. */
  lemma GrammarSound(suite: Suite, password: seq<byte>, input: seq<byte>)
    returns (header: seq<byte>, w: Wire, chunks: seq<seq<byte>>)
    requires |input| > 8 && input[8] == V2 && DecodeFile(suite, password, input).Ok?
    ensures
      var file := DecodeFile(suite, password, input).value;
      && InLanguage(suite, password, header, w, file.filename, chunks)
      && input == WireBytes(header, w) && file.content == Concat(chunks)
  {
    hide Frame, OpenRecord, ReadRecord, BodyBytes, BodyOk, DecodeRecords, ParseMetadata, Metadata;
    header := input[..HEADER_SIZE];
    var ss := HeaderSession(suite, password, header);
    var rest := input[HEADER_SIZE..];
    var metadata := MetadataReadIsFrame(ss, rest);
    var piece := ReadRecord(ss, rest, 0, RECORD_METADATA, MAX_FILENAME_BYTES + 2).value;
    MetadataExact(suite, piece.plaintext, ParseMetadata(suite, piece.plaintext).value);
    var data, final;
    data, final, chunks := DecodedBody(ss, ParseHeader(header).chunkSize, piece.rest, 1, 0, 0);
    w := Wire(metadata, data, final);
    assert input == header + rest;
    assert WireBytes(header, w) == header + (Frame(RECORD_METADATA, 0, metadata) + BodyBytes(data, final, 1));
  }

  // ------------------------------------------------------------ prefix-freeness

  lemma BodyExtends(ss: Session, record: seq<byte>, sequence: nat, input: seq<byte>, extra: seq<byte>,
                    maxPlaintext: nat)
    requires ss.Valid() && |record| == RECORD_HEADER_SIZE
    requires DecryptRecordBody(ss, record, sequence, input, maxPlaintext).Ok?
    ensures
      var piece := DecryptRecordBody(ss, record, sequence, input, maxPlaintext).value;
      DecryptRecordBody(ss, record, sequence, input + extra, maxPlaintext) == Ok(piece.(rest := piece.rest + extra))
  {
    var n := FromBigEndian(record[9..13]);
    assert (input + extra)[..n] == input[..n];
    assert (input + extra)[n..] == input[n..] + extra;
  }

  lemma HeadExtends(input: seq<byte>, extra: seq<byte>)
    requires |input| >= 13
    ensures (input + extra)[0] == input[0] && (input + extra)[1..9] == input[1..9]
    ensures (input + extra)[..13] == input[..13] && (input + extra)[13..] == input[13..] + extra
  {
  }

  lemma ReadExtends(ss: Session, chunkSize: nat, input: seq<byte>, extra: seq<byte>, sequence: nat)
    requires ss.Valid() && ReadNextRecord(ss, chunkSize, input, sequence).Ok?
    ensures
      var piece := ReadNextRecord(ss, chunkSize, input, sequence).value;
      ReadNextRecord(ss, chunkSize, input + extra, sequence) == Ok(piece.(rest := piece.rest + extra))
  {
    hide DecryptRecordBody, FromBigEndian;
    HeadExtends(input, extra);
    BodyExtends(ss, input[..13], sequence, input[13..], extra, MaxPlaintext(input[0], chunkSize));
  }

  /** Bytes after an accepted body turn the answer into a format error. */
  lemma {:induction false} TrailingDataRejected(ss: Session, chunkSize: nat, input: seq<byte>, extra: seq<byte>,
                                                sequence: nat, total: nat, count: nat)
    requires ss.Valid() && extra != []
    requires DecodeRecords(ss, chunkSize, input, sequence, total, count).outcome.Ok?
    ensures DecodeRecords(ss, chunkSize, input + extra, sequence, total, count).outcome == Err(InvalidFileFormat)
    decreases |input|
  {
    hide ReadNextRecord;
    ReadExtends(ss, chunkSize, input, extra, sequence);
    ReadShrinks(ss, chunkSize, input, sequence);
    var piece := ReadNextRecord(ss, chunkSize, input, sequence).value;
    if piece.kind == RECORD_DATA {
      TrailingDataRejected(ss, chunkSize, piece.rest, extra, sequence + 1, total + |piece.plaintext|, count + 1);
    } else {
      assert piece.rest + extra != [];
    }
  }

  lemma ReadRecordExtends(ss: Session, input: seq<byte>, extra: seq<byte>, kind: byte, maxPlaintext: nat)
    requires ss.Valid() && ReadRecord(ss, input, 0, kind, maxPlaintext).Ok?
    ensures
      var piece := ReadRecord(ss, input, 0, kind, maxPlaintext).value;
      ReadRecord(ss, input + extra, 0, kind, maxPlaintext) == Ok(piece.(rest := piece.rest + extra))
  {
    hide DecryptRecordBody, FromBigEndian;
    HeadExtends(input, extra);
    BodyExtends(ss, input[..13], 0, input[13..], extra, maxPlaintext);
  }

  lemma OpenV2Extends(suite: Suite, password: seq<byte>, input: seq<byte>, extra: seq<byte>)
    requires OpenV2(suite, password, input).Ok?
    ensures
      var o := OpenV2(suite, password, input).value;
      OpenV2(suite, password, input + extra) == Ok(o.(rest := o.rest + extra))
  {
    hide ParseMetadata, ReadRecord, ParseHeader, DeriveKey;
    var longer := input + extra;
    assert longer[..HEADER_SIZE] == input[..HEADER_SIZE];
    assert longer[HEADER_SIZE..] == input[HEADER_SIZE..] + extra;
    var h := ParseHeader(input[..HEADER_SIZE]);
    var ss := Session(suite, DeriveKey(suite, password, h.salt, h.kdf).value, input[..HEADER_SIZE], h.baseNonce);
    ReadRecordExtends(ss, input[HEADER_SIZE..], extra, RECORD_METADATA, MAX_FILENAME_BYTES + 2);
  }

  /** No accepted version 2 file is a proper prefix of another: truncation and extension are both noticed. */
  lemma PrefixFree(suite: Suite, password: seq<byte>, input: seq<byte>, extra: seq<byte>)
    requires |input| > 8 && input[8] == V2
    requires DecodeFile(suite, password, input).Ok?
    ensures DecodeFile(suite, password, input + extra).Ok? <==> extra == []
  {
    hide OpenV2, DecodeRecords;
    assert (input + extra)[..8] == input[..8];
    if extra != [] {
      OpenV2Extends(suite, password, input, extra);
      var o := OpenV2(suite, password, input).value;
      TrailingDataRejected(o.ss, o.chunkSize, o.rest, extra, 1, 0, 0);
    } else {
      assert input + extra == input;
    }
  }

  // ------------------------------------------------------------ round trip

  ghost function SealedChunks(ss: Session, chunks: seq<seq<byte>>, sequence: nat): (data: seq<seq<byte>>)
    requires ss.Valid()
    ensures |data| == |chunks|
    ensures forall i :: 0 <= i < |data| ==> data[i] == SealRecord(ss, RECORD_DATA, sequence + i, chunks[i])
  {
    seq(|chunks|, i requires 0 <= i < |chunks| => SealRecord(ss, RECORD_DATA, sequence + i, chunks[i]))
  }

  ghost function SealedWire(ss: Session, metadata: seq<byte>, chunks: seq<seq<byte>>): Wire
    requires ss.Valid()
  {
    Wire(SealRecord(ss, RECORD_METADATA, 0, metadata), SealedChunks(ss, chunks, 1),
         SealRecord(ss, RECORD_FINAL, |chunks| + 1, FinalPlaintext(Total(chunks), |chunks|)))
  }

  lemma RecordIsFrame(ss: Session, kind: byte, sequence: nat, plaintext: seq<byte>)
    requires ss.Valid() && Tagged(ss.suite)
    ensures Record(ss, kind, sequence, plaintext) == Frame(kind, sequence, SealRecord(ss, kind, sequence, plaintext))
    ensures |SealRecord(ss, kind, sequence, plaintext)| == |plaintext| + TAG_SIZE
  {
  }

  lemma OpensSealed(ss: Session, kind: byte, sequence: nat, plaintext: seq<byte>)
    requires ss.Valid() && Tagged(ss.suite) && Inverting(ss.suite)
    ensures OpenRecord(ss, kind, sequence, SealRecord(ss, kind, sequence, plaintext)) == Some(plaintext)
  {
    RecordIsFrame(ss, kind, sequence, plaintext);
  }

  lemma {:induction false} DataRecordsAreFrames(ss: Session, chunks: seq<seq<byte>>, sequence: nat)
    requires ss.Valid() && Tagged(ss.suite)
    ensures DataRecords(ss, chunks, sequence) == Frames(SealedChunks(ss, chunks, sequence), sequence)
    decreases |chunks|
  {
    hide Record, Frame, SealRecord;
    if chunks != [] {
      RecordIsFrame(ss, RECORD_DATA, sequence, chunks[0]);
      assert SealedChunks(ss, chunks, sequence)[1..] == SealedChunks(ss, chunks[1..], sequence + 1);
      DataRecordsAreFrames(ss, chunks[1..], sequence + 1);
    }
  }

  /** The encoder's output, seen as a word of the grammar. */
  lemma StreamIsWire(ss: Session, metadata: seq<byte>, chunks: seq<seq<byte>>)
    requires ss.Valid() && Tagged(ss.suite)
    ensures Stream(ss, metadata, chunks) == WireBytes(ss.header, SealedWire(ss, metadata, chunks))
  {
    hide Record, Frame, SealRecord, DataRecords, Frames;
    RecordIsFrame(ss, RECORD_METADATA, 0, metadata);
    RecordIsFrame(ss, RECORD_FINAL, 1 + |chunks|, FinalPlaintext(Total(chunks), |chunks|));
    DataRecordsAreFrames(ss, chunks, 1);
  }

  predicate ChunksFit(chunks: seq<seq<byte>>, chunkSize: nat) {
    && (forall i :: 0 <= i < |chunks| ==> 1 <= |chunks[i]| <= chunkSize)
    && Total(chunks) < U64_LIMIT && |chunks| + 2 < U64_LIMIT
  }

  /** Type and text of the record numbered `i` in a stream of these chunks. */
  function RecordKind(chunks: seq<seq<byte>>, i: nat): byte {
    if i == 0 then RECORD_METADATA else if i <= |chunks| then RECORD_DATA else RECORD_FINAL
  }

  function RecordText(metadata: seq<byte>, chunks: seq<seq<byte>>, i: nat): seq<byte> {
    if i == 0 then metadata
    else if i <= |chunks| then chunks[i - 1]
    else FinalPlaintext(Total(chunks), |chunks|)
  }

  ghost predicate OpensOwn(ss: Session, metadata: seq<byte>, chunks: seq<seq<byte>>)
    requires ss.Valid()
  {
    forall i :: 0 <= i <= |chunks| + 1 ==>
      Opens(ss, RecordKind(chunks, i), i, RecordText(metadata, chunks, i))
  }

  ghost predicate Opens(ss: Session, kind: byte, sequence: nat, plaintext: seq<byte>)
    requires ss.Valid()
  {
    OpenRecord(ss, kind, sequence, SealRecord(ss, kind, sequence, plaintext)) == Some(plaintext)
  }

  lemma SealedBodyOk(ss: Session, metadata: seq<byte>, chunks: seq<seq<byte>>, chunkSize: nat)
    requires ss.Valid() && Tagged(ss.suite) && OpensOwn(ss, metadata, chunks) && ChunksFit(chunks, chunkSize)
    ensures
      var w := SealedWire(ss, metadata, chunks);
      BodyOk(ss, chunkSize, w.data, w.final, chunks, 1, 0, 0)
  {
    hide SealRecord, OpenRecord, FinalPlaintext;
    var data := SealedChunks(ss, chunks, 1);
    forall i | 0 <= i < |data|
      ensures DataOk(ss, chunkSize, data[i], 1 + i, chunks[i])
    {
      RecordIsFrame(ss, RECORD_DATA, 1 + i, chunks[i]);
      assert Opens(ss, RecordKind(chunks, 1 + i), 1 + i, RecordText(metadata, chunks, 1 + i));
    }
    var last := |chunks| + 1;
    RecordIsFrame(ss, RECORD_FINAL, last, FinalPlaintext(Total(chunks), |chunks|));
    assert Opens(ss, RecordKind(chunks, last), last, RecordText(metadata, chunks, last));
  }

  /** A stream whose own records open is accepted, by whoever derives its key. */
  lemma StreamAccepted(suite: Suite, password: seq<byte>, header: seq<byte>, filename: seq<byte>,
                       chunks: seq<seq<byte>>)
    requires Tagged(suite) && HeaderOk(suite, password, header)
    requires OpensOwn(HeaderSession(suite, password, header), Metadata(filename), chunks)
    requires ChunksFit(chunks, ParseHeader(header).chunkSize)
    requires 1 <= |filename| <= MAX_FILENAME_BYTES && suite.utf8(filename)
    ensures
      DecodeFile(suite, password, Stream(HeaderSession(suite, password, header), Metadata(filename), chunks))
        == Ok(PlainFile(filename, Concat(chunks)))
  {
    hide Record, Frame, SealRecord, OpenRecord, WireBytes, Stream, DecodeFile, ParseHeader, BodyOk;
    var ss := HeaderSession(suite, password, header);
    var w := SealedWire(ss, Metadata(filename), chunks);
    StreamIsWire(ss, Metadata(filename), chunks);
    SealedBodyOk(ss, Metadata(filename), chunks, ParseHeader(header).chunkSize);
    RecordIsFrame(ss, RECORD_METADATA, 0, Metadata(filename));
    assert Opens(ss, RecordKind(chunks, 0), 0, RecordText(Metadata(filename), chunks, 0));
    GrammarComplete(suite, password, header, w, filename, chunks);
  }

  /** What the encoder writes for `kdf`, `salt` and `baseNonce` is decoded to the same name and content. */
  lemma RoundTrip(suite: Suite, password: seq<byte>, filename: seq<byte>, plaintext: seq<byte>,
                  kdf: KdfParams, salt: seq<byte>, baseNonce: seq<byte>)
    requires Tagged(suite) && Inverting(suite)
    requires kdf.Fits() && |salt| == SALT_LENGTH && |baseNonce| == NONCE_LENGTH
    requires StreamEncoder.Encodable(suite, password, filename, kdf, salt)
    requires suite.utf8(filename) && |plaintext| < U64_LIMIT
    ensures
      DecodeFile(suite, password,
        EncodeStream(StreamEncoder.SessionOf(suite, password, kdf, salt, baseNonce), filename, plaintext))
        == Ok(PlainFile(filename, plaintext))
  {
    hide SealRecord, OpenRecord, Stream, DecodeFile, HeaderBytes, ParseHeader, RecordText;
    var ss := StreamEncoder.SessionOf(suite, password, kdf, salt, baseNonce);
    HeaderRoundTrip(StreamHeader(kdf, DEFAULT_CHUNK_SIZE, salt, baseNonce));
    ChunksPartition(plaintext);
    ChunkCountSmall(|plaintext|);
    forall i | 0 <= i <= |Chunks(plaintext)| + 1
      ensures Opens(ss, RecordKind(Chunks(plaintext), i), i, RecordText(Metadata(filename), Chunks(plaintext), i))
    {
      OpensSealed(ss, RecordKind(Chunks(plaintext), i), i, RecordText(Metadata(filename), Chunks(plaintext), i));
    }
    StreamAccepted(suite, password, ss.header, filename, Chunks(plaintext));
  }

  /** The chunk and record counters of the encoder stay far below their limits. */
  lemma ChunkCountSmall(total: nat)
    requires total < U64_LIMIT
    ensures ChunkCount(total) <= 0x1_0000_0000_0000
  {
  }

  // ------------------------------------------------------------ sizes

  lemma {:induction false} DataRecordsLength(ss: Session, chunks: seq<seq<byte>>, sequence: nat)
    requires ss.Valid() && Tagged(ss.suite)
    ensures |DataRecords(ss, chunks, sequence)| == Total(chunks) + 29 * |chunks|
    decreases |chunks|
  {
    hide Record;
    if chunks != [] {
      RecordLength(ss, RECORD_DATA, sequence, chunks[0]);
      DataRecordsLength(ss, chunks[1..], sequence + 1);
    }
  }

  lemma RecordLength(ss: Session, kind: byte, sequence: nat, plaintext: seq<byte>)
    requires ss.Valid() && Tagged(ss.suite)
    ensures |Record(ss, kind, sequence, plaintext)| == |plaintext| + 29
  {
    RecordIsFrame(ss, kind, sequence, plaintext);
  }

  /** The exact size of a version 2 file. */
  lemma EncodedLength(ss: Session, filename: seq<byte>, plaintext: seq<byte>)
    requires ss.Valid() && Tagged(ss.suite)
    ensures |EncodeStream(ss, filename, plaintext)|
      == 129 + |filename| + |plaintext| + 29 * ChunkCount(|plaintext|)
  {
    hide Record, DataRecords, Chunks, FinalPlaintext;
    var chunks := Chunks(plaintext);
    ChunksPartition(plaintext);
    DataRecordsLength(ss, chunks, 1);
    RecordLength(ss, RECORD_METADATA, 0, Metadata(filename));
    RecordLength(ss, RECORD_FINAL, 1 + |chunks|, FinalPlaintext(Total(chunks), |chunks|));
  }

  /** The counters of an accepted file: each data record adds between one byte and one full chunk. */
  lemma AcceptedCounters(suite: Suite, password: seq<byte>, header: seq<byte>, w: Wire,
                         filename: seq<byte>, chunks: seq<seq<byte>>)
    requires Tagged(suite) && InLanguage(suite, password, header, w, filename, chunks)
    ensures |chunks| <= |Concat(chunks)| <= |chunks| * ParseHeader(header).chunkSize
    ensures |chunks| + 2 < U64_LIMIT
  {
    hide OpenRecord, ParseHeader;
    var ss, chunkSize := HeaderSession(suite, password, header), ParseHeader(header).chunkSize;
    forall i | 0 <= i < |chunks|
      ensures 1 <= |chunks[i]| <= chunkSize
    {
      assert DataOk(ss, chunkSize, w.data[i], 1 + i, chunks[i]);
      OpenShrinks(ss, RECORD_DATA, 1 + i, w.data[i]);
    }
    TotalBounds(chunks, chunkSize);
  }

  lemma OpenShrinks(ss: Session, kind: byte, sequence: nat, ciphertext: seq<byte>)
    requires ss.Valid() && Tagged(ss.suite) && OpenRecord(ss, kind, sequence, ciphertext).Some?
    ensures |ciphertext| == |OpenRecord(ss, kind, sequence, ciphertext).value| + TAG_SIZE
  {
  }
}
