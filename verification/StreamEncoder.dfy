/** The encoder as the program runs it, proved against `StreamFormat.EncodeStream`. */
module StreamEncoder {
  import opened Bytes
  import opened Results
  import opened Primitives
  import opened Streams
  import opened StreamFormat

  method DeriveRecordNonce(baseNonce: seq<byte>, sequence: nat) returns (nonce: seq<byte>)
    requires |baseNonce| == NONCE_LENGTH
    ensures nonce == RecordNonce(baseNonce, sequence)
  {
    var slots := new byte[NONCE_LENGTH](i requires 0 <= i < NONCE_LENGTH => baseNonce[i]);
    var sequenceBytes := BigEndian(sequence, 8);
    for i := 0 to 8
      invariant forall k :: 0 <= k < 4 + i ==> slots[k] == RecordNonce(baseNonce, sequence)[k]
      invariant forall k :: 4 + i <= k < NONCE_LENGTH ==> slots[k] == baseNonce[k]
    {
      slots[4 + i] := XorByte(slots[4 + i], sequenceBytes[i]);
    }
    nonce := slots[..];
  }

  /** Seals one record and appends it; a failed write leaves a prefix of the record. */
  method WriteRecord(writer: Writer, ss: Session, kind: byte, sequence: nat, plaintext: seq<byte>)
    returns (r: Result<()>)
    requires ss.Valid()
    modifies writer`written
    ensures r.Ok? ==> writer.written == old(writer.written) + Record(ss, kind, sequence, plaintext)
    ensures old(writer.written) <= writer.written <= old(writer.written) + Record(ss, kind, sequence, plaintext)
    ensures r.Err? ==>
      || (r.error == ResourceLimit(RecordTooLarge) && |plaintext| + TAG_SIZE >= U32_LIMIT)
      || (r.error == IoError(OtherIo) && writer.flaky)
  {
    var encryptedLen := |plaintext| + TAG_SIZE;
    if encryptedLen >= U32_LIMIT {
      return Err(ResourceLimit(RecordTooLarge));
    }
    var record := RecordHeader(kind, sequence, encryptedLen);
    var aad := RecordAad(ss.header, record);
    var nonce := DeriveRecordNonce(ss.baseNonce, sequence);
    var ciphertext := ss.suite.seal(ss.key, nonce, plaintext, aad);
    ghost var start := writer.written;
    assert start + (record + ciphertext) == start + record + ciphertext;
    r := writer.WriteAll(record);
    if r.Err? {
      return;
    }
    r := writer.WriteAll(ciphertext);
  }

  /** The record of the first chunk comes first. */
  lemma BodyCons(ss: Session, chunk: seq<byte>, chunks: seq<seq<byte>>, sequence: nat, total: nat, count: nat)
    requires ss.Valid()
    ensures Body(ss, [chunk] + chunks, sequence, total, count)
      == Record(ss, RECORD_DATA, sequence, chunk) + Body(ss, chunks, sequence + 1, total + |chunk|, count + 1)
  {
    hide Record, FinalPlaintext;
    var all := [chunk] + chunks;
    assert all[0] == chunk && all[1..] == chunks;
    var first, middle := Record(ss, RECORD_DATA, sequence, chunk), DataRecords(ss, chunks, sequence + 1);
    assert DataRecords(ss, all, sequence) == first + middle;
    assert Total(all) == |chunk| + Total(chunks);
    var last := Record(ss, RECORD_FINAL, sequence + |all|, FinalPlaintext(total + Total(all), count + |all|));
    assert (first + middle) + last == first + (middle + last);
  }

  /** The reader's next full buffer is the next chunk. */
  lemma ChunksStep(rest: seq<byte>, n: nat)
    requires rest != [] && n == (if |rest| < DEFAULT_CHUNK_SIZE then |rest| else DEFAULT_CHUNK_SIZE)
    ensures Chunks(rest) == [rest[..n]] + Chunks(rest[n..])
  {
    if |rest| <= DEFAULT_CHUNK_SIZE {
      assert rest[..n] == rest && rest[n..] == [];
    }
  }

  /** What is still owed to the writer: the body of the unread plaintext. */
  ghost function Owed(ss: Session, rest: seq<byte>, sequence: nat, total: nat, count: nat): seq<byte>
    requires ss.Valid()
  {
    Body(ss, Chunks(rest), sequence, total, count)
  }

  lemma OwedStep(ss: Session, rest: seq<byte>, n: nat, sequence: nat, total: nat, count: nat)
    requires ss.Valid()
    requires rest != [] && n == (if |rest| < DEFAULT_CHUNK_SIZE then |rest| else DEFAULT_CHUNK_SIZE)
    ensures Owed(ss, rest, sequence, total, count)
      == Record(ss, RECORD_DATA, sequence, rest[..n]) + Owed(ss, rest[n..], sequence + 1, total + n, count + 1)
  {
    hide Body, Chunks;
    ChunksStep(rest, n);
    BodyCons(ss, rest[..n], Chunks(rest[n..]), sequence, total, count);
  }

  /** One turn of the chunk loop; answers whether another turn is due. */
  method WriteChunk(reader: Reader, writer: Writer, ss: Session, buffer: array<byte>,
                    total: nat, chunkCount: nat, sequence: nat, ghost target: seq<byte>)
    returns (r: Result<bool>, total': nat, chunkCount': nat, sequence': nat)
    requires ss.Valid() && reader.Valid() && buffer.Length == DEFAULT_CHUNK_SIZE
    requires total < U64_LIMIT && total == chunkCount * DEFAULT_CHUNK_SIZE && sequence == chunkCount + 1
    requires target == writer.written + Owed(ss, reader.Rest(), sequence, total, chunkCount)
    modifies reader`pos, reader`interrupts, writer`written, buffer
    ensures reader.Valid() && old(writer.written) <= writer.written <= target
    ensures r.Ok? ==>
      && target == writer.written + Owed(ss, reader.Rest(), sequence', total', chunkCount')
      && total' + |reader.Rest()| == total + |old(reader.Rest())| && total' < U64_LIMIT
      && chunkCount' == ChunkCount(total') && sequence' == chunkCount' + 1
      && (r.value ==> |reader.Rest()| < |old(reader.Rest())| && total' == chunkCount' * DEFAULT_CHUNK_SIZE)
      && (!r.value ==> reader.Rest() == [])
    ensures r.Err? ==>
      || (r.error == IoError(OtherIo) && (reader.flaky || writer.flaky))
      || (r.error == ResourceLimit(PlaintextLength) && total + |old(reader.Rest())| >= U64_LIMIT)
  {
    hide Owed, Record;
    total', chunkCount', sequence' := total, chunkCount, sequence;
    ghost var rest, before := reader.Rest(), writer.written;
    var filled, outcome := Fill(reader, buffer, 0);
    if outcome.Err? {
      return Err(outcome.error), total', chunkCount', sequence';
    }
    if filled == 0 {
      return Ok(false), total', chunkCount', sequence';
    }
    assert buffer[..filled] == rest[..filled];
    OwedStep(ss, rest, filled, sequence, total, chunkCount);
    ghost var tail := Owed(ss, rest[filled..], sequence + 1, total + filled, chunkCount + 1);
    var outcome' := WriteRecord(writer, ss, RECORD_DATA, sequence, buffer[..filled]);
    PartialRecord(before, writer.written, Record(ss, RECORD_DATA, sequence, rest[..filled]), tail, target);
    if outcome'.Err? {
      return Err(outcome'.error), total', chunkCount', sequence';
    }
    outcome', total', chunkCount', sequence' := Count(total, chunkCount, sequence, filled);
    if outcome'.Err? {
      return Err(outcome'.error), total', chunkCount', sequence';
    }
    r := Ok(filled == buffer.Length);
  }

  /** Reads chunk after chunk; on success only the final record is still owed. */
  method WriteChunks(reader: Reader, writer: Writer, ss: Session)
    returns (r: Result<()>, total: nat, chunkCount: nat, sequence: nat)
    requires ss.Valid() && reader.Valid()
    modifies reader`pos, reader`interrupts, writer`written
    ensures reader.Valid()
    ensures old(writer.written) <= writer.written
      <= old(writer.written) + Owed(ss, old(reader.Rest()), 1, 0, 0)
    ensures r.Ok? ==>
      && total == |old(reader.Rest())| < U64_LIMIT && chunkCount == ChunkCount(total) && sequence == chunkCount + 1
      && old(writer.written) + Owed(ss, old(reader.Rest()), 1, 0, 0)
         == writer.written + Owed(ss, [], sequence, total, chunkCount)
    ensures r.Err? ==>
      || (r.error == IoError(OtherIo) && (reader.flaky || writer.flaky))
      || (r.error == ResourceLimit(PlaintextLength) && |old(reader.Rest())| >= U64_LIMIT)
  {
    hide Owed;
    var buffer := new byte[DEFAULT_CHUNK_SIZE];
    total, chunkCount, sequence := 0, 0, 1;
    ghost var target := writer.written + Owed(ss, reader.Rest(), 1, 0, 0);
    var more := true;
    while more
      invariant reader.Valid() && old(writer.written) <= writer.written <= target
      invariant target == writer.written + Owed(ss, reader.Rest(), sequence, total, chunkCount)
      invariant total + |reader.Rest()| == |old(reader.Rest())| && total < U64_LIMIT
      invariant chunkCount == ChunkCount(total) && sequence == chunkCount + 1
      invariant more ==> total == chunkCount * DEFAULT_CHUNK_SIZE
      invariant !more ==> reader.Rest() == []
      decreases more, |reader.Rest()|
    {
      var turn;
      turn, total, chunkCount, sequence := WriteChunk(reader, writer, ss, buffer, total, chunkCount, sequence, target);
      if turn.Err? {
        return Err(turn.error), total, chunkCount, sequence;
      }
      more := turn.value;
    }
    r := Ok(());
  }

  /** A partly written record is still a prefix of the target. */
  lemma PartialRecord(before: seq<byte>, after: seq<byte>, record: seq<byte>, tail: seq<byte>, target: seq<byte>)
    requires before <= after <= before + record && before + (record + tail) == target
    ensures after <= target && before + record + tail == target
  {
    assert before + record + tail == before + (record + tail);
  }

  /** The three checked counters after one more chunk. */
  method Count(total: nat, chunkCount: nat, sequence: nat, filled: nat)
    returns (r: Result<()>, total': nat, chunkCount': nat, sequence': nat)
    requires total < U64_LIMIT && total == chunkCount * DEFAULT_CHUNK_SIZE && sequence == chunkCount + 1
    requires 0 < filled <= DEFAULT_CHUNK_SIZE
    ensures r.Ok? <==> total + filled < U64_LIMIT
    ensures r.Ok? ==> total' == total + filled && chunkCount' == chunkCount + 1 && sequence' == sequence + 1
    ensures r.Ok? ==> chunkCount' == ChunkCount(total')
    ensures r.Err? ==> r.error == ResourceLimit(PlaintextLength)
  {
    total', chunkCount', sequence' := total, chunkCount, sequence;
    if total + filled >= U64_LIMIT {
      return Err(ResourceLimit(PlaintextLength)), total', chunkCount', sequence';
    }
    total' := total + filled;
    if chunkCount + 1 >= U64_LIMIT {
      return Err(ResourceLimit(ChunkCounter)), total', chunkCount', sequence';
    }
    chunkCount' := chunkCount + 1;
    if sequence + 1 >= U64_LIMIT {
      return Err(ResourceLimit(RecordCounter)), total', chunkCount', sequence';
    }
    sequence' := sequence + 1;
    r := Ok(());
  }

  /** Encrypts a stream; the salt and base nonce are the random values it drew. */
  method EncryptStream(suite: Suite, password: seq<byte>, filename: seq<byte>, reader: Reader, writer: Writer,
                       kdf: KdfParams, salt: seq<byte>, baseNonce: seq<byte>)
    returns (r: Result<nat>)
    requires reader.Valid()
    requires kdf.Fits() && |salt| == SALT_LENGTH && |baseNonce| == NONCE_LENGTH
    modifies reader`pos, reader`interrupts, writer`written
    ensures reader.Valid()
    ensures r.Ok? ==>
      && Encodable(suite, password, filename, kdf, salt)
      && r.value == |old(reader.Rest())| < U64_LIMIT
      && writer.written == old(writer.written)
         + EncodeStream(SessionOf(suite, password, kdf, salt, baseNonce), filename, old(reader.Rest()))
    ensures r.Err? ==>
      || !Encodable(suite, password, filename, kdf, salt)
      || (r.error == ResourceLimit(PlaintextLength) && |old(reader.Rest())| >= U64_LIMIT)
      || (r.error == IoError(OtherIo) && (reader.flaky || writer.flaky))
    ensures if Encodable(suite, password, filename, kdf, salt)
      then old(writer.written) <= writer.written <= old(writer.written)
         + EncodeStream(SessionOf(suite, password, kdf, salt, baseNonce), filename, old(reader.Rest()))
      else writer.written == old(writer.written)
  {
    hide Owed, Record, EncodeStream;
    if filename == [] {
      return Err(EncryptionFailed);
    }
    if |filename| > MAX_FILENAME_BYTES {
      return Err(EncryptionFailed);
    }
    var key := DeriveKey(suite, password, salt, kdf);
    if key.Err? {
      return Err(key.error);
    }
    var header := HeaderBytes(StreamHeader(kdf, DEFAULT_CHUNK_SIZE, salt, baseNonce));
    var ss := Session(suite, key.value, header, baseNonce);
    ghost var start, plaintext := writer.written, reader.Rest();
    EncodingParts(ss, filename, plaintext, start);
    var outcome := writer.WriteAll(header);
    if outcome.Err? {
      return Err(outcome.error);
    }
    outcome := WriteRecord(writer, ss, RECORD_METADATA, 0, Metadata(filename));
    if outcome.Err? {
      return Err(outcome.error);
    }
    var total, chunkCount, sequence;
    outcome, total, chunkCount, sequence := WriteChunks(reader, writer, ss);
    if outcome.Err? {
      return Err(outcome.error);
    }
    OwedNothing(ss, sequence, total, chunkCount);
    outcome := WriteRecord(writer, ss, RECORD_FINAL, sequence, FinalPlaintext(total, chunkCount));
    if outcome.Err? {
      return Err(outcome.error);
    }
    r := Ok(total);
  }

  ghost predicate Encodable(suite: Suite, password: seq<byte>, filename: seq<byte>, kdf: KdfParams, salt: seq<byte>) {
    1 <= |filename| <= MAX_FILENAME_BYTES && DeriveKey(suite, password, salt, kdf).Ok?
  }

  /** The session the encoder uses for the values it drew. */
  ghost function SessionOf(suite: Suite, password: seq<byte>, kdf: KdfParams, salt: seq<byte>, baseNonce: seq<byte>)
    : (ss: Session)
    requires kdf.Fits() && |salt| == SALT_LENGTH && |baseNonce| == NONCE_LENGTH
    requires DeriveKey(suite, password, salt, kdf).Ok?
    ensures ss.Valid()
  {
    Session(suite, DeriveKey(suite, password, salt, kdf).value,
            HeaderBytes(StreamHeader(kdf, DEFAULT_CHUNK_SIZE, salt, baseNonce)), baseNonce)
  }

  lemma EncodingParts(ss: Session, filename: seq<byte>, plaintext: seq<byte>, start: seq<byte>)
    requires ss.Valid()
    ensures start + EncodeStream(ss, filename, plaintext)
      == start + ss.header + Record(ss, RECORD_METADATA, 0, Metadata(filename)) + Owed(ss, plaintext, 1, 0, 0)
  {
    hide Record, Body, Chunks;
  }

  lemma OwedNothing(ss: Session, sequence: nat, total: nat, count: nat)
    requires ss.Valid()
    ensures Owed(ss, [], sequence, total, count) == Record(ss, RECORD_FINAL, sequence, FinalPlaintext(total, count))
  {
    hide Record;
  }
}
