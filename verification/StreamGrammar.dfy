/**
 The language the decoder accepts, stated without reference to how it parses:
 a header, a metadata record, numbered data records and one matching final record.
 */
module StreamGrammar {
  import opened Bytes
  import opened Results
  import opened Primitives
  import opened StreamFormat
  import opened StreamDecoding

  /** The ciphertexts of a stream's records. */
  datatype Wire = Wire(metadata: seq<byte>, data: seq<seq<byte>>, final: seq<byte>)

  function Frames(data: seq<seq<byte>>, sequence: nat): seq<byte>
    decreases |data|
  {
    if data == [] then [] else Frame(RECORD_DATA, sequence, data[0]) + Frames(data[1..], sequence + 1)
  }

  function BodyBytes(data: seq<seq<byte>>, final: seq<byte>, sequence: nat): seq<byte> {
    Frames(data, sequence) + Frame(RECORD_FINAL, sequence + |data|, final)
  }

  function WireBytes(header: seq<byte>, w: Wire): seq<byte> {
    header + Frame(RECORD_METADATA, 0, w.metadata) + BodyBytes(w.data, w.final, 1)
  }

  predicate Sized(ciphertext: seq<byte>, maxPlaintext: nat) {
    TAG_SIZE <= |ciphertext| <= maxPlaintext + TAG_SIZE
  }

  /** A data record with this number opens to this non-empty text. */
  predicate DataOk(ss: Session, chunkSize: nat, ciphertext: seq<byte>, sequence: nat, chunk: seq<byte>)
    requires ss.Valid()
  {
    Sized(ciphertext, chunkSize) && OpenRecord(ss, RECORD_DATA, sequence, ciphertext) == Some(chunk) && chunk != []
  }

  predicate FinalOk(ss: Session, ciphertext: seq<byte>, sequence: nat, total: nat, count: nat)
    requires ss.Valid()
  {
    && Sized(ciphertext, FINAL_PLAINTEXT_SIZE) && total < U64_LIMIT && sequence + 1 < U64_LIMIT
    && OpenRecord(ss, RECORD_FINAL, sequence, ciphertext) == Some(FinalPlaintext(total, count))
  }

  /** The records after the metadata, numbered from `sequence`, carry exactly `chunks`. */
  predicate BodyOk(ss: Session, chunkSize: nat, data: seq<seq<byte>>, final: seq<byte>, chunks: seq<seq<byte>>,
                   sequence: nat, total: nat, count: nat)
    requires ss.Valid()
  {
    && |data| == |chunks|
    && (forall i :: 0 <= i < |data| ==> DataOk(ss, chunkSize, data[i], sequence + i, chunks[i]))
    && FinalOk(ss, final, sequence + |data|, total + Total(chunks), count + |chunks|)
  }

  lemma {:induction false} TotalBounds(chunks: seq<seq<byte>>, chunkSize: nat)
    requires forall i :: 0 <= i < |chunks| ==> 1 <= |chunks[i]| <= chunkSize
    ensures |chunks| <= Total(chunks) <= |chunks| * chunkSize
  {
    if chunks != [] {
      TotalBounds(chunks[1..], chunkSize);
      assert |chunks| * chunkSize == chunkSize + (|chunks| - 1) * chunkSize;
    }
  }

  // ------------------------------------------------------------ records

  /** Reading a well-formed data or final record yields its text and what follows it. */
  lemma ReadFrame(ss: Session, chunkSize: nat, kind: byte, sequence: nat, ciphertext: seq<byte>, rest: seq<byte>,
                  plaintext: seq<byte>)
    requires ss.Valid() && (kind == RECORD_DATA || kind == RECORD_FINAL)
    requires Sized(ciphertext, MaxPlaintext(kind, chunkSize)) && chunkSize <= MAX_CHUNK_SIZE
    requires sequence + 1 < U64_LIMIT
    requires OpenRecord(ss, kind, sequence, ciphertext) == Some(plaintext)
    ensures ReadNextRecord(ss, chunkSize, Frame(kind, sequence, ciphertext) + rest, sequence)
      == Ok(Piece(kind, plaintext, rest))
  {
    FrameFields(kind, sequence, ciphertext, rest);
  }

  lemma FrameFields(kind: byte, sequence: nat, ciphertext: seq<byte>, rest: seq<byte>)
    requires sequence < U64_LIMIT && |ciphertext| < U32_LIMIT
    ensures
      var input := Frame(kind, sequence, ciphertext) + rest;
      && |input| >= 13 + |ciphertext|
      && input[0] == kind && FromBigEndian(input[1..9]) == sequence
      && input[..13] == RecordHeader(kind, sequence, |ciphertext|)
      && FromBigEndian(input[..13][9..13]) == |ciphertext|
      && input[13..][..|ciphertext|] == ciphertext && input[13..][|ciphertext|..] == rest
  {
    var header := RecordHeader(kind, sequence, |ciphertext|);
    var input := Frame(kind, sequence, ciphertext) + rest;
    assert input == header + (ciphertext + rest);
    assert input[1..9] == header[1..9];
    assert input[13..] == ciphertext + rest;
    RecordHeaderFields(kind, sequence, |ciphertext|);
  }

  /** Whatever record body is decrypted was framed that way. */
  lemma BodyIsFrame(ss: Session, input: seq<byte>, sequence: nat, maxPlaintext: nat) returns (ciphertext: seq<byte>)
    requires ss.Valid() && |input| >= RECORD_HEADER_SIZE && FromBigEndian(input[1..9]) == sequence
    requires DecryptRecordBody(ss, input[..13], sequence, input[13..], maxPlaintext).Ok?
    ensures
      var piece := DecryptRecordBody(ss, input[..13], sequence, input[13..], maxPlaintext).value;
      && input == Frame(input[0], sequence, ciphertext) + piece.rest
      && piece.kind == input[0] && Sized(ciphertext, maxPlaintext)
      && OpenRecord(ss, input[0], sequence, ciphertext) == Some(piece.plaintext)
  {
    hide RecordHeader, RecordNonce;
    var record := input[..13];
    var n := FromBigEndian(record[9..13]);
    ciphertext := input[13..][..n];
    assert record[1..9] == input[1..9];
    assert record == RecordHeader(input[0], sequence, n) by { RecordHeaderOfFields(record); }
    assert input == record + ciphertext + input[13..][n..];
  }

  /** Conversely, whatever is read was framed that way. */
  lemma ReadIsFrame(ss: Session, chunkSize: nat, input: seq<byte>, sequence: nat) returns (ciphertext: seq<byte>)
    requires ss.Valid() && ReadNextRecord(ss, chunkSize, input, sequence).Ok?
    ensures
      var piece := ReadNextRecord(ss, chunkSize, input, sequence).value;
      && input == Frame(piece.kind, sequence, ciphertext) + piece.rest
      && Sized(ciphertext, MaxPlaintext(piece.kind, chunkSize)) && sequence + 1 < U64_LIMIT
      && OpenRecord(ss, piece.kind, sequence, ciphertext) == Some(piece.plaintext)
  {
    hide DecryptRecordBody, Frame, OpenRecord;
    ciphertext := BodyIsFrame(ss, input, sequence, MaxPlaintext(input[0], chunkSize));
  }

  // ------------------------------------------------------------ bodies

  /** Completeness: a well-formed body decodes to its chunks. */
  lemma {:induction false} BodyDecodes(ss: Session, chunkSize: nat, data: seq<seq<byte>>, final: seq<byte>,
                                       chunks: seq<seq<byte>>, sequence: nat, total: nat, count: nat)
    requires ss.Valid() && chunkSize <= MAX_CHUNK_SIZE && count < sequence
    requires BodyOk(ss, chunkSize, data, final, chunks, sequence, total, count)
    ensures DecodeRecords(ss, chunkSize, BodyBytes(data, final, sequence), sequence, total, count)
      == Decoded(Concat(chunks), Ok(total + Total(chunks)))
    decreases |data|
  {
    hide ReadNextRecord, OpenRecord, Frame;
    if data == [] {
      FinalDecodes(ss, chunkSize, final, sequence, total, count);
      assert BodyBytes(data, final, sequence) == Frame(RECORD_FINAL, sequence, final);
    } else {
      var tail := BodyBytes(data[1..], final, sequence + 1);
      assert BodyBytes(data, final, sequence) == Frame(RECORD_DATA, sequence, data[0]) + tail;
      assert DataOk(ss, chunkSize, data[0], sequence + 0, chunks[0]);
      ReadFrame(ss, chunkSize, RECORD_DATA, sequence, data[0], tail, chunks[0]);
      BodyOkTail(ss, chunkSize, data, final, chunks, sequence, total, count);
      BodyDecodes(ss, chunkSize, data[1..], final, chunks[1..], sequence + 1, total + |chunks[0]|, count + 1);
    }
  }

  lemma BodyOkTail(ss: Session, chunkSize: nat, data: seq<seq<byte>>, final: seq<byte>,
                   chunks: seq<seq<byte>>, sequence: nat, total: nat, count: nat)
    requires ss.Valid() && data != []
    requires BodyOk(ss, chunkSize, data, final, chunks, sequence, total, count)
    ensures BodyOk(ss, chunkSize, data[1..], final, chunks[1..], sequence + 1, total + |chunks[0]|, count + 1)
  {
    hide DataOk, FinalOk;
    forall i | 0 <= i < |data[1..]|
      ensures DataOk(ss, chunkSize, data[1..][i], sequence + 1 + i, chunks[1..][i])
    {
      assert DataOk(ss, chunkSize, data[i + 1], sequence + (i + 1), chunks[i + 1]);
    }
  }

  lemma BodyOkCons(ss: Session, chunkSize: nat, first: seq<byte>, data: seq<seq<byte>>, final: seq<byte>,
                   chunk: seq<byte>, chunks: seq<seq<byte>>, sequence: nat, total: nat, count: nat)
    requires ss.Valid() && DataOk(ss, chunkSize, first, sequence, chunk)
    requires BodyOk(ss, chunkSize, data, final, chunks, sequence + 1, total + |chunk|, count + 1)
    ensures BodyOk(ss, chunkSize, [first] + data, final, [chunk] + chunks, sequence, total, count)
    ensures BodyBytes([first] + data, final, sequence)
      == Frame(RECORD_DATA, sequence, first) + BodyBytes(data, final, sequence + 1)
    ensures Concat([chunk] + chunks) == chunk + Concat(chunks)
  {
    hide DataOk, FinalOk, Frame;
    var data', chunks' := [first] + data, [chunk] + chunks;
    assert data'[1..] == data && chunks'[1..] == chunks;
    forall i | 0 <= i < |data'|
      ensures DataOk(ss, chunkSize, data'[i], sequence + i, chunks'[i])
    {
      if i > 0 {
        assert DataOk(ss, chunkSize, data[i - 1], sequence + 1 + (i - 1), chunks[i - 1]);
      }
    }
  }

  lemma FinalDecodes(ss: Session, chunkSize: nat, final: seq<byte>, sequence: nat, total: nat, count: nat)
    requires ss.Valid() && chunkSize <= MAX_CHUNK_SIZE && count < sequence
    requires FinalOk(ss, final, sequence, total, count)
    ensures DecodeRecords(ss, chunkSize, Frame(RECORD_FINAL, sequence, final), sequence, total, count)
      == Decoded([], Ok(total))
  {
    hide ReadNextRecord, OpenRecord, Frame;
    var frame := Frame(RECORD_FINAL, sequence, final);
    assert frame == frame + [];
    ReadFrame(ss, chunkSize, RECORD_FINAL, sequence, final, [], FinalPlaintext(total, count));
    FinalFields(total, count);
  }

  lemma FinalFields(total: nat, count: nat)
    requires total < U64_LIMIT && count < U64_LIMIT
    ensures FromBigEndian(FinalPlaintext(total, count)[..8]) == total
    ensures FromBigEndian(FinalPlaintext(total, count)[8..]) == count
  {
    assert FinalPlaintext(total, count)[..8] == BigEndian(total, 8);
    assert FinalPlaintext(total, count)[8..] == BigEndian(count, 8);
    Pow256Values();
    BigEndianRoundTrip(total, 8);
    BigEndianRoundTrip(count, 8);
  }

  lemma FinalOfFields(plaintext: seq<byte>, total: nat, count: nat)
    requires |plaintext| == FINAL_PLAINTEXT_SIZE
    requires FromBigEndian(plaintext[..8]) == total && FromBigEndian(plaintext[8..]) == count
    ensures plaintext == FinalPlaintext(total, count) && total < U64_LIMIT && count < U64_LIMIT
  {
    FromBigEndianRoundTrip(plaintext[..8]);
    FromBigEndianRoundTrip(plaintext[8..]);
    Pow256Values();
    assert plaintext == plaintext[..8] + plaintext[8..];
  }

  /** Soundness: whatever decodes is a well-formed body, and the output is its chunks. */
  lemma {:induction false} DecodedBody(ss: Session, chunkSize: nat, input: seq<byte>, sequence: nat, total: nat,
                                       count: nat)
    returns (data: seq<seq<byte>>, final: seq<byte>, chunks: seq<seq<byte>>)
    requires ss.Valid() && DecodeRecords(ss, chunkSize, input, sequence, total, count).outcome.Ok?
    ensures BodyOk(ss, chunkSize, data, final, chunks, sequence, total, count)
    ensures input == BodyBytes(data, final, sequence)
    ensures DecodeRecords(ss, chunkSize, input, sequence, total, count)
      == Decoded(Concat(chunks), Ok(total + Total(chunks)))
    decreases |input|
  {
    hide ReadNextRecord, OpenRecord, Frame;
    var piece := ReadNextRecord(ss, chunkSize, input, sequence).value;
    var ciphertext := ReadIsFrame(ss, chunkSize, input, sequence);
    if piece.kind == RECORD_FINAL {
      data, final, chunks := [], ciphertext, [];
      FinalOfFields(piece.plaintext, total, count);
      assert input == Frame(RECORD_FINAL, sequence, ciphertext);
    } else {
      ReadShrinks(ss, chunkSize, input, sequence);
      data, final, chunks :=
        DecodedBody(ss, chunkSize, piece.rest, sequence + 1, total + |piece.plaintext|, count + 1);
      BodyOkCons(ss, chunkSize, ciphertext, data, final, piece.plaintext, chunks, sequence, total, count);
      data, chunks := [ciphertext] + data, [piece.plaintext] + chunks;
    }
  }

  /** Every record takes at least 29 bytes, so the decoder's loop ends. */
  lemma ReadShrinks(ss: Session, chunkSize: nat, input: seq<byte>, sequence: nat)
    requires ss.Valid() && ReadNextRecord(ss, chunkSize, input, sequence).Ok?
    ensures |ReadNextRecord(ss, chunkSize, input, sequence).value.rest| + 29 <= |input|
    ensures ReadNextRecord(ss, chunkSize, input, sequence).value.kind in {RECORD_DATA, RECORD_FINAL}
  {
  }
}
