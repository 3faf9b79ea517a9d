/** The streaming decoder as the program runs it, proved against `StreamDecoding`. */
module StreamDecoder {
  import opened Bytes
  import opened Results
  import opened Primitives
  import opened Streams
  import opened StreamFormat
  import Legacy
  import StreamEncoder
  import D = StreamDecoding

  /** `r` is what the specification answers, unless the reader itself failed. */
  ghost predicate Faithful<T, U>(r: Result<T>, spec: Result<U>, flaky: bool) {
    r.Err? ==> (r.error == IoError(OtherIo) && flaky) || (spec.Err? && spec.error == r.error)
  }

  method DecryptRecordBody(reader: Reader, ss: Session, record: array<byte>, sequence: nat, maxPlaintext: nat)
    returns (r: Result<seq<byte>>)
    requires ss.Valid() && reader.Valid() && record.Length == RECORD_HEADER_SIZE
    modifies reader`pos, reader`interrupts
    ensures reader.Valid()
    ensures Faithful(r, D.DecryptRecordBody(ss, record[..], sequence, old(reader.Rest()), maxPlaintext), reader.flaky)
    ensures r.Ok? ==>
      D.DecryptRecordBody(ss, record[..], sequence, old(reader.Rest()), maxPlaintext)
        == Ok(D.Piece(record[0], r.value, reader.Rest()))
    ensures r != Err(ResourceLimit(ChunkCounter))
  {
    assert record[..][9..13] == record[9..13];
    var ciphertextLen := FromBigEndian(record[9..13]);
    if ciphertextLen < TAG_SIZE || ciphertextLen - TAG_SIZE > maxPlaintext {
      return Err(ResourceLimit(RecordLength));
    }
    var ciphertext := new byte[ciphertextLen];
    ghost var fixed := record[..];
    var read := ReadExactFormat(reader, ciphertext);
    assert record[..] == fixed;
    if read.Err? {
      return Err(read.error);
    }
    var aad := RecordAad(ss.header, record[..]);
    var nonce := StreamEncoder.DeriveRecordNonce(ss.baseNonce, sequence);
    r := Decrypt(ss.suite, ss.key, nonce, ciphertext[..], aad);
  }

  method ReadRecord(reader: Reader, ss: Session, sequence: nat, kind: byte, maxPlaintext: nat)
    returns (r: Result<seq<byte>>)
    requires ss.Valid() && reader.Valid()
    modifies reader`pos, reader`interrupts
    ensures reader.Valid()
    ensures Faithful(r, D.ReadRecord(ss, old(reader.Rest()), sequence, kind, maxPlaintext), reader.flaky)
    ensures r.Ok? ==>
      D.ReadRecord(ss, old(reader.Rest()), sequence, kind, maxPlaintext) == Ok(D.Piece(kind, r.value, reader.Rest()))
  {
    hide D.DecryptRecordBody;
    var record := new byte[RECORD_HEADER_SIZE];
    ghost var input := reader.Rest();
    var read := ReadExactFormat(reader, record);
    if read.Err? {
      return Err(read.error);
    }
    if record[0] != kind {
      return Err(DecryptionFailed);
    }
    assert record[1..9] == input[1..9];
    if FromBigEndian(record[1..9]) != sequence {
      return Err(DecryptionFailed);
    }
    r := DecryptRecordBody(reader, ss, record, sequence, maxPlaintext);
  }

  class V2State {
    const reader: Reader
    const ss: Session
    const chunkSize: nat
    var nextSequence: nat

    constructor (reader: Reader, ss: Session, chunkSize: nat)
      ensures this.reader == reader && this.ss == ss && this.chunkSize == chunkSize && nextSequence == 1
    {
      this.reader, this.ss, this.chunkSize, this.nextSequence := reader, ss, chunkSize, 1;
    }

    ghost predicate Valid()
      reads reader`pos
    {
      ss.Valid() && reader.Valid()
    }
  }

  method ReadNextRecord(state: V2State) returns (r: Result<(byte, seq<byte>)>)
    requires state.Valid()
    modifies state`nextSequence, state.reader`pos, state.reader`interrupts
    ensures state.Valid()
    ensures Faithful(r, D.ReadNextRecord(state.ss, state.chunkSize, old(state.reader.Rest()), old(state.nextSequence)),
                     state.reader.flaky)
    ensures r.Ok? ==>
      && state.nextSequence == old(state.nextSequence) + 1 < U64_LIMIT
      && D.ReadNextRecord(state.ss, state.chunkSize, old(state.reader.Rest()), old(state.nextSequence))
         == Ok(D.Piece(r.value.0, r.value.1, state.reader.Rest()))
    ensures r != Err(ResourceLimit(ChunkCounter))
  {
    hide D.DecryptRecordBody;
    var record := new byte[RECORD_HEADER_SIZE];
    ghost var input := state.reader.Rest();
    var read := ReadExactFormat(state.reader, record);
    if read.Err? {
      return Err(read.error);
    }
    var kind := record[0];
    assert record[1..9] == input[1..9];
    var sequence := FromBigEndian(record[1..9]);
    if sequence != state.nextSequence {
      return Err(DecryptionFailed);
    }
    var maxPlaintext;
    if kind == RECORD_DATA {
      maxPlaintext := state.chunkSize;
    } else if kind == RECORD_FINAL {
      maxPlaintext := FINAL_PLAINTEXT_SIZE;
    } else {
      return Err(InvalidFileFormat);
    }
    var plaintext := DecryptRecordBody(state.reader, state.ss, record, sequence, maxPlaintext);
    if plaintext.Err? {
      return Err(plaintext.error);
    }
    if state.nextSequence + 1 >= U64_LIMIT {
      return Err(ResourceLimit(RecordCounter));
    }
    state.nextSequence := state.nextSequence + 1;
    r := Ok((kind, plaintext.value));
  }

  /** The final record against the running counters, then the end of the data. */
  method FinishStream(reader: Reader, plaintext: seq<byte>, total: nat, count: nat) returns (r: Result<nat>)
    requires reader.Valid()
    modifies reader`pos, reader`interrupts
    ensures reader.Valid()
    ensures Faithful(r, D.FinishStream(plaintext, old(reader.Rest()), total, count), reader.flaky)
    ensures r.Ok? ==> r == D.FinishStream(plaintext, old(reader.Rest()), total, count)
    ensures r != Err(ResourceLimit(ChunkCounter))
  {
    if |plaintext| != FINAL_PLAINTEXT_SIZE {
      return Err(InvalidFileFormat);
    }
    var claimedLen := FromBigEndian(plaintext[..8]);
    var claimedChunks := FromBigEndian(plaintext[8..]);
    if claimedLen != total || claimedChunks != count {
      return Err(DecryptionFailed);
    }
    var trailing := new byte[1];
    var read := NextRead(reader, trailing, 0);
    if read.Err? {
      return Err(read.error);
    }
    if read.value != 0 {
      return Err(InvalidFileFormat);
    }
    r := Ok(total);
  }

  datatype Mode = StreamMode(state: V2State) | LegacyMode(content: seq<byte>)

  class StreamDecryptor {
    const filename: seq<byte>
    const mode: Mode

    constructor (filename: seq<byte>, mode: Mode)
      ensures this.filename == filename && this.mode == mode
    {
      this.filename, this.mode := filename, mode;
    }

    ghost predicate Valid()
      reads if mode.StreamMode? then {mode.state, mode.state.reader} else {}
    {
      mode.StreamMode? ==> mode.state.Valid() && mode.state.nextSequence == 1
    }

    ghost predicate Flaky() {
      mode.StreamMode? && mode.state.reader.flaky
    }

    /** The staged decryptor, as the value that the specification opens. */
    ghost function Opened(): (o: D.Opened)
      requires Valid()
      reads if mode.StreamMode? then {mode.state, mode.state.reader} else {}
      ensures o.OpenedV2? ==> o.ss.Valid()
    {
      match mode
      case StreamMode(state) => D.OpenedV2(filename, state.ss, state.chunkSize, state.reader.Rest())
      case LegacyMode(content) => D.OpenedV1(filename, content)
    }

    /** Writes the plaintext.  Whatever the answer, only specified bytes were written, in order. */
    method DecryptTo(writer: Writer) returns (r: Result<nat>)
      requires Valid()
      modifies if mode.StreamMode? then {mode.state, mode.state.reader} else {}
      modifies writer`written
      ensures
        var d := D.DecodeOpened(old(Opened()));
        && old(writer.written) <= writer.written <= old(writer.written) + d.written
        && (r.Ok? ==> r == d.outcome && writer.written == old(writer.written) + d.written)
        && (r.Err? ==>
             || (d.outcome == r && writer.written == old(writer.written) + d.written)
             || (r.error == IoError(OtherIo) && (Flaky() || writer.flaky)))
      ensures !writer.flaky ==>
        D.OnBoundary(old(writer.written), D.OpenedTexts(old(Opened())), writer.written)
    {
      ghost var start := writer.written;
      match mode
      case LegacyMode(content) =>
        WholeText(start, content);
        var outcome := writer.WriteAll(content);
        if outcome.Err? {
          return Err(outcome.error);
        }
        return Ok(|content|);
      case StreamMode(state) =>
        r := DecryptStream(state, writer);
    }
  }

  function Min(a: nat, b: nat): nat {
    if a <= b then a else b
  }

  /** Reads to the end of the data, but no more than `limit` bytes. */
  method ReadToEnd(reader: Reader, limit: nat) returns (r: Result<seq<byte>>)
    requires reader.Valid()
    modifies reader`pos, reader`interrupts
    ensures reader.Valid()
    ensures r.Ok? ==>
      && r.value == old(reader.Rest())[..Min(limit, |old(reader.Rest())|)]
      && reader.Rest() == old(reader.Rest())[|r.value|..]
    ensures r.Err? ==> r.error == IoError(OtherIo) && reader.flaky
  {
    ghost var rest := reader.Rest();
    var data: seq<byte> := [];
    while |data| < limit
      invariant reader.Valid() && |data| <= Min(limit, |rest|)
      invariant data == rest[..|data|] && reader.Rest() == rest[|data|..]
      decreases limit - |data|
    {
      var room := Min(32 * 1024, limit - |data|);
      var buffer := new byte[room];
      var read := NextRead(reader, buffer, 0);
      if read.Err? {
        return Err(read.error);
      }
      if read.value == 0 {
        break;
      }
      SliceStep(rest, |data|, read.value);
      data := data + buffer[..read.value];
    }
    r := Ok(data);
  }

  /** The staged opening: nothing is written before the metadata is authenticated. */
  method NewStreamDecryptor(reader: Reader, suite: Suite, password: seq<byte>) returns (r: Result<StreamDecryptor>)
    requires reader.Valid()
    modifies reader`pos, reader`interrupts
    ensures reader.Valid()
    ensures r.Ok? ==>
      && fresh(r.value) && r.value.Valid()
      && (r.value.mode.StreamMode? ==> fresh(r.value.mode.state) && r.value.mode.state.reader == reader)
      && D.OpenStream(suite, password, old(reader.Rest())) == Ok(r.value.Opened())
    ensures Faithful(r, D.OpenStream(suite, password, old(reader.Rest())), reader.flaky)
  {
    hide D.OpenV2, D.OpenV1;
    ghost var input := reader.Rest();
    var prefix := new byte[9];
    var read := ReadExactFormat(reader, prefix);
    if read.Err? {
      return Err(read.error);
    }
    assert prefix[..8] == input[..8];
    if prefix[..8] != MAGIC_BYTES {
      return Err(InvalidFileFormat);
    }
    if prefix[8] == V2 {
      r := NewV2(reader, suite, password, prefix[..], input);
    } else if prefix[8] == V1 {
      r := NewLegacy(reader, suite, password, prefix[..], input);
    } else {
      r := Err(InvalidFileFormat);
    }
  }

  method NewV2(reader: Reader, suite: Suite, password: seq<byte>, prefix: seq<byte>, ghost input: seq<byte>)
    returns (r: Result<StreamDecryptor>)
    requires reader.Valid() && |prefix| == 9 <= |input| && prefix == input[..9] && reader.Rest() == input[9..]
    modifies reader`pos, reader`interrupts
    ensures reader.Valid()
    ensures r.Ok? ==>
      && fresh(r.value) && r.value.Valid()
      && r.value.mode.StreamMode? && fresh(r.value.mode.state) && r.value.mode.state.reader == reader
      && D.OpenV2(suite, password, input) == Ok(r.value.Opened())
    ensures Faithful(r, D.OpenV2(suite, password, input), reader.flaky)
  {
    hide D.ReadRecord;
    var buffer := new byte[HEADER_SIZE - 9];
    var read := ReadExactFormat(reader, buffer);
    if read.Err? {
      return Err(read.error);
    }
    var header := prefix + buffer[..];
    assert header == input[..HEADER_SIZE];
    var h := ParseHeader(header);
    if !(MIN_CHUNK_SIZE <= h.chunkSize <= MAX_CHUNK_SIZE) {
      return Err(ResourceLimit(ChunkSizeRange));
    }
    var key := DeriveKey(suite, password, h.salt, h.kdf);
    if key.Err? {
      return Err(key.error);
    }
    var ss := Session(suite, key.value, header, h.baseNonce);
    assert reader.Rest() == input[HEADER_SIZE..];
    var metadata := ReadRecord(reader, ss, 0, RECORD_METADATA, MAX_FILENAME_BYTES + 2);
    if metadata.Err? {
      return Err(metadata.error);
    }
    var filename := D.ParseMetadata(suite, metadata.value);
    if filename.Err? {
      return Err(filename.error);
    }
    var state := new V2State(reader, ss, h.chunkSize);
    var decryptor := new StreamDecryptor(filename.value, StreamMode(state));
    r := Ok(decryptor);
  }

  /** Reads at most one byte beyond the limit, then refuses or hands over to the version 1 reader. */
  method NewLegacy(reader: Reader, suite: Suite, password: seq<byte>, prefix: seq<byte>, ghost input: seq<byte>)
    returns (r: Result<StreamDecryptor>)
    requires reader.Valid() && |prefix| == 9 <= |input| && prefix == input[..9] && reader.Rest() == input[9..]
    modifies reader`pos, reader`interrupts
    ensures reader.Valid()
    ensures r.Ok? ==>
      && fresh(r.value) && r.value.mode.LegacyMode?
      && D.OpenV1(suite, password, input) == Ok(r.value.Opened())
    ensures Faithful(r, D.OpenV1(suite, password, input), reader.flaky)
    ensures r.Ok? || r.error != IoError(OtherIo) ==>
      |reader.Rest()| == |input| - Min(|input|, Legacy.MAX_LEGACY_FILE_SIZE + 1)
  {
    hide Legacy.DecryptFile;
    var remainingLimit := Legacy.MAX_LEGACY_FILE_SIZE + 1 - 9;
    var data := ReadToEnd(reader, remainingLimit);
    if data.Err? {
      return Err(data.error);
    }
    var encrypted := prefix + data.value;
    assert encrypted == input[..Min(|input|, Legacy.MAX_LEGACY_FILE_SIZE + 1)];
    if |encrypted| > Legacy.MAX_LEGACY_FILE_SIZE {
      return Err(ResourceLimit(LegacySize));
    }
    assert encrypted == input;
    var file := Legacy.DecryptFile(suite, password, encrypted);
    if file.Err? {
      return Err(file.error);
    }
    var decryptor := new StreamDecryptor(file.value.filename, LegacyMode(file.value.content));
    r := Ok(decryptor);
  }

  /** The decoder's loop.  At its head the counters agree: `nextSequence == count + 1`. */
  method DecryptStream(state: V2State, writer: Writer) returns (r: Result<nat>)
    requires state.Valid() && state.nextSequence == 1
    modifies state`nextSequence, state.reader`pos, state.reader`interrupts, writer`written
    ensures state.Valid()
    ensures
      var d := D.DecodeRecords(state.ss, state.chunkSize, old(state.reader.Rest()), 1, 0, 0);
      && old(writer.written) <= writer.written <= old(writer.written) + d.written
      && (r.Ok? ==> r == d.outcome && writer.written == old(writer.written) + d.written)
      && (r.Err? ==>
           || (d.outcome == r && writer.written == old(writer.written) + d.written)
           || (r.error == IoError(OtherIo) && (state.reader.flaky || writer.flaky)))
    ensures !writer.flaky ==>
      D.OnBoundary(old(writer.written), D.RecordTexts(state.ss, state.chunkSize, old(state.reader.Rest()), 1, 0, 0),
                 writer.written)
    ensures r != Err(ResourceLimit(ChunkCounter))
  {
    hide D.DecodeRecords, D.ReadNextRecord, D.FinishStream, D.RecordTexts, Concat;
    ghost var ss, chunkSize := state.ss, state.chunkSize;
    ghost var texts := D.RecordTexts(ss, chunkSize, state.reader.Rest(), 1, 0, 0);
    NoText(texts);
    ghost var whole := D.DecodeRecords(ss, chunkSize, state.reader.Rest(), 1, 0, 0);
    ghost var start := writer.written;
    var total: nat, count: nat := 0, 0;
    while true
      invariant state.Valid() && state.nextSequence == count + 1 && state.nextSequence < U64_LIMIT
      invariant total < U64_LIMIT && start <= writer.written
      invariant Continues(start, whole, writer.written,
                          D.DecodeRecords(ss, chunkSize, state.reader.Rest(), count + 1, total, count))
      invariant Tagged(ss.suite) ==> count <= total <= count * chunkSize
      invariant count <= |texts| && writer.written == start + Concat(texts[..count])
      invariant texts[count..] == D.RecordTexts(ss, chunkSize, state.reader.Rest(), count + 1, total, count)
      decreases |state.reader.Rest()|
    {
      ghost var input := state.reader.Rest();
      DecodeStep(ss, chunkSize, input, count + 1, total, count, start, whole, writer.written);
      TextStep(ss, chunkSize, input, count + 1, total, count, start, texts);
      var next := ReadNextRecord(state);
      if next.Err? {
        return Err(next.error);
      }
      var (kind, plaintext) := next.value;
      if kind == RECORD_DATA {
        if plaintext == [] {
          return Err(InvalidFileFormat);
        }
        var outcome := writer.WriteAll(plaintext);
        if outcome.Err? {
          return Err(outcome.error);
        }
        if total + |plaintext| >= U64_LIMIT {
          return Err(ResourceLimit(PlaintextLength));
        }
        total := total + |plaintext|;
        if count + 1 >= U64_LIMIT {
          return Err(ResourceLimit(ChunkCounter));
        }
        count := count + 1;
      } else {
        r := FinishStream(state.reader, plaintext, total, count);
        return;
      }
    }
  }

  lemma NoText(texts: seq<seq<byte>>)
    ensures Concat(texts[..0]) == [] && texts[0..] == texts
  {
  }

  lemma WholeText(start: seq<byte>, content: seq<byte>)
    ensures D.OnBoundary(start, [content], start) && D.OnBoundary(start, [content], start + content)
  {
    var texts := [content];
    assert texts[..0] == [] && start + Concat(texts[..0]) == start;
    assert texts[..1] == [content] && texts[1..] == [];
    assert Concat(texts) == content + Concat(texts[1..]);
    assert start + Concat(texts[..1]) == start + content;
  }

  /** The next record's text is the next of the texts, and it is no longer than a chunk. */
  lemma TextStep(ss: Session, chunkSize: nat, input: seq<byte>, sequence: nat, total: nat, count: nat,
                 start: seq<byte>, texts: seq<seq<byte>>)
    requires ss.Valid() && count <= |texts|
    requires texts[count..] == D.RecordTexts(ss, chunkSize, input, sequence, total, count)
    ensures
      var next := D.ReadNextRecord(ss, chunkSize, input, sequence);
      next.Ok? && next.value.kind == RECORD_DATA && next.value.plaintext != [] ==>
        var p := next.value.plaintext;
        && count < |texts| && start + Concat(texts[..count]) + p == start + Concat(texts[..count + 1])
        && (Tagged(ss.suite) ==> 1 <= |p| <= chunkSize && (count + 1) * chunkSize == count * chunkSize + chunkSize)
        && (total + |p| < U64_LIMIT && count + 1 < U64_LIMIT ==>
              texts[count + 1..]
                == D.RecordTexts(ss, chunkSize, next.value.rest, sequence + 1, total + |p|, count + 1))
  {
    hide D.DecryptRecordBody, Concat;
    var next := D.ReadNextRecord(ss, chunkSize, input, sequence);
    if next.Ok? && next.value.kind == RECORD_DATA && next.value.plaintext != [] {
      var p := next.value.plaintext;
      assert texts[count..][0] == p && texts[count] == p;
      assert texts[count + 1..] == texts[count..][1..];
      assert texts[..count + 1] == texts[..count] + [p];
      ConcatSnoc(texts[..count], p);
      if Tagged(ss.suite) {
        TextLength(ss, chunkSize, input, sequence);
      }
    }
  }

  lemma TextLength(ss: Session, chunkSize: nat, input: seq<byte>, sequence: nat)
    requires ss.Valid() && Tagged(ss.suite) && D.ReadNextRecord(ss, chunkSize, input, sequence).Ok?
    requires D.ReadNextRecord(ss, chunkSize, input, sequence).value.kind == RECORD_DATA
    ensures |D.ReadNextRecord(ss, chunkSize, input, sequence).value.plaintext| <= chunkSize
  {
    hide FromBigEndian, RecordAad, RecordNonce;
  }

  lemma {:induction false} ConcatSnoc(texts: seq<seq<byte>>, last: seq<byte>)
    ensures Concat(texts + [last]) == Concat(texts) + last
  {
    var all := texts + [last];
    if texts == [] {
      assert all[1..] == [] && Concat(all) == last + Concat([]);
    } else {
      assert all[1..] == texts[1..] + [last];
      ConcatSnoc(texts[1..], last);
      assert Concat(all) == texts[0] + (Concat(texts[1..]) + last);
    }
  }

  /** The rest of the run, `left`, completes the whole run after `written`. */
  ghost predicate Continues(start: seq<byte>, whole: D.Decoded, written: seq<byte>, left: D.Decoded) {
    whole.outcome == left.outcome && start + whole.written == written + left.written
  }

  /** What one more record does to a run that is still to be completed. */
  lemma DecodeStep(ss: Session, chunkSize: nat, input: seq<byte>, sequence: nat, total: nat, count: nat,
                   start: seq<byte>, whole: D.Decoded, written: seq<byte>)
    requires ss.Valid() && start <= written
    requires Continues(start, whole, written, D.DecodeRecords(ss, chunkSize, input, sequence, total, count))
    ensures written <= start + whole.written
    ensures
      match D.ReadNextRecord(ss, chunkSize, input, sequence)
      case Err(e) => whole.outcome == Err(e) && written == start + whole.written
      case Ok(piece) =>
        if piece.kind == RECORD_FINAL then
          && whole.outcome == D.FinishStream(piece.plaintext, piece.rest, total, count)
          && written == start + whole.written
        else if piece.plaintext == [] then
          whole.outcome == Err(InvalidFileFormat) && written == start + whole.written
        else
          && written + piece.plaintext <= start + whole.written
          && if total + |piece.plaintext| >= U64_LIMIT then
               whole.outcome == Err(ResourceLimit(PlaintextLength))
               && written + piece.plaintext == start + whole.written
             else
               count + 1 < U64_LIMIT ==>
                 Continues(start, whole, written + piece.plaintext,
                           D.DecodeRecords(ss, chunkSize, piece.rest, sequence + 1, total + |piece.plaintext|,
                                           count + 1))
  {
    hide D.ReadNextRecord, D.FinishStream;
    var left := D.DecodeRecords(ss, chunkSize, input, sequence, total, count);
    match D.ReadNextRecord(ss, chunkSize, input, sequence)
    case Err(e) =>
    case Ok(piece) =>
      if piece.kind == RECORD_DATA && piece.plaintext != []
         && total + |piece.plaintext| < U64_LIMIT && count + 1 < U64_LIMIT {
        var tail := D.DecodeRecords(ss, chunkSize, piece.rest, sequence + 1, total + |piece.plaintext|, count + 1);
        assert written + left.written == written + piece.plaintext + tail.written;
      }
  }
}
