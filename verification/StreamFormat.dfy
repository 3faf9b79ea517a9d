/**
 The version 2 stream: layout of headers and records, the encoder's output as a
 function of the plaintext, and the decoder's result as a function of the input.
 */
module StreamFormat {
  import opened Bytes
  import opened Results
  import opened Primitives

  const MAGIC_BYTES: seq<byte> := [0x49, 0x52, 0x4F, 0x4E, 0x4C, 0x4F, 0x43, 0x4B]  // "IRONLOCK"
  const V1: byte := 1
  const V2: byte := 2

  const DEFAULT_CHUNK_SIZE: nat := 64 * 1024
  const MIN_CHUNK_SIZE: nat := 1024
  const MAX_CHUNK_SIZE: nat := 1024 * 1024
  const MAX_FILENAME_BYTES: nat := 65535

  const HEADER_SIZE: nat := 53
  const RECORD_HEADER_SIZE: nat := 13
  const FINAL_PLAINTEXT_SIZE: nat := 16

  const RECORD_METADATA: byte := 1
  const RECORD_DATA: byte := 2
  const RECORD_FINAL: byte := 3

  // ---------------------------------------------------------------- public header

  datatype StreamHeader = StreamHeader(kdf: KdfParams, chunkSize: nat, salt: seq<byte>, baseNonce: seq<byte>) {
    predicate Valid() {
      kdf.Fits() && chunkSize < U32_LIMIT && |salt| == SALT_LENGTH && |baseNonce| == NONCE_LENGTH
    }
  }

  function KdfBytes(p: KdfParams): (b: seq<byte>)
    ensures |b| == 12
  {
    BigEndian(p.memoryKib, 4) + BigEndian(p.iterations, 4) + BigEndian(p.parallelism, 4)
  }

  function ParseKdf(b: seq<byte>): KdfParams
    requires |b| == 12
  {
    KdfParams(FromBigEndian(b[0..4]), FromBigEndian(b[4..8]), FromBigEndian(b[8..12]))
  }

  function HeaderBytes(h: StreamHeader): (b: seq<byte>)
    requires h.Valid()
    ensures |b| == HEADER_SIZE
  {
    MAGIC_BYTES + [V2] + KdfBytes(h.kdf) + BigEndian(h.chunkSize, 4) + h.salt + h.baseNonce
  }

  /** Reads the fields of a 53-byte header; the first nine bytes were checked before. */
  function ParseHeader(b: seq<byte>): StreamHeader
    requires |b| == HEADER_SIZE
  {
    StreamHeader(ParseKdf(b[9..21]), FromBigEndian(b[21..25]), b[25..41], b[41..53])
  }

  lemma KdfRoundTrip(p: KdfParams)
    requires p.Fits()
    ensures ParseKdf(KdfBytes(p)) == p
  {
    var b := KdfBytes(p);
    assert b[0..4] == BigEndian(p.memoryKib, 4);
    assert b[4..8] == BigEndian(p.iterations, 4);
    assert b[8..12] == BigEndian(p.parallelism, 4);
    Pow256Values();
    BigEndianRoundTrip(p.memoryKib, 4);
    BigEndianRoundTrip(p.iterations, 4);
    BigEndianRoundTrip(p.parallelism, 4);
  }

  lemma HeaderRoundTrip(h: StreamHeader)
    requires h.Valid()
    ensures ParseHeader(HeaderBytes(h)) == h
    ensures HeaderBytes(h)[..8] == MAGIC_BYTES && HeaderBytes(h)[8] == V2
  {
    var b := HeaderBytes(h);
    assert b[9..21] == KdfBytes(h.kdf);
    assert b[21..25] == BigEndian(h.chunkSize, 4);
    assert b[25..41] == h.salt;
    assert b[41..53] == h.baseNonce;
    KdfRoundTrip(h.kdf);
    Pow256Values();
    BigEndianRoundTrip(h.chunkSize, 4);
  }

  // ---------------------------------------------------------------- records

  /** What every record of one stream shares. */
  datatype Session = Session(suite: Suite, key: seq<byte>, header: seq<byte>, baseNonce: seq<byte>) {
    predicate Valid() {
      |header| == HEADER_SIZE && |baseNonce| == NONCE_LENGTH
    }
  }

  function RecordHeader(kind: byte, sequence: nat, ciphertextLen: nat): (r: seq<byte>)
    ensures |r| == RECORD_HEADER_SIZE
  {
    [kind] + BigEndian(sequence, 8) + BigEndian(ciphertextLen, 4)
  }

  function RecordAad(header: seq<byte>, record: seq<byte>): seq<byte> {
    header + record
  }

  /** The base nonce with the sequence number folded into its last eight bytes (section 5.3 of RFC 8446). */
  function RecordNonce(baseNonce: seq<byte>, sequence: nat): (n: seq<byte>)
    requires |baseNonce| == NONCE_LENGTH
    ensures |n| == NONCE_LENGTH
  {
    baseNonce[..4] + Xor(baseNonce[4..], BigEndian(sequence, 8))
  }

  function Frame(kind: byte, sequence: nat, ciphertext: seq<byte>): (f: seq<byte>)
    ensures |f| == RECORD_HEADER_SIZE + |ciphertext|
  {
    RecordHeader(kind, sequence, |ciphertext|) + ciphertext
  }

  /** The ciphertext of one record; its associated data fixes the whole record header in advance. */
  function SealRecord(ss: Session, kind: byte, sequence: nat, plaintext: seq<byte>): seq<byte>
    requires ss.Valid()
  {
    ss.suite.seal(ss.key, RecordNonce(ss.baseNonce, sequence), plaintext,
                  RecordAad(ss.header, RecordHeader(kind, sequence, |plaintext| + TAG_SIZE)))
  }

  function OpenRecord(ss: Session, kind: byte, sequence: nat, ciphertext: seq<byte>): Option<seq<byte>>
    requires ss.Valid()
  {
    ss.suite.open(ss.key, RecordNonce(ss.baseNonce, sequence), ciphertext,
                  RecordAad(ss.header, RecordHeader(kind, sequence, |ciphertext|)))
  }

  function Record(ss: Session, kind: byte, sequence: nat, plaintext: seq<byte>): seq<byte>
    requires ss.Valid()
  {
    RecordHeader(kind, sequence, |plaintext| + TAG_SIZE) + SealRecord(ss, kind, sequence, plaintext)
  }

  lemma RecordHeaderFields(kind: byte, sequence: nat, ciphertextLen: nat)
    requires sequence < U64_LIMIT && ciphertextLen < U32_LIMIT
    ensures RecordHeader(kind, sequence, ciphertextLen)[0] == kind
    ensures FromBigEndian(RecordHeader(kind, sequence, ciphertextLen)[1..9]) == sequence
    ensures FromBigEndian(RecordHeader(kind, sequence, ciphertextLen)[9..13]) == ciphertextLen
  {
    var r := RecordHeader(kind, sequence, ciphertextLen);
    assert r[1..9] == BigEndian(sequence, 8);
    assert r[9..13] == BigEndian(ciphertextLen, 4);
    Pow256Values();
    BigEndianRoundTrip(sequence, 8);
    BigEndianRoundTrip(ciphertextLen, 4);
  }

  /** Every thirteen bytes are the header of exactly one (kind, sequence, length). */
  lemma RecordHeaderOfFields(r: seq<byte>)
    requires |r| == RECORD_HEADER_SIZE
    ensures r == RecordHeader(r[0], FromBigEndian(r[1..9]), FromBigEndian(r[9..13]))
    ensures FromBigEndian(r[1..9]) < U64_LIMIT && FromBigEndian(r[9..13]) < U32_LIMIT
  {
    FromBigEndianRoundTrip(r[1..9]);
    FromBigEndianRoundTrip(r[9..13]);
    Pow256Values();
    assert r == [r[0]] + r[1..9] + r[9..13];
  }

  /** Within one stream no two records use the same nonce (section 4 of RFC 8439). */
  lemma RecordNoncesDistinct(baseNonce: seq<byte>, a: nat, b: nat)
    requires |baseNonce| == NONCE_LENGTH
    requires a < U64_LIMIT && b < U64_LIMIT
    ensures RecordNonce(baseNonce, a) == RecordNonce(baseNonce, b) <==> a == b
  {
    if RecordNonce(baseNonce, a) == RecordNonce(baseNonce, b) {
      assert RecordNonce(baseNonce, a)[4..] == Xor(baseNonce[4..], BigEndian(a, 8));
      assert RecordNonce(baseNonce, b)[4..] == Xor(baseNonce[4..], BigEndian(b, 8));
      XorCancels(baseNonce[4..], BigEndian(a, 8), BigEndian(b, 8));
      Pow256Values();
      BigEndianInjective(a, b, 8);
    }
  }

  // ---------------------------------------------------------------- whole streams

  function Total(chunks: seq<seq<byte>>): nat {
    if chunks == [] then 0 else |chunks[0]| + Total(chunks[1..])
  }

  function Concat(chunks: seq<seq<byte>>): (b: seq<byte>)
    ensures |b| == Total(chunks)
  {
    if chunks == [] then [] else chunks[0] + Concat(chunks[1..])
  }

  function FinalPlaintext(total: nat, count: nat): (b: seq<byte>)
    ensures |b| == FINAL_PLAINTEXT_SIZE
  {
    BigEndian(total, 8) + BigEndian(count, 8)
  }

  function DataRecords(ss: Session, chunks: seq<seq<byte>>, sequence: nat): seq<byte>
    requires ss.Valid()
    decreases |chunks|
  {
    if chunks == [] then []
    else Record(ss, RECORD_DATA, sequence, chunks[0]) + DataRecords(ss, chunks[1..], sequence + 1)
  }

  /** Everything after the metadata record, given what earlier data records already carried. */
  function Body(ss: Session, chunks: seq<seq<byte>>, sequence: nat, total: nat, count: nat): seq<byte>
    requires ss.Valid()
  {
    DataRecords(ss, chunks, sequence) +
    Record(ss, RECORD_FINAL, sequence + |chunks|, FinalPlaintext(total + Total(chunks), count + |chunks|))
  }

  function Metadata(filename: seq<byte>): seq<byte> {
    BigEndian(|filename|, 2) + filename
  }

  /** A stream carrying `metadata` and the given chunks. */
  function Stream(ss: Session, metadata: seq<byte>, chunks: seq<seq<byte>>): seq<byte>
    requires ss.Valid()
  {
    ss.header + Record(ss, RECORD_METADATA, 0, metadata) + Body(ss, chunks, 1, 0, 0)
  }

  /** The plaintext cut into full chunks and a possibly shorter last one. */
  function Chunks(plaintext: seq<byte>): seq<seq<byte>>
    decreases |plaintext|
  {
    if plaintext == [] then []
    else if |plaintext| <= DEFAULT_CHUNK_SIZE then [plaintext]
    else [plaintext[..DEFAULT_CHUNK_SIZE]] + Chunks(plaintext[DEFAULT_CHUNK_SIZE..])
  }

  /** Number of chunks of a plaintext of `total` bytes: the quotient rounded up. */
  function ChunkCount(total: nat): nat {
    (total + DEFAULT_CHUNK_SIZE - 1) / DEFAULT_CHUNK_SIZE
  }

  /** The chunks are a partition of the plaintext: in order, none empty, all but the last one full. */
  lemma {:induction false} ChunksPartition(plaintext: seq<byte>)
    ensures Concat(Chunks(plaintext)) == plaintext
    ensures |Chunks(plaintext)| == ChunkCount(|plaintext|)
    ensures forall i :: 0 <= i < |Chunks(plaintext)| ==> 1 <= |Chunks(plaintext)[i]| <= DEFAULT_CHUNK_SIZE
    ensures forall i :: 0 <= i < |Chunks(plaintext)| - 1 ==> |Chunks(plaintext)[i]| == DEFAULT_CHUNK_SIZE
    decreases |plaintext|
  {
    var c := Chunks(plaintext);
    if plaintext == [] {
    } else if |plaintext| <= DEFAULT_CHUNK_SIZE {
      assert c[1..] == [];
      assert Concat(c) == c[0] + Concat([]);
    } else {
      ChunksPartition(plaintext[DEFAULT_CHUNK_SIZE..]);
      assert c[1..] == Chunks(plaintext[DEFAULT_CHUNK_SIZE..]);
      assert Concat(c) == c[0] + Concat(c[1..]);
    }
  }

  function EncodeStream(ss: Session, filename: seq<byte>, plaintext: seq<byte>): seq<byte>
    requires ss.Valid()
  {
    Stream(ss, Metadata(filename), Chunks(plaintext))
  }
}
