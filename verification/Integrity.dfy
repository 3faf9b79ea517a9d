/**
 Authenticity.  The hypothesis is the idealised cipher: it opens only texts that some
 honest encoder run sealed.  Then the decoder accepts only files those runs wrote; and
 if the cipher opens all of these texts, it accepts exactly those files.
 */
module Integrity {
  import opened Bytes
  import opened Results
  import opened Primitives
  import opened StreamFormat
  import opened StreamDecoding
  import opened StreamGrammar
  import opened StreamTheorems
  import opened Legacy

  /** One honest run of an encoder, with the key it derived and the values it drew. */
  datatype Run =
    | StreamRun(key: seq<byte>, h: StreamHeader, filename: seq<byte>, plaintext: seq<byte>)
    | LegacyRun(key: seq<byte>, kdf: KdfParams, salt: seq<byte>, nonce: seq<byte>, filename: seq<byte>,
                plaintext: seq<byte>)

  ghost predicate HonestRun(suite: Suite, r: Run) {
    && suite.utf8(r.filename) && |r.filename| <= MAX_FILENAME_BYTES
    && match r
       case StreamRun(_, h, filename, plaintext) =>
         h.Valid() && h.chunkSize == DEFAULT_CHUNK_SIZE && filename != [] && |plaintext| < U64_LIMIT
       case LegacyRun(_, kdf, salt, nonce, filename, plaintext) =>
         kdf.Fits() && |salt| == SALT_LENGTH && |nonce| == NONCE_LENGTH
  }

  /** The public header: the part every associated datum of the run starts with. */
  ghost function RunHeader(suite: Suite, r: Run): seq<byte>
    requires HonestRun(suite, r)
  {
    match r
    case StreamRun(_, h, _, _) => HeaderBytes(h)
    case LegacyRun(_, kdf, salt, nonce, filename, _) => LegacyHeader(kdf, filename, salt, nonce)
  }

  ghost function RunSession(suite: Suite, r: Run): (ss: Session)
    requires r.StreamRun? && HonestRun(suite, r)
    ensures ss.Valid()
  {
    Session(suite, r.key, HeaderBytes(r.h), r.h.baseNonce)
  }

  /** The file the run wrote. */
  ghost function RunBytes(suite: Suite, r: Run): seq<byte>
    requires HonestRun(suite, r)
  {
    match r
    case StreamRun(_, h, filename, plaintext) => EncodeStream(RunSession(suite, r), filename, plaintext)
    case LegacyRun(key, kdf, salt, nonce, filename, plaintext) =>
      var header := LegacyHeader(kdf, filename, salt, nonce);
      header + suite.seal(key, nonce, plaintext, header)
  }

  /** What a password holder would derive for the run's header. */
  ghost function KeyFor(suite: Suite, password: seq<byte>, r: Run): Result<seq<byte>> {
    match r
    case StreamRun(_, h, _, _) => DeriveKey(suite, password, h.salt, h.kdf)
    case LegacyRun(_, kdf, salt, _, _, _) => DeriveKey(suite, password, salt, kdf)
  }

  /** The run sealed text `p` as its record `i` under this key, nonce and associated data. */
  ghost predicate Sealed(suite: Suite, r: Run, i: nat, k: seq<byte>, n: seq<byte>, a: seq<byte>, p: seq<byte>)
    requires HonestRun(suite, r)
  {
    && k == r.key
    && match r
       case StreamRun(_, h, filename, plaintext) =>
         var chunks := Chunks(plaintext);
         && i <= |chunks| + 1 && n == RecordNonce(h.baseNonce, i)
         && p == RecordText(Metadata(filename), chunks, i)
         && a == RecordAad(HeaderBytes(h), RecordHeader(RecordKind(chunks, i), i, |p| + TAG_SIZE))
       case LegacyRun(_, kdf, salt, nonce, filename, plaintext) =>
         i == 0 && n == nonce && p == plaintext && a == LegacyHeader(kdf, filename, salt, nonce)
  }

  ghost predicate Honest(suite: Suite, runs: set<Run>) {
    && (forall r :: r in runs ==> HonestRun(suite, r))
    && (forall r, s :: r in runs && s in runs && RunHeader(suite, r) == RunHeader(suite, s) ==> r == s)
  }

  /** Some run sealed `p` into the ciphertext `c`. */
  ghost predicate Issued(suite: Suite, runs: set<Run>, k: seq<byte>, n: seq<byte>, c: seq<byte>, a: seq<byte>,
                         p: seq<byte>)
    requires Honest(suite, runs)
  {
    && c == suite.seal(k, n, p, a)
    && exists r, i :: r in runs && Sealed(suite, r, i, k, n, a, p)
  }

  /** The cipher opens only what the runs sealed. */
  ghost predicate Unforgeable(suite: Suite, runs: set<Run>)
    requires Honest(suite, runs)
  {
    forall k, n, c, a, p :: suite.open(k, n, c, a) == Some(p) ==> Issued(suite, runs, k, n, c, a, p)
  }

  /** The cipher opens all that the runs sealed. */
  ghost predicate Complete(suite: Suite, runs: set<Run>)
    requires Honest(suite, runs)
  {
    forall k, n, c, a, p :: Issued(suite, runs, k, n, c, a, p) ==> suite.open(k, n, c, a) == Some(p)
  }

  /** Version 1 files are read only up to a limit. */
  ghost predicate WithinLimit(suite: Suite, r: Run)
    requires HonestRun(suite, r)
  {
    r.LegacyRun? ==> |RunBytes(suite, r)| <= MAX_LEGACY_FILE_SIZE
  }

  // ------------------------------------------------------------ one record

  lemma LegacyHeaderVersion(suite: Suite, r: Run)
    requires HonestRun(suite, r)
    ensures |RunHeader(suite, r)| > 8
    ensures RunHeader(suite, r)[8] == (if r.StreamRun? then V2 else V1)
  {
    if r.StreamRun? {
      HeaderRoundTrip(r.h);
    } else {
      LegacyFields(r.kdf, r.filename, r.salt, r.nonce, []);
    }
  }

  /** No associated datum of a version 1 file is one of a version 2 file. */
  lemma VersionsSeparate(suite: Suite, r: Run, s: Run, i: nat, j: nat, k: seq<byte>, n: seq<byte>, a: seq<byte>,
                         p: seq<byte>, k': seq<byte>, n': seq<byte>, p': seq<byte>)
    requires HonestRun(suite, r) && HonestRun(suite, s)
    requires Sealed(suite, r, i, k, n, a, p) && Sealed(suite, s, j, k', n', a, p')
    ensures r.StreamRun? == s.StreamRun?
  {
    LegacyHeaderVersion(suite, r);
    LegacyHeaderVersion(suite, s);
  }

  /** The run and record number that sealed what opens under this session. */
  lemma IssuedBy(suite: Suite, runs: set<Run>, ss: Session, kind: byte, sequence: nat, c: seq<byte>)
    returns (r: Run, i: nat)
    requires Honest(suite, runs) && Unforgeable(suite, runs)
    requires ss.Valid() && ss.suite == suite && ss.header[8] == V2 && OpenRecord(ss, kind, sequence, c).Some?
    ensures r in runs && r.StreamRun?
    ensures
      var p, n := OpenRecord(ss, kind, sequence, c).value, RecordNonce(ss.baseNonce, sequence);
      var a := RecordAad(ss.header, RecordHeader(kind, sequence, |c|));
      Sealed(suite, r, i, ss.key, n, a, p) && c == suite.seal(ss.key, n, p, a)
  {
    hide HeaderBytes, RecordNonce, LegacyHeader, RecordHeader, Sealed;
    var p, n := OpenRecord(ss, kind, sequence, c).value, RecordNonce(ss.baseNonce, sequence);
    var a := RecordAad(ss.header, RecordHeader(kind, sequence, |c|));
    assert Issued(suite, runs, ss.key, n, c, a, p);
    r, i :| r in runs && Sealed(suite, r, i, ss.key, n, a, p);
    assert a[8] == ss.header[8];
    SealedVersion(suite, r, i, ss.key, n, a, p);
  }

  lemma SealedVersion(suite: Suite, r: Run, i: nat, k: seq<byte>, n: seq<byte>, a: seq<byte>, p: seq<byte>)
    requires HonestRun(suite, r) && Sealed(suite, r, i, k, n, a, p)
    ensures |a| > 8 && a[8] == (if r.StreamRun? then V2 else V1)
  {
    hide HeaderBytes, LegacyHeader, Chunks, RecordText, RecordHeader;
    LegacyHeaderVersion(suite, r);
  }

  /** Associated data of two version 2 records agree only if headers, types, numbers and lengths do. */
  lemma AadFields(header: seq<byte>, kind: byte, sequence: nat, header': seq<byte>, kind': byte, sequence': nat,
                  length: nat)
    requires |header| == |header'| == HEADER_SIZE
    requires sequence < U64_LIMIT && sequence' < U64_LIMIT && length < U32_LIMIT
    requires RecordAad(header, RecordHeader(kind, sequence, length))
      == RecordAad(header', RecordHeader(kind', sequence', length))
    ensures header == header' && kind == kind' && sequence == sequence'
  {
    hide RecordHeader;
    var a := RecordAad(header, RecordHeader(kind, sequence, length));
    assert a[..HEADER_SIZE] == header && a[..HEADER_SIZE] == header';
    assert a[HEADER_SIZE..] == RecordHeader(kind, sequence, length) == RecordHeader(kind', sequence', length);
    RecordHeaderFields(kind, sequence, length);
    RecordHeaderFields(kind', sequence', length);
  }

  /** A record that opens under a header is the record of that number in the run with that header. */
  lemma AuthenticRecord(suite: Suite, runs: set<Run>, ss: Session, kind: byte, sequence: nat, c: seq<byte>)
    returns (r: Run)
    requires Honest(suite, runs) && Unforgeable(suite, runs) && Tagged(suite)
    requires ss.Valid() && ss.suite == suite && ss.header[8] == V2
    requires sequence < U64_LIMIT && |c| < U32_LIMIT
    requires OpenRecord(ss, kind, sequence, c).Some?
    ensures r in runs && r.StreamRun? && HeaderBytes(r.h) == ss.header && r.key == ss.key
    ensures
      var chunks := Chunks(r.plaintext);
      && sequence <= |chunks| + 1 && kind == RecordKind(chunks, sequence)
      && OpenRecord(ss, kind, sequence, c).value == RecordText(Metadata(r.filename), chunks, sequence)
    ensures c == suite.seal(ss.key, RecordNonce(ss.baseNonce, sequence), OpenRecord(ss, kind, sequence, c).value,
                            RecordAad(ss.header, RecordHeader(kind, sequence, |c|)))
  {
    hide HeaderBytes, RecordNonce, Chunks, RecordText, LegacyHeader, RecordHeader, RecordAad, OpenRecord, Unforgeable;
    var i;
    r, i := IssuedBy(suite, runs, ss, kind, sequence, c);
    OpenShrinks(ss, kind, sequence, c);
    ChunksPartition(r.plaintext);
    ChunkCountSmall(|r.plaintext|);
    AadFields(ss.header, kind, sequence, HeaderBytes(r.h), RecordKind(Chunks(r.plaintext), i), i, |c|);
  }

  lemma SameRun(suite: Suite, runs: set<Run>, r: Run, s: Run)
    requires Honest(suite, runs) && r in runs && s in runs && r.StreamRun? && s.StreamRun?
    requires HeaderBytes(r.h) == HeaderBytes(s.h)
    ensures r == s
  {
    assert RunHeader(suite, r) == RunHeader(suite, s);
  }

  /** The session read from a run's header is the run's own. */
  lemma RunSessionOfHeader(suite: Suite, ss: Session, r: Run)
    requires HonestRun(suite, r) && r.StreamRun?
    requires ss.suite == suite && ss.header == HeaderBytes(r.h) && ss.key == r.key
    requires ss.baseNonce == ParseHeader(ss.header).baseNonce
    ensures ss == RunSession(suite, r)
  {
    hide HeaderBytes, ParseHeader;
    HeaderRoundTrip(r.h);
  }

  // ------------------------------------------------------------ whole files

  /** The record opened at `sequence` in the run that owns this session. */
  lemma RecordOfRun(suite: Suite, runs: set<Run>, r: Run, ss: Session, kind: byte, sequence: nat, c: seq<byte>)
    requires Honest(suite, runs) && Unforgeable(suite, runs) && Tagged(suite)
    requires r in runs && r.StreamRun? && ss == RunSession(suite, r)
    requires sequence < U64_LIMIT && |c| < U32_LIMIT && OpenRecord(ss, kind, sequence, c).Some?
    ensures
      var chunks := Chunks(r.plaintext);
      var p := RecordText(Metadata(r.filename), chunks, sequence);
      && sequence <= |chunks| + 1 && kind == RecordKind(chunks, sequence)
      && OpenRecord(ss, kind, sequence, c) == Some(p)
      && c == SealRecord(ss, kind, sequence, p)
  {
    hide HeaderBytes, RecordNonce, Chunks, RecordText, RecordKind, RecordHeader;
    assert ss.header[8] == V2 by { LegacyHeaderVersion(suite, r); }
    var s := AuthenticRecord(suite, runs, ss, kind, sequence, c);
    SameRun(suite, runs, r, s);
    OpenShrinks(ss, kind, sequence, c);
  }

  /** Every accepted version 2 file was written by an honest run, byte for byte. */
  lemma AcceptedStreamIsHonest(suite: Suite, password: seq<byte>, runs: set<Run>, input: seq<byte>) returns (r: Run)
    requires Honest(suite, runs) && Unforgeable(suite, runs) && Tagged(suite)
    requires |input| > 8 && input[8] == V2 && DecodeFile(suite, password, input).Ok?
    ensures r in runs && r.StreamRun? && input == RunBytes(suite, r) && KeyFor(suite, password, r) == Ok(r.key)
    ensures DecodeFile(suite, password, input) == Ok(PlainFile(r.filename, r.plaintext))
  {
    hide HeaderBytes, ParseHeader, OpenRecord, SealRecord, Chunks, WireBytes, Stream, DecodeFile, RecordKind, Metadata;
    var header, w, chunks := GrammarSound(suite, password, input);
    var ss := HeaderSession(suite, password, header);
    r := AuthenticRecord(suite, runs, ss, RECORD_METADATA, 0, w.metadata);
    RunSessionOfHeader(suite, ss, r);
    HeaderRoundTrip(r.h);
    RecordOfRun(suite, runs, r, ss, RECORD_METADATA, 0, w.metadata);
    MetadataInjective(DecodeFile(suite, password, input).value.filename, r.filename);
    WireOfRun(suite, runs, r, w, chunks);
    ChunksPartition(r.plaintext);
    StreamIsWire(ss, Metadata(r.filename), Chunks(r.plaintext));
  }

  lemma MetadataInjective(f: seq<byte>, g: seq<byte>)
    requires Metadata(f) == Metadata(g)
    ensures f == g
  {
    assert Metadata(f)[2..] == f && Metadata(g)[2..] == g;
  }

  /** All records of an accepted body, taken together, are the run's records: none missing, none moved. */
  lemma WireOfRun(suite: Suite, runs: set<Run>, r: Run, w: Wire, chunks: seq<seq<byte>>)
    requires Honest(suite, runs) && Unforgeable(suite, runs) && Tagged(suite)
    requires r in runs && r.StreamRun?
    requires w.metadata == SealRecord(RunSession(suite, r), RECORD_METADATA, 0, Metadata(r.filename))
    requires BodyOk(RunSession(suite, r), DEFAULT_CHUNK_SIZE, w.data, w.final, chunks, 1, 0, 0)
    ensures chunks == Chunks(r.plaintext)
    ensures w == SealedWire(RunSession(suite, r), Metadata(r.filename), Chunks(r.plaintext))
  {
    hide OpenRecord, SealRecord, Chunks, Metadata, FinalPlaintext;
    var ss, whole := RunSession(suite, r), Chunks(r.plaintext);
    var n := |w.data|;
    RecordOfRun(suite, runs, r, ss, RECORD_FINAL, n + 1, w.final);
    assert n == |whole|;
    forall i | 0 <= i < n
      ensures chunks[i] == whole[i] && w.data[i] == SealRecord(ss, RECORD_DATA, 1 + i, whole[i])
    {
      assert DataOk(ss, DEFAULT_CHUNK_SIZE, w.data[i], 1 + i, chunks[i]);
      RecordOfRun(suite, runs, r, ss, RECORD_DATA, 1 + i, w.data[i]);
    }
    assert chunks == whole;
    assert w.data == SealedChunks(ss, whole, 1);
  }

  /** What the version 1 reader took apart. */
  lemma LegacyOpened(suite: Suite, password: seq<byte>, input: seq<byte>)
    returns (end: nat, key: seq<byte>, p: seq<byte>)
    requires |input| > 8 && input[8] == V1 && DecodeFile(suite, password, input).Ok?
    ensures 23 <= end && end + 28 <= |input| <= MAX_LEGACY_FILE_SIZE
    ensures DeriveKey(suite, password, input[end..end + 16], ParseKdf(input[9..21])) == Ok(key)
    ensures suite.open(key, input[end + 16..end + 28], input[end + 28..], input[..end + 28]) == Some(p)
    ensures DecodeFile(suite, password, input) == Ok(PlainFile(input[23..end], p))
  {
    hide ParseKdf, DeriveKey;
    end := 23 + FromBigEndian(input[21..23]);
    key := DeriveKey(suite, password, input[end..end + 16], ParseKdf(input[9..21])).value;
    p := DecodeFile(suite, password, input).value.content;
  }

  /** Every accepted version 1 file was written by an honest version 1 run. */
  lemma AcceptedLegacyIsHonest(suite: Suite, password: seq<byte>, runs: set<Run>, input: seq<byte>) returns (r: Run)
    requires Honest(suite, runs) && Unforgeable(suite, runs)
    requires |input| > 8 && input[8] == V1 && DecodeFile(suite, password, input).Ok?
    ensures r in runs && r.LegacyRun? && input == RunBytes(suite, r) && KeyFor(suite, password, r) == Ok(r.key)
    ensures WithinLimit(suite, r)
    ensures DecodeFile(suite, password, input) == Ok(PlainFile(r.filename, r.plaintext))
  {
    hide LegacyHeader, HeaderBytes, RecordHeader, DecodeFile, DeriveKey, ParseKdf, FromBigEndian;
    var end, key, p := LegacyOpened(suite, password, input);
    var nonce, c, header := input[end + 16..end + 28], input[end + 28..], input[..end + 28];
    assert Issued(suite, runs, key, nonce, c, header, p);
    var i: nat;
    r, i :| r in runs && Sealed(suite, r, i, key, nonce, header, p);
    LegacyHeaderVersion(suite, r);
    assert header[8] == input[8] && r.LegacyRun?;
    assert input == header + c;
    LegacyFields(r.kdf, r.filename, r.salt, r.nonce, c);
  }

  /** An honest version 2 file is accepted by whoever derives the run's key. */
  lemma HonestStreamAccepted(suite: Suite, password: seq<byte>, runs: set<Run>, r: Run)
    requires Honest(suite, runs) && Complete(suite, runs) && Tagged(suite)
    requires r in runs && r.StreamRun? && KeyFor(suite, password, r) == Ok(r.key)
    ensures DecodeFile(suite, password, RunBytes(suite, r)) == Ok(PlainFile(r.filename, r.plaintext))
  {
    hide HeaderBytes, ParseHeader, OpenRecord, SealRecord, Stream, DecodeFile, RecordKind, RecordText, Metadata;
    var ss, chunks := RunSession(suite, r), Chunks(r.plaintext);
    HeaderRoundTrip(r.h);
    ChunksPartition(r.plaintext);
    ChunkCountSmall(|r.plaintext|);
    forall i | 0 <= i <= |chunks| + 1
      ensures Opens(ss, RecordKind(chunks, i), i, RecordText(Metadata(r.filename), chunks, i))
    {
      IssuedOpens(suite, runs, r, i);
    }
    assert HeaderSession(suite, password, ss.header) == ss;
    StreamAccepted(suite, password, ss.header, r.filename, chunks);
  }

  lemma IssuedOpens(suite: Suite, runs: set<Run>, r: Run, i: nat)
    requires Honest(suite, runs) && Complete(suite, runs) && Tagged(suite)
    requires r in runs && r.StreamRun? && i <= |Chunks(r.plaintext)| + 1
    ensures
      var chunks := Chunks(r.plaintext);
      Opens(RunSession(suite, r), RecordKind(chunks, i), i, RecordText(Metadata(r.filename), chunks, i))
  {
    hide HeaderBytes, Chunks, RecordKind, RecordText, Metadata;
    var chunks := Chunks(r.plaintext);
    var ss, kind, p := RunSession(suite, r), RecordKind(chunks, i), RecordText(Metadata(r.filename), chunks, i);
    var a := RecordAad(ss.header, RecordHeader(kind, i, |p| + TAG_SIZE));
    assert Sealed(suite, r, i, r.key, RecordNonce(ss.baseNonce, i), a, p);
    assert Issued(suite, runs, r.key, RecordNonce(ss.baseNonce, i), SealRecord(ss, kind, i, p), a, p);
    RecordIsFrame(ss, kind, i, p);
  }

  lemma HonestLegacyAccepted(suite: Suite, password: seq<byte>, runs: set<Run>, r: Run)
    requires Honest(suite, runs) && Complete(suite, runs) && Tagged(suite)
    requires r in runs && r.LegacyRun? && WithinLimit(suite, r) && KeyFor(suite, password, r) == Ok(r.key)
    ensures DecodeFile(suite, password, RunBytes(suite, r)) == Ok(PlainFile(r.filename, r.plaintext))
  {
    hide LegacyHeader, HeaderBytes, RecordHeader;
    var header := LegacyHeader(r.kdf, r.filename, r.salt, r.nonce);
    var c := suite.seal(r.key, r.nonce, r.plaintext, header);
    assert Sealed(suite, r, 0, r.key, r.nonce, header, r.plaintext);
    assert Issued(suite, runs, r.key, r.nonce, c, header, r.plaintext);
    LegacyFields(r.kdf, r.filename, r.salt, r.nonce, c);
  }

  /** The run wrote these bytes, within the limit for its version, under the key this password derives. */
  ghost predicate Written(suite: Suite, password: seq<byte>, r: Run, input: seq<byte>)
    requires HonestRun(suite, r)
  {
    input == RunBytes(suite, r) && WithinLimit(suite, r) && KeyFor(suite, password, r) == Ok(r.key)
  }

  /** The accepted files are exactly the files that honest runs wrote under the password's key. */
  lemma AcceptsExactlyHonestFiles(suite: Suite, password: seq<byte>, runs: set<Run>, input: seq<byte>)
    requires Honest(suite, runs) && Unforgeable(suite, runs) && Complete(suite, runs) && Tagged(suite)
    ensures DecodeFile(suite, password, input).Ok? <==>
      exists r :: r in runs && Written(suite, password, r, input)
    ensures forall r :: r in runs && Written(suite, password, r, input) ==>
      DecodeFile(suite, password, input) == Ok(PlainFile(r.filename, r.plaintext))
  {
    hide RunBytes, DecodeRecords, OpenV1, OpenV2, KeyFor, HonestRun;
    if DecodeFile(suite, password, input).Ok? {
      if input[8] == V2 {
        var r := AcceptedStreamIsHonest(suite, password, runs, input);
      } else {
        var r := AcceptedLegacyIsHonest(suite, password, runs, input);
      }
    }
    forall r | r in runs && Written(suite, password, r, input)
      ensures DecodeFile(suite, password, input) == Ok(PlainFile(r.filename, r.plaintext))
    {
      if r.StreamRun? {
        HonestStreamAccepted(suite, password, runs, r);
      } else {
        HonestLegacyAccepted(suite, password, runs, r);
      }
    }
  }

  // ------------------------------------------------------------ authenticated prefix

  lemma {:induction false} ConcatAppend(a: seq<seq<byte>>, b: seq<seq<byte>>)
    ensures Concat(a + b) == Concat(a) + Concat(b)
  {
    if a == [] {
      assert a + b == b;
    } else {
      assert (a + b)[1..] == a[1..] + b;
      ConcatAppend(a[1..], b);
    }
  }

  /** Whatever follows a genuine header, the texts of its records are chunks of the run, from its start and in order. */
  lemma {:induction false} TextsAreChunks(suite: Suite, runs: set<Run>, r: Run, input: seq<byte>,
                                          sequence: nat, total: nat, count: nat)
    returns (m: nat)
    requires Honest(suite, runs) && Unforgeable(suite, runs) && Tagged(suite)
    requires r in runs && r.StreamRun?
    requires 1 <= sequence <= |Chunks(r.plaintext)| + 1
    ensures sequence - 1 <= m <= |Chunks(r.plaintext)|
    ensures RecordTexts(RunSession(suite, r), DEFAULT_CHUNK_SIZE, input, sequence, total, count)
      == Chunks(r.plaintext)[sequence - 1..m]
    decreases |input|
  {
    hide ReadNextRecord, Chunks, HeaderBytes, Frame, OpenRecord, SealRecord;
    var ss, chunks := RunSession(suite, r), Chunks(r.plaintext);
    m := sequence - 1;
    var next := ReadNextRecord(ss, DEFAULT_CHUNK_SIZE, input, sequence);
    if next.Ok? && next.value.kind == RECORD_DATA && next.value.plaintext != [] {
      var piece := next.value;
      var c := ReadIsFrame(ss, DEFAULT_CHUNK_SIZE, input, sequence);
      RecordOfRun(suite, runs, r, ss, RECORD_DATA, sequence, c);
      assert piece.plaintext == chunks[sequence - 1];
      if total + |piece.plaintext| < U64_LIMIT && count + 1 < U64_LIMIT {
        ReadShrinks(ss, DEFAULT_CHUNK_SIZE, input, sequence);
        m := TextsAreChunks(suite, runs, r, piece.rest, sequence + 1, total + |piece.plaintext|, count + 1);
      } else {
        m := sequence;
      }
      assert chunks[sequence - 1..m] == [chunks[sequence - 1]] + chunks[sequence..m];
    }
  }

  /** The texts an opened input hands to the writer are the first chunks of one honest run, whose name it claims. */
  lemma AuthenticTexts(suite: Suite, password: seq<byte>, runs: set<Run>, input: seq<byte>)
    returns (r: Run, m: nat)
    requires Honest(suite, runs) && Unforgeable(suite, runs) && Tagged(suite)
    requires OpenStream(suite, password, input).Ok? && OpenStream(suite, password, input).value.OpenedV2?
    ensures r in runs && r.StreamRun? && m <= |Chunks(r.plaintext)|
    ensures OpenStream(suite, password, input).value.filename == r.filename
    ensures OpenedTexts(OpenStream(suite, password, input).value) == Chunks(r.plaintext)[..m]
    ensures DecodeOpened(OpenStream(suite, password, input).value).written == Concat(Chunks(r.plaintext)[..m])
      <= r.plaintext
  {
    hide HeaderBytes, ParseHeader, OpenRecord, SealRecord, Chunks, RecordTexts, RecordKind, Metadata, ParseMetadata,
         ReadRecord, DecodeRecords, Concat;
    var header := input[..HEADER_SIZE];
    var ss := HeaderSession(suite, password, header);
    assert header[..8] == input[..8] && header[8] == V2;
    var piece := ReadRecord(ss, input[HEADER_SIZE..], 0, RECORD_METADATA, MAX_FILENAME_BYTES + 2).value;
    var metadata := MetadataReadIsFrame(ss, input[HEADER_SIZE..]);
    r := AuthenticRecord(suite, runs, ss, RECORD_METADATA, 0, metadata);
    RunSessionOfHeader(suite, ss, r);
    HeaderRoundTrip(r.h);
    RecordOfRun(suite, runs, r, ss, RECORD_METADATA, 0, metadata);
    MetadataExact(suite, piece.plaintext, ParseMetadata(suite, piece.plaintext).value);
    MetadataInjective(ParseMetadata(suite, piece.plaintext).value, r.filename);
    m := TextsAreChunks(suite, runs, r, piece.rest, 1, 0, 0);
    assert Chunks(r.plaintext)[0..m] == Chunks(r.plaintext)[..m];
    TextsAreWritten(ss, DEFAULT_CHUNK_SIZE, piece.rest, 1, 0, 0);
    FirstChunks(r.plaintext, m);
  }

  lemma FirstChunks(plaintext: seq<byte>, n: nat)
    requires n <= |Chunks(plaintext)|
    ensures Concat(Chunks(plaintext)[..n]) <= plaintext
  {
    hide Chunks;
    var chunks := Chunks(plaintext);
    ChunksPartition(plaintext);
    assert chunks == chunks[..n] + chunks[n..];
    ConcatAppend(chunks[..n], chunks[n..]);
  }

  /** Only authentic plaintext is ever written: whatever the answer, also when the reader fails, the bytes written on a
      record boundary are a prefix of one honest plaintext, cut between chunks. */
  lemma AuthenticatedPrefix(suite: Suite, password: seq<byte>, runs: set<Run>, input: seq<byte>, start: seq<byte>,
                            written: seq<byte>)
    returns (r: Run, n: nat)
    requires Honest(suite, runs) && Unforgeable(suite, runs) && Tagged(suite)
    requires OpenStream(suite, password, input).Ok? && OpenStream(suite, password, input).value.OpenedV2?
    requires OnBoundary(start, OpenedTexts(OpenStream(suite, password, input).value), written)
    ensures r in runs && r.StreamRun? && n <= |Chunks(r.plaintext)|
    ensures OpenStream(suite, password, input).value.filename == r.filename
    ensures written == start + Concat(Chunks(r.plaintext)[..n]) && Concat(Chunks(r.plaintext)[..n]) <= r.plaintext
  {
    hide OpenStream, OpenedTexts, Chunks, Concat;
    var m;
    r, m := AuthenticTexts(suite, password, runs, input);
    var texts := OpenedTexts(OpenStream(suite, password, input).value);
    n :| 0 <= n <= |texts| && written == start + Concat(texts[..n]);
    assert texts[..n] == Chunks(r.plaintext)[..n];
    FirstChunks(r.plaintext, n);
  }

  /** What the specification writes for an opened input ends on a record boundary. */
  lemma WrittenOnBoundary(o: Opened)
    requires o.OpenedV2? && o.ss.Valid()
    ensures OnBoundary([], OpenedTexts(o), DecodeOpened(o).written)
  {
    hide RecordTexts, DecodeRecords, Concat;
    TextsAreWritten(o.ss, o.chunkSize, o.rest, 1, 0, 0);
    var texts := OpenedTexts(o);
    assert texts[..|texts|] == texts && DecodeOpened(o).written == [] + Concat(texts[..|texts|]);
  }

  // ------------------------------------------------------------ the version byte

  /** The bytes at which a version 2 file has its chunk size and a version 1 file its name with the length before it. */
  lemma StreamSizeBytes(suite: Suite, r: Run)
    requires HonestRun(suite, r) && r.StreamRun?
    ensures |RunBytes(suite, r)| >= HEADER_SIZE && RunBytes(suite, r)[21..25] == [0, 1, 0, 0]
  {
    hide Record, Body, BigEndian;
    var bytes, header := RunBytes(suite, r), HeaderBytes(r.h);
    assert bytes[..HEADER_SIZE] == header;
    assert bytes[21..25] == header[21..25] == BigEndian(DEFAULT_CHUNK_SIZE, 4);
    ChunkSizeBytes();
  }

  lemma ChunkSizeBytes()
    ensures BigEndian(DEFAULT_CHUNK_SIZE, 4) == [0, 1, 0, 0]
  {
    assert BigEndian(1, 2) == BigEndian(0, 1) + [1];
    assert BigEndian(256, 3) == BigEndian(1, 2) + [0];
  }

  lemma LegacyNameBytes(suite: Suite, r: Run)
    requires HonestRun(suite, r) && r.LegacyRun? && |RunBytes(suite, r)| > 25
    requires RunBytes(suite, r)[21..25] == [0, 1, 0, 0]
    ensures r.filename == [0]
  {
    hide LegacyHeader, BigEndian;
    var header := LegacyHeader(r.kdf, r.filename, r.salt, r.nonce);
    var sealed := suite.seal(r.key, r.nonce, r.plaintext, header);
    var bytes := RunBytes(suite, r);
    LegacyFields(r.kdf, r.filename, r.salt, r.nonce, sealed);
    assert bytes == header + sealed;
    assert bytes[21..23] == bytes[21..25][..2] == [0, 1];
    assert FromBigEndian([0, 1]) == 1;
    assert bytes[23..24] == bytes[21..25][2..3] == [0];
  }

  /** With its version byte changed no honest file is accepted, as long as no version 1 file was written for a name that
      is a lone NUL byte, which no file system allows. */
  lemma FlippedVersionRejected(suite: Suite, password: seq<byte>, runs: set<Run>, r: Run, version: byte)
    requires Honest(suite, runs) && Unforgeable(suite, runs) && Tagged(suite) && r in runs
    requires version != (if r.StreamRun? then V2 else V1)
    requires forall l :: l in runs && l.LegacyRun? ==> l.filename != [0]
    ensures |RunBytes(suite, r)| > 8 && DecodeFile(suite, password, RunBytes(suite, r)[8 := version]).Err?
  {
    hide RunBytes, DecodeRecords, OpenV1, OpenV2, KeyFor, HonestRun, Unforgeable;
    RunVersion(suite, r);
    var flipped := RunBytes(suite, r)[8 := version];
    if DecodeFile(suite, password, flipped).Ok? {
      var s;
      if version == V2 {
        s := AcceptedStreamIsHonest(suite, password, runs, flipped);
      } else {
        s := AcceptedLegacyIsHonest(suite, password, runs, flipped);
      }
      OneIsNamedNul(suite, r, s, flipped, version);
      assert false;
    }
  }

  /** A file that is another run's file but for its version byte belongs, or leads, to a version 1 run for that name. */
  lemma OneIsNamedNul(suite: Suite, r: Run, s: Run, flipped: seq<byte>, version: byte)
    requires HonestRun(suite, r) && HonestRun(suite, s) && |RunBytes(suite, r)| > 8
    requires flipped == RunBytes(suite, s) == RunBytes(suite, r)[8 := version] && version != RunBytes(suite, r)[8]
    ensures (r.LegacyRun? && r.filename == [0]) || (s.LegacyRun? && s.filename == [0])
  {
    hide RunBytes, HonestRun;
    RunVersion(suite, r);
    RunVersion(suite, s);
    if r.StreamRun? {
      StreamSizeBytes(suite, r);
      assert flipped[21..25] == RunBytes(suite, r)[21..25];
      LegacyNameBytes(suite, s);
    } else {
      StreamSizeBytes(suite, s);
      assert flipped[21..25] == RunBytes(suite, r)[21..25];
      LegacyNameBytes(suite, r);
    }
  }

  /** The version byte of a file tells which encoder wrote it. */
  lemma RunVersion(suite: Suite, r: Run)
    requires HonestRun(suite, r)
    ensures |RunBytes(suite, r)| > 8 && RunBytes(suite, r)[8] == (if r.StreamRun? then V2 else V1)
  {
    hide HeaderBytes, LegacyHeader, Record, Body;
    LegacyHeaderVersion(suite, r);
    var header := RunHeader(suite, r);
    assert RunBytes(suite, r)[..|header|] == header;
  }

  // ------------------------------------------------------------ the hypotheses are consistent

  ghost function IdealOpen(runs: set<Run>, k: seq<byte>, n: seq<byte>, c: seq<byte>, a: seq<byte>)
    : (r: Option<seq<byte>>)
    requires Honest(ToySuite(), runs)
    ensures r.Some? ==> |c| == |r.value| + TAG_SIZE
    ensures forall p :: r == Some(p) <==> Issued(ToySuite(), runs, k, n, c, a, p)
  {
    hide Honest, Sealed;
    if exists p :: Issued(ToySuite(), runs, k, n, c, a, p) then
      var p :| Issued(ToySuite(), runs, k, n, c, a, p);
      assert forall q | Issued(ToySuite(), runs, k, n, c, a, q) :: p == c[..|c| - TAG_SIZE] == q;
      Some(p)
    else None
  }

  /** The suite that opens exactly what the runs sealed with the toy cipher. */
  ghost function IdealSuite(runs: set<Run>): Suite
    requires Honest(ToySuite(), runs)
  {
    ToySuite().(open := (k, n, c, a) => IdealOpen(runs, k, n, c, a))
  }

  /** The hypotheses of this module hold together, for any honest runs over the toy cipher. */
  lemma IdealSuiteIsIdeal(runs: set<Run>)
    requires Honest(ToySuite(), runs)
    ensures
      var suite := IdealSuite(runs);
      Honest(suite, runs) && Unforgeable(suite, runs) && Complete(suite, runs) && Tagged(suite)
  {
    hide Sealed, Issued, IdealOpen, HeaderBytes, LegacyHeader;
    var toy, suite := ToySuite(), IdealSuite(runs);
    forall r, s | r in runs && s in runs && RunHeader(suite, r) == RunHeader(suite, s)
      ensures r == s
    {
      assert RunHeader(toy, r) == RunHeader(toy, s);
    }
    forall k, n, c, a, p
      ensures suite.open(k, n, c, a) == Some(p) <==> Issued(suite, runs, k, n, c, a, p)
    {
      SameIssue(toy, suite, runs, k, n, c, a, p);
    }
  }

  lemma SameIssue(s: Suite, t: Suite, runs: set<Run>, k: seq<byte>, n: seq<byte>, c: seq<byte>, a: seq<byte>,
                  p: seq<byte>)
    requires Honest(s, runs) && Honest(t, runs) && s.seal == t.seal
    ensures Issued(s, runs, k, n, c, a, p) <==> Issued(t, runs, k, n, c, a, p)
  {
    hide HeaderBytes, LegacyHeader, RecordHeader, RecordNonce, Chunks, RecordText, Metadata;
    forall r, i | r in runs
      ensures Sealed(s, r, i, k, n, a, p) <==> Sealed(t, r, i, k, n, a, p)
    {
    }
  }

  // ------------------------------------------------------------ the excluded name

  /** A version 2 file of the toy cipher with its version byte set to 1 is what a version 1 run for the name NUL
      writes. */
  ghost function NulTwin(r: Run): (s: Run)
    requires HonestRun(ToySuite(), r) && r.StreamRun? && |RunBytes(ToySuite(), r)| >= 68
  {
    var bytes := RunBytes(ToySuite(), r);
    LegacyRun(bytes[24..40], r.h.kdf, bytes[24..40], bytes[40..52], [0], bytes[52..|bytes| - TAG_SIZE])
  }

  lemma StreamEndsInTag(r: Run)
    requires HonestRun(ToySuite(), r) && r.StreamRun?
    ensures |RunBytes(ToySuite(), r)| >= HEADER_SIZE + TAG_SIZE
    ensures RunBytes(ToySuite(), r)[|RunBytes(ToySuite(), r)| - TAG_SIZE..] == ZeroTag()
  {
    hide HeaderBytes, RecordNonce, RecordHeader, DataRecords, FinalPlaintext, RecordAad;
    var ss, chunks := RunSession(ToySuite(), r), Chunks(r.plaintext);
    var final := Record(ss, RECORD_FINAL, 1 + |chunks|, FinalPlaintext(Total(chunks), |chunks|));
    var bytes := RunBytes(ToySuite(), r);
    assert final[|final| - TAG_SIZE..] == ZeroTag();
    assert bytes[|bytes| - |final|..] == final;
    assert bytes[|bytes| - TAG_SIZE..] == final[|final| - TAG_SIZE..];
  }

  lemma TwinBytes(r: Run)
    requires HonestRun(ToySuite(), r) && r.StreamRun? && |RunBytes(ToySuite(), r)| >= 68
    ensures HonestRun(ToySuite(), NulTwin(r))
    ensures RunBytes(ToySuite(), NulTwin(r)) == RunBytes(ToySuite(), r)[8 := V1]
  {
    hide Record, Body, KdfBytes, BigEndian, RunBytes;
    var bytes, s := RunBytes(ToySuite(), r), NulTwin(r);
    StreamEndsInTag(r);
    StreamSizeBytes(ToySuite(), r);
    HeaderStarts(r);
    var header := LegacyHeader(s.kdf, s.filename, s.salt, s.nonce);
    OneByteLength();
    assert header == MAGIC_BYTES + [V1] + KdfBytes(r.h.kdf) + [0, 1] + [0] + bytes[24..40] + bytes[40..52];
    var flipped := bytes[8 := V1];
    assert flipped[21..24] == bytes[21..25][..3];
    assert flipped[..8] == MAGIC_BYTES && flipped[9..21] == KdfBytes(r.h.kdf) && flipped[21..24] == [0, 1] + [0];
    assert flipped[..52] == header;
    assert flipped == header + bytes[52..|bytes| - TAG_SIZE] + ZeroTag();
    TwinFile(s);
  }

  lemma OneByteLength()
    ensures BigEndian(1, 2) == [0, 1]
  {
    assert BigEndian(1, 2) == BigEndian(0, 1) + [1];
  }

  lemma HeaderStarts(r: Run)
    requires HonestRun(ToySuite(), r) && r.StreamRun? && |RunBytes(ToySuite(), r)| >= HEADER_SIZE
    ensures RunBytes(ToySuite(), r)[..8] == MAGIC_BYTES && RunBytes(ToySuite(), r)[9..21] == KdfBytes(r.h.kdf)
  {
    hide Record, Body, KdfBytes, BigEndian;
    var bytes, header := RunBytes(ToySuite(), r), HeaderBytes(r.h);
    assert bytes[..HEADER_SIZE] == header;
    assert bytes[..8] == header[..8] && bytes[9..21] == header[9..21];
  }

  lemma TwinFile(s: Run)
    requires HonestRun(ToySuite(), s) && s.LegacyRun?
    ensures RunBytes(ToySuite(), s)
      == LegacyHeader(s.kdf, s.filename, s.salt, s.nonce) + s.plaintext + ZeroTag()
  {
    hide LegacyHeader;
    var header := LegacyHeader(s.kdf, s.filename, s.salt, s.nonce);
    assert header + (s.plaintext + ZeroTag()) == header + s.plaintext + ZeroTag();
  }

  /** The excluded name matters: with a version 1 run for it on record, a version 2 file whose version byte was changed
      is accepted. */
  lemma FlippedVersionAccepted(r: Run)
    requires HonestRun(ToySuite(), r) && r.StreamRun? && ValidateKdfParams(r.h.kdf).Ok?
    requires |RunBytes(ToySuite(), r)| <= MAX_LEGACY_FILE_SIZE
    ensures |RunBytes(ToySuite(), r)| >= 68
    ensures
      var runs := {r, NulTwin(r)};
      && Honest(ToySuite(), runs)
      && var suite := IdealSuite(runs);
      && Honest(suite, runs) && Unforgeable(suite, runs) && Complete(suite, runs) && Tagged(suite)
      && RunBytes(suite, r) == RunBytes(ToySuite(), r)
      && DecodeFile(suite, [], RunBytes(suite, r)[8 := V1]).Ok?
  {
    hide HeaderBytes, LegacyHeader, RunBytes, DecodeFile, Sealed, Issued, IdealOpen;
    StreamEndsInTag(r);
    TwinBytes(r);
    var s := NulTwin(r);
    var runs := {r, s};
    LegacyHeaderVersion(ToySuite(), r);
    LegacyHeaderVersion(ToySuite(), s);
    assert RunHeader(ToySuite(), r) != RunHeader(ToySuite(), s);
    IdealSuiteIsIdeal(runs);
    var suite := IdealSuite(runs);
    SameBytes(suite, r);
    SameBytes(suite, s);
    assert [] + s.salt == s.salt;
    assert KeyFor(suite, [], s) == Ok(s.key);
    HonestLegacyAccepted(suite, [], runs, s);
  }

  lemma SameBytes(suite: Suite, r: Run)
    requires HonestRun(ToySuite(), r) && HonestRun(suite, r) && suite.seal == ToySuite().seal
    ensures RunBytes(suite, r) == RunBytes(ToySuite(), r)
  {
    hide HeaderBytes, LegacyHeader, Chunks, Metadata, FinalPlaintext, RecordHeader, RecordNonce;
    if r.StreamRun? {
      var a, b := RunSession(suite, r), RunSession(ToySuite(), r);
      SameDataRecords(a, b, Chunks(r.plaintext), 1);
    }
  }

  lemma {:induction false} SameDataRecords(a: Session, b: Session, chunks: seq<seq<byte>>, sequence: nat)
    requires a.Valid() && b.Valid() && a.suite.seal == b.suite.seal
    requires a.key == b.key && a.header == b.header && a.baseNonce == b.baseNonce
    ensures DataRecords(a, chunks, sequence) == DataRecords(b, chunks, sequence)
    decreases |chunks|
  {
    hide RecordHeader, RecordNonce;
    if chunks != [] {
      SameDataRecords(a, b, chunks[1..], sequence + 1);
    }
  }

  /** A run to which all this applies. */
  lemma SmallRun() returns (r: Run)
    ensures HonestRun(ToySuite(), r) && r.StreamRun? && ValidateKdfParams(r.h.kdf).Ok?
    ensures |RunBytes(ToySuite(), r)| <= MAX_LEGACY_FILE_SIZE
  {
    var salt, nonce := seq(SALT_LENGTH, i => 0), seq(NONCE_LENGTH, i => 0);
    r := StreamRun(salt, StreamHeader(CURRENT_KDF, DEFAULT_CHUNK_SIZE, salt, nonce), [0x61], []);
    ToySuiteIsSound();
    EncodedLength(RunSession(ToySuite(), r), r.filename, r.plaintext);
  }
}
