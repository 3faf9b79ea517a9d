/** The version 1 file: one header, which is also the associated data, and one sealed text. */
module Legacy {
  import opened Bytes
  import opened Results
  import opened Primitives
  import opened StreamFormat

  const MINIMUM_SIZE: nat := 67
  const MAX_LEGACY_FILE_SIZE: nat := 256 * 1024 * 1024

  datatype PlainFile = PlainFile(filename: seq<byte>, content: seq<byte>)

  function LegacyHeader(p: KdfParams, filename: seq<byte>, salt: seq<byte>, nonce: seq<byte>): (b: seq<byte>)
    ensures |b| == 23 + |filename| + |salt| + |nonce|
  {
    MAGIC_BYTES + [V1] + KdfBytes(p) + BigEndian(|filename|, 2) + filename + salt + nonce
  }

  method CreateEncryptedFile(suite: Suite, password: seq<byte>, filename: seq<byte>, plaintext: seq<byte>,
                             p: KdfParams, salt: seq<byte>, nonce: seq<byte>)
    returns (r: Result<seq<byte>>)
    ensures r.Ok? <==> DeriveKey(suite, password, salt, p).Ok? && |filename| <= MAX_FILENAME_BYTES
    ensures r.Ok? ==>
      var header := LegacyHeader(p, filename, salt, nonce);
      r.value == header + suite.seal(DeriveKey(suite, password, salt, p).value, nonce, plaintext, header)
  {
    var key := DeriveKey(suite, password, salt, p);
    if key.Err? {
      return Err(key.error);
    }
    if |filename| > MAX_FILENAME_BYTES {
      return Err(EncryptionFailed);
    }
    var header := MAGIC_BYTES;
    header := header + [V1];
    header := header + KdfBytes(p);
    header := header + BigEndian(|filename|, 2);
    header := header + filename;
    header := header + salt;
    header := header + nonce;
    r := Ok(header + suite.seal(key.value, nonce, plaintext, header));
  }

  /** Parses and opens a version 1 file. */
  function DecryptFile(suite: Suite, password: seq<byte>, data: seq<byte>): Result<PlainFile> {
    if |data| < MINIMUM_SIZE then Err(InvalidFileFormat)
    else if data[0..8] != MAGIC_BYTES then Err(InvalidFileFormat)
    else if data[8] != V1 then Err(InvalidFileFormat)
    else
      var filenameEnd := 23 + FromBigEndian(data[21..23]);
      var saltEnd := filenameEnd + SALT_LENGTH;
      var nonceEnd := saltEnd + NONCE_LENGTH;
      if |data| < nonceEnd + TAG_SIZE then Err(InvalidFileFormat)
      else if !suite.utf8(data[23..filenameEnd]) then Err(InvalidFileFormat)
      else
        match DeriveKey(suite, password, data[filenameEnd..saltEnd], ParseKdf(data[9..21]))
        case Err(e) => Err(e)
        case Ok(key) =>
          match Decrypt(suite, key, data[saltEnd..nonceEnd], data[nonceEnd..], data[..nonceEnd])
          case Err(e) => Err(e)
          case Ok(plaintext) => Ok(PlainFile(data[23..filenameEnd], plaintext))
  }

  lemma LegacyFields(p: KdfParams, filename: seq<byte>, salt: seq<byte>, nonce: seq<byte>, sealed: seq<byte>)
    requires p.Fits() && |filename| <= MAX_FILENAME_BYTES && |salt| == SALT_LENGTH && |nonce| == NONCE_LENGTH
    ensures
      var data := LegacyHeader(p, filename, salt, nonce) + sealed;
      var end := 23 + |filename|;
      && |data| == end + 28 + |sealed|
      && data[0..8] == MAGIC_BYTES && data[8] == V1
      && ParseKdf(data[9..21]) == p && FromBigEndian(data[21..23]) == |filename|
      && data[23..end] == filename && data[end..end + 16] == salt && data[end + 16..end + 28] == nonce
      && data[..end + 28] == LegacyHeader(p, filename, salt, nonce) && data[end + 28..] == sealed
  {
    var data := LegacyHeader(p, filename, salt, nonce) + sealed;
    var end := 23 + |filename|;
    assert data[9..21] == KdfBytes(p);
    assert data[21..23] == BigEndian(|filename|, 2);
    KdfRoundTrip(p);
    Pow256Values();
    BigEndianRoundTrip(|filename|, 2);
    assert data[23..end] == filename;
    assert data[end..end + 16] == salt;
    assert data[end + 16..end + 28] == nonce;
  }

  /** A version 1 file written for any UTF-8 name of at most 65535 bytes is read back exactly. */
  lemma LegacyRoundTrip(suite: Suite, password: seq<byte>, p: KdfParams, filename: seq<byte>, salt: seq<byte>,
                        nonce: seq<byte>, plaintext: seq<byte>)
    requires Tagged(suite) && Inverting(suite)
    requires p.Fits() && |filename| <= MAX_FILENAME_BYTES && |salt| == SALT_LENGTH && |nonce| == NONCE_LENGTH
    requires suite.utf8(filename) && DeriveKey(suite, password, salt, p).Ok?
    ensures
      var header := LegacyHeader(p, filename, salt, nonce);
      var key := DeriveKey(suite, password, salt, p).value;
      DecryptFile(suite, password, header + suite.seal(key, nonce, plaintext, header))
        == Ok(PlainFile(filename, plaintext))
  {
    var header := LegacyHeader(p, filename, salt, nonce);
    var key := DeriveKey(suite, password, salt, p).value;
    var sealed := suite.seal(key, nonce, plaintext, header);
    LegacyFields(p, filename, salt, nonce, sealed);
    assert suite.open(key, nonce, sealed, header) == Some(plaintext);
  }
}
