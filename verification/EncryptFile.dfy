/** Encrypting one file to one output, with optional shredding of the source. */
module EncryptFile {
  import opened Bytes
  import opened Results
  import opened Primitives
  import opened Streams
  import opened StreamFormat
  import StreamEncoder
  import StreamTheorems
  import opened FileSystem
  import opened AtomicOutput
  import opened OpenOutput
  import opened WriteOutput
  import opened Overwrite
  import opened SecureDelete
  import opened Goals
  import opened Quarantine
  import Legacy
  import StreamDecoding

  /** The source is a regular file and the output is nothing, or another regular file. */
  ghost predicate TwoFiles(d: Disk, source: Location, output: Location) {
    && source != output && source in d.dir && d.dir[source].File?
    && (output in d.dir ==> d.dir[output].File? && d.dir[output] != d.dir[source])
  }

  /** Whether two names lead to one file; a link at the output is refused. */
  method RefersToSameFile(volume: Volume, source: Location, output: Location) returns (r: Result<bool>)
    requires volume.Valid()
    modifies volume`disk, volume`log
    ensures volume.Valid() && volume.Observed()
    ensures r == Ok(false) ==> source != output
    ensures r != Ok(false) && volume.quiet && volume.reliable ==> !TwoFiles(old(volume.disk), source, output)
  {
    if source == output {
      return Ok(true);
    }
    var seen := volume.Lstat(output);
    if seen.Err? {
      return if seen.error == IoError(NotFound) then Ok(false) else Err(seen.error);
    }
    if seen.value.Symlink? {
      return Err(UnsafePath);
    }
    var first := volume.Identity(source);
    if first.Err? {
      return Err(first.error);
    }
    var second := volume.Identity(output);
    if second.Err? {
      return Err(second.error);
    }
    r := Ok(first.value == second.value);
  }

  ghost predicate EncodingOf(suite: Suite, password: seq<byte>, filename: seq<byte>, plaintext: seq<byte>,
                             salt: seq<byte>, baseNonce: seq<byte>, bytes: seq<byte>)
  {
    && |salt| == SALT_LENGTH && |baseNonce| == NONCE_LENGTH
    && StreamEncoder.Encodable(suite, password, filename, CURRENT_KDF, salt) && |plaintext| < U64_LIMIT
    && bytes == EncodeStream(StreamEncoder.SessionOf(suite, password, CURRENT_KDF, salt, baseNonce), filename,
                             plaintext)
  }

  /** The stream format can hold the file, and no salt makes key derivation fail. */
  ghost predicate Storable(suite: Suite, password: seq<byte>, filename: seq<byte>, plaintext: seq<byte>) {
    && 1 <= |filename| <= MAX_FILENAME_BYTES && |plaintext| < U64_LIMIT
    && forall salt :: |salt| == SALT_LENGTH ==> DeriveKey(suite, password, salt, CURRENT_KDF).Ok?
  }

  /** Fills the staged file with the encryption of `plaintext` under fresh random values. */
  method FillOutput(o: Output, suite: Suite, password: seq<byte>, filename: seq<byte>, plaintext: seq<byte>)
    returns (r: Result<()>, ghost salt: seq<byte>, ghost baseNonce: seq<byte>)
    requires o.Valid() && o.Staged() && o.volume.disk.content[o.inode] == []
    modifies o.volume`disk, o.volume`log
    ensures o.Valid() && o.Staged() && o.volume.Follows()
    ensures o.volume.owned == old(o.volume.owned) && o.volume.created == old(o.volume.created)
    ensures OnlyWrites(o.volume.log, |old(o.volume.log)|, o.inode)
    ensures SettledBut(old(o.volume.disk), o.volume.disk, o.volume.held + o.volume.owned, o.inode)
    ensures o.volume.quiet ==> o.volume.disk.dir == old(o.volume.disk).dir
    ensures r.Ok? ==> EncodingOf(suite, password, filename, plaintext, salt, baseNonce, o.volume.disk.content[o.inode])
    ensures r.Err? && o.volume.reliable ==> !Storable(suite, password, filename, plaintext)
  {
    hide EncodeStream, DeriveKey;
    var interrupts: int := *;
    var salt_ := RandomBytes(SALT_LENGTH);
    var nonce_ := RandomBytes(NONCE_LENGTH);
    salt, baseNonce := salt_, nonce_;
    var reader := new Reader(plaintext, !o.volume.reliable, if interrupts >= 0 then interrupts else 0);
    var writer := new Writer(false);
    var encoded := StreamEncoder.EncryptStream(suite, password, filename, reader, writer, CURRENT_KDF, salt_, nonce_);
    r := WriteOut(o, writer.written);
    if encoded.Err? {
      r := Err(encoded.error);
    }
  }

  /** The goal can be undertaken from here. */
  ghost predicate Ready(volume: Volume, g: Goal)
    reads volume
  {
    && volume.Valid() && Upheld(g.promise, volume.disk) && g.promise.kept.Keys <= volume.held + volume.owned
    && g.source !in g.promise.kept && g.output !in g.promise.kept
    && (if g.firm
        then Intact(g, volume.disk) && g.source in volume.held && g.output in volume.held
             && g.inode !in g.promise.intact
        else g.promise.intact == map[])
  }

  /** The source was opened: it is the goal's source when its name is left alone. */
  ghost predicate OpenedSource(g: Goal, d: Disk, inode: nat) {
    inode in d.content && (g.firm ==> inode == g.inode && d.content[inode] == g.bytes)
  }

  /** Refuses an output that is the source, opens the source and checks its name. */
  method OpenSource(volume: Volume, suite: Suite, source: Location, output: Location, ghost g: Goal)
    returns (r: Result<nat>)
    requires volume.Valid() && volume.charter == KeepSource(g, {}) && g.source == source
    requires output !in g.promise.kept && (g.firm ==> source in volume.held)
    modifies volume`disk, volume`log
    ensures volume.Valid() && volume.Observed()
    ensures r.Ok? ==>
      OpenedSource(g, volume.disk, r.value) && source != output && output !in volume.charter.kept
      && suite.utf8(Leaf(source))
    ensures r.Err? && volume.quiet && volume.reliable ==>
      !TwoFiles(old(volume.disk), source, output) || !suite.utf8(Leaf(source))
    ensures r.Ok? && volume.quiet ==> FileAt(volume.disk, source, r.value)
  {
    hide Chronicle, Recorded;
    var same := RefersToSameFile(volume, source, output);
    if same.Err? || same.value {
      return Err(if same.Err? then same.error else OutputCollision(SameFile));
    }
    r := VerifiedSourceFile(volume, source);
    if r.Ok? && !suite.utf8(Leaf(source)) {
      r := Err(UnsafePath);
    }
    if g.firm {
      assert g.source in volume.charter.kept && g.inode in volume.charter.intact;
    }
  }

  /** Nothing in the file system or the formats stands in the way of encrypting `source` to `output`. */
  ghost predicate Feasible(d: Disk, suite: Suite, source: Location, output: Location, password: seq<byte>,
                           force: bool, consent: bool)
  {
    && TwoFiles(d, source, output) && suite.utf8(Leaf(source))
    && Openable(d, output, force, consent) && AncestorsThere(d, Parent(output))
    && d.dir[source].inode in d.content && Storable(suite, password, Leaf(source), d.content[d.dir[source].inode])
  }

  /** Opens the output and fills it; on failure the destructor has run. */
  method StageOutput(volume: Volume, suite: Suite, output: Location, password: seq<byte>, filename: seq<byte>,
                     plaintext: seq<byte>, force: bool, consent: bool)
    returns (r: Result<Output>, ghost salt: seq<byte>, ghost baseNonce: seq<byte>)
    requires volume.Valid() && output !in volume.charter.kept && volume.created == {}
    modifies volume`disk, volume`owned, volume`created, volume`log
    ensures volume.Valid() && volume.Follows()
    ensures output in volume.held && output in old(volume.disk).dir && !force && !consent ==>
      r.Err? && output in volume.disk.dir && volume.disk.dir[output] == old(volume.disk).dir[output]
    ensures r.Err? && volume.quiet && volume.reliable ==>
      || !Openable(old(volume.disk), output, force, consent)
      || !AncestorsThere(old(volume.disk), Parent(output))
      || !Storable(suite, password, filename, plaintext)
    ensures r.Ok? ==>
      var o := r.value;
      && fresh(o) && o.volume == volume && o.destination == output && o.Valid() && o.Staged() && !o.committed
      && o.inode !in old(volume.disk).content && volume.created == {o.inode} && (volume.quiet ==> o.Expected())
      && EncodingOf(suite, password, filename, plaintext, salt, baseNonce, volume.disk.content[o.inode])
      && forall i :: i in old(volume.disk).content ==> volume.disk.content[i] == old(volume.disk).content[i]
  {
    hide EncodingOf, Volume.Valid, Storable, Openable, AncestorsThere;
    salt, baseNonce := [], [];
    r := NewOutput(volume, output, force, consent);
    if r.Err? {
      return;
    }
    ghost var disk1 := volume.disk;
    var filled;
    filled, salt, baseNonce := FillOutput(r.value, suite, password, filename, plaintext);
    if volume.quiet {
      LeadsByNames(disk1, volume.disk, output, MAX_LINK_DEPTH);
    }
    if filled.Err? {
      r.value.Drop();
      r := Err(filled.error);
    }
  }

  /** Everything up to the commit: the source is opened and its encryption staged.  On failure the
      destructors have run. */
  method StageEncryption(volume: Volume, suite: Suite, source: Location, output: Location, password: seq<byte>,
                         force: bool, consent: bool, ghost g: Goal)
    returns (r: Result<(Output, nat)>, ghost salt: seq<byte>, ghost baseNonce: seq<byte>)
    requires volume.Valid() && volume.charter == KeepSource(g, {}) && volume.created == {}
    requires g.source == source && output !in g.promise.kept
    requires g.firm ==> source in volume.held
    modifies volume`disk, volume`owned, volume`created, volume`log
    ensures volume.Valid() && volume.Follows()
    ensures output in volume.held && output in old(volume.disk).dir && !force && !consent ==>
      r.Err? && output in volume.disk.dir && volume.disk.dir[output] == old(volume.disk).dir[output]
    ensures r.Err? && volume.quiet && volume.reliable ==>
      !Feasible(old(volume.disk), suite, source, output, password, force, consent)
    ensures r.Ok? && volume.quiet ==> r.value.0.volume == volume && r.value.0.Expected()
    ensures r.Ok? ==>
      var (o, inode) := r.value;
      && fresh(o) && o.volume == volume && o.destination == output && o.Valid() && o.Staged() && !o.committed
      && source != output && inode != o.inode && OpenedSource(g, volume.disk, inode)
      && o.inode !in old(volume.disk).content && volume.created == {o.inode}
      && EncodingOf(suite, password, Leaf(source), volume.disk.content[inode], salt, baseNonce,
                    volume.disk.content[o.inode])
      && suite.utf8(Leaf(source))
  {
    hide EncodingOf, Volume.Valid, KeepSource;
    salt, baseNonce := [], [];
    var inode := OpenSource(volume, suite, source, output, g);
    if inode.Err? {
      return Err(inode.error), salt, baseNonce;
    }
    var o;
    o, salt, baseNonce :=
      StageOutput(volume, suite, output, password, Leaf(source), volume.disk.content[inode.value], force, consent);
    r := if o.Ok? then Ok((o.value, inode.value)) else Err(o.error);
  }

  /** The staged pair that the first half hands to the second. */
  ghost predicate StagedFor(volume: Volume, g: Goal, o: Output, inode: nat)
    reads volume, o, o.volume
  {
    && o.volume == volume && o.destination == g.output && o.Valid() && o.Staged() && !o.committed
    && volume.charter == KeepSource(g, {}) && volume.created == {o.inode}
    && g.source != g.output && inode != o.inode && OpenedSource(g, volume.disk, inode)
    && o.inode !in g.promise.intact
  }

  method StageForGoal(volume: Volume, suite: Suite, source: Location, output: Location, password: seq<byte>,
                      force: bool, consent: bool, ghost g: Goal)
    returns (r: Result<(Output, nat)>, ghost salt: seq<byte>, ghost baseNonce: seq<byte>)
    requires Ready(volume, g) && g.source == source && g.output == output
    modifies volume
    ensures volume.Valid() && Prefix(old(volume.log), volume.log) && AllGood(g, volume.log, |old(volume.log)|)
    ensures volume.charter == KeepSource(g, {}) && old(volume.owned) <= volume.owned
    ensures old(volume.disk).content.Keys <= volume.disk.content.Keys
    ensures output in volume.held && output in old(volume.disk).dir && !force && !consent ==>
      r.Err? && output in volume.disk.dir && volume.disk.dir[output] == old(volume.disk).dir[output]
    ensures r.Err? && volume.quiet && volume.reliable ==>
      !Feasible(old(volume.disk), suite, source, output, password, force, consent)
    ensures r.Ok? && volume.quiet ==> r.value.0.volume == volume && r.value.0.Expected()
    ensures r.Ok? ==>
      var (o, inode) := r.value;
      && fresh(o) && StagedFor(volume, g, o, inode) && o.inode !in old(volume.disk).content
      && EncodingOf(suite, password, Leaf(source), volume.disk.content[inode], salt, baseNonce,
                    volume.disk.content[o.inode])
      && suite.utf8(Leaf(source))
  {
    hide EncodingOf, AllGood, Chronicle, Recorded, Drift;
    volume.Adopt(KeepSource(g, {}), {});
    r, salt, baseNonce := StageEncryption(volume, suite, source, output, password, force, consent, g);
    SourceKept(g, {}, volume.since, volume.created, volume.log);
  }

  lemma SameLeave(g: Goal, first: set<nat>, second: set<nat>, d: Disk)
    requires Upheld(KeepSource(g, first), d)
    ensures Upheld(KeepSource(g, second), d)
  {
  }

  /** The second half for a staged pair. */
  method CommitForGoal(volume: Volume, o: Output, ghost inode: nat, ghost g: Goal) returns (r: Result<Location>)
    requires volume.Valid() && StagedFor(volume, g, o, inode)
    requires g.source !in g.promise.kept && (g.firm ==> g.output in volume.held)
    requires g.firm ==> g.inode !in g.promise.intact
    modifies volume, o
    ensures volume.Valid() && Prefix(old(volume.log), volume.log) && AllGood(g, volume.log, |old(volume.log)|)
    ensures old(volume.owned) <= volume.owned && old(volume.disk).content.Keys <= volume.disk.content.Keys
    ensures volume.Unwritten() && Upheld(KeepSource(g, {}), volume.disk)
    ensures r.Err? && volume.quiet && volume.reliable && old(o.Expected()) ==> r.error == SecureDeletionFailed
    ensures r.Ok? ==> r.value == g.output
    ensures r.Ok? && g.firm ==> g.output in volume.disk.dir && volume.disk.dir[g.output] == File(o.inode)
  {
    hide AllGood, Chronicle, Recorded, Drift, Deeds, Span, Output.InstalledBy, Output.SyncedAt, Output.Approved,
         Output.Expected, InstallDeeds, Untouched, Upheld;
    ghost var removable := if o.observed.Some? then {o.observed.value} else {};
    SameLeave(g, {}, removable, volume.disk);
    volume.Adopt(KeepSource(g, removable), {o.inode});
    ghost var rep;
    r, rep := o.Commit();
    SourceKept(g, removable, volume.since, volume.created, volume.log);
    SameLeave(g, removable, {}, volume.disk);
  }

  /** An encoding under the current parameters decrypts to what was encoded. */
  lemma EncodingDecrypts(suite: Suite, password: seq<byte>, filename: seq<byte>, plaintext: seq<byte>,
                         salt: seq<byte>, baseNonce: seq<byte>, bytes: seq<byte>)
    requires Tagged(suite) && Inverting(suite) && suite.utf8(filename)
    requires EncodingOf(suite, password, filename, plaintext, salt, baseNonce, bytes)
    ensures StreamDecoding.DecodeFile(suite, password, bytes) == Ok(Legacy.PlainFile(filename, plaintext))
  {
    StreamTheorems.RoundTrip(suite, password, filename, plaintext, CURRENT_KDF, salt, baseNonce);
  }

  /** Shredding starts only when the output decrypts to the source, and that stays so throughout. */
  method ShredForGoal(volume: Volume, source: Location, inode: nat, ghost g: Goal, ghost o: nat,
                      ghost encoded: seq<byte>)
    returns (r: Result<()>)
    requires volume.Valid() && g.source == source && source != g.output
    requires g.source !in g.promise.kept && g.output !in g.promise.kept && o !in g.promise.intact
    requires Upheld(g.promise, volume.disk) && g.promise.kept.Keys <= volume.held + volume.owned
    requires g.firm ==> g.inode == inode && g.inode !in g.promise.intact && g.output in volume.held
    requires !g.firm ==> g.promise.intact == map[]
    requires g.firm ==> Recovered(g, volume.disk, o) && volume.disk.content[o] == encoded
    requires inode in volume.disk.content && inode != o
    modifies volume
    ensures volume.Valid() && Prefix(old(volume.log), volume.log) && AllGood(g, volume.log, |old(volume.log)|)
    ensures old(volume.owned) <= volume.owned && old(volume.disk).content.Keys <= volume.disk.content.Keys
    ensures r.Err? ==> r.error == SecureDeletionFailed
    ensures r.Ok? && g.firm && source in volume.held ==> source !in volume.disk.dir
    ensures Upheld(KeepOutput(g, o, encoded, inode), volume.disk)
  {
    hide AllGood, Chronicle, Recorded, Drift, Writes, Wrote, ThreePasses, ShredRecord, StreamDecoding.DecodeFile;
    volume.Adopt(KeepOutput(g, o, encoded, inode), {});
    ghost var away, moved, done, gone;
    r, away, moved, done, gone := SecureDeleteInner(volume, source, inode);
    OutputKept(g, o, encoded, inode, volume.since, volume.created, volume.log);
  }

  /** Encrypts `source` to `output` and, if asked, shreds the source.  At every recorded moment the goal is good:
      what was promised to others holds and, if both names are left alone, the source is intact or its output
      decrypts to it. */
  method EncryptFileToPath(volume: Volume, suite: Suite, source: Location, output: Location, password: seq<byte>,
                           force: bool, consent: bool, shred: bool, ghost g: Goal)
    returns (r: Result<Location>, ghost o: nat)
    requires Tagged(suite) && Inverting(suite)
    requires Ready(volume, g) && g == Goal(g.promise, source, output, g.inode, g.bytes, suite, password, g.firm)
    modifies volume
    ensures volume.Valid() && Prefix(old(volume.log), volume.log) && AllGood(g, volume.log, |old(volume.log)|)
    ensures Good(g, volume.disk) && old(volume.owned) <= volume.owned
    ensures old(volume.disk).content.Keys <= volume.disk.content.Keys
    ensures g.firm ==> Intact(g, volume.disk) || (Recovered(g, volume.disk, o) && o !in old(volume.disk).content)
    ensures output in volume.held && output in old(volume.disk).dir && !force && !consent ==>
      r.Err? && output in volume.disk.dir && volume.disk.dir[output] == old(volume.disk).dir[output]
    ensures r.Err? && volume.quiet && volume.reliable
      ==> r.error == SecureDeletionFailed
          || !Feasible(old(volume.disk), suite, source, output, password, force, consent)
    ensures r.Ok? ==> r.value == output && (g.firm ==> Recovered(g, volume.disk, o) && o !in old(volume.disk).content)
    ensures !shred && g.firm ==> Intact(g, volume.disk)
    ensures shred && r.Ok? && g.firm ==> source !in volume.disk.dir
  {
    hide AllGood, Chronicle, Recorded, Drift, EncodingOf, StreamDecoding.DecodeFile;
    o := 0;
    ghost var log0 := volume.log;
    var staged;
    ghost var salt, baseNonce;
    staged, salt, baseNonce := StageForGoal(volume, suite, source, output, password, force, consent, g);
    KeptSource(g, {}, volume.disk);
    if staged.Err? {
      return Err(staged.error), o;
    }
    var (file, inode) := staged.value;
    o := file.inode;
    ghost var encoded, bytes := volume.disk.content[o], volume.disk.content[inode];
    EncodingDecrypts(suite, password, Leaf(source), bytes, salt, baseNonce, encoded);
    ghost var log1 := volume.log;
    r := CommitForGoal(volume, file, inode, g);
    KeptSource(g, {}, volume.disk);
    AllGoodJoin(g, log1, volume.log, |log0|);
    if r.Err? || !shred {
      return;
    }
    ghost var log2 := volume.log;
    var shredded := ShredForGoal(volume, source, inode, g, o, encoded);
    KeptOutput(g, o, encoded, inode, volume.disk);
    AllGoodJoin(g, log2, volume.log, |log0|);
    if shredded.Err? {
      r := Err(shredded.error);
    }
  }
}
