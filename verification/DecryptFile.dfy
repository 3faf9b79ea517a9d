/** Decrypting one file into a directory: all or nothing. */
module DecryptFile {
  import opened Bytes
  import opened Results
  import opened Primitives
  import opened Streams
  import opened StreamDecoder
  import opened Legacy
  import D = StreamDecoding
  import opened FileSystem
  import opened Quarantine
  import opened AtomicOutput
  import opened OpenOutput
  import opened WriteOutput
  import opened SecureDelete
  import opened Goals
  import opened Pins
  import opened Names
  import opened DecryptionGuard
  import EncryptFile

  /** A random name beside `path` that nothing had when it was looked up. */
  method UniqueDecryptedPath(volume: Volume, path: Location) returns (r: Result<Location>)
    requires volume.Valid()
    modifies volume`disk, volume`log
    ensures volume.Valid() && volume.Observed()
    ensures r.Ok? ==> exists n :: r.value == Join(Parent(path), DecryptedVariant(Leaf(path), n))
    ensures r.Err? ==> r.error == OutputCollision(NoUniqueName)
  {
    hide Volume.Valid, DecryptedVariant;
    for attempt := 0 to ATTEMPTS
      invariant volume.Valid() && volume.Observed()
    {
      var suffix := NextU64();
      var candidate := Join(Parent(path), DecryptedVariant(Leaf(path), suffix));
      var taken := volume.Exists(candidate);
      if !taken {
        return Ok(candidate);
      }
    }
    r := Err(OutputCollision(NoUniqueName));
  }

  /** The output lies directly in the directory, under the sanitized name or a variant of it. */
  ghost predicate Destined(directory: Location, claimed: seq<byte>, output: Location) {
    && SanitizedFilename(claimed).Ok?
    && var name := SanitizedFilename(claimed).value;
    output == Join(directory, name) || exists n :: output == Join(directory, DecryptedVariant(name, n))
  }

  /** Nothing outside the directory is ever a destination. */
  lemma DestinedInside(directory: Location, claimed: seq<byte>, output: Location)
    requires Destined(directory, claimed, output)
    ensures Parent(output) == directory && PlainName(Leaf(output))
  {
    var name := SanitizedFilename(claimed).value;
    SanitizedExact(claimed, name);
    if output != Join(directory, name) {
      var n :| output == Join(directory, DecryptedVariant(name, n));
      DecryptedVariantDiffers(name, n);
    }
  }

  /** The sanitized name can be used as it is: it is not the source's. */
  ghost predicate Direct(d: Disk, source: Location, directory: Location, claimed: seq<byte>) {
    && SanitizedFilename(claimed).Ok?
    && EncryptFile.TwoFiles(d, source, Join(directory, SanitizedFilename(claimed).value))
  }

  method NameOutput(volume: Volume, source: Location, directory: Location, claimed: seq<byte>)
    returns (r: Result<Location>)
    requires volume.Valid()
    modifies volume`disk, volume`log
    ensures volume.Valid() && volume.Observed()
    ensures r.Ok? ==> Destined(directory, claimed, r.value)
    ensures volume.quiet && volume.reliable && Direct(old(volume.disk), source, directory, claimed) ==>
      r == Ok(Join(directory, SanitizedFilename(claimed).value))
  {
    hide Volume.Valid, SanitizedFilename, DecryptedVariant;
    var name := SanitizedFilename(claimed);
    if name.Err? {
      return Err(name.error);
    }
    var output := Join(directory, name.value);
    var same := EncryptFile.RefersToSameFile(volume, source, output);
    if same.Err? {
      return Err(same.error);
    }
    if !same.value {
      return Ok(output);
    }
    assert Parent(output) == directory && Leaf(output) == name.value;
    r := UniqueDecryptedPath(volume, output);
  }

  /** The guard has nothing against the sanitized name. */
  ghost predicate Acceptable(d: Disk, source: Location, directory: Location, claimed: seq<byte>, keys: set<Location>,
                             handles: set<nat>, accepted: seq<Location>)
    requires SanitizedFilename(claimed).Ok?
  {
    var output := Join(directory, SanitizedFilename(claimed).value);
    && source in keys && output !in keys && output !in accepted
    && (output in d.dir ==> !d.dir[output].Symlink? && (d.dir[output].File? ==> d.dir[output].inode !in handles))
  }

  /** Names the output and has the guard accept it. */
  method ReserveOutput(volume: Volume, source: Location, directory: Location, claimed: seq<byte>,
                       guard: DecryptionBatchGuard)
    returns (r: Result<Location>)
    requires volume.Valid() && guard.Valid()
    modifies volume`disk, volume`log, guard
    ensures volume.Valid() && guard.Valid() && volume.Observed()
    ensures r.Ok? ==>
      && Destined(directory, claimed, r.value) && source in guard.sourceKeys && r.value !in guard.sourceKeys
      && r.value !in old(guard.accepted) && guard.accepted == old(guard.accepted) + [r.value]
    ensures volume.quiet && volume.reliable && Direct(old(volume.disk), source, directory, claimed)
      ==> (r.Ok? <==> Acceptable(old(volume.disk), source, directory, claimed, guard.sourceKeys, guard.sourceHandles,
                                 old(guard.accepted)))
          && (r.Ok? ==> r.value == Join(directory, SanitizedFilename(claimed).value))
    ensures r.Err? ==> guard.accepted == old(guard.accepted)
  {
    hide Volume.Valid, Destined, DecryptionBatchGuard.Valid;
    r := NameOutput(volume, source, directory, claimed);
    if r.Err? {
      return;
    }
    var reserved := guard.Reserve(volume, source, r.value);
    if reserved.Err? {
      r := Err(reserved.error);
    }
  }

  /** Prepares the directory and settles on an output the guard accepts. */
  method ChooseOutput(volume: Volume, source: Location, directory: Location, claimed: seq<byte>,
                      guard: DecryptionBatchGuard)
    returns (r: Result<Location>)
    requires volume.Valid() && guard.Valid()
    modifies volume`disk, volume`log, guard
    ensures volume.Valid() && guard.Valid() && volume.Follows()
    ensures volume.owned == old(volume.owned) && volume.created == old(volume.created)
    ensures OnlyMakes(volume.log, |old(volume.log)|)
    ensures Settled(old(volume.disk), volume.disk, volume.held + volume.owned)
    ensures SameBelow(old(volume.disk), volume.disk, volume.held + volume.owned, directory)
    ensures r.Ok? ==>
      && Destined(directory, claimed, r.value) && source in guard.sourceKeys && r.value !in guard.sourceKeys
      && r.value !in old(guard.accepted) && guard.accepted == old(guard.accepted) + [r.value]
    ensures volume.quiet && volume.reliable && AncestorsThere(old(volume.disk), directory)
        && Direct(old(volume.disk), source, directory, claimed)
      ==> (r.Ok? <==> Acceptable(old(volume.disk), source, directory, claimed, guard.sourceKeys, guard.sourceHandles,
                                 old(guard.accepted)))
          && (r.Ok? ==> r.value == Join(directory, SanitizedFilename(claimed).value))
    ensures volume.quiet && AncestorsThere(old(volume.disk), directory) ==> volume.disk == old(volume.disk)
    ensures r.Err? ==> guard.accepted == old(guard.accepted)
  {
    hide Volume.Valid, Destined, DecryptionBatchGuard.Valid;
    if SanitizedFilename(claimed).Err? {
      return Err(SanitizedFilename(claimed).error);
    }
    var safe := EnsureSafeDirectory(volume, directory);
    if safe.Err? {
      return Err(safe.error);
    }
    r := ReserveOutput(volume, source, directory, claimed, guard);
  }

  /** The source is a regular file with our extension whose metadata authenticates. */
  ghost predicate Readable(d: Disk, suite: Suite, source: Location, password: seq<byte>) {
    && Extension(Leaf(source)) == Some(IRONLOCK_EXTENSION)
    && source in d.dir && d.dir[source].File? && d.dir[source].inode in d.content
    && D.OpenStream(suite, password, d.content[d.dir[source].inode]).Ok?
  }

  /** Opens the source and authenticates its metadata; nothing was written yet. */
  method OpenEncrypted(volume: Volume, suite: Suite, source: Location, password: seq<byte>)
    returns (r: Result<StreamDecryptor>, ghost inode: nat)
    requires volume.Valid()
    modifies volume`disk, volume`log
    ensures volume.Valid() && volume.Observed()
    ensures r.Ok? ==>
      && fresh(r.value) && r.value.Valid() && (r.value.mode.StreamMode? ==> fresh(r.value.mode.state))
      && (r.value.mode.StreamMode? ==> fresh(r.value.mode.state.reader))
      && Extension(Leaf(source)) == Some(IRONLOCK_EXTENSION)
      && inode in volume.disk.content
      && D.OpenStream(suite, password, volume.disk.content[inode]) == Ok(r.value.Opened())
      && (volume.quiet || source in volume.held ==> source in volume.disk.dir && volume.disk.dir[source] == File(inode))
    ensures r.Err? && volume.quiet && volume.reliable ==> !Readable(old(volume.disk), suite, source, password)
    ensures r.Ok? && volume.reliable ==> !r.value.Flaky()
  {
    hide Volume.Valid, D.OpenStream, Extension, Disk.Resolve;
    inode := 0;
    if Extension(Leaf(source)) != Some(IRONLOCK_EXTENSION) {
      return Err(InvalidExtension), inode;
    }
    var handle := VerifiedSourceFile(volume, source);
    if handle.Err? {
      return Err(handle.error), inode;
    }
    inode := handle.value;
    var interrupts: int := *;
    var reader := new Reader(volume.disk.content[handle.value], !volume.reliable,
                             if interrupts >= 0 then interrupts else 0);
    assert reader.Rest() == volume.disk.content[inode];
    r := NewStreamDecryptor(reader, suite, password);
  }

  /** Fills the staged file with the whole plaintext, or fails. */
  method FillDecrypted(o: Output, decryptor: StreamDecryptor, ghost opened_: D.Opened) returns (r: Result<()>)
    requires o.Valid() && o.Staged() && o.volume.disk.content[o.inode] == []
    requires decryptor.Valid() && opened_ == decryptor.Opened()
    modifies o.volume`disk, o.volume`log
    modifies if decryptor.mode.StreamMode? then {decryptor.mode.state, decryptor.mode.state.reader} else {}
    ensures o.Valid() && o.Staged() && o.volume.Follows()
    ensures o.volume.owned == old(o.volume.owned) && o.volume.created == old(o.volume.created)
    ensures OnlyWrites(o.volume.log, |old(o.volume.log)|, o.inode)
    ensures SettledBut(old(o.volume.disk), o.volume.disk, o.volume.held + o.volume.owned, o.inode)
    ensures r.Ok? ==>
      && (opened_.OpenedV2? ==> opened_.ss.Valid())
      && D.DecodeOpened(opened_).outcome.Ok? && o.volume.disk.content[o.inode] == D.DecodeOpened(opened_).written
    ensures r.Err? && o.volume.reliable && !decryptor.Flaky() ==>
      (opened_.OpenedV2? ==> opened_.ss.Valid()) && D.DecodeOpened(opened_).outcome.Err?
    ensures o.volume.quiet ==> o.volume.disk.dir == old(o.volume.disk).dir
  {
    hide D.DecodeOpened, Volume.Valid;
    var writer := new Writer(false);
    var decoded := decryptor.DecryptTo(writer);
    r := WriteOut(o, writer.written);
    if decoded.Err? {
      r := Err(decoded.error);
    }
  }

  /** Names promised to others are outputs or sources the guard knows. */
  ghost predicate Guarded(c: Charter, guard: DecryptionBatchGuard)
    reads guard
  {
    forall l :: l in c.kept ==> l in guard.sourceKeys || l in guard.accepted
  }

  /** The plaintext of the encrypted file `inode`, under the name it claims. */
  ghost predicate Plaintext(suite: Suite, password: seq<byte>, encrypted: seq<byte>, claimed: seq<byte>,
                            content: seq<byte>)
  {
    D.DecodeFile(suite, password, encrypted) == Ok(PlainFile(claimed, content))
  }

  /** A staged file holding the complete plaintext of its source. */
  ghost predicate StagedPlaintext(volume: Volume, suite: Suite, source: Location, directory: Location,
                                  password: seq<byte>, o: Output, inode: nat, claimed: seq<byte>)
    reads volume, o, o.volume
  {
    && o.volume == volume && o.Valid() && o.Staged() && !o.committed && volume.created == {o.inode}
    && inode in volume.disk.content && inode != o.inode
    && Destined(directory, claimed, o.destination)
    && Plaintext(suite, password, volume.disk.content[inode], claimed, volume.disk.content[o.inode])
    && (source in volume.held ==> source in volume.disk.dir && volume.disk.dir[source] == File(inode))
  }

  lemma PlaintextOfOpened(suite: Suite, password: seq<byte>, encrypted: seq<byte>, opened_: D.Opened)
    requires D.OpenStream(suite, password, encrypted) == Ok(opened_)
    requires D.DecodeOpened(opened_).outcome.Ok?
    ensures Plaintext(suite, password, encrypted, opened_.filename, D.DecodeOpened(opened_).written)
  {
    hide D.OpenStream, D.DecodeOpened;
  }

  /** Opens the chosen output and fills it; on failure the destructor has run. */
  method StageOutput(volume: Volume, output: Location, force: bool, consent: bool, decryptor: StreamDecryptor,
                     ghost opened_: D.Opened)
    returns (r: Result<Output>)
    requires volume.Valid() && output !in volume.charter.kept && volume.created == {}
    requires decryptor.Valid() && opened_ == decryptor.Opened()
    modifies volume`disk, volume`owned, volume`created, volume`log
    modifies if decryptor.mode.StreamMode? then {decryptor.mode.state, decryptor.mode.state.reader} else {}
    ensures volume.Valid() && volume.Follows()
    ensures output in volume.held && output != [] ==> SameAt(old(volume.disk), volume.disk, output)
    ensures output in volume.held && output in old(volume.disk).dir && !force && !consent ==> r.Err?
    ensures r.Err? && volume.quiet && volume.reliable && !decryptor.Flaky() ==>
      || !Openable(old(volume.disk), output, force, consent) || !AncestorsThere(old(volume.disk), Parent(output))
      || ((opened_.OpenedV2? ==> opened_.ss.Valid()) && D.DecodeOpened(opened_).outcome.Err?)
    ensures r.Ok? && volume.quiet ==> r.value.volume == volume && r.value.Expected()
    ensures r.Ok? ==>
      var o := r.value;
      && fresh(o) && o.volume == volume && o.Valid() && o.Staged() && !o.committed && o.destination == output
      && o.inode !in old(volume.disk).content && volume.created == {o.inode}
      && (opened_.OpenedV2? ==> opened_.ss.Valid())
      && D.DecodeOpened(opened_).outcome.Ok? && volume.disk.content[o.inode] == D.DecodeOpened(opened_).written
      && (forall i :: i in old(volume.disk).content ==> volume.disk.content[i] == old(volume.disk).content[i])
      && (forall l :: l in volume.held && l in old(volume.disk).dir ==>
            l in volume.disk.dir && volume.disk.dir[l] == old(volume.disk).dir[l])
  {
    hide D.DecodeOpened, Volume.Valid, StreamDecryptor.Valid;
    r := NewOutput(volume, output, force, consent);
    if r.Err? {
      return;
    }
    ghost var disk1 := volume.disk;
    var filled := FillDecrypted(r.value, decryptor, opened_);
    if volume.quiet {
      LeadsByNames(disk1, volume.disk, output, MAX_LINK_DEPTH);
    }
    if filled.Err? {
      r.value.Drop();
      r := Err(filled.error);
    }
  }

  /** Nothing in the file system or the batch stands in the way of an output with this name. */
  ghost predicate Placeable(d: Disk, source: Location, directory: Location, claimed: seq<byte>, force: bool,
                            consent: bool, keys: set<Location>, handles: set<nat>, accepted: seq<Location>)
  {
    && AncestorsThere(d, directory) && Direct(d, source, directory, claimed)
    && Acceptable(d, source, directory, claimed, keys, handles, accepted)
    && Openable(d, Join(directory, SanitizedFilename(claimed).value), force, consent)
  }

  /** From the opened source to the staged plaintext. */
  method StageOpened(volume: Volume, source: Location, directory: Location, force: bool, consent: bool,
                     guard: DecryptionBatchGuard, decryptor: StreamDecryptor, ghost opened_: D.Opened)
    returns (r: Result<Output>, ghost output: Option<Location>)
    requires volume.Valid() && guard.Valid() && Guarded(volume.charter, guard) && volume.created == {}
    requires decryptor.Valid() && opened_ == decryptor.Opened()
    modifies volume`disk, volume`owned, volume`created, volume`log, guard
    modifies if decryptor.mode.StreamMode? then {decryptor.mode.state, decryptor.mode.state.reader} else {}
    ensures volume.Valid() && guard.Valid() && volume.Follows()
    ensures guard.accepted == old(guard.accepted) + (if output.Some? then [output.value] else [])
    ensures output.Some? ==>
      && output.value !in guard.sourceKeys && output.value !in old(guard.accepted)
      && (output.value in volume.held ==> SameAt(old(volume.disk), volume.disk, output.value))
    ensures !force && !consent && output.Some? && output.value in volume.held && output.value in old(volume.disk).dir
      ==> r.Err?
    ensures r.Err? && volume.quiet && volume.reliable && !decryptor.Flaky() ==>
      || !Placeable(old(volume.disk), source, directory, decryptor.filename, force, consent, guard.sourceKeys,
                    guard.sourceHandles, old(guard.accepted))
      || ((opened_.OpenedV2? ==> opened_.ss.Valid()) && D.DecodeOpened(opened_).outcome.Err?)
    ensures r.Ok? && volume.quiet ==> r.value.volume == volume && r.value.Expected()
    ensures r.Ok? ==>
      var o := r.value;
      && fresh(o) && o.volume == volume && o.Valid() && o.Staged() && !o.committed && output == Some(o.destination)
      && o.inode !in old(volume.disk).content && volume.created == {o.inode}
      && (opened_.OpenedV2? ==> opened_.ss.Valid())
      && D.DecodeOpened(opened_).outcome.Ok? && volume.disk.content[o.inode] == D.DecodeOpened(opened_).written
      && Destined(directory, decryptor.filename, o.destination)
      && (forall i :: i in old(volume.disk).content ==> volume.disk.content[i] == old(volume.disk).content[i])
      && (forall l :: l in volume.held && l in old(volume.disk).dir ==>
            l in volume.disk.dir && volume.disk.dir[l] == old(volume.disk).dir[l])
  {
    hide D.DecodeOpened, Volume.Valid, Destined, DecryptionBatchGuard.Valid, StreamDecryptor.Valid;
    output := None;
    var chosen := ChooseOutput(volume, source, directory, decryptor.filename, guard);
    if chosen.Err? {
      return Err(chosen.error), output;
    }
    output := Some(chosen.value);
    DestinedInside(directory, decryptor.filename, chosen.value);
    r := StageOutput(volume, chosen.value, force, consent, decryptor, opened_);
  }

  /** Nothing stands in the way of decrypting `source` into `directory`. */
  ghost predicate Deliverable(d: Disk, suite: Suite, source: Location, directory: Location, password: seq<byte>,
                              force: bool, consent: bool, keys: set<Location>, handles: set<nat>,
                              accepted: seq<Location>)
  {
    && Readable(d, suite, source, password)
    && var file := D.DecodeFile(suite, password, d.content[d.dir[source].inode]);
    && file.Ok? && Placeable(d, source, directory, file.value.filename, force, consent, keys, handles, accepted)
  }

  lemma DeliverableReads(d: Disk, suite: Suite, source: Location, directory: Location, password: seq<byte>, force: bool,
                         consent: bool, keys: set<Location>, handles: set<nat>, accepted: seq<Location>)
    ensures Deliverable(d, suite, source, directory, password, force, consent, keys, handles, accepted) ==>
      Readable(d, suite, source, password) && source in d.dir && d.dir[source].File? && d.dir[source].inode in d.content
  {
  }

  lemma DeliverableOpens(d: Disk, suite: Suite, source: Location, directory: Location, password: seq<byte>, force: bool,
                         consent: bool, keys: set<Location>, handles: set<nat>, accepted: seq<Location>,
                           opened_: D.Opened)
    requires source in d.dir && d.dir[source].File? && d.dir[source].inode in d.content
    requires D.OpenStream(suite, password, d.content[d.dir[source].inode]) == Ok(opened_)
    requires Deliverable(d, suite, source, directory, password, force, consent, keys, handles, accepted)
    ensures D.DecodeOpened(opened_).outcome.Ok?
    ensures Placeable(d, source, directory, opened_.filename, force, consent, keys, handles, accepted)
  {
    hide D.OpenStream, D.DecodeOpened, Placeable;
  }

  /** Everything up to the commit; on failure the destructors have run. */
  method StageDecryption(volume: Volume, suite: Suite, source: Location, directory: Location, password: seq<byte>,
                         force: bool, consent: bool, guard: DecryptionBatchGuard)
    returns (r: Result<Output>, ghost output: Option<Location>, ghost inode: nat, ghost claimed: seq<byte>)
    requires volume.Valid() && guard.Valid() && Guarded(volume.charter, guard) && volume.created == {}
    modifies volume`disk, volume`owned, volume`created, volume`log, guard
    ensures volume.Valid() && guard.Valid() && volume.Follows()
    ensures guard.accepted == old(guard.accepted) + (if output.Some? then [output.value] else [])
    ensures output.Some? ==>
      && output.value !in guard.sourceKeys && output.value !in old(guard.accepted)
      && (output.value in volume.held ==> SameAt(old(volume.disk), volume.disk, output.value))
    ensures !force && !consent && output.Some? && output.value in volume.held && output.value in old(volume.disk).dir
      ==> r.Err?
    ensures r.Err? && volume.quiet && volume.reliable ==>
      !Deliverable(old(volume.disk), suite, source, directory, password, force, consent, guard.sourceKeys,
                   guard.sourceHandles, old(guard.accepted))
    ensures r.Ok? && volume.quiet ==> r.value.volume == volume && r.value.Expected()
    ensures r.Ok? ==>
      && fresh(r.value) && StagedPlaintext(volume, suite, source, directory, password, r.value, inode, claimed)
      && r.value.inode !in old(volume.disk).content && output == Some(r.value.destination)
  {
    hide D.DecodeOpened, D.OpenStream, Volume.Valid, Destined, Plaintext, DecryptionBatchGuard.Valid,
         StreamDecryptor.Valid, Placeable, Readable, Deliverable, StreamDecryptor.Flaky, Output.Expected, Extension;
    ghost var disk0, accepted0 := volume.disk, guard.accepted;
    DeliverableReads(disk0, suite, source, directory, password, force, consent, guard.sourceKeys, guard.sourceHandles,
                     accepted0);
    var decryptor;
    output, claimed := None, [];
    decryptor, inode := OpenEncrypted(volume, suite, source, password);
    if decryptor.Err? {
      return Err(decryptor.error), output, inode, claimed;
    }
    ghost var opened_, encrypted := decryptor.value.Opened(), volume.disk.content[inode];
    claimed := decryptor.value.filename;
    assert opened_.filename == claimed;
    r, output := StageOpened(volume, source, directory, force, consent, guard, decryptor.value, opened_);
    if volume.quiet && volume.reliable && Deliverable(disk0, suite, source, directory, password, force, consent,
                                                      guard.sourceKeys, guard.sourceHandles, accepted0) {
      DeliverableOpens(disk0, suite, source, directory, password, force, consent, guard.sourceKeys, guard.sourceHandles,
                       accepted0, opened_);
    }
    if r.Ok? {
      PlaintextOfOpened(suite, password, encrypted, opened_);
      assert inode in volume.disk.content && volume.disk.content[inode] == encrypted;
    }
  }

  // ------------------------------------------------------------ the commit

  ghost predicate KeptThroughout(promise: Charter, log: seq<Step>, from: nat) {
    forall k :: from <= k < |log| ==> Upheld(promise, log[k].after)
  }

  lemma KeptJoin(promise: Charter, a: seq<Step>, b: seq<Step>, from: nat)
    requires Prefix(a, b) && KeptThroughout(promise, a, from) && KeptThroughout(promise, b, |a|)
    ensures KeptThroughout(promise, b, from)
  {
    hide Upheld;
    forall k | from <= k < |b|
      ensures Upheld(promise, b[k].after)
    {
      if k < |a| {
        assert b[k] == a[k];
      }
    }
  }

  /** The promise with leave to remove the given inodes. */
  ghost function Promising(promise: Charter, removable: set<nat>): Charter {
    Charter(promise.kept, promise.intact, removable, {})
  }

  lemma ChronicleKeeps(promise: Charter, removable: set<nat>, since: nat, created: set<nat>, log: seq<Step>)
    requires Chronicle(Promising(promise, removable), since, created, log)
    ensures KeptThroughout(promise, log, since)
  {
    forall k | since <= k < |log|
      ensures Upheld(promise, log[k].after)
    {
      assert Upheld(Promising(promise, removable), log[k].after);
    }
  }

  /** At some recorded step the program gave the complete file its public name, which was free. */
  ghost predicate LandedSince(log: seq<Step>, from: nat, p: Pin) {
    exists k :: from <= k < |log| && LandedBy(log[k], p)
  }

  ghost predicate LandedBy(st: Step, p: Pin) {
    st.program && st.action.Move? && st.action.to == p.at && p.at !in st.before.dir && Pinned(p, st.after)
  }

  /** Installs the staged plaintext: all of it, or nothing. */
  method CommitPlaintext(volume: Volume, o: Output, ghost promise: Charter)
    returns (r: Result<Location>, ghost landed: Option<Pin>, ghost away: Location)
    requires volume.Valid() && volume.charter == Promising(promise, {}) && volume.created == {o.inode}
    requires o.volume == volume && o.Valid() && o.Staged() && !o.committed
    requires o.inode !in promise.intact
    modifies volume, o
    ensures volume.Valid() && Prefix(old(volume.log), volume.log)
    ensures KeptThroughout(promise, volume.log, |old(volume.log)|) && Upheld(promise, volume.disk)
    ensures old(volume.owned) <= volume.owned && volume.Unwritten()
    ensures landed.Some? ==>
      && landed.value == Pin(o.destination, o.inode, old(volume.disk).content[o.inode])
      && LandedSince(volume.log, |old(volume.log)|, landed.value)
    ensures o.destination in volume.held ==>
      if landed.Some? then Pinned(landed.value, volume.disk)
      else Untouched(old(volume.disk), volume.disk, o.destination, away)
    ensures o.destination in volume.held && volume.reliable && landed.None? ==>
      SameAt(old(volume.disk), volume.disk, o.destination)
    ensures r.Err? && volume.quiet && volume.reliable && old(o.Expected()) ==> r.error == SecureDeletionFailed
    ensures r.Ok? ==> landed.Some? && r.value == o.destination
  {
    hide Chronicle, Recorded, Drift, Deeds, Span, Output.SyncedAt, Output.Approved, Output.Expected, InstallDeeds,
         Untouched, KeptThroughout, Upheld;
    ghost var removable := if o.observed.Some? then {o.observed.value} else {};
    UpheldSame(promise, {}, removable, volume.disk);
    volume.Adopt(Promising(promise, removable), {o.inode});
    ghost var rep;
    r, rep := o.Commit();
    away := rep.away;
    ghost var bytes := old(volume.disk).content[o.inode];
    landed := if rep.installedAt.Some? then Some(Pin(o.destination, o.inode, bytes)) else None;
    ChronicleKeeps(promise, removable, volume.since, volume.created, volume.log);
    UpheldSame(promise, removable, {}, volume.disk);
    if landed.Some? {
      assert LandedBy(volume.log[rep.installedAt.value], landed.value);
    } else if o.destination in volume.held && volume.reliable {
      AsItWas(old(volume.disk), volume.disk, o.destination, away);
    }
  }

  lemma AsItWas(d0: Disk, d: Disk, destination: Location, away: Location)
    requires Untouched(d0, d, destination, away) && PutBack(d, destination, away)
    ensures SameAt(d0, d, destination)
  {
  }

  lemma UpheldSame(promise: Charter, first: set<nat>, second: set<nat>, d: Disk)
    requires Upheld(Promising(promise, first), d)
    ensures Upheld(Promising(promise, second), d) && Upheld(promise, d)
  {
  }

  /** What a decryption put in place: the complete plaintext of the source, in the chosen directory. */
  ghost predicate Restored(suite: Suite, password: seq<byte>, encrypted: seq<byte>, directory: Location,
                           claimed: seq<byte>, p: Pin)
  {
    Plaintext(suite, password, encrypted, claimed, p.bytes) && Destined(directory, claimed, p.at)
  }

  /** Decrypts `source` into `directory`.  The output is what it was before or the complete plaintext of an accepted
      file, installed in one step, and at no moment is anything promised to others disturbed. */
  method DecryptFileToPath(volume: Volume, suite: Suite, source: Location, directory: Location, password: seq<byte>,
                           force: bool, consent: bool, guard: DecryptionBatchGuard, ghost promise: Charter)
    returns (r: Result<Location>, ghost output: Option<Location>, ghost landed: Option<Pin>, ghost away: Location,
             ghost inode: nat, ghost claimed: seq<byte>)
    requires volume.Valid() && guard.Valid() && Upheld(promise, volume.disk)
    requires promise.kept.Keys <= volume.held + volume.owned && Guarded(promise, guard)
    modifies volume, guard
    ensures volume.Valid() && guard.Valid() && Prefix(old(volume.log), volume.log) && old(volume.owned) <= volume.owned
    ensures KeptThroughout(promise, volume.log, |old(volume.log)|) && Upheld(promise, volume.disk)
    ensures guard.accepted == old(guard.accepted) + (if output.Some? then [output.value] else [])
    ensures output.Some? ==> output.value !in guard.sourceKeys && output.value !in old(guard.accepted)
    ensures output.Some? && output.value in volume.held ==>
      if landed.Some? then Pinned(landed.value, volume.disk)
      else Untouched(old(volume.disk), volume.disk, output.value, away)
    ensures output.Some? && output.value in volume.held && volume.reliable && landed.None? ==>
      SameAt(old(volume.disk), volume.disk, output.value)
    ensures landed.Some? ==>
      && output == Some(landed.value.at) && landed.value.inode !in old(volume.disk).content
      && LandedSince(volume.log, |old(volume.log)|, landed.value)
      && inode in volume.disk.content
      && Restored(suite, password, volume.disk.content[inode], directory, claimed, landed.value)
      && (source in volume.held && source in promise.kept ==> promise.kept[source] == File(inode))
    ensures !force && !consent && output.Some? && output.value in volume.held && output.value in old(volume.disk).dir
      ==> r.Err? && landed.None?
    ensures r.Err? && volume.quiet && volume.reliable
      ==> r.error == SecureDeletionFailed
          || !Deliverable(old(volume.disk), suite, source, directory, password, force, consent, guard.sourceKeys,
                          guard.sourceHandles, old(guard.accepted))
    ensures r.Ok? ==> landed.Some? && r.value == landed.value.at
  {
    hide Plaintext, Destined, DecryptionBatchGuard.Valid, Chronicle, Recorded, KeptThroughout, LandedBy, Deeds,
         Deliverable, Output.Expected;
    landed, away := None, source;
    UpheldSame(promise, {}, {}, volume.disk);
    volume.Adopt(Promising(promise, {}), {});
    var staged;
    staged, output, inode, claimed :=
      StageDecryption(volume, suite, source, directory, password, force, consent, guard);
    ChronicleKeeps(promise, {}, volume.since, volume.created, volume.log);
    UpheldSame(promise, {}, {}, volume.disk);
    if staged.Err? {
      away := if output.Some? then output.value else source;
      return Err(staged.error), output, landed, away, inode, claimed;
    }
    ghost var log1, disk1 := volume.log, volume.disk;
    r, landed, away := CommitPlaintext(volume, staged.value, promise);
    KeptJoin(promise, log1, volume.log, |old(volume.log)|);
  }

  /** What was encrypted under a name comes back under that name, in the chosen directory, byte for byte. */
  lemma EncryptThenDecrypt(g: Goal, d: Disk, o: nat, directory: Location, claimed: seq<byte>, p: Pin)
    requires Recovered(g, d, o) && PlainName(Leaf(g.source))
    requires Restored(g.suite, g.password, d.content[o], directory, claimed, p)
    ensures p.bytes == g.bytes
    ensures
      || p.at == Join(directory, Leaf(g.source))
      || exists n :: p.at == Join(directory, DecryptedVariant(Leaf(g.source), n))
  {
    hide D.DecodeFile;
    PlainNameSurvives(Leaf(g.source));
  }
}
