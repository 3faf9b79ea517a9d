/** The guard of a decryption batch: which outputs may still be written. */
module DecryptionGuard {
  import opened Results
  import opened FileSystem
  import opened Order

  datatype DecryptionPlan = DecryptionPlan(source: Location, targetDir: Location)

  class DecryptionBatchGuard {
    const sourceKeys: set<Location>
    const sourceHandles: set<nat>
    var reservedOutputs: set<Location>
    ghost var accepted: seq<Location>

    constructor (sourceKeys: set<Location>, sourceHandles: set<nat>)
      ensures Valid() && accepted == [] && this.sourceKeys == sourceKeys && this.sourceHandles == sourceHandles
    {
      this.sourceKeys, this.sourceHandles, reservedOutputs, accepted := sourceKeys, sourceHandles, {}, [];
    }

    /** The outputs accepted so far have names of their own, none of them a source's. */
    ghost predicate Valid()
      reads this
    {
      && reservedOutputs == (set l | l in accepted) && NoRepeats(accepted)
      && forall l :: l in accepted ==> l !in sourceKeys
    }

    /** What is at the output now, if anything, is neither a link nor a batch source under another name. */
    ghost predicate Harmless(d: Disk, output: Location)
    {
      output in d.dir ==> !d.dir[output].Symlink? && (d.dir[output].File? ==> d.dir[output].inode !in sourceHandles)
    }

    /** Looks at what is at the output now. */
    method Inspect(volume: Volume, output: Location) returns (r: Result<()>)
      requires volume.Valid()
      modifies volume`disk, volume`log
      ensures volume.Valid() && volume.Observed()
      ensures r.Ok? && (volume.quiet || output in volume.held) ==> Harmless(volume.disk, output)
      ensures r.Err? && volume.quiet && volume.reliable ==> !Harmless(volume.disk, output)
      ensures r.Err? ==> !r.error.OutputCollision? || r.error == OutputCollision(AliasOfInput)
    {
      var seen := volume.Lstat(output);
      if seen.Err? {
        return if seen.error == IoError(NotFound) then Ok(()) else Err(seen.error);
      }
      if seen.value.Symlink? {
        return Err(UnsafePath);
      }
      if seen.value.File? {
        var handle := volume.Identity(output);
        if handle.Err? {
          return Err(handle.error);
        }
        if handle.value in sourceHandles {
          return Err(OutputCollision(AliasOfInput));
        }
      }
      r := Ok(());
    }

    /** Accepts an output at most once, and never one that is or aliases a batch source; a refusal changes nothing. */
    method Reserve(volume: Volume, source: Location, output: Location) returns (r: Result<()>)
      requires Valid() && volume.Valid()
      modifies this, volume`disk, volume`log
      ensures Valid() && volume.Valid() && volume.Observed()
      ensures r.Ok? ==>
        && source in sourceKeys && output !in sourceKeys && output !in old(accepted)
        && accepted == old(accepted) + [output]
        && (volume.quiet || output in volume.held ==> Harmless(volume.disk, output))
      ensures r.Err? ==> accepted == old(accepted) && reservedOutputs == old(reservedOutputs)
      ensures volume.quiet && volume.reliable ==>
        (r.Ok? <==> source in sourceKeys && output !in sourceKeys && output !in old(accepted)
                    && Harmless(old(volume.disk), output))
      ensures r == Err(OutputCollision(PendingInput)) <==> source in sourceKeys && output in sourceKeys
      ensures r == Err(OutputCollision(AlreadyReserved)) ==> output in old(accepted)
    {
      if source !in sourceKeys {
        return Err(UnsafePath);
      }
      if output in sourceKeys {
        return Err(OutputCollision(PendingInput));
      }
      r := Inspect(volume, output);
      if r.Err? {
        return;
      }
      if output in reservedOutputs {
        return Err(OutputCollision(AlreadyReserved));
      }
      reservedOutputs := reservedOutputs + {output};
      accepted := accepted + [output];
    }
  }

  /** The captured identity is that of the file at this name. */
  ghost predicate Captured(d: Disk, source: Location, inode: nat) {
    source in d.dir && d.dir[source].File? ==> d.dir[source] == File(inode)
  }

  ghost predicate SourcesAreFiles(d: Disk, plans: seq<DecryptionPlan>) {
    forall i :: 0 <= i < |plans| ==> plans[i].source in d.dir && d.dir[plans[i].source].File?
  }

  /** Two plans share a name or a file. */
  ghost predicate GivenTwice(d: Disk, plans: seq<DecryptionPlan>)
  {
    exists i, j :: 0 <= i < j < |plans| && SameSource(d, plans[i].source, plans[j].source)
  }

  ghost predicate SameSource(d: Disk, a: Location, b: Location) {
    a == b || (a in d.dir && b in d.dir && d.dir[a] == d.dir[b])
  }

  lemma FileLeadsToItself(d: Disk, plans: seq<DecryptionPlan>, i: nat)
    requires i < |plans|
    ensures SourcesAreFiles(d, plans) ==>
      plans[i].source in d.dir && d.dir[plans[i].source].File?
      && d.Resolve(plans[i].source, MAX_LINK_DEPTH) == Some(d.dir[plans[i].source].inode)
  {
  }

  lemma CapturedNow(d: Disk, source: Location, inode: nat)
    requires d.Resolve(source, MAX_LINK_DEPTH) == Some(inode)
    ensures Captured(d, source, inode)
  {
  }

  /** The captured inodes are what the first names lead to. */
  ghost predicate AllLead(d: Disk, plans: seq<DecryptionPlan>, inodes: seq<nat>) {
    && |inodes| <= |plans|
    && forall j :: 0 <= j < |inodes| ==> d.Resolve(plans[j].source, MAX_LINK_DEPTH) == Some(inodes[j])
  }

  lemma AllLeadGrows(d: Disk, plans: seq<DecryptionPlan>, inodes: seq<nat>, inode: nat)
    requires |inodes| < |plans|
    ensures AllLead(d, plans, inodes) && d.Resolve(plans[|inodes|].source, MAX_LINK_DEPTH) == Some(inode) ==>
      AllLead(d, plans, inodes + [inode])
  {
  }

  lemma FoundTwice(d: Disk, plans: seq<DecryptionPlan>, inodes: seq<nat>, keys: set<Location>, handles: set<nat>,
                   handle: nat)
    requires |inodes| < |plans| && SourcesAreFiles(d, plans) && AllLead(d, plans, inodes)
    requires d.Resolve(plans[|inodes|].source, MAX_LINK_DEPTH) == Some(handle)
    requires Seen(plans, inodes, keys, handles) && (plans[|inodes|].source in keys || handle in handles)
    ensures GivenTwice(d, plans)
  {
    var i := |inodes|;
    FileLeadsToItself(d, plans, i);
    if plans[i].source in keys {
      var j :| 0 <= j < i && plans[j].source == plans[i].source;
      assert SameSource(d, plans[j].source, plans[i].source);
    } else {
      var j :| 0 <= j < i && inodes[j] == handle;
      FileLeadsToItself(d, plans, j);
      assert SameSource(d, plans[j].source, plans[i].source);
    }
  }

  /** The names and inodes of the first sources, all different. */
  ghost predicate Seen(plans: seq<DecryptionPlan>, inodes: seq<nat>, keys: set<Location>, handles: set<nat>) {
    && |inodes| <= |plans| && NoRepeats(inodes)
    && (forall i, j :: 0 <= i < j < |inodes| ==> plans[i].source != plans[j].source)
    && (forall l :: l in keys <==> exists i :: 0 <= i < |inodes| && plans[i].source == l)
    && (forall n :: n in handles <==> n in inodes)
  }

  lemma SeenMore(plans: seq<DecryptionPlan>, inodes: seq<nat>, keys: set<Location>, handles: set<nat>, inode: nat)
    requires Seen(plans, inodes, keys, handles) && |inodes| < |plans|
    requires plans[|inodes|].source !in keys && inode !in handles
    ensures Seen(plans, inodes + [inode], keys + {plans[|inodes|].source}, handles + {inode})
  {
  }

  /** Names that others leave alone still have the captured identities. */
  ghost predicate AllCaptured(d: Disk, plans: seq<DecryptionPlan>, inodes: seq<nat>, held: set<Location>) {
    && |inodes| <= |plans|
    && forall j :: 0 <= j < |inodes| && plans[j].source in held ==> Captured(d, plans[j].source, inodes[j])
  }

  lemma StayCaptured(a: Disk, b: Disk, plans: seq<DecryptionPlan>, inodes: seq<nat>, held: set<Location>,
                     owned: set<Location>)
    requires AllCaptured(a, plans, inodes, held) && Drift(a, b, held + owned)
    ensures AllCaptured(b, plans, inodes, held)
  {
    forall j | 0 <= j < |inodes| && plans[j].source in held
      ensures Captured(b, plans[j].source, inodes[j])
    {
      assert Captured(a, plans[j].source, inodes[j]);
    }
  }

  lemma CapturedMore(d: Disk, plans: seq<DecryptionPlan>, inodes: seq<nat>, held: set<Location>, inode: nat)
    requires AllCaptured(d, plans, inodes, held) && |inodes| < |plans|
    requires d.Resolve(plans[|inodes|].source, MAX_LINK_DEPTH) == Some(inode)
    ensures AllCaptured(d, plans, inodes + [inode], held)
  {
    CapturedNow(d, plans[|inodes|].source, inode);
  }

  /** Captures name and identity of every source; two plans with one name or one file are refused. */
  method NewGuard(volume: Volume, plans: seq<DecryptionPlan>)
    returns (r: Result<DecryptionBatchGuard>, ghost inodes: seq<nat>)
    requires volume.Valid()
    modifies volume`disk, volume`log
    ensures volume.Valid() && volume.Observed()
    ensures r.Ok? ==>
      && fresh(r.value) && r.value.Valid() && r.value.accepted == [] && |inodes| == |plans|
      && Seen(plans, inodes, r.value.sourceKeys, r.value.sourceHandles)
      && AllCaptured(volume.disk, plans, inodes, volume.held)
    ensures r.Err? && volume.quiet && volume.reliable && SourcesAreFiles(old(volume.disk), plans) ==>
      r.error == OutputCollision(SpecifiedTwice) && GivenTwice(old(volume.disk), plans)
  {
    hide Volume.Valid, GivenTwice, SourcesAreFiles, Disk.Resolve, Seen, AllCaptured, NoRepeats;
    ghost var disk0 := volume.disk;
    var keys: set<Location>, handles: set<nat> := {}, {};
    inodes := [];
    NothingSeen(disk0, plans, volume.held);
    for i := 0 to |plans|
      invariant volume.Valid() && volume.Observed()
      invariant |inodes| == i && Seen(plans, inodes, keys, handles)
      invariant AllCaptured(volume.disk, plans, inodes, volume.held)
      invariant volume.quiet ==> AllLead(disk0, plans, inodes)
    {
      ghost var before := volume.disk;
      var handle := volume.Identity(plans[i].source);
      FileLeadsToItself(disk0, plans, i);
      if handle.Err? {
        return Err(handle.error), inodes;
      }
      if plans[i].source in keys || handle.value in handles {
        if volume.quiet && SourcesAreFiles(disk0, plans) {
          FoundTwice(disk0, plans, inodes, keys, handles, handle.value);
        }
        return Err(OutputCollision(SpecifiedTwice)), inodes;
      }
      StayCaptured(before, volume.disk, plans, inodes, volume.held, volume.owned);
      CapturedMore(volume.disk, plans, inodes, volume.held, handle.value);
      AllLeadGrows(disk0, plans, inodes, handle.value);
      SeenMore(plans, inodes, keys, handles, handle.value);
      keys, handles := keys + {plans[i].source}, handles + {handle.value};
      inodes := inodes + [handle.value];
    }
    var guard := new DecryptionBatchGuard(keys, handles);
    r := Ok(guard);
  }

  lemma NothingSeen(d: Disk, plans: seq<DecryptionPlan>, held: set<Location>)
    ensures Seen(plans, [], {}, {}) && AllCaptured(d, plans, [], held)
  {
  }
}
