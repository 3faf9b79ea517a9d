/** Opening an output: safe directories, approval of an existing destination, a fresh temporary file. */
module OpenOutput {
  import opened Results
  import opened FileSystem
  import opened Quarantine
  import opened AtomicOutput

  /** From `from` on the program only created names. */
  ghost predicate OnlyMakes(log: seq<Step>, from: nat) {
    forall k :: from <= k < |log| ==> Calm(log[k]) || log[k].action.Make?
  }

  /** Names others leave alone, and that were there, are as they were. */
  ghost predicate Settled(a: Disk, b: Disk, safe: set<Location>) {
    && (forall l :: l in safe && l in a.dir ==> l in b.dir && b.dir[l] == a.dir[l])
    && (forall i :: i in a.content ==> i in b.content && b.content[i] == a.content[i])
  }

  /** The name stands for the same in both. */
  ghost predicate SameAt(a: Disk, b: Disk, l: Location) {
    (l in a.dir <==> l in b.dir) && (l in a.dir ==> b.dir[l] == a.dir[l])
  }

  /** Names below `path` that others leave alone are untouched, present or absent. */
  ghost predicate SameBelow(a: Disk, b: Disk, safe: set<Location>, path: Location) {
    forall l :: l in safe && |l| > |path| ==> SameAt(a, b, l)
  }

  /** Checks one ancestor directory, creating it if it is missing. */
  method EnsureOneDirectory(volume: Volume, current: Location) returns (r: Result<()>)
    requires volume.Valid()
    modifies volume`disk, volume`log
    ensures volume.Valid() && volume.Follows() && volume.owned == old(volume.owned)
    ensures volume.created == old(volume.created)
    ensures OnlyMakes(volume.log, |old(volume.log)|)
    ensures Settled(old(volume.disk), volume.disk, volume.held + volume.owned)
    ensures SameBelow(old(volume.disk), volume.disk, volume.held + volume.owned, current)
    ensures r.Ok? ==> current in volume.disk.dir && volume.disk.dir[current] == Directory
    ensures volume.quiet && current in old(volume.disk).dir ==> volume.disk == old(volume.disk)
    ensures r.Err? && volume.quiet && volume.reliable && current in old(volume.disk).dir ==>
      !old(volume.disk).dir[current].Directory?
  {
    hide Volume.Valid;
    var seen := volume.Lstat(current);
    if seen.Err? {
      if seen.error != IoError(NotFound) {
        return Err(seen.error);
      }
      var made := CreateOneDirectory(volume, current);
      if made.Err? {
        return made;
      }
      seen := volume.Lstat(current);
      if seen.Err? {
        return Err(seen.error);
      }
    }
    if seen.value.Symlink? {
      return Err(UnsafePath);
    }
    if !seen.value.Directory? {
      return Err(UnsafePath);
    }
    r := Ok(());
  }

  /** Another process may create the directory first. */
  method CreateOneDirectory(volume: Volume, current: Location) returns (r: Result<()>)
    requires volume.Valid()
    modifies volume`disk, volume`log
    ensures volume.Valid() && volume.Follows() && volume.owned == old(volume.owned)
    ensures volume.created == old(volume.created)
    ensures OnlyMakes(volume.log, |old(volume.log)|)
    ensures Settled(old(volume.disk), volume.disk, volume.held + volume.owned)
    ensures SameBelow(old(volume.disk), volume.disk, volume.held + volume.owned, current)
    ensures volume.quiet && current in old(volume.disk).dir ==> volume.disk == old(volume.disk)
  {
    var made;
    ghost var pre;
    made, pre := volume.MakeDirectory(current);
    r := if made.Err? && made.error != IoError(AlreadyExists) then Err(made.error) else Ok(());
  }

  ghost predicate AncestorsThere(d: Disk, path: Location) {
    forall n :: 0 < n <= |path| ==> path[..n] in d.dir && d.dir[path[..n]].Directory?
  }

  /** Walks down from the root; links and files on the way are refused. */
  method EnsureSafeDirectory(volume: Volume, path: Location) returns (r: Result<()>)
    requires volume.Valid()
    modifies volume`disk, volume`log
    ensures volume.Valid() && volume.Follows() && volume.owned == old(volume.owned)
    ensures volume.created == old(volume.created)
    ensures OnlyMakes(volume.log, |old(volume.log)|)
    ensures Settled(old(volume.disk), volume.disk, volume.held + volume.owned)
    ensures SameBelow(old(volume.disk), volume.disk, volume.held + volume.owned, path)
    ensures volume.quiet && (forall n :: 0 < n <= |path| ==> path[..n] in old(volume.disk).dir) ==>
      volume.disk == old(volume.disk)
    ensures r.Err? && volume.quiet && volume.reliable ==> !AncestorsThere(old(volume.disk), path)
  {
    for depth := 0 to |path|
      invariant volume.Valid() && volume.Follows()
      invariant volume.owned == old(volume.owned) && volume.created == old(volume.created)
      invariant OnlyMakes(volume.log, |old(volume.log)|)
      invariant Settled(old(volume.disk), volume.disk, volume.held + volume.owned)
      invariant SameBelow(old(volume.disk), volume.disk, volume.held + volume.owned, path)
      invariant volume.quiet && (forall n :: 0 < n <= |path| ==> path[..n] in old(volume.disk).dir) ==>
        volume.disk == old(volume.disk)
    {
      r := EnsureOneDirectory(volume, path[..depth + 1]);
      if r.Err? {
        return;
      }
    }
    r := Ok(());
  }

  /** An existing regular file may be replaced with `force`, or with the user's `consent` when asked. */
  method CheckOverwrite(volume: Volume, path: Location, force: bool, consent: bool) returns (r: Result<()>)
    requires volume.Valid()
    modifies volume`disk, volume`log
    ensures volume.Valid() && volume.Observed()
    ensures r.Ok? ==> path !in volume.disk.dir || (volume.disk.dir[path].File? && (force || consent))
    ensures r == Err(Cancelled) ==> !force && !consent
    ensures r.Err? && volume.reliable ==>
      path in volume.disk.dir && !(volume.disk.dir[path].File? && (force || consent))
  {
    var seen := volume.Lstat(path);
    if seen.Err? {
      return if seen.error == IoError(NotFound) then Ok(()) else Err(seen.error);
    }
    if !seen.value.File? {
      return Err(UnsafePath);
    }
    if force || consent {
      return Ok(());
    }
    r := Err(Cancelled);
  }

  /** What is at the destination now, if it is a regular file that may be replaced. */
  method ObserveDestination(volume: Volume, destination: Location, force: bool, consent: bool)
    returns (r: Result<Option<nat>>)
    requires volume.Valid()
    modifies volume`disk, volume`log
    ensures volume.Valid() && volume.Observed()
    ensures r.Ok? && (volume.quiet || destination in volume.held) ==>
      match r.value
      case None => destination !in volume.disk.dir
      case Some(i) => destination in volume.disk.dir && volume.disk.dir[destination] == File(i) && (force || consent)
    ensures r.Err? && volume.quiet && volume.reliable ==>
      destination in volume.disk.dir && !(volume.disk.dir[destination].File? && (force || consent))
  {
    var seen := volume.Lstat(destination);
    if seen.Err? {
      return if seen.error == IoError(NotFound) then Ok(None) else Err(seen.error);
    }
    if !seen.value.File? {
      return Err(UnsafePath);
    }
    var first := volume.Identity(destination);
    if first.Err? {
      return Err(first.error);
    }
    var approved := CheckOverwrite(volume, destination, force, consent);
    if approved.Err? {
      return Err(approved.error);
    }
    var current := volume.Identity(destination);
    if current.Err? {
      return Err(current.error);
    }
    if current.value != first.value {
      return Err(UnsafePath);
    }
    r := Ok(Some(first.value));
  }

  method CreatePrivateTemp(volume: Volume, destination: Location)
    returns (r: Result<(Location, nat)>, ghost pre: Disk)
    requires volume.Valid()
    modifies volume`disk, volume`owned, volume`created, volume`log
    ensures volume.Valid() && volume.Follows() && volume.DriftedTo(pre) && OnlyMakes(volume.log, |old(volume.log)|)
    ensures r.Ok? ==>
      var (path, inode) := r.value;
      && path != destination && path !in pre.dir && inode !in pre.content
      && volume.created == old(volume.created) + {inode}
      && volume.owned == old(volume.owned) + {path} && path !in volume.charter.kept
      && volume.disk == Disk(pre.dir[path := File(inode)], pre.content[inode := []], inode + 1)
    ensures r.Err? ==> volume.disk == pre && volume.owned == old(volume.owned) && volume.created == old(volume.created)
    ensures r.Err? && volume.quiet && volume.reliable ==> !NoPrivateNames(old(volume.disk), Parent(destination))
  {
    hide Volume.Valid, TempName;
    for attempt := 0 to ATTEMPTS
      invariant volume.Valid() && volume.Observed()
      invariant attempt > 0 && volume.quiet && volume.reliable ==>
        !NoPrivateNames(old(volume.disk), Parent(destination))
    {
      var path := RandomTempPath(Parent(destination), destination);
      var made;
      made, pre := volume.CreateNew(path);
      if made.Ok? {
        return Ok((path, made.value)), pre;
      }
      if made.error != IoError(AlreadyExists) {
        return Err(made.error), pre;
      }
    }
    pre := volume.disk;
    r := Err(IoError(AlreadyExists));
  }

  /** What a successful opening leaves behind. */
  ghost predicate FreshOutput(volume: Volume, o: Output, destination: Location)
    reads volume, o, o.volume
  {
    && o.volume == volume && o.destination == destination && o.Valid() && o.Staged()
    && !o.committed && o.file == Some(o.inode) && volume.disk.content[o.inode] == []
    && (volume.quiet || destination in volume.held ==> o.Expected())
  }

  /** Nothing stands in the way of opening this output. */
  ghost predicate Openable(d: Disk, destination: Location, force: bool, consent: bool) {
    && (destination in d.dir ==> d.dir[destination].File? && (force || consent))
    && NoPrivateNames(d, Parent(destination))
  }

  /** Approves the destination and creates the temporary file beside it. */
  method OpenChecked(volume: Volume, destination: Location, force: bool, consent: bool) returns (r: Result<Output>)
    requires volume.Valid() && destination !in volume.charter.kept
    modifies volume`disk, volume`owned, volume`created, volume`log
    ensures volume.Valid() && volume.Follows() && OnlyMakes(volume.log, |old(volume.log)|)
    ensures Settled(old(volume.disk), volume.disk, volume.held + old(volume.owned))
    ensures destination in volume.held ==> SameAt(old(volume.disk), volume.disk, destination)
    ensures destination in volume.held && destination in old(volume.disk).dir && !force && !consent ==> r.Err?
    ensures r.Err? && volume.quiet && volume.reliable ==> !Openable(old(volume.disk), destination, force, consent)
    ensures r.Ok? ==>
      && fresh(r.value) && FreshOutput(volume, r.value, destination)
      && r.value.inode !in old(volume.disk).content && volume.created == old(volume.created) + {r.value.inode}
    ensures r.Err? ==> volume.owned == old(volume.owned) && volume.created == old(volume.created)
  {
    hide Chronicle, Recorded, Upheld, NoPrivateNames;
    var observed := ObserveDestination(volume, destination, force, consent);
    if observed.Err? {
      return Err(observed.error);
    }
    var temp;
    ghost var pre;
    temp, pre := CreatePrivateTemp(volume, destination);
    if temp.Err? {
      return Err(temp.error);
    }
    var o := new Output(volume, destination, temp.value.0, temp.value.1, observed.value);
    r := Ok(o);
  }

  /** Opens an output.  On success the empty temporary file is staged and the destination is as it was seen. */
  method NewOutput(volume: Volume, destination: Location, force: bool, consent: bool) returns (r: Result<Output>)
    requires volume.Valid() && destination !in volume.charter.kept
    modifies volume`disk, volume`owned, volume`created, volume`log
    ensures volume.Valid() && volume.Follows() && OnlyMakes(volume.log, |old(volume.log)|)
    ensures Settled(old(volume.disk), volume.disk, volume.held + old(volume.owned))
    ensures destination in volume.held && destination != [] ==> SameAt(old(volume.disk), volume.disk, destination)
    ensures destination in volume.held && destination in old(volume.disk).dir && !force && !consent ==> r.Err?
    ensures r.Err? && volume.quiet && volume.reliable ==>
      !Openable(old(volume.disk), destination, force, consent) || !AncestorsThere(old(volume.disk), Parent(destination))
    ensures r.Ok? ==>
      && fresh(r.value) && FreshOutput(volume, r.value, destination)
      && r.value.inode !in old(volume.disk).content && volume.created == old(volume.created) + {r.value.inode}
    ensures r.Err? ==> volume.owned == old(volume.owned) && volume.created == old(volume.created)
  {
    hide Volume.Valid, FreshOutput, NoPrivateNames;
    var safe := EnsureSafeDirectory(volume, Parent(destination));
    if safe.Err? {
      return Err(safe.error);
    }
    r := OpenChecked(volume, destination, force, consent);
  }
}
