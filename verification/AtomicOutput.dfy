/** The temporary output file and its installation at the destination. */
module AtomicOutput {
  import opened Bytes
  import opened Results
  import opened FileSystem
  import opened Quarantine

  /** The old destination moved aside, or back. */
  function AsideDeeds(destination: Location, away: Location): set<Action> {
    {Action.SetAside(destination, away), Action.Move(away, destination)}
  }

  function InstallDeeds(destination: Location, temp: Location, away: Location): set<Action> {
    AsideDeeds(destination, away) + {Action.Move(temp, destination)}
  }

  /** Nothing waits under the private name. */
  ghost predicate PutBack(d: Disk, destination: Location, away: Location) {
    away == destination || away !in d.dir
  }

  /** The destination stands for what it stood for, unless the old file could not be put back: then it waits under
      its private name, with nothing in its place. */
  ghost predicate Untouched(d0: Disk, d: Disk, destination: Location, away: Location) {
    if PutBack(d, destination, away) then
      && (destination in d0.dir <==> destination in d.dir)
      && (destination in d.dir ==> d.dir[destination] == d0.dir[destination])
    else destination in d0.dir && destination !in d.dir && d.dir[away] == d0.dir[destination]
  }

  /** The old file, unless it is in its place, waits under its private name with nothing in its place. */
  ghost predicate HomeOrAside(d: Disk, destination: Location, away: Location, node: Node) {
    || (destination !in d.dir && away in d.dir && d.dir[away] == node)
    || (destination in d.dir && d.dir[destination] == node && away !in d.dir)
  }

  /** What a commit left on record: the private name it used and what it moved there, when it had synced the file,
      installed it and settled the directory. */
  datatype Report = Report(away: Location, moved: Option<Node>, syncedAt: nat, installedAt: Option<nat>, settledAt: nat)

  class Output {
    const volume: Volume
    const destination: Location
    const tempPath: Location
    const inode: nat
    var file: Option<nat>
    var observed: Option<nat>
    var committed: bool

    constructor (volume: Volume, destination: Location, tempPath: Location, inode: nat, observed: Option<nat>)
      ensures this.volume == volume && this.destination == destination && this.tempPath == tempPath
      ensures this.inode == inode && this.observed == observed && file == Some(inode) && !committed
    {
      this.volume, this.destination, this.tempPath, this.inode := volume, destination, tempPath, inode;
      this.file, this.observed, this.committed := Some(inode), observed, false;
    }

    ghost predicate Valid()
      reads this, volume
    {
      && volume.Valid() && destination !in volume.charter.kept && tempPath !in volume.charter.kept
      && tempPath in volume.owned && tempPath != destination
      && inode in volume.created && inode in volume.disk.content
    }

    /** The written file still has its temporary name. */
    ghost predicate Staged()
      reads this, volume
    {
      tempPath in volume.disk.dir && volume.disk.dir[tempPath] == File(inode)
    }

    /** The destination leads to the inode that was approved for replacement. */
    ghost predicate Approved(approved: nat)
      reads volume`disk
    {
      destination in volume.disk.dir && volume.disk.Resolve(destination, MAX_LINK_DEPTH) == Some(approved)
    }

    /** The approved old file waits under the private name `away`. */
    ghost predicate Aside(q: QuarantinedFile, away: Location, approved: nat)
      reads q, volume, q.volume
    {
      && q.volume == volume && q.original == destination && q.quarantine == away && q.active && q.Valid() && q.Waiting()
      && (q.node == File(approved) || q.node.Symlink?)
    }

    /** The destructor: removes the temporary file unless it was committed. */
    method Drop()
      requires Valid() && (tempPath in volume.disk.dir ==> Staged())
      modifies this`file, volume`disk, volume`log
      ensures Valid() && volume.Follows() && volume.created == old(volume.created) && volume.owned == old(volume.owned)
      ensures volume.Unwritten() && volume.Did({Action.Remove(tempPath)})
      ensures volume.quiet ==>
        volume.disk == if committed || tempPath in volume.disk.dir then old(volume.disk)
                       else old(volume.disk).(dir := old(volume.disk).dir - {tempPath})
      ensures volume.reliable && !committed ==> tempPath !in volume.disk.dir
      ensures tempPath !in old(volume.disk).dir ==> tempPath !in volume.disk.dir
      ensures forall l :: l in volume.held + volume.owned && l != tempPath ==>
        && (l in old(volume.disk).dir <==> l in volume.disk.dir)
        && (l in volume.disk.dir ==> volume.disk.dir[l] == old(volume.disk).dir[l])
    {
      if !committed {
        file := None;
        ghost var disk0 := volume.disk;
        assert tempPath !in disk0.dir ==> disk0.dir - {tempPath} == disk0.dir;
        var removed;
        ghost var pre;
        removed, pre := volume.Unlink(tempPath);
      }
    }

    /** Moves the old destination away, and refuses to go on unless it is the file approved before. */
    method Displace(approved: nat) returns (r: Result<QuarantinedFile>, ghost away: Location)
      requires Valid() && Staged()
      modifies volume`disk, volume`owned, volume`log
      ensures Valid() && Staged() && volume.Follows() && volume.created == old(volume.created)
      ensures volume.Unwritten()
      ensures volume.Did(AsideDeeds(destination, away)) && away != tempPath
      ensures away == destination || away in volume.owned
      ensures r.Ok? ==> fresh(r.value) && Aside(r.value, away, approved)
      ensures r.Ok? && destination in volume.held ==>
        && destination in old(volume.disk).dir && destination !in volume.disk.dir
        && r.value.node == old(volume.disk).dir[destination]
      ensures r.Ok? && volume.quiet ==>
        && old(Approved(approved)) && destination in old(volume.disk).dir && away !in old(volume.disk).dir
        && volume.disk == MoveOf(old(volume.disk), destination, away)
        && r.value.node == old(volume.disk).dir[destination]
      ensures r.Err? && volume.quiet && PutBack(volume.disk, destination, away) ==> volume.disk == old(volume.disk)
      ensures r.Err? && volume.reliable && (volume.quiet || destination in volume.held) ==>
        PutBack(volume.disk, destination, away)
      ensures r.Err? && volume.quiet && volume.reliable && old(Approved(approved)) ==>
        r.error == SecureDeletionFailed && !NoPrivateNames(old(volume.disk), Parent(destination))
      ensures r.Err? && destination in volume.held ==> Untouched(old(volume.disk), volume.disk, destination, away)
    {
      hide Volume.Valid, Disk.Resolve, NoPrivateNames;
      ghost var pre, log0 := volume.disk, volume.log;
      var quarantined;
      quarantined, pre := NewQuarantinedFile(volume, destination);
      away := destination;
      if quarantined.Err? {
        return Err(quarantined.error), away;
      }
      var q := quarantined.value;
      away := q.quarantine;
      MoveBack(pre, destination, away);
      MoveLeadsExactly(pre, destination, away, approved);
      ghost var log1 := volume.log;
      var vetted := Vet(q, approved);
      DeedsJoin(log1, volume.log, |log0|, {Action.SetAside(destination, away)}, {Action.Move(away, destination)},
                AsideDeeds(destination, away));
      r := if vetted.Ok? then Ok(q) else Err(vetted.error);
    }

    /** The recorded step gave the written file, complete, its public name, and replaced nothing. */
    ghost predicate InstalledBy(st: Step, bytes: seq<byte>) {
      && st.program && st.action == Action.Move(tempPath, destination)
      && tempPath in st.before.dir && st.before.dir[tempPath] == File(inode) && destination !in st.before.dir
      && inode in st.before.content && st.before.content[inode] == bytes
      && st.after == MoveOf(st.before, tempPath, destination)
    }

    /** Renames the temporary file to the destination, which must be free. */
    method Publish() returns (r: Result<()>)
      requires Valid() && Staged()
      modifies volume`disk, volume`owned, volume`log
      ensures Valid() && volume.Follows() && volume.created == old(volume.created) && volume.owned == old(volume.owned)
      ensures volume.Unwritten() && volume.Did(if r.Ok? then {Action.Move(tempPath, destination)} else {})
      ensures r.Ok? ==>
        && |volume.log| > |old(volume.log)|
        && InstalledBy(volume.log[|volume.log| - 1], old(volume.disk).content[inode])
        && destination in volume.disk.dir && volume.disk.dir[destination] == File(inode) && tempPath !in volume.disk.dir
        && (volume.quiet ==> volume.disk == MoveOf(old(volume.disk), tempPath, destination))
        && (destination in volume.held ==> destination !in old(volume.disk).dir)
      ensures r.Err? ==> Staged() && volume.DriftedTo(volume.disk)
      ensures r.Err? && volume.quiet && volume.reliable ==> destination in old(volume.disk).dir
      ensures forall l :: l in volume.held + volume.owned && l != tempPath && l != destination ==>
        && (l in old(volume.disk).dir <==> l in volume.disk.dir)
        && (l in volume.disk.dir ==> volume.disk.dir[l] == old(volume.disk).dir[l])
    {
      ghost var pre;
      r, pre := volume.RenameNoReplace(tempPath, destination, false);
    }

    /** Installs while the old file waits aside; on failure the old file goes back if it can. */
    method PublishOver(q: QuarantinedFile, ghost away: Location, ghost approved: nat) returns (r: Result<()>)
      requires Valid() && Staged() && Aside(q, away, approved) && away != tempPath
      modifies volume`disk, volume`owned, volume`log, q`active
      ensures Valid() && volume.Follows() && volume.created == old(volume.created) && volume.Unwritten()
      ensures volume.owned == old(volume.owned)
      ensures r.Ok? ==>
        && Aside(q, away, approved) && volume.Did({Action.Move(tempPath, destination)}) && Installed()
        && |volume.log| > |old(volume.log)|
        && InstalledBy(volume.log[|volume.log| - 1], old(volume.disk).content[inode])
      ensures r.Ok? && volume.quiet ==> volume.disk == MoveOf(old(volume.disk), tempPath, destination)
      ensures r.Err? ==> Staged() && volume.Did({Action.Move(away, destination)})
      ensures r.Err? && volume.quiet && away !in volume.disk.dir ==>
        volume.disk == MoveOf(old(volume.disk), away, destination)
      ensures r.Err? && volume.quiet && volume.reliable ==> destination in old(volume.disk).dir
      ensures r.Err? && destination in volume.held && destination !in old(volume.disk).dir ==>
        HomeOrAside(volume.disk, destination, away, q.node) && (volume.reliable ==> away !in volume.disk.dir)
    {
      hide Volume.Valid;
      ghost var log0 := volume.log;
      r := Publish();
      if r.Ok? {
        return;
      }
      ghost var log1 := volume.log;
      ghost var pre := q.Restore();
      DeedsJoin(log1, volume.log, |log0|, {}, {Action.Move(away, destination)}, {Action.Move(away, destination)});
    }

    ghost predicate Installed()
      reads this, volume
    {
      destination in volume.disk.dir && volume.disk.dir[destination] == File(inode) && tempPath !in volume.disk.dir
    }

    /** With an approved old file in the way: move it aside, check it, install. */
    method InstallOver(approved: nat) returns (r: Result<QuarantinedFile>, ghost away: Location)
      requires Valid() && Staged()
      modifies volume`disk, volume`owned, volume`log
      ensures Valid() && volume.Follows() && volume.created == old(volume.created) && volume.Unwritten()
      ensures away != tempPath && (away == destination || away in volume.owned)
      ensures r.Ok? ==>
        && fresh(r.value) && Aside(r.value, away, approved) && Installed()
        && volume.Did(InstallDeeds(destination, tempPath, away))
        && |volume.log| > |old(volume.log)|
        && InstalledBy(volume.log[|volume.log| - 1], old(volume.disk).content[inode])
      ensures r.Ok? && volume.quiet ==>
        && old(Approved(approved)) && away !in old(volume.disk).dir
        && r.value.node == old(volume.disk).dir[destination]
        && volume.disk == MoveOf(MoveOf(old(volume.disk), destination, away), tempPath, destination)
      ensures r.Err? ==> Staged() && volume.Did(AsideDeeds(destination, away))
      ensures r.Err? && volume.quiet && PutBack(volume.disk, destination, away) ==> volume.disk == old(volume.disk)
      ensures r.Err? && volume.reliable && (volume.quiet || destination in volume.held) ==>
        PutBack(volume.disk, destination, away)
      ensures r.Err? && destination in volume.held ==> Untouched(old(volume.disk), volume.disk, destination, away)
      ensures r.Err? && volume.quiet && volume.reliable && old(Approved(approved)) ==>
        r.error == SecureDeletionFailed && !NoPrivateNames(old(volume.disk), Parent(destination))
    {
      hide Deeds, Volume.Valid, Approved, NoPrivateNames;
      ghost var log0, disk0 := volume.log, volume.disk;
      r, away := Displace(approved);
      if r.Err? {
        return;
      }
      var q := r.value;
      ghost var log1 := volume.log;
      var published := PublishOver(q, away, approved);
      if published.Ok? {
        DeedsJoin(log1, volume.log, |log0|, AsideDeeds(destination, away), {Action.Move(tempPath, destination)},
                  InstallDeeds(destination, tempPath, away));
      } else {
        DeedsJoin(log1, volume.log, |log0|, AsideDeeds(destination, away), {Action.Move(away, destination)},
                  AsideDeeds(destination, away));
        if volume.quiet {
          MoveBack(disk0, destination, away);
        }
        r := Err(published.error);
      }
    }

    /** The installing half of a commit, with or without an old file to replace. */
    method Install() returns (r: Result<Option<QuarantinedFile>>, ghost away: Location)
      requires Valid() && Staged()
      modifies volume`disk, volume`owned, volume`log
      ensures Valid() && volume.Follows() && volume.created == old(volume.created) && volume.Unwritten()
      ensures away != tempPath && (away == destination || away in volume.owned)
      ensures r.Ok? ==>
        && (r.value.Some? <==> observed.Some?)
        && (observed.Some? ==> fresh(r.value.value) && Aside(r.value.value, away, observed.value)) && Installed()
        && volume.Did(InstallDeeds(destination, tempPath, away))
        && |volume.log| > |old(volume.log)|
        && InstalledBy(volume.log[|volume.log| - 1], old(volume.disk).content[inode])
      ensures r.Ok? && volume.quiet ==>
        && (observed.Some? ==>
            && old(Approved(observed.value)) && away !in old(volume.disk).dir
            && r.value.value.node == old(volume.disk).dir[destination]
            && volume.disk == MoveOf(MoveOf(old(volume.disk), destination, away), tempPath, destination))
        && (observed.None? ==> volume.disk == MoveOf(old(volume.disk), tempPath, destination))
      ensures r.Err? ==> Staged() && volume.Did(AsideDeeds(destination, away))
      ensures r.Err? && volume.quiet && PutBack(volume.disk, destination, away) ==> volume.disk == old(volume.disk)
      ensures r.Err? && volume.reliable && (volume.quiet || destination in volume.held) ==>
        PutBack(volume.disk, destination, away)
      ensures r.Err? && destination in volume.held ==> Untouched(old(volume.disk), volume.disk, destination, away)
      ensures r.Err? && volume.quiet && volume.reliable && old(Expected()) ==>
        r.error == SecureDeletionFailed && observed.Some? && !NoPrivateNames(old(volume.disk), Parent(destination))
    {
      hide Volume.Valid, Approved, NoPrivateNames;
      if observed.Some? {
        var over;
        over, away := InstallOver(observed.value);
        r := if over.Ok? then Ok(Some(over.value)) else Err(over.error);
        return;
      }
      away := destination;
      r := InstallFresh();
    }

    /** What was seen at the destination when the output was opened is there now. */
    ghost predicate Expected()
      reads this`observed, volume`disk
    {
      if observed.Some? then Approved(observed.value) else destination !in volume.disk.dir
    }

    /** With nothing approved for replacement, anything that appeared meanwhile is left alone. */
    method InstallFresh() returns (r: Result<Option<QuarantinedFile>>)
      requires Valid() && Staged() && observed.None?
      modifies volume`disk, volume`owned, volume`log
      ensures Valid() && volume.Follows() && volume.created == old(volume.created) && volume.Unwritten()
      ensures r.Ok? ==>
        && r.value.None? && Installed() && volume.Did({Action.Move(tempPath, destination)})
        && |volume.log| > |old(volume.log)|
        && InstalledBy(volume.log[|volume.log| - 1], old(volume.disk).content[inode])
      ensures r.Ok? && volume.quiet ==> volume.disk == MoveOf(old(volume.disk), tempPath, destination)
      ensures r.Err? ==> Staged() && volume.Did({}) && volume.DriftedTo(volume.disk)
      ensures r.Err? && volume.quiet && volume.reliable ==> destination in old(volume.disk).dir
    {
      hide Volume.Valid;
      ghost var log0 := volume.log;
      var seen := volume.Lstat(destination);
      if seen.Ok? {
        return Err(if seen.value.Symlink? then UnsafePath else IoError(AlreadyExists));
      }
      if seen.error != IoError(NotFound) {
        return Err(seen.error);
      }
      ghost var log1 := volume.log;
      var published := Publish();
      if published.Err? {
        DeedsJoin(log1, volume.log, |log0|, {}, {}, {});
        return Err(published.error);
      }
      DeedsJoin(log1, volume.log, |log0|, {}, {Action.Move(tempPath, destination)},
                {Action.Move(tempPath, destination)});
      r := Ok(None);
    }

    /** After the installation: sync the directory, and only then delete the old file. */
    method Settle(replaced: Option<QuarantinedFile>, ghost away: Location)
      returns (r: Result<()>, ghost settledAt: nat)
      requires Valid() && Installed() && !committed && away != tempPath
      requires replaced.Some? <==> observed.Some?
      requires replaced.Some? ==> Aside(replaced.value, away, observed.value)
      requires observed.Some? ==> observed.value in volume.charter.removable
      modifies this`committed, this`file, volume`disk, volume`owned, volume`log
      modifies if replaced.Some? then {replaced.value} else {}
      ensures Valid() && volume.Follows() && volume.created == old(volume.created) && volume.Unwritten()
      ensures |old(volume.log)| <= settledAt <= |volume.log|
      ensures committed ==>
        && Span(volume.log, |old(volume.log)|, settledAt, {})
        && Deeds(volume.log, settledAt, {Action.Remove(away), Action.Move(away, destination)})
        && settledAt > |old(volume.log)| && volume.log[settledAt - 1].program
        && volume.log[settledAt - 1].action == Sync
        && (if replaced.Some? then RemovesOnly(volume.log, settledAt, away, replaced.value.node)
            else Deeds(volume.log, settledAt, {}))
      ensures !committed ==>
        r.Err? && settledAt == |volume.log|
        && volume.Did({Action.Move(away, destination), Action.Remove(tempPath)})
      ensures r.Ok? ==>
        && committed
        && (replaced.Some? ==>
              away !in volume.disk.dir && Removed(volume.log, settledAt, away, replaced.value.node))
      ensures r.Ok? && volume.quiet ==>
        volume.disk == if replaced.None? then old(volume.disk)
                       else old(volume.disk).(dir := old(volume.disk).dir - {away})
      ensures volume.quiet && volume.reliable ==>
        r.Ok? || (replaced.Some? && replaced.value.node.Directory?)
      ensures destination in volume.held ==> Installed()
    {
      hide Volume.Valid, Removed, RemovesOnly;
      ghost var log0 := volume.log;
      r := volume.SyncAll();
      settledAt := |volume.log|;
      ghost var log1 := volume.log;
      if r.Err? {
        GiveUp(replaced, away);
        settledAt := |volume.log|;
        DeedsJoin(log1, volume.log, |log0|, {}, {Action.Move(away, destination), Action.Remove(tempPath)},
                  {Action.Move(away, destination), Action.Remove(tempPath)});
        return;
      }
      SpanOfDeeds(log1, log1, |log0|, {}, {});
      committed := true;
      if replaced.Some? {
        ghost var gone;
        r, gone := replaced.value.Remove();
      }
    }

    /** The destructors after a failed directory sync, innermost first. */
    method GiveUp(replaced: Option<QuarantinedFile>, ghost away: Location)
      requires Valid() && !committed && away != tempPath
      requires tempPath !in volume.disk.dir && (destination in volume.held ==> Installed())
      requires replaced.Some? <==> observed.Some?
      requires replaced.Some? ==> Aside(replaced.value, away, observed.value)
      modifies this`file, volume`disk, volume`owned, volume`log
      modifies if replaced.Some? then {replaced.value} else {}
      ensures Valid() && volume.Follows() && volume.created == old(volume.created) && volume.Unwritten()
      ensures volume.Did({Action.Move(away, destination), Action.Remove(tempPath)})
      ensures destination in volume.held ==> Installed()
    {
      hide Volume.Valid;
      ghost var log0 := volume.log;
      ghost var pre;
      if replaced.Some? {
        pre := replaced.value.Restore();
      }
      ghost var log1 := volume.log;
      Drop();
      DeedsJoin(log1, volume.log, |log0|, {Action.Move(away, destination)}, {Action.Remove(tempPath)},
                {Action.Move(away, destination), Action.Remove(tempPath)});
    }

    /** A program step that synced something. */
    ghost predicate SyncedAt(k: nat)
      reads volume
    {
      k < |volume.log| && volume.log[k].program && volume.log[k].action == Sync
    }

    /** Flushes the staged file; other processes cannot reach it meanwhile. */
    method SyncStaged() returns (r: Result<()>, ghost at: nat)
      requires Valid() && Staged()
      modifies volume`disk, volume`log
      ensures Valid() && Staged() && volume.Follows() && volume.created == old(volume.created) && volume.Unwritten()
      ensures volume.owned == old(volume.owned) && volume.Did({})
      ensures volume.quiet ==> volume.disk == old(volume.disk) && Expected() == old(Expected())
      ensures destination in volume.held ==>
        && (destination in old(volume.disk).dir <==> destination in volume.disk.dir)
        && (destination in volume.disk.dir ==> volume.disk.dir[destination] == old(volume.disk).dir[destination])
      ensures r.Ok? ==> |old(volume.log)| <= at < |volume.log| && SyncedAt(at)
      ensures r.Err? ==> !volume.reliable
    {
      r := volume.SyncAll();
      at := if r.Ok? then |volume.log| - 1 else 0;
    }

    /** The same, with the destructor after a failure. */
    method SyncOrDrop() returns (r: Result<()>, ghost at: nat)
      requires Valid() && Staged() && !committed
      modifies this`file, volume`disk, volume`log
      ensures Valid() && volume.Follows() && volume.created == old(volume.created) && volume.Unwritten()
      ensures volume.owned == old(volume.owned) && volume.Did({Action.Remove(tempPath)})
      ensures r.Ok? ==> |old(volume.log)| <= at < |volume.log| && SyncedAt(at) && Staged() && volume.Did({})
      ensures r.Ok? && volume.quiet ==> volume.disk == old(volume.disk) && Expected() == old(Expected())
      ensures destination in volume.held ==>
        && (destination in old(volume.disk).dir <==> destination in volume.disk.dir)
        && (destination in volume.disk.dir ==> volume.disk.dir[destination] == old(volume.disk).dir[destination])
      ensures r.Err? ==> !volume.reliable
      ensures r.Err? && volume.quiet && tempPath !in volume.disk.dir ==>
        volume.disk == old(volume.disk).(dir := old(volume.disk).dir - {tempPath})
    {
      hide Volume.Valid, Approved, Drift;
      r, at := SyncStaged();
      if r.Err? {
        Drop();
      } else {
        file := None;
      }
    }

    /** Installs, with the destructor after a failure. */
    method InstallOrDrop() returns (r: Result<Option<QuarantinedFile>>, ghost away: Location)
      requires Valid() && Staged() && !committed
      modifies this`file, volume`disk, volume`owned, volume`log
      ensures Valid() && volume.Follows() && volume.created == old(volume.created) && volume.Unwritten()
      ensures away != tempPath && volume.Did(InstallDeeds(destination, tempPath, away) + {Action.Remove(tempPath)})
      ensures r.Ok? ==>
        && (r.value.Some? <==> observed.Some?)
        && (observed.Some? ==> fresh(r.value.value) && Aside(r.value.value, away, observed.value)) && Installed()
        && |volume.log| > |old(volume.log)|
        && InstalledBy(volume.log[|volume.log| - 1], old(volume.disk).content[inode])
      ensures r.Ok? && volume.quiet ==>
        && (observed.Some? ==>
            && old(Approved(observed.value)) && away !in old(volume.disk).dir
            && r.value.value.node == old(volume.disk).dir[destination]
            && volume.disk == MoveOf(MoveOf(old(volume.disk), destination, away), tempPath, destination))
        && (observed.None? ==> volume.disk == MoveOf(old(volume.disk), tempPath, destination))
      ensures r.Err? && volume.quiet && Restored(volume.disk, away) ==>
        volume.disk == old(volume.disk).(dir := old(volume.disk).dir - {tempPath})
      ensures r.Err? && volume.reliable && (volume.quiet || destination in volume.held) ==>
        Restored(volume.disk, away)
      ensures r.Err? && destination in volume.held ==> Untouched(old(volume.disk), volume.disk, destination, away)
      ensures r.Err? && volume.quiet && volume.reliable && old(Expected()) ==>
        r.error == SecureDeletionFailed && observed.Some? && !NoPrivateNames(old(volume.disk), Parent(destination))
    {
      hide Volume.Valid, Approved, Drift, Deeds, InstalledBy, MoveOf, NoPrivateNames;
      ghost var log0 := volume.log;
      r, away := Install();
      ghost var log1 := volume.log;
      ghost var all := InstallDeeds(destination, tempPath, away) + {Action.Remove(tempPath)};
      ghost var none: set<Action> := {};
      NoDeeds(log0);
      DeedsJoin(log0, log1, |log0|, none, if r.Ok? then InstallDeeds(destination, tempPath, away)
                                          else AsideDeeds(destination, away), all);
      if r.Err? {
        Drop();
        DeedsJoin(log1, volume.log, |log0|, all, {Action.Remove(tempPath)}, all);
      }
    }

    /** Every destructor has done its work. */
    ghost predicate Restored(d: Disk, away: Location) {
      tempPath !in d.dir && PutBack(d, destination, away)
    }

    /** Sync the file, close it and install it; a failure runs the destructor. */
    method CommitInstall() returns (r: Result<Option<QuarantinedFile>>, ghost rep: Report)
      requires Valid() && Staged() && !committed
      modifies this`file, volume`disk, volume`owned, volume`log
      ensures Valid() && volume.Follows() && volume.created == old(volume.created) && volume.Unwritten()
      ensures rep.away != tempPath && (rep.installedAt.Some? <==> r.Ok?)
      ensures Deeds(volume.log, |old(volume.log)|,
                    InstallDeeds(destination, tempPath, rep.away) + {Action.Remove(tempPath)})
      ensures r.Ok? ==>
        && (r.value.Some? <==> observed.Some?)
        && (observed.Some? ==> fresh(r.value.value) && Aside(r.value.value, rep.away, observed.value)) && Installed()
        && rep.moved == (if observed.Some? then Some(r.value.value.node) else None)
        && |old(volume.log)| <= rep.syncedAt < rep.installedAt.value < |volume.log| && SyncedAt(rep.syncedAt)
        && InstalledBy(volume.log[rep.installedAt.value], old(volume.disk).content[inode])
      ensures r.Ok? && volume.quiet ==>
        && (observed.Some? ==>
            && old(Approved(observed.value)) && rep.away !in old(volume.disk).dir
            && r.value.value.node == old(volume.disk).dir[destination]
            && volume.disk == MoveOf(MoveOf(old(volume.disk), destination, rep.away), tempPath, destination))
        && (observed.None? ==> volume.disk == MoveOf(old(volume.disk), tempPath, destination))
      ensures r.Err? && volume.quiet && Restored(volume.disk, rep.away) ==>
        volume.disk == old(volume.disk).(dir := old(volume.disk).dir - {tempPath})
      ensures r.Err? && volume.reliable && (volume.quiet || destination in volume.held) ==>
        Restored(volume.disk, rep.away)
      ensures r.Err? && destination in volume.held ==> Untouched(old(volume.disk), volume.disk, destination, rep.away)
      ensures r.Err? && volume.quiet && volume.reliable && old(Expected()) ==>
        r.error == SecureDeletionFailed && observed.Some? && !NoPrivateNames(old(volume.disk), Parent(destination))
    {
      hide Deeds, Span, Volume.Valid, InstalledBy, Drift, Approved, MoveOf, Expected, NoPrivateNames;
      ghost var log0 := volume.log;
      var synced;
      ghost var at;
      synced, at := SyncOrDrop();
      ghost var log1 := volume.log;
      rep := Report(destination, None, at, None, 0);
      ghost var all := InstallDeeds(destination, tempPath, rep.away) + {Action.Remove(tempPath)};
      if synced.Err? {
        NoDeeds(log0);
        DeedsJoin(log0, log1, |log0|, {}, {Action.Remove(tempPath)}, all);
        return Err(synced.error), rep;
      }
      ghost var away;
      r, away := InstallOrDrop();
      rep := rep.(away := away, installedAt := if r.Ok? then Some(|volume.log| - 1) else None,
                  moved := if r.Ok? && r.value.Some? then Some(r.value.value.node) else None);
      all := InstallDeeds(destination, tempPath, away) + {Action.Remove(tempPath)};
      DeedsJoin(log1, volume.log, |log0|, {}, all, all);
    }

    /** Commits the written file.  Nothing but the temporary file and what was moved aside loses a name, the latter
        only after the complete new file was synced, installed and its directory synced; and what was moved aside is
        the approved file exactly if it is no link. */
    method Commit() returns (r: Result<Location>, ghost rep: Report)
      requires Valid() && Staged() && !committed
      requires observed.Some? ==> observed.value in volume.charter.removable
      modifies this`file, this`committed, volume`disk, volume`owned, volume`log
      ensures Valid() && volume.Follows() && volume.created == old(volume.created) && volume.Unwritten()
      ensures |old(volume.log)| <= rep.settledAt <= |volume.log| && rep.away != tempPath
      ensures Span(volume.log, |old(volume.log)|, rep.settledAt,
                   InstallDeeds(destination, tempPath, rep.away) + {Action.Remove(tempPath)})
      ensures rep.installedAt.Some? ==>
        && |old(volume.log)| <= rep.syncedAt < rep.installedAt.value < rep.settledAt && SyncedAt(rep.syncedAt)
        && InstalledBy(volume.log[rep.installedAt.value], old(volume.disk).content[inode])
        && (rep.moved.Some? <==> observed.Some?)
        && (rep.moved.Some? ==> (rep.moved.value == File(observed.value) <==> !rep.moved.value.Symlink?))
        && (rep.moved.Some? && volume.quiet ==>
              old(Approved(observed.value)) && rep.moved.value == old(volume.disk).dir[destination])
      ensures committed ==>
        && rep.installedAt.Some? && rep.installedAt.value < rep.settledAt - 1 && SyncedAt(rep.settledAt - 1)
        && Deeds(volume.log, rep.settledAt, {Action.Remove(rep.away), Action.Move(rep.away, destination)})
        && (if rep.moved.Some? then RemovesOnly(volume.log, rep.settledAt, rep.away, rep.moved.value)
            else Deeds(volume.log, rep.settledAt, {}))
      ensures !committed ==> r.Err? && rep.settledAt == |volume.log|
      ensures r.Ok? ==> committed && r.value == destination
      ensures r.Ok? && observed.Some? ==>
        rep.away !in volume.disk.dir && Removed(volume.log, rep.settledAt, rep.away, rep.moved.value)
      ensures r.Ok? && volume.quiet ==>
        volume.disk == old(volume.disk).(dir := (old(volume.disk).dir - {tempPath})[destination := File(inode)])
      ensures rep.installedAt.None? && volume.quiet && Restored(volume.disk, rep.away) ==>
        volume.disk == old(volume.disk).(dir := old(volume.disk).dir - {tempPath})
      ensures rep.installedAt.None? && volume.reliable && (volume.quiet || destination in volume.held) ==>
        Restored(volume.disk, rep.away)
      ensures r.Err? && volume.quiet && volume.reliable && old(Expected()) ==>
        r.error == SecureDeletionFailed && observed.Some? && !NoPrivateNames(old(volume.disk), Parent(destination))
      ensures destination in volume.held ==>
        if rep.installedAt.Some? then Installed() else Untouched(old(volume.disk), volume.disk, destination, rep.away)
    {
      hide Deeds, Span, Volume.Valid, InstalledBy, Approved, Drift, Valid, NoPrivateNames, Untouched, RemovesOnly,
           Removed;
      ghost var log0 := volume.log;
      var installed;
      installed, rep := CommitInstall();
      ghost var log1, all := volume.log, InstallDeeds(destination, tempPath, rep.away) + {Action.Remove(tempPath)};
      rep := rep.(settledAt := |log1|);
      if installed.Err? {
        SpanOfDeeds(log1, log1, |log0|, all, all);
        return Err(installed.error), rep;
      }
      var settled;
      ghost var settledAt;
      settled, settledAt := Settle(installed.value, rep.away);
      rep := rep.(settledAt := settledAt);
      SpanOfDeeds(log1, volume.log, |log0|, all, all);
      SpanExtends(volume.log, |log0|, |log1|, settledAt, all, {},
                  {Action.Move(rep.away, destination), Action.Remove(tempPath)});
      r := if settled.Ok? then Ok(destination) else Err(settled.error);
    }
  }

  /** Compares the file that was moved away with the approved one; on a mismatch it goes back. */
  method Vet(q: QuarantinedFile, approved: nat) returns (r: Result<()>)
    requires q.Valid() && q.active && q.Waiting()
    modifies q`active, q.volume`disk, q.volume`owned, q.volume`log
    ensures q.Valid() && q.volume.Follows() && q.volume.created == old(q.volume.created) && q.volume.Unwritten()
    ensures q.volume.owned == old(q.volume.owned)
    ensures q.volume.Did({Action.Move(q.quarantine, q.original)})
    ensures r.Ok? ==>
      && q.active && q.Waiting() && (q.node == File(approved) || q.node.Symlink?)
      && q.volume.DriftedTo(q.volume.disk)
      && q.volume.disk.Resolve(q.quarantine, MAX_LINK_DEPTH) == Some(approved)
    ensures r.Err? && q.volume.quiet && q.volume.reliable ==>
      old(q.volume.disk).Resolve(q.quarantine, MAX_LINK_DEPTH) != Some(approved)
    ensures r.Err? && q.volume.quiet ==>
      q.volume.disk == if q.quarantine in q.volume.disk.dir then old(q.volume.disk)
                       else MoveOf(old(q.volume.disk), q.quarantine, q.original)
    ensures r.Err? && q.volume.reliable && q.original !in old(q.volume.disk).dir
        && (q.volume.quiet || q.original in q.volume.held)
      ==> q.quarantine !in q.volume.disk.dir
    ensures forall l :: l in q.volume.held + q.volume.owned && l != q.quarantine && l != q.original ==>
      && (l in old(q.volume.disk).dir <==> l in q.volume.disk.dir)
      && (l in q.volume.disk.dir ==> q.volume.disk.dir[l] == old(q.volume.disk).dir[l])
    ensures q.original in q.volume.held && q.original !in old(q.volume.disk).dir ==>
      HomeOrAside(q.volume.disk, q.original, q.quarantine, q.node)
  {
    hide Volume.Valid;
    ghost var pre;
    var moved := q.volume.Identity(q.quarantine);
    if moved.Err? {
      pre := q.Restore();
      return Err(moved.error);
    }
    if moved.value != approved {
      pre := q.Restore();
      return Err(UnsafePath);
    }
    r := Ok(());
  }
}
