/** Opening a verified source, and shredding it afterwards. */
module SecureDelete {
  import opened Results
  import opened FileSystem
  import opened Quarantine
  import opened Overwrite

  /** Opens a regular file and checks that the name still leads to what was opened. */
  method VerifiedSourceFile(volume: Volume, path: Location) returns (r: Result<nat>)
    requires volume.Valid()
    modifies volume`disk, volume`log
    ensures volume.Valid() && volume.Observed()
    ensures r.Ok? ==> r.value in volume.disk.content
    ensures r.Ok? && (volume.quiet || path in volume.held) ==>
      path in volume.disk.dir && volume.disk.dir[path] == File(r.value)
    ensures r.Err? && volume.quiet && volume.reliable ==>
      path !in volume.disk.dir || !volume.disk.dir[path].File?
  {
    var seen := volume.Lstat(path);
    if seen.Err? {
      return Err(if seen.error == IoError(NotFound) then FileNotFound else seen.error);
    }
    if !seen.value.File? {
      return Err(UnsafePath);
    }
    var opened_ := volume.OpenNoFollow(path);
    if opened_.Err? {
      return Err(opened_.error);
    }
    var again := volume.Identity(path);
    if again.Err? {
      return Err(again.error);
    }
    if again.value != opened_.value {
      return Err(UnsafePath);
    }
    r := Ok(opened_.value);
  }

  /** The quarantined file, opened for writing and checked against the identity captured before. */
  method OpenForShredding(q: QuarantinedFile, expected: nat) returns (r: Result<nat>)
    requires q.Valid() && q.Waiting()
    modifies q.volume`disk, q.volume`log
    ensures q.Valid() && q.Waiting() && q.volume.Observed()
    ensures r.Ok? ==>
      && q.node == File(expected) && expected in q.volume.disk.content
      && r.value == |q.volume.disk.content[expected]|
    ensures r.Err? && q.volume.quiet && q.volume.reliable ==>
      q.node != File(expected) || |q.volume.disk.Names(expected)| != 1
  {
    var handle := q.volume.OpenNoFollow(q.quarantine);
    if handle.Err? {
      return Err(SecureDeletionFailed);
    }
    if handle.value != expected {
      return Err(SecureDeletionFailed);
    }
    var links := q.volume.LinkCount(handle.value);
    if links.Err? || links.value != 1 {
      return Err(SecureDeletionFailed);
    }
    r := Ok(|q.volume.disk.content[handle.value]|);
  }

  /** The last look before deletion. */
  method ConfirmQuarantined(q: QuarantinedFile, inode: nat) returns (r: Result<()>)
    requires q.Valid() && q.Waiting()
    modifies q.volume`disk, q.volume`log
    ensures q.Valid() && q.Waiting() && q.volume.Observed()
    ensures r.Err? && q.volume.reliable ==> q.node != File(inode)
  {
    var seen := q.volume.Lstat(q.quarantine);
    if seen.Err? || seen.value.Symlink? {
      return Err(SecureDeletionFailed);
    }
    var now := q.volume.Identity(q.quarantine);
    if now.Err? || now.value != inode {
      return Err(SecureDeletionFailed);
    }
    r := Ok(());
  }

  /** Shredding changes names only by these moves and bytes only of this inode. */
  ghost predicate ShredRecord(log: seq<Step>, from: nat, path: Location, away: Location, inode: nat) {
    forall k :: from <= k < |log| ==>
      || Calm(log[k])
      || log[k].action in {Action.SetAside(path, away), Action.Move(away, path), Action.Remove(away)}
      || (log[k].action.Write? && log[k].action.inode == inode)
  }

  lemma ShredRecordJoin(a: seq<Step>, b: seq<Step>, from: nat, path: Location, away: Location, inode: nat)
    requires Prefix(a, b) && ShredRecord(a, from, path, away, inode) && ShredRecord(b, |a|, path, away, inode)
    ensures ShredRecord(b, from, path, away, inode)
  {
    forall k | from <= k < |b|
      ensures
        || Calm(b[k])
        || b[k].action in {Action.SetAside(path, away), Action.Move(away, path), Action.Remove(away)}
        || (b[k].action.Write? && b[k].action.inode == inode)
    {
      if k < |a| {
        assert b[k] == a[k];
      }
    }
  }

  /** Checks, overwrites and checks again; the file stays under its private name throughout. */
  method Scrub(q: QuarantinedFile, expected: nat) returns (r: Result<()>, ghost done: seq<Piece>)
    requires q.Valid() && q.Waiting()
    requires expected in q.volume.charter.writable
    requires q.node == File(expected) ==> expected in q.volume.disk.content
    modifies q.volume`disk, q.volume`log
    ensures q.Valid() && q.Waiting() && q.volume.Follows()
    ensures q.volume.owned == old(q.volume.owned) && q.volume.created == old(q.volume.created)
    ensures OnlyWrites(q.volume.log, |old(q.volume.log)|, expected)
    ensures Scrubbed(old(q.volume.disk), q.volume.disk, q.volume.held + q.volume.owned, expected)
    ensures Wrote(old(q.volume.log), q.volume.log, done)
    ensures q.node == File(expected) ==>
      done <= ThreePasses(|old(q.volume.disk).content[expected]|)
    ensures q.node != File(expected) ==> r.Err? && done == []
    ensures r.Ok? ==> done == ThreePasses(|old(q.volume.disk).content[expected]|)
    ensures q.volume.quiet ==> q.volume.disk.dir == old(q.volume.disk).dir
    ensures r.Err? && q.volume.quiet && q.volume.reliable ==>
      q.node != File(expected) || |old(q.volume.disk).Names(expected)| != 1
  {
    hide Writes, Wrote, ThreePasses, Volume.Valid;
    done := [];
    ghost var log0 := q.volume.log;
    var size := OpenForShredding(q, expected);
    WroteNothing(log0, q.volume.log);
    if size.Err? {
      return Err(size.error), done;
    }
    ghost var log1, some := q.volume.log, [];
    r, some := OverwriteThrice(q.volume, expected, size.value);
    WroteMore(log0, log1, q.volume.log, done, some);
    done := done + some;
    if r.Err? {
      return Err(SecureDeletionFailed), done;
    }
    ghost var log2 := q.volume.log;
    r := ConfirmQuarantined(q, expected);
    WroteNothing(log2, q.volume.log);
    WroteMore(log0, log2, q.volume.log, done, []);
    assert done + [] == done;
  }

  /** Overwrites the quarantined file three times and deletes it; `done` lists the writes, `gone` the deletion. */
  method ShredQuarantined(q: QuarantinedFile, expected: nat)
    returns (r: Result<()>, ghost done: seq<Piece>, ghost gone: bool)
    requires q.Valid() && q.Waiting() && q.active
    requires expected in q.volume.charter.writable && expected in q.volume.charter.removable
    modifies q`active, q.volume`disk, q.volume`owned, q.volume`log
    ensures q.Valid() && q.volume.Follows() && q.volume.created == old(q.volume.created)
    ensures ShredRecord(q.volume.log, |old(q.volume.log)|, q.original, q.quarantine, expected)
    ensures Wrote(old(q.volume.log), q.volume.log, done)
    ensures expected in old(q.volume.disk).content ==>
      && expected in q.volume.disk.content
      && |q.volume.disk.content[expected]| == |old(q.volume.disk).content[expected]|
    ensures q.node == File(expected) ==>
      && expected in old(q.volume.disk).content
      && done <= ThreePasses(|old(q.volume.disk).content[expected]|)
      && (gone ==> done == ThreePasses(|old(q.volume.disk).content[expected]|))
    ensures q.node != File(expected) ==> done == [] && !gone
    ensures if gone then q.quarantine !in q.volume.disk.dir
      else q.Waiting() || (q.original in q.volume.disk.dir && q.volume.disk.dir[q.original] == q.node)
    ensures r.Err? ==> r.error == SecureDeletionFailed
    ensures r.Ok? ==> gone
    ensures r.Ok? && q.original in q.volume.held && q.original !in old(q.volume.disk).dir ==>
      q.original !in q.volume.disk.dir
    ensures gone && q.volume.quiet ==> q.volume.disk.dir == old(q.volume.disk).dir - {q.quarantine}
    ensures r.Err? && q.volume.quiet && q.volume.reliable ==>
      q.node != File(expected) || |old(q.volume.disk).Names(expected)| != 1
  {
    hide Writes, Wrote, ThreePasses, Chronicle, Recorded, Upheld;
    ghost var log0 := q.volume.log;
    gone := false;
    r, done := Scrub(q, expected);
    ghost var log1 := q.volume.log;
    if r.Err? {
      ghost var pre := q.Restore();
    } else {
      r, gone := q.Remove();
    }
    ShredRecordJoin(log1, q.volume.log, |log0|, q.original, q.quarantine, expected);
    QuietRecord(log1, q.volume.log, q.original, q.quarantine);
    WroteMore(log0, log1, q.volume.log, done, []);
    assert done + [] == done;
    r := if r.Err? then Err(SecureDeletionFailed) else r;
  }

  /** Moving and removing names writes nothing. */
  lemma {:induction false} NamesWriteNothing(a: seq<Step>, b: seq<Step>, from: nat)
    requires Prefix(a, b) && from <= |a|
    requires forall k :: |a| <= k < |b| ==> Calm(b[k]) || !b[k].action.Write?
    ensures Writes(b, from) == Writes(a, from)
    decreases |b|
  {
    if |a| == |b| {
      assert a == b;
    } else {
      assert Calm(b[|b| - 1]) || !b[|b| - 1].action.Write?;
      NamesWriteNothing(a, b[..|b| - 1], from);
    }
  }

  lemma QuietRecord(a: seq<Step>, b: seq<Step>, path: Location, away: Location)
    requires Prefix(a, b)
    requires Deeds(b, |a|, {Action.SetAside(path, away), Action.Move(away, path), Action.Remove(away)})
    ensures Wrote(a, b, [])
  {
    forall from | 0 <= from <= |a|
      ensures Writes(b, from) == Writes(a, from) + []
    {
      NamesWriteNothing(a, b, from);
    }
  }

  /** Checks the identity of the file at `path` and moves it to a private name. */
  method QuarantineSource(volume: Volume, path: Location, expected: nat) returns (r: Result<QuarantinedFile>)
    requires volume.Valid() && path !in volume.charter.kept
    modifies volume`disk, volume`owned, volume`log
    ensures volume.Valid() && volume.Follows() && volume.created == old(volume.created) && volume.Unwritten()
    ensures Wrote(old(volume.log), volume.log, [])
    ensures r.Ok? ==>
      var q := r.value;
      && fresh(q) && q.volume == volume && q.original == path && q.active && q.Valid() && q.Waiting()
      && path !in volume.disk.dir && volume.Did({Action.SetAside(path, q.quarantine)})
      && (volume.quiet ==> path in old(volume.disk).dir && q.node == old(volume.disk).dir[path] == File(expected)
                           && q.quarantine !in old(volume.disk).dir
                           && volume.disk == MoveOf(old(volume.disk), path, q.quarantine))
    ensures r.Err? ==> r.error == SecureDeletionFailed
    ensures r.Err? ==> volume.Did({}) && volume.DriftedTo(volume.disk)
    ensures r.Err? && volume.quiet && volume.reliable && FileAt(old(volume.disk), path, expected) ==>
      !NoPrivateNames(old(volume.disk), Parent(path))
  {
    hide Writes, Wrote, Chronicle, Recorded, Volume.Valid;
    ghost var log0 := volume.log;
    var source := VerifiedSourceFile(volume, path);
    ghost var log1 := volume.log;
    WroteNothing(log0, log1);
    if source.Err? || source.value != expected {
      return Err(SecureDeletionFailed);
    }
    ghost var pre;
    r, pre := NewQuarantinedFile(volume, path);
    QuietRecord(log1, volume.log, path, if r.Ok? then r.value.quarantine else path);
    ghost var nothing: seq<Piece> := [];
    WroteMore(log0, log1, volume.log, nothing, nothing);
    assert nothing + nothing == nothing;
    if r.Err? {
      return Err(SecureDeletionFailed);
    }
  }

  /** Shreds the file at `path`, which must still be the one whose identity was captured when it was encrypted.
      `away` is the private name used and `moved` the node that was moved there. */
  method SecureDeleteInner(volume: Volume, path: Location, expected: nat)
    returns (r: Result<()>, ghost away: Location, ghost moved: Option<Node>, ghost done: seq<Piece>, ghost gone: bool)
    requires volume.Valid() && path !in volume.charter.kept
    requires expected in volume.charter.writable && expected in volume.charter.removable
    requires expected in volume.disk.content
    modifies volume`disk, volume`owned, volume`log
    ensures volume.Valid() && volume.Follows() && volume.created == old(volume.created)
    ensures ShredRecord(volume.log, |old(volume.log)|, path, away, expected)
    ensures Wrote(old(volume.log), volume.log, done)
    ensures moved != Some(File(expected)) ==> r.Err? && done == [] && !gone
    ensures
      && expected in volume.disk.content
      && |volume.disk.content[expected]| == |old(volume.disk).content[expected]|
      && done <= ThreePasses(|old(volume.disk).content[expected]|)
      && (gone ==> done == ThreePasses(|old(volume.disk).content[expected]|))
    ensures moved.Some? && !gone ==>
      || (away in volume.disk.dir && volume.disk.dir[away] == moved.value)
      || (path in volume.disk.dir && volume.disk.dir[path] == moved.value)
    ensures r.Err? ==> r.error == SecureDeletionFailed
    ensures r.Ok? ==> gone
    ensures r.Ok? && path in volume.held ==> path !in volume.disk.dir
    ensures r.Ok? && volume.quiet ==> volume.disk.dir == old(volume.disk).dir - {path}
    ensures r.Err? && volume.quiet && volume.reliable && FileAt(old(volume.disk), path, expected) ==>
      !NoPrivateNames(old(volume.disk), Parent(path)) || |old(volume.disk).Names(expected)| != 1
  {
    hide Writes, Wrote, ThreePasses, Chronicle, Recorded, Volume.Valid, Drift;
    ghost var log0, disk0 := volume.log, volume.disk;
    away, moved, done, gone := path, None, [], false;
    var quarantined := QuarantineSource(volume, path, expected);
    if quarantined.Err? {
      return Err(quarantined.error), away, moved, done, gone;
    }
    var q := quarantined.value;
    ghost var log1 := volume.log;
    away, moved := q.quarantine, Some(q.node);
    if volume.quiet {
      SameLinkCount(disk0, path, away, expected);
    }
    r, done, gone := ShredQuarantined(q, expected);
    ShredRecordJoin(log1, volume.log, |log0|, path, away, expected);
    WroteMore(log0, log1, volume.log, [], done);
    assert [] + done == done;
  }

  lemma SameLinkCount(d: Disk, from: Location, to: Location, inode: nat)
    requires from in d.dir && to !in d.dir && d.dir[from] == File(inode)
    ensures |MoveOf(d, from, to).Names(inode)| == |d.Names(inode)|
  {
    var there := MoveOf(d, from, to);
    assert there.Names(inode) == d.Names(inode) - {from} + {to};
  }
}
