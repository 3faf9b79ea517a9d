/** Moving a file out of the way under a private name, and putting it back. */
module Quarantine {
  import opened Bytes
  import opened Results
  import opened FileSystem
  import opened Names

  const TEMP_PREFIX: Name := [0x2E, 0x69, 0x72, 0x6F, 0x6E, 0x6C, 0x6F, 0x63, 0x6B, 0x2D]   // ".ironlock-"
  const TEMP_SUFFIX: Name := [0x2E, 0x74, 0x6D, 0x70]                                       // ".tmp"
  const ATTEMPTS: nat := 128

  function Parent(l: Location): Location {
    if l == [] then [] else l[..|l| - 1]
  }

  function TempName(a: nat, b: nat): Name {
    TEMP_PREFIX + Hex(a, 16) + [0x2D] + Hex(b, 16) + TEMP_SUFFIX
  }

  /** Sixteen random bytes make 2^128 different names. */
  lemma TempNameInjective(a: nat, b: nat, c: nat, d: nat)
    requires a < Pow16(16) && b < Pow16(16) && c < Pow16(16) && d < Pow16(16)
    requires TempName(a, b) == TempName(c, d)
    ensures a == c && b == d
  {
    hide Hex, Pow16;
    assert TempName(a, b)[10..26] == Hex(a, 16) && TempName(c, d)[10..26] == Hex(c, 16);
    assert TempName(a, b)[27..43] == Hex(b, 16) && TempName(c, d)[27..43] == Hex(d, 16);
    HexInjective(a, c, 16);
    HexInjective(b, d, 16);
  }

  lemma Pow16Of16()
    ensures Pow16(16) == U64_LIMIT
  {
    assert Pow16(4) == 0x1_0000;
    assert Pow16(8) == 0x1_0000_0000;
    assert Pow16(12) == 0x1_0000_0000_0000;
  }

  /** A random name in the given directory; any may come up, except that of the file it is for. */
  method RandomTempPath(parent: Location, other: Location) returns (l: Location)
    ensures exists a, b :: 0 <= a < U64_LIMIT && 0 <= b < U64_LIMIT && l == parent + [TempName(a, b)]
    ensures l != other
  {
    hide TempName, Pow16;
    var a := NextU64();
    var b := NextU64();
    l := parent + [TempName(a, b)];
    if l == other {
      ghost var drawn := b;
      b := if b == 0 then 1 else 0;
      Pow16Of16();
      if TempName(a, b) == TempName(a, drawn) {
        TempNameInjective(a, b, a, drawn);
      }
      assert other[|parent|] == TempName(a, drawn);
      l := parent + [TempName(a, b)];
      assert l[|parent|] == TempName(a, b);
    }
  }

  /** No entry of the directory has a name of the private form. */
  ghost predicate NoPrivateNames(d: Disk, parent: Location) {
    forall a, b :: parent + [TempName(a, b)] !in d.dir
  }

  function MoveOf(d: Disk, from: Location, to: Location): Disk
    requires from in d.dir
  {
    d.(dir := (d.dir - {from})[to := d.dir[from]])
  }

  /** Moving away and back leaves the directory as it was. */
  lemma MoveBack(d: Disk, from: Location, to: Location)
    requires from in d.dir && to !in d.dir && from != to
    ensures MoveOf(MoveOf(d, from, to), to, from) == d
  {
    var there := MoveOf(d, from, to);
    assert MoveOf(there, to, from).dir == d.dir;
  }

  /** If the first name does not lead to `inode` in up to `fuel` steps, whatever does still does when it is moved. */
  lemma {:induction false} LeadsPast(d: Disk, from: Location, to: Location, inode: nat, l: Location, fuel: nat)
    requires from in d.dir && to !in d.dir
    requires d.Resolve(l, fuel) == Some(inode) && forall m :: 0 <= m <= fuel ==> d.Resolve(from, m) != Some(inode)
    ensures MoveOf(d, from, to).Resolve(l, fuel) == Some(inode)
    decreases fuel
  {
    assert l != from;
    if d.dir[l].Symlink? {
      LeadsPast(d, from, to, inode, d.dir[l].target, fuel - 1);
    }
  }

  lemma {:induction false} MoreFuel(d: Disk, l: Location, inode: nat, fuel: nat, more: nat)
    requires d.Resolve(l, fuel) == Some(inode) && fuel <= more
    ensures d.Resolve(l, more) == Some(inode)
    decreases fuel
  {
    if d.dir[l].Symlink? {
      MoreFuel(d, d.dir[l].target, inode, fuel - 1, more - 1);
    }
  }

  /** Moving a file or link does not change where it leads. */
  lemma {:induction false} MoveLeads(d: Disk, from: Location, to: Location, inode: nat, fuel: nat)
    requires from in d.dir && to !in d.dir && d.Resolve(from, fuel) == Some(inode)
    ensures MoveOf(d, from, to).Resolve(to, fuel) == Some(inode)
    decreases fuel
  {
    var moved := MoveOf(d, from, to);
    if d.dir[from].Symlink? {
      if m: nat :| m < fuel && d.Resolve(from, m) == Some(inode) {
        MoveLeads(d, from, to, inode, m);
        MoreFuel(moved, to, inode, m, fuel);
      } else {
        LeadsPast(d, from, to, inode, d.dir[from].target, fuel - 1);
      }
    }
  }

  /** So what is moved aside leads to the approved inode exactly if it did before. */
  lemma MoveLeadsExactly(d: Disk, from: Location, to: Location, inode: nat)
    requires from in d.dir && to !in d.dir && from != to
    ensures MoveOf(d, from, to).Resolve(to, MAX_LINK_DEPTH) == Some(inode) <==>
      d.Resolve(from, MAX_LINK_DEPTH) == Some(inode)
  {
    var moved := MoveOf(d, from, to);
    MoveBack(d, from, to);
    if d.Resolve(from, MAX_LINK_DEPTH) == Some(inode) {
      MoveLeads(d, from, to, inode, MAX_LINK_DEPTH);
    } else if moved.Resolve(to, MAX_LINK_DEPTH) == Some(inode) {
      MoveLeads(moved, to, from, inode, MAX_LINK_DEPTH);
    }
  }

  /** Whenever the program removed this name, this is what was behind it. */
  ghost predicate RemovesOnly(log: seq<Step>, from: nat, at: Location, node: Node) {
    forall k :: from <= k < |log| && log[k].program && log[k].action == Action.Remove(at) ==>
      at in log[k].before.dir && log[k].before.dir[at] == node
  }

  /** The program removed this name, with the node behind it. */
  ghost predicate Removed(log: seq<Step>, from: nat, at: Location, node: Node) {
    exists k :: from <= k < |log| && RemovedBy(log[k], at, node)
  }

  ghost predicate RemovedBy(st: Step, at: Location, node: Node) {
    && st.program && st.action == Action.Remove(at)
    && at in st.before.dir && st.before.dir[at] == node && at !in st.after.dir
  }

  lemma RemovedHere(a: seq<Step>, b: seq<Step>, at: Location, node: Node)
    requires Prefix(a, b) && |b| > |a| && (forall k :: |a| <= k < |b| - 1 ==> Calm(b[k]))
    requires b[|b| - 1].action == Action.Remove(at) && at in b[|b| - 1].before.dir && b[|b| - 1].before.dir[at] == node
    requires b[|b| - 1].program && at !in b[|b| - 1].after.dir
    ensures RemovesOnly(b, |a|, at, node) && Removed(b, |a|, at, node)
  {
    assert RemovedBy(b[|b| - 1], at, node);
  }

  lemma RemovedNothing(log: seq<Step>, from: nat, deeds: set<Action>, at: Location, node: Node)
    requires Deeds(log, from, deeds) && Action.Remove(at) !in deeds
    ensures RemovesOnly(log, from, at, node)
  {
  }

  /** One removal, and nothing removed after it. */
  lemma RemovedOne(a: seq<Step>, b: seq<Step>, from: nat, deeds: set<Action>, at: Location, node: Node)
    requires Prefix(a, b) && RemovesOnly(a, from, at, node) && Deeds(b, |a|, deeds) && Action.Remove(at) !in deeds
    ensures RemovesOnly(b, from, at, node)
    ensures Removed(a, from, at, node) ==> Removed(b, from, at, node)
  {
    if Removed(a, from, at, node) {
      var k :| from <= k < |a| && RemovedBy(a[k], at, node);
      assert RemovedBy(b[k], at, node);
    }
    forall k | from <= k < |b| && b[k].program && b[k].action == Action.Remove(at)
      ensures at in b[k].before.dir && b[k].before.dir[at] == node
    {
      assert k < |a| && a[k] == b[k];
    }
  }

  class QuarantinedFile {
    const volume: Volume
    const original: Location
    const quarantine: Location
    const node: Node
    var active: bool

    constructor (volume: Volume, original: Location, quarantine: Location, node: Node)
      ensures this.volume == volume && this.original == original && this.quarantine == quarantine && this.node == node
      ensures active
    {
      this.volume, this.original, this.quarantine, this.node := volume, original, quarantine, node;
      active := true;
    }

    /** The private name is ours, and no promise was made about it. */
    ghost predicate Valid()
      reads this, volume
    {
      && volume.Valid() && quarantine in volume.owned && quarantine !in volume.charter.kept
      && quarantine != original
    }

    /** The file waits under its private name. */
    ghost predicate Waiting()
      reads this, volume
    {
      quarantine in volume.disk.dir && volume.disk.dir[quarantine] == node
    }

    /** Puts the file back unless something else took its place. */
    method Restore() returns (ghost pre: Disk)
      requires Valid() && (active ==> Waiting() || quarantine !in volume.disk.dir)
      modifies this`active, volume`disk, volume`owned, volume`log
      ensures Valid() && volume.Follows() && volume.DriftedTo(pre) && volume.created == old(volume.created)
      ensures volume.owned == old(volume.owned)
      ensures volume.Did(if old(active) && !active then {Action.Move(quarantine, original)} else {})
      ensures if old(active) && !active
        then quarantine in pre.dir && pre.dir[quarantine] == node && original !in pre.dir
          && volume.disk == MoveOf(pre, quarantine, original)
        else volume.disk == pre && active == old(active)
      ensures old(active) && old(Waiting()) && volume.reliable && original !in old(volume.disk).dir
          && (volume.quiet || original in volume.held)
        ==> !active
    {
      hide Volume.Valid;
      if active {
        var there := volume.Exists(original);
        if !there {
          var moved;
          moved, pre := volume.RenameNoReplace(quarantine, original, false);
          if moved.Ok? {
            active := false;
          }
          return;
        }
      }
      pre := volume.disk;
    }

    /** Deletes the file for good; on failure the destructor puts it back if it can.
        `gone` tells whether the name was removed. */
    method Remove() returns (r: Result<()>, ghost gone: bool)
      requires Valid() && active && Waiting()
      requires node.File? ==> node.inode in volume.charter.removable + volume.created
      modifies this`active, volume`disk, volume`owned, volume`log
      ensures Valid() && volume.Follows() && volume.created == old(volume.created) && volume.owned == old(volume.owned)
      ensures volume.Unwritten()
      ensures volume.Did(if gone then {Action.Remove(quarantine)} else {Action.Move(quarantine, original)})
      ensures r.Ok? ==> gone
      ensures if gone then quarantine !in volume.disk.dir
        else Waiting() || (original in volume.disk.dir && volume.disk.dir[original] == node)
      ensures r.Err? ==> r.error.IoError? && (!node.Directory? ==> !volume.reliable)
      ensures forall l | l in volume.held + volume.owned && l != quarantine
          && (l == original ==> r.Ok? || l in old(volume.disk).dir) ::
        && (l in old(volume.disk).dir <==> l in volume.disk.dir)
        && (l in volume.disk.dir ==> volume.disk.dir[l] == old(volume.disk).dir[l])
      ensures RemovesOnly(volume.log, |old(volume.log)|, quarantine, node)
      ensures gone ==> Removed(volume.log, |old(volume.log)|, quarantine, node)
      ensures gone && volume.quiet ==> volume.disk == old(volume.disk).(dir := old(volume.disk).dir - {quarantine})
    {
      hide Volume.Valid, RemovesOnly, Removed;
      ghost var pre, log0, back := volume.disk, volume.log, {Action.Move(quarantine, original)};
      r, pre := volume.Unlink(quarantine);
      gone := r.Ok?;
      ghost var log1 := volume.log;
      if r.Err? {
        pre := Restore();
        DeedsJoin(log1, volume.log, |log0|, {}, back, back);
        RemovedNothing(volume.log, |log0|, back, quarantine, node);
        return;
      }
      RemovedHere(log0, log1, quarantine, node);
      r := SyncRemoval();
      RemovedOne(log1, volume.log, |log0|, {}, quarantine, node);
    }

    /** The flush after the deletion; when it fails the destructor finds nothing to put back. */
    method SyncRemoval() returns (r: Result<()>)
      requires Valid() && active && quarantine !in volume.disk.dir
      modifies this`active, volume`disk, volume`owned, volume`log
      ensures Valid() && volume.Observed() && quarantine !in volume.disk.dir
      ensures r.Err? ==> r.error == IoError(OtherIo) && !volume.reliable
    {
      hide Volume.Valid;
      r := volume.SyncAll();
      if r.Err? {
        ghost var pre := Restore();
        return;
      }
      active := false;
    }
  }

  /** Gives the file a private name; whatever is there is moved, whoever put it there. */
  method NewQuarantinedFile(volume: Volume, original: Location) returns (r: Result<QuarantinedFile>, ghost pre: Disk)
    requires volume.Valid() && original !in volume.charter.kept
    modifies volume`disk, volume`owned, volume`log
    ensures volume.Valid() && volume.Follows() && volume.DriftedTo(pre) && volume.created == old(volume.created)
    ensures r.Ok? ==>
      var q := r.value;
      && fresh(q) && q.volume == volume && q.original == original && q.active && q.Valid() && q.Waiting()
      && original in pre.dir && q.node == pre.dir[original] && q.quarantine !in pre.dir
      && volume.disk == MoveOf(pre, original, q.quarantine)
      && volume.owned == old(volume.owned) + {q.quarantine}
      && volume.Did({Action.SetAside(original, q.quarantine)})
    ensures r.Err? ==> volume.disk == pre && volume.owned == old(volume.owned) && volume.Did({})
    ensures r.Err? ==>
      || r.error == SecureDeletionFailed
      || (r.error.IoError? && (original !in pre.dir || !volume.reliable))
    ensures r.Err? && volume.quiet && volume.reliable && original in old(volume.disk).dir ==>
      !NoPrivateNames(old(volume.disk), Parent(original))
  {
    hide TempName, Volume.Valid, QuarantinedFile.Valid, NoPrivateNames;
    var parent := Parent(original);
    for attempt := 0 to ATTEMPTS
      invariant volume.Valid() && volume.Observed()
      invariant attempt > 0 && volume.quiet && volume.reliable && original in old(volume.disk).dir ==>
        !NoPrivateNames(old(volume.disk), Parent(original))
    {
      r, pre := QuarantineOnce(volume, original, parent);
      if r.Ok? || r.error != IoError(AlreadyExists) {
        return;
      }
    }
    pre := volume.disk;
    r := Err(SecureDeletionFailed);
  }

  /** One attempt under one random name. */
  method QuarantineOnce(volume: Volume, original: Location, parent: Location)
    returns (r: Result<QuarantinedFile>, ghost pre: Disk)
    requires volume.Valid() && original !in volume.charter.kept
    modifies volume`disk, volume`owned, volume`log
    ensures volume.Valid() && volume.Follows() && volume.DriftedTo(pre) && volume.created == old(volume.created)
    ensures r.Ok? ==>
      var q := r.value;
      && fresh(q) && q.volume == volume && q.original == original && q.active && q.Valid() && q.Waiting()
      && original in pre.dir && q.node == pre.dir[original] && q.quarantine !in pre.dir
      && volume.disk == MoveOf(pre, original, q.quarantine)
      && volume.owned == old(volume.owned) + {q.quarantine}
      && volume.Did({Action.SetAside(original, q.quarantine)})
    ensures r.Err? ==> volume.disk == pre && volume.owned == old(volume.owned) && volume.Did({})
    ensures r.Err? ==>
      || r.error == IoError(AlreadyExists)
      || (r.error.IoError? && (original !in pre.dir || !volume.reliable))
    ensures r.Err? && volume.quiet && volume.reliable && original in old(volume.disk).dir ==>
      !NoPrivateNames(old(volume.disk), parent)
  {
    hide TempName;
    var quarantine := RandomTempPath(parent, original);
    var moved;
    moved, pre := volume.RenameNoReplace(original, quarantine, true);
    if moved.Err? {
      return Err(moved.error), pre;
    }
    var q := new QuarantinedFile(volume, original, quarantine, volume.disk.dir[quarantine]);
    r := Ok(q);
  }
}
