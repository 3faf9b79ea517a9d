/**
 A shared directory.  Names map to nodes, inodes to contents, and inode numbers are
 never reused.  Before every operation of the program other processes may create,
 link, replace or delete any name outside `held + owned`; unless the system is
 `reliable`, every operation may also fail.

 The ghost `charter` is a promise about the future chosen by whoever calls the program.
 `Valid()` says that every state recorded since it was adopted upholds it, and that
 every step the program took was within its bounds.
 */
module FileSystem {
  import opened Bytes
  import opened Results

  type Name = seq<byte>
  type Location = seq<Name>

  /** `Special` stands for sockets, devices and the like. */
  datatype Node = File(inode: nat) | Directory | Symlink(target: Location) | Special

  datatype Disk = Disk(dir: map<Location, Node>, content: map<nat, seq<byte>>, next: nat) {
    ghost predicate Valid() {
      && (forall i :: i in content ==> i < next)
      && (forall l :: l in dir && dir[l].File? ==> dir[l].inode in content)
    }

    /** The inode a path leads to when symbolic links are followed. */
    function Resolve(l: Location, fuel: nat): Option<nat>
      decreases fuel
    {
      if l !in dir then None
      else match dir[l]
        case File(i) => Some(i)
        case Symlink(target) => if fuel == 0 then None else Resolve(target, fuel - 1)
        case _ => None
    }

    /** Whether a path leads to anything at all. */
    predicate Reaches(l: Location, fuel: nat)
      decreases fuel
    {
      l in dir && (dir[l].Symlink? ==> fuel > 0 && Reaches(dir[l].target, fuel - 1))
    }

    function Names(inode: nat): set<Location> {
      set l | l in dir && dir[l] == File(inode)
    }

    ghost predicate Linked(inode: nat) {
      exists l :: l in dir && dir[l] == File(inode)
    }
  }

  const MAX_LINK_DEPTH: nat := 40

  /** Where a path leads depends on names alone. */
  lemma {:induction false} LeadsByNames(a: Disk, b: Disk, l: Location, fuel: nat)
    requires a.dir == b.dir
    ensures a.Resolve(l, fuel) == b.Resolve(l, fuel)
    decreases fuel
  {
    if l in a.dir && a.dir[l].Symlink? && fuel > 0 {
      LeadsByNames(a, b, a.dir[l].target, fuel - 1);
    }
  }

  ghost predicate FileAt(d: Disk, l: Location, inode: nat) {
    l in d.dir && d.dir[l] == File(inode)
  }

  datatype Action =
    | Look
    | Make(at: Location)
    | Move(from: Location, to: Location)
    | SetAside(from: Location, to: Location)    // to a name the program drew at random
    | Remove(at: Location)
    | Write(inode: nat, offset: nat, amount: nat)
    | Sync
    | Interference

  /** `safe` are the names that others leave alone from this step on. */
  datatype Step = Step(program: bool, action: Action, before: Disk, after: Disk, safe: set<Location>)

  /** `kept` names keep their nodes and `intact` inodes their bytes; only `removable` inodes may lose
      a name and only `writable` ones be written, besides the inodes the program itself created. */
  datatype Charter = Charter(kept: map<Location, Node>, intact: map<nat, seq<byte>>,
                             removable: set<nat>, writable: set<nat>)

  ghost predicate Upheld(c: Charter, d: Disk) {
    && (forall l :: l in c.kept ==> l in d.dir && d.dir[l] == c.kept[l])
    && (forall i :: i in c.intact ==> i in d.content && d.content[i] == c.intact[i])
  }

  function Renaming(from: Location, to: Location, own: bool): Action {
    if own then SetAside(from, to) else Action.Move(from, to)
  }

  ghost predicate Moved(a: Disk, b: Disk, from: Location, to: Location) {
    && from in a.dir && to !in a.dir
    && b == a.(dir := (a.dir - {from})[to := a.dir[from]])
  }

  /** Nothing is overwritten, and only permitted inodes lose a name or change their bytes. */
  ghost predicate Allowed(c: Charter, created: set<nat>, st: Step) {
    match st.action
    case Make(l) =>
      && l !in st.before.dir && l in st.after.dir && st.after.dir == st.before.dir[l := st.after.dir[l]]
      && forall i :: i in st.before.content ==> i in st.after.content && st.after.content[i] == st.before.content[i]
    case Move(from, to) => Moved(st.before, st.after, from, to)
    case SetAside(from, to) => Moved(st.before, st.after, from, to) && to in st.safe
    case Remove(l) =>
      && l in st.before.dir && st.after == st.before.(dir := st.before.dir - {l})
      && (st.before.dir[l].File? ==> st.before.dir[l].inode in c.removable + created)
    case Write(i, offset, amount) =>
      && i in c.writable + created && i in st.before.content && i in st.after.content
      && st.after == st.before.(content := st.before.content[i := st.after.content[i]])
    case _ => st.after == st.before
  }

  /** What other processes may have done: anything, except to `safe` names and to bytes already there. */
  ghost predicate Drift(a: Disk, b: Disk, safe: set<Location>) {
    && (forall l :: l in safe ==> (l in a.dir <==> l in b.dir) && (l in a.dir ==> a.dir[l] == b.dir[l]))
    && (forall i :: i in a.content ==> i in b.content && a.content[i] == b.content[i])
    && a.next <= b.next
  }

  /** The record since a charter was adopted upholds it. */
  ghost predicate Chronicle(c: Charter, since: nat, created: set<nat>, log: seq<Step>) {
    && (forall k :: since <= k < |log| ==> Upheld(c, log[k].after))
    && (forall k :: since <= k < |log| && log[k].program ==> Allowed(c, created, log[k]))
  }

  /** One more step within bounds. */
  lemma RecordGrows(c: Charter, since: nat, created: set<nat>, created': set<nat>, log: seq<Step>, quiet: bool,
                    held: set<Location>, start: Disk, safe: set<Location>, st: Step)
    requires Chronicle(c, since, created, log) && created <= created' && since <= |log|
    requires Upheld(c, st.after) && (st.program ==> Allowed(c, created', st))
    requires Recorded(log, quiet, held, start, st.before, safe) && held <= st.safe && safe <= st.safe
    requires !st.program ==> !quiet && Drift(st.before, st.after, st.safe)
    ensures Chronicle(c, since, created', log + [st]) && Recorded(log + [st], quiet, held, start, st.after, st.safe)
  {
    hide Upheld, Drift;
    forall k | since <= k < |log| && log[k].program
      ensures Allowed(c, created', log[k])
    {
    }
  }

  /** Every state between the first and the last is on record. */
  ghost predicate Gapless(log: seq<Step>) {
    forall k :: 0 < k < |log| ==> log[k].before == log[k - 1].after && log[k - 1].safe <= log[k].safe
  }

  /** The record leads from `start` to where the disk is, without gaps, and others kept away from safe names. */
  ghost predicate Recorded(log: seq<Step>, quiet: bool, held: set<Location>, start: Disk, disk: Disk,
                           safe: set<Location>)
  {
    && Gapless(log) && (forall k :: 0 <= k < |log| ==> held <= log[k].safe)
    && (forall k :: 0 <= k < |log| && !log[k].program ==> !quiet && Drift(log[k].before, log[k].after, log[k].safe))
    && (log == [] ==> disk == start)
    && (log != [] ==> log[0].before == start && log[|log| - 1].after == disk && log[|log| - 1].safe <= safe)
  }

  lemma CreateKeeps(c: Charter, d: Disk, l: Location, bytes: seq<byte>)
    requires d.Valid() && Upheld(c, d) && (l !in d.dir || l !in c.kept)
    ensures
      var d' := Disk(d.dir[l := File(d.next)], d.content[d.next := bytes], d.next + 1);
      d'.Valid() && Upheld(c, d') && d.next !in d.content && d.next !in c.intact && l !in c.kept
  {
  }

  lemma PutKeeps(c: Charter, d: Disk, l: Location, node: Node)
    requires d.Valid() && Upheld(c, d) && (l !in d.dir || l !in c.kept) && (node.File? ==> node.inode in d.content)
    ensures d.(dir := d.dir[l := node]).Valid() && Upheld(c, d.(dir := d.dir[l := node]))
  {
  }

  lemma MoveKeeps(c: Charter, d: Disk, from: Location, to: Location)
    requires d.Valid() && Upheld(c, d) && from in d.dir && to !in d.dir && from !in c.kept
    ensures
      var d' := d.(dir := (d.dir - {from})[to := d.dir[from]]);
      d'.Valid() && Upheld(c, d')
  {
  }

  lemma RemoveKeeps(c: Charter, d: Disk, l: Location)
    requires d.Valid() && Upheld(c, d) && l !in c.kept
    ensures d.(dir := d.dir - {l}).Valid() && Upheld(c, d.(dir := d.dir - {l}))
  {
  }

  lemma WriteKeeps(c: Charter, d: Disk, inode: nat, bytes: seq<byte>)
    requires d.Valid() && Upheld(c, d) && inode in d.content && inode !in c.intact
    ensures d.(content := d.content[inode := bytes]).Valid() && Upheld(c, d.(content := d.content[inode := bytes]))
  {
  }

  /** A step that changed nothing by itself, or was taken by others. */
  predicate Calm(st: Step) {
    !st.program || st.action == Look || st.action == Sync
  }

  /** From `from` on, the program changed the disk by nothing but these deeds. */
  ghost predicate Deeds(log: seq<Step>, from: nat, deeds: set<Action>) {
    forall k :: from <= k < |log| ==> Calm(log[k]) || log[k].action in deeds
  }

  /** The same for a stretch of the record. */
  ghost predicate Span(log: seq<Step>, from: nat, to: nat, deeds: set<Action>) {
    to <= |log| && forall k :: from <= k < to ==> Calm(log[k]) || log[k].action in deeds
  }

  ghost predicate Prefix(a: seq<Step>, b: seq<Step>) {
    |a| <= |b| && forall k :: 0 <= k < |a| ==> b[k] == a[k]
  }

  lemma DeedsJoin(a: seq<Step>, b: seq<Step>, from: nat, first: set<Action>, second: set<Action>, all: set<Action>)
    requires Prefix(a, b) && Deeds(a, from, first) && Deeds(b, |a|, second) && first + second <= all
    ensures Deeds(b, from, all)
  {
    forall k | from <= k < |b|
      ensures Calm(b[k]) || b[k].action in all
    {
      if k < |a| {
        assert a[k] == b[k];
      }
    }
  }

  /** What was recorded stays recorded. */
  lemma SpanOfDeeds(a: seq<Step>, b: seq<Step>, from: nat, deeds: set<Action>, more: set<Action>)
    requires Prefix(a, b) && Deeds(a, from, deeds) && deeds <= more
    ensures Span(b, from, |a|, more)
  {
    forall k | from <= k < |a|
      ensures Calm(b[k]) || b[k].action in more
    {
      assert a[k] == b[k];
    }
  }

  lemma SpanExtends(log: seq<Step>, from: nat, middle: nat, to: nat, deeds: set<Action>, more: set<Action>,
                    others: set<Action>)
    requires Span(log, from, middle, deeds) && from <= middle <= to && more + others <= deeds
    requires Span(log, middle, to, more) || (to == |log| && Deeds(log, middle, others))
    ensures Span(log, from, to, deeds)
  {
  }

  /** From `from` on the program only wrote to this inode. */
  ghost predicate OnlyWrites(log: seq<Step>, from: nat, inode: nat) {
    forall k :: from <= k < |log| ==> Calm(log[k]) || (log[k].action.Write? && log[k].action.inode == inode)
  }

  lemma WritesJoin(a: seq<Step>, b: seq<Step>, from: nat, inode: nat)
    requires Prefix(a, b) && OnlyWrites(a, from, inode) && OnlyWrites(b, |a|, inode)
    ensures OnlyWrites(b, from, inode)
  {
    forall k | from <= k < |b|
      ensures Calm(b[k]) || (b[k].action.Write? && b[k].action.inode == inode)
    {
      if k < |a| {
        assert a[k] == b[k];
      }
    }
  }

  /** Names others leave alone are as they were, and so is every byte except those of `inode`. */
  ghost predicate SettledBut(a: Disk, b: Disk, safe: set<Location>, inode: nat) {
    && (forall l :: l in safe ==> (l in a.dir <==> l in b.dir) && (l in a.dir ==> b.dir[l] == a.dir[l]))
    && (forall i :: i in a.content && i != inode ==> i in b.content && b.content[i] == a.content[i])
  }

  lemma SettledJoin(a: Disk, b: Disk, c: Disk, safe: set<Location>, inode: nat)
    requires SettledBut(a, b, safe, inode) && SettledBut(b, c, safe, inode)
    ensures SettledBut(a, c, safe, inode)
  {
  }

  lemma NoDeeds(log: seq<Step>)
    ensures Prefix(log, log) && Deeds(log, |log|, {})
  {
  }

  class Volume {
    var disk: Disk
    var owned: set<Location>       // names this program drew at random and still uses
    const held: set<Location>      // names other processes are known to leave alone
    const quiet: bool              // no other process runs
    const reliable: bool           // operations fail only for cause
    ghost const start: Disk        // the disk when the record began
    ghost var charter: Charter
    ghost var since: nat
    ghost var created: set<nat>
    ghost var log: seq<Step>

    ghost predicate Valid()
      reads this
    {
      && disk.Valid() && since <= |log|
      && charter.kept.Keys <= held + owned
      && charter.intact.Keys !! charter.writable
      && charter.intact.Keys !! created
      && Upheld(charter, disk)
      && (forall i :: i in created ==> i in disk.content)
      && Chronicle(charter, since, created, log)
      && Recorded(log, quiet, held, start, disk, held + owned)
    }

    /** What is recorded of a step that ends here. */
    ghost function Now(program: bool, action: Action, before: Disk): Step
      reads this
    {
      Step(program, action, before, disk, held + owned)
    }

    /** The same undertaking, further along. */
    twostate predicate Follows()
      reads this
    {
      && charter == old(charter) && since == old(since)
      && old(created) <= created && old(owned) <= owned && Prefix(old(log), log)
      && old(disk).content.Keys <= disk.content.Keys && old(disk).next <= disk.next
    }

    /** Only others acted since. */
    twostate predicate Observed()
      reads this
    {
      Follows() && owned == old(owned) && created == old(created) && DriftedTo(disk) && Did({})
    }

    /** No byte that was there has changed. */
    twostate predicate Unwritten()
      reads this
    {
      forall i :: i in old(disk).content ==> i in disk.content && disk.content[i] == old(disk).content[i]
    }

    /** The program's deeds since. */
    twostate predicate Did(deeds: set<Action>)
      reads this
    {
      Deeds(log, |old(log)|, deeds)
    }

    twostate predicate DriftedTo(d: Disk)
      reads this
    {
      Drift(old(disk), d, held + old(owned)) && (quiet ==> d == old(disk))
    }

    constructor (disk: Disk, held: set<Location>, quiet: bool, reliable: bool)
      requires disk.Valid()
      ensures Valid() && this.disk == disk == start && this.held == held && this.quiet == quiet
      ensures this.reliable == reliable
      ensures owned == {} && created == {} && log == []
    {
      this.disk, this.start, this.held, this.quiet, this.reliable := disk, disk, held, quiet, reliable;
      owned, created, log, since := {}, {}, [], 0;
      charter := Charter(map[], map[], {}, {});
    }

    /** Starts a new undertaking, of which only the inodes `mine` were created so far. */
    ghost method Adopt(c: Charter, mine: set<nat>)
      requires Valid() && Upheld(c, disk) && mine <= created
      requires c.kept.Keys <= held + owned && c.intact.Keys !! c.writable && c.intact.Keys !! mine
      modifies this`charter, this`since, this`created
      ensures Valid() && charter == c && since == |log| && created == mine
    {
      charter, since, created := c, |log|, mine;
    }

    /** Other processes run for a while. */
    method Interfere()
      requires Valid()
      modifies this`disk, this`log
      ensures Valid() && Observed()
    {
      hide Chronicle, Recorded;
      var turns: int := *;
      while turns > 0 && !quiet
        invariant Valid() && Observed()
        decreases turns
      {
        Disturb();
        turns := turns - 1;
      }
    }

    /** One step of another process: it creates, replaces, links or deletes one name. */
    method Disturb()
      requires Valid() && !quiet
      modifies this`disk, this`log
      ensures Valid() && Observed()
    {
      hide Chronicle, Recorded, Upheld, Disk.Valid;
      var l: Location := *;
      var node: Node := *;
      var deed: int := *;
      var bytes: seq<byte> := *;
      if l in held || l in owned {
        return;
      }
      ghost var before := disk;
      if deed == 0 {
        RemoveKeeps(charter, disk, l);
        disk := disk.(dir := disk.dir - {l});
      } else if deed == 1 {
        CreateKeeps(charter, disk, l, bytes);
        disk := Disk(disk.dir[l := File(disk.next)], disk.content[disk.next := bytes], disk.next + 1);
      } else if !node.File? || node.inode in disk.content {
        PutKeeps(charter, disk, l, node);
        disk := disk.(dir := disk.dir[l := node]);
      }
      RecordGrows(charter, since, created, created, log, quiet, held, start, held + owned,
                  Now(false, Interference, before));
      log := log + [Now(false, Interference, before)];
    }

    // ---------------------------------------------------------- operations that only look

    /** A system call that changes nothing; it may fail without cause. */
    method Look() returns (works: bool)
      requires Valid()
      modifies this`disk, this`log
      ensures Valid() && Observed()
      ensures !works ==> !reliable
    {
      hide Chronicle, Recorded;
      Interfere();
      RecordGrows(charter, since, created, created, log, quiet, held, start, held + owned,
                  Now(true, Action.Look, disk));
      log := log + [Now(true, Action.Look, disk)];
      works := *;
      works := works || reliable;
    }

    /** The node itself, links not followed. */
    method Lstat(l: Location) returns (r: Result<Node>)
      requires Valid()
      modifies this`disk, this`log
      ensures Valid() && Observed()
      ensures r.Ok? ==> l in disk.dir && r.value == disk.dir[l]
      ensures r.Err? ==>
        || (r.error == IoError(NotFound) && l !in disk.dir)
        || (r.error == IoError(OtherIo) && !reliable)
    {
      var works := Look();
      if !works {
        return Err(IoError(OtherIo));
      }
      r := if l in disk.dir then Ok(disk.dir[l]) else Err(IoError(NotFound));
    }

    /** The identity of the file a path leads to, links followed. */
    method Identity(l: Location) returns (r: Result<nat>)
      requires Valid()
      modifies this`disk, this`log
      ensures Valid() && Observed()
      ensures r.Ok? ==> disk.Resolve(l, MAX_LINK_DEPTH) == Some(r.value)
      ensures r.Err? ==> r.error.IoError? && (disk.Resolve(l, MAX_LINK_DEPTH) == None || !reliable)
    {
      var works := Look();
      if !works {
        return Err(IoError(OtherIo));
      }
      match disk.Resolve(l, MAX_LINK_DEPTH)
      case None => r := Err(IoError(NotFound));
      case Some(i) => r := Ok(i);
    }

    /** Whether a path leads to anything, links followed; an error counts as absence. */
    method Exists(l: Location) returns (there: bool)
      requires Valid()
      modifies this`disk, this`log
      ensures Valid() && Observed()
      ensures there ==> l in disk.dir
      ensures reliable ==> there == disk.Reaches(l, MAX_LINK_DEPTH)
    {
      var works := Look();
      there := works && disk.Reaches(l, MAX_LINK_DEPTH);
    }

    /** Opens a regular file without following a final link. */
    method OpenNoFollow(l: Location) returns (r: Result<nat>)
      requires Valid()
      modifies this`disk, this`log
      ensures Valid() && Observed()
      ensures r.Ok? ==> l in disk.dir && disk.dir[l] == File(r.value) && r.value in disk.content
      ensures r.Err? ==> r.error.IoError? && (l !in disk.dir || !disk.dir[l].File? || !reliable)
    {
      var works := Look();
      if !works {
        return Err(IoError(OtherIo));
      }
      if l !in disk.dir {
        return Err(IoError(NotFound));
      }
      r := if disk.dir[l].File? then Ok(disk.dir[l].inode) else Err(IoError(OtherIo));
    }

    /** How many names an open file has. */
    method LinkCount(inode: nat) returns (r: Result<nat>)
      requires Valid()
      modifies this`disk, this`log
      ensures Valid() && Observed()
      ensures r.Ok? ==> r.value == |disk.Names(inode)|
      ensures r.Err? ==> r.error == IoError(OtherIo) && !reliable
    {
      var works := Look();
      r := if works then Ok(|disk.Names(inode)|) else Err(IoError(OtherIo));
    }

    /** Flushes a file or a directory to the device. */
    method SyncAll() returns (r: Result<()>)
      requires Valid()
      modifies this`disk, this`log
      ensures Valid() && Observed()
      ensures r.Err? ==> r.error == IoError(OtherIo) && !reliable
      ensures r.Ok? ==> |log| > |old(log)| && log[|log| - 1].program && log[|log| - 1].action == Sync
    {
      hide Chronicle, Recorded;
      var works := Look();
      if !works {
        return Err(IoError(OtherIo));
      }
      RecordGrows(charter, since, created, created, log, quiet, held, start, held + owned, Now(true, Sync, disk));
      log := log + [Now(true, Sync, disk)];
      r := Ok(());
    }

    // ---------------------------------------------------------- operations that change the directory

    /** Creates an empty file under a name that must not exist. */
    method CreateNew(l: Location) returns (r: Result<nat>, ghost pre: Disk)
      requires Valid()
      modifies this`disk, this`owned, this`created, this`log
      ensures Valid() && Follows() && DriftedTo(pre) && Did(if r.Ok? then {Make(l)} else {})
      ensures r.Ok? ==>
        && l !in pre.dir && r.value !in pre.content && created == old(created) + {r.value}
        && owned == old(owned) + {l} && l !in charter.kept
        && disk == Disk(pre.dir[l := File(r.value)], pre.content[r.value := []], r.value + 1)
      ensures r.Err? ==> disk == pre && owned == old(owned) && created == old(created)
      ensures r.Err? ==>
        || (r.error == IoError(AlreadyExists) && l in pre.dir)
        || (r.error == IoError(OtherIo) && !reliable)
    {
      hide Chronicle, Recorded, Upheld, Disk.Valid;
      var works := Look();
      pre := disk;
      if !works {
        return Err(IoError(OtherIo)), pre;
      }
      if l in disk.dir {
        return Err(IoError(AlreadyExists)), pre;
      }
      CreateKeeps(charter, disk, l, []);
      var inode := disk.next;
      disk := Disk(disk.dir[l := File(inode)], disk.content[inode := []], inode + 1);
      ghost var safe := held + owned;
      owned := owned + {l};
      RecordGrows(charter, since, created, created + {inode}, log, quiet, held, start, safe, Now(true, Make(l), pre));
      created := created + {inode};
      log := log + [Now(true, Make(l), pre)];
      r := Ok(inode);
    }

    method MakeDirectory(l: Location) returns (r: Result<()>, ghost pre: Disk)
      requires Valid()
      modifies this`disk, this`log
      ensures Valid() && Follows() && DriftedTo(pre) && owned == old(owned) && created == old(created)
      ensures Did({Make(l)})
      ensures r.Ok? ==> l !in pre.dir && disk == pre.(dir := pre.dir[l := Directory])
      ensures r.Err? ==> disk == pre
      ensures r.Err? ==>
        || (r.error == IoError(AlreadyExists) && l in pre.dir)
        || (r.error == IoError(OtherIo) && !reliable)
    {
      hide Chronicle, Recorded, Upheld, Disk.Valid;
      var works := Look();
      pre := disk;
      if !works {
        return Err(IoError(OtherIo)), pre;
      }
      if l in disk.dir {
        return Err(IoError(AlreadyExists)), pre;
      }
      PutKeeps(charter, disk, l, Directory);
      disk := disk.(dir := disk.dir[l := Directory]);
      RecordGrows(charter, since, created, created, log, quiet, held, start, held + owned, Now(true, Make(l), pre));
      log := log + [Now(true, Make(l), pre)];
      r := Ok(());
    }

    /** The atomic rename that never replaces: it fails when the new name exists. */
    method RenameNoReplace(from: Location, to: Location, own: bool) returns (r: Result<()>, ghost pre: Disk)
      requires Valid() && from !in charter.kept
      modifies this`disk, this`owned, this`log
      ensures Valid() && Follows() && DriftedTo(pre) && created == old(created)
      ensures Did(if r.Ok? then {Renaming(from, to, own)} else {})
      ensures r.Ok? ==>
        && from in pre.dir && to !in pre.dir
        && disk == pre.(dir := (pre.dir - {from})[to := pre.dir[from]])
        && owned == old(owned) + (if own then {to} else {})
        && |log| > |old(log)| && log[|log| - 1] == Now(true, Renaming(from, to, own), pre)
      ensures r.Err? ==> disk == pre && owned == old(owned)
      ensures r.Err? ==>
        || (r.error == IoError(AlreadyExists) && to in pre.dir)
        || (r.error == IoError(NotFound) && from !in pre.dir)
        || (r.error == IoError(OtherIo) && !reliable)
    {
      hide Chronicle, Recorded, Upheld, Disk.Valid;
      var works := Look();
      pre := disk;
      if !works {
        return Err(IoError(OtherIo)), pre;
      }
      if from !in disk.dir {
        return Err(IoError(NotFound)), pre;
      }
      if to in disk.dir {
        return Err(IoError(AlreadyExists)), pre;
      }
      MoveKeeps(charter, disk, from, to);
      disk := disk.(dir := (disk.dir - {from})[to := disk.dir[from]]);
      ghost var safe := held + owned;
      owned := owned + (if own then {to} else {});
      RecordGrows(charter, since, created, created, log, quiet, held, start, safe,
                  Now(true, Renaming(from, to, own), pre));
      log := log + [Now(true, Renaming(from, to, own), pre)];
      r := Ok(());
    }

    /** Removes one name; the caller vouches for what is behind it. */
    method Unlink(l: Location) returns (r: Result<()>, ghost pre: Disk)
      requires Valid() && l !in charter.kept && l in owned
      requires l in disk.dir && disk.dir[l].File? ==> disk.dir[l].inode in charter.removable + created
      modifies this`disk, this`log
      ensures Valid() && Follows() && DriftedTo(pre) && created == old(created) && owned == old(owned)
      ensures Did(if r.Ok? then {Action.Remove(l)} else {})
      ensures r.Ok? ==>
        && l in pre.dir && !pre.dir[l].Directory? && disk == pre.(dir := pre.dir - {l})
        && |log| > |old(log)| && log[|log| - 1] == Now(true, Action.Remove(l), pre)
        && (forall k :: |old(log)| <= k < |log| - 1 ==> Calm(log[k]))
      ensures r.Err? ==> disk == pre
      ensures r.Err? ==> r.error.IoError? && (l !in pre.dir || pre.dir[l].Directory? || !reliable)
    {
      hide Chronicle, Recorded, Upheld, Disk.Valid;
      var works := Look();
      pre := disk;
      if !works {
        return Err(IoError(OtherIo)), pre;
      }
      if l !in disk.dir {
        return Err(IoError(NotFound)), pre;
      }
      if disk.dir[l].Directory? {
        return Err(IoError(OtherIo)), pre;
      }
      RemoveKeeps(charter, disk, l);
      disk := disk.(dir := disk.dir - {l});
      RecordGrows(charter, since, created, created, log, quiet, held, start, held + owned,
                  Now(true, Action.Remove(l), pre));
      log := log + [Now(true, Action.Remove(l), pre)];
      r := Ok(());
    }

    // ---------------------------------------------------------- writing through an open file

    /** Writes `data` at `offset`, or fails after writing some prefix of it. */
    method WriteAt(inode: nat, offset: nat, data: seq<byte>) returns (r: Result<()>, ghost pre: Disk)
      requires Valid() && inode in disk.content && offset <= |disk.content[inode]|
      requires inode in charter.writable + created
      modifies this`disk, this`log
      ensures Valid() && Follows() && DriftedTo(pre) && created == old(created) && owned == old(owned)
      ensures Did({Write(inode, offset, |data|)}) && pre.content[inode] == old(disk).content[inode]
      ensures exists n :: (
        && 0 <= n <= |data| && (r.Ok? ==> n == |data|)
        && disk == pre.(content := pre.content[inode := Patched(pre.content[inode], offset, data[..n])]))
      ensures r.Err? ==> r.error == IoError(OtherIo) && !reliable
      ensures |log| > |old(log)| && log[|log| - 1] == Now(true, Write(inode, offset, |data|), pre)
      ensures forall k :: |old(log)| <= k < |log| - 1 ==> Calm(log[k])
    {
      hide Chronicle, Recorded, Upheld, Disk.Valid;
      var works := Look();
      var n: int := *;
      n := if works then |data| else if 0 <= n <= |data| then n else 0;
      pre := disk;
      WriteKeeps(charter, disk, inode, Patched(disk.content[inode], offset, data[..n]));
      disk := disk.(content := disk.content[inode := Patched(disk.content[inode], offset, data[..n])]);
      RecordGrows(charter, since, created, created, log, quiet, held, start, held + owned,
                  Now(true, Write(inode, offset, |data|), pre));
      log := log + [Now(true, Write(inode, offset, |data|), pre)];
      r := if works then Ok(()) else Err(IoError(OtherIo));
    }
  }

  /** `old` with `data` written over it at `offset`, growing it if necessary. */
  function Patched(old_: seq<byte>, offset: nat, data: seq<byte>): (b: seq<byte>)
    requires offset <= |old_|
    ensures offset + |data| <= |old_| ==> |b| == |old_|
  {
    old_[..offset] + data + (if offset + |data| < |old_| then old_[offset + |data|..] else [])
  }
}
