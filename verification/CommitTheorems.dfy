/** What the record of a commit, or of any undertaking, says about files that were there before. */
module CommitTheorems {
  import opened Results
  import opened FileSystem
  import opened Names
  import opened Quarantine
  import opened AtomicOutput

  /** No step of the program takes the last name of an inode it neither created nor had leave to remove,
      and none changes bytes it had no leave to write. */
  lemma ProgramDestroysNothing(c: Charter, since: nat, created: set<nat>, log: seq<Step>, k: nat, inode: nat)
    requires Chronicle(c, since, created, log) && since <= k < |log| && log[k].program
    ensures inode !in c.removable + created && log[k].before.Linked(inode) ==> log[k].after.Linked(inode)
    ensures inode !in c.writable + created && inode in log[k].before.content ==>
      inode in log[k].after.content && log[k].after.content[inode] == log[k].before.content[inode]
  {
    var st := log[k];
    assert Allowed(c, created, st);
    if inode !in c.removable + created && st.before.Linked(inode) {
      var l :| l in st.before.dir && st.before.dir[l] == File(inode);
      if (st.action.Move? || st.action.SetAside?) && l == st.action.from {
        assert st.after.dir[st.action.to] == File(inode);
      } else {
        assert l in st.after.dir && st.after.dir[l] == File(inode);
      }
    }
  }

  /** No step of the program replaces what a name stands for: a name is only ever given when it is free. */
  lemma ProgramReplacesNothing(c: Charter, since: nat, created: set<nat>, log: seq<Step>, k: nat, l: Location)
    requires Chronicle(c, since, created, log) && since <= k < |log| && log[k].program
    ensures l in log[k].before.dir && l in log[k].after.dir ==> log[k].after.dir[l] == log[k].before.dir[l]
  {
    assert Allowed(c, created, log[k]);
  }

  // ------------------------------------------------------------ staying in reach

  /** The node is at the destination, or under the private name where others leave it alone. */
  ghost predicate InReach(d: Disk, safe: set<Location>, destination: Location, away: Location, node: Node) {
    || (destination in d.dir && d.dir[destination] == node)
    || (away in safe && away in d.dir && d.dir[away] == node)
  }

  ghost predicate StaysInReach(st: Step, destination: Location, away: Location, node: Node) {
    InReach(st.before, st.safe, destination, away, node) ==> InReach(st.after, st.safe, destination, away, node)
  }

  /** All that happens in a commit until it has settled. */
  function CommitDeeds(destination: Location, temp: Location, away: Location): set<Action> {
    InstallDeeds(destination, temp, away) + {Action.Remove(temp)}
  }

  /** What happens after that. */
  function SettledDeeds(destination: Location, away: Location): set<Action> {
    {Action.Remove(away), Action.Move(away, destination)}
  }

  /** A step of a commit that does not delete the node from under its private name. */
  ghost predicate Spares(st: Step, destination: Location, temp: Location, away: Location, node: Node) {
    && (Calm(st) || st.action in CommitDeeds(destination, temp, away) + SettledDeeds(destination, away))
    && (st.program && st.action == Action.Remove(away) && away in st.before.dir ==> st.before.dir[away] != node)
  }

  /** Such a step, the program's own or another's where the destination is left alone, keeps the node in reach. */
  lemma SparedStaysInReach(c: Charter, created: set<nat>, st: Step, destination: Location, temp: Location,
                           away: Location, node: Node)
    requires st.program ==> Allowed(c, created, st)
    requires !st.program ==> Drift(st.before, st.after, st.safe) && destination in st.safe
    requires Spares(st, destination, temp, away, node) && temp != destination && temp != away
    ensures StaysInReach(st, destination, away, node)
  {
    if st.program {
      assert Calm(st) || st.action in {Action.SetAside(destination, away), Action.Move(away, destination),
                                       Action.Move(temp, destination), Action.Remove(temp), Action.Remove(away)};
    } else if InReach(st.before, st.safe, destination, away, node) {
      assert destination in st.before.dir ==> st.after.dir[destination] == st.before.dir[destination];
      assert away in st.safe && away in st.before.dir ==> st.after.dir[away] == st.before.dir[away];
    }
  }

  /** Step by step. */
  lemma {:induction false} ReachableThroughout(log: seq<Step>, from: nat, destination: Location, away: Location,
                                              node: Node, k: nat)
    requires Gapless(log) && from <= k < |log| && InReach(log[from].before, log[from].safe, destination, away, node)
    requires forall j :: from <= j <= k ==> StaysInReach(log[j], destination, away, node)
    ensures InReach(log[k].after, log[k].safe, destination, away, node)
    decreases k
  {
    assert StaysInReach(log[k], destination, away, node);
    if k > from {
      ReachableThroughout(log, from, destination, away, node, k - 1);
    }
  }

  /** Neither the approved file nor one of the program's own, nor a link. */
  predicate Stranger(c: Charter, created: set<nat>, node: Node) {
    !node.Symlink? && (node.File? ==> node.inode !in c.removable + created)
  }

  /** What a finished commit has on record about deletions. */
  ghost predicate CommitRecord(log: seq<Step>, from: nat, destination: Location, temp: Location, rep: Report) {
    && from <= rep.settledAt <= |log| && temp != destination && temp != rep.away
    && Span(log, from, rep.settledAt, CommitDeeds(destination, temp, rep.away))
    && (rep.settledAt < |log| ==>
          && Deeds(log, rep.settledAt, SettledDeeds(destination, rep.away))
          && if rep.moved.Some? then RemovesOnly(log, rep.settledAt, rep.away, rep.moved.value)
             else Deeds(log, rep.settledAt, {}))
  }

  /** Until it has settled a commit spares everything, and after that everything except what it had moved aside. */
  lemma CommitSpares(log: seq<Step>, from: nat, destination: Location, temp: Location, rep: Report, k: nat, node: Node)
    requires CommitRecord(log, from, destination, temp, rep) && from <= k < |log|
    requires k < rep.settledAt || rep.moved != Some(node)
    ensures Spares(log[k], destination, temp, rep.away, node)
  {
    assert k < rep.settledAt ==> Calm(log[k]) || log[k].action in CommitDeeds(destination, temp, rep.away);
    assert k >= rep.settledAt ==> Calm(log[k]) || log[k].action in SettledDeeds(destination, rep.away);
  }

  // ------------------------------------------------------------ commits

  /** A commit among arbitrary failures and beside any other processes.  Until the new file is synced, installed and
      its directory synced, no step of the program puts anything out of reach that is at the destination or under the
      private name, and where others leave the destination alone the old file is in reach at every recorded moment.
      After that the same holds of whatever is no link and not the approved file. */
  method CommitKeepsOld(o: Output) returns (r: Result<Location>, ghost rep: Report)
    requires o.Valid() && o.Staged() && !o.committed
    requires o.observed.Some? ==> o.observed.value in o.volume.charter.removable
    modifies o`file, o`committed, o.volume`disk, o.volume`owned, o.volume`log
    ensures o.Valid() && |old(o.volume.log)| <= rep.settledAt <= |o.volume.log|
    ensures forall k, node ::
      && |old(o.volume.log)| <= k < |o.volume.log|
      && (o.volume.log[k].program || o.destination in o.volume.held)
      && (k < rep.settledAt || Stranger(o.volume.charter, o.volume.created, node))
      ==> StaysInReach(o.volume.log[k], o.destination, rep.away, node)
    ensures o.destination in o.volume.held && o.destination in old(o.volume.disk).dir ==>
      forall k ::
        && |old(o.volume.log)| <= k < |o.volume.log|
        && (k < rep.settledAt
            || Stranger(o.volume.charter, o.volume.created, old(o.volume.disk).dir[o.destination]))
        ==> InReach(o.volume.log[k].after, o.volume.log[k].safe, o.destination, rep.away,
                    old(o.volume.disk).dir[o.destination])
    ensures rep.settledAt < |o.volume.log| ==>
      && rep.installedAt.Some? && rep.installedAt.value < rep.settledAt - 1
      && o.SyncedAt(rep.syncedAt) && rep.syncedAt < rep.installedAt.value && o.SyncedAt(rep.settledAt - 1)
      && o.InstalledBy(o.volume.log[rep.installedAt.value], old(o.volume.disk).content[o.inode])
  {
    hide Chronicle, Recorded, Deeds, Span, Output.InstalledBy, Output.SyncedAt, Untouched, InstallDeeds, InReach,
         RemovesOnly, Output.Approved, Stranger, Upheld;
    ghost var log0, disk0, safe0 := o.volume.log, o.volume.disk, o.volume.held + o.volume.owned;
    r, rep := o.Commit();
    ghost var v := o.volume;
    assert CommitRecord(v.log, |log0|, o.destination, o.tempPath, rep);
    forall k, node {:trigger StaysInReach(v.log[k], o.destination, rep.away, node)}
      | |log0| <= k < |v.log| && (v.log[k].program || o.destination in v.held)
        && (k < rep.settledAt || Stranger(v.charter, v.created, node))
      ensures StaysInReach(v.log[k], o.destination, rep.away, node)
    {
      if k >= rep.settledAt {
        StrangerWasNotMoved(v.charter, v.created, rep.moved, o.observed, node);
      }
      CommitSpares(v.log, |log0|, o.destination, o.tempPath, rep, k, node);
      StepOnRecord(v, k);
      SparedStaysInReach(v.charter, v.created, v.log[k], o.destination, o.tempPath, rep.away, node);
    }
    if o.destination in v.held && o.destination in disk0.dir {
      ghost var old_ := disk0.dir[o.destination];
      forall k | |log0| <= k < |v.log| && (k < rep.settledAt || Stranger(v.charter, v.created, old_))
        ensures InReach(v.log[k].after, v.log[k].safe, o.destination, rep.away, old_)
      {
        NextBegins(log0, v.log, v.quiet, v.held, v.start, disk0, safe0, v.disk, v.held + v.owned);
        AtDestination(v.log[|log0|].before, v.log[|log0|].safe, o.destination, rep.away, old_);
        assert Gapless(v.log) by { StepOnRecord(v, k); }
        ReachableThroughout(v.log, |log0|, o.destination, rep.away, old_, k);
      }
    }
  }

  lemma StepOnRecord(v: Volume, k: nat)
    requires v.Valid() && v.since <= k < |v.log|
    ensures Gapless(v.log) && v.held <= v.log[k].safe
    ensures if v.log[k].program then Allowed(v.charter, v.created, v.log[k])
            else Drift(v.log[k].before, v.log[k].after, v.log[k].safe)
  {
    hide Allowed, Drift, Upheld;
  }

  lemma StrangerWasNotMoved(c: Charter, created: set<nat>, moved: Option<Node>, approved: Option<nat>, node: Node)
    requires moved.Some? ==>
      && approved.Some? && approved.value in c.removable
      && (moved.value == File(approved.value) <==> !moved.value.Symlink?)
    requires Stranger(c, created, node)
    ensures moved != Some(node)
  {
  }

  lemma NextBegins(a: seq<Step>, b: seq<Step>, quiet: bool, held: set<Location>, start: Disk, disk: Disk,
                   safe: set<Location>, disk': Disk, safe': set<Location>)
    requires Recorded(a, quiet, held, start, disk, safe) && Recorded(b, quiet, held, start, disk', safe')
    requires Prefix(a, b) && |a| < |b|
    ensures b[|a|].before == disk
  {
    if a != [] {
      assert b[|a| - 1] == a[|a| - 1];
    }
  }

  lemma AtDestination(d: Disk, safe: set<Location>, destination: Location, away: Location, node: Node)
    requires destination in d.dir && d.dir[destination] == node
    ensures InReach(d, safe, destination, away, node)
  {
  }

  // ------------------------------------------------------------ a link in the approved file's place

  /** If the destination has been replaced by a link that leads to the approved file, the commit goes through and the
      link, not the file, is what it deletes. */
  method CommitDeletesLink(o: Output, approved: nat) returns (r: Result<Location>)
    requires o.Valid() && o.Staged() && !o.committed && o.observed == Some(approved)
    requires o.volume.quiet && o.volume.reliable && approved in o.volume.charter.removable
    requires o.Approved(approved) && o.volume.disk.dir[o.destination].Symlink?
    modifies o`file, o`committed, o.volume`disk, o.volume`owned, o.volume`log
    ensures r.Ok? || (r.error == SecureDeletionFailed && !NoPrivateNames(old(o.volume.disk), Parent(o.destination)))
    ensures r.Ok? ==>
      && r.value == o.destination
      && o.volume.disk.dir == (old(o.volume.disk).dir - {o.tempPath})[o.destination := File(o.inode)]
      && (forall l :: l in old(o.volume.disk).dir && old(o.volume.disk).dir[l] == File(approved) ==>
            l == o.tempPath || (l in o.volume.disk.dir && o.volume.disk.dir[l] == File(approved)))
      && exists away :: Removed(o.volume.log, |old(o.volume.log)|, away, old(o.volume.disk).dir[o.destination])
  {
    hide Chronicle, Recorded, Deeds, Span, Output.InstalledBy, Output.SyncedAt, Untouched, InstallDeeds, RemovesOnly,
         Removed, NoPrivateNames, Upheld, Output.Approved;
    ghost var from := |o.volume.log|;
    ghost var rep;
    r, rep := o.Commit();
    if r.Ok? {
      RemovedSince(o.volume.log, rep.settledAt, from, rep.away, rep.moved.value);
    }
  }

  lemma RemovedSince(log: seq<Step>, later: nat, from: nat, at: Location, node: Node)
    requires Removed(log, later, at, node) && from <= later
    ensures Removed(log, from, at, node)
  {
  }

  const APPROVED_FILE: Location := [[0x61]]
  const REPLACED_BY_LINK: Location := [[0x62]]
  const STAGED_FILE: Location := [[0x63]]

  /** `b`, approved when it was the file, has become a link to it. */
  method StageOverLink() returns (o: Output)
    ensures fresh(o) && fresh(o.volume) && o.volume.quiet && o.volume.reliable
    ensures o.Valid() && o.Staged() && !o.committed && o.observed == Some(0) && 0 in o.volume.charter.removable
    ensures o.destination == REPLACED_BY_LINK && o.tempPath == STAGED_FILE && o.inode != 0
    ensures o.volume.disk.dir ==
      map[APPROVED_FILE := File(0), REPLACED_BY_LINK := Symlink(APPROVED_FILE), STAGED_FILE := File(o.inode)]
  {
    hide Chronicle, Recorded;
    var disk := Disk(map[APPROVED_FILE := File(0), REPLACED_BY_LINK := Symlink(APPROVED_FILE)], map[0 := [0x2A]], 1);
    var volume := new Volume(disk, {}, true, true);
    ghost var pre;
    var made;
    made, pre := volume.CreateNew(STAGED_FILE);
    volume.Adopt(Charter(map[], map[], {0}, {}), {made.value});
    o := new Output(volume, REPLACED_BY_LINK, STAGED_FILE, made.value, Some(0));
  }

  lemma LinkIsApproved(d: Disk, inode: nat)
    requires d.dir ==
      map[APPROVED_FILE := File(0), REPLACED_BY_LINK := Symlink(APPROVED_FILE), STAGED_FILE := File(inode)]
    ensures d.Resolve(REPLACED_BY_LINK, MAX_LINK_DEPTH) == Some(0) && NoPrivateNames(d, Parent(REPLACED_BY_LINK))
  {
    hide Hex;
    assert d.Resolve(APPROVED_FILE, MAX_LINK_DEPTH - 1) == Some(0);
    assert Parent(REPLACED_BY_LINK) == [];
    forall a, b
      ensures [] + [TempName(a, b)] !in d.dir
    {
      assert |([] + [TempName(a, b)])[0]| > 1;
      assert |APPROVED_FILE[0]| == |REPLACED_BY_LINK[0]| == |STAGED_FILE[0]| == 1;
    }
  }

  /** The commit succeeds, the link is deleted, and the file is still there under its other name. */
  method DeletedLink() returns (volume: Volume, r: Result<Location>)
    ensures r == Ok(REPLACED_BY_LINK)
    ensures exists inode ::
      inode != 0 && volume.disk.dir == map[APPROVED_FILE := File(0), REPLACED_BY_LINK := File(inode)]
    ensures exists away :: Removed(volume.log, 0, away, Symlink(APPROVED_FILE))
  {
    hide Chronicle, Recorded, Removed, NoPrivateNames, Disk.Resolve, Upheld;
    var o := StageOverLink();
    volume := o.volume;
    ghost var from := |volume.log|;
    LinkIsApproved(volume.disk, o.inode);
    r := CommitDeletesLink(o, 0);
    ghost var away :| Removed(volume.log, from, away, Symlink(APPROVED_FILE));
    RemovedSince(volume.log, from, 0, away, Symlink(APPROVED_FILE));
  }

  /** A failed commit leaves the destination as it was exactly if nothing waits under the private name. */
  lemma UntouchedExactly(d0: Disk, d: Disk, destination: Location, away: Location)
    requires Untouched(d0, d, destination, away)
    ensures PutBack(d, destination, away) <==>
      ((destination in d0.dir <==> destination in d.dir)
       && (destination in d.dir ==> d.dir[destination] == d0.dir[destination]))
  {
  }
}
