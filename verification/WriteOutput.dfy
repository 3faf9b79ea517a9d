/** Writing to the staged file, in pieces of any size. */
module WriteOutput {
  import opened Bytes
  import opened Results
  import opened FileSystem
  import opened AtomicOutput

  method WritePiece(o: Output, piece: seq<byte>) returns (r: Result<()>)
    requires o.Valid() && o.Staged()
    modifies o.volume`disk, o.volume`log
    ensures o.Valid() && o.Staged() && o.volume.Follows()
    ensures o.volume.owned == old(o.volume.owned) && o.volume.created == old(o.volume.created)
    ensures OnlyWrites(o.volume.log, |old(o.volume.log)|, o.inode)
    ensures SettledBut(old(o.volume.disk), o.volume.disk, o.volume.held + o.volume.owned, o.inode)
    ensures var before, after := old(o.volume.disk).content[o.inode], o.volume.disk.content[o.inode];
      before <= after <= before + piece && (r.Ok? ==> after == before + piece)
    ensures r.Err? ==> r.error == IoError(OtherIo) && !o.volume.reliable
    ensures o.volume.quiet ==> o.volume.disk.dir == old(o.volume.disk).dir
  {
    hide Chronicle, Recorded, Upheld;
    ghost var before := o.volume.disk.content[o.inode];
    ghost var pre;
    r, pre := o.volume.WriteAt(o.inode, |o.volume.disk.content[o.inode]|, piece);
    ghost var n :| 0 <= n <= |piece| && (r.Ok? ==> n == |piece|)
      && o.volume.disk == pre.(content := pre.content[o.inode := Patched(pre.content[o.inode], |before|, piece[..n])]);
    assert Patched(before, |before|, piece[..n]) == before + piece[..n];
  }

  lemma NothingWritten(d: Disk, log: seq<Step>, safe: set<Location>, inode: nat)
    ensures SettledBut(d, d, safe, inode) && OnlyWrites(log, |log|, inode)
  {
  }

  /** What leaves the buffered writer: all of `data`, or on failure some prefix of it. */
  method WriteOut(o: Output, data: seq<byte>) returns (r: Result<()>)
    requires o.Valid() && o.Staged()
    modifies o.volume`disk, o.volume`log
    ensures o.Valid() && o.Staged() && o.volume.Follows()
    ensures o.volume.owned == old(o.volume.owned) && o.volume.created == old(o.volume.created)
    ensures OnlyWrites(o.volume.log, |old(o.volume.log)|, o.inode)
    ensures SettledBut(old(o.volume.disk), o.volume.disk, o.volume.held + o.volume.owned, o.inode)
    ensures var before, after := old(o.volume.disk).content[o.inode], o.volume.disk.content[o.inode];
      before <= after <= before + data && (r.Ok? ==> after == before + data)
    ensures r.Err? ==> r.error == IoError(OtherIo) && !o.volume.reliable
    ensures o.volume.quiet ==> o.volume.disk.dir == old(o.volume.disk).dir
  {
    hide Volume.Valid, Output.Staged, OnlyWrites, SettledBut;
    ghost var disk0, log0, before := o.volume.disk, o.volume.log, o.volume.disk.content[o.inode];
    NothingWritten(disk0, log0, o.volume.held + o.volume.owned, o.inode);
    var done := 0;
    while done < |data|
      invariant 0 <= done <= |data| && o.Valid() && o.Staged() && o.volume.Follows()
      invariant o.volume.owned == old(o.volume.owned) && o.volume.created == old(o.volume.created)
      invariant OnlyWrites(o.volume.log, |old(o.volume.log)|, o.inode)
      invariant SettledBut(old(o.volume.disk), o.volume.disk, o.volume.held + o.volume.owned, o.inode)
      invariant o.volume.disk.content[o.inode] == before + data[..done]
      invariant o.volume.quiet ==> o.volume.disk.dir == old(o.volume.disk).dir
    {
      var wanted: int := *;
      var amount := if 1 <= wanted <= |data| - done then wanted else |data| - done;
      assert data[..done] + data[done..done + amount] == data[..done + amount];
      ghost var disk1, log1 := o.volume.disk, o.volume.log;
      r := WritePiece(o, data[done..done + amount]);
      WritesJoin(log1, o.volume.log, |log0|, o.inode);
      SettledJoin(disk0, disk1, o.volume.disk, o.volume.held + o.volume.owned, o.inode);
      if r.Err? {
        return;
      }
      done := done + amount;
    }
    r := Ok(());
  }
}
