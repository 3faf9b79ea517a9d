/** The three overwriting passes of best-effort deletion. */
module Overwrite {
  import opened Bytes
  import opened Results
  import opened FileSystem

  const OVERWRITE_BUFFER_SIZE: nat := 1024 * 1024

  datatype Piece = Piece(offset: nat, amount: nat)

  /** The pieces of one pass over `offset..size`. */
  function PassFrom(size: nat, offset: nat): (p: seq<Piece>)
    decreases size - offset
  {
    if offset >= size then []
    else
      var amount := if size - offset < OVERWRITE_BUFFER_SIZE then size - offset else OVERWRITE_BUFFER_SIZE;
      [Piece(offset, amount)] + PassFrom(size, offset + amount)
  }

  predicate Covers(p: Piece, position: nat) {
    p.offset <= position < p.offset + p.amount
  }

  /** A pass writes every position exactly once, nothing beyond the end, and no more than 1 MiB at a time. */
  lemma {:induction false} PassCoversOnce(size: nat, offset: nat, position: nat)
    ensures forall p :: p in PassFrom(size, offset) ==>
      1 <= p.amount <= OVERWRITE_BUFFER_SIZE && offset <= p.offset && p.offset + p.amount <= size
    ensures offset <= position < size ==> exists i ::
      && 0 <= i < |PassFrom(size, offset)| && Covers(PassFrom(size, offset)[i], position)
      && forall j :: 0 <= j < |PassFrom(size, offset)| && Covers(PassFrom(size, offset)[j], position) ==> j == i
    decreases size - offset
  {
    if offset < size {
      var all := PassFrom(size, offset);
      var first := all[0];
      var next := offset + first.amount;
      var rest := PassFrom(size, next);
      assert all == [first] + rest;
      PassCoversOnce(size, next, position);
      if next <= position < size {
        var i :| 0 <= i < |rest| && Covers(rest[i], position)
          && forall j :: 0 <= j < |rest| && Covers(rest[j], position) ==> j == i;
        assert Covers(all[i + 1], position);
        forall j | 0 <= j < |all| && Covers(all[j], position)
          ensures j == i + 1
        {
          assert j > 0;
          assert Covers(rest[j - 1], position);
        }
      } else if offset <= position < next {
        assert Covers(all[0], position);
        forall j | 0 < j < |all|
          ensures !Covers(all[j], position)
        {
          assert all[j] == rest[j - 1] && rest[j - 1] in rest;
        }
      }
    }
  }

  function ThreePasses(size: nat): seq<Piece> {
    PassFrom(size, 0) + PassFrom(size, 0) + PassFrom(size, 0)
  }

  /** The writes on record since `from`, in order. */
  ghost function Writes(log: seq<Step>, from: nat): seq<Piece>
    decreases |log|
  {
    if |log| <= from then []
    else
      var last := log[|log| - 1];
      Writes(log[..|log| - 1], from) +
      (if last.program && last.action.Write? then [Piece(last.action.offset, last.action.amount)] else [])
  }

  lemma {:induction false} WritesCalm(a: seq<Step>, b: seq<Step>, from: nat)
    requires Prefix(a, b) && Deeds(b, |a|, {}) && from <= |a|
    ensures Writes(b, from) == Writes(a, from)
    decreases |b|
  {
    if |a| == |b| {
      assert a == b;
    } else {
      assert Calm(b[|b| - 1]);
      WritesCalm(a, b[..|b| - 1], from);
    }
  }

  lemma WritesOne(a: seq<Step>, b: seq<Step>, from: nat)
    requires Prefix(a, b) && from <= |a| < |b|
    requires forall k :: |a| <= k < |b| - 1 ==> Calm(b[k])
    requires b[|b| - 1].program && b[|b| - 1].action.Write?
    ensures Writes(b, from) == Writes(a, from) + [Piece(b[|b| - 1].action.offset, b[|b| - 1].action.amount)]
  {
    WritesCalm(a, b[..|b| - 1], from);
  }

  /** Between the two records exactly these pieces were written, in this order. */
  ghost predicate Wrote(a: seq<Step>, b: seq<Step>, pieces: seq<Piece>) {
    forall from :: 0 <= from <= |a| ==> Writes(b, from) == Writes(a, from) + pieces
  }

  lemma WroteNothing(a: seq<Step>, b: seq<Step>)
    requires Prefix(a, b) && Deeds(b, |a|, {})
    ensures Wrote(a, b, [])
  {
    forall from | 0 <= from <= |a|
      ensures Writes(b, from) == Writes(a, from) + []
    {
      WritesCalm(a, b, from);
    }
  }

  lemma WroteMore(a: seq<Step>, b: seq<Step>, c: seq<Step>, p: seq<Piece>, q: seq<Piece>)
    requires Wrote(a, b, p) && Wrote(b, c, q) && |a| <= |b|
    ensures Wrote(a, c, p + q)
  {
    hide Writes;
    forall from | 0 <= from <= |a|
      ensures Writes(c, from) == Writes(a, from) + (p + q)
    {
      assert Writes(a, from) + p + q == Writes(a, from) + (p + q);
    }
  }

  method RandomBytes(n: nat) returns (b: seq<byte>)
    ensures |b| == n
  {
    b := *;
    if |b| != n {
      b := seq(n, i => 0);
    }
  }

  /** Only this inode was written, and it kept its length. */
  ghost predicate Scrubbed(a: Disk, b: Disk, safe: set<Location>, inode: nat) {
    && SettledBut(a, b, safe, inode)
    && (inode in a.content ==> inode in b.content && |b.content[inode]| == |a.content[inode]|)
  }

  lemma NothingScrubbed(d: Disk, log: seq<Step>, safe: set<Location>, inode: nat)
    ensures Scrubbed(d, d, safe, inode) && OnlyWrites(log, |log|, inode)
  {
  }

  lemma ScrubJoin(a: Disk, b: Disk, c: Disk, log1: seq<Step>, log2: seq<Step>, from: nat, safe: set<Location>,
                  inode: nat)
    requires Scrubbed(a, b, safe, inode) && Scrubbed(b, c, safe, inode) && inode in a.content
    requires Prefix(log1, log2) && OnlyWrites(log1, from, inode) && OnlyWrites(log2, |log1|, inode)
    ensures Scrubbed(a, c, safe, inode) && OnlyWrites(log2, from, inode)
    ensures inode in b.content && inode in c.content && |c.content[inode]| == |b.content[inode]|
  {
    SettledJoin(a, b, c, safe, inode);
    WritesJoin(log1, log2, from, inode);
  }

  /** Writes random bytes over one piece. */
  method OverwritePiece(volume: Volume, inode: nat, offset: nat, amount: nat) returns (r: Result<()>)
    requires volume.Valid() && inode in volume.disk.content && offset + amount <= |volume.disk.content[inode]|
    requires inode in volume.charter.writable + volume.created
    modifies volume`disk, volume`log
    ensures volume.Valid() && volume.Follows() && volume.owned == old(volume.owned)
    ensures volume.created == old(volume.created)
    ensures OnlyWrites(volume.log, |old(volume.log)|, inode)
    ensures Scrubbed(old(volume.disk), volume.disk, volume.held + volume.owned, inode)
    ensures Wrote(old(volume.log), volume.log, [Piece(offset, amount)])
    ensures r.Err? ==> !volume.reliable
    ensures volume.quiet ==> volume.disk.dir == old(volume.disk).dir
  {
    var data := RandomBytes(amount);
    ghost var pre, log0 := volume.disk, volume.log;
    r, pre := volume.WriteAt(inode, offset, data);
    forall from | 0 <= from <= |log0|
      ensures Writes(volume.log, from) == Writes(log0, from) + [Piece(offset, amount)]
    {
      WritesOne(log0, volume.log, from);
    }
  }

  /** One pass, recorded as exactly the pieces of `PassFrom`; a failure stops after some of them. */
  method OverwriteOnce(volume: Volume, inode: nat, size: nat) returns (r: Result<()>, ghost done: seq<Piece>)
    requires volume.Valid() && inode in volume.disk.content && size == |volume.disk.content[inode]|
    requires inode in volume.charter.writable + volume.created
    modifies volume`disk, volume`log
    ensures volume.Valid() && volume.Follows() && volume.owned == old(volume.owned)
    ensures volume.created == old(volume.created)
    ensures OnlyWrites(volume.log, |old(volume.log)|, inode)
    ensures Scrubbed(old(volume.disk), volume.disk, volume.held + volume.owned, inode)
    ensures Wrote(old(volume.log), volume.log, done) && done <= PassFrom(size, 0)
    ensures r.Ok? ==> done == PassFrom(size, 0)
    ensures r.Err? ==> !volume.reliable
    ensures volume.quiet ==> volume.disk.dir == old(volume.disk).dir
  {
    hide Writes, Wrote, Volume.Valid, Drift, PassFrom, OnlyWrites, SettledBut, Scrubbed;
    ghost var disk0, log0, safe := volume.disk, volume.log, volume.held + volume.owned;
    var remaining := size;
    done := [];
    NothingScrubbed(disk0, log0, safe, inode);
    WroteNothing(volume.log, volume.log);
    while remaining != 0
      invariant 0 <= remaining <= size
      invariant volume.Valid() && volume.Follows() && volume.owned == old(volume.owned)
      invariant volume.created == old(volume.created)
      invariant OnlyWrites(volume.log, |old(volume.log)|, inode)
      invariant Scrubbed(old(volume.disk), volume.disk, volume.held + volume.owned, inode)
      invariant inode in volume.disk.content && |volume.disk.content[inode]| == size
      invariant Wrote(old(volume.log), volume.log, done)
      invariant done + PassFrom(size, size - remaining) == PassFrom(size, 0) && done <= PassFrom(size, 0)
      invariant volume.quiet ==> volume.disk.dir == old(volume.disk).dir
    {
      var amount := if remaining < OVERWRITE_BUFFER_SIZE then remaining else OVERWRITE_BUFFER_SIZE;
      ghost var disk1, log1 := volume.disk, volume.log;
      r := OverwritePiece(volume, inode, size - remaining, amount);
      ScrubJoin(disk0, disk1, volume.disk, log1, volume.log, |log0|, safe, inode);
      WroteMore(old(volume.log), log1, volume.log, done, [Piece(size - remaining, amount)]);
      PassStep(size, size - remaining, done);
      done := done + [Piece(size - remaining, amount)];
      remaining := remaining - amount;
      if r.Err? {
        return;
      }
    }
    PassEnd(size, done);
    ghost var disk1, log1 := volume.disk, volume.log;
    r := SyncPass(volume, inode);
    ScrubJoin(disk0, disk1, volume.disk, log1, volume.log, |log0|, safe, inode);
  }

  lemma PassStep(size: nat, offset: nat, done: seq<Piece>)
    requires offset < size && done + PassFrom(size, offset) == PassFrom(size, 0)
    ensures
      var amount := if size - offset < OVERWRITE_BUFFER_SIZE then size - offset else OVERWRITE_BUFFER_SIZE;
      var more := done + [Piece(offset, amount)];
      more + PassFrom(size, offset + amount) == PassFrom(size, 0) && more <= PassFrom(size, 0)
  {
    hide PassFrom;
    var amount := if size - offset < OVERWRITE_BUFFER_SIZE then size - offset else OVERWRITE_BUFFER_SIZE;
    var first, rest := [Piece(offset, amount)], PassFrom(size, offset + amount);
    assert PassFrom(size, offset) == first + rest by { PassUnfolds(size, offset); }
    assert done + (first + rest) == (done + first) + rest;
  }

  lemma PassUnfolds(size: nat, offset: nat)
    requires offset < size
    ensures
      var amount := if size - offset < OVERWRITE_BUFFER_SIZE then size - offset else OVERWRITE_BUFFER_SIZE;
      PassFrom(size, offset) == [Piece(offset, amount)] + PassFrom(size, offset + amount)
  {
  }

  lemma PassEnd(size: nat, done: seq<Piece>)
    requires done + PassFrom(size, size) == PassFrom(size, 0)
    ensures done == PassFrom(size, 0)
  {
  }

  /** The flush after a pass. */
  method SyncPass(volume: Volume, inode: nat) returns (r: Result<()>)
    requires volume.Valid() && inode in volume.disk.content
    modifies volume`disk, volume`log
    ensures volume.Valid() && volume.Follows() && volume.owned == old(volume.owned)
    ensures volume.created == old(volume.created)
    ensures OnlyWrites(volume.log, |old(volume.log)|, inode)
    ensures Scrubbed(old(volume.disk), volume.disk, volume.held + volume.owned, inode)
    ensures forall a, done :: Wrote(a, old(volume.log), done) && |a| <= |old(volume.log)| ==> Wrote(a, volume.log, done)
    ensures r.Err? ==> !volume.reliable
    ensures volume.quiet ==> volume.disk.dir == old(volume.disk).dir
  {
    ghost var log1 := volume.log;
    r := volume.SyncAll();
    WroteNothing(log1, volume.log);
    forall a, done | Wrote(a, log1, done) && |a| <= |log1|
      ensures Wrote(a, volume.log, done)
    {
      WroteMore(a, log1, volume.log, done, []);
      assert done + [] == done;
    }
  }

  /** Three passes over the whole file. */
  method OverwriteThrice(volume: Volume, inode: nat, size: nat) returns (r: Result<()>, ghost done: seq<Piece>)
    requires volume.Valid() && inode in volume.disk.content && size == |volume.disk.content[inode]|
    requires inode in volume.charter.writable + volume.created
    modifies volume`disk, volume`log
    ensures volume.Valid() && volume.Follows() && volume.owned == old(volume.owned)
    ensures volume.created == old(volume.created)
    ensures OnlyWrites(volume.log, |old(volume.log)|, inode)
    ensures Scrubbed(old(volume.disk), volume.disk, volume.held + volume.owned, inode)
    ensures Wrote(old(volume.log), volume.log, done) && done <= ThreePasses(size)
    ensures r.Ok? ==> done == ThreePasses(size)
    ensures r.Err? ==> !volume.reliable
    ensures volume.quiet ==> volume.disk.dir == old(volume.disk).dir
  {
    hide Writes, Wrote, Volume.Valid, Drift, PassFrom, OnlyWrites, SettledBut, Scrubbed;
    ghost var disk0, log0, safe := volume.disk, volume.log, volume.held + volume.owned;
    done := [];
    NothingScrubbed(disk0, log0, safe, inode);
    WroteNothing(volume.log, volume.log);
    ghost var pass := PassFrom(size, 0);
    for i := 0 to 3
      invariant volume.Valid() && volume.Follows() && volume.owned == old(volume.owned)
      invariant volume.created == old(volume.created)
      invariant OnlyWrites(volume.log, |old(volume.log)|, inode)
      invariant Scrubbed(old(volume.disk), volume.disk, volume.held + volume.owned, inode)
      invariant inode in volume.disk.content && |volume.disk.content[inode]| == size
      invariant Wrote(old(volume.log), volume.log, done)
      invariant done ==
        if i == 0 then [] else if i == 1 then pass else if i == 2 then pass + pass else pass + pass + pass
      invariant volume.quiet ==> volume.disk.dir == old(volume.disk).dir
    {
      ghost var disk1, log1 := volume.disk, volume.log;
      ghost var some;
      r, some := OverwriteOnce(volume, inode, size);
      ScrubJoin(disk0, disk1, volume.disk, log1, volume.log, |log0|, safe, inode);
      WroteMore(old(volume.log), log1, volume.log, done, some);
      done := done + some;
      if r.Err? {
        return;
      }
    }
    r := Ok(());
  }
}
