/** Promises about several files at once: each pin fixes one name, its inode and its bytes. */
module Pins {
  import opened Bytes
  import opened Results
  import opened FileSystem

  datatype Pin = Pin(at: Location, inode: nat, bytes: seq<byte>)

  ghost predicate Pinned(p: Pin, d: Disk) {
    p.at in d.dir && d.dir[p.at] == File(p.inode) && p.inode in d.content && d.content[p.inode] == p.bytes
  }

  ghost predicate AllPinned(pins: seq<Option<Pin>>, d: Disk) {
    forall i :: 0 <= i < |pins| && pins[i].Some? ==> Pinned(pins[i].value, d)
  }

  /** No two pins share a name or an inode. */
  ghost predicate Separate(pins: seq<Option<Pin>>) {
    forall i, j :: 0 <= i < j < |pins| && pins[i].Some? && pins[j].Some? ==>
      pins[i].value.at != pins[j].value.at && pins[i].value.inode != pins[j].value.inode
  }

  /** The pins can hold together: one name has one inode, and one inode one content. */
  ghost predicate Compatible(pins: seq<Option<Pin>>) {
    forall i, j :: 0 <= i < j < |pins| && pins[i].Some? && pins[j].Some? ==>
      && (pins[i].value.at == pins[j].value.at ==> pins[i].value.inode == pins[j].value.inode)
      && (pins[i].value.inode == pins[j].value.inode ==> pins[i].value.bytes == pins[j].value.bytes)
  }

  lemma PinnedCompatible(pins: seq<Option<Pin>>, d: Disk)
    requires AllPinned(pins, d)
    ensures Compatible(pins)
  {
    forall i, j | 0 <= i < j < |pins| && pins[i].Some? && pins[j].Some?
      ensures pins[i].value.at == pins[j].value.at ==> pins[i].value.inode == pins[j].value.inode
      ensures pins[i].value.inode == pins[j].value.inode ==> pins[i].value.bytes == pins[j].value.bytes
    {
      assert Pinned(pins[i].value, d) && Pinned(pins[j].value, d);
    }
  }

  /** The promise to leave every pinned file alone. */
  ghost function PromiseOf(pins: seq<Option<Pin>>): Charter {
    if pins == [] then Charter(map[], map[], {}, {})
    else
      var c := PromiseOf(pins[..|pins| - 1]);
      match pins[|pins| - 1]
      case None => c
      case Some(p) => Charter(c.kept[p.at := File(p.inode)], c.intact[p.inode := p.bytes], {}, {})
  }

  lemma {:induction false} PromiseScope(pins: seq<Option<Pin>>)
    ensures forall l :: l in PromiseOf(pins).kept ==>
      exists i :: 0 <= i < |pins| && pins[i].Some? && pins[i].value.at == l
    ensures forall n :: n in PromiseOf(pins).intact ==>
      exists i :: 0 <= i < |pins| && pins[i].Some? && pins[i].value.inode == n
  {
    if pins != [] {
      var init := pins[..|pins| - 1];
      PromiseScope(init);
      var c := PromiseOf(pins);
      forall l | l in c.kept
        ensures exists i :: 0 <= i < |pins| && pins[i].Some? && pins[i].value.at == l
      {
        if l in PromiseOf(init).kept {
          var i :| 0 <= i < |init| && init[i].Some? && init[i].value.at == l;
          assert pins[i] == init[i];
        }
      }
      forall n | n in c.intact
        ensures exists i :: 0 <= i < |pins| && pins[i].Some? && pins[i].value.inode == n
      {
        if n in PromiseOf(init).intact {
          var i :| 0 <= i < |init| && init[i].Some? && init[i].value.inode == n;
          assert pins[i] == init[i];
        }
      }
    }
  }

  lemma {:induction false} PromiseEntries(pins: seq<Option<Pin>>)
    requires Compatible(pins)
    ensures forall i :: 0 <= i < |pins| && pins[i].Some? ==>
      && pins[i].value.at in PromiseOf(pins).kept && PromiseOf(pins).kept[pins[i].value.at] == File(pins[i].value.inode)
      && pins[i].value.inode in PromiseOf(pins).intact
      && PromiseOf(pins).intact[pins[i].value.inode] == pins[i].value.bytes
  {
    if pins != [] {
      var init := pins[..|pins| - 1];
      PromiseEntries(init);
      forall i | 0 <= i < |pins| && pins[i].Some?
        ensures
          && pins[i].value.at in PromiseOf(pins).kept
          && PromiseOf(pins).kept[pins[i].value.at] == File(pins[i].value.inode)
          && pins[i].value.inode in PromiseOf(pins).intact
          && PromiseOf(pins).intact[pins[i].value.inode] == pins[i].value.bytes
      {
        if i < |init| {
          assert init[i] == pins[i];
        }
      }
    }
  }

  /** Keeping the promise is keeping every pinned file. */
  lemma PromiseExact(pins: seq<Option<Pin>>, d: Disk)
    requires Compatible(pins)
    ensures Upheld(PromiseOf(pins), d) <==> AllPinned(pins, d)
  {
    hide PromiseOf;
    var c := PromiseOf(pins);
    PromiseEntries(pins);
    PromiseScope(pins);
    if AllPinned(pins, d) {
      forall l | l in c.kept
        ensures l in d.dir && d.dir[l] == c.kept[l]
      {
        var i :| 0 <= i < |pins| && pins[i].Some? && pins[i].value.at == l;
        assert Pinned(pins[i].value, d);
      }
      forall n | n in c.intact
        ensures n in d.content && d.content[n] == c.intact[n]
      {
        var i :| 0 <= i < |pins| && pins[i].Some? && pins[i].value.inode == n;
        assert Pinned(pins[i].value, d);
      }
    }
  }

  lemma PromiseWithin(pins: seq<Option<Pin>>, names: set<Location>)
    requires forall i :: 0 <= i < |pins| && pins[i].Some? ==> pins[i].value.at in names
    ensures PromiseOf(pins).kept.Keys <= names
  {
    PromiseScope(pins);
  }

  lemma PromiseAvoids(pins: seq<Option<Pin>>, name: Location, inode: nat)
    requires forall i :: 0 <= i < |pins| && pins[i].Some? ==> pins[i].value.at != name && pins[i].value.inode != inode
    ensures name !in PromiseOf(pins).kept && inode !in PromiseOf(pins).intact
  {
    PromiseScope(pins);
  }
}
