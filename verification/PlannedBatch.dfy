/** From a plan to the batch: what the planner checks is what the batch needs. */
module PlannedBatch {
  import opened Results
  import opened FileSystem
  import opened Quarantine
  import opened PathKeys
  import opened Traversal
  import opened Planner
  import opened Pins
  import B = EncryptBatch

  lemma {:induction false} SelectedFrom(listing: seq<Location>, p: Path) returns (l: Location)
    requires p in Selected(listing, false)
    ensures l in listing && p == AsPath(l)
  {
    hide HasOurExtension, AsPath;
    if p in Selected(listing[1..], false) {
      l := SelectedFrom(listing[1..], p);
    } else {
      l := listing[0];
    }
  }

  lemma SelectedAreFiles(d: Disk, root: Location, listing: seq<Location>, p: Path)
    requires (forall l :: l in listing ==> l in FilesBelow(d, root)) && p in Selected(listing, false)
    ensures IsFile(d, p)
  {
    hide Selected, Lexical;
    var l := SelectedFrom(listing, p);
    LexicalOfNormal(l);
  }

  lemma {:induction false} InSomePart(parts: seq<seq<Path>>, p: Path) returns (i: nat)
    requires p in Flatten(parts)
    ensures i < |parts| && p in parts[i]
  {
    if p in parts[|parts| - 1] {
      i := |parts| - 1;
    } else {
      i := InSomePart(parts[..|parts| - 1], p);
    }
  }

  /** Whatever is collected is a regular file. */
  lemma CollectedAreFiles(d: Disk, inputs: seq<Path>, parts: seq<seq<Path>>, sources: seq<Path>, p: Path)
    requires Collected(d, inputs, false, parts, sources) && p in sources && NoLinkOn(d, p)
    ensures IsFile(d, p)
  {
    hide LstatPath, Canonicalize, NoLinkOn, SpelledOrder, PathOrder;
    assert p in multiset(sources);
    assert p in Flatten(parts);
    var i := InSomePart(parts, p);
    assert StandsFor(d, inputs[i], false, parts[i]);
    if LstatPath(d, inputs[i]) == Ok(Directory) {
      var root := Canonicalize(d, inputs[i]).value;
      var listing :| Listing(d, root, listing) && parts[i] == Selected(listing, false);
      SelectedAreFiles(d, root, listing, p);
    } else {
      LstatIsNode(d, inputs[i]);
    }
  }

  /** The plan in terms of places, inodes and bytes. */
  ghost function ItemsOf(d: Disk, plans: seq<EncryptionPlan>): (items: seq<B.Item>)
    requires d.Valid() && forall i :: 0 <= i < |plans| ==> IsFile(d, plans[i].source)
    ensures |items| == |plans|
  {
    seq(|plans|, i requires 0 <= i < |plans| => ItemOf(d, plans[i]))
  }

  ghost function ItemOf(d: Disk, plan: EncryptionPlan): B.Item
    requires d.Valid() && IsFile(d, plan.source)
  {
    var inode := d.dir[Lexical(plan.source)].inode;
    B.Item(Lexical(plan.source), Lexical(plan.output), inode, d.content[inode])
  }

  lemma IdentityIsInode(d: Disk, p: Path)
    requires Tree(d) && NoLinkOn(d, p) && IsFile(d, p) && Identity(d, p).Ok?
    ensures Identity(d, p) == Ok(OnFile(d.dir[Lexical(p)].inode))
  {
    hide Canon;
    CanonIsLexical(d, [], p, MAX_LINK_DEPTH);
    assert AsPath([]) + p == p;
  }

  /** No link is passed on the way to a planned file. */
  ghost predicate PlannedPlainly(d: Disk, plans: seq<EncryptionPlan>) {
    forall i :: 0 <= i < |plans| ==> NoLinkOn(d, plans[i].source) && NoLinkOn(d, plans[i].output)
  }

  /** A plan whose paths pass no links meets every condition under which the batch loses nothing. */
  lemma PlanMakesBatch(volume: B.FileSystem.Volume, utf8: Name -> bool, inputs: seq<Path>, plans: seq<EncryptionPlan>,
                       flaky: bool)
    requires volume.disk.Valid() && Tree(volume.disk) && PlanFor(volume.disk, utf8, inputs, plans, flaky)
    requires PlannedPlainly(volume.disk, plans)
    requires forall i :: 0 <= i < |plans| ==>
      Lexical(plans[i].source) in volume.held && Lexical(plans[i].output) in volume.held
    ensures forall i :: 0 <= i < |plans| ==> IsFile(volume.disk, plans[i].source)
    ensures B.Planned(ItemsOf(volume.disk, plans), volume)
  {
    hide Collected, Tree, NoLinkOn, Key, Identity, Chosen, Lexical, DefaultsOf, IsFile;
    var d := volume.disk;
    var sources, parts :| Collected(d, inputs, false, parts, sources) && Planned(d, utf8, sources, plans, flaky);
    forall i | 0 <= i < |plans|
      ensures IsFile(d, plans[i].source)
    {
      CollectedAreFiles(d, inputs, parts, sources, plans[i].source);
    }
    ItemsAreApart(d, sources, plans);
    ItemsArePinned(d, plans);
  }

  lemma ItemsArePinned(d: Disk, plans: seq<EncryptionPlan>)
    requires d.Valid() && forall i :: 0 <= i < |plans| ==> IsFile(d, plans[i].source)
    ensures
      var items := ItemsOf(d, plans);
      forall i :: 0 <= i < |items| ==> Pinned(Pin(items[i].source, items[i].inode, items[i].bytes), d)
  {
    hide Lexical;
  }

  lemma ItemsAreApart(d: Disk, sources: seq<Path>, plans: seq<EncryptionPlan>)
    requires d.Valid() && Tree(d) && PlannedPlainly(d, plans) && |plans| == |sources|
    requires SourcesDistinct(d, sources) && Sound(d, plans, sources)
    requires forall i :: 0 <= i < |plans| ==> plans[i].source == sources[i] && IsFile(d, plans[i].source)
    ensures B.Apart(ItemsOf(d, plans))
  {
    hide Lexical, Tree, NoLinkOn, Key, Identity, IsFile;
    var items := ItemsOf(d, plans);
    forall i | 0 <= i < |plans|
      ensures Key(d, sources[i]) == Ok(items[i].source) && Key(d, plans[i].output) == Ok(items[i].output)
      ensures Identity(d, sources[i]) == Ok(OnFile(items[i].inode))
    {
      KeyIdempotent(d, sources[i], sources[i]);
      KeyIdempotent(d, plans[i].output, sources[i]);
      IdentityIsInode(d, sources[i]);
    }
  }
}
