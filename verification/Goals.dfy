/** What must hold at every moment while one file is processed. */
module Goals {
  import opened Bytes
  import opened Results
  import opened Primitives
  import opened FileSystem
  import opened Legacy
  import opened StreamDecoding

  /** The last component of a location. */
  function Leaf(l: Location): Name {
    if l == [] then [] else l[|l| - 1]
  }

  /** One source, what it held at the start, and where its encryption goes; `firm` says that other
      processes leave both names alone. */
  datatype Goal = Goal(promise: Charter, source: Location, output: Location, inode: nat, bytes: seq<byte>,
                       suite: Suite, password: seq<byte>, firm: bool)

  /** The source is in its place, with every byte it had. */
  ghost predicate Intact(g: Goal, d: Disk) {
    g.source in d.dir && d.dir[g.source] == File(g.inode) && g.inode in d.content && d.content[g.inode] == g.bytes
  }

  /** The output is in its place and decrypts to the source's name and bytes. */
  ghost predicate Recovered(g: Goal, d: Disk, o: nat) {
    && g.output in d.dir && d.dir[g.output] == File(o) && o in d.content
    && DecodeFile(g.suite, g.password, d.content[o]) == Ok(PlainFile(Leaf(g.source), g.bytes))
  }

  ghost predicate Recoverable(g: Goal, d: Disk) {
    exists o :: Recovered(g, d, o)
  }

  /** Everything promised to others holds, and the source's data is not lost. */
  ghost predicate Good(g: Goal, d: Disk) {
    Upheld(g.promise, d) && (g.firm ==> Intact(g, d) || Recoverable(g, d))
  }

  ghost predicate AllGood(g: Goal, log: seq<Step>, from: nat) {
    forall k :: from <= k < |log| ==> Good(g, log[k].after)
  }

  lemma AllGoodJoin(g: Goal, a: seq<Step>, b: seq<Step>, from: nat)
    requires Prefix(a, b) && AllGood(g, a, from) && AllGood(g, b, |a|)
    ensures AllGood(g, b, from)
  {
    hide Good;
    forall k | from <= k < |b|
      ensures Good(g, b[k].after)
    {
      if k < |a| {
        assert b[k] == a[k];
      }
    }
  }

  /** The promise, strengthened to keep the source as it is. */
  ghost function KeepSource(g: Goal, removable: set<nat>): Charter {
    if g.firm then
      Charter(g.promise.kept[g.source := File(g.inode)], g.promise.intact[g.inode := g.bytes], removable, {})
    else Charter(g.promise.kept, g.promise.intact, removable, {})
  }

  /** The promise, strengthened to keep the installed output as it is; now the handle source may go. */
  ghost function KeepOutput(g: Goal, o: nat, encoded: seq<byte>, handle: nat): Charter {
    if g.firm then
      Charter(g.promise.kept[g.output := File(o)], g.promise.intact[o := encoded], {handle}, {handle})
    else Charter(g.promise.kept, g.promise.intact, {handle}, {handle})
  }

  lemma SourceKept(g: Goal, removable: set<nat>, since: nat, created: set<nat>, log: seq<Step>)
    requires g.source !in g.promise.kept
    requires g.firm && g.inode in g.promise.intact ==> g.promise.intact[g.inode] == g.bytes
    requires Chronicle(KeepSource(g, removable), since, created, log)
    ensures AllGood(g, log, since)
  {
    forall k | since <= k < |log|
      ensures Good(g, log[k].after)
    {
      var c, d := KeepSource(g, removable), log[k].after;
      assert Upheld(c, d);
      KeptSource(g, removable, d);
    }
  }

  lemma KeptSource(g: Goal, removable: set<nat>, d: Disk)
    requires g.source !in g.promise.kept
    requires g.firm && g.inode in g.promise.intact ==> g.promise.intact[g.inode] == g.bytes
    requires Upheld(KeepSource(g, removable), d)
    ensures Good(g, d) && (g.firm ==> Intact(g, d))
  {
    var c := KeepSource(g, removable);
    if g.firm {
      assert g.source in c.kept && g.inode in c.intact;
      forall l | l in g.promise.kept
        ensures l in d.dir && d.dir[l] == g.promise.kept[l]
      {
        assert l in c.kept;
      }
      forall i | i in g.promise.intact
        ensures i in d.content && d.content[i] == g.promise.intact[i]
      {
        assert i in c.intact;
      }
    }
  }

  lemma KeptOutput(g: Goal, o: nat, encoded: seq<byte>, handle: nat, d: Disk)
    requires g.output !in g.promise.kept && o !in g.promise.intact
    requires g.firm ==> DecodeFile(g.suite, g.password, encoded) == Ok(PlainFile(Leaf(g.source), g.bytes))
    requires Upheld(KeepOutput(g, o, encoded, handle), d)
    ensures Good(g, d) && (g.firm ==> Recovered(g, d, o))
  {
    hide DecodeFile;
    var c := KeepOutput(g, o, encoded, handle);
    if g.firm {
      assert g.output in c.kept && o in c.intact;
      forall l | l in g.promise.kept
        ensures l in d.dir && d.dir[l] == g.promise.kept[l]
      {
        assert l in c.kept;
      }
      forall i | i in g.promise.intact
        ensures i in d.content && d.content[i] == g.promise.intact[i]
      {
        assert i in c.intact;
      }
      assert Recovered(g, d, o);
    }
  }

  lemma OutputKept(g: Goal, o: nat, encoded: seq<byte>, handle: nat, since: nat, created: set<nat>, log: seq<Step>)
    requires g.output !in g.promise.kept && o !in g.promise.intact
    requires g.firm ==> DecodeFile(g.suite, g.password, encoded) == Ok(PlainFile(Leaf(g.source), g.bytes))
    requires Chronicle(KeepOutput(g, o, encoded, handle), since, created, log)
    ensures AllGood(g, log, since)
  {
    hide DecodeFile, KeepOutput, Good;
    forall k | since <= k < |log|
      ensures Good(g, log[k].after)
    {
      KeptOutput(g, o, encoded, handle, log[k].after);
    }
  }
}
