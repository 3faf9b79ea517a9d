/** The encryption batch: no run loses the data of any source. */
module EncryptBatch {
  import opened Bytes
  import opened Results
  import opened Primitives
  import opened FileSystem
  import opened Goals
  import opened Pins
  import opened EncryptFile
  import opened StreamDecoding
  import opened Legacy
  import C = Counters

  /** One planned encryption, with the inode and bytes its source has before the batch starts. */
  datatype Item = Item(source: Location, output: Location, inode: nat, bytes: seq<byte>)

  ghost predicate Planned(items: seq<Item>, volume: Volume)
    reads volume
  {
    && (forall i :: 0 <= i < |items| ==>
          && items[i].source in volume.held && items[i].output in volume.held
          && Pinned(Pin(items[i].source, items[i].inode, items[i].bytes), volume.disk))
    && Apart(items)
  }

  /** All sources and outputs have names of their own, and all sources inodes of their own. */
  ghost predicate Apart(items: seq<Item>) {
    && (forall i, j :: 0 <= i < j < |items| ==>
          items[i].source != items[j].source && items[i].output != items[j].output && items[i].inode != items[j].inode)
    && (forall i, j :: 0 <= i < |items| && 0 <= j < |items| ==> items[i].source != items[j].output)
  }

  ghost function GoalOf(it: Item, suite: Suite, password: seq<byte>, promise: Charter): Goal {
    Goal(promise, it.source, it.output, it.inode, it.bytes, suite, password, true)
  }

  /** The source's data is at hand: in its place, or in its decryptable output. */
  ghost predicate Safe(it: Item, suite: Suite, password: seq<byte>, d: Disk) {
    var g := GoalOf(it, suite, password, Charter(map[], map[], {}, {}));
    Intact(g, d) || Recoverable(g, d)
  }

  ghost predicate AllSafe(items: seq<Item>, suite: Suite, password: seq<byte>, d: Disk) {
    forall i :: 0 <= i < |items| ==> Safe(items[i], suite, password, d)
  }

  ghost predicate SafeThroughout(items: seq<Item>, suite: Suite, password: seq<byte>, log: seq<Step>, from: nat) {
    forall k :: from <= k < |log| ==> AllSafe(items, suite, password, log[k].after)
  }

  ghost predicate IsSourcePin(p: Pin, it: Item) {
    p == Pin(it.source, it.inode, it.bytes)
  }

  ghost predicate IsOutputPin(p: Pin, it: Item, suite: Suite, password: seq<byte>) {
    p.at == it.output && DecodeFile(suite, password, p.bytes) == Ok(PlainFile(Leaf(it.source), it.bytes))
  }

  /** After `done` items, `pins[i]` fixes source `i` and `pins[n + i]` its output; one of them is always there. */
  ghost predicate Tracked(items: seq<Item>, suite: Suite, password: seq<byte>, pins: seq<Option<Pin>>, done: nat,
                          i: nat)
    requires |pins| == 2 * |items| && i < |items|
  {
    && (pins[i].Some? ==> IsSourcePin(pins[i].value, items[i]))
    && (pins[|items| + i].Some? ==> i < done && IsOutputPin(pins[|items| + i].value, items[i], suite, password))
    && (pins[i].Some? || (pins[|items| + i].Some? && i < done))
  }

  ghost predicate Progress(items: seq<Item>, suite: Suite, password: seq<byte>, pins: seq<Option<Pin>>, done: nat) {
    && |pins| == 2 * |items| && done <= |items| && Separate(pins)
    && forall i :: 0 <= i < |items| ==> Tracked(items, suite, password, pins, done, i)
  }

  /** Pinned items are safe. */
  lemma PinnedSafe(items: seq<Item>, suite: Suite, password: seq<byte>, pins: seq<Option<Pin>>, i: nat, d: Disk)
    requires |pins| == 2 * |items| && i < |items|
    requires pins[i].Some? || pins[|items| + i].Some?
    requires pins[i].Some? ==> IsSourcePin(pins[i].value, items[i]) && Pinned(pins[i].value, d)
    requires pins[|items| + i].Some? ==>
      IsOutputPin(pins[|items| + i].value, items[i], suite, password) && Pinned(pins[|items| + i].value, d)
    ensures Safe(items[i], suite, password, d)
  {
    hide DecodeFile;
    var g := GoalOf(items[i], suite, password, Charter(map[], map[], {}, {}));
    if pins[i].Some? {
      assert Intact(g, d);
    } else {
      assert Recovered(g, d, pins[|items| + i].value.inode);
    }
  }

  /** While item `j` is processed, with its own pin lifted, every item stays safe. */
  lemma SafeDuring(items: seq<Item>, suite: Suite, password: seq<byte>, pins: seq<Option<Pin>>, j: nat, d: Disk)
    requires j < |items| && Progress(items, suite, password, pins, j)
    requires Good(GoalOf(items[j], suite, password, PromiseOf(pins[j := None])), d)
    ensures AllSafe(items, suite, password, d)
  {
    hide DecodeFile, PromiseOf, Upheld;
    var rest := pins[j := None];
    var g := GoalOf(items[j], suite, password, PromiseOf(rest));
    assert Separate(rest);
    PromiseExact(rest, d);
    forall i | 0 <= i < |items|
      ensures Safe(items[i], suite, password, d)
    {
      if i == j {
        var bare := GoalOf(items[j], suite, password, Charter(map[], map[], {}, {}));
        if Recoverable(g, d) {
          var o :| Recovered(g, d, o);
          assert Recovered(bare, d, o);
        }
      } else {
        assert rest[i] == pins[i] && rest[|items| + i] == pins[|items| + i];
        assert Tracked(items, suite, password, pins, j, i);
        PinnedSafe(items, suite, password, pins, i, d);
      }
    }
  }

  lemma SafeThroughoutItem(items: seq<Item>, suite: Suite, password: seq<byte>, pins: seq<Option<Pin>>, j: nat,
                           log: seq<Step>, from: nat)
    requires j < |items| && Progress(items, suite, password, pins, j)
    requires AllGood(GoalOf(items[j], suite, password, PromiseOf(pins[j := None])), log, from)
    ensures SafeThroughout(items, suite, password, log, from)
  {
    hide Good, PromiseOf, Progress, AllSafe;
    forall k | from <= k < |log|
      ensures AllSafe(items, suite, password, log[k].after)
    {
      SafeDuring(items, suite, password, pins, j, log[k].after);
    }
  }

  /** The pins that hold before item `j` allow it to be undertaken. */
  lemma ItemReady(volume: Volume, items: seq<Item>, suite: Suite, password: seq<byte>, pins: seq<Option<Pin>>, j: nat)
    requires volume.Valid() && j < |items| && Apart(items) && Progress(items, suite, password, pins, j)
    requires AllPinned(pins, volume.disk)
    requires forall i :: 0 <= i < |items| ==> items[i].source in volume.held && items[i].output in volume.held
    ensures Ready(volume, GoalOf(items[j], suite, password, PromiseOf(pins[j := None])))
  {
    hide DecodeFile, PromiseOf, Upheld, Volume.Valid;
    var rest, it, n := pins[j := None], items[j], |items|;
    assert Tracked(items, suite, password, pins, j, j);
    assert Pinned(pins[j].value, volume.disk);
    assert Separate(rest);
    PromiseExact(rest, volume.disk);
    forall i | 0 <= i < |rest| && rest[i].Some?
      ensures rest[i].value.at in volume.held
      ensures rest[i].value.at != it.source && rest[i].value.at != it.output && rest[i].value.inode != it.inode
    {
      assert rest[i] == pins[i];
      assert Tracked(items, suite, password, pins, j, if i < n then i else i - n);
    }
    PromiseWithin(rest, volume.held);
    PromiseAvoids(rest, it.source, it.inode);
    PromiseAvoids(rest, it.output, it.inode);
  }

  /** The pins after item `j`: its source if still intact, its output if recovered. */
  ghost function NextPins(items: seq<Item>, suite: Suite, password: seq<byte>, pins: seq<Option<Pin>>, j: nat,
                          d0: Disk, d: Disk, o: nat): seq<Option<Pin>>
    requires j < |items| && |pins| == 2 * |items|
  {
    var g := GoalOf(items[j], suite, password, Charter(map[], map[], {}, {}));
    pins[j := if Intact(g, d) then pins[j] else None]
        [|items| + j :=
           if Recovered(g, d, o) && o !in d0.content then Some(Pin(items[j].output, o, d.content[o])) else None]
  }

  /** The new pins still have names and inodes of their own, and hold now. */
  lemma NextPinsSeparate(items: seq<Item>, suite: Suite, password: seq<byte>, pins: seq<Option<Pin>>, j: nat,
                         d0: Disk, d: Disk, o: nat)
    requires j < |items| && Apart(items) && Progress(items, suite, password, pins, j)
    requires AllPinned(pins, d0) && AllPinned(pins[j := None], d)
    ensures Separate(NextPins(items, suite, password, pins, j, d0, d, o))
    ensures AllPinned(NextPins(items, suite, password, pins, j, d0, d, o), d)
  {
    OthersDiffer(items, suite, password, pins, j, d0);
    assert Tracked(items, suite, password, pins, j, j);
    assert items[j].source != items[j].output;
    hide DecodeFile, IsOutputPin, Apart, Progress;
    var n, rest, next := |items|, pins[j := None], NextPins(items, suite, password, pins, j, d0, d, o);
    assert Separate(pins) by { ProgressSeparate(items, suite, password, pins, j); }
    forall i | 0 <= i < |pins| && i != j && i != n + j
      ensures next[i] == pins[i] == rest[i]
    {
    }
    forall i, k | 0 <= i < k < |next| && next[i].Some? && next[k].Some?
      ensures next[i].value.at != next[k].value.at && next[i].value.inode != next[k].value.inode
    {
      if i != j && i != n + j {
        assert pins[i] == next[i];
      }
      if k != j && k != n + j {
        assert pins[k] == next[k];
      }
    }
  }

  lemma ProgressSeparate(items: seq<Item>, suite: Suite, password: seq<byte>, pins: seq<Option<Pin>>, j: nat)
    requires Progress(items, suite, password, pins, j)
    ensures Separate(pins)
  {
    hide DecodeFile, Separate;
  }

  lemma ProgressStep(items: seq<Item>, suite: Suite, password: seq<byte>, pins: seq<Option<Pin>>, j: nat,
                     d0: Disk, d: Disk, o: nat, promise: Charter)
    requires j < |items| && Apart(items) && Progress(items, suite, password, pins, j)
    requires AllPinned(pins, d0) && AllPinned(pins[j := None], d)
    requires var g := GoalOf(items[j], suite, password, promise);
      Intact(g, d) || (Recovered(g, d, o) && o !in d0.content)
    ensures Progress(items, suite, password, NextPins(items, suite, password, pins, j, d0, d, o), j + 1)
    ensures AllPinned(NextPins(items, suite, password, pins, j, d0, d, o), d)
  {
    hide DecodeFile, Separate, AllPinned, Apart;
    var n, done, next := |items|, j + 1, NextPins(items, suite, password, pins, j, d0, d, o);
    NextPinsSeparate(items, suite, password, pins, j, d0, d, o);
    assert Tracked(items, suite, password, pins, j, j);
    forall i | 0 <= i < n
      ensures Tracked(items, suite, password, next, done, i)
    {
      assert Tracked(items, suite, password, pins, j, i);
      if i != j {
        assert next[i] == pins[i] && next[n + i] == pins[n + i];
      }
    }
  }

  /** Every other pin has another name than item `j`'s source and output, and an inode that was there before. */
  lemma OthersDiffer(items: seq<Item>, suite: Suite, password: seq<byte>, pins: seq<Option<Pin>>, j: nat, d0: Disk)
    requires j < |items| && Apart(items) && Progress(items, suite, password, pins, j) && AllPinned(pins, d0)
    ensures pins[|items| + j] == None
    ensures forall i :: 0 <= i < |pins| && i != j && pins[i].Some? ==>
      && pins[i].value.at != items[j].source && pins[i].value.at != items[j].output
      && pins[i].value.inode != items[j].inode && pins[i].value.inode in d0.content
    ensures items[j].inode in d0.content
  {
    hide DecodeFile;
    var n := |items|;
    assert Tracked(items, suite, password, pins, j, j) && Pinned(pins[j].value, d0);
    forall i | 0 <= i < |pins| && i != j && pins[i].Some?
      ensures
        && pins[i].value.at != items[j].source && pins[i].value.at != items[j].output
        && pins[i].value.inode != items[j].inode && pins[i].value.inode in d0.content
    {
      assert Pinned(pins[i].value, d0);
      assert Tracked(items, suite, password, pins, j, if i < n then i else i - n);
    }
  }

  lemma SafeThroughoutJoin(items: seq<Item>, suite: Suite, password: seq<byte>, a: seq<Step>, b: seq<Step>, from: nat)
    requires Prefix(a, b) && SafeThroughout(items, suite, password, a, from)
    requires SafeThroughout(items, suite, password, b, |a|)
    ensures SafeThroughout(items, suite, password, b, from)
  {
    hide AllSafe;
    forall k | from <= k < |b|
      ensures AllSafe(items, suite, password, b[k].after)
    {
      if k < |a| {
        assert b[k] == a[k];
      }
    }
  }

  lemma PinCount(items: seq<Item>, suite: Suite, password: seq<byte>, pins: seq<Option<Pin>>, j: nat)
    requires Progress(items, suite, password, pins, j)
    ensures |pins| == 2 * |items|
  {
  }

  lemma PinsKept(items: seq<Item>, suite: Suite, password: seq<byte>, pins: seq<Option<Pin>>, j: nat, d: Disk)
    requires j < |items| && Progress(items, suite, password, pins, j)
    requires Upheld(PromiseOf(pins[j := None]), d)
    ensures |pins| == 2 * |items| && pins[j].Some? && AllPinned(pins[j := None], d)
  {
    hide DecodeFile, PromiseOf, Upheld;
    assert Tracked(items, suite, password, pins, j, j);
    assert Separate(pins[j := None]);
    PromiseExact(pins[j := None], d);
  }

  /** One turn of the batch loop. */
  method EncryptNext(volume: Volume, suite: Suite, ghost items: seq<Item>, j: nat, source: Location, output: Location,
                     password: seq<byte>, force: bool, shred: bool, ghost pins: seq<Option<Pin>>)
    returns (r: Result<Location>, ghost pins': seq<Option<Pin>>)
    requires Tagged(suite) && Inverting(suite)
    requires volume.Valid() && j < |items| && Apart(items) && Progress(items, suite, password, pins, j)
    requires items[j].source == source && items[j].output == output && AllPinned(pins, volume.disk)
    requires forall i :: 0 <= i < |items| ==> items[i].source in volume.held && items[i].output in volume.held
    modifies volume
    ensures volume.Valid() && Prefix(old(volume.log), volume.log)
    ensures SafeThroughout(items, suite, password, volume.log, |old(volume.log)|)
    ensures Progress(items, suite, password, pins', j + 1) && AllPinned(pins', volume.disk)
    ensures r.Ok? ==> r.value == output && pins'[|items| + j].Some?
    ensures !shred ==> pins'[j].Some?
    ensures forall i :: 0 <= i < |pins| && i != j && i != |items| + j ==> pins'[i] == pins[i]
  {
    hide Progress, AllPinned, SafeThroughout, PromiseOf, Volume.Valid, Ready, DecodeFile, Apart, AllGood;
    assert |pins| == 2 * |items| by { PinCount(items, suite, password, pins, j); }
    ghost var promise := PromiseOf(pins[j := None]);
    ghost var g := GoalOf(items[j], suite, password, promise);
    ghost var disk0 := volume.disk;
    ItemReady(volume, items, suite, password, pins, j);
    ghost var o;
    var consent: bool := *;
    r, o := EncryptFileToPath(volume, suite, source, output, password, force, consent, shred, g);
    SafeThroughoutItem(items, suite, password, pins, j, volume.log, |old(volume.log)|);
    PinsKept(items, suite, password, pins, j, volume.disk);
    pins' := NextPins(items, suite, password, pins, j, disk0, volume.disk, o);
    ProgressStep(items, suite, password, pins, j, disk0, volume.disk, o, promise);
  }

  ghost function FirstPins(items: seq<Item>): (pins: seq<Option<Pin>>)
    ensures |pins| == 2 * |items|
  {
    seq(2 * |items|, i requires 0 <= i < 2 * |items| =>
      if i < |items| then Some(Pin(items[i].source, items[i].inode, items[i].bytes)) else None)
  }

  lemma FirstProgress(items: seq<Item>, suite: Suite, password: seq<byte>, volume: Volume)
    requires Planned(items, volume)
    ensures Progress(items, suite, password, FirstPins(items), 0) && AllPinned(FirstPins(items), volume.disk)
  {
    hide DecodeFile;
    var pins := FirstPins(items);
    forall i | 0 <= i < |pins| && pins[i].Some?
      ensures Pinned(pins[i].value, volume.disk)
    {
      assert Pinned(Pin(items[i].source, items[i].inode, items[i].bytes), volume.disk);
    }
    forall i | 0 <= i < |items|
      ensures Tracked(items, suite, password, pins, 0, i)
    {
    }
  }

  lemma ProgressSafe(items: seq<Item>, suite: Suite, password: seq<byte>, pins: seq<Option<Pin>>, done: nat, d: Disk)
    requires Progress(items, suite, password, pins, done) && AllPinned(pins, d)
    ensures AllSafe(items, suite, password, d)
    ensures forall i :: 0 <= i < |items| && pins[i].Some? ==>
      Pinned(Pin(items[i].source, items[i].inode, items[i].bytes), d)
    ensures forall i :: 0 <= i < |items| && pins[|items| + i].Some? ==> Decrypts(items[i], suite, password, d)
  {
    hide DecodeFile;
    forall i | 0 <= i < |items|
      ensures Safe(items[i], suite, password, d)
    {
      assert Tracked(items, suite, password, pins, done, i);
      PinnedSafe(items, suite, password, pins, i, d);
    }
    forall i | 0 <= i < |items| && pins[i].Some?
      ensures Pinned(Pin(items[i].source, items[i].inode, items[i].bytes), d)
    {
      assert Tracked(items, suite, password, pins, done, i);
    }
    forall i | 0 <= i < |items| && pins[|items| + i].Some?
      ensures Decrypts(items[i], suite, password, d)
    {
      assert Tracked(items, suite, password, pins, done, i);
      var g := GoalOf(items[i], suite, password, Charter(map[], map[], {}, {}));
      assert Recovered(g, d, pins[|items| + i].value.inode);
    }
  }

  /** The item's output is in place and decrypts to the source's name and bytes. */
  ghost predicate Decrypts(it: Item, suite: Suite, password: seq<byte>, d: Disk) {
    Recoverable(GoalOf(it, suite, password, Charter(map[], map[], {}, {})), d)
  }

  /** The whole batch.  Whatever fails, whatever other processes do to other names, and at every recorded moment,
      every source's data is intact or decryptable from its output; a fully successful batch leaves every output
      decryptable. */
  method EncryptAll(volume: Volume, suite: Suite, plans: seq<(Location, Location)>, password: seq<byte>,
                    force: bool, shred: bool, ghost items: seq<Item>)
    returns (r: Result<()>, ghost results: seq<Result<Location>>)
    requires Tagged(suite) && Inverting(suite)
    requires volume.Valid() && Planned(items, volume)
    requires |plans| == |items| && forall i :: 0 <= i < |plans| ==> plans[i] == (items[i].source, items[i].output)
    modifies volume
    ensures volume.Valid() && Prefix(old(volume.log), volume.log)
    ensures SafeThroughout(items, suite, password, volume.log, |old(volume.log)|)
    ensures AllSafe(items, suite, password, volume.disk)
    ensures |results| == |items| && C.Verdict(results, r)
    ensures forall i :: 0 <= i < |items| && results[i].Ok? ==>
      results[i].value == items[i].output && Decrypts(items[i], suite, password, volume.disk)
    ensures !shred ==> forall i :: 0 <= i < |items| ==>
      Pinned(Pin(items[i].source, items[i].inode, items[i].bytes), volume.disk)
  {
    hide Progress, AllPinned, SafeThroughout, AllSafe, Volume.Valid, Decrypts, Pinned, C.Verdict, C.Counters.Counts;
    ghost var n := |items|;
    ghost var pins := FirstPins(items);
    FirstProgress(items, suite, password, volume);
    NothingYet(items, suite, password, volume.log);
    var counters := new C.Counters();
    results := [];
    C.NoneCounted<Location>(counters);
    for j := 0 to |plans|
      invariant volume.Valid() && Prefix(old(volume.log), volume.log) && fresh(counters)
      invariant |pins| == 2 * n && Progress(items, suite, password, pins, j) && AllPinned(pins, volume.disk)
      invariant SafeThroughout(items, suite, password, volume.log, |old(volume.log)|)
      invariant |results| == j && counters.Counts(results)
      invariant forall i :: n <= i < n + j && results[i - n].Ok? ==> pins[i].Some?
      invariant forall i :: 0 <= i < j && results[i].Ok? ==> results[i].value == items[i].output
      invariant !shred ==> forall i :: 0 <= i < n ==> pins[i].Some?
    {
      ghost var log1, pins1 := volume.log, pins;
      var result;
      result, pins := EncryptNext(volume, suite, items, j, plans[j].0, plans[j].1, password, force, shred, pins);
      SafeThroughoutJoin(items, suite, password, log1, volume.log, |old(volume.log)|);
      PinCount(items, suite, password, pins, j + 1);
      counters.HandleResult(result, results);
      results := results + [result];
      assert forall i :: n <= i < n + j ==> pins[i] == pins1[i];
    }
    ProgressSafe(items, suite, password, pins, n, volume.disk);
    forall i | 0 <= i < n && results[i].Ok?
      ensures Decrypts(items[i], suite, password, volume.disk)
    {
      assert pins[n + i].Some?;
    }
    r := counters.Summary(results);
  }

  lemma NothingYet(items: seq<Item>, suite: Suite, password: seq<byte>, log: seq<Step>)
    ensures Prefix(log, log) && SafeThroughout(items, suite, password, log, |log|)
  {
  }
}
