/** The decryption batch: no run alters an input or an output it already wrote. */
module DecryptBatch {
  import opened Bytes
  import opened Results
  import opened Primitives
  import opened FileSystem
  import opened Pins
  import opened DecryptionGuard
  import opened DecryptFile
  import C = Counters

  /** Outputs whose names other processes leave alone can be promised to stay. */
  ghost function Promised(p: Option<Pin>, held: set<Location>): Option<Pin> {
    if p.Some? && p.value.at in held then p else None
  }

  ghost function AsPins(inputs: seq<Pin>): (pins: seq<Option<Pin>>)
    ensures |pins| == |inputs| && forall i :: 0 <= i < |inputs| ==> pins[i] == Some(inputs[i])
  {
    seq(|inputs|, i requires 0 <= i < |inputs| => Some(inputs[i]))
  }

  /** Recorded at every moment from `from` on. */
  ghost predicate StayPinned(pins: seq<Option<Pin>>, log: seq<Step>, from: nat) {
    forall k :: from <= k < |log| ==> AllPinned(pins, log[k].after)
  }

  lemma KeptIsPinned(pins: seq<Option<Pin>>, log: seq<Step>, from: nat)
    requires Compatible(pins) && KeptThroughout(PromiseOf(pins), log, from)
    ensures StayPinned(pins, log, from)
  {
    hide PromiseOf, Upheld, Compatible, AllPinned;
    forall k | from <= k < |log|
      ensures AllPinned(pins, log[k].after)
    {
      PromiseExact(pins, log[k].after);
    }
  }

  /** Pins that stayed up to some record, and that are among pins that stayed after it, stayed all along. */
  lemma StayPinnedJoin(first: seq<Option<Pin>>, second: seq<Option<Pin>>, a: seq<Step>, b: seq<Step>, from: nat)
    requires Prefix(a, b) && first <= second && StayPinned(first, a, from) && StayPinned(second, b, |a|)
    ensures StayPinned(first, b, from)
  {
    forall k | from <= k < |b|
      ensures AllPinned(first, b[k].after)
    {
      if k < |a| {
        assert b[k] == a[k];
      } else {
        assert AllPinned(second, b[k].after);
        forall i | 0 <= i < |first| && first[i].Some?
          ensures Pinned(first[i].value, b[k].after)
        {
          assert second[i] == first[i];
        }
      }
    }
  }

  /** Every name the guard knows: the sources and the outputs accepted so far. */
  ghost function Known(guard: DecryptionBatchGuard): set<Location>
    reads guard
  {
    guard.sourceKeys + (set l | l in guard.accepted)
  }

  /** The pins hold, and the guard knows every pinned name. */
  ghost predicate Watched(pins: seq<Option<Pin>>, known: set<Location>, held: set<Location>, d: Disk) {
    && Separate(pins) && AllPinned(pins, d)
    && forall i :: 0 <= i < |pins| && pins[i].Some? ==> pins[i].value.at in held && pins[i].value.at in known
  }

  lemma WatchedReady(pins: seq<Option<Pin>>, guard: DecryptionBatchGuard, held: set<Location>, d: Disk)
    requires Watched(pins, Known(guard), held, d)
    ensures Upheld(PromiseOf(pins), d) && PromiseOf(pins).kept.Keys <= held && Guarded(PromiseOf(pins), guard)
  {
    hide PromiseOf, Upheld, Pinned, Separate;
    PinnedCompatible(pins, d);
    PromiseExact(pins, d);
    PromiseWithin(pins, held);
    PromiseScope(pins);
  }

  /** A new output with a name and an inode of its own joins the pins. */
  lemma WatchedGrows(pins: seq<Option<Pin>>, known: set<Location>, more: set<Location>, held: set<Location>,
                     d0: Disk, d: Disk, next: Option<Pin>)
    requires Watched(pins, known, held, d0) && AllPinned(pins, d) && known <= more
    requires next.Some? ==>
      && next.value.at in held && Pinned(next.value, d) && next.value.inode !in d0.content
      && next.value.at !in known && next.value.at in more
    ensures Watched(pins + [next], more, held, d)
  {
    var all, n := pins + [next], |pins|;
    forall i | 0 <= i < |all| && all[i].Some?
      ensures Pinned(all[i].value, d) && all[i].value.at in held && all[i].value.at in more
      ensures i < n && next.Some? ==> all[i].value.at != next.value.at && all[i].value.inode != next.value.inode
    {
      if i < n {
        assert all[i] == pins[i] && Pinned(pins[i].value, d0);
      }
    }
    forall i, j | 0 <= i < j < |all| && all[i].Some? && all[j].Some?
      ensures all[i].value.at != all[j].value.at && all[i].value.inode != all[j].value.inode
    {
      if j < n {
        assert all[i] == pins[i] && all[j] == pins[j];
      }
    }
  }

  /** The complete plaintext of these encrypted bytes, in the planned directory. */
  ghost predicate DecryptsTo(suite: Suite, password: seq<byte>, encrypted: seq<byte>, directory: Location, p: Pin) {
    exists claimed :: Restored(suite, password, encrypted, directory, claimed, p)
  }

  lemma SourceOfPin(pins: seq<Option<Pin>>, i: nat, d: Disk)
    requires i < |pins| && pins[i].Some? && AllPinned(pins, d)
    ensures
      var p := pins[i].value;
      p.at in PromiseOf(pins).kept && PromiseOf(pins).kept[p.at] == File(p.inode) && Pinned(p, d)
  {
    PinnedCompatible(pins, d);
    PromiseEntries(pins);
  }

  /** One turn of the batch loop. */
  method DecryptNext(volume: Volume, suite: Suite, plan: DecryptionPlan, password: seq<byte>, force: bool,
                     guard: DecryptionBatchGuard, ghost pins: seq<Option<Pin>>, ghost i: nat)
    returns (r: Result<Location>, ghost landed: Option<Pin>)
    requires volume.Valid() && guard.Valid() && Watched(pins, Known(guard), volume.held, volume.disk)
    requires i < |pins| && pins[i].Some? && pins[i].value.at == plan.source
    modifies volume, guard
    ensures volume.Valid() && guard.Valid() && Prefix(old(volume.log), volume.log)
    ensures old(Known(guard)) <= Known(guard)
    ensures Watched(pins + [Promised(landed, volume.held)], Known(guard), volume.held, volume.disk)
    ensures StayPinned(pins, volume.log, |old(volume.log)|)
    ensures landed.Some? ==>
      && LandedSince(volume.log, |old(volume.log)|, landed.value)
      && DecryptsTo(suite, password, pins[i].value.bytes, plan.targetDir, landed.value)
      && landed.value.at !in old(Known(guard)) && landed.value.at in Known(guard)
    ensures r.Ok? ==> landed.Some? && r.value == landed.value.at
  {
    hide PromiseOf, Upheld, Restored, LandedSince, DecryptionBatchGuard.Valid, Volume.Valid, Separate, KeptThroughout,
         Guarded;
    ghost var promise, disk0, known := PromiseOf(pins), volume.disk, Known(guard);
    WatchedReady(pins, guard, volume.held, volume.disk);
    SourceOfPin(pins, i, volume.disk);
    ghost var output, away, inode, claimed;
    var consent: bool := *;
    r, output, landed, away, inode, claimed :=
      DecryptFileToPath(volume, suite, plan.source, plan.targetDir, password, force, consent, guard, promise);
    PinnedCompatible(pins, disk0);
    KeptIsPinned(pins, volume.log, |old(volume.log)|);
    PromiseExact(pins, volume.disk);
    SourceOfPin(pins, i, volume.disk);
    WatchedGrows(pins, known, Known(guard), volume.held, disk0, volume.disk, Promised(landed, volume.held));
  }

  ghost predicate Sourced(inputs: seq<Pin>, plans: seq<DecryptionPlan>, volume: Volume)
    reads volume
  {
    && |inputs| == |plans|
    && forall i :: 0 <= i < |plans| ==>
         inputs[i].at == plans[i].source && plans[i].source in volume.held && Pinned(inputs[i], volume.disk)
  }

  /** The pins after the first `|outs|` items: every input, then the outputs that can be promised to stay. */
  ghost function BatchPins(inputs: seq<Pin>, outs: seq<Option<Pin>>, held: set<Location>): (pins: seq<Option<Pin>>)
    ensures |pins| == |inputs| + |outs|
    ensures forall i :: 0 <= i < |inputs| ==> pins[i] == Some(inputs[i])
    ensures forall i :: 0 <= i < |outs| ==> pins[|inputs| + i] == Promised(outs[i], held)
  {
    AsPins(inputs) + seq(|outs|, i requires 0 <= i < |outs| => Promised(outs[i], held))
  }

  lemma BatchPinsGrow(inputs: seq<Pin>, outs: seq<Option<Pin>>, next: Option<Pin>, held: set<Location>)
    ensures BatchPins(inputs, outs + [next], held) == BatchPins(inputs, outs, held) + [Promised(next, held)]
  {
    var a, b := BatchPins(inputs, outs + [next], held), BatchPins(inputs, outs, held) + [Promised(next, held)];
    assert |a| == |b|;
    forall i | 0 <= i < |a|
      ensures a[i] == b[i]
    {
      if i >= |inputs| {
        assert a[|inputs| + (i - |inputs|)] == a[i];
      }
    }
  }

  /** Before the loop the inputs are pinned: the guard has seen to it that no two are one file. */
  lemma InputsWatched(inputs: seq<Pin>, plans: seq<DecryptionPlan>, volume: Volume, guard: DecryptionBatchGuard,
                      inodes: seq<nat>)
    requires Sourced(inputs, plans, volume) && |inodes| == |plans|
    requires Seen(plans, inodes, guard.sourceKeys, guard.sourceHandles)
    requires AllCaptured(volume.disk, plans, inodes, volume.held)
    ensures Watched(BatchPins(inputs, [], volume.held), Known(guard), volume.held, volume.disk)
  {
    var pins := BatchPins(inputs, [], volume.held);
    forall i | 0 <= i < |pins|
      ensures pins[i] == Some(inputs[i]) && Pinned(inputs[i], volume.disk) && inputs[i].inode == inodes[i]
      ensures inputs[i].at == plans[i].source && inputs[i].at in guard.sourceKeys
    {
      assert Captured(volume.disk, plans[i].source, inodes[i]);
    }
    forall i, j | 0 <= i < j < |pins|
      ensures inputs[i].at != inputs[j].at && inputs[i].inode != inputs[j].inode
    {
      assert inodes[i] != inodes[j];
    }
  }

  /** Output `i` was put in place by one step of its own turn, complete, and stayed so to the end. */
  ghost predicate Delivered(suite: Suite, password: seq<byte>, input: Pin, directory: Location, out: Pin,
                            held: set<Location>, log: seq<Step>, from: nat, to: nat)
  {
    && to <= |log| && LandedSince(log[..to], from, out)
    && DecryptsTo(suite, password, input.bytes, directory, out)
    && (out.at in held ==> StayPinned([Some(out)], log, to))
  }

  ghost predicate AllDelivered(suite: Suite, password: seq<byte>, inputs: seq<Pin>, plans: seq<DecryptionPlan>,
                               outs: seq<Option<Pin>>, held: set<Location>, log: seq<Step>, marks: seq<nat>)
  {
    && |outs| <= |inputs| == |plans| && |marks| == |outs| + 1
    && forall i :: 0 <= i < |outs| && outs[i].Some? ==>
         DeliveredAt(suite, password, inputs, plans, outs[i].value, held, log, marks, i)
  }

  ghost predicate DeliveredAt(suite: Suite, password: seq<byte>, inputs: seq<Pin>, plans: seq<DecryptionPlan>, out: Pin,
                              held: set<Location>, log: seq<Step>, marks: seq<nat>, i: nat)
    requires |inputs| == |plans| && i < |inputs| && i + 1 < |marks|
  {
    Delivered(suite, password, inputs[i], plans[i].targetDir, out, held, log, marks[i], marks[i + 1])
  }

  lemma DeliveredLater(suite: Suite, password: seq<byte>, input: Pin, directory: Location, out: Pin,
                       held: set<Location>, a: seq<Step>, b: seq<Step>, from: nat, to: nat,
                       pins: seq<Option<Pin>>, i: nat)
    requires Delivered(suite, password, input, directory, out, held, a, from, to) && Prefix(a, b)
    requires i < |pins| && pins[i] == Promised(Some(out), held) && StayPinned(pins, b, |a|)
    ensures Delivered(suite, password, input, directory, out, held, b, from, to)
  {
    hide LandedSince, DecryptsTo, Pinned;
    assert b[..to] == a[..to];
    if out.at in held {
      var one := [Some(out)];
      forall k | to <= k < |b|
        ensures AllPinned(one, b[k].after)
      {
        if k < |a| {
          assert b[k] == a[k];
        } else {
          assert AllPinned(pins, b[k].after);
          assert Pinned(pins[i].value, b[k].after);
        }
      }
    }
  }

  lemma DeliveredNow(suite: Suite, password: seq<byte>, input: Pin, directory: Location, out: Pin, held: set<Location>,
                     log: seq<Step>, from: nat)
    requires LandedSince(log, from, out) && DecryptsTo(suite, password, input.bytes, directory, out)
    ensures Delivered(suite, password, input, directory, out, held, log, from, |log|)
  {
    hide LandedSince, DecryptsTo;
    assert log[..|log|] == log;
  }

  lemma AllDeliveredStep(suite: Suite, password: seq<byte>, inputs: seq<Pin>, plans: seq<DecryptionPlan>,
                         outs: seq<Option<Pin>>, held: set<Location>, a: seq<Step>, b: seq<Step>, marks: seq<nat>,
                         next: Option<Pin>)
    requires AllDelivered(suite, password, inputs, plans, outs, held, a, marks) && marks[|outs|] == |a|
    requires |outs| < |inputs| && Prefix(a, b) && StayPinned(BatchPins(inputs, outs, held), b, |a|)
    requires next.Some? ==>
      && LandedSince(b, |a|, next.value)
      && DecryptsTo(suite, password, inputs[|outs|].bytes, plans[|outs|].targetDir, next.value)
    ensures AllDelivered(suite, password, inputs, plans, outs + [next], held, b, marks + [|b|])
  {
    hide Delivered, LandedSince, DecryptsTo, StayPinned;
    var outs', marks' := outs + [next], marks + [|b|];
    forall i | 0 <= i < |outs'| && outs'[i].Some?
      ensures DeliveredAt(suite, password, inputs, plans, outs'[i].value, held, b, marks', i)
    {
      if i < |outs| {
        assert DeliveredAt(suite, password, inputs, plans, outs[i].value, held, a, marks, i);
        DeliveredLater(suite, password, inputs[i], plans[i].targetDir, outs[i].value, held, a, b, marks[i],
                       marks[i + 1], BatchPins(inputs, outs, held), |inputs| + i);
      } else {
        DeliveredNow(suite, password, inputs[i], plans[i].targetDir, next.value, held, b, |a|);
      }
    }
  }

  /** Output names are all different and none is a source's. */
  ghost predicate OutputsApart(outs: seq<Option<Pin>>, plans: seq<DecryptionPlan>) {
    && (forall i, j :: 0 <= i < j < |outs| && outs[i].Some? && outs[j].Some? ==> outs[i].value.at != outs[j].value.at)
    && (forall i, j :: 0 <= i < |outs| && 0 <= j < |plans| && outs[i].Some? ==> outs[i].value.at != plans[j].source)
  }

  ghost predicate OutputsKnown(outs: seq<Option<Pin>>, plans: seq<DecryptionPlan>, known: set<Location>) {
    && (forall i :: 0 <= i < |outs| && outs[i].Some? ==> outs[i].value.at in known)
    && (forall j :: 0 <= j < |plans| ==> plans[j].source in known)
    && OutputsApart(outs, plans)
  }

  lemma OutputsKnownStep(outs: seq<Option<Pin>>, plans: seq<DecryptionPlan>, known: set<Location>, more: set<Location>,
                         next: Option<Pin>)
    requires OutputsKnown(outs, plans, known) && known <= more
    requires next.Some? ==> next.value.at !in known && next.value.at in more
    ensures OutputsKnown(outs + [next], plans, more)
  {
  }

  /** The guard is set up without touching anything; a second name for one input is refused. */
  method PrepareGuard(volume: Volume, plans: seq<DecryptionPlan>, ghost inputs: seq<Pin>)
    returns (r: Result<DecryptionBatchGuard>)
    requires volume.Valid() && Sourced(inputs, plans, volume)
    modifies volume
    ensures volume.Valid() && Prefix(old(volume.log), volume.log)
    ensures StayPinned(AsPins(inputs), volume.log, |old(volume.log)|) && AllPinned(AsPins(inputs), volume.disk)
    ensures r.Ok? ==>
      && fresh(r.value) && r.value.Valid() && r.value.accepted == []
      && Watched(BatchPins(inputs, [], volume.held), Known(r.value), volume.held, volume.disk)
      && forall i :: 0 <= i < |plans| ==> plans[i].source in Known(r.value)
  {
    hide PromiseOf, Upheld, Chronicle, Recorded, KeptThroughout, Seen, DecryptionBatchGuard.Valid;
    ghost var pins := AsPins(inputs);
    ghost var promise := PromiseOf(pins);
    assert AllPinned(pins, volume.disk);
    PinnedCompatible(pins, volume.disk);
    PromiseExact(pins, volume.disk);
    PromiseWithin(pins, volume.held);
    UpheldBoth(promise, volume.disk);
    volume.Adopt(Promising(promise, {}), {});
    ghost var inodes;
    r, inodes := NewGuard(volume, plans);
    ChronicleKeeps(promise, {}, volume.since, volume.created, volume.log);
    KeptIsPinned(pins, volume.log, |old(volume.log)|);
    UpheldBoth(promise, volume.disk);
    PromiseExact(pins, volume.disk);
    if r.Ok? {
      InputsStillThere(inputs, plans, volume);
      InputsWatched(inputs, plans, volume, r.value, inodes);
    }
  }

  lemma UpheldBoth(promise: Charter, d: Disk)
    ensures Upheld(promise, d) <==> Upheld(Promising(promise, {}), d)
  {
  }

  lemma InputsStillThere(inputs: seq<Pin>, plans: seq<DecryptionPlan>, volume: Volume)
    requires AllPinned(AsPins(inputs), volume.disk) && |inputs| == |plans|
    requires forall i :: 0 <= i < |plans| ==> inputs[i].at == plans[i].source && plans[i].source in volume.held
    ensures Sourced(inputs, plans, volume)
  {
    forall i | 0 <= i < |plans|
      ensures Pinned(inputs[i], volume.disk)
    {
      assert AsPins(inputs)[i].Some?;
    }
  }

  lemma NothingDelivered(suite: Suite, password: seq<byte>, inputs: seq<Pin>, plans: seq<DecryptionPlan>,
                         held: set<Location>, log: seq<Step>, marks: seq<nat>)
    requires |inputs| == |plans| && |marks| == 1
    ensures AllDelivered(suite, password, inputs, plans, [], held, log, marks) && OutputsApart([], plans)
  {
  }

  lemma NothingKnown(plans: seq<DecryptionPlan>, known: set<Location>)
    requires forall j :: 0 <= j < |plans| ==> plans[j].source in known
    ensures OutputsKnown([], plans, known)
  {
  }

  lemma InputsPinned(inputs: seq<Pin>, outs: seq<Option<Pin>>, known: set<Location>, held: set<Location>, d: Disk)
    requires Watched(BatchPins(inputs, outs, held), known, held, d)
    ensures AllPinned(AsPins(inputs), d)
  {
    var all := BatchPins(inputs, outs, held);
    forall i | 0 <= i < |inputs|
      ensures Pinned(inputs[i], d)
    {
      assert all[i] == Some(inputs[i]);
    }
  }

  lemma OutputsAreApart(outs: seq<Option<Pin>>, plans: seq<DecryptionPlan>, known: set<Location>)
    requires OutputsKnown(outs, plans, known)
    ensures OutputsApart(outs, plans)
  {
  }

  /** The whole batch.  Every input keeps its name, inode and bytes at every recorded moment, whatever fails and
      whatever the encrypted files claim to be called; outputs have names of their own, appear complete in one step and,
      if other processes leave them alone, are never touched again; full success delivers all of them. */
  method DecryptAll(volume: Volume, suite: Suite, plans: seq<DecryptionPlan>, password: seq<byte>, force: bool,
                    ghost inputs: seq<Pin>)
    returns (r: Result<()>, ghost outs: seq<Option<Pin>>, ghost marks: seq<nat>, ghost results: seq<Result<Location>>)
    requires volume.Valid() && Sourced(inputs, plans, volume)
    modifies volume
    ensures volume.Valid() && Prefix(old(volume.log), volume.log)
    ensures StayPinned(AsPins(inputs), volume.log, |old(volume.log)|) && AllPinned(AsPins(inputs), volume.disk)
    ensures AllDelivered(suite, password, inputs, plans, outs, volume.held, volume.log, marks)
    ensures OutputsApart(outs, plans)
    ensures |outs| == |results| && (|results| == |plans| || (results == [] && r.Err?))
    ensures |results| == |plans| && plans != [] ==> C.Verdict(results, r)
    ensures forall i :: 0 <= i < |results| && results[i].Ok? ==> outs[i].Some? && results[i].value == outs[i].value.at
  {
    hide C.Verdict, C.Counters.Counts, AllDelivered, StayPinned, Watched, OutputsKnown, Volume.Valid, AllPinned,
         DecryptionBatchGuard.Valid, LandedSince, DecryptsTo, Known, OutputsApart, Pinned;
    ghost var held := volume.held;
    outs, results := [], [];
    var guarded := PrepareGuard(volume, plans, inputs);
    marks := [|volume.log|];
    NothingDelivered(suite, password, inputs, plans, held, volume.log, marks);
    if guarded.Err? {
      return Err(guarded.error), outs, marks, results;
    }
    var guard := guarded.value;
    var counters := new C.Counters();
    NothingKnown(plans, Known(guard));
    C.NoneCounted<Location>(counters);
    for j := 0 to |plans|
      invariant volume.Valid() && Prefix(old(volume.log), volume.log) && fresh(counters) && fresh(guard)
      invariant guard.Valid()
      invariant |outs| == j && |marks| == j + 1 && marks[j] == |volume.log|
      invariant Watched(BatchPins(inputs, outs, held), Known(guard), held, volume.disk)
      invariant StayPinned(AsPins(inputs), volume.log, |old(volume.log)|)
      invariant AllDelivered(suite, password, inputs, plans, outs, held, volume.log, marks)
      invariant OutputsKnown(outs, plans, Known(guard))
      invariant |results| == j && counters.Counts(results)
      invariant forall i :: 0 <= i < j && results[i].Ok? ==> outs[i].Some? && results[i].value == outs[i].value.at
    {
      ghost var log1, known1 := volume.log, Known(guard);
      ghost var pins := BatchPins(inputs, outs, held);
      var result;
      ghost var landed;
      result, landed := DecryptNext(volume, suite, plans[j], password, force, guard, pins, j);
      StayPinnedJoin(AsPins(inputs), pins, log1, volume.log, |old(volume.log)|);
      AllDeliveredStep(suite, password, inputs, plans, outs, held, log1, volume.log, marks, landed);
      OutputsKnownStep(outs, plans, known1, Known(guard), landed);
      BatchPinsGrow(inputs, outs, landed, held);
      outs, marks := outs + [landed], marks + [|volume.log|];
      counters.HandleResult(result, results);
      results := results + [result];
    }
    InputsPinned(inputs, outs, Known(guard), held, volume.disk);
    OutputsAreApart(outs, plans, Known(guard));
    r := counters.Summary(results);
  }
}
