/** The tally of a batch and the verdict drawn from it. */
module Counters {
  import opened Results

  function Failures<T>(results: seq<Result<T>>): nat {
    if results == [] then 0
    else
      var last := results[|results| - 1];
      Failures(results[..|results| - 1]) + (if last.Err? && last.error != Cancelled then 1 else 0)
  }

  function Skips<T>(results: seq<Result<T>>): nat {
    if results == [] then 0
    else
      var last := results[|results| - 1];
      Skips(results[..|results| - 1]) + (if last.Err? && last.error == Cancelled then 1 else 0)
  }

  /** A batch succeeds exactly if every item did; otherwise the numbers of failed and skipped items are reported. */
  ghost predicate Verdict<T>(results: seq<Result<T>>, r: Result<()>) {
    && (r.Ok? <==> forall i :: 0 <= i < |results| ==> results[i].Ok?)
    && (r.Err? ==> r.error == BatchIncomplete(Failures(results), Skips(results)))
  }

  lemma {:induction false} NothingCounted<T>(results: seq<Result<T>>)
    ensures Failures(results) == 0 && Skips(results) == 0 <==> forall i :: 0 <= i < |results| ==> results[i].Ok?
  {
    if results != [] {
      var init := results[..|results| - 1];
      NothingCounted(init);
      assert forall i :: 0 <= i < |init| ==> init[i] == results[i];
    }
  }

  lemma NoneCounted<T>(counters: Counters)
    requires counters.success == 0 && counters.errors == 0 && counters.skipped == 0
    ensures counters.Counts<T>([])
  {
  }

  class Counters {
    var success: nat
    var errors: nat
    var skipped: nat

    constructor ()
      ensures success == 0 && errors == 0 && skipped == 0
    {
      success, errors, skipped := 0, 0, 0;
    }

    /** The counters stand for these results. */
    ghost predicate Counts<T>(results: seq<Result<T>>)
      reads this
    {
      errors == Failures(results) && skipped == Skips(results) && success + errors + skipped == |results|
    }

    method HandleResult<T>(r: Result<T>, ghost results: seq<Result<T>>)
      requires Counts(results)
      modifies this
      ensures Counts(results + [r])
    {
      assert (results + [r])[..|results|] == results;
      match r
      case Ok(_) => success := success + 1;
      case Err(e) =>
        if e == Cancelled {
          skipped := skipped + 1;
        } else {
          errors := errors + 1;
        }
    }

    method Summary<T>(ghost results: seq<Result<T>>) returns (r: Result<()>)
      requires Counts(results)
      ensures Verdict(results, r)
    {
      NothingCounted(results);
      r := if errors == 0 && skipped == 0 then Ok(()) else Err(BatchIncomplete(errors, skipped));
    }
  }
}
