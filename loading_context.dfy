/**
 * The global loading indicator: a counter of running operations that never goes below
 * zero, and a bracket that holds it up while a function runs.
 */
module LoadingContext {
  import opened Wrappers

  /** The counter after `start`. */
  function Started(count: nat): nat {
    count + 1
  }

  /** The counter after `stop`: `Math.max(0, count - 1)`. */
  function Stopped(count: nat): (r: nat)
    ensures count == 0 ==> r == 0
    ensures count > 0 ==> r + 1 == count
  {
    if count == 0 then 0 else count - 1
  }

  datatype LoadingOp = Start | Stop

  /** The counter after a run of `start`/`stop` calls. */
  function Run(count: nat, ops: seq<LoadingOp>): nat
    decreases |ops|
  {
    if ops == [] then count
    else Run(match ops[0] case Start => Started(count) case Stop => Stopped(count), ops[1..])
  }

  function Repeat(op: LoadingOp, n: nat): (r: seq<LoadingOp>)
    ensures |r| == n
  {
    if n == 0 then [] else [op] + Repeat(op, n - 1)
  }

  lemma {:induction false} RunConcat(count: nat, a: seq<LoadingOp>, b: seq<LoadingOp>)
    ensures Run(count, a + b) == Run(Run(count, a), b)
    decreases |a|
  {
    if a != [] {
      var next := match a[0] case Start => Started(count) case Stop => Stopped(count);
      assert (a + b)[0] == a[0] && (a + b)[1..] == a[1..] + b;
      assert Run(count, a + b) == Run(next, a[1..] + b);
      RunConcat(next, a[1..], b);
    } else {
      assert a + b == b;
    }
  }

  lemma {:induction false} RunStarts(count: nat, n: nat)
    ensures Run(count, Repeat(Start, n)) == count + n
    decreases n
  {
    if n > 0 {
      RunStarts(count + 1, n - 1);
    }
  }

  lemma {:induction false} RunStops(count: nat, n: nat)
    requires n <= count
    ensures Run(count, Repeat(Stop, n)) == count - n
  {
    if n > 0 {
      RunStops(count - 1, n - 1);
    }
  }

  /** n `start`s followed by n `stop`s put the counter back where it was. */
  lemma StartsThenStopsRestore(count: nat, n: nat)
    ensures Run(count, Repeat(Start, n) + Repeat(Stop, n)) == count
  {
    RunConcat(count, Repeat(Start, n), Repeat(Stop, n));
    RunStarts(count, n);
    RunStops(count + n, n);
  }

  /** A surplus `stop` is absorbed at zero, so it is not undone by a later `start`. */
  lemma StopAtZeroAbsorbed()
    ensures Run(0, [Stop, Start]) == 1
    ensures Run(0, [Stop]) == 0
  {
  }

  class LoadingProvider {
    /** `counterRef.current`. */
    var counter: nat
    /** The rendered `loadingCount` state. */
    var loadingCount: nat

    /** Every operation leaves the rendered count equal to the ref. */
    predicate Valid()
      reads this
    {
      loadingCount == counter
    }

    constructor()
      ensures Valid() && counter == 0
    {
      counter := 0;
      loadingCount := 0;
    }

    predicate IsLoading()
      reads this
    {
      loadingCount > 0
    }

    method Start()
      modifies this
      ensures Valid() && counter == Started(old(counter))
    {
      counter := counter + 1;
      loadingCount := counter;
    }

    method Stop()
      modifies this
      ensures Valid() && counter == Stopped(old(counter))
    {
      counter := if counter == 0 then 0 else counter - 1;
      loadingCount := counter;
    }

    /** `withLoading(fn)`, where `outcome` is what `fn` returns or throws. The outcome is
        passed through; `loadingWhileRunning` is `isLoading` as `fn` sees it. */
    method WithLoading<T>(outcome: Result<T>) returns (r: Result<T>, loadingWhileRunning: bool)
      requires Valid()
      modifies this
      ensures Valid() && counter == old(counter)
      ensures r == outcome
      ensures loadingWhileRunning
    {
      Start();
      loadingWhileRunning := IsLoading();
      r := outcome;
      Stop();
    }
  }
}
