/**
 * The scheduling rule of the batch loader, stated over values.
 *
 * A batch of `n` requests is identified by the indices `0..n-1`. The loader
 * starts a first wave of `Width(n)` tasks, keeps a cursor on the next index not
 * yet launched, and each time one task finishes launches at most one more (the
 * one under the cursor). A `Window` is a snapshot of that bookkeeping; `Run`
 * says that a sequence of snapshots is a legal execution, whatever order the
 * tasks finish in.
 */
module SlidingWindow {

  /** The largest number of requests the loader keeps in flight. */
  const MaxTasks: nat := 4

  /** Size of the first wave for a batch of `n` requests: the smaller of 4 and `n`. */
  function Width(n: nat): (w: nat)
    ensures w <= MaxTasks && w <= n
    ensures w == MaxTasks || w == n
  {
    if n < MaxTasks then n else MaxTasks
  }

  /** The indices `0..k-1`. */
  function Upto(k: nat): set<nat>
  {
    if k == 0 then {} else Upto(k - 1) + {k - 1}
  }

  /** `Upto(k)` holds exactly the `k` indices below `k`. */
  lemma {:induction false} UptoFacts(k: nat)
    ensures forall i: int :: i in Upto(k) <==> 0 <= i < k
    ensures |Upto(k)| == k
  {
    if k > 0 {
      UptoFacts(k - 1);
    }
  }

  /** The indices that occur in `s`. */
  function Elems(s: seq<nat>): set<nat>
  {
    set x | x in s
  }

  /** No index occurs twice in `s`. */
  predicate Distinct(s: seq<nat>)
  {
    forall j, k | 0 <= j < k < |s| :: s[j] != s[k]
  }

  lemma {:induction false} DistinctCard(s: seq<nat>)
    requires Distinct(s)
    ensures |Elems(s)| == |s|
  {
    if s != [] {
      var t, x := s[..|s| - 1], s[|s| - 1];
      assert Distinct(t);
      DistinctCard(t);
      assert s == t + [x];
      assert Elems(s) == Elems(t) + {x};
      assert x !in Elems(t);
    }
  }

  /** `k`, but no more than `n`. */
  function Cap(k: nat, n: nat): (c: nat)
    ensures c <= n && c <= k
    ensures c == k || c == n
  {
    if k <= n then k else n
  }

  /**
   * One snapshot of a batch of `n` requests: `cursor` is the next index to
   * launch, `inFlight` the tasks launched and not yet finished, `done` the
   * finished ones in the order they finished.
   */
  datatype Window = Window(n: nat, cursor: nat, inFlight: set<nat>, done: seq<nat>)

  /**
   * The invariant of the sliding window: the cursor is `Width(n)` plus the
   * number of finished tasks, capped at `n`; the launched indices are exactly
   * `0..cursor-1`, each of them either in flight or finished, never both, and
   * none finished twice.
   */
  ghost predicate Valid(w: Window)
  {
    && w.cursor == Cap(Width(w.n) + |w.done|, w.n)
    && Distinct(w.done)
    && w.inFlight !! Elems(w.done)
    && w.inFlight + Elems(w.done) == Upto(w.cursor)
  }

  /** The state right after the first wave: indices `0..Width(n)-1` in flight. */
  function Start(n: nat): (w: Window)
    ensures w.n == n && w.cursor == Width(n) && w.done == []
    ensures forall i: int :: i in w.inFlight <==> 0 <= i < Width(n)
  {
    UptoFacts(Width(n));
    Window(n, Width(n), Upto(Width(n)), [])
  }

  /** The first wave satisfies the invariant. */
  lemma StartValid(n: nat)
    ensures Valid(Start(n))
  {
  }

  /** Whether the cursor still points at a request that was not launched. */
  predicate HasNext(w: Window)
  {
    w.cursor < w.n
  }

  /**
   * Task `i` finishes: it leaves the in-flight set and is appended to `done`;
   * if an index is left, the one under the cursor is launched and the cursor
   * moves on by one.
   */
  function Complete(w: Window, i: nat): (r: Window)
    requires i in w.inFlight
    ensures r.n == w.n && r.done == w.done + [i]
    ensures r.cursor == w.cursor + (if HasNext(w) then 1 else 0)
    ensures r.inFlight - (w.inFlight - {i}) <= {w.cursor}
  {
    if HasNext(w) then Window(w.n, w.cursor + 1, w.inFlight - {i} + {w.cursor}, w.done + [i])
    else Window(w.n, w.cursor, w.inFlight - {i}, w.done + [i])
  }

  /** The number of tasks in flight never exceeds the window, and is the window until requests run out. */
  lemma InFlightCount(w: Window)
    requires Valid(w)
    ensures |w.done| <= w.cursor <= w.n
    ensures |w.inFlight| == w.cursor - |w.done|
    ensures |w.inFlight| == (if w.n - |w.done| < Width(w.n) then w.n - |w.done| else Width(w.n))
    ensures |w.inFlight| <= Width(w.n)
  {
    DistinctCard(w.done);
    UptoFacts(w.cursor);
    assert w.inFlight * Elems(w.done) == {};
  }

  lemma ElemsAppend(s: seq<nat>, x: nat)
    ensures Elems(s + [x]) == Elems(s) + {x}
  {
  }

  lemma DistinctAppend(s: seq<nat>, x: nat)
    requires Distinct(s) && x !in Elems(s)
    ensures Distinct(s + [x])
  {
  }

  lemma UptoNext(k: nat)
    ensures Upto(k + 1) == Upto(k) + {k} && k !in Upto(k)
  {
    UptoFacts(k);
  }

  /** Finishing a task moves the cursor by the rule of the invariant. */
  lemma CompleteCursor(w: Window, i: nat)
    requires Valid(w) && i in w.inFlight
    ensures Complete(w, i).cursor == Cap(Width(w.n) + |w.done| + 1, w.n)
  {
  }

  /** Finishing a task keeps the launched indices split into in flight and finished. */
  lemma CompleteSplit(w: Window, i: nat)
    requires Valid(w) && i in w.inFlight
    ensures Distinct(Complete(w, i).done)
    ensures Complete(w, i).inFlight !! Elems(Complete(w, i).done)
    ensures Complete(w, i).inFlight + Elems(Complete(w, i).done) == Upto(Complete(w, i).cursor)
  {
    var r := Complete(w, i);
    assert i !in Elems(w.done);
    DistinctAppend(w.done, i);
    ElemsAppend(w.done, i);
    UptoNext(w.cursor);
    if HasNext(w) {
      assert w.cursor !in w.inFlight + Elems(w.done);
      assert r.inFlight == w.inFlight - {i} + {w.cursor};
    } else {
      assert r.inFlight == w.inFlight - {i};
    }
  }

  /** Finishing a task keeps the invariant. */
  lemma CompleteKeepsValid(w: Window, i: nat)
    requires Valid(w) && i in w.inFlight
    ensures Valid(Complete(w, i))
  {
    CompleteCursor(w, i);
    CompleteSplit(w, i);
  }

  /** Finishing a task never raises the number of tasks in flight: it launches at most one. */
  lemma CompleteLaunchesAtMostOne(w: Window, i: nat)
    requires Valid(w) && i in w.inFlight
    ensures |Complete(w, i).inFlight| <= |w.inFlight|
  {
  }

  /**
   * The batch is over exactly when every request finished: then nothing is in
   * flight, the cursor reached `n` and every index finished exactly once.
   */
  lemma Drained(w: Window)
    requires Valid(w)
    ensures w.inFlight == {} <==> |w.done| == w.n
    ensures w.inFlight == {} ==> w.cursor == w.n && Elems(w.done) == Upto(w.n)
  {
    InFlightCount(w);
  }

  /** A finishing order that covers `Upto(n)` holds every index below `n`. */
  lemma Covers(done: seq<nat>, n: nat)
    requires Elems(done) == Upto(n)
    ensures forall j | 0 <= j < n :: j in done
  {
    UptoFacts(n);
    forall j | 0 <= j < n
      ensures j in done
    {
      assert j in Elems(done);
    }
  }

  /** One task finishes. */
  ghost predicate Step(w: Window, w': Window)
  {
    exists i :: i in w.inFlight && w' == Complete(w, i)
  }

  /** `trace` is an execution of a batch of `n` requests, from the first wave on. */
  ghost predicate Run(trace: seq<Window>, n: nat)
    decreases |trace|
  {
    if |trace| <= 1 then trace == [Start(n)]
    else Run(trace[..|trace| - 1], n) && Step(trace[|trace| - 2], trace[|trace| - 1])
  }

  /** An execution goes on by any in-flight task finishing. */
  lemma RunExtend(trace: seq<Window>, n: nat, i: nat)
    requires Run(trace, n) && i in trace[|trace| - 1].inFlight
    ensures Run(trace + [Complete(trace[|trace| - 1], i)], n)
  {
  }

  /** Every prefix of an execution is an execution. */
  lemma {:induction false} RunPrefix(trace: seq<Window>, n: nat, k: nat)
    requires Run(trace, n) && 0 < k <= |trace|
    ensures Run(trace[..k], n)
    decreases |trace|
  {
    if k < |trace| {
      var prefix := trace[..|trace| - 1];
      RunPrefix(prefix, n, k);
      assert prefix[..k] == trace[..k];
    } else {
      assert trace[..k] == trace;
    }
  }

  /** The last snapshot of an execution satisfies the invariant. */
  lemma {:induction false} RunLast(trace: seq<Window>, n: nat)
    requires Run(trace, n)
    ensures Valid(trace[|trace| - 1]) && trace[|trace| - 1].n == n
    decreases |trace|
  {
    if |trace| == 1 {
      StartValid(n);
    } else {
      var prefix := trace[..|trace| - 1];
      RunLast(prefix, n);
      var w := trace[|trace| - 2];
      assert w == prefix[|prefix| - 1];
      var i :| i in w.inFlight && trace[|trace| - 1] == Complete(w, i);
      CompleteKeepsValid(w, i);
    }
  }

  /** Every snapshot of an execution satisfies the invariant. */
  lemma RunValid(trace: seq<Window>, n: nat, k: nat)
    requires Run(trace, n) && k < |trace|
    ensures Valid(trace[k]) && trace[k].n == n
  {
    RunPrefix(trace, n, k + 1);
    RunLast(trace[..k + 1], n);
  }

  /** One more task of an execution finishes: the execution goes on, and the batch was not over. */
  lemma Advance(trace: seq<Window>, n: nat, i: nat)
    requires Run(trace, n) && i in trace[|trace| - 1].inFlight
    ensures Run(trace + [Complete(trace[|trace| - 1], i)], n)
    ensures |trace[|trace| - 1].done| < n
  {
    RunExtend(trace, n, i);
    RunLast(trace, n);
    InFlightCount(trace[|trace| - 1]);
  }

  /**
   * The window bound: at no point of an execution are more than `Width(n)`
   * tasks in flight, the cursor stays within `Width(n)..n`, and every index
   * launched so far is either in flight or finished exactly once.
   */
  lemma WindowBound(trace: seq<Window>, n: nat)
    requires Run(trace, n)
    ensures forall k | 0 <= k < |trace| ::
      && |trace[k].inFlight| <= Width(n)
      && Width(n) <= trace[k].cursor <= n
      && trace[k].inFlight + Elems(trace[k].done) == Upto(trace[k].cursor)
  {
    forall k | 0 <= k < |trace|
      ensures |trace[k].inFlight| <= Width(n)
      ensures Width(n) <= trace[k].cursor <= n
      ensures trace[k].inFlight + Elems(trace[k].done) == Upto(trace[k].cursor)
    {
      RunValid(trace, n, k);
      InFlightCount(trace[k]);
    }
  }
}
