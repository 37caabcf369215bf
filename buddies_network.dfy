/**
 * The network manager of BuddiesNetwork: a batch loader that keeps at most
 * four requests in flight, the per-request lookup that counts dispatched
 * requests, and the mapping of one fetch outcome to a `Result`.
 *
 * The HTTP client is not modelled: what fetching one request gives is the
 * function `fetch`, fixed when the manager is created. Whether a payload has
 * the type the caller expects is the predicate `isT`, passed on each call, as
 * the Swift methods pick their result type `T` on each call.
 */
module BuddiesNetwork {
  import opened SlidingWindow

  datatype Option<+T> = None | Some(value: T)
  {
    /** The wrapped value, or `default` for `None` (Swift's `??`). */
    function GetOr(default: T): T
    {
      match this
      case Some(v) => v
      case None => default
    }
  }

  /** The errors the manager itself produces. */
  datatype NetworkError = IndexNotFound | NoValidUrl | NoValidData | NoDecodable

  /** An error in a result: one of the manager's own, or one thrown by the HTTP client. */
  datatype Error<+E> = Network(kind: NetworkError) | Transport(cause: E)

  datatype Result<+T, +E> = Success(value: T) | Failure(error: E)

  /** What the HTTP client gives for one request: a payload, or a thrown error. */
  datatype Outcome<+D, +E> = Received(data: D) | Thrown(cause: E)

  /**
   * One request's result from the client's outcome. A thrown error is passed
   * on unchanged, a payload that is not of the expected type is `NoValidData`,
   * and any other payload is the success value; no other error kind arises.
   */
  function LoadData<D, E>(outcome: Outcome<D, E>, isT: D -> bool): (r: Result<D, Error<E>>)
    ensures r.Success? <==> outcome.Received? && isT(outcome.data)
    ensures r.Success? ==> r.value == outcome.data
    ensures r.Failure? && r.error.Transport? <==> outcome.Thrown?
    ensures outcome.Thrown? ==> r.error.cause == outcome.cause
    ensures r.Failure? && r.error.Network? ==> r.error.kind == NoValidData
  {
    match outcome
    case Thrown(e) => Failure(Transport(e))
    case Received(data) => if isT(data) then Success(data) else Failure(Network(NoValidData))
  }

  class NetworkManager<R, D, E> {
    /** The HTTP client: what fetching one request gives. */
    const fetch: R -> Outcome<D, E>
    /** The requests of the current batch; absent until the first batch. */
    var arrRqModel: Option<seq<R>>
    /** How many requests were looked up and sent, over the manager's life. */
    var completedCount: nat

    constructor (fetch: R -> Outcome<D, E>)
      ensures this.fetch == fetch
      ensures arrRqModel == None && completedCount == 0
    {
      this.fetch := fetch;
      arrRqModel := None;
      completedCount := 0;
    }

    /** What the manager makes of one request: the client's outcome, mapped to a result for the type `isT` accepts. */
    function Load(req: R, isT: D -> bool): Result<D, Error<E>>
    {
      LoadData(fetch(req), isT)
    }

    /**
     * Looks up request `index` of the current batch and fetches it. Without a
     * stored batch the result is `IndexNotFound` and nothing is counted;
     * otherwise the request is counted before its outcome is known. An index
     * past the end of the stored batch is a trap, not an error result.
     */
    method GetUrlToLoad(index: nat, isT: D -> bool) returns (r: Result<D, Error<E>>)
      requires arrRqModel.Some? ==> index < |arrRqModel.value|
      modifies this`completedCount
      ensures arrRqModel.None? ==> r == Failure(Network(IndexNotFound))
      ensures arrRqModel.None? ==> completedCount == old(completedCount)
      ensures arrRqModel.Some? ==> r == Load(arrRqModel.value[index], isT)
      ensures arrRqModel.Some? ==> completedCount == old(completedCount) + 1
    {
      match arrRqModel
      case None =>
        return Failure(Network(IndexNotFound));
      case Some(requests) =>
        var urlRq := requests[index];
        completedCount := completedCount + 1;
        r := LoadData(fetch(urlRq), isT);
    }

    /**
     * The first wave: one task for each index below `count`, each of which
     * looks up and fetches its request as soon as it is launched. The task
     * group maps each launched index to the value its task will deliver.
     */
    method LaunchFirstWave(count: nat, isT: D -> bool) returns (group: map<nat, Option<Result<D, Error<E>>>>)
      requires arrRqModel.Some? && count <= |arrRqModel.value|
      modifies this`completedCount
      ensures forall i: int :: i in group <==> 0 <= i < count
      ensures forall i | i in group :: group[i] == Some(Load(arrRqModel.value[i], isT))
      ensures completedCount == old(completedCount) + count
    {
      group := map[];
      for t := 0 to count
        invariant forall i: int :: i in group <==> 0 <= i < t
        invariant completedCount == old(completedCount) + t
        invariant forall i | i in group :: group[i] == Some(Load(arrRqModel.value[i], isT))
      {
        var r := GetUrlToLoad(t, isT);
        group := group[t := Some(r)];
      }
    }

    /** The results of the requests at the indices `order`, in that order. */
    function Loaded(reqs: seq<R>, isT: D -> bool, order: seq<nat>): (r: seq<Result<D, Error<E>>>)
      requires forall k | 0 <= k < |order| :: order[k] < |reqs|
      ensures |r| == |order|
      ensures forall k | 0 <= k < |order| :: r[k] == Load(reqs[order[k]], isT)
      decreases |order|
    {
      if order == [] then []
      else Loaded(reqs, isT, order[..|order| - 1]) + [Load(reqs[order[|order| - 1]], isT)]
    }

    /** One more finished index adds its result at the end. */
    lemma LoadedAppend(reqs: seq<R>, isT: D -> bool, order: seq<nat>, i: nat)
      requires forall k | 0 <= k < |order| :: order[k] < |reqs|
      requires i < |reqs|
      ensures Loaded(reqs, isT, order + [i]) == Loaded(reqs, isT, order) + [Load(reqs[i], isT)]
    {
    }

    /**
     * The bookkeeping of a batch of `arrUrl` in progress: the task group holds
     * each launched, unfinished index with the value its task will deliver,
     * `results` holds the delivered values in the order `order` they finished
     * in, and `trace` is the execution of the sliding window so far, ending in
     * the current cursor, task group and finishing order.
     */
    ghost predicate InProgress(arrUrl: seq<R>, isT: D -> bool, group: map<nat, Option<Result<D, Error<E>>>>,
                               cursor: nat, results: seq<Result<D, Error<E>>>, order: seq<nat>, trace: seq<Window>)
    {
      && Run(trace, |arrUrl|)
      && trace[|trace| - 1] == Window(|arrUrl|, cursor, group.Keys, order)
      && (forall i | i in group :: i < |arrUrl| && group[i] == Some(Load(arrUrl[i], isT)))
      && (forall k | 0 <= k < |order| :: order[k] < |arrUrl|)
      && results == Loaded(arrUrl, isT, order)
    }

    /** Right after the first wave, the batch is in progress with nothing finished yet. */
    lemma FirstWaveInProgress(arrUrl: seq<R>, isT: D -> bool, group: map<nat, Option<Result<D, Error<E>>>>)
      requires forall i: int :: i in group <==> 0 <= i < Width(|arrUrl|)
      requires forall i | i in group :: i < |arrUrl| && group[i] == Some(Load(arrUrl[i], isT))
      ensures InProgress(arrUrl, isT, group, Width(|arrUrl|), [], [], [Start(|arrUrl|)])
    {
    }

    /**
     * A finished batch of `arrUrl`: `trace` is an execution of the sliding
     * window that ends with nothing in flight, `order` (the order the tasks
     * finished in) holds every index exactly once, and `results` holds the
     * result of each request in that order.
     */
    ghost predicate LoadedAll(arrUrl: seq<R>, isT: D -> bool, results: seq<Result<D, Error<E>>>,
                              order: seq<nat>, trace: seq<Window>)
    {
      && Run(trace, |arrUrl|)
      && trace[|trace| - 1] == Window(|arrUrl|, |arrUrl|, {}, order)
      && |order| == |arrUrl| && Distinct(order) && Elems(order) == Upto(|arrUrl|)
      && (forall k | 0 <= k < |order| :: order[k] < |arrUrl|)
      && results == Loaded(arrUrl, isT, order)
    }

    /**
     * In a finished batch every request has a result, and it is that
     * request's own: each index occurs in the finishing order, its result sits
     * at the same position, and no index occurs twice. The filter on absent
     * task values drops nothing.
     */
    lemma EveryRequestAnswered(arrUrl: seq<R>, isT: D -> bool, results: seq<Result<D, Error<E>>>,
                               order: seq<nat>, trace: seq<Window>)
      requires LoadedAll(arrUrl, isT, results, order, trace)
      ensures |results| == |arrUrl|
      ensures forall j | 0 <= j < |arrUrl| :: j in order
      ensures forall k | 0 <= k < |results| :: order[k] < |arrUrl| && results[k] == Load(arrUrl[order[k]], isT)
      ensures forall k, l | 0 <= k < l < |order| :: order[k] != order[l]
    {
      Covers(order, |arrUrl|);
    }

    /**
     * A finished batch never reports `noDecodable`, `indexNotFound` or
     * `noValidUrl`: the only error of the manager's own it can hold is
     * `noValidData`, and every other failure is a client error passed on.
     */
    lemma OnlyNoValidData(arrUrl: seq<R>, isT: D -> bool, results: seq<Result<D, Error<E>>>,
                          order: seq<nat>, trace: seq<Window>)
      requires LoadedAll(arrUrl, isT, results, order, trace)
      ensures forall k | 0 <= k < |results| ::
        results[k].Failure? && results[k].error.Network? ==> results[k].error.kind == NoValidData
    {
    }

    /** An empty batch is finished at once, with no results. */
    lemma LoadedNothing(isT: D -> bool)
      ensures LoadedAll([], isT, [], [], [Start(0)])
    {
    }

    /**
     * Once the task group is empty the batch is complete: the cursor reached
     * the end, every index finished exactly once, and `results` holds one value
     * per request.
     */
    lemma Finished(arrUrl: seq<R>, isT: D -> bool, group: map<nat, Option<Result<D, Error<E>>>>, cursor: nat,
                   results: seq<Result<D, Error<E>>>, order: seq<nat>, trace: seq<Window>)
      requires InProgress(arrUrl, isT, group, cursor, results, order, trace) && group.Keys == {}
      ensures cursor == |arrUrl|
      ensures LoadedAll(arrUrl, isT, results, order, trace)
    {
      RunLast(trace, |arrUrl|);
      Drained(trace[|trace| - 1]);
    }

    /**
     * The window bound while a batch is in progress: the task group never
     * holds more than `Width(|arrUrl|)` tasks, the cursor lies between
     * `Width(|arrUrl|)` and `|arrUrl|`, and each launched request is either
     * finished or in flight, so the cursor counts both.
     */
    lemma InProgressBounds(arrUrl: seq<R>, isT: D -> bool, group: map<nat, Option<Result<D, Error<E>>>>,
                           cursor: nat, results: seq<Result<D, Error<E>>>, order: seq<nat>, trace: seq<Window>)
      requires InProgress(arrUrl, isT, group, cursor, results, order, trace)
      ensures |group.Keys| <= Width(|arrUrl|)
      ensures Width(|arrUrl|) <= cursor <= |arrUrl|
      ensures cursor == |order| + |group.Keys|
    {
      RunLast(trace, |arrUrl|);
      InFlightCount(trace[|trace| - 1]);
    }

    /** The task group after the request under the cursor, if any, is launched. */
    function Relaunch(arrUrl: seq<R>, isT: D -> bool, group: map<nat, Option<Result<D, Error<E>>>>,
                      cursor: nat)
      : (group': map<nat, Option<Result<D, Error<E>>>>)
      ensures group'.Keys == if cursor < |arrUrl| then group.Keys + {cursor} else group.Keys
      ensures (forall j | j in group :: j < |arrUrl| && group[j] == Some(Load(arrUrl[j], isT))) ==>
                forall j | j in group' :: j < |arrUrl| && group'[j] == Some(Load(arrUrl[j], isT))
    {
      if cursor < |arrUrl| then group[cursor := Some(Load(arrUrl[cursor], isT))] else group
    }

    /**
     * After a task finished: if a request is left under the cursor, a task for
     * it is launched (and its request looked up and fetched) and the cursor
     * moves on; otherwise nothing happens.
     */
    method LaunchNext(arrUrl: seq<R>, isT: D -> bool, group: map<nat, Option<Result<D, Error<E>>>>, cursor: nat)
      returns (group': map<nat, Option<Result<D, Error<E>>>>, cursor': nat)
      requires arrRqModel == Some(arrUrl)
      modifies this`completedCount
      ensures cursor' == if cursor < |arrUrl| then cursor + 1 else cursor
      ensures group' == Relaunch(arrUrl, isT, group, cursor)
      ensures completedCount == old(completedCount) + (cursor' - cursor)
    {
      group', cursor' := group, cursor;
      if cursor < |arrUrl| {
        var r := GetUrlToLoad(cursor, isT);
        group' := group[cursor := Some(r)];
        cursor' := cursor + 1;
      }
    }

    /**
     * One round keeps the batch in progress: task `i` finishes, the request
     * under the cursor (if any) is launched, the finished task's value is
     * appended, and the execution goes on by `Complete`. The batch was not
     * over before the round.
     */
    lemma CollectStep(arrUrl: seq<R>, isT: D -> bool, group: map<nat, Option<Result<D, Error<E>>>>, cursor: nat,
                      results: seq<Result<D, Error<E>>>, order: seq<nat>, trace: seq<Window>, i: nat)
      requires InProgress(arrUrl, isT, group, cursor, results, order, trace) && i in group
      ensures |order| < |arrUrl|
      ensures InProgress(arrUrl, isT, Relaunch(arrUrl, isT, group - {i}, cursor),
                         if cursor < |arrUrl| then cursor + 1 else cursor, results + [Load(arrUrl[i], isT)], order + [i], trace + [Complete(trace[|trace| - 1], i)])
    {
      Advance(trace, |arrUrl|, i);
      LoadedAppend(arrUrl, isT, order, i);
      assert (group - {i}).Keys == group.Keys - {i};
    }

    /**
     * One round of the collecting loop: some task of the group, `finished`,
     * delivers its value; if a request is left, the one under the cursor is
     * launched and the cursor moves on; the delivered value is appended to the
     * results, and the window takes the matching `Complete` step.
     */
    method CollectNext(arrUrl: seq<R>, isT: D -> bool, group: map<nat, Option<Result<D, Error<E>>>>, cursor: nat,
                       results: seq<Result<D, Error<E>>>, ghost order: seq<nat>, ghost trace: seq<Window>)
      returns (group': map<nat, Option<Result<D, Error<E>>>>, cursor': nat,
               results': seq<Result<D, Error<E>>>, ghost order': seq<nat>, ghost trace': seq<Window>,
               ghost finished: nat)
      requires arrRqModel == Some(arrUrl) && group.Keys != {}
      requires InProgress(arrUrl, isT, group, cursor, results, order, trace)
      modifies this`completedCount
      ensures finished in group && finished < |arrUrl|
      ensures group' == Relaunch(arrUrl, isT, group - {finished}, cursor)
      ensures cursor' == if cursor < |arrUrl| then cursor + 1 else cursor
      ensures results' == results + [Load(arrUrl[finished], isT)]
      ensures order' == order + [finished] && |order'| <= |arrUrl|
      ensures trace' == trace + [Complete(trace[|trace| - 1], finished)]
      ensures InProgress(arrUrl, isT, group', cursor', results', order', trace')
      ensures completedCount == old(completedCount) + (cursor' - cursor)
    {
      var i: nat :| i in group;
      finished := i;
      var getDownload := group[i];
      group', cursor' := LaunchNext(arrUrl, isT, group - {i}, cursor);
      results' := results;
      if getDownload.Some? {
        results' := results + [getDownload.GetOr(Failure(Network(NoDecodable)))];
      }
      order', trace' := order + [i], trace + [Complete(trace[|trace| - 1], i)];
      CollectStep(arrUrl, isT, group, cursor, results, order, trace, i);
    }

    /**
     * Loads every request of `arrUrl` with at most `Width(|arrUrl|)` tasks in
     * flight. A task's body runs when it is launched; which in-flight task
     * finishes next is an arbitrary choice. The results come back in finishing
     * order: `order[k]` is the index whose result is `results[k]`, and `trace`
     * is the execution of the sliding window the loop went through. `busiest`
     * is the largest number of tasks the task group held after any launch: the
     * first wave fills the window and no later launch goes beyond it.
     */
    method LoadMultipleData(arrUrl: seq<R>, isT: D -> bool)
      returns (results: seq<Result<D, Error<E>>>, ghost order: seq<nat>, ghost trace: seq<Window>,
               ghost busiest: nat)
      modifies this`arrRqModel, this`completedCount
      ensures arrRqModel == if arrUrl == [] then old(arrRqModel) else Some(arrUrl)
      ensures completedCount == old(completedCount) + |arrUrl|
      ensures LoadedAll(arrUrl, isT, results, order, trace)
      ensures busiest == Width(|arrUrl|)
    {
      if arrUrl == [] {
        results, order, trace, busiest := [], [], [Start(0)], 0;
        LoadedNothing(isT);
        return;
      }
      arrRqModel := Some(arrUrl);
      var n := |arrUrl|;
      var maxRqTask: nat := Width(n);
      var nextTaskIndex: nat := maxRqTask;
      var group := LaunchFirstWave(maxRqTask, isT);
      results, order, trace := [], [], [Start(n)];
      FirstWaveInProgress(arrUrl, isT, group);
      InProgressBounds(arrUrl, isT, group, nextTaskIndex, results, order, trace);
      busiest := |group.Keys|;
      while group.Keys != {}
        invariant arrRqModel == Some(arrUrl)
        invariant InProgress(arrUrl, isT, group, nextTaskIndex, results, order, trace)
        invariant |group.Keys| <= busiest == maxRqTask <= nextTaskIndex <= n
        invariant completedCount == old(completedCount) + nextTaskIndex
        invariant completedCount == old(completedCount) + |order| + |group.Keys|
        invariant |order| <= n
        decreases n - |order|
      {
        ghost var finished;
        group, nextTaskIndex, results, order, trace, finished :=
          CollectNext(arrUrl, isT, group, nextTaskIndex, results, order, trace);
        InProgressBounds(arrUrl, isT, group, nextTaskIndex, results, order, trace);
        busiest := if |group.Keys| < busiest then busiest else |group.Keys|;
      }
      Finished(arrUrl, isT, group, nextTaskIndex, results, order, trace);
    }
  }
}
