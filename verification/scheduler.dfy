/**
 * CompleteSparkScheduler: the periodic sweep that completes every ACTIVE
 * spark whose raised amount has reached its goal.
 */
module CompleteSparkScheduler {
  import opened Common
  import opened Model
  import opened Collections
  import opened SparkService

  /**
   * The eligibility query: status ACTIVE and currentAmount >= goalAmount.
   * In SQL a NULL currentAmount compares as unknown, so such a spark never qualifies.
   */
  predicate EligibleForCompletion(s: Spark) {
    s.status == SparkStatus.Active && s.currentAmount.Some? && s.currentAmount.value >= s.goalAmount
  }

  /**
   * The reference sweep: eligible sparks completed, all others as they were.
   * It is what a tick that ends normally produces.
   */
  function Swept(sparks: map<SparkId, Spark>): map<SparkId, Spark> {
    map k | k in sparks :: if EligibleForCompletion(sparks[k]) then CompleteSpark(sparks[k]) else sparks[k]
  }

  /** The store after completeSpark has been called on each spark of `done`. */
  function CompleteAll(sparks: map<SparkId, Spark>, done: seq<SparkId>): map<SparkId, Spark> {
    map k | k in sparks :: if k in done then CompleteSpark(sparks[k]) else sparks[k]
  }

  /** Completing one more, not yet completed, spark extends the completed prefix by it. */
  lemma CompleteOneMore(sparks: map<SparkId, Spark>, done: seq<SparkId>, id: SparkId)
    requires id in sparks && id !in done
    ensures var before := CompleteAll(sparks, done);
      before[id := CompleteSpark(before[id])] == CompleteAll(sparks, done + [id])
  {
  }

  /** Completing every spark of the eligibility query is the reference sweep. */
  lemma FullTickIsSweep(sparks: map<SparkId, Spark>, queue: seq<SparkId>)
    requires forall k :: k in queue <==> k in sparks && EligibleForCompletion(sparks[k])
    ensures CompleteAll(sparks, queue) == Swept(sparks)
  {
  }

  /**
   * How many queued sparks one tick gets through. completeSpark saves the
   * spark and then calls the e-mail service; the first call that throws ends
   * the tick, after that spark's save.
   */
  function TickLength(queue: seq<SparkId>, mailFails: set<SparkId>): (n: nat)
    ensures n <= |queue|
    ensures forall i :: 0 <= i < n - 1 ==> queue[i] !in mailFails
    ensures n < |queue| ==> 0 < n && queue[n - 1] in mailFails
    decreases |queue|
  {
    if |queue| == 0 then 0
    else if queue[0] in mailFails then 1
    else
      var m := TickLength(queue[1..], mailFails);
      assert forall i :: 1 <= i < m ==> queue[i] == queue[1..][i - 1];
      1 + m
  }

  /** A tick that stops after `i` calls, the last one failing unless the queue ran out, got through `i` sparks. */
  lemma {:induction false} TickLengthAt(queue: seq<SparkId>, mailFails: set<SparkId>, i: nat)
    requires i <= |queue| && (i == |queue| || 0 < i)
    requires forall j :: 0 <= j < i - 1 ==> queue[j] !in mailFails
    requires i == |queue| || queue[i - 1] in mailFails
    ensures TickLength(queue, mailFails) == i
    decreases |queue|
  {
    if |queue| > 0 && queue[0] !in mailFails {
      forall j | 0 <= j < i - 2 ensures queue[1..][j] !in mailFails {
        assert queue[1..][j] == queue[j + 1];
      }
      if i - 1 < |queue| - 1 {
        assert queue[1..][i - 2] == queue[i - 1];
      }
      TickLengthAt(queue[1..], mailFails, i - 1);
    }
  }

  /**
   * completeSparks: `queue` is the eligibility query's answer (each eligible
   * id once); each queued spark is passed to completeSpark in query order,
   * and `completed` logs those calls. `mailFails` holds the sparks whose
   * completion e-mail call throws: the e-mail service is outside the model,
   * so its answer is an input. The tick has no transaction, so when a call
   * throws, the sparks completed so far stay completed and the rest of the
   * queue waits for the next tick.
   */
  method CompleteSparks(sparks: map<SparkId, Spark>, queue: seq<SparkId>, mailFails: set<SparkId>)
    returns (sparks': map<SparkId, Spark>, completed: seq<SparkId>, outcome: Outcome)
    requires forall k :: k in queue <==> k in sparks && EligibleForCompletion(sparks[k])
    requires forall i, j :: 0 <= i < j < |queue| ==> queue[i] != queue[j]
    ensures completed == queue[..TickLength(queue, mailFails)]
    ensures sparks'.Keys == sparks.Keys
    ensures sparks' == CompleteAll(sparks, completed)
    ensures outcome == Pass <==> forall i :: 0 <= i < |queue| ==> queue[i] !in mailFails
    ensures outcome != Pass ==> outcome == Fail(Remote) && completed[|completed| - 1] in mailFails
    ensures forall k :: k in sparks ==> (EligibleForCompletion(sparks'[k]) <==> k in queue[|completed|..])
    ensures outcome == Pass ==> sparks' == Swept(sparks)
    ensures outcome == Pass ==>
      forall k :: multiset(completed)[k] == if k in sparks && EligibleForCompletion(sparks[k]) then 1 else 0
    ensures |queue| == 0 ==> sparks' == sparks && completed == [] && outcome == Pass
  {
    sparks' := sparks;
    completed := [];
    outcome := Pass;
    var i := 0;
    while i < |queue| && outcome == Pass
      invariant 0 <= i <= |queue|
      invariant completed == queue[..i]
      invariant outcome == Pass <==> forall j :: 0 <= j < i ==> queue[j] !in mailFails
      invariant outcome != Pass ==> outcome == Fail(Remote) && 0 < i && queue[i - 1] in mailFails
      invariant forall j :: 0 <= j < i - 1 ==> queue[j] !in mailFails
      invariant sparks' == CompleteAll(sparks, queue[..i])
      decreases |queue| - i
    {
      var id := queue[i];
      assert id !in queue[..i];
      CompleteOneMore(sparks, queue[..i], id);
      sparks' := sparks'[id := CompleteSpark(sparks'[id])];
      completed := completed + [id];
      if id in mailFails {
        outcome := Fail(Remote);
      }
      assert queue[..i + 1] == queue[..i] + [id];
      i := i + 1;
    }
    TickLengthAt(queue, mailFails, i);
    FailedTickThenRetry(sparks, queue, i);
    if outcome == Pass {
      assert queue[..|queue|] == queue;
      FullTickIsSweep(sparks, queue);
      forall k ensures multiset(completed)[k] == if k in sparks && EligibleForCompletion(sparks[k]) then 1 else 0 {
        DistinctCountsOnce(queue, k);
      }
    }
  }

  /** The reference sweep changes exactly the eligible sparks, and never their amounts. */
  lemma SweepChangesExactlyEligible(sparks: map<SparkId, Spark>)
    ensures Swept(sparks).Keys == sparks.Keys
    ensures forall k :: k in sparks ==>
      (Swept(sparks)[k] != sparks[k] <==> EligibleForCompletion(sparks[k]))
    ensures forall k :: k in sparks ==>
      Raised(Swept(sparks)[k]) == Raised(sparks[k]) && Swept(sparks)[k].goalAmount == sparks[k].goalAmount
  {
    forall k | k in sparks && EligibleForCompletion(sparks[k]) ensures Swept(sparks)[k] != sparks[k] {
      assert Swept(sparks)[k].status != sparks[k].status;
    }
  }

  /** After the reference sweep nothing is eligible, so sweeping again changes nothing. */
  lemma SweepIdempotent(sparks: map<SparkId, Spark>)
    ensures forall k :: k in Swept(sparks) ==> !EligibleForCompletion(Swept(sparks)[k])
    ensures Swept(Swept(sparks)) == Swept(sparks)
  {
    var once := Swept(sparks);
    assert forall k :: k in once ==> !EligibleForCompletion(once[k]);
    assert Swept(once) == once;
  }

  /**
   * A tick that stopped early leaves for the next tick exactly the queued
   * sparks it did not reach, and sweeping them yields the reference sweep of
   * the original store: a failed tick delays completions but loses none.
   * With CompleteSparks' `outcome == Pass` guarantee, a next tick whose
   * e-mail calls all return finishes what the failed one started.
   */
  lemma FailedTickThenRetry(sparks: map<SparkId, Spark>, queue: seq<SparkId>, n: nat)
    requires forall k :: k in queue <==> k in sparks && EligibleForCompletion(sparks[k])
    requires forall i, j :: 0 <= i < j < |queue| ==> queue[i] != queue[j]
    requires n <= |queue|
    ensures var after := CompleteAll(sparks, queue[..n]);
      && (forall k :: k in queue[n..] <==> k in after && EligibleForCompletion(after[k]))
      && (forall i, j :: 0 <= i < j < |queue[n..]| ==> queue[n..][i] != queue[n..][j])
      && Swept(after) == Swept(sparks)
  {
  }
}
