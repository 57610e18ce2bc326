// Whole runs of the pipeline: termination, completion, order and memory.
module PipelineRuns {
  import opened Sets
  import opened Pipeline
  import opened PipelineBounds
  import OrderedConsumer

  ghost predicate RunStep(states: seq<State>, actions: seq<Action>, end: nat, i: nat)
    requires i < |actions| && |states| == |actions| + 1
  {
    Enabled(states[i], actions[i]) && states[i + 1] == Step(states[i], actions[i], end)
  }

  ghost predicate IsRun(states: seq<State>, actions: seq<Action>, start: nat, end: nat) {
    && |states| == |actions| + 1 && Init(states[0], start, end)
    && forall i :: 0 <= i < |actions| ==> RunStep(states, actions, end, i)
  }

  /** The last state of a run. */
  function Last(states: seq<State>): State
    requires |states| > 0
  {
    states[|states| - 1]
  }

  ghost predicate Stuck(s: State) { forall a :: !Enabled(s, a) }

  lemma RunSnoc(states: seq<State>, actions: seq<Action>, start: nat, end: nat, a: Action)
    requires IsRun(states, actions, start, end) && Enabled(Last(states), a)
    ensures IsRun(states + [Step(Last(states), a, end)], actions + [a], start, end)
  {
    var states', actions' := states + [Step(Last(states), a, end)], actions + [a];
    forall i | 0 <= i < |actions'| ensures RunStep(states', actions', end, i) {
      assert i < |actions| ==> RunStep(states, actions, end, i);
    }
  }

  lemma Extend(states: seq<State>, actions: seq<Action>, start: nat, end: nat, a: Action)
    returns (states': seq<State>, actions': seq<Action>)
    requires IsRun(states, actions, start, end) && Enabled(Last(states), a)
    ensures IsRun(states', actions', start, end) && states'[0] == states[0]
    ensures Last(states') == Step(Last(states), a, end)
  {
    RunSnoc(states, actions, start, end, a);
    states', actions' := states + [Step(Last(states), a, end)], actions + [a];
  }

  function StepLimit(workers: nat, start: nat, end: nat): nat
    requires start <= end
  {
    Times(workers + 1, 16 * (end - start)) + workers
  }

  /** The state after `i` steps: invariant, bound, and what the rank still allows. */
  ghost predicate Reached(
    s: State, at: Places, start: nat, end: nat, orphans: set<nat>, workers: nat, i: nat)
  {
    && start <= end && Inv(s, at, start, end) && Bounded(s, at)
    && |s.workers| == workers && s.orphans == orphans
    && Covers(at, start, end) && Rank(s, at, start, end) + i <= StepLimit(workers, start, end)
  }

  lemma QuietReached(s: State, at: Places, start: nat, end: nat)
    requires start <= end && Inv(s, at, start, end) && s.depth <= REORDER_HIGH && s.phase.Recv?
    ensures Reached(s, at, start, end, s.orphans, |s.workers|, 0)
  {
    hide QueuesAt;
    hide WorkersAt;
    hide ChannelAt;
    hide BufferAt;
    hide SkippedAt;
    hide ConsumerAt;
    hide AscendingWork;
    hide Bounded;
    hide Work;
    var n := |s.workers|;
    assert Covers(at, start, end);
    WorkBound(at, start, end);
    IndexCount(n, Starved(s));
    TimesGrows(n + 1, Work(at, start, end), 16 * (end - start));
    BoundedBelowWatermark(s, at, start, end);
  }

  lemma InitReached(s: State, start: nat, end: nat)
    requires Init(s, start, end)
    ensures Reached(s, InitPlaces(s, start, end), start, end, s.orphans, |s.workers|, 0)
  {
    InitEstablishes(s, start, end);
    QuietReached(s, InitPlaces(s, start, end), start, end);
  }

  lemma StepReached(
    s: State, at: Places, start: nat, end: nat, orphans: set<nat>, workers: nat, i: nat, a: Action)
    requires Reached(s, at, start, end, orphans, workers, i) && Enabled(s, a)
    ensures Reached(Step(s, a, end), Moved(s, at, a), start, end, orphans, workers, i + 1)
  {
    hide Inv;
    hide Bounded;
    hide Rank;
    StepKeepsInv(s, at, start, end, a);
    StepKeepsBound(s, at, start, end, a);
    StepLowersRank(s, at, start, end, a);
  }

  lemma {:induction false} RunFacts(states: seq<State>, actions: seq<Action>, start: nat, end: nat, i: nat)
    returns (at: Places)
    requires IsRun(states, actions, start, end) && i <= |actions|
    ensures Reached(states[i], at, start, end, states[0].orphans, |states[0].workers|, i)
  {
    hide Reached;
    hide Init;
    hide Enabled;
    hide Step;
    hide Moved;
    if i == 0 {
      InitReached(states[0], start, end);
      at := InitPlaces(states[0], start, end);
    } else {
      var before := RunFacts(states, actions, start, end, i - 1);
      assert RunStep(states, actions, end, i - 1);
      StepReached(states[i - 1], before, start, end, states[0].orphans, |states[0].workers|, i - 1, actions[i - 1]);
      at := Moved(states[i - 1], before, actions[i - 1]);
    }
  }

  lemma SameOrphans(states: seq<State>, actions: seq<Action>, start: nat, end: nat)
    requires start <= end && IsRun(states, actions, start, end)
    ensures Last(states).orphans == states[0].orphans && |Last(states).workers| == |states[0].workers|
  {
    var at := RunFacts(states, actions, start, end, |actions|);
  }

  /** Every run ends: its length is bounded by the heights and the workers alone. */
  lemma RunsTerminate(states: seq<State>, actions: seq<Action>, start: nat, end: nat)
    requires IsRun(states, actions, start, end)
    ensures |actions| <= StepLimit(|states[0].workers|, start, end)
  {
    var at := RunFacts(states, actions, start, end, |actions|);
  }

  lemma NeverFacesSkip(s: State, at: Places, start: nat, end: nat)
    requires Inv(s, at, start, end) && OrderedConsumer.NoBlockThenSkip(start, end, s.orphans)
    ensures !FacesSkip(s)
  {
    assert s.next in s.skipped ==> s.next in at && s.next in s.orphans;
  }

  /** Every height once, in ascending order. */
  ghost predicate Finished(s: State, start: nat, end: nat)
    requires start <= end
  {
    s.phase.Done? && s.handled == seq(end - start, i => start + i)
  }

  lemma StuckFinished(s: State, at: Places, start: nat, end: nat)
    requires start <= end && Inv(s, at, start, end) && Stuck(s) && !FacesSkip(s)
    ensures Finished(s, start, end)
  {
    if !s.phase.Done? {
      var a := SomeStepEnabled(s, at, start, end);
      assert false;
    }
  }

  /** With no skip right after a block, a run that can go no further has handled every height. */
  lemma StuckMeansDone(states: seq<State>, actions: seq<Action>, start: nat, end: nat)
    requires start <= end && IsRun(states, actions, start, end) && Stuck(Last(states))
    requires OrderedConsumer.NoBlockThenSkip(start, end, states[0].orphans)
    ensures Finished(Last(states), start, end)
  {
    hide Inv;
    hide Init;
    hide Stuck;
    hide FacesSkip;
    var at := RunFacts(states, actions, start, end, |actions|);
    NeverFacesSkip(Last(states), at, start, end);
    StuckFinished(Last(states), at, start, end);
  }

  /**
   * The reorder buffer at every moment: never more than the watermark, the channel and
   * the workers together allow and one; one less whenever the consumer is about to receive,
   * unless it waits for a height it has already been told to skip. Skips take no room in
   * it. The counter lags or leads by the block just inserted or removed, if any.
   */
  lemma BufferBounded(states: seq<State>, actions: seq<Action>, start: nat, end: nat, i: nat)
    requires IsRun(states, actions, start, end) && i <= |actions|
    ensures CounterAt(states[i]) && states[i].buffer !! states[0].orphans
    ensures |states[i].buffer| <= 545 + |states[0].workers|
    ensures states[i].phase.Recv? && !FacesSkip(states[i]) ==> |states[i].buffer| <= 544 + |states[0].workers|
  {
    var at := RunFacts(states, actions, start, end, i);
    BufferSize(states[i], at, start, end);
    if states[i].phase.Recv? && !FacesSkip(states[i]) {
      ReceivingUnsettled(states[i], at, start, end);
    }
  }

  lemma ReceivingUnsettled(s: State, at: Places, start: nat, end: nat)
    requires Inv(s, at, start, end) && s.phase.Recv? && !FacesSkip(s)
    ensures s.next in Unsettled(at) && s.next !in s.buffer
  {
  }

  /** Safety at every moment: what has been handled is an ascending run from the start. */
  lemma HandledInOrder(states: seq<State>, actions: seq<Action>, start: nat, end: nat, i: nat)
    requires IsRun(states, actions, start, end) && i <= |actions|
    ensures start <= states[i].next <= end
    ensures states[i].handled == seq(states[i].next - start, k => start + k)
  {
    var at := RunFacts(states, actions, start, end, i);
  }
}
