// When the pipeline fails to finish: a skip right after a block, and two workers.
module PipelineJam {
  import opened Pipeline
  import opened PipelineRuns

  // ---- A jam, once reached, is never left ----

  predicate AllIdle(s: State) {
    |s.queues| == |s.workers| && forall w :: 0 <= w < |s.workers| ==> s.workers[w].Idle? && s.queues[w] == {}
  }

  /** A worker spins on the backpressure check with the counter above the watermark. */
  predicate Spins(s: State) {
    s.depth > REORDER_HIGH && exists w :: 0 <= w < |s.workers| && s.workers[w].Waiting?
  }

  predicate NoneParsing(s: State) { forall w :: 0 <= w < |s.workers| ==> !s.workers[w].Parsing? }

  /**
   * The consumer waits for a height it was told to skip, nothing is on its way to it,
   * and no worker will send anything: all are out of work, or held back.
   */
  predicate Jammed(s: State) {
    FacesSkip(s) && s.channel == [] && NoneParsing(s) && (Spins(s) || AllIdle(s))
  }

  lemma JamHolds(s: State, at: Places, start: nat, end: nat, a: Action)
    requires Inv(s, at, start, end) && Jammed(s) && Enabled(s, a)
    ensures Jammed(Step(s, a, end)) && Spins(Step(s, a, end)) && Spins(s)
    ensures Step(s, a, end).next == s.next
  {
    hide QueuesAt;
    hide ChannelAt;
    hide BufferAt;
    hide ConsumerAt;
    hide AscendingWork;
    if a.Pass? {
      assert HeldAt(a.w, s.workers[a.w], at);
      assert at[s.next] == Skipped;
    }
    var w :| 0 <= w < |s.workers| && s.workers[w].Waiting?;
    assert Step(s, a, end).workers[w].Waiting?;
  }

  lemma JamNext(states: seq<State>, actions: seq<Action>, start: nat, end: nat, j: nat)
    requires start <= end && IsRun(states, actions, start, end) && j < |actions| && Jammed(states[j])
    ensures Jammed(states[j + 1]) && Spins(states[j + 1]) && Spins(states[j])
    ensures states[j + 1].next == states[j].next
  {
    hide Jammed;
    hide Spins;
    hide Init;
    hide Inv;
    hide Enabled;
    hide Step;
    var at := RunFacts(states, actions, start, end, j);
    assert RunStep(states, actions, end, j);
    JamHolds(states[j], at, start, end, actions[j]);
  }

  /** However a run goes on from a jam, at every later moment it is jammed at the same height. */
  lemma {:induction false} JamStays(
    states: seq<State>, actions: seq<Action>, start: nat, end: nat, i: nat, j: nat)
    requires start <= end && IsRun(states, actions, start, end) && i <= j <= |actions| < |states|
    requires Jammed(states[i])
    ensures Jammed(states[j]) && states[j].next == states[i].next
    ensures Spins(states[i]) ==> Spins(states[j])
    ensures i < j ==> Spins(states[i])
    decreases j
  {
    hide Jammed;
    hide Spins;
    hide IsRun;
    if i < j {
      JamStays(states, actions, start, end, i, j - 1);
      JamNext(states, actions, start, end, j - 1);
    }
  }

  /** Any run into a jam can be carried on until nothing moves: the consumer has not finished. */
  lemma {:induction false} JamToTheEnd(states: seq<State>, actions: seq<Action>, start: nat, end: nat)
    returns (states': seq<State>, actions': seq<Action>)
    requires start <= end && IsRun(states, actions, start, end) && Jammed(Last(states))
    ensures IsRun(states', actions', start, end) && states <= states' && actions <= actions'
    ensures Last(states').next == Last(states).next
    ensures Stuck(Last(states')) && Jammed(Last(states')) && (Spins(Last(states)) ==> Spins(Last(states')))
    decreases StepLimit(|states[0].workers|, start, end) - |actions|
  {
    var s := Last(states);
    if a :| Enabled(s, a) {
      var at := RunFacts(states, actions, start, end, |actions|);
      JamHolds(s, at, start, end, a);
      RunSnoc(states, actions, start, end, a);
      RunsTerminate(states + [Step(s, a, end)], actions + [a], start, end);
      states', actions' := JamToTheEnd(states + [Step(s, a, end)], actions + [a], start, end);
    } else {
      states', actions' := states, actions;
    }
  }
}
