// The pipeline's consumer is the ordered consumer, fed whatever order the workers produce.
module PipelineConsumer {
  import opened Bytes
  import UtxoReorg
  import opened Pipeline
  import opened PipelineBounds
  import opened PipelineRuns
  import C = OrderedConsumer

  /** What the workers make of each height. */
  type Content = nat -> UtxoReorg.Block

  function Item(h: u32, orphans: set<nat>, content: Content): C.WorkItem {
    if h in orphans then C.Skipped(h) else C.BlockItem(h, content(h))
  }

  predicate Within(heights: seq<nat>, end: u32) { forall i :: 0 <= i < |heights| ==> heights[i] < end }

  /** The messages that carry these heights. */
  function Items(heights: seq<nat>, end: u32, orphans: set<nat>, content: Content): (r: seq<C.WorkItem>)
    requires Within(heights, end)
    ensures |r| == |heights|
    ensures forall i :: 0 <= i < |r| ==> r[i] == Item(heights[i], orphans, content)
  {
    seq(|heights|, i requires 0 <= i < |heights| => Item(heights[i], orphans, content))
  }

  lemma ItemsSnoc(heights: seq<nat>, h: nat, end: u32, orphans: set<nat>, content: Content)
    requires Within(heights, end) && h < end
    ensures Within(heights + [h], end)
    ensures Items(heights + [h], end, orphans, content)
         == Items(heights, end, orphans, content) + [Item(h, orphans, content)]
  {
  }

  /** The consumer's local state, as the sequential consumer has it. */
  ghost function Local(s: State, end: u32, content: Content): C.Consumer
    requires Within(s.handled, end)
  {
    C.Consumer(s.next, map h | h in s.buffer :: content(h), s.skipped,
               Items(s.handled, end, s.orphans, content), s.phase.Done?)
  }

  ghost function Consumed(s: State, start: u32, end: u32, content: Content): C.Consumer
    requires Within(s.received, end)
  {
    C.Consume(start, Items(s.received, end, s.orphans, content), end)
  }

  /** What the loops the consumer is still inside have left to do. */
  ghost function Finish(s: State, end: u32, content: Content): C.Consumer
    requires Within(s.handled, end) && s.next <= end
    requires s.phase.Taken? || s.phase.Applying? ==> s.next < end
    requires s.phase.Got? ==> s.phase.h < end
  {
    var c := Local(s, end, content);
    match s.phase
    case Recv => c
    case Got(h) => C.DrainLoop(C.SkipLoop(C.Accept(c, Item(h, s.orphans, content)), end), end)
    case Filed => C.DrainLoop(C.SkipLoop(c, end), end)
    case Skip => C.DrainLoop(C.SkipLoop(c, end), end)
    case Drain => C.DrainLoop(c, end)
    case Taken => C.DrainLoop(C.Advance(c, Item(s.next, s.orphans, content), end), end)
    case Applying => C.DrainLoop(C.Advance(c, Item(s.next, s.orphans, content), end), end)
    case Done => c
  }

  /** At every moment the consumer is on its way to what the sequential one computes from the same items. */
  ghost predicate Follows(s: State, start: u32, end: u32, content: Content) {
    && Within(s.received, end) && Within(s.handled, end)
    && s.next <= end && (s.phase.Taken? || s.phase.Applying? ==> s.next < end)
    && (s.phase.Got? ==> s.phase.h < end)
    && Consumed(s, start, end, content) == Finish(s, end, content)
  }

  // ---- Every step keeps to it ----

  lemma ReceiveFollows(s: State, at: Places, start: u32, end: u32, content: Content)
    requires Inv(s, at, start, end) && Follows(s, start, end, content) && Enabled(s, Receive)
    ensures Follows(Step(s, Receive, end), start, end, content)
  {
    hide QueuesAt;
    hide WorkersAt;
    hide BufferAt;
    hide SkippedAt;
    hide AscendingWork;
    hide C.SkipLoop;
    hide C.DrainLoop;
    var h: nat := s.channel[0];
    var t := Step(s, Receive, end);
    assert h in s.channel && h in at;
    var items := Items(s.received, end, s.orphans, content);
    ItemsSnoc(s.received, h, end, s.orphans, content);
    assert (items + [Item(h, s.orphans, content)])[..|items|] == items;
    assert Local(t, end, content) == Local(s, end, content);
  }

  lemma FileFollows(s: State, start: u32, end: u32, content: Content)
    requires Follows(s, start, end, content) && Enabled(s, File)
    ensures Follows(Step(s, File, end), start, end, content)
  {
    hide C.SkipLoop;
    hide C.DrainLoop;
    assert Local(Step(s, File, end), end, content)
        == C.Accept(Local(s, end, content), Item(s.phase.h, s.orphans, content));
  }

  lemma SkipOneFollows(s: State, at: Places, start: u32, end: u32, content: Content)
    requires Inv(s, at, start, end) && Follows(s, start, end, content) && Enabled(s, SkipOne)
    ensures Follows(Step(s, SkipOne, end), start, end, content)
  {
    var c := Local(s, end, content);
    ItemsSnoc(s.handled, s.next, end, s.orphans, content);
    var c' := C.Advance(c.(skipped := c.skipped - {c.next}), C.Skipped(c.next), end);
    assert Local(Step(s, SkipOne, end), end, content) == c';
    assert C.SkipLoop(c, end) == C.SkipLoop(c', end);
    assert c'.finished ==> C.SkipLoop(c', end) == c' && C.DrainLoop(c', end) == c';
  }

  lemma TakeFollows(s: State, at: Places, start: u32, end: u32, content: Content)
    requires Inv(s, at, start, end) && Follows(s, start, end, content) && Enabled(s, Take)
    ensures Follows(Step(s, Take, end), start, end, content)
  {
    var c := Local(s, end, content);
    assert Local(Step(s, Take, end), end, content) == c.(buffer := c.buffer - {c.next});
  }

  lemma CommitFollows(s: State, at: Places, start: u32, end: u32, content: Content)
    requires Inv(s, at, start, end) && Follows(s, start, end, content) && Enabled(s, Commit)
    ensures Follows(Step(s, Commit, end), start, end, content)
  {
    ItemsSnoc(s.handled, s.next, end, s.orphans, content);
    assert Local(Step(s, Commit, end), end, content)
        == C.Advance(Local(s, end, content), Item(s.next, s.orphans, content), end);
  }

  /** Leaving a loop that has nothing more to do. */
  lemma LoopEndFollows(s: State, start: u32, end: u32, content: Content, a: Action)
    requires Follows(s, start, end, content) && Enabled(s, a) && (a.NoSkip? || a.NoMore?)
    ensures Follows(Step(s, a, end), start, end, content)
  {
    assert Local(Step(s, a, end), end, content) == Local(s, end, content);
  }

  /** Neither the workers' steps nor the counter's are seen by the consumer. */
  lemma OthersFollow(s: State, start: u32, end: u32, content: Content, a: Action)
    requires Follows(s, start, end, content) && Enabled(s, a)
    requires a.Begin? || a.Steal? || a.Pass? || a.Send? || a.Count? || a.Uncount?
    ensures Follows(Step(s, a, end), start, end, content)
  {
    hide C.SkipLoop;
    hide C.DrainLoop;
    hide C.Consume;
    assert Local(Step(s, a, end), end, content) == Local(s, end, content);
  }

  lemma StepFollows(s: State, at: Places, start: u32, end: u32, content: Content, a: Action)
    requires Inv(s, at, start, end) && Follows(s, start, end, content) && Enabled(s, a)
    ensures Follows(Step(s, a, end), start, end, content)
  {
    hide Inv;
    hide Follows;
    hide Step;
    hide Enabled;
    match a
    case Receive => ReceiveFollows(s, at, start, end, content);
    case File => FileFollows(s, start, end, content);
    case SkipOne => SkipOneFollows(s, at, start, end, content);
    case Take => TakeFollows(s, at, start, end, content);
    case Commit => CommitFollows(s, at, start, end, content);
    case NoSkip => LoopEndFollows(s, start, end, content, a);
    case NoMore => LoopEndFollows(s, start, end, content, a);
    case _ => OthersFollow(s, start, end, content, a);
  }

  lemma InitFollows(s: State, start: u32, end: u32, content: Content)
    requires Init(s, start, end)
    ensures Follows(s, start, end, content)
  {
  }

  lemma {:induction false} RunFollows(
    states: seq<State>, actions: seq<Action>, start: u32, end: u32, content: Content, i: nat)
    requires IsRun(states, actions, start, end) && i <= |actions|
    ensures Follows(states[i], start, end, content) && states[i].orphans == states[0].orphans
  {
    hide Follows;
    hide Inv;
    hide Bounded;
    hide Rank;
    if i == 0 {
      InitFollows(states[0], start, end, content);
    } else {
      var at := RunFacts(states, actions, start, end, i - 1);
      RunFollows(states, actions, start, end, content, i - 1);
      assert RunStep(states, actions, end, i - 1);
      StepFollows(states[i - 1], at, start, end, content, actions[i - 1]);
    }
  }

  // ---- What follows for whole runs ----

  /**
   * Whenever the consumer is about to receive, or has returned, its local state is what the
   * ordered consumer computes from the items received so far.
   */
  lemma {:induction false} ReceivesAsConsume(
    states: seq<State>, actions: seq<Action>, start: u32, end: u32, content: Content, i: nat)
    requires IsRun(states, actions, start, end) && i <= |actions|
    requires states[i].phase.Recv? || states[i].phase.Done?
    ensures Within(states[i].received, end) && Within(states[i].handled, end)
    ensures var c := C.Consume(start, Items(states[i].received, end, states[0].orphans, content), end);
            && c.next == states[i].next && c.finished == states[i].phase.Done?
            && c.buffer.Keys == states[i].buffer && c.skipped == states[i].skipped
            && c.handled == Items(states[i].handled, end, states[0].orphans, content)
  {
    RunFollows(states, actions, start, end, content, i);
  }

  /** Every height of the range, in order. */
  function AllItems(start: u32, end: u32, orphans: set<nat>, content: Content): seq<C.WorkItem>
    requires start <= end
  {
    seq(end - start, i requires 0 <= i < end - start => Item(start + i, orphans, content))
  }

  /**
   * With no skip right after a block: however many workers there are and however they are
   * scheduled, once nothing can move the ordered consumer has returned from the items it
   * received, and has handled exactly the heights of the range in order.
   */
  lemma {:induction false} SchedulesAgree(
    states: seq<State>, actions: seq<Action>, start: u32, end: u32, content: Content)
    requires start <= end && IsRun(states, actions, start, end) && Stuck(Last(states))
    requires C.NoBlockThenSkip(start, end, states[0].orphans)
    ensures Within(Last(states).received, end)
    ensures var c := C.Consume(start, Items(Last(states).received, end, states[0].orphans, content), end);
            c.finished && c.handled == AllItems(start, end, states[0].orphans, content)
  {
    StuckMeansDone(states, actions, start, end);
    ReceivesAsConsume(states, actions, start, end, content, |actions|);
  }
}
