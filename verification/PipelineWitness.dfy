// Runs that reach the bound on the reorder buffer, for every number of workers from two on.
module PipelineWitness {
  import opened Sets
  import opened Pipeline
  import opened PipelineBounds
  import opened PipelineRuns

  // ---- Worker 0 holds the height that is due; the others work past it ----

  predicate Parked(s: State, depth: nat, inChannel: nat) {
    && s.orphans == {} && |s.queues| == |s.workers| >= 2
    && s.phase.Recv? && s.workers[0] == Waiting(s.next)
    && s.depth == depth && |s.channel| == inChannel
  }

  /** Workers 1 up to `k` stand as `busy` says, the rest idle with work left. */
  predicate Lined(s: State, k: nat, busy: bool) {
    && k <= |s.workers| == |s.queues|
    && (forall w :: 1 <= w < k ==> if busy then s.workers[w].Parsing? else s.workers[w].Idle?)
    && (forall w :: k <= w < |s.workers| ==>
         if busy then s.workers[w].Idle? && s.queues[w] != {} else s.workers[w].Parsing?)
  }

  /** The consumer files one block away without moving on. */
  function Stashed(s: State): State
    requires |s.channel| > 0
  {
    s.(channel := s.channel[1..], buffer := s.buffer + {s.channel[0]}, depth := s.depth + 1,
       received := s.received + [s.channel[0]])
  }

  lemma Stash(states: seq<State>, actions: seq<Action>, start: nat, end: nat)
    returns (states': seq<State>, actions': seq<Action>)
    requires start <= end && IsRun(states, actions, start, end)
    requires Parked(Last(states), Last(states).depth, |Last(states).channel|) && |Last(states).channel| > 0
    ensures IsRun(states', actions', start, end) && states'[0] == states[0]
    ensures Last(states') == Stashed(Last(states))
  {
    hide RunStep;
    hide Init;
    var s := Last(states);
    var at := RunFacts(states, actions, start, end, |actions|);
    NextIsElsewhere(s, at, start, end);
    states', actions' := Extend(states, actions, start, end, Receive);
    states', actions' := Settle(states', actions', start, end);
  }

  /** The consumer's hand holds a block that is not due. */
  predicate Holding(s: State) {
    && s.orphans == {} && |s.queues| == |s.workers|
    && s.phase.Got? && s.phase.h != s.next && s.next !in s.buffer && s.next !in s.skipped
  }

  /** It files and counts the block, and goes back to receiving. */
  lemma Settle(states: seq<State>, actions: seq<Action>, start: nat, end: nat)
    returns (states': seq<State>, actions': seq<Action>)
    requires IsRun(states, actions, start, end) && Holding(Last(states))
    ensures IsRun(states', actions', start, end) && states'[0] == states[0]
    ensures var s := Last(states);
            Last(states') == s.(buffer := s.buffer + {s.phase.h}, depth := s.depth + 1, phase := Recv)
  {
    hide RunStep;
    hide Init;
    states', actions' := Extend(states, actions, start, end, File);
    states', actions' := Extend(states', actions', start, end, Count);
    states', actions' := Extend(states', actions', start, end, NoSkip);
    states', actions' := Extend(states', actions', start, end, NoMore);
  }

  lemma NextIsElsewhere(s: State, at: Places, start: nat, end: nat)
    requires Inv(s, at, start, end) && Parked(s, s.depth, |s.channel|)
    ensures s.next !in s.channel && s.next !in s.buffer && s.next !in s.skipped
  {
    assert HeldAt(0, s.workers[0], at);
  }

  lemma {:induction false} StashMany(states: seq<State>, actions: seq<Action>, start: nat, end: nat, k: nat)
    returns (states': seq<State>, actions': seq<Action>)
    requires start <= end && IsRun(states, actions, start, end)
    requires Parked(Last(states), Last(states).depth, |Last(states).channel|) && k <= |Last(states).channel|
    ensures IsRun(states', actions', start, end) && states'[0] == states[0]
    ensures Parked(Last(states'), Last(states).depth + k, |Last(states).channel| - k)
    decreases k
  {
    states', actions' := states, actions;
    if k > 0 {
      states', actions' := Stash(states, actions, start, end);
      states', actions' := StashMany(states', actions', start, end, k - 1);
    }
  }

  /** A worker's item goes into the channel. */
  function Delivered(s: State, w: nat): State
    requires w < |s.queues| && s.queues[w] != {}
  {
    s.(queues := s.queues[w := s.queues[w] - {Lowest(s.queues[w])}], channel := s.channel + [Lowest(s.queues[w])])
  }

  lemma Deliver(states: seq<State>, actions: seq<Action>, start: nat, end: nat, w: nat)
    returns (states': seq<State>, actions': seq<Action>)
    requires IsRun(states, actions, start, end) && w < |Last(states).workers| == |Last(states).queues|
    requires Last(states).workers[w].Idle? && Last(states).queues[w] != {}
    requires Last(states).depth <= REORDER_HIGH && |Last(states).channel| < CHANNEL_DEPTH
    ensures IsRun(states', actions', start, end) && states'[0] == states[0]
    ensures Last(states') == Delivered(Last(states), w)
  {
    hide RunStep;
    hide Init;
    hide Lowest;
    var s := Last(states);
    states', actions' := Extend(states, actions, start, end, Begin(w));
    states', actions' := Extend(states', actions', start, end, Pass(w));
    states', actions' := Extend(states', actions', start, end, Send(w));
    assert Last(states').workers == s.workers;
  }

  /** Worker 1 has `left` heights to go, the workers after it have not started. */
  predicate Feeding(s: State, depth: nat, inChannel: nat, left: nat) {
    Parked(s, depth, inChannel) && Lined(s, 1, true) && |s.queues[1]| == left
  }

  /** While the consumer keeps up, the buffer fills to the watermark. */
  lemma {:induction false} FillBuffer(
    states: seq<State>, actions: seq<Action>, start: nat, end: nat, left: nat, k: nat)
    returns (states': seq<State>, actions': seq<Action>)
    requires start <= end && IsRun(states, actions, start, end) && k <= REORDER_HIGH && k < left
    requires Feeding(Last(states), REORDER_HIGH - k, 0, left)
    ensures IsRun(states', actions', start, end) && states'[0] == states[0]
    ensures Feeding(Last(states'), REORDER_HIGH, 0, left - k)
    decreases k
  {
    states', actions' := states, actions;
    if k > 0 {
      states', actions' := Deliver(states, actions, start, end, 1);
      states', actions' := Stash(states', actions', start, end);
      states', actions' := FillBuffer(states', actions', start, end, left - 1, k - 1);
    }
  }

  /** While it does not, the channel fills. */
  lemma {:induction false} FillChannel(
    states: seq<State>, actions: seq<Action>, start: nat, end: nat, left: nat, k: nat)
    returns (states': seq<State>, actions': seq<Action>)
    requires start <= end && IsRun(states, actions, start, end) && k <= CHANNEL_DEPTH && k < left
    requires Feeding(Last(states), REORDER_HIGH, CHANNEL_DEPTH - k, left)
    ensures IsRun(states', actions', start, end) && states'[0] == states[0]
    ensures Feeding(Last(states'), REORDER_HIGH, CHANNEL_DEPTH, left - k)
    decreases k
  {
    states', actions' := states, actions;
    if k > 0 {
      states', actions' := Deliver(states, actions, start, end, 1);
      states', actions' := FillChannel(states', actions', start, end, left - 1, k - 1);
    }
  }

  lemma FirstParses(states: seq<State>, actions: seq<Action>, start: nat, end: nat)
    returns (states': seq<State>, actions': seq<Action>)
    requires IsRun(states, actions, start, end) && Feeding(Last(states), REORDER_HIGH, CHANNEL_DEPTH, 2)
    ensures IsRun(states', actions', start, end) && states'[0] == states[0]
    ensures Parked(Last(states'), REORDER_HIGH, CHANNEL_DEPTH) && Lined(Last(states'), 2, true)
    ensures |Last(states').workers| == |Last(states).workers| && Last(states').queues[1] != {}
  {
    hide RunStep;
    hide Init;
    hide Lowest;
    states', actions' := Extend(states, actions, start, end, Begin(1));
    states', actions' := Extend(states', actions', start, end, Pass(1));
    assert |Last(states').queues[1]| == 1;
  }

  /** With the counter still at the watermark the other workers get past the check. */
  lemma {:induction false} AllParse(states: seq<State>, actions: seq<Action>, start: nat, end: nat, k: nat)
    returns (states': seq<State>, actions': seq<Action>)
    requires IsRun(states, actions, start, end) && 2 <= k
    requires Parked(Last(states), REORDER_HIGH, CHANNEL_DEPTH) && Lined(Last(states), k, true)
    ensures IsRun(states', actions', start, end) && states'[0] == states[0]
    ensures Parked(Last(states'), REORDER_HIGH, CHANNEL_DEPTH) && Lined(Last(states'), 1, false)
    ensures |Last(states').workers| == |Last(states).workers| && Last(states').queues[1] == Last(states).queues[1]
    decreases |Last(states).workers| - k
  {
    hide RunStep;
    hide Init;
    hide Lowest;
    states', actions' := states, actions;
    if k < |Last(states).workers| {
      states', actions' := Extend(states, actions, start, end, Begin(k));
      states', actions' := Extend(states', actions', start, end, Pass(k));
      states', actions' := AllParse(states', actions', start, end, k + 1);
    }
  }

  /** Worker 1 sends and starts again while the consumer holds the item it has taken. */
  lemma Overtake(states: seq<State>, actions: seq<Action>, start: nat, end: nat)
    returns (states': seq<State>, actions': seq<Action>)
    requires IsRun(states, actions, start, end)
    requires Parked(Last(states), REORDER_HIGH, CHANNEL_DEPTH) && Lined(Last(states), 1, false)
    requires Last(states).queues[1] != {}
    ensures IsRun(states', actions', start, end) && states'[0] == states[0]
    ensures var s := Last(states);
            var h := Lowest(s.queues[1]);
            Last(states') == s.(phase := Got(s.channel[0]), received := s.received + [s.channel[0]],
                                channel := s.channel[1..] + [s.workers[1].h],
                                queues := s.queues[1 := s.queues[1] - {h}], workers := s.workers[1 := Parsing(h)])
  {
    hide RunStep;
    hide Init;
    hide Lowest;
    states', actions' := Extend(states, actions, start, end, Receive);
    states', actions' := Extend(states', actions', start, end, Send(1));
    states', actions' := Extend(states', actions', start, end, Begin(1));
    states', actions' := Extend(states', actions', start, end, Pass(1));
  }

  /**
   * The consumer takes one item off the full channel. Before it counts it, worker 1 sends
   * into the free slot, starts its last height and is let through by the old counter.
   */
  lemma SlipThrough(states: seq<State>, actions: seq<Action>, start: nat, end: nat)
    returns (states': seq<State>, actions': seq<Action>)
    requires start <= end && IsRun(states, actions, start, end)
    requires Parked(Last(states), REORDER_HIGH, CHANNEL_DEPTH) && Lined(Last(states), 1, false)
    requires Last(states).queues[1] != {}
    ensures IsRun(states', actions', start, end) && states'[0] == states[0]
    ensures Parked(Last(states'), REORDER_HIGH + 1, CHANNEL_DEPTH) && Lined(Last(states'), 1, false)
    ensures |Last(states').workers| == |Last(states).workers|
  {
    hide RunStep;
    hide Init;
    hide Inv;
    var at := RunFacts(states, actions, start, end, |actions|);
    NextIsElsewhere(Last(states), at, start, end);
    states', actions' := Overtake(states, actions, start, end);
    states', actions' := Settle(states', actions', start, end);
  }

  /** One at a time they send, into the slot the consumer has just freed. */
  lemma {:induction false} AllSend(states: seq<State>, actions: seq<Action>, start: nat, end: nat, k: nat)
    returns (states': seq<State>, actions': seq<Action>)
    requires start <= end && IsRun(states, actions, start, end) && 1 <= k
    requires Parked(Last(states), REORDER_HIGH + k, CHANNEL_DEPTH) && Lined(Last(states), k, false)
    ensures IsRun(states', actions', start, end) && states'[0] == states[0]
    ensures Parked(Last(states'), REORDER_HIGH + |Last(states).workers|, CHANNEL_DEPTH)
    ensures |Last(states').workers| == |Last(states).workers|
    decreases |Last(states).workers| - k
  {
    hide RunStep;
    hide Init;
    states', actions' := states, actions;
    if k < |Last(states).workers| {
      states', actions' := Stash(states, actions, start, end);
      states', actions' := Extend(states', actions', start, end, Send(k));
      states', actions' := AllSend(states', actions', start, end, k + 1);
    }
  }

  // ---- The start ----

  /** Worker 0 has the first height, worker 1 the next 546, the others one each; the rest is worker 0's. */
  function Deal(start: nat, end: nat, n: nat): (queues: seq<set<nat>>)
    requires n >= 2
    ensures |queues| == n
  {
    var fed := REORDER_HIGH + CHANNEL_DEPTH + 2;
    [{start} + Span(start + Capacity(n) + 1, end), Span(start + 1, start + 1 + fed)]
    + seq(n - 2, i => {start + 1 + fed + i})
  }

  function Dealt(start: nat, end: nat, n: nat): State
    requires n >= 2
  {
    State({}, Deal(start, end, n), seq(n, _ => Idle), [], {}, {}, 0, Recv, start, [], [])
  }

  lemma DealtIsInit(start: nat, end: nat, n: nat)
    requires n >= 2 && end - start > Capacity(n)
    ensures Init(Dealt(start, end, n), start, end)
  {
    var queues, fed := Deal(start, end, n), REORDER_HIGH + CHANNEL_DEPTH + 2;
    forall w | 2 <= w < n ensures queues[w] == {start + fed + w - 1} {
    }
    forall x: nat | start <= x < end ensures SomeQueue(queues, x) {
      var w := if x == start || x >= start + Capacity(n) + 1 then 0
               else if x <= start + fed then 1 else x + 1 - start - fed;
      assert x in queues[w];
    }
  }

  lemma {:induction false} SpanSize(lo: nat, hi: nat)
    requires lo <= hi
    ensures |Span(lo, hi)| == hi - lo
    decreases hi - lo
  {
    if lo < hi {
      SpanSize(lo + 1, hi);
      assert lo !in Span(lo + 1, hi);
    }
  }

  lemma Opened(start: nat, end: nat, n: nat) returns (states: seq<State>, actions: seq<Action>)
    requires n >= 2 && end - start > Capacity(n)
    ensures IsRun(states, actions, start, end) && |states[0].workers| == |Last(states).workers| == n
    ensures Feeding(Last(states), 0, 0, REORDER_HIGH + CHANNEL_DEPTH + 2)
  {
    var s0 := Dealt(start, end, n);
    DealtIsInit(start, end, n);
    SpanSize(start + 1, start + 3 + REORDER_HIGH + CHANNEL_DEPTH);
    assert IsLowest(s0.queues[0], Lowest(s0.queues[0])) && start in s0.queues[0];
    assert IsRun([s0], [], start, end);
    states, actions := Extend([s0], [], start, end, Begin(0));
  }

  // ---- The bound is reached ----

  /** A buffer one short of the overall bound while the consumer waits for more. */
  lemma FullWhileReceiving(start: nat, end: nat, n: nat) returns (states: seq<State>, actions: seq<Action>)
    requires n >= 2 && end - start > Capacity(n)
    ensures IsRun(states, actions, start, end) && |states[0].workers| == n
    ensures Parked(Last(states), Capacity(n), 0)
    ensures |Last(states).buffer| == 544 + n
  {
    hide RunStep;
    hide Init;
    hide Parked;
    hide Feeding;
    states, actions := Opened(start, end, n);
    states, actions := FillBuffer(states, actions, start, end, REORDER_HIGH + CHANNEL_DEPTH + 2, REORDER_HIGH);
    states, actions := FillChannel(states, actions, start, end, CHANNEL_DEPTH + 2, CHANNEL_DEPTH);
    SameOrphans(states, actions, start, end);
    states, actions := FirstParses(states, actions, start, end);
    states, actions := AllParse(states, actions, start, end, 2);
    states, actions := SlipThrough(states, actions, start, end);
    states, actions := AllSend(states, actions, start, end, 1);
    ParkedParts(Last(states), REORDER_HIGH + n, CHANNEL_DEPTH);
    states, actions := StashMany(states, actions, start, end, CHANNEL_DEPTH);
    ParkedParts(Last(states), Capacity(n), 0);
    BufferBounded(states, actions, start, end, |actions|);
  }

  lemma ParkedParts(s: State, depth: nat, inChannel: nat)
    requires Parked(s, depth, inChannel)
    ensures s.depth == depth && |s.channel| == inChannel
  {
  }

  /** And a buffer of exactly the bound, once the height it waited for comes in. */
  lemma FullBuffer(start: nat, end: nat, n: nat) returns (states: seq<State>, actions: seq<Action>)
    requires n >= 2 && end - start > Capacity(n)
    ensures IsRun(states, actions, start, end) && |states[0].workers| == n
    ensures |Last(states).buffer| == 545 + n
  {
    hide RunStep;
    hide Init;
    states, actions := FullWhileReceiving(start, end, n);
    states, actions := Extend(states, actions, start, end, Pass(0));
    states, actions := Extend(states, actions, start, end, Send(0));
    states, actions := Extend(states, actions, start, end, Receive);
    states, actions := Extend(states, actions, start, end, File);
    BufferBounded(states, actions, start, end, |actions|);
  }
}
