// A run into the jam, for every range that has a skip right after a block.
module PipelineStall {
  import opened Sets
  import opened Pipeline
  import opened PipelineBounds
  import opened PipelineRuns
  import opened PipelineJam
  import opened PipelineSolo
  import OrderedConsumer

  /** `h` is the first block followed by a skip. */
  predicate FirstPair(start: nat, end: nat, orphans: set<nat>, h: nat) {
    && start <= h && h + 1 < end && h !in orphans && h + 1 in orphans
    && OrderedConsumer.NoBlockThenSkip(start, h + 1, orphans)
  }

  lemma {:induction false} FirstPairExists(start: nat, end: nat, orphans: set<nat>) returns (h: nat)
    requires !OrderedConsumer.NoBlockThenSkip(start, end, orphans)
    ensures FirstPair(start, end, orphans, h)
    decreases end
  {
    if OrderedConsumer.NoBlockThenSkip(start, end - 1, orphans) {
      h := end - 2;
    } else {
      h := FirstPairExists(start, end - 1, orphans);
    }
  }

  // ---- The schedule: worker 0 has the heights up to `h` and dawdles at it ----

  function Split(start: nat, end: nat, h: nat, n: nat): (queues: seq<set<nat>>)
    requires n >= 2
    ensures |queues| == n
  {
    [Span(start, h + 1), Span(h + 1, end)] + seq(n - 2, _ => {})
  }

  function Opening(start: nat, end: nat, orphans: set<nat>, h: nat, n: nat): State
    requires n >= 2
  {
    State(orphans, Split(start, end, h, n), seq(n, _ => Idle), [], {}, {}, 0, Recv, start, [], [])
  }

  lemma OpeningIsInit(start: nat, end: nat, orphans: set<nat>, h: nat, n: nat)
    requires n >= 2 && start <= h < end
    ensures Init(Opening(start, end, orphans, h, n), start, end)
  {
    var queues := Split(start, end, h, n);
    forall x: nat | start <= x < end ensures SomeQueue(queues, x) {
      assert x in queues[if x <= h then 0 else 1];
    }
  }

  /** No stealing, nobody passes with `h`, and only with nothing in transit does anyone pass at all. */
  predicate Allowed(s: State, a: Action, h: nat)
    requires Enabled(s, a)
  {
    && !a.Steal?
    && (a.Pass? ==> s.workers[a.w].h != h && s.phase.Recv? && s.channel == [] && NoneParsing(s))
  }

  ghost predicate Owned(at: Places, h: nat) {
    forall x :: x in at && (at[x].Queued? || at[x].Held?) ==> at[x].w == if x <= h then 0 else 1
  }

  /** Worker 1 starts with `h + 1`. */
  ghost predicate SkipFirst(at: Places, h: nat) {
    h + 1 in at && (at[h + 1].Queued? || at[h + 1].Held?) ==> forall x :: x in at && x > h + 1 ==> at[x].Queued?
  }

  ghost predicate Dawdles(at: Places, h: nat) {
    h in at && (at[h] == Queued(0) || at[h] == Held(0, false))
  }

  /** Items in flight from beyond `h`. */
  ghost function Later(at: Places, h: nat): set<nat> {
    set x | x in Inflight(at) && x > h
  }

  ghost predicate OnSchedule(s: State, at: Places, h: nat) {
    && |s.workers| >= 2
    && Owned(at, h) && SkipFirst(at, h) && Dawdles(at, h)
    && |Later(at, h)| <= REORDER_HIGH + 1
  }

  lemma WorkerOnSchedule(s: State, at: Places, start: nat, end: nat, h: nat, a: Action)
    requires Inv(s, at, start, end) && OnSchedule(s, at, h) && Enabled(s, a) && Allowed(s, a, h)
    requires a.Begin? || a.Pass? || a.Send?
    ensures Owned(Moved(s, at, a), h) && SkipFirst(Moved(s, at, a), h) && Dawdles(Moved(s, at, a), h)
  {
    hide ChannelAt;
    hide BufferAt;
    hide SkippedAt;
    hide ConsumerAt;
    hide AscendingWork;
    match a
    case Begin(w) =>
      LowestIsQueued(s.queues, at, w);
      assert HeldAt(1, s.workers[1], at);
      assert h + 1 in at && at[h + 1].Queued? ==> h + 1 in s.queues[1];
    case Pass(w) => assert HeldAt(w, s.workers[w], at);
    case Send(w) => assert HeldAt(w, s.workers[w], at);
  }

  lemma ConsumerOnSchedule(s: State, at: Places, start: nat, end: nat, h: nat, a: Action)
    requires Inv(s, at, start, end) && OnSchedule(s, at, h) && Enabled(s, a)
    requires !a.Begin? && !a.Pass? && !a.Send? && !a.Steal?
    ensures Owned(Moved(s, at, a), h) && SkipFirst(Moved(s, at, a), h) && Dawdles(Moved(s, at, a), h)
  {
    hide QueuesAt;
    hide WorkersAt;
    hide AscendingWork;
    if a.Receive? { assert s.channel[0] in s.channel; }
  }

  /** Passing with nothing in transit: at most the watermark is buffered beforehand. */
  lemma PassAddsOne(s: State, at: Places, start: nat, end: nat, h: nat, w: nat)
    requires Inv(s, at, start, end) && Enabled(s, Pass(w)) && Allowed(s, Pass(w), h) && s.next <= h
    ensures |Later(Moved(s, at, Pass(w)), h)| <= |Later(at, h)| || |Later(Moved(s, at, Pass(w)), h)| <= REORDER_HIGH + 1
  {
    var x := s.workers[w].h;
    var after := Later(Moved(s, at, Pass(w)), h);
    assert HeldAt(w, s.workers[w], at);
    if s.depth <= REORDER_HIGH {
      InflightParts(s, at, start, end);
      assert after <= s.buffer + {x};
      SubsetSize(after, s.buffer + {x});
    } else {
      assert after <= Later(at, h);
      SubsetSize(after, Later(at, h));
    }
  }

  lemma NextNotPast(s: State, at: Places, start: nat, end: nat, h: nat)
    requires Inv(s, at, start, end) && Dawdles(at, h)
    ensures s.next <= h
  {
    assert at[h] != Handled;
  }

  lemma StepOnSchedule(s: State, at: Places, start: nat, end: nat, h: nat, a: Action)
    requires Inv(s, at, start, end) && OnSchedule(s, at, h) && Enabled(s, a) && Allowed(s, a, h)
    ensures OnSchedule(Step(s, a, end), Moved(s, at, a), h)
  {
    hide Inv;
    hide Owned;
    hide SkipFirst;
    hide Dawdles;
    hide Moved;
    StepKeepsWorkers(s, a, end);
    if a.Begin? || a.Pass? || a.Send? {
      WorkerOnSchedule(s, at, start, end, h, a);
    } else {
      ConsumerOnSchedule(s, at, start, end, h, a);
    }
    if a.Pass? {
      NextNotPast(s, at, start, end, h);
      PassAddsOne(s, at, start, end, h, a.w);
    } else {
      StepEnters(s, at, start, end, a);
      SubsetSize(Later(Moved(s, at, a), h), Later(at, h));
    }
  }

  lemma OpeningOnSchedule(start: nat, end: nat, orphans: set<nat>, h: nat, n: nat)
    requires n >= 2 && FirstPair(start, end, orphans, h)
    ensures Init(Opening(start, end, orphans, h, n), start, end)
    ensures OnSchedule(Opening(start, end, orphans, h, n),
                       InitPlaces(Opening(start, end, orphans, h, n), start, end), h)
  {
    OpeningIsInit(start, end, orphans, h, n);
    var s := Opening(start, end, orphans, h, n);
    var at := InitPlaces(s, start, end);
    assert Later(at, h) == {};
    forall x | x in at ensures at[x].w == if x <= h then 0 else 1 {
      assert SomeQueue(s.queues, x);
    }
  }

  ghost predicate NothingAllowed(s: State, h: nat) {
    forall a :: Enabled(s, a) ==> !Allowed(s, a, h)
  }

  /** Keep to the schedule for as long as it allows a step. */
  lemma {:induction false} Exhaust(
    states: seq<State>, actions: seq<Action>, at: Places, start: nat, end: nat, h: nat)
    returns (states': seq<State>, actions': seq<Action>, at': Places)
    requires start <= end && IsRun(states, actions, start, end)
    requires Inv(Last(states), at, start, end) && OnSchedule(Last(states), at, h)
    ensures IsRun(states', actions', start, end) && states'[0] == states[0]
    ensures Inv(Last(states'), at', start, end) && OnSchedule(Last(states'), at', h) && NothingAllowed(Last(states'), h)
    decreases StepLimit(|states[0].workers|, start, end) - |actions|
  {
    hide Inv;
    hide OnSchedule;
    var s := Last(states);
    if a :| Enabled(s, a) && Allowed(s, a, h) {
      StepOnSchedule(s, at, start, end, h, a);
      StepKeepsInv(s, at, start, end, a);
      RunSnoc(states, actions, start, end, a);
      RunsTerminate(states + [Step(s, a, end)], actions + [a], start, end);
      states', actions', at' :=
        Exhaust(states + [Step(s, a, end)], actions + [a], Moved(s, at, a), start, end, h);
    } else {
      states', actions', at' := states, actions, at;
    }
  }

  // ---- Where the schedule ends ----

  /** The consumer waits for `h`, which worker 0 holds; `h + 1` has come ahead of it. */
  predicate Brink(s: State, h: nat) {
    && |s.queues| == |s.workers| >= 2
    && s.phase.Recv? && s.next == h && s.channel == [] && h !in s.skipped && h + 1 in s.skipped
    && h !in s.buffer && h + 1 !in s.buffer
    && s.workers[0] == Waiting(h) && s.queues[0] == {}
    && (forall w :: 1 <= w < |s.workers| ==> !s.workers[w].Parsing?)
    && (forall w :: 2 <= w < |s.workers| ==> s.workers[w].Idle? && s.queues[w] == {})
    && if s.workers[1].Waiting? then s.depth > REORDER_HIGH else s.queues[1] == {}
  }

  /** The consumer has nothing to do, and no item is on its way. */
  lemma NothingMoves(s: State, h: nat)
    requires |s.queues| == |s.workers| && CounterAt(s) && !s.phase.Done? && NothingAllowed(s, h)
    ensures s.phase.Recv? && s.channel == [] && NoneParsing(s)
  {
    assert !Enabled(s, File) && !Enabled(s, Count) && !Enabled(s, SkipOne) && !Enabled(s, NoSkip);
    assert !Enabled(s, Take) && !Enabled(s, Uncount) && !Enabled(s, Commit) && !Enabled(s, NoMore);
    assert !Enabled(s, Receive);
    forall w | 0 <= w < |s.workers| ensures !s.workers[w].Parsing? {
      assert !Enabled(s, Send(w));
    }
  }

  lemma QuietConsumer(s: State, at: Places, start: nat, end: nat, h: nat)
    requires Inv(s, at, start, end) && OnSchedule(s, at, h) && NothingAllowed(s, h)
    ensures s.phase.Recv? && s.channel == [] && NoneParsing(s) && s.next <= h
  {
    hide NothingAllowed;
    NextNotPast(s, at, start, end, h);
    assert h in at;
    NothingMoves(s, h);
  }

  /** Everything below `h` is through, and the consumer waits for `h`. */
  lemma WaitsForH(s: State, at: Places, start: nat, end: nat, h: nat)
    requires Inv(s, at, start, end) && OnSchedule(s, at, h) && NothingAllowed(s, h)
    requires FirstPair(start, end, s.orphans, h)
    ensures s.next == h && at[h] == Held(0, false)
  {
    QuietConsumer(s, at, start, end, h);
    assert s.next in s.skipped ==> s.next in s.orphans;
    assert !FacesSkip(s);
    var a := WorkerCanMove(s, at, start, end);
    assert !Allowed(s, a, h);
    if a.Pass? { assert HeldAt(a.w, s.workers[a.w], at); }
  }

  /** The skip after `h` has been received. */
  lemma SkipIsAhead(s: State, at: Places, start: nat, end: nat, h: nat)
    requires Inv(s, at, start, end) && OnSchedule(s, at, h) && NothingAllowed(s, h)
    requires FirstPair(start, end, s.orphans, h)
    ensures h + 1 in at && at[h + 1] == Skipped
  {
    QuietConsumer(s, at, start, end, h);
    WaitsForH(s, at, start, end, h);
    if at[h + 1].Queued? || at[h + 1].Held? {
      BufferEmpty(s, at, start, end, h);
      StartsWithSkip(s, at, start, end, h);
    }
  }

  lemma BufferEmpty(s: State, at: Places, start: nat, end: nat, h: nat)
    requires Inv(s, at, start, end) && SkipFirst(at, h) && s.next == h && s.phase.Recv? && h + 1 in at
    requires at[h + 1].Queued? || at[h + 1].Held?
    ensures s.depth == 0
  {
    assert forall x :: x in at ==> at[x] != Buffered;
    assert s.buffer == {};
  }

  /** With an empty buffer worker 1 could still move. */
  lemma StartsWithSkip(s: State, at: Places, start: nat, end: nat, h: nat)
    requires Inv(s, at, start, end) && Owned(at, h) && |s.workers| >= 2 && s.depth == 0
    requires h + 1 in at && (at[h + 1].Queued? || at[h + 1].Held?)
    requires s.phase.Recv? && s.channel == [] && NoneParsing(s)
    ensures !NothingAllowed(s, h)
  {
    assert HeldAt(1, s.workers[1], at);
    if at[h + 1].Held? {
      assert s.workers[1] == Waiting(h + 1);
      assert Enabled(s, Pass(1)) && Allowed(s, Pass(1), h);
    } else {
      assert h + 1 in s.queues[1];
      assert s.workers[1].Idle?;
      assert Enabled(s, Begin(1)) && Allowed(s, Begin(1), h);
    }
  }

  predicate Placed(at: Places, x: nat, p: Place) { x in at && at[x] == p }

  lemma OthersIdle(s: State, at: Places, start: nat, end: nat, h: nat, w: nat)
    requires Inv(s, at, start, end) && Owned(at, h) && 2 <= w < |s.workers|
    ensures s.workers[w].Idle? && s.queues[w] == {}
  {
    hide ChannelAt;
    hide BufferAt;
    hide SkippedAt;
    hide ConsumerAt;
    hide AscendingWork;
    assert HeldAt(w, s.workers[w], at);
    assert forall x :: x in at && at[x].Queued? ==> at[x].w != w;
    var here := Queued(w);
    assert forall x: nat :: x in s.queues[w] ==> Placed(at, x, here);
  }

  lemma HolderOfH(s: State, at: Places, start: nat, end: nat, h: nat)
    requires Inv(s, at, start, end) && Owned(at, h) && |s.workers| >= 2 && h in at && at[h] == Held(0, false)
    ensures s.workers[0] == Waiting(h) && s.queues[0] == {}
  {
    hide ChannelAt;
    hide BufferAt;
    hide SkippedAt;
    hide ConsumerAt;
    var here := Queued(0);
    assert forall x: nat :: x in s.queues[0] ==> Placed(at, x, here);
  }

  lemma BrinkReached(s: State, at: Places, start: nat, end: nat, h: nat)
    requires Inv(s, at, start, end) && OnSchedule(s, at, h) && NothingAllowed(s, h)
    requires FirstPair(start, end, s.orphans, h)
    ensures Brink(s, h)
  {
    QuietConsumer(s, at, start, end, h);
    WaitsForH(s, at, start, end, h);
    SkipIsAhead(s, at, start, end, h);
    HolderOfH(s, at, start, end, h);
    forall w | 2 <= w < |s.workers| ensures s.workers[w].Idle? && s.queues[w] == {} {
      OthersIdle(s, at, start, end, h, w);
    }
    Worker1HeldBack(s, at, start, end, h);
    assert at[h] != Skipped && at[h] != Buffered && at[h + 1] != Buffered;
  }

  lemma Worker1HeldBack(s: State, at: Places, start: nat, end: nat, h: nat)
    requires Inv(s, at, start, end) && Owned(at, h) && |s.workers| >= 2 && NothingAllowed(s, h)
    requires s.phase.Recv? && s.channel == [] && NoneParsing(s) && s.next == h
    requires h in at && at[h] == Held(0, false)
    ensures if s.workers[1].Waiting? then s.depth > REORDER_HIGH else s.queues[1] == {}
  {
    assert HeldAt(1, s.workers[1], at);
    if s.workers[1].Waiting? {
      assert s.workers[1].h != h;
      assert !(Enabled(s, Pass(1)) && Allowed(s, Pass(1), h));
    } else {
      assert !(Enabled(s, Begin(1)) && Allowed(s, Begin(1), h));
    }
  }

  /** With more blocks beyond `h` than the watermark and one, worker 1 is held back. */
  lemma {:induction false} ManyBlocksSpin(s: State, at: Places, start: nat, end: nat, h: nat)
    requires Inv(s, at, start, end) && OnSchedule(s, at, h) && Brink(s, h) && start <= h
    requires |Span(h + 1, end) - s.orphans| > REORDER_HIGH + 1
    ensures s.workers[1].Waiting?
  {
    if !s.workers[1].Waiting? {
      AllSettled(s, at, start, end, h);
      SubsetSize(Span(h + 1, end) - s.orphans, Later(at, h));
    }
  }

  /** A worker 1 out of work has seen every later block into the buffer. */
  lemma {:induction false} AllSettled(s: State, at: Places, start: nat, end: nat, h: nat)
    requires Inv(s, at, start, end) && OnSchedule(s, at, h) && Brink(s, h) && start <= h
    requires !s.workers[1].Waiting?
    ensures Span(h + 1, end) - s.orphans <= Later(at, h)
  {
    assert s.workers[1].Idle? && s.queues[1] == {};
    assert forall x :: x in at && x > h ==> !at[x].Queued? && !at[x].Held?;
    assert forall x :: x in at && x > h ==> at[x] != Sent && at[x] != InHand && at[x] != Handled;
    forall x | x in Span(h + 1, end) - s.orphans ensures x in Later(at, h) {
      assert x in at;
    }
  }

  // ---- From the brink into the jam ----

  lemma BlockComesIn(states: seq<State>, actions: seq<Action>, start: nat, end: nat, h: nat)
    returns (states': seq<State>, actions': seq<Action>)
    requires IsRun(states, actions, start, end) && Brink(Last(states), h) && h !in Last(states).orphans
    ensures IsRun(states', actions', start, end) && states'[0] == states[0]
    ensures var s := Last(states);
            Last(states') == s.(workers := s.workers[0 := Idle], received := s.received + [h],
                                buffer := s.buffer + {h}, depth := s.depth + 1, phase := Skip)
  {
    hide RunStep;
    hide Init;
    var s := Last(states);
    states', actions' := Extend(states, actions, start, end, Pass(0));
    states', actions' := Extend(states', actions', start, end, Send(0));
    states', actions' := Extend(states', actions', start, end, Receive);
    states', actions' := Extend(states', actions', start, end, File);
    states', actions' := Extend(states', actions', start, end, Count);
    assert Last(states').channel == s.channel && Last(states').workers == s.workers[0 := Idle];
  }

  /** Worker 0 passes, sends, and the consumer takes in `h`: now it waits for `h + 1`. */
  lemma OverTheBrink(states: seq<State>, actions: seq<Action>, start: nat, end: nat, h: nat)
    returns (states': seq<State>, actions': seq<Action>)
    requires IsRun(states, actions, start, end) && Brink(Last(states), h) && h !in Last(states).orphans && h + 1 < end
    ensures IsRun(states', actions', start, end) && states'[0] == states[0]
    ensures Jammed(Last(states')) && Last(states').next == h + 1
    ensures Last(states).workers[1].Waiting? ==> Spins(Last(states'))
  {
    hide RunStep;
    hide Init;
    var s := Last(states);
    states', actions' := BlockComesIn(states, actions, start, end, h);
    states', actions' := Extend(states', actions', start, end, NoSkip);
    states', actions' := Extend(states', actions', start, end, Take);
    states', actions' := Extend(states', actions', start, end, Uncount);
    states', actions' := Extend(states', actions', start, end, Commit);
    states', actions' := Extend(states', actions', start, end, NoMore);
    var t := Last(states');
    assert t.workers[1] == s.workers[1] && t.depth == s.depth && t.next == h + 1;
    assert s.workers[1].Waiting? ==> t.workers[1].Waiting?;
  }

  // ---- The theorem ----

  /**
   * Whenever a skip directly follows a block, two workers or more can run into a state
   * that nothing leads out of and in which the consumer has not finished. With more than
   * 33 blocks still to come after the pair, workers are left spinning there for good.
   */
  lemma StallingRun(start: nat, end: nat, orphans: set<nat>, n: nat, h: nat)
    returns (states: seq<State>, actions: seq<Action>)
    requires n >= 2 && FirstPair(start, end, orphans, h)
    ensures IsRun(states, actions, start, end)
    ensures states[0].orphans == orphans && |states[0].workers| == n
    ensures Stuck(Last(states)) && FacesSkip(Last(states)) && Last(states).next == h + 1 < end
    ensures |Span(h + 1, end) - orphans| > REORDER_HIGH + 1 ==> Spins(Last(states))
  {
    var s0 := Opening(start, end, orphans, h, n);
    OpeningOnSchedule(start, end, orphans, h, n);
    InitEstablishes(s0, start, end);
    var at;
    states, actions, at := Exhaust([s0], [], InitPlaces(s0, start, end), start, end, h);
    var s := Last(states);
    SameOrphans(states, actions, start, end);
    BrinkReached(s, at, start, end, h);
    if |Span(h + 1, end) - orphans| > REORDER_HIGH + 1 { ManyBlocksSpin(s, at, start, end, h); }
    states, actions := OverTheBrink(states, actions, start, end, h);
    states, actions := JamToTheEnd(states, actions, start, end);
  }

  /** A run of `n` workers that can go no further. */
  ghost predicate MaximalRun(
    states: seq<State>, actions: seq<Action>, start: nat, end: nat, orphans: set<nat>, n: nat)
  {
    && IsRun(states, actions, start, end) && Stuck(Last(states))
    && states[0].orphans == orphans && |states[0].workers| == n
  }

  /** Every such run has handled all heights. */
  ghost predicate AlwaysFinishes(start: nat, end: nat, orphans: set<nat>, n: nat)
    requires start <= end
  {
    forall states, actions ::
      MaximalRun(states, actions, start, end, orphans, n) ==> Finished(Last(states), start, end)
  }

  /**
   * Every run of the pipeline that goes as far as it can handles every height, exactly
   * when there is but one worker or no skip directly follows a block.
   */
  lemma FinishesIff(start: nat, end: nat, orphans: set<nat>, n: nat)
    requires start <= end && n >= 1
    ensures AlwaysFinishes(start, end, orphans, n) <==>
      n == 1 || OrderedConsumer.NoBlockThenSkip(start, end, orphans)
  {
    if n == 1 || OrderedConsumer.NoBlockThenSkip(start, end, orphans) {
      forall states, actions | MaximalRun(states, actions, start, end, orphans, n)
        ensures Finished(Last(states), start, end)
      {
        if n == 1 {
          SoloFinishes(states, actions, start, end);
        } else {
          StuckMeansDone(states, actions, start, end);
        }
      }
    } else {
      var h := FirstPairExists(start, end, orphans);
      var states, actions := StallingRun(start, end, orphans, n, h);
      assert MaximalRun(states, actions, start, end, orphans, n);
    }
  }
}
