// A single worker delivers the heights in order, so its pipeline always finishes.
module PipelineSolo {
  import opened Pipeline
  import opened PipelineRuns

  /** The channel ascends, and lies below everything the worker has still to send. */
  ghost predicate ChannelAscends(channel: seq<nat>, at: Places) {
    && (forall i, j :: 0 <= i < j < |channel| ==> channel[i] < channel[j])
    && (forall x, y :: x in channel && y in at && (at[y].Queued? || at[y].Held?) ==> x < y)
  }

  /** At most the height that is due has been received and not handled. */
  predicate OneInStore(s: State) {
    match s.phase
    case Got(h) => h == s.next && s.buffer == {} && s.skipped == {}
    case Filed => s.buffer <= {s.next} && s.skipped == {}
    case Skip => s.buffer <= {s.next} && s.skipped <= {s.next}
    case Drain => s.buffer <= {s.next} && s.skipped == {}
    case _ => s.buffer == {} && s.skipped == {}
  }

  ghost predicate Solo(s: State, at: Places) {
    |s.workers| == 1 && ChannelAscends(s.channel, at) && OneInStore(s)
  }

  lemma SoloSend(s: State, at: Places, start: nat, end: nat)
    requires Inv(s, at, start, end) && Solo(s, at) && Enabled(s, Send(0))
    ensures ChannelAscends(s.channel + [s.workers[0].h], at[s.workers[0].h := Sent])
  {
    hide BufferAt;
    hide SkippedAt;
    hide ConsumerAt;
    var h := s.workers[0].h;
    assert HeldAt(0, s.workers[0], at);
    var channel': seq<nat>, at' := s.channel + [h], at[h := Sent];
    forall i, j | 0 <= i < j < |channel'| ensures channel'[i] < channel'[j] {
      assert s.channel[i] in s.channel;
    }
    forall x, y | x in channel' && y in at' && (at'[y].Queued? || at'[y].Held?) ensures x < y {
      assert y != h && at[y].w == 0;
      assert at[y].Queued? && y in s.queues[0];
    }
  }

  /** The item received is the one that is due. */
  lemma SoloReceivesNext(s: State, at: Places, start: nat, end: nat)
    requires Inv(s, at, start, end) && Solo(s, at) && Enabled(s, Receive)
    ensures s.channel[0] == s.next
  {
    var h: nat := s.channel[0];
    assert h in s.channel && at[h] == Sent && h >= s.next;
    assert s.next in at && at[s.next] != Buffered && at[s.next] != Skipped;
    if at[s.next] == Sent {
      var i :| 0 <= i < |s.channel| && s.channel[i] == s.next;
    }
  }

  /** The consumer moves no height back to a worker. */
  lemma SoloChannel(s: State, at: Places, start: nat, end: nat, a: Action)
    requires Inv(s, at, start, end) && ChannelAscends(s.channel, at) && Enabled(s, a)
    requires !a.Begin? && !a.Pass? && !a.Send? && !a.Steal?
    ensures ChannelAscends(Step(s, a, end).channel, Moved(s, at, a))
  {
    hide QueuesAt;
    hide WorkersAt;
    hide BufferAt;
    hide SkippedAt;
    hide ConsumerAt;
    hide AscendingWork;
    if a.Receive? {
      var channel': seq<nat> := s.channel[1..];
      assert forall x :: x in channel' ==> x in s.channel;
    }
  }

  lemma SoloStore(s: State, a: Action, end: nat)
    requires OneInStore(s) && s.buffer !! s.skipped && Enabled(s, a)
    requires !a.Begin? && !a.Pass? && !a.Send? && !a.Steal?
    requires a.Receive? ==> s.channel[0] == s.next
    ensures OneInStore(Step(s, a, end))
  {
  }

  lemma StepKeepsSolo(s: State, at: Places, start: nat, end: nat, a: Action)
    requires Inv(s, at, start, end) && Solo(s, at) && Enabled(s, a)
    ensures Solo(Step(s, a, end), Moved(s, at, a))
  {
    if a.Begin? {
      LowestIsQueued(s.queues, at, a.w);
    } else if a.Pass? {
      assert HeldAt(a.w, s.workers[a.w], at);
    } else if a.Send? {
      SoloSend(s, at, start, end);
    } else if !a.Steal? {
      SoloChannel(s, at, start, end, a);
      if a.Receive? { SoloReceivesNext(s, at, start, end); }
      SoloStore(s, a, end);
    }
  }

  lemma {:induction false} SoloFacts(states: seq<State>, actions: seq<Action>, start: nat, end: nat, i: nat)
    returns (at: Places)
    requires IsRun(states, actions, start, end) && |states[0].workers| == 1 && i <= |actions|
    ensures Inv(states[i], at, start, end) && Solo(states[i], at)
  {
    if i == 0 {
      InitEstablishes(states[0], start, end);
      at := InitPlaces(states[0], start, end);
    } else {
      var before := SoloFacts(states, actions, start, end, i - 1);
      assert RunStep(states, actions, end, i - 1);
      StepKeepsInv(states[i - 1], before, start, end, actions[i - 1]);
      StepKeepsSolo(states[i - 1], before, start, end, actions[i - 1]);
      at := Moved(states[i - 1], before, actions[i - 1]);
    }
  }

  /** Wherever the skips are, a lone worker that can go no further has seen every height handled. */
  lemma SoloFinishes(states: seq<State>, actions: seq<Action>, start: nat, end: nat)
    requires start <= end && IsRun(states, actions, start, end) && |states[0].workers| == 1
    requires Stuck(Last(states))
    ensures Finished(Last(states), start, end)
  {
    var at := SoloFacts(states, actions, start, end, |actions|);
    StuckFinished(Last(states), at, start, end);
  }
}
