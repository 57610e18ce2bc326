// How many parsed blocks the pipeline can hold at once.
module PipelineBounds {
  import opened Sets
  import opened Pipeline

  /** Items parsed, in the channel, in the consumer's hand or in the reorder buffer. */
  ghost function Inflight(at: Places): set<nat> {
    set h | h in at && (at[h] == Sent || at[h] == Received || at[h] == Buffered || (at[h].Held? && at[h].parsing))
  }

  /** Heights whose items the consumer has not yet put among its skips or taken out of its buffer. */
  ghost function Unsettled(at: Places): set<nat> {
    set h | h in at && (at[h].Queued? || at[h].Held? || at[h] == Sent || at[h] == Received || at[h] == Buffered)
  }

  /** The watermark, the channel and one item a worker. */
  function Capacity(n: nat): nat { REORDER_HIGH + CHANNEL_DEPTH + n }

  /** The buffer and the item the consumer has taken off the channel but not filed. */
  function Stored(s: State): set<nat> {
    s.buffer + if s.phase.Got? then {s.phase.h} else {}
  }

  /** Workers read a counter that lags behind what is stored by at most one. */
  lemma StoredSize(s: State)
    requires CounterAt(s)
    ensures |Stored(s)| <= s.depth + 1
  {
    UnionSize(s.buffer, if s.phase.Got? then {s.phase.h} else {});
  }

  /** Apart from the lowest unsettled height. */
  ghost predicate Bounded(s: State, at: Places) {
    forall m :: IsLowest(Unsettled(at), m) ==>
      |Inflight(at) - {m}| <= Capacity(|s.workers|)
  }

  function Parsed(workers: seq<Worker>): set<nat> {
    set w | 0 <= w < |workers| && workers[w].Parsing? :: workers[w].h
  }

  lemma {:induction false} ParsedCount(workers: seq<Worker>)
    ensures |Parsed(workers)| <= |workers|
    ensures (exists v :: 0 <= v < |workers| && !workers[v].Parsing?) ==> |Parsed(workers)| < |workers|
  {
    if |workers| > 0 {
      var n := |workers| - 1;
      ParsedCount(workers[..n]);
      var last: set<nat> := if workers[n].Parsing? then {workers[n].h} else {};
      forall h | h in Parsed(workers)
        ensures h in Parsed(workers[..n]) + last
      {
        var w :| 0 <= w < |workers| && workers[w].Parsing? && workers[w].h == h;
        assert w < n ==> workers[..n][w] == workers[w];
      }
      SubsetSize(Parsed(workers), Parsed(workers[..n]) + last);
      UnionSize(Parsed(workers[..n]), last);
      if v :| 0 <= v < |workers| && !workers[v].Parsing? {
        assert v < n ==> !workers[..n][v].Parsing?;
      }
    }
  }

  lemma InflightParts(s: State, at: Places, start: nat, end: nat)
    requires Inv(s, at, start, end)
    ensures Inflight(at) <= Parsed(s.workers) + Elements(s.channel) + Stored(s)
  {
    forall h | h in Inflight(at) ensures h in Parsed(s.workers) + Elements(s.channel) + Stored(s) {
      if at[h].Held? {
        assert s.workers[at[h].w] == Parsing(h);
      }
    }
  }

  lemma HeldIsUnsettled(s: State, at: Places, start: nat, end: nat, v: nat)
    requires Inv(s, at, start, end) && v < |s.workers|
    ensures !s.workers[v].Idle? ==> s.workers[v].h in Unsettled(at)
  {
    assert HeldAt(v, s.workers[v], at);
  }

  /** The lowest unsettled height is itself in flight, or a worker is not parsing. */
  lemma LowestLeavesRoom(s: State, at: Places, start: nat, end: nat, m: nat)
    requires Inv(s, at, start, end) && IsLowest(Unsettled(at), m)
    ensures m in Inflight(at) || exists v :: 0 <= v < |s.workers| && !s.workers[v].Parsing?
  {
    hide ChannelAt;
    hide BufferAt;
    hide SkippedAt;
    hide ConsumerAt;
    if at[m].Queued? {
      var v := at[m].w;
      HeldIsUnsettled(s, at, start, end, v);
      assert !s.workers[v].Parsing?;
    } else if at[m].Held? {
      assert s.workers[at[m].w] == if at[m].parsing then Parsing(m) else Waiting(m);
    }
  }

  /** Whenever the counter is at or below the watermark the bound holds outright. */
  lemma BoundedBelowWatermark(s: State, at: Places, start: nat, end: nat)
    requires Inv(s, at, start, end) && s.depth <= REORDER_HIGH
    ensures Bounded(s, at)
  {
    var parsed, sent := Parsed(s.workers), Elements(s.channel);
    ParsedCount(s.workers);
    ElementsSize(s.channel);
    InflightParts(s, at, start, end);
    StoredSize(s);
    SubsetSize(Inflight(at), parsed + sent + Stored(s));
    UnionSize(parsed + sent, Stored(s));
    UnionSize(parsed, sent);
    forall m | IsLowest(Unsettled(at), m)
      ensures |Inflight(at) - {m}| <= Capacity(|s.workers|)
    {
      LowestLeavesRoom(s, at, start, end, m);
      SubsetSize(Inflight(at) - {m}, Inflight(at));
    }
  }

  /** What a step puts in flight is the height the consumer waits for, unless the counter is low. */
  lemma StepEnters(s: State, at: Places, start: nat, end: nat, a: Action)
    requires Inv(s, at, start, end) && Enabled(s, a)
    requires a.Pass? ==> s.depth > REORDER_HIGH
    ensures Inflight(Moved(s, at, a)) <= Inflight(at) + (if a.Pass? then {s.next} else {})
    ensures Unsettled(Moved(s, at, a)) <= Unsettled(at)
  {
    if a.Begin? || a.Steal? || a.Pass? || a.Send? {
      WorkerEnters(s, at, start, end, a);
    } else {
      ConsumerEnters(s, at, start, end, a);
    }
  }

  lemma WorkerEnters(s: State, at: Places, start: nat, end: nat, a: Action)
    requires Inv(s, at, start, end) && Enabled(s, a) && (a.Begin? || a.Steal? || a.Pass? || a.Send?)
    requires a.Pass? ==> s.depth > REORDER_HIGH
    ensures Inflight(Moved(s, at, a)) <= Inflight(at) + (if a.Pass? then {s.next} else {})
    ensures Unsettled(Moved(s, at, a)) <= Unsettled(at)
  {
    hide ChannelAt;
    hide BufferAt;
    hide SkippedAt;
    hide ConsumerAt;
    hide AscendingWork;
    match a
    case Begin(w) => LowestIsQueued(s.queues, at, w);
    case Steal(w, v, k) => assert forall h :: h in Stolen(s, v, k) ==> at[h] == Queued(v);
    case Pass(w) => assert HeldAt(w, s.workers[w], at);
    case Send(w) => assert HeldAt(w, s.workers[w], at);
  }

  lemma ConsumerEnters(s: State, at: Places, start: nat, end: nat, a: Action)
    requires Inv(s, at, start, end) && Enabled(s, a) && !a.Begin? && !a.Steal? && !a.Pass? && !a.Send?
    ensures Inflight(Moved(s, at, a)) <= Inflight(at)
    ensures Unsettled(Moved(s, at, a)) <= Unsettled(at)
  {
    hide QueuesAt;
    hide WorkersAt;
    hide AscendingWork;
    match a
    case Receive => assert s.channel[0] in s.channel;
    case _ =>
  }

  /** A height waited for that is unsettled is the lowest such height. */
  lemma NextIsLowest(s: State, at: Places, start: nat, end: nat)
    requires Inv(s, at, start, end) && s.next in Unsettled(at)
    ensures IsLowest(Unsettled(at), s.next)
  {
  }

  /** Nothing but the lowest unsettled height entered, so the rest did not grow. */
  lemma RestShrinks(f: set<nat>, u: set<nat>, f': set<nat>, u': set<nat>, entered: set<nat>, m: nat, limit: int)
    requires f' <= f + entered && u' <= u && f' <= u'
    requires IsLowest(u', m) && entered <= {m}
    requires forall l :: IsLowest(u, l) ==> |f - {l}| <= limit
    ensures |f' - {m}| <= limit
  {
    LowestExists(u);
    var l :| IsLowest(u, l);
    SubsetSize(f' - {m}, f - {l});
  }

  lemma StepKeepsBound(s: State, at: Places, start: nat, end: nat, a: Action)
    requires Inv(s, at, start, end) && Enabled(s, a) && Bounded(s, at)
    ensures Bounded(Step(s, a, end), Moved(s, at, a))
  {
    var t, at' := Step(s, a, end), Moved(s, at, a);
    StepKeepsInv(s, at, start, end, a);
    StepKeepsWorkers(s, a, end);
    if a.Pass? && s.depth <= REORDER_HIGH {
      BoundedBelowWatermark(t, at', start, end);
    } else {
      BoundCarries(s, at, start, end, a);
    }
  }

  lemma BoundCarries(s: State, at: Places, start: nat, end: nat, a: Action)
    requires Inv(s, at, start, end) && Enabled(s, a) && Bounded(s, at) && (a.Pass? ==> s.depth > REORDER_HIGH)
    ensures |Step(s, a, end).workers| == |s.workers|
    ensures Bounded(Step(s, a, end), Moved(s, at, a))
  {
    hide Inv;
    hide Step;
    hide Moved;
    hide Enabled;
    hide IsLowest;
    var at' := Moved(s, at, a);
    StepKeepsWorkers(s, a, end);
    StepEnters(s, at, start, end, a);
    if a.Pass? { PassedNext(s, at, start, end, a.w); }
    forall m | IsLowest(Unsettled(at'), m)
      ensures |Inflight(at') - {m}| <= Capacity(|s.workers|)
    {
      if a.Pass? { OneLowest(Unsettled(at'), m, s.next); }
      RestShrinks(Inflight(at), Unsettled(at), Inflight(at'), Unsettled(at'),
                  if a.Pass? then {s.next} else {}, m, Capacity(|s.workers|));
    }
  }

  lemma OneLowest(u: set<nat>, x: nat, y: nat)
    requires IsLowest(u, x) && IsLowest(u, y)
    ensures x == y
  {
  }

  lemma PassedNext(s: State, at: Places, start: nat, end: nat, w: nat)
    requires Inv(s, at, start, end) && Enabled(s, Pass(w)) && s.depth > REORDER_HIGH
    ensures IsLowest(Unsettled(Moved(s, at, Pass(w))), s.next)
  {
    StepKeepsInv(s, at, start, end, Pass(w));
    assert HeldAt(w, s.workers[w], at);
    NextIsLowest(Step(s, Pass(w), end), Moved(s, at, Pass(w)), start, end);
  }

  /**
   * The reorder buffer: never more than the watermark, the channel and the workers
   * together allow and one, and one less while the next height is still to come.
   */
  lemma BufferSize(s: State, at: Places, start: nat, end: nat)
    requires Inv(s, at, start, end) && Bounded(s, at)
    ensures |s.buffer| <= Capacity(|s.workers|) + 1
    ensures s.next in Unsettled(at) && s.next !in s.buffer ==> |s.buffer| <= Capacity(|s.workers|)
  {
    if s.buffer != {} {
      assert s.buffer <= Inflight(at) && s.buffer <= Unsettled(at);
      LowestExists(Unsettled(at));
      var m :| IsLowest(Unsettled(at), m);
      SubsetSize(s.buffer - {m}, Inflight(at) - {m});
      assert |s.buffer - {m}| >= |s.buffer| - 1;
      if s.next in Unsettled(at) && s.next !in s.buffer {
        NextIsLowest(s, at, start, end);
        assert s.buffer - {m} == s.buffer;
      }
    }
  }
}
