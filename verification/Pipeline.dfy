// The backpressured parse pipeline as a state machine: work-stealing workers, a bounded
// channel, and one consumer that reorders by height.
module Pipeline {
  import opened Sets

  const REORDER_HIGH: nat := 32
  const CHANNEL_DEPTH: nat := 512

  datatype Worker = Idle | Waiting(h: nat) | Parsing(h: nat)

  /**
   * Where the consumer's loop stands: waiting for an item, holding one (`Got`), having
   * inserted a block it has not counted yet (`Filed`), in the skip loop, in the drain loop,
   * having removed a block it still counts (`Taken`), applying it, or returned.
   */
  datatype Phase = Recv | Got(h: nat) | Filed | Skip | Drain | Taken | Applying | Done

  datatype State = State(
    orphans: set<nat>,       // heights whose block is stale: sent as skips, never applied
    queues: seq<set<nat>>,   // heights each worker has still to start, taken in ascending order
    workers: seq<Worker>,
    channel: seq<nat>,
    buffer: set<nat>,
    skipped: set<nat>,       // skips received ahead of their turn
    depth: nat,              // the shared counter the workers read
    phase: Phase,
    next: nat,               // the height the consumer waits for, also shared
    received: seq<nat>,
    handled: seq<nat>)

  datatype Action =
    | Begin(w: nat)                      // a worker takes its lowest queued height
    | Steal(w: nat, v: nat, k: nat)      // an idle worker takes another's queued heights from k up
    | Pass(w: nat)                       // the backpressure check lets the worker through
    | Send(w: nat)
    | Receive                            // the consumer takes one item off the channel
    | File                               // ... inserts it into its buffer or its set of skips
    | Count                              // ... raises the shared counter for an inserted block
    | SkipOne                            // ... moves past the next height, which is to be skipped
    | NoSkip                             // ... finds that it is not
    | Take                               // ... removes the next height from the buffer
    | Uncount                            // ... lowers the shared counter
    | Commit                             // ... has applied it
    | NoMore                             // ... finds the next height absent and goes back to receiving

  predicate IsLowest(q: set<nat>, h: nat) { h in q && forall x :: x in q ==> h <= x }

  function Lowest(q: set<nat>): (h: nat)
    requires q != {}
    ensures IsLowest(q, h)
  {
    LowestExists(q);
    var h :| IsLowest(q, h);
    h
  }

  lemma LowestExists(q: set<nat>)
    requires q != {}
    ensures exists h :: IsLowest(q, h)
  {
    var x :| x in q;
    if q == {x} {
      assert IsLowest(q, x);
    } else {
      LowestExists(q - {x});
      var y :| IsLowest(q - {x}, y);
      assert q == (q - {x}) + {x};
      if x < y { assert IsLowest(q, x); } else { assert IsLowest(q, y); }
    }
  }

  function Stolen(s: State, v: nat, k: nat): set<nat>
    requires v < |s.queues|
  {
    set h | h in s.queues[v] && h >= k
  }

  predicate Enabled(s: State, a: Action) {
    var n := |s.workers|;
    && |s.queues| == n
    && match a
       case Begin(w) => w < n && s.workers[w].Idle? && s.queues[w] != {}
       case Steal(w, v, k) =>
         && w < n && v < n && w != v && s.workers[w].Idle? && s.queues[w] == {}
         && Stolen(s, v, k) != {} && (s.workers[v].Idle? ==> Stolen(s, v, k) != s.queues[v])
       case Pass(w) => w < n && s.workers[w].Waiting? && (s.depth <= REORDER_HIGH || s.next == s.workers[w].h)
       case Send(w) => w < n && s.workers[w].Parsing? && |s.channel| < CHANNEL_DEPTH
       case Receive => s.phase.Recv? && |s.channel| > 0
       case File => s.phase.Got?
       case Count => s.phase.Filed?
       case SkipOne => s.phase.Skip? && s.next in s.skipped
       case NoSkip => s.phase.Skip? && s.next !in s.skipped
       case Take => s.phase.Drain? && s.next in s.buffer
       case Uncount => s.phase.Taken? && s.depth > 0
       case Commit => s.phase.Applying?
       case NoMore => s.phase.Drain? && s.next !in s.buffer
  }

  function Step(s: State, a: Action, end: nat): State
    requires Enabled(s, a)
  {
    match a
    case Begin(w) =>
      var h := Lowest(s.queues[w]);
      s.(queues := s.queues[w := s.queues[w] - {h}], workers := s.workers[w := Waiting(h)])
    case Steal(w, v, k) =>
      var part := Stolen(s, v, k);
      s.(queues := s.queues[v := s.queues[v] - part][w := part])
    case Pass(w) => s.(workers := s.workers[w := Parsing(s.workers[w].h)])
    case Send(w) => s.(workers := s.workers[w := Idle], channel := s.channel + [s.workers[w].h])
    case Receive =>
      s.(channel := s.channel[1..], received := s.received + [s.channel[0]], phase := Got(s.channel[0]))
    case File =>
      var h := s.phase.h;
      if h in s.orphans then s.(skipped := s.skipped + {h}, phase := Skip)
      else s.(buffer := s.buffer + {h}, phase := Filed)
    case Count => s.(depth := s.depth + 1, phase := Skip)
    case SkipOne => Advanced(s.(skipped := s.skipped - {s.next}), Skip, end)
    case NoSkip => s.(phase := Drain)
    case Take => s.(buffer := s.buffer - {s.next}, phase := Taken)
    case Uncount => s.(depth := s.depth - 1, phase := Applying)
    case Commit => Advanced(s, Drain, end)
    case NoMore => s.(phase := Recv)
  }

  /** The consumer moves past one height and returns when that was the last. */
  function Advanced(s: State, phase: Phase, end: nat): State {
    s.(handled := s.handled + [s.next], next := s.next + 1, phase := if s.next + 1 >= end then Done else phase)
  }

  predicate SomeQueue(queues: seq<set<nat>>, h: nat) { exists w :: 0 <= w < |queues| && h in queues[w] }

  /** All heights queued, each at exactly one worker, in any partition. */
  predicate Init(s: State, start: nat, end: nat) {
    && start < end && |s.queues| == |s.workers| && |s.workers| > 0
    && (forall h, w, v :: 0 <= w < |s.queues| && 0 <= v < |s.queues| && h in s.queues[w] && h in s.queues[v] ==> w == v)
    && (forall h :: start <= h < end ==> SomeQueue(s.queues, h))
    && (forall w, h :: 0 <= w < |s.queues| && h in s.queues[w] ==> start <= h < end)
    && (forall w :: 0 <= w < |s.workers| ==> s.workers[w].Idle?)
    && s.channel == [] && s.buffer == {} && s.skipped == {} && s.depth == 0
    && s.phase.Recv? && s.next == start && s.received == [] && s.handled == []
  }

  // ---- Where each height is ----

  datatype Place =
    | Queued(w: nat) | Held(w: nat, parsing: bool)
    | Sent | Received | Buffered | Skipped | InHand | Handled

  type Places = map<nat, Place>

  ghost predicate QueuesAt(queues: seq<set<nat>>, at: Places) {
    && (forall w, h :: 0 <= w < |queues| && h in queues[w] ==> h in at && at[h] == Queued(w))
    && (forall h :: h in at && at[h].Queued? ==> at[h].w < |queues| && h in queues[at[h].w])
  }

  predicate HeldAt(w: nat, worker: Worker, at: Places) {
    !worker.Idle? ==> worker.h in at && at[worker.h] == Held(w, worker.Parsing?)
  }

  ghost predicate WorkersAt(workers: seq<Worker>, at: Places) {
    && (forall w :: 0 <= w < |workers| ==> HeldAt(w, workers[w], at))
    && (forall h :: h in at && at[h].Held? ==>
         at[h].w < |workers| && workers[at[h].w] == if at[h].parsing then Parsing(h) else Waiting(h))
  }

  ghost predicate ChannelAt(channel: seq<nat>, at: Places) {
    && |channel| <= CHANNEL_DEPTH
    && (forall i, j :: 0 <= i < j < |channel| ==> channel[i] != channel[j])
    && (forall h :: h in channel <==> h in at && at[h] == Sent)
  }

  ghost predicate BufferAt(buffer: set<nat>, orphans: set<nat>, at: Places) {
    && buffer !! orphans
    && forall h :: h in buffer <==> h in at && at[h] == Buffered
  }

  /** The shared counter is exact but for the block inserted or removed just before it changes. */
  predicate CounterAt(s: State) {
    if s.phase.Filed? then s.depth + 1 == |s.buffer|
    else if s.phase.Taken? then s.depth == |s.buffer| + 1
    else s.depth == |s.buffer|
  }

  ghost predicate SkippedAt(skipped: set<nat>, orphans: set<nat>, at: Places) {
    && skipped <= orphans
    && forall h :: h in skipped <==> h in at && at[h] == Skipped
  }

  /** Outside its skip loop the consumer faces a skip only after a block. */
  predicate SkipAfterBlock(s: State, start: nat) {
    (s.phase.Recv? || s.phase.Drain?) && s.next in s.skipped ==> start < s.next && s.next - 1 !in s.orphans
  }

  ghost predicate ConsumerAt(s: State, at: Places, start: nat, end: nat) {
    && start <= s.next <= end
    && (s.phase.Got? ==> s.phase.h in at)
    && (forall h :: h in at ==> (at[h] == Received <==> s.phase == Got(h)))
    && (forall h :: h in at ==> (at[h] == InHand <==> (s.phase.Taken? || s.phase.Applying?) && h == s.next))
    && (forall h :: h in at ==> (at[h] == Handled <==> h < s.next))
    && (s.phase.Recv? ==> s.next !in s.buffer)
    && (s.phase.Taken? || s.phase.Applying? ==> s.next < end && s.next !in s.orphans)
    && (s.phase.Done? <==> s.next == end)
    && SkipAfterBlock(s, start)
    && |s.handled| == s.next - start
    && (forall i :: 0 <= i < |s.handled| ==> s.handled[i] == start + i)
  }

  /** A worker holds a height below everything still in its queue. */
  ghost predicate AscendingWork(s: State)
    requires |s.queues| == |s.workers|
  {
    forall w, h :: 0 <= w < |s.workers| && !s.workers[w].Idle? && h in s.queues[w] ==> s.workers[w].h < h
  }

  /** `at` gives every height of the range exactly one place, and the state agrees with it. */
  ghost predicate Inv(s: State, at: Places, start: nat, end: nat) {
    && |s.queues| == |s.workers| > 0
    && (forall h :: h in at <==> start <= h < end)
    && QueuesAt(s.queues, at)
    && WorkersAt(s.workers, at)
    && ChannelAt(s.channel, at)
    && BufferAt(s.buffer, s.orphans, at)
    && CounterAt(s)
    && SkippedAt(s.skipped, s.orphans, at)
    && ConsumerAt(s, at, start, end)
    && AscendingWork(s)
  }

  /** Where the heights are after a step. */
  ghost function Moved(s: State, at: Places, a: Action): Places
    requires Enabled(s, a)
  {
    match a
    case Begin(w) => at[Lowest(s.queues[w]) := Held(w, false)]
    case Steal(w, v, k) => map h | h in at :: if h in Stolen(s, v, k) then Queued(w) else at[h]
    case Pass(w) => at[s.workers[w].h := Held(w, true)]
    case Send(w) => at[s.workers[w].h := Sent]
    case Receive => at[s.channel[0] := Received]
    case File => at[s.phase.h := if s.phase.h in s.orphans then Skipped else Buffered]
    case Count => at
    case SkipOne => at[s.next := Handled]
    case NoSkip => at
    case Take => at[s.next := InHand]
    case Uncount => at
    case Commit => at[s.next := Handled]
    case NoMore => at
  }

  // ---- Every step keeps the invariant ----

  /** Places that the consumer's phase and position determine. */
  predicate OfConsumer(p: Place) { p.Received? || p.InHand? || p.Handled? }

  lemma QueuesFrame(queues: seq<set<nat>>, at: Places, h: nat, p: Place)
    requires QueuesAt(queues, at) && h in at && !at[h].Queued? && !p.Queued?
    ensures QueuesAt(queues, at[h := p])
  {
  }

  lemma WorkersFrame(workers: seq<Worker>, at: Places, h: nat, p: Place)
    requires WorkersAt(workers, at) && h in at && !at[h].Held? && !p.Held?
    ensures WorkersAt(workers, at[h := p])
  {
    forall w | 0 <= w < |workers| ensures HeldAt(w, workers[w], at[h := p]) {
      assert HeldAt(w, workers[w], at);
    }
  }

  lemma ConsumerFrame(s: State, at: Places, start: nat, end: nat, h: nat, p: Place)
    requires ConsumerAt(s, at, start, end) && h in at && !OfConsumer(at[h]) && !OfConsumer(p)
    ensures ConsumerAt(s, at[h := p], start, end)
  {
  }

  /** Moving one height leaves the components alone that it neither leaves nor enters. */
  lemma MoveFrame(s: State, at: Places, start: nat, end: nat, h: nat, p: Place)
    requires Inv(s, at, start, end) && h in at
    ensures !at[h].Queued? && !p.Queued? ==> QueuesAt(s.queues, at[h := p])
    ensures !at[h].Held? && !p.Held? ==> WorkersAt(s.workers, at[h := p])
    ensures at[h] != Sent && p != Sent ==> ChannelAt(s.channel, at[h := p])
    ensures at[h] != Buffered && p != Buffered ==> BufferAt(s.buffer, s.orphans, at[h := p])
    ensures at[h] != Skipped && p != Skipped ==> SkippedAt(s.skipped, s.orphans, at[h := p])
    ensures !OfConsumer(at[h]) && !OfConsumer(p) ==> ConsumerAt(s, at[h := p], start, end)
  {
    hide QueuesAt;
    hide WorkersAt;
    hide ConsumerAt;
    hide AscendingWork;
    if !at[h].Queued? && !p.Queued? { QueuesFrame(s.queues, at, h, p); }
    if !at[h].Held? && !p.Held? { WorkersFrame(s.workers, at, h, p); }
    if !OfConsumer(at[h]) && !OfConsumer(p) { ConsumerFrame(s, at, start, end, h, p); }
  }

  lemma LowestIsQueued(queues: seq<set<nat>>, at: Places, w: nat)
    requires QueuesAt(queues, at) && w < |queues| && queues[w] != {}
    ensures Lowest(queues[w]) in at && at[Lowest(queues[w])] == Queued(w)
  {
  }

  lemma BeginQueues(queues: seq<set<nat>>, at: Places, w: nat)
    requires QueuesAt(queues, at) && w < |queues| && queues[w] != {}
    ensures QueuesAt(queues[w := queues[w] - {Lowest(queues[w])}], at[Lowest(queues[w]) := Held(w, false)])
  {
    assert at[Lowest(queues[w])] == Queued(w);
  }

  lemma BeginWorkers(workers: seq<Worker>, at: Places, w: nat, h: nat)
    requires WorkersAt(workers, at) && w < |workers| && workers[w].Idle? && h in at && at[h].Queued?
    ensures WorkersAt(workers[w := Waiting(h)], at[h := Held(w, false)])
  {
    var at', workers' := at[h := Held(w, false)], workers[w := Waiting(h)];
    forall v | 0 <= v < |workers| ensures HeldAt(v, workers'[v], at') {
      assert HeldAt(v, workers[v], at);
    }
  }

  lemma BeginKeeps(s: State, at: Places, start: nat, end: nat, w: nat)
    requires Inv(s, at, start, end) && Enabled(s, Begin(w))
    ensures Inv(Step(s, Begin(w), end), Moved(s, at, Begin(w)), start, end)
  {
    hide QueuesAt;
    hide WorkersAt;
    hide ChannelAt;
    hide BufferAt;
    hide SkippedAt;
    var h := Lowest(s.queues[w]);
    LowestIsQueued(s.queues, at, w);
    MoveFrame(s, at, start, end, h, Held(w, false));
    BeginQueues(s.queues, at, w);
    BeginWorkers(s.workers, at, w, h);
    assert ConsumerAt(Step(s, Begin(w), end), Moved(s, at, Begin(w)), start, end);
  }

  lemma StealQueues(s: State, at: Places, w: nat, v: nat, k: nat)
    requires |s.queues| == |s.workers| && QueuesAt(s.queues, at) && Enabled(s, Steal(w, v, k))
    ensures QueuesAt(s.queues[v := s.queues[v] - Stolen(s, v, k)][w := Stolen(s, v, k)], Moved(s, at, Steal(w, v, k)))
  {
    var part, at' := Stolen(s, v, k), Moved(s, at, Steal(w, v, k));
    var queues' := s.queues[v := s.queues[v] - part][w := part];
    forall u, h | 0 <= u < |queues'| && h in queues'[u] ensures h in at' && at'[h] == Queued(u) {
      if u == w || u == v {
        assert h in s.queues[v];
      } else {
        assert h in s.queues[u] && at[h] == Queued(u);
      }
    }
    forall h | h in at' && at'[h].Queued? ensures at'[h].w < |queues'| && h in queues'[at'[h].w] {
      if h !in part {
        assert at[h].Queued? && h in s.queues[at[h].w];
      }
    }
  }

  /** A change that only moves heights between queues leaves everything else in place. */
  lemma QueueMoveFrame(s: State, at: Places, at': Places, start: nat, end: nat)
    requires Inv(s, at, start, end) && at'.Keys == at.Keys
    requires forall h :: h in at ==> if at[h].Queued? then at'[h].Queued? else at'[h] == at[h]
    ensures WorkersAt(s.workers, at') && ChannelAt(s.channel, at') && BufferAt(s.buffer, s.orphans, at')
    ensures SkippedAt(s.skipped, s.orphans, at') && ConsumerAt(s, at', start, end)
  {
    forall w | 0 <= w < |s.workers| ensures HeldAt(w, s.workers[w], at') {
      assert HeldAt(w, s.workers[w], at);
    }
  }

  lemma StealAscends(s: State, w: nat, v: nat, k: nat)
    requires |s.queues| == |s.workers| && AscendingWork(s) && Enabled(s, Steal(w, v, k))
    ensures AscendingWork(s.(queues := s.queues[v := s.queues[v] - Stolen(s, v, k)][w := Stolen(s, v, k)]))
  {
  }

  lemma StealKeeps(s: State, at: Places, start: nat, end: nat, w: nat, v: nat, k: nat)
    requires Inv(s, at, start, end) && Enabled(s, Steal(w, v, k))
    ensures Inv(Step(s, Steal(w, v, k), end), Moved(s, at, Steal(w, v, k)), start, end)
  {
    hide WorkersAt;
    hide ChannelAt;
    hide BufferAt;
    hide SkippedAt;
    hide ConsumerAt;
    hide AscendingWork;
    var at' := Moved(s, at, Steal(w, v, k));
    StealQueues(s, at, w, v, k);
    assert forall h :: h in Stolen(s, v, k) ==> at[h] == Queued(v);
    assert at'.Keys == at.Keys;
    QueueMoveFrame(s, at, at', start, end);
    StealAscends(s, w, v, k);
    InvOf(s, s.queues[v := s.queues[v] - Stolen(s, v, k)][w := Stolen(s, v, k)], at', start, end);
  }

  /** The invariant after a change of queues alone, from its parts. */
  lemma InvOf(s: State, queues: seq<set<nat>>, at: Places, start: nat, end: nat)
    requires |queues| == |s.workers| > 0 && forall h :: h in at <==> start <= h < end
    requires QueuesAt(queues, at) && WorkersAt(s.workers, at) && ChannelAt(s.channel, at)
    requires BufferAt(s.buffer, s.orphans, at) && SkippedAt(s.skipped, s.orphans, at)
    requires CounterAt(s) && ConsumerAt(s, at, start, end)
    requires AscendingWork(s.(queues := queues))
    ensures Inv(s.(queues := queues), at, start, end)
  {
    assert ConsumerAt(s.(queues := queues), at, start, end);
  }

  /** A worker moves its height on to place `p`, and itself to `after`. */
  lemma WorkerMoves(workers: seq<Worker>, at: Places, w: nat, p: Place, after: Worker)
    requires WorkersAt(workers, at) && w < |workers| && !workers[w].Idle?
    requires (p == Sent && after == Idle) || (p == Held(w, true) && after == Parsing(workers[w].h))
    ensures workers[w].h in at && at[workers[w].h] == Held(w, workers[w].Parsing?)
    ensures WorkersAt(workers[w := after], at[workers[w].h := p])
  {
    assert HeldAt(w, workers[w], at);
    var at', workers' := at[workers[w].h := p], workers[w := after];
    forall v | 0 <= v < |workers| ensures HeldAt(v, workers'[v], at') {
      assert HeldAt(v, workers[v], at);
    }
  }

  lemma PassKeeps(s: State, at: Places, start: nat, end: nat, w: nat)
    requires Inv(s, at, start, end) && Enabled(s, Pass(w))
    ensures Inv(Step(s, Pass(w), end), Moved(s, at, Pass(w)), start, end)
  {
    hide QueuesAt;
    hide WorkersAt;
    hide ChannelAt;
    hide BufferAt;
    hide SkippedAt;
    var h := s.workers[w].h;
    WorkerMoves(s.workers, at, w, Held(w, true), Parsing(h));
    MoveFrame(s, at, start, end, h, Held(w, true));
    assert ConsumerAt(Step(s, Pass(w), end), Moved(s, at, Pass(w)), start, end);
  }

  lemma SendKeeps(s: State, at: Places, start: nat, end: nat, w: nat)
    requires Inv(s, at, start, end) && Enabled(s, Send(w))
    ensures Inv(Step(s, Send(w), end), Moved(s, at, Send(w)), start, end)
  {
    hide QueuesAt;
    hide WorkersAt;
    hide BufferAt;
    hide SkippedAt;
    var h := s.workers[w].h;
    WorkerMoves(s.workers, at, w, Sent, Idle);
    MoveFrame(s, at, start, end, h, Sent);
    assert ConsumerAt(Step(s, Send(w), end), Moved(s, at, Send(w)), start, end);
  }

  lemma ReceiveChannel(channel: seq<nat>, at: Places, p: Place)
    requires ChannelAt(channel, at) && |channel| > 0 && p != Sent
    ensures ChannelAt(channel[1..], at[channel[0] := p])
  {
    var h := channel[0];
    assert channel == [h] + channel[1..];
    assert h !in channel[1..];
  }

  lemma ReceiveKeeps(s: State, at: Places, start: nat, end: nat)
    requires Inv(s, at, start, end) && Enabled(s, Receive)
    ensures Inv(Step(s, Receive, end), Moved(s, at, Receive), start, end)
  {
    hide QueuesAt;
    hide WorkersAt;
    hide BufferAt;
    hide SkippedAt;
    var h := s.channel[0];
    assert h in s.channel && at[h] == Sent;
    MoveFrame(s, at, start, end, h, Received);
    ReceiveChannel(s.channel, at, Received);
    assert ConsumerAt(Step(s, Receive, end), Moved(s, at, Receive), start, end);
  }

  lemma FileBuffer(buffer: set<nat>, orphans: set<nat>, at: Places, h: nat)
    requires BufferAt(buffer, orphans, at) && h in at && at[h] == Received && h !in orphans
    ensures BufferAt(buffer + {h}, orphans, at[h := Buffered]) && |buffer + {h}| == |buffer| + 1
  {
  }

  lemma FileSkipped(skipped: set<nat>, orphans: set<nat>, at: Places, h: nat)
    requires SkippedAt(skipped, orphans, at) && h in at && at[h] == Received && h in orphans
    ensures SkippedAt(skipped + {h}, orphans, at[h := Skipped])
  {
  }

  lemma FileKeeps(s: State, at: Places, start: nat, end: nat)
    requires Inv(s, at, start, end) && Enabled(s, File)
    ensures Inv(Step(s, File, end), Moved(s, at, File), start, end)
  {
    hide QueuesAt;
    hide WorkersAt;
    hide ChannelAt;
    hide BufferAt;
    hide SkippedAt;
    var h := s.phase.h;
    MoveFrame(s, at, start, end, h, if h in s.orphans then Skipped else Buffered);
    if h in s.orphans {
      FileSkipped(s.skipped, s.orphans, at, h);
    } else {
      FileBuffer(s.buffer, s.orphans, at, h);
    }
    assert ConsumerAt(Step(s, File, end), Moved(s, at, File), start, end);
  }

  lemma CountKeeps(s: State, at: Places, start: nat, end: nat)
    requires Inv(s, at, start, end) && Enabled(s, Count)
    ensures Inv(Step(s, Count, end), Moved(s, at, Count), start, end)
  {
  }

  lemma SkipOneKeeps(s: State, at: Places, start: nat, end: nat)
    requires Inv(s, at, start, end) && Enabled(s, SkipOne)
    ensures Inv(Step(s, SkipOne, end), Moved(s, at, SkipOne), start, end)
  {
    hide QueuesAt;
    hide WorkersAt;
    hide ChannelAt;
    hide BufferAt;
    MoveFrame(s, at, start, end, s.next, Handled);
    assert ConsumerAt(Step(s, SkipOne, end), Moved(s, at, SkipOne), start, end);
  }

  lemma NoSkipKeeps(s: State, at: Places, start: nat, end: nat)
    requires Inv(s, at, start, end) && Enabled(s, NoSkip)
    ensures Inv(Step(s, NoSkip, end), Moved(s, at, NoSkip), start, end)
  {
  }

  lemma TakeKeeps(s: State, at: Places, start: nat, end: nat)
    requires Inv(s, at, start, end) && Enabled(s, Take)
    ensures Inv(Step(s, Take, end), Moved(s, at, Take), start, end)
  {
    hide QueuesAt;
    hide WorkersAt;
    hide ChannelAt;
    hide SkippedAt;
    MoveFrame(s, at, start, end, s.next, InHand);
    assert ConsumerAt(Step(s, Take, end), Moved(s, at, Take), start, end);
  }

  lemma UncountKeeps(s: State, at: Places, start: nat, end: nat)
    requires Inv(s, at, start, end) && Enabled(s, Uncount)
    ensures Inv(Step(s, Uncount, end), Moved(s, at, Uncount), start, end)
  {
  }

  lemma CommitKeeps(s: State, at: Places, start: nat, end: nat)
    requires Inv(s, at, start, end) && Enabled(s, Commit)
    ensures Inv(Step(s, Commit, end), Moved(s, at, Commit), start, end)
  {
    hide QueuesAt;
    hide WorkersAt;
    hide ChannelAt;
    hide BufferAt;
    hide SkippedAt;
    MoveFrame(s, at, start, end, s.next, Handled);
    assert ConsumerAt(Step(s, Commit, end), Moved(s, at, Commit), start, end);
  }

  lemma NoMoreKeeps(s: State, at: Places, start: nat, end: nat)
    requires Inv(s, at, start, end) && Enabled(s, NoMore)
    ensures Inv(Step(s, NoMore, end), Moved(s, at, NoMore), start, end)
  {
  }

  lemma StepKeepsInv(s: State, at: Places, start: nat, end: nat, a: Action)
    requires Inv(s, at, start, end) && Enabled(s, a)
    ensures Inv(Step(s, a, end), Moved(s, at, a), start, end)
  {
    match a
    case Begin(w) => BeginKeeps(s, at, start, end, w);
    case Steal(w, v, k) => StealKeeps(s, at, start, end, w, v, k);
    case Pass(w) => PassKeeps(s, at, start, end, w);
    case Send(w) => SendKeeps(s, at, start, end, w);
    case Receive => ReceiveKeeps(s, at, start, end);
    case File => FileKeeps(s, at, start, end);
    case Count => CountKeeps(s, at, start, end);
    case SkipOne => SkipOneKeeps(s, at, start, end);
    case NoSkip => NoSkipKeeps(s, at, start, end);
    case Take => TakeKeeps(s, at, start, end);
    case Uncount => UncountKeeps(s, at, start, end);
    case Commit => CommitKeeps(s, at, start, end);
    case NoMore => NoMoreKeeps(s, at, start, end);
  }

  // ---- The start ----

  ghost function QueueOf(queues: seq<set<nat>>, h: nat): (w: nat)
    requires SomeQueue(queues, h)
    ensures w < |queues| && h in queues[w]
  {
    var w: nat :| w < |queues| && h in queues[w];
    w
  }

  ghost function InitPlaces(s: State, start: nat, end: nat): Places
    requires Init(s, start, end)
  {
    map h: nat | start <= h < end :: Queued(QueueOf(s.queues, h))
  }

  lemma InitEstablishes(s: State, start: nat, end: nat)
    requires Init(s, start, end)
    ensures Inv(s, InitPlaces(s, start, end), start, end)
  {
  }

  // ---- No deadlock ----

  /** The consumer waits for a height it has already been told to skip. */
  predicate FacesSkip(s: State) { s.phase.Recv? && s.next in s.skipped }

  /**
   * Until the consumer is done some step other than stealing is possible, unless it
   * waits, with an empty channel, for a height it has already been told to skip.
   */
  lemma SomeStepEnabled(s: State, at: Places, start: nat, end: nat) returns (a: Action)
    requires Inv(s, at, start, end) && !s.phase.Done? && !FacesSkip(s)
    ensures Enabled(s, a) && !a.Steal?
  {
    if s.phase.Got? { return File; }
    if s.phase.Filed? { return Count; }
    if s.phase.Taken? { return Uncount; }
    if s.phase.Applying? { return Commit; }
    if s.phase.Skip? {
      if s.next in s.skipped { return SkipOne; } else { return NoSkip; }
    }
    if s.phase.Drain? {
      if s.next in s.buffer { return Take; } else { return NoMore; }
    }
    if |s.channel| > 0 { return Receive; }
    a := WorkerCanMove(s, at, start, end);
  }

  /** The channel is empty, so the next height is with a worker or still queued. */
  lemma WorkerCanMove(s: State, at: Places, start: nat, end: nat) returns (a: Action)
    requires Inv(s, at, start, end) && s.phase.Recv? && s.channel == [] && !FacesSkip(s)
    ensures Enabled(s, a) && (a.Begin? || a.Pass? || a.Send?)
    ensures s.next in at && (at[s.next].Queued? || at[s.next].Held?) && a.w == at[s.next].w
    ensures a == if at[s.next].Queued? then Begin(a.w) else if at[s.next].parsing then Send(a.w) else Pass(a.w)
  {
    var p := at[s.next];
    if p.Held? {
      assert HeldAt(p.w, s.workers[p.w], at);
      if p.parsing { return Send(p.w); } else { return Pass(p.w); }
    }
    HeldNotBelowNext(s, at, start, end, p.w);
    assert s.workers[p.w].Idle?;
    a := Begin(p.w);
  }

  /** Every height below `next` has been handled, so no worker holds one. */
  lemma HeldNotBelowNext(s: State, at: Places, start: nat, end: nat, w: nat)
    requires Inv(s, at, start, end) && w < |s.workers|
    ensures !s.workers[w].Idle? ==> s.workers[w].h >= s.next
  {
    assert HeldAt(w, s.workers[w], at);
  }

  // ---- Termination ----

  function Weight(p: Place): nat {
    match p
    case Queued(_) => 16
    case Held(_, parsing) => if parsing then 12 else 14
    case Sent => 11
    case Received => 10
    case Buffered => 6
    case Skipped => 6
    case InHand => 3
    case Handled => 0
  }

  function PhaseWeight(p: Phase): nat {
    match p
    case Filed => 3
    case Skip => 2
    case Taken => 2
    case Drain => 1
    case Applying => 1
    case _ => 0
  }

  ghost predicate Covers(at: Places, lo: nat, end: nat) { forall h :: lo <= h < end ==> h in at }

  /** The work left for the heights from `lo` on. */
  ghost function Work(at: Places, lo: nat, end: nat): nat
    requires Covers(at, lo, end)
    decreases end - lo
  {
    if lo >= end then 0 else Weight(at[lo]) + Work(at, lo + 1, end)
  }

  lemma {:induction false} WorkMove(at: Places, lo: nat, end: nat, h: nat, p: Place)
    requires Covers(at, lo, end) && h < end && h in at
    ensures Covers(at[h := p], lo, end)
    ensures Work(at[h := p], lo, end) == Work(at, lo, end) + (if lo <= h then Weight(p) - Weight(at[h]) else 0)
    decreases end - lo
  {
    if lo < end { WorkMove(at, lo + 1, end, h, p); }
  }

  lemma {:induction false} WorkSame(at: Places, at': Places, lo: nat, end: nat)
    requires Covers(at, lo, end) && Covers(at', lo, end)
    requires forall h :: lo <= h < end ==> Weight(at[h]) == Weight(at'[h])
    ensures Work(at, lo, end) == Work(at', lo, end)
    decreases end - lo
  {
    if lo < end { WorkSame(at, at', lo + 1, end); }
  }

  lemma {:induction false} WorkBound(at: Places, lo: nat, end: nat)
    requires Covers(at, lo, end) && lo <= end
    ensures Work(at, lo, end) <= 16 * (end - lo)
    decreases end - lo
  {
    if lo < end { WorkBound(at, lo + 1, end); }
  }

  /** Workers with nothing to do: stealing uses one of them up. */
  function Starved(s: State): set<nat>
    requires |s.queues| == |s.workers|
  {
    set w: nat | w < |s.workers| && s.workers[w].Idle? && s.queues[w] == {}
  }

  /** `n * x`, by repeated addition. */
  function Times(n: nat, x: nat): nat {
    if x == 0 then 0 else n + Times(n, x - 1)
  }

  ghost function Rank(s: State, at: Places, start: nat, end: nat): nat
    requires |s.queues| == |s.workers| && Covers(at, start, end)
  {
    Times(|s.workers| + 1, Work(at, start, end) + PhaseWeight(s.phase)) + |Starved(s)|
  }

  lemma {:induction false} TimesGrows(n: nat, x: nat, y: nat)
    requires x <= y
    ensures Times(n, x) <= Times(n, y)
  {
    if x < y { TimesGrows(n, x, y - 1); }
  }

  lemma LexicographicDrop(n: nat, x: nat, y: nat, c: nat, d: nat)
    requires x < y && c <= n
    ensures Times(n + 1, x) + c < Times(n + 1, y) + d
  {
    TimesGrows(n + 1, x + 1, y);
  }

  lemma {:induction false} StealWork(s: State, at: Places, start: nat, end: nat, w: nat, v: nat, k: nat)
    requires Covers(at, start, end) && QueuesAt(s.queues, at) && Enabled(s, Steal(w, v, k))
    ensures Covers(Moved(s, at, Steal(w, v, k)), start, end)
    ensures Work(Moved(s, at, Steal(w, v, k)), start, end) == Work(at, start, end)
  {
    assert forall h :: h in Stolen(s, v, k) ==> at[h] == Queued(v);
    WorkSame(at, Moved(s, at, Steal(w, v, k)), start, end);
  }

  lemma {:induction false} WorkerStepWork(s: State, at: Places, start: nat, end: nat, a: Action)
    requires Inv(s, at, start, end) && Enabled(s, a) && (a.Begin? || a.Pass? || a.Send?)
    ensures Covers(at, start, end) && Covers(Moved(s, at, a), start, end)
    ensures Work(Moved(s, at, a), start, end) < Work(at, start, end)
  {
    hide ChannelAt;
    hide BufferAt;
    hide SkippedAt;
    hide ConsumerAt;
    hide AscendingWork;
    match a
    case Begin(w) =>
      LowestIsQueued(s.queues, at, w);
      WorkMove(at, start, end, Lowest(s.queues[w]), Held(w, false));
    case Pass(w) =>
      assert HeldAt(w, s.workers[w], at);
      WorkMove(at, start, end, s.workers[w].h, Held(w, true));
    case Send(w) =>
      assert HeldAt(w, s.workers[w], at);
      WorkMove(at, start, end, s.workers[w].h, Sent);
  }

  /** Where the height is that a step of the consumer moves. */
  lemma ConsumerPlaces(s: State, at: Places, start: nat, end: nat, a: Action)
    requires Inv(s, at, start, end) && Enabled(s, a)
    ensures a.Receive? ==> s.channel[0] in at && s.channel[0] < end && at[s.channel[0]] == Sent
    ensures a.File? ==> s.phase.h in at && s.phase.h < end && at[s.phase.h] == Received
    ensures a.SkipOne? ==> s.next in at && s.next < end && at[s.next] == Skipped
    ensures a.Take? ==> s.next in at && s.next < end && at[s.next] == Buffered
    ensures a.Commit? ==> s.next in at && s.next < end && at[s.next] == InHand
  {
    hide QueuesAt;
    hide WorkersAt;
    hide AscendingWork;
    if a.Receive? { assert s.channel[0] in s.channel; }
  }

  lemma {:induction false} ConsumerStepWork(s: State, at: Places, start: nat, end: nat, a: Action)
    requires Inv(s, at, start, end) && Enabled(s, a) && !a.Begin? && !a.Pass? && !a.Send? && !a.Steal?
    ensures Covers(at, start, end) && Covers(Moved(s, at, a), start, end)
    ensures Work(Moved(s, at, a), start, end) + PhaseWeight(Step(s, a, end).phase)
      < Work(at, start, end) + PhaseWeight(s.phase)
  {
    hide QueuesAt;
    hide WorkersAt;
    hide ChannelAt;
    hide BufferAt;
    hide SkippedAt;
    hide ConsumerAt;
    hide AscendingWork;
    hide Work;
    ConsumerPlaces(s, at, start, end, a);
    match a
    case Receive => WorkMove(at, start, end, s.channel[0], Received);
    case File => WorkMove(at, start, end, s.phase.h, if s.phase.h in s.orphans then Skipped else Buffered);
    case SkipOne => WorkMove(at, start, end, s.next, Handled);
    case Take => WorkMove(at, start, end, s.next, InHand);
    case Commit => WorkMove(at, start, end, s.next, Handled);
    case _ =>
  }

  /** Every step other than a steal lowers the work; a steal leaves it and feeds a starved worker. */
  lemma {:induction false} StepWork(s: State, at: Places, start: nat, end: nat, a: Action)
    requires Inv(s, at, start, end) && Enabled(s, a)
    ensures Covers(at, start, end) && Covers(Moved(s, at, a), start, end)
    ensures !a.Steal? ==>
      Work(Moved(s, at, a), start, end) + PhaseWeight(Step(s, a, end).phase)
      < Work(at, start, end) + PhaseWeight(s.phase)
    ensures a.Steal? ==> Work(Moved(s, at, a), start, end) == Work(at, start, end)
  {
    if a.Steal? {
      StealWork(s, at, start, end, a.w, a.v, a.k);
    } else if a.Begin? || a.Pass? || a.Send? {
      WorkerStepWork(s, at, start, end, a);
    } else {
      ConsumerStepWork(s, at, start, end, a);
    }
  }

  lemma StealFeeds(s: State, w: nat, v: nat, k: nat, end: nat)
    requires Enabled(s, Steal(w, v, k))
    ensures |Starved(Step(s, Steal(w, v, k), end))| < |Starved(s)|
  {
    var t := Step(s, Steal(w, v, k), end);
    if s.workers[v].Idle? {
      var x :| x in s.queues[v] && x !in Stolen(s, v, k);
      assert x in t.queues[v];
    }
    assert w in Starved(s) && w !in Starved(t);
    assert Starved(t) <= Starved(s) - {w};
    SubsetSize(Starved(t), Starved(s) - {w});
  }

  lemma StepKeepsWorkers(s: State, a: Action, end: nat)
    requires Enabled(s, a)
    ensures |Step(s, a, end).workers| == |s.workers| == |Step(s, a, end).queues|
    ensures a.Steal? ==> Step(s, a, end).phase == s.phase
  {
  }

  lemma {:induction false} FeedLowersRank(s: State, at: Places, start: nat, end: nat, t: State, at': Places)
    requires |s.queues| == |s.workers| == |t.workers| == |t.queues|
    requires Covers(at, start, end) && Covers(at', start, end)
    requires Work(at', start, end) == Work(at, start, end) && t.phase == s.phase
    requires |Starved(t)| < |Starved(s)|
    ensures Rank(t, at', start, end) < Rank(s, at, start, end)
  {
  }

  lemma {:induction false} WorkStepLowersRank(s: State, at: Places, start: nat, end: nat, t: State, at': Places)
    requires |s.queues| == |s.workers| == |t.workers| == |t.queues|
    requires Covers(at, start, end) && Covers(at', start, end)
    requires Work(at', start, end) + PhaseWeight(t.phase) < Work(at, start, end) + PhaseWeight(s.phase)
    ensures Rank(t, at', start, end) < Rank(s, at, start, end)
  {
    IndexCount(|t.workers|, Starved(t));
    LexicographicDrop(|s.workers|, Work(at', start, end) + PhaseWeight(t.phase),
                      Work(at, start, end) + PhaseWeight(s.phase), |Starved(t)|, |Starved(s)|);
  }

  lemma StepLowersRank(s: State, at: Places, start: nat, end: nat, a: Action)
    requires Inv(s, at, start, end) && Enabled(s, a)
    ensures |Step(s, a, end).workers| == |s.workers| == |Step(s, a, end).queues|
    ensures Covers(at, start, end) && Covers(Moved(s, at, a), start, end)
    ensures Rank(Step(s, a, end), Moved(s, at, a), start, end) < Rank(s, at, start, end)
  {
    StepWork(s, at, start, end, a);
    StepKeepsWorkers(s, a, end);
    if a.Steal? {
      StealFeeds(s, a.w, a.v, a.k, end);
      FeedLowersRank(s, at, start, end, Step(s, a, end), Moved(s, at, a));
    } else {
      WorkStepLowersRank(s, at, start, end, Step(s, a, end), Moved(s, at, a));
    }
  }
}
