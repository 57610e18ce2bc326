// The consumer that reorders parsed blocks by height: what it handles, and when it finishes.
module OrderedConsumer {
  import opened Bytes
  import opened UtxoReorg

  /** A message from a worker, tagged with its height. */
  datatype WorkItem =
    | BlockItem(height: u32, block: Block)
    | Skipped(height: u32)

  /** The consumer's state; `finished` once it has returned Ok from inside its loops. */
  datatype Consumer = Consumer(
    next: nat, buffer: map<nat, Block>, skipped: set<nat>, handled: seq<WorkItem>, finished: bool)

  function Start(start: u32): Consumer { Consumer(start, map[], {}, [], false) }

  /** Move past one height, recording what was done about it. */
  function Advance(c: Consumer, item: WorkItem, end: u32): Consumer {
    c.(next := c.next + 1, handled := c.handled + [item], finished := c.next + 1 >= end)
  }

  /** `while skipped_queue.remove(&next)`; the bound on `next` is implied whenever start < end. */
  function SkipLoop(c: Consumer, end: u32): Consumer
    decreases |c.skipped|
  {
    if c.finished || c.next !in c.skipped || c.next >= end then c
    else SkipLoop(Advance(c.(skipped := c.skipped - {c.next}), Skipped(c.next), end), end)
  }

  /** `while let Some(block) = buffer.remove(&next)`, bounded likewise. */
  function DrainLoop(c: Consumer, end: u32): Consumer
    decreases |c.buffer|
  {
    if c.finished || c.next !in c.buffer || c.next >= end then c
    else
      DropShrinks(c.buffer, c.next);
      DrainLoop(Advance(c.(buffer := c.buffer - {c.next}), BlockItem(c.next, c.buffer[c.next]), end), end)
  }

  lemma DropShrinks<T>(m: map<nat, T>, k: nat)
    requires k in m
    ensures |m - {k}| < |m|
  {
    assert (m - {k}).Keys == m.Keys - {k};
    assert |(m - {k}).Keys| < |m.Keys|;
  }

  function Accept(c: Consumer, item: WorkItem): Consumer {
    match item
    case BlockItem(h, b) => c.(buffer := c.buffer[h := b])
    case Skipped(h) => c.(skipped := c.skipped + {h})
  }

  function Receive(c: Consumer, item: WorkItem, end: u32): Consumer {
    if c.finished then c else DrainLoop(SkipLoop(Accept(c, item), end), end)
  }

  function Consume(start: u32, items: seq<WorkItem>, end: u32): Consumer {
    if |items| == 0 then Start(start)
    else Receive(Consume(start, items[..|items| - 1], end), items[|items| - 1], end)
  }

  // ---- Order: every height at most once, ascending ----

  /** Everything handled so far is the run of heights from `start`, each as it was delivered. */
  ghost predicate InOrder(c: Consumer, start: u32, end: u32, items: seq<WorkItem>) {
    && start <= c.next <= end && |c.handled| == c.next - start
    && (c.finished <==> c.next == end)
    && (forall i :: 0 <= i < |c.handled| ==> c.handled[i].height == start + i && c.handled[i] in items)
    && (forall h :: h in c.buffer ==> h < U32_RANGE && BlockItem(h, c.buffer[h]) in items)
    && (forall h :: h in c.skipped ==> h < U32_RANGE && Skipped(h) in items)
  }

  lemma {:induction false} SkipLoopInOrder(c: Consumer, start: u32, end: u32, items: seq<WorkItem>)
    requires InOrder(c, start, end, items)
    ensures InOrder(SkipLoop(c, end), start, end, items)
    decreases |c.skipped|
  {
    if !(c.finished || c.next !in c.skipped || c.next >= end) {
      SkipLoopInOrder(Advance(c.(skipped := c.skipped - {c.next}), Skipped(c.next), end), start, end, items);
    }
  }

  lemma {:induction false} DrainLoopInOrder(c: Consumer, start: u32, end: u32, items: seq<WorkItem>)
    requires InOrder(c, start, end, items)
    ensures InOrder(DrainLoop(c, end), start, end, items)
    decreases |c.buffer|
  {
    if !(c.finished || c.next !in c.buffer || c.next >= end) {
      DropShrinks(c.buffer, c.next);
      DrainLoopInOrder(Advance(c.(buffer := c.buffer - {c.next}), BlockItem(c.next, c.buffer[c.next]), end),
                       start, end, items);
    }
  }

  /** For every stream: heights are handled consecutively from `start`, none twice, none invented. */
  lemma {:induction false} ConsumeInOrder(start: u32, items: seq<WorkItem>, end: u32)
    requires start < end
    ensures InOrder(Consume(start, items, end), start, end, items)
  {
    if |items| > 0 {
      var n := |items| - 1;
      ConsumeInOrder(start, items[..n], end);
      var c := Consume(start, items[..n], end);
      assert forall x :: x in items[..n] ==> x in items;
      assert items[n] in items;
      if !c.finished {
        SkipLoopInOrder(Accept(c, items[n]), start, end, items);
        DrainLoopInOrder(SkipLoop(Accept(c, items[n]), end), start, end, items);
      }
    }
  }

  // ---- Completion: when every delivery order runs to the end ----

  /** Each height of the range arrives exactly once. */
  ghost predicate Delivers(items: seq<WorkItem>, start: u32, end: u32) {
    && (forall i :: 0 <= i < |items| ==> start <= items[i].height < end)
    && (forall i, j :: 0 <= i < j < |items| ==> items[i].height != items[j].height)
    && (forall h :: start <= h < end ==> HasHeight(items, h))
  }

  predicate HasHeight(items: seq<WorkItem>, h: nat) {
    exists i :: 0 <= i < |items| && items[i].height == h
  }

  /** `skips` are exactly the heights delivered as skipped. */
  predicate Kinds(items: seq<WorkItem>, skips: set<nat>) {
    forall i :: 0 <= i < |items| ==> (items[i].Skipped? <==> items[i].height in skips)
  }

  /** No skipped height directly follows an indexed one. */
  predicate NoBlockThenSkip(start: nat, end: nat, skips: set<nat>) {
    forall h :: start <= h && h + 1 < end && h !in skips ==> h + 1 !in skips
  }

  /** Everything received and not yet handled is waiting in its queue. */
  ghost predicate Waiting(c: Consumer, items: seq<WorkItem>, skips: set<nat>) {
    && (forall i :: 0 <= i < |items| && items[i].height >= c.next ==>
         if items[i].height in skips then items[i].height in c.skipped else items[i].height in c.buffer)
    && (forall h :: h in c.skipped ==> h in skips)
    && (forall h :: h in c.buffer ==> h !in skips)
  }

  /** Nothing that could be handled now is left over. */
  predicate Settled(c: Consumer) { c.finished || (c.next !in c.skipped && c.next !in c.buffer) }

  lemma {:induction false} SkipLoopWaits(c: Consumer, start: u32, end: u32, items: seq<WorkItem>, skips: set<nat>)
    requires InOrder(c, start, end, items) && Waiting(c, items, skips)
    ensures Waiting(SkipLoop(c, end), items, skips)
    ensures SkipLoop(c, end).finished || SkipLoop(c, end).next !in SkipLoop(c, end).skipped
    decreases |c.skipped|
  {
    if !(c.finished || c.next !in c.skipped || c.next >= end) {
      var c' := Advance(c.(skipped := c.skipped - {c.next}), Skipped(c.next), end);
      SkipLoopWaits(c', start, end, items, skips);
    }
  }

  /** After draining, the next height can be a waiting skip only if it follows a drained block. */
  lemma {:induction false} DrainLoopWaits(c: Consumer, start: u32, end: u32, items: seq<WorkItem>, skips: set<nat>)
    requires InOrder(c, start, end, items) && Waiting(c, items, skips)
    requires c.finished || c.next !in c.skipped
    requires NoBlockThenSkip(start, end, skips)
    ensures Waiting(DrainLoop(c, end), items, skips) && Settled(DrainLoop(c, end))
    decreases |c.buffer|
  {
    if !(c.finished || c.next !in c.buffer || c.next >= end) {
      DropShrinks(c.buffer, c.next);
      var c' := Advance(c.(buffer := c.buffer - {c.next}), BlockItem(c.next, c.buffer[c.next]), end);
      assert c.next !in skips;
      DrainLoopWaits(c', start, end, items, skips);
    }
  }

  lemma AcceptWaits(c: Consumer, items: seq<WorkItem>, item: WorkItem, skips: set<nat>)
    requires Waiting(c, items, skips) && Kinds(items + [item], skips)
    ensures Waiting(Accept(c, item), items + [item], skips)
  {
    assert (items + [item])[|items|] == item;
  }

  lemma AcceptInOrder(c: Consumer, start: u32, end: u32, items: seq<WorkItem>, item: WorkItem)
    requires InOrder(c, start, end, items)
    ensures InOrder(Accept(c, item), start, end, items + [item])
  {
    assert forall x :: x in items + [item] <==> x in items || x == item;
  }

  lemma {:induction false} ConsumeSettles(start: u32, items: seq<WorkItem>, end: u32, skips: set<nat>)
    requires start < end && Kinds(items, skips) && NoBlockThenSkip(start, end, skips)
    ensures var c := Consume(start, items, end); c.finished || (Waiting(c, items, skips) && Settled(c))
  {
    if |items| > 0 {
      var n := |items| - 1;
      ConsumeSettles(start, items[..n], end, skips);
      ConsumeInOrder(start, items[..n], end);
      var c := Consume(start, items[..n], end);
      assert items == items[..n] + [items[n]];
      if !c.finished {
        var a := Accept(c, items[n]);
        AcceptWaits(c, items[..n], items[n], skips);
        AcceptInOrder(c, start, end, items[..n], items[n]);
        SkipLoopInOrder(a, start, end, items);
        SkipLoopWaits(a, start, end, items, skips);
        DrainLoopWaits(SkipLoop(a, end), start, end, items, skips);
      }
    }
  }

  /** Without a skip right after a block, every delivery order completes. */
  lemma {:induction false} EveryOrderCompletes(start: u32, items: seq<WorkItem>, end: u32, skips: set<nat>)
    requires start < end && Delivers(items, start, end) && Kinds(items, skips)
    requires NoBlockThenSkip(start, end, skips)
    ensures Consume(start, items, end).finished
    ensures Consume(start, items, end).next == end
  {
    ConsumeSettles(start, items, end, skips);
    ConsumeInOrder(start, items, end);
    var c := Consume(start, items, end);
    assert c.next < end ==> HasHeight(items, c.next);
  }

  // ---- Where completion fails ----

  lemma {:induction false} SkipLoopStopsAt(c: Consumer, start: u32, end: u32, items: seq<WorkItem>, h: nat)
    requires InOrder(c, start, end, items) && !c.finished
    requires c.next <= h && h + 1 < end && h !in c.skipped
    ensures !SkipLoop(c, end).finished && SkipLoop(c, end).next <= h
    ensures SkipLoop(c, end).buffer == c.buffer && SkipLoop(c, end).skipped <= c.skipped
    decreases |c.skipped|
  {
    if c.next in c.skipped {
      SkipLoopStopsAt(Advance(c.(skipped := c.skipped - {c.next}), Skipped(c.next), end), start, end, items, h);
    }
  }

  lemma {:induction false} DrainLoopStopsAt(c: Consumer, start: u32, end: u32, items: seq<WorkItem>, h: nat)
    requires InOrder(c, start, end, items) && !c.finished
    requires c.next <= h < end && h !in c.buffer
    ensures !DrainLoop(c, end).finished && DrainLoop(c, end).next <= h
    decreases |c.buffer|
  {
    if c.next in c.buffer {
      DropShrinks(c.buffer, c.next);
      DrainLoopStopsAt(Advance(c.(buffer := c.buffer - {c.next}), BlockItem(c.next, c.buffer[c.next]), end),
                       start, end, items, h);
    }
  }

  lemma HandledWasDelivered(c: Consumer, start: u32, end: u32, items: seq<WorkItem>, h: nat)
    requires InOrder(c, start, end, items) && start <= h < c.next
    ensures HasHeight(items, h)
  {
    var x := c.handled[h - start];
    var i :| 0 <= i < |items| && items[i] == x;
  }

  /** Until height `h` arrives the consumer cannot get past it. */
  lemma {:induction false} NotPast(start: u32, items: seq<WorkItem>, end: u32, h: nat)
    requires start <= h < end && !HasHeight(items, h)
    ensures Consume(start, items, end).next <= h && !Consume(start, items, end).finished
  {
    ConsumeInOrder(start, items, end);
    if h < Consume(start, items, end).next {
      HandledWasDelivered(Consume(start, items, end), start, end, items, h);
    }
  }

  /**
   * If a block arrives last and the height after it is a skip, the stream ends with the
   * consumer still short of the end, although every height was delivered.
   */
  lemma {:induction false} LastBlockStalls(start: u32, items: seq<WorkItem>, end: u32, skips: set<nat>)
    requires start < end && Delivers(items, start, end) && Kinds(items, skips)
    requires |items| > 0 && items[|items| - 1].BlockItem?
    requires items[|items| - 1].height + 1 < end && items[|items| - 1].height + 1 in skips
    ensures !Consume(start, items, end).finished && Consume(start, items, end).next < end
  {
    var n := |items| - 1;
    var h := items[n].height;
    var c := Consume(start, items[..n], end);
    assert items == items[..n] + [items[n]];
    NotPast(start, items[..n], end, h);
    ConsumeInOrder(start, items[..n], end);
    AcceptInOrder(c, start, end, items[..n], items[n]);
    LastReceiveStalls(c, start, end, items[..n], items[n], skips);
  }

  lemma LastReceiveStalls(c: Consumer, start: u32, end: u32, items: seq<WorkItem>, last: WorkItem, skips: set<nat>)
    requires InOrder(c, start, end, items) && !c.finished && InOrder(Accept(c, last), start, end, items + [last])
    requires last.BlockItem? && last.height + 1 < end && last.height + 1 in skips && c.next <= last.height
    requires forall x :: x in items ==> x.height != last.height && (x.Skipped? <==> x.height in skips)
    ensures !Receive(c, last, end).finished && Receive(c, last, end).next < end
  {
    var a, h := Accept(c, last), last.height;
    assert Skipped(h) !in items;
    SkipLoopStopsAt(a, start, end, items + [last], h);
    SkipLoopInOrder(a, start, end, items + [last]);
    assert forall x :: x in items && x.height == h + 1 ==> x.Skipped?;
    DrainLoopStopsAt(SkipLoop(a, end), start, end, items + [last], h + 1);
  }

  /** Deliver height `h` last and every other height in ascending order before it. */
  function HeldBack(start: u32, end: u32, skips: set<nat>, h: u32, filler: Block): seq<WorkItem>
    requires start <= h < end
  {
    seq(end - start, i requires 0 <= i < end - start => ItemFor(skips, HeldBackHeight(start, end, h, i), filler))
  }

  function HeldBackHeight(start: u32, end: u32, h: u32, i: nat): u32
    requires start <= h < end && i < end - start
  {
    if i == end - start - 1 then h else if start + i < h then start + i else start + i + 1
  }

  function ItemFor(skips: set<nat>, h: u32, filler: Block): WorkItem {
    if h in skips then Skipped(h) else BlockItem(h, filler)
  }

  lemma HeldBackDelivers(start: u32, end: u32, skips: set<nat>, h: u32, filler: Block)
    requires start <= h < end
    ensures Delivers(HeldBack(start, end, skips, h, filler), start, end)
    ensures Kinds(HeldBack(start, end, skips, h, filler), skips)
  {
    var items := HeldBack(start, end, skips, h, filler);
    forall x | start <= x < end ensures HasHeight(items, x) {
      var i := if x == h then end - start - 1 else if x < h then x - start else x - start - 1;
      assert items[i].height == x;
    }
  }

  predicate Completes(start: u32, items: seq<WorkItem>, end: u32) { Consume(start, items, end).finished }

  ghost predicate AllOrdersComplete(start: u32, end: u32, skips: set<nat>)
    requires start < end
  {
    forall items :: Delivers(items, start, end) && Kinds(items, skips) ==> Completes(start, items, end)
  }

  lemma StallingOrder(start: u32, end: u32, skips: set<nat>, h: u32) returns (items: seq<WorkItem>)
    requires start <= h && h + 1 < end && h !in skips && h + 1 in skips
    ensures Delivers(items, start, end) && Kinds(items, skips)
    ensures !Consume(start, items, end).finished
  {
    var filler: Block := EMPTY_BLOCK;
    items := HeldBack(start, end, skips, h, filler);
    HeldBackDelivers(start, end, skips, h, filler);
    LastBlockStalls(start, items, end, skips);
  }

  /**
   * The consumer finishes on every delivery order of the range exactly when no skipped
   * height directly follows an indexed one.
   */
  lemma CompletesIff(start: u32, end: u32, skips: set<nat>)
    requires start < end
    ensures AllOrdersComplete(start, end, skips) <==> NoBlockThenSkip(start, end, skips)
  {
    if NoBlockThenSkip(start, end, skips) {
      forall items | Delivers(items, start, end) && Kinds(items, skips) ensures Completes(start, items, end) {
        EveryOrderCompletes(start, items, end, skips);
      }
    }
    forall h | start <= h && h + 1 < end && h !in skips && h + 1 in skips
      ensures !AllOrdersComplete(start, end, skips)
    {
      var items := StallingOrder(start, end, skips, h);
      assert !Completes(start, items, end);
    }
  }

  // ---- The arrival order does not matter ----

  lemma UniqueItem(items: seq<WorkItem>, start: u32, end: u32, x: WorkItem, y: WorkItem)
    requires Delivers(items, start, end) && x in items && y in items && x.height == y.height
    ensures x == y
  {
    var i :| 0 <= i < |items| && items[i] == x;
    var j :| 0 <= j < |items| && items[j] == y;
    assert i == j;
  }

  /** Two deliveries of the same items are handled identically, item for item. */
  lemma {:induction false} ArrivalOrderIrrelevant(
    start: u32, end: u32, skips: set<nat>, items0: seq<WorkItem>, items1: seq<WorkItem>)
    requires start < end && NoBlockThenSkip(start, end, skips)
    requires Delivers(items0, start, end) && Kinds(items0, skips)
    requires Delivers(items1, start, end) && Kinds(items1, skips)
    requires forall x :: x in items0 <==> x in items1
    ensures Consume(start, items0, end).handled == Consume(start, items1, end).handled
    ensures |Consume(start, items0, end).handled| == end - start
  {
    EveryOrderCompletes(start, items0, end, skips);
    EveryOrderCompletes(start, items1, end, skips);
    ConsumeInOrder(start, items0, end);
    ConsumeInOrder(start, items1, end);
    var a, b := Consume(start, items0, end).handled, Consume(start, items1, end).handled;
    forall i | 0 <= i < |a| ensures a[i] == b[i] {
      UniqueItem(items0, start, end, a[i], b[i]);
    }
  }
}
