// The ordered consumer as it runs: store, sink and shared counters.
module IndexRun {
  import opened Wrappers
  import opened Bytes
  import opened Rows
  import opened UtxoSpec
  import opened UtxoReorg
  import opened UtxoStore
  import opened Conservation
  import opened OrderedConsumer
  import opened Runs

  // ---- Enriching a block with its fees ----

  /** Per-transaction fees filled in, and their capped total without the coinbase. */
  function Enriched(b: FullBlock, fees: seq<u64>): FullBlock
    requires |fees| == |b.txs|
  {
    b.(txs := seq(|b.txs|, i requires 0 <= i < |b.txs| => b.txs[i].(fee := fees[i])),
       blockRow := b.blockRow.(totalFee := Min(FeeSum(fees, b.inputs), U64_MAX)))
  }

  /** One pass over the inputs; rows naming no transaction of the block are ignored. */
  method CoinbaseFlags(nTx: nat, ins: seq<InputRow>) returns (flags: seq<bool>)
    ensures |flags| == nTx && forall t :: 0 <= t < nTx ==> (flags[t] <==> IsCoinbaseTx(ins, t))
  {
    flags := seq(nTx, _ => false);
    for i := 0 to |ins|
      invariant |flags| == nTx
      invariant forall t :: 0 <= t < nTx ==> (flags[t] <==> IsCoinbaseTx(ins[..i], t))
    {
      assert forall r :: r in ins[..i + 1] <==> r in ins[..i] || r == ins[i];
      if ins[i].txIndex < nTx {
        flags := flags[ins[i].txIndex := flags[ins[i].txIndex] || ins[i].isCoinbase];
      }
    }
    assert ins[..|ins|] == ins;
  }

  method EnrichBlock(b: FullBlock, fees: seq<u64>) returns (b': FullBlock)
    requires |fees| == |b.txs|
    ensures b' == Enriched(b, fees)
  {
    var coinbase := CoinbaseFlags(|b.txs|, b.inputs);
    var totalFee: u64 := 0;
    var txs := b.txs;
    for i := 0 to |txs|
      invariant |txs| == |b.txs|
      invariant totalFee == Min(FeeSum(fees[..i], b.inputs), U64_MAX)
      invariant forall t :: 0 <= t < |txs| ==> txs[t] == if t < i then b.txs[t].(fee := fees[t]) else b.txs[t]
    {
      assert fees[..i + 1][..i] == fees[..i];
      txs := txs[i := txs[i].(fee := fees[i])];
      if !coinbase[i] {
        totalFee := SatAdd(totalFee, fees[i]);
      }
    }
    assert fees[..|fees|] == fees;
    b' := b.(txs := txs, blockRow := b.blockRow.(totalFee := totalFee));
    assert txs == Enriched(b, fees).txs;
  }

  // ---- The output of a run ----

  /** One block's rows as pushed into a part file. */
  datatype Entry = Entry(part: nat, block: FullBlock, spends: seq<SpendRow>)

  datatype Emitted = Emitted(utxos: Utxos, log: seq<Entry>, missing: nat)

  /** What handling one item adds: a skip nothing, a block its ledger step and its rows. */
  function EmitOne(e: Emitted, item: WorkItem, blocksPerPart: nat): Emitted
    requires blocksPerPart > 0
  {
    match item
    case Skipped(_) => e
    case BlockItem(h, b) =>
      var a := ApplyFull(e.utxos, h, b);
      Emitted(a.utxos, e.log + [Entry(h / blocksPerPart, Enriched(b, a.fees), a.spends)], e.missing + a.missing)
  }

  function Emitter(blocksPerPart: nat): (Emitted, WorkItem) -> Emitted
    requires blocksPerPart > 0
  {
    (e, item) => EmitOne(e, item, blocksPerPart)
  }

  /** The output of a run: the items handled, applied in order. */
  function Emit(utxos: Utxos, items: seq<WorkItem>, blocksPerPart: nat): Emitted
    requires blocksPerPart > 0
  {
    Fold(Emitter(blocksPerPart), Emitted(utxos, [], 0), items)
  }

  /** `emit` is the emitter; stated so that only an explicit step unfolds it. */
  ghost predicate IsEmitter(emit: (Emitted, WorkItem) -> Emitted, blocksPerPart: nat)
    requires blocksPerPart > 0
  {
    forall e, item {:trigger EmitOne(e, item, blocksPerPart)} ::
      emit(e, item) == EmitOne(e, item, blocksPerPart)
  }

  lemma EmitterStep(emit: (Emitted, WorkItem) -> Emitted, e: Emitted, item: WorkItem, blocksPerPart: nat)
    requires blocksPerPart > 0 && IsEmitter(emit, blocksPerPart)
    ensures emit(e, item) == EmitOne(e, item, blocksPerPart)
  {
  }

  lemma EmitsBlock(emit: (Emitted, WorkItem) -> Emitted, e: Emitted, h: u32, b: Block, blocksPerPart: nat)
    requires blocksPerPart > 0 && IsEmitter(emit, blocksPerPart)
    ensures var a := Apply(e.utxos, h, |b.txs|, b.inputs, b.outputs);
            && |a.fees| == |b.txs|
            && emit(e, BlockItem(h, b)) ==
               Emitted(a.utxos, e.log + [Entry(h / blocksPerPart, Enriched(b, a.fees), a.spends)],
                       e.missing + a.missing)
  {
    EmitterStep(emit, e, BlockItem(h, b), blocksPerPart);
  }

  predicate Ascending(parts: seq<nat>) {
    forall i, j :: 0 <= i < j < |parts| ==> parts[i] < parts[j]
  }

  /** The part ids opened for a log: one before it, then one wherever the part of an entry changes. */
  function Opened(first: nat, log: seq<Entry>): (parts: seq<nat>)
    ensures |parts| > 0
  {
    if |log| == 0 then [first]
    else
      var parts, part := Opened(first, log[..|log| - 1]), log[|log| - 1].part;
      if parts[|parts| - 1] == part then parts else parts + [part]
  }

  lemma {:induction false} OpenedNext(first: nat, log: seq<Entry>, e: Entry)
    ensures var parts := Opened(first, log);
            Opened(first, log + [e]) == if parts[|parts| - 1] == e.part then parts else parts + [e.part]
  {
    assert (log + [e])[..|log|] == log;
  }

  /** The Parquet sink: an append-only log, and the part ids opened so far. */
  class Sink {
    var log: seq<Entry>
    var parts: seq<nat>

    constructor ()
      ensures log == [] && parts == []
    {
      log, parts := [], [];
    }
  }

  /** The counters the consumer shares with the workers and the caller. */
  class Shared {
    var reorderDepth: nat
    var nextHeight: nat
    var missing: nat

    constructor (start: nat)
      ensures reorderDepth == 0 && nextHeight == start && missing == 0
    {
      reorderDepth, nextHeight, missing := 0, start, 0;
    }
  }

  method Rotate(sink: Sink, wanted: nat)
    requires |sink.parts| > 0 && Ascending(sink.parts) && sink.parts[|sink.parts| - 1] <= wanted
    modifies sink`parts
    ensures |sink.parts| > 0 && Ascending(sink.parts) && sink.parts[|sink.parts| - 1] == wanted
    ensures var parts := old(sink.parts);
            sink.parts == if parts[|parts| - 1] == wanted then parts else parts + [wanted]
  {
    if wanted != sink.parts[|sink.parts| - 1] {
      sink.parts := sink.parts + [wanted];
    }
  }

  /** Rotate the part file if the height asks for it, apply, enrich, push. */
  method HandleBlock(height: u32, block: Block, blocksPerPart: nat, store: Store, sink: Sink, shared: Shared,
                     ghost emit: (Emitted, WorkItem) -> Emitted, ghost first: nat)
    requires blocksPerPart > 0 && store.Valid() && WellParsed(block) && IsEmitter(emit, blocksPerPart)
    requires |sink.parts| > 0 && Ascending(sink.parts) && sink.parts[|sink.parts| - 1] <= height / blocksPerPart
    requires sink.parts == Opened(first, sink.log)
    modifies store`db, store`pending, store.recent, sink, shared`missing
    ensures store.Valid()
    ensures Emitted(store.db.utxos, sink.log, shared.missing)
         == emit(Emitted(old(store.db.utxos), old(sink.log), old(shared.missing)), BlockItem(height, block))
    ensures |sink.parts| > 0 && Ascending(sink.parts) && sink.parts[|sink.parts| - 1] == height / blocksPerPart
    ensures sink.parts == Opened(first, sink.log)
  {
    hide Apply;
    hide EmitOne;
    hide IsEmitter;
    hide Enriched;
    hide Ascending;
    hide Indexed;
    hide Coherent;
    hide Opened;
    ghost var before := Emitted(store.db.utxos, sink.log, shared.missing);
    EmitsBlock(emit, before, height, block, blocksPerPart);
    var wanted := height / blocksPerPart;
    Rotate(sink, wanted);
    var res := store.ApplyBlock(height, |block.txs|, block.inputs, block.outputs);
    shared.missing := shared.missing + res.missing;
    var enriched := EnrichBlock(block, res.fees);
    OpenedNext(first, sink.log, Entry(wanted, enriched, res.spends));
    sink.log := sink.log + [Entry(wanted, enriched, res.spends)];
  }

  datatype ConsumeError = ClosedEarly(stoppedAt: nat)

  lemma {:induction false} FinishedStays(start: u32, items: seq<WorkItem>, end: u32, k: nat)
    requires k <= |items| && Consume(start, items[..k], end).finished
    ensures Consume(start, items, end) == Consume(start, items[..k], end)
    decreases |items|
  {
    if k == |items| {
      assert items[..k] == items;
    } else {
      var n := |items| - 1;
      assert items[..n][..k] == items[..k];
      FinishedStays(start, items[..n], end, k);
    }
  }

  /** What holds of the store, the sink and the counters once `c.handled` has been handled. */
  ghost predicate Mirrors(c: Consumer, e0: Emitted, emit: (Emitted, WorkItem) -> Emitted, blocksPerPart: nat,
                          store: Store, sink: Sink, shared: Shared, first: nat)
    requires blocksPerPart > 0
    reads store, store.recent, sink, shared
  {
    && store.Valid()
    && Emitted(store.db.utxos, sink.log, shared.missing) == Fold(emit, e0, c.handled)
    && shared.nextHeight == c.next
    && sink.parts == Opened(first, sink.log)
    && |sink.parts| > 0 && Ascending(sink.parts) && sink.parts[|sink.parts| - 1] <= c.next / blocksPerPart
  }

  /** The consumer's position is within range and everything queued can be handled. */
  predicate Sound(c: Consumer, end: u32) {
    && c.next <= end && (c.finished <==> c.next == end)
    && (forall h :: h in c.buffer ==> h < U32_RANGE && WellParsed(c.buffer[h]))
    && (forall h :: h in c.skipped ==> h < U32_RANGE)
  }

  lemma SkipEmitsNothing(emit: (Emitted, WorkItem) -> Emitted, e: Emitted, h: u32, blocksPerPart: nat)
    requires blocksPerPart > 0 && IsEmitter(emit, blocksPerPart)
    ensures emit(e, Skipped(h)) == e
  {
    EmitterStep(emit, e, Skipped(h), blocksPerPart);
  }

  lemma {:induction false} SkipFolds(
    emit: (Emitted, WorkItem) -> Emitted, e0: Emitted, done: seq<WorkItem>, h: u32, blocksPerPart: nat)
    requires blocksPerPart > 0 && IsEmitter(emit, blocksPerPart)
    ensures Fold(emit, e0, done + [Skipped(h)]) == Fold(emit, e0, done)
  {
    FoldSnoc(emit, e0, done, Skipped(h));
    SkipEmitsNothing(emit, Fold(emit, e0, done), h, blocksPerPart);
  }

  lemma SmallerFactor(p: nat, q: nat, b: nat)
    requires p * b < q * b
    ensures p < q
  {
  }

  lemma PartGrows(next: nat, blocksPerPart: nat)
    requires blocksPerPart > 0
    ensures next / blocksPerPart <= (next + 1) / blocksPerPart
  {
    var p, q := next / blocksPerPart, (next + 1) / blocksPerPart;
    assert p * blocksPerPart <= next && next + 1 < (q + 1) * blocksPerPart;
    SmallerFactor(p, q + 1, blocksPerPart);
  }

  /** Advance past every skipped height contiguous with `next`. */
  method AdvancePastSkips(c: Consumer, end: u32,
                          ghost e0: Emitted, ghost emit: (Emitted, WorkItem) -> Emitted,
                          blocksPerPart: nat, store: Store, sink: Sink, shared: Shared, ghost first: nat)
    returns (c': Consumer)
    requires blocksPerPart > 0 && !c.finished && Sound(c, end) && IsEmitter(emit, blocksPerPart)
    requires Mirrors(c, e0, emit, blocksPerPart, store, sink, shared, first)
    modifies shared`nextHeight
    ensures c' == SkipLoop(c, end) && Sound(c', end) && c'.buffer == c.buffer
    ensures Mirrors(c', e0, emit, blocksPerPart, store, sink, shared, first)
  {
    hide Fold;
    hide IsEmitter;
    hide Ascending;
    c' := c;
    while !c'.finished && c'.next in c'.skipped
      invariant Sound(c', end) && SkipLoop(c', end) == SkipLoop(c, end) && c'.buffer == c.buffer
      invariant Mirrors(c', e0, emit, blocksPerPart, store, sink, shared, first)
      decreases |c'.skipped|
    {
      SkipFolds(emit, e0, c'.handled, c'.next, blocksPerPart);
      PartGrows(c'.next, blocksPerPart);
      c' := Advance(c'.(skipped := c'.skipped - {c'.next}), Skipped(c'.next), end);
      shared.nextHeight := c'.next;
    }
  }

  /** Take the block at the next height out of the buffer and handle it. */
  method DrainOne(c: Consumer, end: u32, ghost e0: Emitted, ghost emit: (Emitted, WorkItem) -> Emitted,
                  blocksPerPart: nat, store: Store, sink: Sink, shared: Shared, ghost first: nat)
    returns (c': Consumer)
    requires blocksPerPart > 0 && c.next < end && c.next in c.buffer && WellParsed(c.buffer[c.next])
    requires Mirrors(c, e0, emit, blocksPerPart, store, sink, shared, first) && shared.reorderDepth > 0
    requires IsEmitter(emit, blocksPerPart)
    modifies store`db, store`pending, store.recent, sink, shared
    ensures c' == Advance(c.(buffer := c.buffer - {c.next}), BlockItem(c.next, c.buffer[c.next]), end)
    ensures Mirrors(c', e0, emit, blocksPerPart, store, sink, shared, first)
    ensures shared.reorderDepth == old(shared.reorderDepth) - 1
  {
    hide Fold;
    hide IsEmitter;
    hide Ascending;
    hide Opened;
    hide Coherent;
    var h, block := c.next, c.buffer[c.next];
    shared.reorderDepth := shared.reorderDepth - 1;
    HandleBlock(h, block, blocksPerPart, store, sink, shared, emit, first);
    FoldSnoc(emit, e0, c.handled, BlockItem(h, block));
    PartGrows(h, blocksPerPart);
    c' := Advance(c.(buffer := c.buffer - {h}), BlockItem(h, block), end);
    shared.nextHeight := c'.next;
  }

  /** Apply buffered blocks for as long as the next height is there. */
  method DrainBuffer(c: Consumer, end: u32,
                     ghost e0: Emitted, ghost emit: (Emitted, WorkItem) -> Emitted,
                     blocksPerPart: nat, store: Store, sink: Sink, shared: Shared, ghost first: nat)
    returns (c': Consumer)
    requires blocksPerPart > 0 && Sound(c, end)
    requires IsEmitter(emit, blocksPerPart)
    requires Mirrors(c, e0, emit, blocksPerPart, store, sink, shared, first) && |c.buffer| <= shared.reorderDepth
    modifies store`db, store`pending, store.recent, sink, shared
    ensures c' == DrainLoop(c, end) && Sound(c', end)
    ensures Mirrors(c', e0, emit, blocksPerPart, store, sink, shared, first) && |c'.buffer| <= shared.reorderDepth
    ensures old(shared.reorderDepth) - shared.reorderDepth == |c'.handled| - |c.handled|
  {
    c' := c;
    while !c'.finished && c'.next in c'.buffer
      invariant Sound(c', end) && DrainLoop(c', end) == DrainLoop(c, end)
      invariant Mirrors(c', e0, emit, blocksPerPart, store, sink, shared, first) && |c'.buffer| <= shared.reorderDepth
      invariant old(shared.reorderDepth) - shared.reorderDepth == |c'.handled| - |c.handled|
      decreases |c'.buffer|
    {
      DropShrinks(c'.buffer, c'.next);
      c' := DrainOne(c', end, e0, emit, blocksPerPart, store, sink, shared, first);
    }
  }

  predicate AllWellParsed(items: seq<WorkItem>) {
    forall x :: x in items && x.BlockItem? ==> WellParsed(x.block)
  }

  /** Insert an item; only blocks count toward the shared depth. */
  method InsertItem(c: Consumer, item: WorkItem, shared: Shared) returns (c': Consumer)
    requires |c.buffer| <= shared.reorderDepth
    requires item.BlockItem? ==> WellParsed(item.block)
    modifies shared`reorderDepth
    ensures c' == Accept(c, item) && |c'.buffer| <= shared.reorderDepth
    ensures shared.reorderDepth == old(shared.reorderDepth) + (if item.BlockItem? then 1 else 0)
  {
    match item {
      case BlockItem(h, block) =>
        c' := c.(buffer := c.buffer[h := block]);
        assert c'.buffer.Keys == c.buffer.Keys + {h};
        assert |c'.buffer.Keys| <= |c.buffer.Keys| + 1;
        shared.reorderDepth := shared.reorderDepth + 1;
      case Skipped(h) =>
        c' := c.(skipped := c.skipped + {h});
    }
  }

  /** One round of the receive loop: insert, skip, drain. */
  method ReceiveOne(c: Consumer, item: WorkItem, end: u32,
                    ghost e0: Emitted, ghost emit: (Emitted, WorkItem) -> Emitted,
                    blocksPerPart: nat, store: Store, sink: Sink, shared: Shared, ghost first: nat)
    returns (c': Consumer)
    requires blocksPerPart > 0 && IsEmitter(emit, blocksPerPart)
    requires !c.finished && Sound(c, end) && (item.BlockItem? ==> WellParsed(item.block))
    requires Mirrors(c, e0, emit, blocksPerPart, store, sink, shared, first) && |c.buffer| <= shared.reorderDepth
    modifies store`db, store`pending, store.recent, sink, shared
    ensures c' == Receive(c, item, end) && Sound(c', end)
    ensures Mirrors(c', e0, emit, blocksPerPart, store, sink, shared, first) && |c'.buffer| <= shared.reorderDepth
  {
    c' := InsertItem(c, item, shared);
    c' := AdvancePastSkips(c', end, e0, emit, blocksPerPart, store, sink, shared, first);
    c' := DrainBuffer(c', end, e0, emit, blocksPerPart, store, sink, shared, first);
  }

  /** The receive loop of `consume_ordered`. */
  method ReceiveAll(items: seq<WorkItem>, start: u32, end: u32, blocksPerPart: nat,
                    store: Store, sink: Sink, shared: Shared,
                    ghost e0: Emitted, ghost emit: (Emitted, WorkItem) -> Emitted, ghost first: nat)
    returns (r: Result<(), ConsumeError>)
    requires start < end && blocksPerPart > 0 && AllWellParsed(items) && IsEmitter(emit, blocksPerPart)
    requires Mirrors(Start(start), e0, emit, blocksPerPart, store, sink, shared, first)
    modifies store`db, store`pending, store.recent, sink, shared
    ensures var c := Consume(start, items, end);
            && r == (if c.finished then Ok(()) else Err(ClosedEarly(c.next)))
            && Mirrors(c, e0, emit, blocksPerPart, store, sink, shared, first)
  {
    var c := Start(start);
    for k := 0 to |items|
      invariant c == Consume(start, items[..k], end) && !c.finished && Sound(c, end)
      invariant Mirrors(c, e0, emit, blocksPerPart, store, sink, shared, first) && |c.buffer| <= shared.reorderDepth
    {
      ConsumeNext(start, items, end, k);
      c := ReceiveOne(c, items[k], end, e0, emit, blocksPerPart, store, sink, shared, first);
      if c.finished {
        FinishedStays(start, items, end, k + 1);
        return Ok(());
      }
    }
    assert items[..|items|] == items;
    r := Err(ClosedEarly(c.next));
  }

  lemma {:induction false} ConsumeNext(start: u32, items: seq<WorkItem>, end: u32, k: nat)
    requires k < |items|
    ensures Consume(start, items[..k + 1], end) == Receive(Consume(start, items[..k], end), items[k], end)
  {
    assert items[..k + 1][..k] == items[..k];
  }

  /**
   * `consume_ordered` on the stream `items` (what the channel delivers before it closes).
   * It returns Ok exactly when `Consume` finishes, and whatever the arrival order the
   * store, the rows and the counters are those of the handled heights applied in
   * ascending order; no part id is ever opened twice.
   */
  method ConsumeOrdered(items: seq<WorkItem>, start: u32, end: u32, blocksPerPart: nat,
                        store: Store, sink: Sink, shared: Shared)
    returns (r: Result<(), ConsumeError>)
    requires start < end && blocksPerPart > 0 && AllWellParsed(items)
    requires store.Valid() && sink.log == [] && sink.parts == []
    requires shared.missing == 0
    modifies store`db, store`pending, store.recent, sink, shared
    ensures var c := Consume(start, items, end);
            && r == (if c.finished then Ok(()) else Err(ClosedEarly(c.next)))
            && Emitted(store.db.utxos, sink.log, shared.missing) == Emit(old(store.db.utxos), c.handled, blocksPerPart)
            && shared.nextHeight == c.next
    ensures store.Valid() && Ascending(sink.parts) && sink.parts == Opened(start / blocksPerPart, sink.log)
  {
    shared.nextHeight, shared.reorderDepth := start, 0;
    sink.parts := [start / blocksPerPart];
    r := ReceiveAll(items, start, end, blocksPerPart, store, sink, shared,
                    Emitted(store.db.utxos, [], 0), Emitter(blocksPerPart), start / blocksPerPart);
  }

  /** Two deliveries of the same items leave the same set, rows and missing count. */
  lemma {:induction false} OutputIgnoresArrivalOrder(
    utxos: Utxos, start: u32, end: u32, skips: set<nat>, blocksPerPart: nat,
    items0: seq<WorkItem>, items1: seq<WorkItem>)
    requires start < end && blocksPerPart > 0 && NoBlockThenSkip(start, end, skips)
    requires Delivers(items0, start, end) && Kinds(items0, skips)
    requires Delivers(items1, start, end) && Kinds(items1, skips)
    requires forall x :: x in items0 <==> x in items1
    ensures Emit(utxos, Consume(start, items0, end).handled, blocksPerPart)
         == Emit(utxos, Consume(start, items1, end).handled, blocksPerPart)
  {
    ArrivalOrderIrrelevant(start, end, skips, items0, items1);
  }
}
