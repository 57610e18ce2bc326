// What a call reports: every block it applies, with the hash and the spends the caller stores.
module TrackerEvents {
  import opened Wrappers
  import opened Bytes
  import opened UtxoSpec
  import opened ReferenceLedger
  import opened UtxoRefinement
  import opened UtxoReorg
  import opened UtxoStore
  import opened Tracker

  /** The block's flat rows are those of these transactions. */
  predicate FlatRowsOf(b: Block, txs: seq<Tx>) {
    |b.txs| == |txs| && b.inputs == FlatIns(txs) && b.outputs == FlatOuts(txs)
  }

  /**
   * The event tells of this block at this height: its hash, and its spend rows on the set
   * below it, which for an orderly block are those of its transactions one at a time.
   */
  ghost predicate Reports(e: Event, height: nat, nb: NodeBlock, below: Utxos)
    requires height < U32_RANGE
  {
    && e.AppliedBlock? && e.height == height && e.hash == nb.hash
    && e.spends == ApplyFull(below, height, nb.block).spends
    && forall txs :: FlatRowsOf(nb.block, txs) && Orderly(below, txs) ==>
         e.spends == ApplyTxs(Ledger0(below), height, txs).spends
  }

  /** One event for each block of `chain` from height `from` on, in ascending order. */
  ghost predicate ReportsFrom(events: seq<Event>, chain: Chain, from: nat)
    requires from <= |chain| <= U32_RANGE
  {
    && |events| == |chain| - from
    && forall i :: 0 <= i < |events| ==> Reports(events[i], from + i, chain[from + i], ReplayUtxos(chain[..from + i]))
  }

  lemma LiveReports(step: Stepper, db: Db, height: u32, nb: NodeBlock)
    requires IsLive(step)
    ensures Reports(step(db, height, nb).1, height, nb, db.utxos)
  {
    hide Apply;
    hide ApplyTxs;
    hide Orderly;
    assert step(db, height, nb) == LiveStep(db, height, nb);
    forall txs | FlatRowsOf(nb.block, txs) && Orderly(db.utxos, txs)
      ensures ApplyFull(db.utxos, height, nb.block).spends == ApplyTxs(Ledger0(db.utxos), height, txs).spends
    {
      ApplyRefinesLedger(db.utxos, height, txs);
      assert txs[..|txs|] == txs;
    }
  }

  /** The forward loop reports every block it puts on top of what is held. */
  lemma {:induction false} ForwardReports(step: Stepper, db: Db, held: Chain, node: Chain, base: nat)
    requires IsLive(step) && Holds(db, held, base) && |held| <= |node| <= U32_RANGE
    ensures ReportsFrom(Forward(step, db, node, |held|).1, held + node[|held|..], |held|)
    decreases |node| - |held|
  {
    hide ReplayUtxos;
    hide Reports;
    hide HasRecord;
    var n := |held|;
    var chain := held + node[n..];
    if n < |node| {
      LiveStepHolds(step, db, held, base, node[n]);
      OneMore(held, node);
      LiveReports(step, db, n, node[n]);
      ForwardReports(step, step(db, n, node[n]).0, held + [node[n]], node, base);
      assert chain[..n] == held && chain[n] == node[n];
    }
  }

  // ---- Whole calls ----

  /** A tip the node still has: the blocks above it, then the new height. */
  lemma ExtendingCallReports(step: Stepper, l: Local, held: Chain, node: Chain, base: nat, maxReorgDepth: nat)
    returns (applied: seq<Event>)
    requires IsLive(step) && InSync(l, held, base) && Serves(node) && held <= node
    ensures CatchUp(step, l, node, maxReorgDepth).events == applied + [CaughtUp(|node| - 1)]
    ensures ReportsFrom(applied, node, |held|)
  {
    hide ReplayUtxos;
    hide ReportsFrom;
    hide Forward;
    hide Reconcile;
    assert node[|held| - 1] == held[|held| - 1];
    ReconcileMatching(l.db, TipOfChain(held), node, maxReorgDepth, 0);
    FinishShape(step, l.db, TipOfChain(held), node, []);
    ForwardReports(step, l.db, held, node, base);
    assert held + node[|held|..] == node;
    applied := Forward(step, l.db, node, |held|).1;
    assert [] + applied == applied;
  }

  /**
   * A tip the node no longer has, at any fork depth: the reorg and the block it drops, then
   * the node's blocks from that height on as applied to what is left, then the new height.
   */
  lemma PatchingCallReports(step: Stepper, l: Local, held: Chain, node: Chain, base: nat, maxReorgDepth: nat)
    returns (applied: seq<Event>)
    requires IsLive(step) && InSync(l, held, base) && Serves(node) && maxReorgDepth > 0
    requires 1 < |held| <= |node| + 1 && !Matches(node, TipOfChain(held))
    requires base < |held| && FreshTop(held)
    ensures CatchUp(step, l, node, maxReorgDepth).events
         == [ReorgStart, Disconnected(|held| - 1, held[|held| - 1].hash)] + applied + [CaughtUp(|node| - 1)]
    ensures ReportsFrom(applied, Patched(held, node), |held| - 1)
  {
    hide ReplayUtxos;
    hide ReportsFrom;
    hide Forward;
    hide Reconcile;
    hide FreshTop;
    hide Matches;
    var n := |held| - 1;
    var d := OneBlockBack(l, held, node, base, maxReorgDepth);
    FinishShape(step, d, TipState(n - 1, node[n - 1].hash), node, [ReorgStart, Disconnected(n, held[n].hash)]);
    ForwardReports(step, d, held[..n], node, base);
    applied := Forward(step, d, node, n).1;
  }

  /** For a fork one block deep these are the node's own blocks and sets. */
  lemma FollowingCallReports(step: Stepper, l: Local, held: Chain, node: Chain, base: nat, maxReorgDepth: nat)
    returns (from: nat, first: seq<Event>, applied: seq<Event>)
    requires IsLive(step) && InSync(l, held, base) && Follows(held, node, base) && maxReorgDepth > 0
    ensures CatchUp(step, l, node, maxReorgDepth).events == first + applied + [CaughtUp(|node| - 1)]
    ensures from == (if held <= node then |held| else |held| - 1) && from <= |node|
    ensures first == if held <= node then [] else [ReorgStart, Disconnected(from, held[from].hash)]
    ensures ReportsFrom(applied, node, from)
  {
    hide CatchUp;
    hide ReportsFrom;
    hide Holds;
    if held <= node {
      from, first := |held|, [];
      applied := ExtendingCallReports(step, l, held, node, base, maxReorgDepth);
      assert first + applied == applied;
    } else {
      TipDiffers(held, node, base);
      PatchedIsNodeIff(held, node);
      from, first := |held| - 1, [ReorgStart, Disconnected(|held| - 1, held[|held| - 1].hash)];
      applied := PatchingCallReports(step, l, held, node, base, maxReorgDepth);
    }
  }

  /** A call that fails on a node far behind has reported the block it dropped, and no other. */
  lemma FailedCallReports(step: Stepper, l: Local, held: Chain, node: Chain, base: nat, maxReorgDepth: nat)
    requires InSync(l, held, base) && Serves(node) && maxReorgDepth > 0
    requires |node| + 1 < |held| && base < |held| && FreshTop(held)
    ensures CatchUp(step, l, node, maxReorgDepth).events
         == [ReorgStart, Disconnected(|held| - 1, held[|held| - 1].hash)]
  {
    hide Holds;
    hide FreshTop;
    hide Disconnect;
    HoldsRetracts(l.db, held, base);
  }

  // ---- No stored tip ----

  /**
   * Without a stored tip nothing is applied: the store is left as it is and the node's tip is
   * adopted, so that the store is in sync afterwards exactly if its set and records already
   * were the node's; a second call against the same node then only reports the height.
   */
  lemma FirstCallAdoptsTip(step: Stepper, l: Local, node: Chain, base: nat, maxReorgDepth: nat)
    requires Serves(node) && l.tip.None?
    ensures var o := CatchUp(step, l, node, maxReorgDepth);
            && o.failure.None? && o.events == [CaughtUp(|node| - 1)]
            && o.local.db == l.db && o.local.tip == Some(TipOfChain(node))
            && (InSync(o.local, node, base) <==> Holds(l.db, node, base))
            && CatchUp(step, o.local, node, maxReorgDepth) == o
  {
    hide Holds;
    var o := CatchUp(step, l, node, maxReorgDepth);
    ReconcileMatching(l.db, TipOfChain(node), node, maxReorgDepth, 0);
    ForwardNothing(step, l.db, node);
    assert [] + [] + [CaughtUp(|node| - 1)] == [CaughtUp(|node| - 1)];
  }
}
