// The fees a run writes into its block rows are exactly what conservation of value leaves.
module FeeLog {
  import opened Bytes
  import opened UtxoSpec
  import opened UtxoReorg
  import opened ReferenceLedger
  import opened OrderedConsumer
  import C = Conservation
  import opened IndexRun

  /** The `total_fee` column of the block rows in the log, summed. */
  function LoggedFees(log: seq<Entry>): nat {
    if |log| == 0 then 0 else LoggedFees(log[..|log| - 1]) + log[|log| - 1].block.blockRow.totalFee
  }

  /** The transactions behind an item's flat rows; a skip carries none. */
  predicate Carries(item: WorkItem, txs: seq<Tx>) {
    match item
    case Skipped(_) => txs == []
    case BlockItem(_, b) => |b.txs| == |txs| && b.inputs == FlatIns(txs) && b.outputs == FlatOuts(txs)
  }

  /** A block is valid on the set the items before it leave. */
  ghost predicate ValidItem(utxos: Utxos, items: seq<WorkItem>, bodies: seq<seq<Tx>>, perPart: nat, i: nat)
    requires perPart > 0 && i < |items| == |bodies|
  {
    && Carries(items[i], bodies[i])
    && (items[i].BlockItem? ==> C.ValidBlock(Emit(utxos, items[..i], perPart).utxos, items[i].height, bodies[i]))
  }

  ghost predicate ValidItems(utxos: Utxos, items: seq<WorkItem>, bodies: seq<seq<Tx>>, perPart: nat)
    requires perPart > 0
  {
    |items| == |bodies| && forall i :: 0 <= i < |items| ==> ValidItem(utxos, items, bodies, perPart, i)
  }

  function AllIssued(bodies: seq<seq<Tx>>): nat {
    if |bodies| == 0 then 0 else AllIssued(bodies[..|bodies| - 1]) + C.BlockIssued(bodies[|bodies| - 1])
  }

  lemma {:induction false} LogSnoc(log: seq<Entry>, e: Entry)
    ensures LoggedFees(log + [e]) == LoggedFees(log) + e.block.blockRow.totalFee
  {
    assert (log + [e])[..|log|] == log;
  }

  /** One block: its logged fee is exact, the cap notwithstanding. */
  lemma BlockLogged(e: Emitted, h: u32, b: Block, txs: seq<Tx>, perPart: nat)
    requires perPart > 0 && Carries(BlockItem(h, b), txs) && C.ValidBlock(e.utxos, h, txs)
    requires C.Total(e.utxos) + C.BlockIssued(txs) <= U64_MAX
    ensures var e' := EmitOne(e, BlockItem(h, b), perPart);
            C.Total(e'.utxos) + LoggedFees(e'.log) == C.Total(e.utxos) + LoggedFees(e.log) + C.BlockIssued(txs)
  {
    hide C.Total;
    hide C.ValidBlock;
    C.BlockConserves(e.utxos, h, txs);
    var a := ApplyFull(e.utxos, h, b);
    LogSnoc(e.log, Entry(h / perPart, Enriched(b, a.fees), a.spends));
  }

  lemma EmitNext(utxos: Utxos, items: seq<WorkItem>, perPart: nat)
    requires perPart > 0 && |items| > 0
    ensures var n := |items| - 1;
            Emit(utxos, items, perPart) == EmitOne(Emit(utxos, items[..n], perPart), items[n], perPart)
  {
  }

  lemma ValidFront(utxos: Utxos, items: seq<WorkItem>, bodies: seq<seq<Tx>>, perPart: nat)
    requires perPart > 0 && |items| > 0 && ValidItems(utxos, items, bodies, perPart)
    ensures ValidItems(utxos, items[..|items| - 1], bodies[..|items| - 1], perPart)
  {
    var n := |items| - 1;
    forall i | 0 <= i < n ensures ValidItem(utxos, items[..n], bodies[..n], perPart, i) {
      assert ValidItem(utxos, items, bodies, perPart, i);
      assert items[..n][..i] == items[..i];
    }
  }

  /**
   * Whatever items a run handles: if its blocks are valid and the money supply fits 64 bits,
   * the unspent value at the end and the `total_fee` of every block row written account
   * exactly for the value there was and the value issued.
   */
  lemma {:induction false} RunConserves(
    utxos: Utxos, items: seq<WorkItem>, bodies: seq<seq<Tx>>, perPart: nat)
    requires perPart > 0 && ValidItems(utxos, items, bodies, perPart)
    requires C.Total(utxos) + AllIssued(bodies) <= U64_MAX
    ensures var e := Emit(utxos, items, perPart);
            C.Total(e.utxos) + LoggedFees(e.log) == C.Total(utxos) + AllIssued(bodies)
  {
    hide C.Total;
    hide Carries;
    hide C.BlockIssued;
    hide EmitOne;
    if |items| > 0 {
      var n := |items| - 1;
      ValidFront(utxos, items, bodies, perPart);
      RunConserves(utxos, items[..n], bodies[..n], perPart);
      EmitNext(utxos, items, perPart);
      assert ValidItem(utxos, items, bodies, perPart, n);
      var e := Emit(utxos, items[..n], perPart);
      match items[n]
      case BlockItem(h, b) => BlockLogged(e, h, b, bodies[n], perPart);
      case Skipped(h) => SkipLogged(e, h, bodies[n], perPart);
    }
  }

  lemma SkipLogged(e: Emitted, h: u32, txs: seq<Tx>, perPart: nat)
    requires perPart > 0 && Carries(Skipped(h), txs)
    ensures EmitOne(e, Skipped(h), perPart) == e && C.BlockIssued(txs) == 0
  {
  }
}
