// What a run writes about each block it handles: the parsed rows with their fees, and the spends.
module LogRows {
  import opened Bytes
  import opened Rows
  import opened UtxoSpec
  import opened UtxoReorg
  import opened ReferenceLedger
  import opened UtxoRefinement
  import opened UtxoStore
  import opened OrderedConsumer
  import C = Conservation
  import opened IndexRun
  import opened FeeLog
  import SpendRows

  /** The same row but for the fee. */
  predicate SameButFee(r: TxRow, p: TxRow) {
    && r.height == p.height && r.txIndex == p.txIndex && r.txid == p.txid
    && r.version == p.version && r.locktime == p.locktime && r.size == p.size && r.weight == p.weight
    && r.inputCount == p.inputCount && r.outputCount == p.outputCount && r.hasWitness == p.hasWitness
  }

  predicate SameButTotalFee(r: BlockRow, p: BlockRow) {
    && r.height == p.height && r.hash == p.hash && r.prevHash == p.prevHash && r.merkleRoot == p.merkleRoot
    && r.time == p.time && r.bits == p.bits && r.nonce == p.nonce && r.version == p.version
    && r.txCount == p.txCount && r.size == p.size && r.weight == p.weight && r.coinbaseValue == p.coinbaseValue
  }

  /** The fee column summed over the transactions that have no coinbase input. */
  function FeeColumn(rows: seq<TxRow>, ins: seq<InputRow>, n: nat): nat
    requires n <= |rows|
  {
    if n == 0 then 0 else FeeColumn(rows, ins, n - 1) + if C.IsCoinbaseTx(ins, n - 1) then 0 else rows[n - 1].fee
  }

  /** What the spend rows say transaction `t` takes in, and the output rows that it pays out. */
  function TakenIn(spends: seq<SpendRow>, t: nat): nat {
    if |spends| == 0 then 0
    else TakenIn(spends[1..], t) + if spends[0].spendingTxIndex == t then spends[0].spentValueSat else 0
  }

  function PaysOut(outs: seq<OutputRow>, t: nat): nat {
    if |outs| == 0 then 0
    else PaysOut(outs[1..], t) + if outs[0].txIndex == t then outs[0].valueSat else 0
  }

  /** The fee of a transaction whose inputs come to `paid`, capped at 64 bits and never negative. */
  predicate IsFee(fee: u64, paid: nat, out: nat) {
    var capped := if paid > U64_MAX then U64_MAX else paid;
    if capped >= out then fee + out == capped else fee == 0
  }

  /** Rows written for block `b` at height `h`. */
  ghost predicate EntrySays(e: Entry, h: u32, b: FullBlock, spends: seq<SpendRow>, perPart: nat)
    requires perPart > 0
  {
    && e.part == h / perPart && e.spends == spends
    && e.block.inputs == b.inputs && e.block.outputs == b.outputs && |e.block.txs| == |b.txs|
    && (forall t :: 0 <= t < |b.txs| ==>
         && SameButFee(e.block.txs[t], b.txs[t])
         && IsFee(e.block.txs[t].fee, TakenIn(spends, t), PaysOut(b.outputs, t)))
    && SameButTotalFee(e.block.blockRow, b.blockRow)
    && var total := FeeColumn(e.block.txs, b.inputs, |b.txs|);
       e.block.blockRow.totalFee == if total > U64_MAX then U64_MAX else total
  }

  // ---- One entry ----

  lemma {:induction false} TakenInSnoc(spends: seq<SpendRow>, r: SpendRow, t: nat)
    ensures TakenIn(spends + [r], t) == TakenIn(spends, t) + if r.spendingTxIndex == t then r.spentValueSat else 0
  {
    if |spends| > 0 {
      assert (spends + [r])[1..] == spends[1..] + [r];
      TakenInSnoc(spends[1..], r, t);
    }
  }

  lemma {:induction false} TakenInIs(spends: seq<SpendRow>, t: nat)
    ensures TakenIn(spends, t) == PaidIn(spends, t)
  {
    if |spends| > 0 {
      var n := |spends| - 1;
      TakenInIs(spends[..n], t);
      TakenInSnoc(spends[..n], spends[n], t);
      assert spends == spends[..n] + [spends[n]];
    }
  }

  lemma {:induction false} PaysOutSnoc(outs: seq<OutputRow>, o: OutputRow, t: nat)
    ensures PaysOut(outs + [o], t) == PaysOut(outs, t) + if o.txIndex == t then o.valueSat else 0
  {
    if |outs| > 0 {
      assert (outs + [o])[1..] == outs[1..] + [o];
      PaysOutSnoc(outs[1..], o, t);
    }
  }

  lemma {:induction false} PaysOutIs(outs: seq<OutputRow>, t: nat)
    ensures PaysOut(outs, t) == PaidOut(outs, t)
  {
    if |outs| > 0 {
      var n := |outs| - 1;
      PaysOutIs(outs[..n], t);
      PaysOutSnoc(outs[..n], outs[n], t);
      assert outs == outs[..n] + [outs[n]];
    }
  }

  lemma {:induction false} ColumnIsSum(rows: seq<TxRow>, fees: seq<u64>, ins: seq<InputRow>, n: nat)
    requires |rows| == |fees| && n <= |rows| && forall t :: 0 <= t < |rows| ==> rows[t].fee == fees[t]
    ensures FeeColumn(rows, ins, n) == C.FeeSum(fees[..n], ins)
  {
    if n > 0 {
      ColumnIsSum(rows, fees, ins, n - 1);
      assert fees[..n][..n - 1] == fees[..n - 1];
    }
  }

  /** The entry handling a block adds to the log. */
  lemma EntryWritten(e: Emitted, h: u32, b: Block, perPart: nat)
    requires perPart > 0
    ensures var log := EmitOne(e, BlockItem(h, b), perPart).log;
            && |log| == |e.log| + 1 && log[..|e.log|] == e.log
            && EntrySays(log[|e.log|], h, b, ApplyFull(e.utxos, h, b).spends, perPart)
  {
    hide ScanInputs;
    hide Seed;
    var a := ApplyFull(e.utxos, h, b);
    var entry := EmitOne(e, BlockItem(h, b), perPart).log[|e.log|];
    forall t | 0 <= t < |b.txs|
      ensures IsFee(entry.block.txs[t].fee, TakenIn(a.spends, t), PaysOut(b.outputs, t))
    {
      TakenInIs(a.spends, t);
      PaysOutIs(b.outputs, t);
    }
    ColumnIsSum(entry.block.txs, a.fees, b.inputs, |b.txs|);
    assert a.fees[..|b.txs|] == a.fees;
  }

  // ---- The whole log ----

  /** How many of the first `i` items are blocks. */
  function BlocksBefore(items: seq<WorkItem>, i: nat): nat
    requires i <= |items|
  {
    if i == 0 then 0 else BlocksBefore(items, i - 1) + if items[i - 1].BlockItem? then 1 else 0
  }

  lemma EmitPrefix(utxos: Utxos, items: seq<WorkItem>, perPart: nat, i: nat)
    requires perPart > 0 && 0 < i <= |items|
    ensures Emit(utxos, items[..i], perPart) == EmitOne(Emit(utxos, items[..i - 1], perPart), items[i - 1], perPart)
  {
    EmitNext(utxos, items[..i], perPart);
    assert items[..i][..i - 1] == items[..i - 1];
  }

  lemma {:induction false} LogLength(utxos: Utxos, items: seq<WorkItem>, perPart: nat, i: nat)
    requires perPart > 0 && i <= |items|
    ensures |Emit(utxos, items[..i], perPart).log| == BlocksBefore(items, i)
  {
    hide EmitOne;
    hide Emit;
    if i > 0 {
      LogLength(utxos, items, perPart, i - 1);
      EmitPrefix(utxos, items, perPart, i);
      OneLonger(Emit(utxos, items[..i - 1], perPart), items[i - 1], perPart);
    } else {
      NothingEmitted(utxos, items, perPart);
    }
  }

  lemma NothingEmitted(utxos: Utxos, items: seq<WorkItem>, perPart: nat)
    requires perPart > 0
    ensures Emit(utxos, items[..0], perPart) == Emitted(utxos, [], 0)
  {
  }

  lemma OneLonger(e: Emitted, item: WorkItem, perPart: nat)
    requires perPart > 0
    ensures |EmitOne(e, item, perPart).log| == |e.log| + if item.BlockItem? then 1 else 0
    ensures e.log <= EmitOne(e, item, perPart).log
  {
  }

  lemma {:induction false} LogGrows(utxos: Utxos, items: seq<WorkItem>, perPart: nat, i: nat, j: nat)
    requires perPart > 0 && i <= j <= |items|
    ensures Emit(utxos, items[..i], perPart).log <= Emit(utxos, items[..j], perPart).log
    decreases j
  {
    hide EmitOne;
    hide Emit;
    if i < j {
      LogGrows(utxos, items, perPart, i, j - 1);
      EmitPrefix(utxos, items, perPart, j);
      OneLonger(Emit(utxos, items[..j - 1], perPart), items[j - 1], perPart);
    }
  }

  /**
   * The log of a run: one entry for each block handled and none for a skip, in the order
   * handled. Entry by entry the parsed rows with the fee of every transaction filled in,
   * and the spend rows of the block on the set the items before it leave.
   */
  lemma {:induction false} LogTellsBlocks(utxos: Utxos, items: seq<WorkItem>, perPart: nat, i: nat)
    requires perPart > 0 && i < |items| && items[i].BlockItem?
    ensures var log := Emit(utxos, items, perPart).log;
            && |log| == BlocksBefore(items, |items|) && BlocksBefore(items, i) < |log|
            && EntrySays(log[BlocksBefore(items, i)], items[i].height, items[i].block,
                         ApplyFull(Emit(utxos, items[..i], perPart).utxos, items[i].height, items[i].block).spends,
                         perPart)
  {
    hide EmitOne;
    hide Emit;
    hide ApplyFull;
    hide EntrySays;
    var e := Emit(utxos, items[..i], perPart);
    LogLength(utxos, items, perPart, i);
    LogLength(utxos, items, perPart, |items|);
    EmitPrefix(utxos, items, perPart, i + 1);
    EntryWritten(e, items[i].height, items[i].block, perPart);
    LogGrows(utxos, items, perPart, i + 1, |items|);
    assert items[..|items|] == items;
  }

  /** The inputs in the log that have no spend row. */
  function Unresolved(log: seq<Entry>): int {
    if |log| == 0 then 0
    else
      var e := log[|log| - 1];
      Unresolved(log[..|log| - 1]) + RealInputs(e.block.inputs) - |e.spends|
  }

  /** The count of missing outputs is that of the non-coinbase inputs written without a spend row. */
  lemma {:induction false} MissingIsUnresolved(utxos: Utxos, items: seq<WorkItem>, perPart: nat, i: nat)
    requires perPart > 0 && i <= |items|
    ensures var e := Emit(utxos, items[..i], perPart); e.missing == Unresolved(e.log)
  {
    hide EmitOne;
    hide Emit;
    if i == 0 {
      NothingEmitted(utxos, items, perPart);
    } else {
      MissingIsUnresolved(utxos, items, perPart, i - 1);
      EmitPrefix(utxos, items, perPart, i);
      OneMissing(Emit(utxos, items[..i - 1], perPart), items[i - 1], perPart);
    }
  }

  lemma {:induction false} UnresolvedSnoc(log: seq<Entry>, e: Entry)
    ensures Unresolved(log + [e]) == Unresolved(log) + RealInputs(e.block.inputs) - |e.spends|
  {
    assert (log + [e])[..|log|] == log;
  }

  lemma OneMissing(e: Emitted, item: WorkItem, perPart: nat)
    requires perPart > 0 && e.missing == Unresolved(e.log)
    ensures EmitOne(e, item, perPart).missing == Unresolved(EmitOne(e, item, perPart).log)
  {
    hide ScanInputs;
    hide Seed;
    hide Unresolved;
    hide RealInputs;
    match item
    case Skipped(_) =>
    case BlockItem(h, b) =>
      var from := SpendRows.RowsComeFromInputs(e.utxos, h, |b.txs|, b.inputs, b.outputs);
      var a := ApplyFull(e.utxos, h, b);
      UnresolvedSnoc(e.log, Entry(h / perPart, Enriched(b, a.fees), a.spends));
  }

  // ---- Fees in valid blocks ----

  /** Transaction `t` takes in what the entries its inputs name are worth at its turn. */
  lemma {:induction false} TakenByLedger(db: Utxos, height: u32, txs: seq<Tx>, i: nat, t: nat)
    requires i <= |txs| && RowsNamed(txs) && t < |txs|
    ensures PaidIn(LedgerPrefix(db, height, txs, i).spends, t)
         == if t < i then SpendTotal(C.SpendsOf(db, height, txs, t)) else 0
  {
    hide TakeInputs;
    hide RowsNamed;
    if i > 0 {
      var n := i - 1;
      TakenByLedger(db, height, txs, n, t);
      PrefixNext(db, height, txs, n);
      RowsOfOne(txs, n);
      LocalSpends(Purse(LedgerPrefix(db, height, txs, n).utxos, [], 0), height, txs[n].ins, n, t);
      PaidInAppend(LedgerPrefix(db, height, txs, n).spends, C.SpendsOf(db, height, txs, n), t);
    }
  }

  lemma RowsOfOne(txs: seq<Tx>, n: nat)
    requires n < |txs| && RowsNamed(txs)
    ensures forall r :: r in txs[n].ins ==> r.txIndex == n
    ensures forall o :: o in txs[n].outs ==> o.txIndex == n
  {
  }

  lemma {:induction false} PaidByTransaction(txs: seq<Tx>, i: nat, t: nat)
    requires i <= |txs| && RowsNamed(txs) && t < |txs|
    ensures PaidOut(FlatOuts(txs[..i]), t) == if t < i then OutTotal(txs[t].outs) else 0
  {
    hide RowsNamed;
    if i > 0 {
      var n := i - 1;
      PaidByTransaction(txs, n, t);
      RowsOfOne(txs, n);
      LocalOuts(txs[n].outs, n, t);
      assert txs[..i][..n] == txs[..n];
      PaidOutAppend(FlatOuts(txs[..n]), txs[n].outs, t);
    }
  }

  /** What a transaction of a valid block takes in fits 64 bits. */
  lemma {:induction false} SpendFits(db: Utxos, height: u32, txs: seq<Tx>, t: nat)
    requires t < |txs| && C.ValidBlock(db, height, txs)
    requires C.Total(db) + C.BlockIssued(txs) <= U64_MAX
    ensures SpendTotal(C.SpendsOf(db, height, txs, t)) <= U64_MAX
  {
    hide C.Total;
    hide Orderly;
    hide C.Solvent;
    C.LedgerConserves(db, height, txs, t);
    C.IssuedGrows(txs, FlatIns(txs), t);
    C.OutputsFreshAt(db, height, txs, t);
    C.TxConserves(LedgerPrefix(db, height, txs, t), height, txs[t]);
  }

  /** The spend and output rows of a valid block, transaction by transaction. */
  lemma {:induction false} RowsBalance(db: Utxos, height: u32, b: Block, txs: seq<Tx>, t: nat)
    requires Carries(BlockItem(height, b), txs) && t < |txs| && C.ValidBlock(db, height, txs)
    ensures var spends := ApplyFull(db, height, b).spends;
            && TakenIn(spends, t) == SpendTotal(C.SpendsOf(db, height, txs, t))
            && PaysOut(b.outputs, t) == OutTotal(txs[t].outs)
  {
    hide Apply;
    hide C.Solvent;
    hide SpendTotal;
    ApplyRefinesLedger(db, height, txs);
    assert txs[..|txs|] == txs;
    TakenByLedger(db, height, txs, |txs|, t);
    PaidByTransaction(txs, |txs|, t);
    TakenInIs(ApplyFull(db, height, b).spends, t);
    PaysOutIs(b.outputs, t);
  }

  /** Every fee balances its transaction: nothing is capped, and a coinbase has none. */
  ghost predicate FeesBalance(rows: seq<TxRow>, txs: seq<Tx>, spends: seq<SpendRow>) {
    && |rows| == |txs|
    && forall t :: 0 <= t < |txs| ==>
         if C.IsCoinbaseTx(FlatIns(txs), t) then rows[t].fee == 0
         else rows[t].fee + OutTotal(txs[t].outs) == TakenIn(spends, t)
  }

  lemma {:induction false} EntryBalances(e: Entry, db: Utxos, h: u32, b: Block, txs: seq<Tx>, perPart: nat)
    requires perPart > 0 && EntrySays(e, h, b, ApplyFull(db, h, b).spends, perPart)
    requires Carries(BlockItem(h, b), txs) && C.ValidBlock(db, h, txs)
    requires C.Total(db) + C.BlockIssued(txs) <= U64_MAX
    ensures FeesBalance(e.block.txs, txs, e.spends)
  {
    hide ApplyFull;
    hide C.Total;
    hide C.BlockIssued;
    hide C.SpendsOf;
    hide Orderly;
    forall t | 0 <= t < |txs|
      ensures if C.IsCoinbaseTx(FlatIns(txs), t) then e.block.txs[t].fee == 0
              else e.block.txs[t].fee + OutTotal(txs[t].outs) == TakenIn(e.spends, t)
    {
      RowsBalance(db, h, b, txs, t);
      SpendFits(db, h, txs, t);
    }
  }

  /** The supply at any point of a run of valid items, and what its next block issues, fits 64 bits. */
  lemma {:induction false} SupplyAt(utxos: Utxos, items: seq<WorkItem>, bodies: seq<seq<Tx>>, perPart: nat, i: nat)
    requires perPart > 0 && ValidItems(utxos, items, bodies, perPart) && i < |items|
    requires C.Total(utxos) + AllIssued(bodies) <= U64_MAX
    ensures C.Total(Emit(utxos, items[..i], perPart).utxos) + C.BlockIssued(bodies[i]) <= U64_MAX
    decreases |items|
  {
    hide C.Total;
    hide C.BlockIssued;
    hide Emit;
    hide ValidItems;
    var n := |items| - 1;
    assert |bodies| == |items| by { SameCount(utxos, items, bodies, perPart); }
    ValidFront(utxos, items, bodies, perPart);
    if i < n {
      SupplyAt(utxos, items[..n], bodies[..n], perPart, i);
      assert items[..n][..i] == items[..i];
    } else {
      RunConserves(utxos, items[..n], bodies[..n], perPart);
    }
  }

  lemma SameCount(utxos: Utxos, items: seq<WorkItem>, bodies: seq<seq<Tx>>, perPart: nat)
    requires perPart > 0 && ValidItems(utxos, items, bodies, perPart)
    ensures |bodies| == |items|
  {
  }

  /**
   * The fee column of a run over valid blocks whose supply fits 64 bits: in every block
   * written, a transaction's fee and outputs add up to what its spend rows take in, and a
   * coinbase has no fee.
   */
  lemma {:induction false} LoggedFeesBalance(
    utxos: Utxos, items: seq<WorkItem>, bodies: seq<seq<Tx>>, perPart: nat, i: nat)
    requires perPart > 0 && ValidItems(utxos, items, bodies, perPart)
    requires C.Total(utxos) + AllIssued(bodies) <= U64_MAX
    requires i < |items| && items[i].BlockItem?
    ensures var log := Emit(utxos, items, perPart).log;
            && BlocksBefore(items, i) < |log|
            && var e := log[BlocksBefore(items, i)]; FeesBalance(e.block.txs, bodies[i], e.spends)
  {
    hide C.Total;
    hide C.ValidBlock;
    hide C.BlockIssued;
    hide Emit;
    hide ApplyFull;
    hide EntrySays;
    hide FeesBalance;
    LogTellsBlocks(utxos, items, perPart, i);
    SupplyAt(utxos, items, bodies, perPart, i);
    assert ValidItem(utxos, items, bodies, perPart, i);
    var e := Emit(utxos, items, perPart).log[BlocksBefore(items, i)];
    EntryBalances(e, Emit(utxos, items[..i], perPart).utxos, items[i].height, items[i].block, bodies[i], perPart);
  }
}
