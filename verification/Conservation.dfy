// No value appears or vanishes: unspent value plus fees is matched by coinbase issuance.
module Conservation {
  import opened Bytes
  import opened Rows
  import opened UndoCodec
  import opened UtxoSpec
  import opened ReferenceLedger
  import opened UtxoRefinement

  /** The value of an unspent set. */
  ghost function Total(m: Utxos): nat {
    if m == map[] then 0
    else
      var k :| k in m;
      m[k].valueSat + Total(m - {k})
  }

  lemma {:induction false} TotalRemove(m: Utxos, k: Key)
    requires k in m
    ensures Total(m) == m[k].valueSat + Total(m - {k})
    decreases |m|
  {
    var j :| j in m && Total(m) == m[j].valueSat + Total(m - {j});
    if j != k {
      TotalRemove(m - {j}, k);
      TotalRemove(m - {k}, j);
      assert m - {j} - {k} == m - {k} - {j};
    }
  }

  lemma TotalAdd(m: Utxos, k: Key, v: UtxoValue)
    requires k !in m
    ensures Total(m[k := v]) == v.valueSat + Total(m)
  {
    TotalRemove(m[k := v], k);
    assert m[k := v] - {k} == m;
  }

  /** Taking inputs moves their value from the set into the spend rows. */
  lemma {:induction false} InputsConserve(m: Utxos, height: u32, ins: seq<InputRow>)
    ensures var p := TakeInputs(Purse(m, [], 0), height, ins);
            Total(p.utxos) + SpendTotal(p.spends) == Total(m)
    ensures TakeInputs(Purse(m, [], 0), height, ins).utxos.Keys <= m.Keys
  {
    if |ins| > 0 {
      var n := |ins| - 1;
      InputsConserve(m, height, ins[..n]);
      var p := TakeInputs(Purse(m, [], 0), height, ins[..n]);
      var k := InKey(ins[n]);
      if !ins[n].isCoinbase && k in p.utxos {
        TotalRemove(p.utxos, k);
        var one := [Spend(ins[n], height, p.utxos[k])];
        assert (p.spends + one)[..|p.spends|] == p.spends;
      }
    }
  }

  lemma LastIsFresh(m: Utxos, outs: seq<OutputRow>, height: u32)
    requires |outs| > 0 && FreshOutputs(m, outs)
    ensures FreshOutputs(m, outs[..|outs| - 1])
    ensures OutKey(outs[|outs| - 1]) !in m + Seed(outs[..|outs| - 1], height)
  {
    var n := |outs| - 1;
    SeedKeys(outs[..n], height);
    forall i | 0 <= i < n ensures OutKeys(outs[..n])[i] != OutKey(outs[n]) {
      assert outs[..n][i] == outs[i];
    }
  }

  lemma TotalSeeded(m: Utxos, seed: Utxos, k: Key, v: UtxoValue)
    requires k !in m + seed
    ensures Total(m + seed[k := v]) == Total(m + seed) + v.valueSat
  {
    TotalAdd(m + seed, k, v);
    assert m + seed[k := v] == (m + seed)[k := v];
  }

  /** Adding distinct new outputs adds exactly their value to the set. */
  lemma {:induction false} OutputsConserve(m: Utxos, outs: seq<OutputRow>, height: u32)
    requires FreshOutputs(m, outs)
    ensures Total(m + Seed(outs, height)) == Total(m) + OutTotal(outs)
  {
    if |outs| == 0 {
      assert m + map[] == m;
    } else {
      var n := |outs| - 1;
      LastIsFresh(m, outs, height);
      OutputsConserve(m, outs[..n], height);
      TotalSeeded(m, Seed(outs[..n], height), OutKey(outs[n]), Created(outs[n], height));
    }
  }

  // ---- Blocks ----

  /** A coinbase transaction is one with a coinbase input (`coinbase_tx` in the consumer). */
  predicate IsCoinbaseTx(ins: seq<InputRow>, i: nat) {
    exists r :: r in ins && r.txIndex == i && r.isCoinbase
  }

  /** The fees that count toward the block's total: those of transactions without a coinbase input. */
  function FeeSum(fees: seq<u64>, ins: seq<InputRow>): nat {
    if |fees| == 0 then 0
    else
      var n := |fees| - 1;
      FeeSum(fees[..n], ins) + (if IsCoinbaseTx(ins, n) then 0 else fees[n])
  }

  /** Newly issued value: the outputs of coinbase transactions. */
  function Issued(txs: seq<Tx>, ins: seq<InputRow>): nat {
    if |txs| == 0 then 0
    else
      var n := |txs| - 1;
      Issued(txs[..n], ins) + (if IsCoinbaseTx(ins, n) then OutTotal(txs[n].outs) else 0)
  }

  function SpendsOf(db: Utxos, height: u32, txs: seq<Tx>, i: nat): seq<SpendRow>
    requires i < |txs|
  {
    TakeInputs(Purse(LedgerPrefix(db, height, txs, i).utxos, [], 0), height, txs[i].ins).spends
  }

  /** Coinbase transactions spend nothing; every other one takes in at least what it pays out. */
  predicate Solvent(db: Utxos, height: u32, txs: seq<Tx>) {
    forall i :: 0 <= i < |txs| ==>
      if IsCoinbaseTx(FlatIns(txs), i) then SpendsOf(db, height, txs, i) == []
      else OutTotal(txs[i].outs) <= SpendTotal(SpendsOf(db, height, txs, i))
  }

  lemma DistinctInside(db: Utxos, a: seq<OutputRow>, b: seq<OutputRow>, c: seq<OutputRow>)
    requires FreshOutputs(db, a + (b + c))
    ensures forall x, y :: 0 <= x < y < |b| ==> OutKey(b[x]) != OutKey(b[y])
  {
    var all := a + (b + c);
    forall x, y | 0 <= x < y < |b| ensures OutKey(b[x]) != OutKey(b[y]) {
      assert all[|a| + x] == b[x] && all[|a| + y] == b[y];
    }
  }

  lemma {:induction false} NotReached(db: Utxos, s: Scan, m: Utxos, b: seq<OutputRow>, c: seq<OutputRow>, height: u32)
    requires Related(db, s, m, Seed(b + c, height))
    ensures forall x :: 0 <= x < |b| ==> OutKey(b[x]) !in m
  {
    SeedKeys(b + c, height);
    forall x | 0 <= x < |b| ensures OutKey(b[x]) !in m {
      assert (b + c)[x] == b[x] && OutKeys(b + c)[x] == OutKey(b[x]);
    }
  }

  lemma OutputsFreshAt(db: Utxos, height: u32, txs: seq<Tx>, i: nat)
    requires i < |txs| && Orderly(db, txs)
    ensures FreshOutputs(LedgerPrefix(db, height, txs, i).utxos, txs[i].outs)
  {
    PrefixSimulates(db, height, txs, i);
    SplitOuts(txs, i);
    DistinctInside(db, FlatOuts(txs[..i]), txs[i].outs, FlatOuts(txs[i + 1..]));
    NotReached(db, ScanPrefix(db, height, txs, i), LedgerPrefix(db, height, txs, i).utxos,
               txs[i].outs, FlatOuts(txs[i + 1..]), height);
  }

  /** One transaction at a time, with no cap in play. */
  lemma {:induction false} TxConserves(l: Ledger, height: u32, tx: Tx)
    requires FreshOutputs(l.utxos, tx.outs)
    ensures var spends := TakeInputs(Purse(l.utxos, [], 0), height, tx.ins).spends;
            && SpendTotal(spends) <= Total(l.utxos)
            && Total(ApplyTx(l, height, tx).utxos) + SpendTotal(spends) == Total(l.utxos) + OutTotal(tx.outs)
  {
    InputsConserve(l.utxos, height, tx.ins);
    OutputsConserve(TakeInputs(Purse(l.utxos, [], 0), height, tx.ins).utxos, tx.outs, height);
  }

  lemma {:induction false} FeeSnoc(fees: seq<u64>, fee: u64, ins: seq<InputRow>)
    ensures FeeSum(fees + [fee], ins) == FeeSum(fees, ins) + (if IsCoinbaseTx(ins, |fees|) then 0 else fee)
  {
    assert (fees + [fee])[..|fees|] == fees;
  }

  lemma {:induction false} LedgerStep(l: Ledger, height: u32, tx: Tx, ins: seq<InputRow>)
    requires FreshOutputs(l.utxos, tx.outs)
    requires Total(l.utxos) <= U64_MAX
    requires var spends := TakeInputs(Purse(l.utxos, [], 0), height, tx.ins).spends;
             if IsCoinbaseTx(ins, |l.fees|) then spends == [] else OutTotal(tx.outs) <= SpendTotal(spends)
    ensures var l' := ApplyTx(l, height, tx);
            Total(l'.utxos) + FeeSum(l'.fees, ins)
            == Total(l.utxos) + FeeSum(l.fees, ins) + if IsCoinbaseTx(ins, |l.fees|) then OutTotal(tx.outs) else 0
  {
    TxConserves(l, height, tx);
    FeeSnoc(l.fees, NetFee(SpendTotal(TakeInputs(Purse(l.utxos, [], 0), height, tx.ins).spends),
        OutTotal(tx.outs)), ins);
  }

  lemma {:induction false} IssuedNext(txs: seq<Tx>, ins: seq<InputRow>, i: nat)
    requires i < |txs|
    ensures Issued(txs[..i + 1], ins)
         == Issued(txs[..i], ins) + (if IsCoinbaseTx(ins, i) then OutTotal(txs[i].outs) else 0)
  {
    assert txs[..i + 1][..i] == txs[..i];
  }

  lemma {:induction false} LedgerConserves(db: Utxos, height: u32, txs: seq<Tx>, i: nat)
    requires i <= |txs| && Orderly(db, txs) && Solvent(db, height, txs)
    requires Total(db) + Issued(txs, FlatIns(txs)) <= U64_MAX
    ensures |LedgerPrefix(db, height, txs, i).fees| == i
    ensures var l := LedgerPrefix(db, height, txs, i);
            Total(l.utxos) + FeeSum(l.fees, FlatIns(txs)) == Total(db) + Issued(txs[..i], FlatIns(txs))
    decreases i
  {
    hide Orderly;
    hide TakeInputs;
    hide Total;
    if i > 0 {
      var n := i - 1;
      LedgerConserves(db, height, txs, n);
      IssuedGrows(txs, FlatIns(txs), n);
      OutputsFreshAt(db, height, txs, n);
      PrefixNext(db, height, txs, n);
      LedgerStep(LedgerPrefix(db, height, txs, n), height, txs[n], FlatIns(txs));
      IssuedNext(txs, FlatIns(txs), n);
    }
  }

  lemma {:induction false} IssuedGrows(txs: seq<Tx>, ins: seq<InputRow>, i: nat)
    requires i <= |txs|
    ensures Issued(txs[..i], ins) <= Issued(txs, ins)
    decreases |txs|
  {
    if i < |txs| {
      var n := |txs| - 1;
      IssuedGrows(txs[..n], ins, i);
      assert txs[..n][..i] == txs[..i];
    } else {
      assert txs[..i] == txs;
    }
  }

  function ApplyBlock(db: Utxos, height: u32, txs: seq<Tx>): Applied {
    Apply(db, height, |txs|, FlatIns(txs), FlatOuts(txs))
  }

  function BlockFee(db: Utxos, height: u32, txs: seq<Tx>): nat {
    FeeSum(ApplyBlock(db, height, txs).fees, FlatIns(txs))
  }

  function BlockIssued(txs: seq<Tx>): nat { Issued(txs, FlatIns(txs)) }

  ghost predicate ValidBlock(db: Utxos, height: u32, txs: seq<Tx>) {
    Orderly(db, txs) && Solvent(db, height, txs)
  }

  /** One block as the store applies it. */
  lemma {:induction false} BlockConserves(db: Utxos, height: u32, txs: seq<Tx>)
    requires ValidBlock(db, height, txs)
    requires Total(db) + BlockIssued(txs) <= U64_MAX
    ensures Total(ApplyBlock(db, height, txs).utxos) + BlockFee(db, height, txs) == Total(db) + BlockIssued(txs)
  {
    LedgerConserves(db, height, txs, |txs|);
    assert txs[..|txs|] == txs;
    ApplyRefinesLedger(db, height, txs);
  }
}
