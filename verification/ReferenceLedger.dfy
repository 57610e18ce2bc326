// The plain semantics of a ledger, one transaction at a time: first its inputs are removed,
// then its outputs added.
module ReferenceLedger {
  import opened Bytes
  import opened Rows
  import opened UtxoSpec

  datatype Tx = Tx(ins: seq<InputRow>, outs: seq<OutputRow>)

  // ---- The reference semantics ----

  datatype Purse = Purse(utxos: Utxos, spends: seq<SpendRow>, missing: nat)

  function TakeInput(p: Purse, height: u32, inp: InputRow): Purse {
    var k := InKey(inp);
    if inp.isCoinbase then p
    else if k in p.utxos then
      Purse(p.utxos - {k}, p.spends + [Spend(inp, height, p.utxos[k])], p.missing)
    else p.(missing := p.missing + 1)
  }

  function TakeInputs(p: Purse, height: u32, ins: seq<InputRow>): Purse {
    if |ins| == 0 then p
    else TakeInput(TakeInputs(p, height, ins[..|ins| - 1]), height, ins[|ins| - 1])
  }

  function SpendTotal(spends: seq<SpendRow>): nat {
    if |spends| == 0 then 0 else SpendTotal(spends[..|spends| - 1]) + spends[|spends| - 1].spentValueSat
  }

  function OutTotal(outs: seq<OutputRow>): nat {
    if |outs| == 0 then 0 else OutTotal(outs[..|outs| - 1]) + outs[|outs| - 1].valueSat
  }

  datatype Ledger = Ledger(utxos: Utxos, spends: seq<SpendRow>, fees: seq<u64>, missing: nat)

  /** One transaction on its own: inputs out, outputs in, the difference is the fee. */
  function ApplyTx(l: Ledger, height: u32, tx: Tx): Ledger {
    var p := TakeInputs(Purse(l.utxos, [], 0), height, tx.ins);
    Ledger(p.utxos + Seed(tx.outs, height),
           l.spends + p.spends,
           l.fees + [NetFee(SpendTotal(p.spends), OutTotal(tx.outs))],
           l.missing + p.missing)
  }

  function ApplyTxs(l: Ledger, height: u32, txs: seq<Tx>): Ledger {
    if |txs| == 0 then l
    else ApplyTx(ApplyTxs(l, height, txs[..|txs| - 1]), height, txs[|txs| - 1])
  }

  function Ledger0(db: Utxos): Ledger { Ledger(db, [], [], 0) }

  // ---- From transactions to the flat rows the store receives ----

  function FlatIns(txs: seq<Tx>): seq<InputRow> {
    if |txs| == 0 then [] else FlatIns(txs[..|txs| - 1]) + txs[|txs| - 1].ins
  }

  function FlatOuts(txs: seq<Tx>): seq<OutputRow> {
    if |txs| == 0 then [] else FlatOuts(txs[..|txs| - 1]) + txs[|txs| - 1].outs
  }

  lemma {:induction false} FlatOutsAppend(a: seq<Tx>, b: seq<Tx>)
    ensures FlatOuts(a + b) == FlatOuts(a) + FlatOuts(b)
  {
    if |b| == 0 {
      assert a + b == a;
    } else {
      var c, m := a + b, |b| - 1;
      FlatOutsAppend(a, b[..m]);
      assert c[..|c| - 1] == a + b[..m] && c[|c| - 1] == b[m];
      assert FlatOuts(c) == FlatOuts(a + b[..m]) + b[m].outs;
    }
  }

  lemma {:induction false} FlatInsAppend(a: seq<Tx>, b: seq<Tx>)
    ensures FlatIns(a + b) == FlatIns(a) + FlatIns(b)
  {
    if |b| == 0 {
      assert a + b == a;
    } else {
      var c, m := a + b, |b| - 1;
      FlatInsAppend(a, b[..m]);
      assert c[..|c| - 1] == a + b[..m] && c[|c| - 1] == b[m];
      assert FlatIns(c) == FlatIns(a + b[..m]) + b[m].ins;
    }
  }

  lemma FlatOne(tx: Tx)
    ensures FlatOuts([tx]) == tx.outs && FlatIns([tx]) == tx.ins
  {
    var one := [tx];
    assert one[..|one| - 1] == [];
    assert FlatOuts([]) + tx.outs == tx.outs && FlatIns([]) + tx.ins == tx.ins;
  }

  lemma {:induction false} FlatHead(txs: seq<Tx>)
    requires |txs| > 0
    ensures FlatOuts(txs) == txs[0].outs + FlatOuts(txs[1..])
    ensures FlatIns(txs) == txs[0].ins + FlatIns(txs[1..])
  {
    FlatOne(txs[0]);
    FlatOutsAppend([txs[0]], txs[1..]);
    FlatInsAppend([txs[0]], txs[1..]);
    assert [txs[0]] + txs[1..] == txs;
  }

  lemma {:induction false} SplitOuts(txs: seq<Tx>, i: nat)
    requires i < |txs|
    ensures FlatOuts(txs) == FlatOuts(txs[..i]) + (txs[i].outs + FlatOuts(txs[i + 1..]))
    ensures FlatOuts(txs[i..]) == txs[i].outs + FlatOuts(txs[i + 1..])
  {
    assert txs == txs[..i] + txs[i..];
    FlatOutsAppend(txs[..i], txs[i..]);
    FlatHead(txs[i..]);
    assert txs[i..][1..] == txs[i + 1..];
  }

  lemma {:induction false} SplitIns(txs: seq<Tx>, i: nat)
    requires i < |txs|
    ensures FlatIns(txs) == FlatIns(txs[..i]) + (txs[i].ins + FlatIns(txs[i + 1..]))
  {
    assert txs == txs[..i] + txs[i..];
    FlatInsAppend(txs[..i], txs[i..]);
    FlatHead(txs[i..]);
    assert txs[i..][1..] == txs[i + 1..];
  }

  lemma {:induction false} OutputOrigin(txs: seq<Tx>, k: nat)
    requires k < |FlatOuts(txs)|
    ensures exists j :: 0 <= j < |txs| && FlatOuts(txs)[k] in txs[j].outs
  {
    var n := |txs| - 1;
    if k < |FlatOuts(txs[..n])| {
      OutputOrigin(txs[..n], k);
      var j :| 0 <= j < n && FlatOuts(txs[..n])[k] in txs[..n][j].outs;
      assert txs[..n][j] == txs[j];
    } else {
      assert FlatOuts(txs)[k] in txs[n].outs;
    }
  }

  // ---- What makes a block orderly ----

  /** Row `i` of each kind belongs to the transaction that holds it. */
  predicate RowsNamed(txs: seq<Tx>) {
    && (forall i, r :: 0 <= i < |txs| && r in txs[i].ins ==> r.txIndex == i)
    && (forall i, o :: 0 <= i < |txs| && o in txs[i].outs ==> o.txIndex == i)
  }

  predicate FreshOutputs(db: Utxos, outs: seq<OutputRow>) {
    && (forall i, j :: 0 <= i < j < |outs| ==> OutKey(outs[i]) != OutKey(outs[j]))
    && (forall i :: 0 <= i < |outs| ==> OutKey(outs[i]) !in db)
  }

  predicate SingleSpends(ins: seq<InputRow>) {
    forall i, j :: 0 <= i < j < |ins| && !ins[i].isCoinbase && !ins[j].isCoinbase
      ==> InKey(ins[i]) != InKey(ins[j])
  }

  /** An input that names an output of the block names one of an earlier transaction. */
  predicate SpendsEarlier(txs: seq<Tx>) {
    forall i, j, r, o :: 0 <= i <= j < |txs| && r in txs[i].ins && o in txs[j].outs && !r.isCoinbase
      ==> InKey(r) != OutKey(o)
  }

  predicate Orderly(db: Utxos, txs: seq<Tx>) {
    && RowsNamed(txs)
    && FreshOutputs(db, FlatOuts(txs))
    && SingleSpends(FlatIns(txs))
    && SpendsEarlier(txs)
  }
}
