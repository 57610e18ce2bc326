// What applying and disconnecting a block means for the UTXO set, stated on values.
module UtxoSpec {
  import opened Bytes
  import opened Rows
  import opened UndoCodec

  type Utxos = map<Key, UtxoValue>

  function OutKey(o: OutputRow): Key { MakeKey(o.txid, o.outputIndex) }

  function InKey(i: InputRow): Key { MakeKey(i.prevTxid, i.prevVout) }

  function Created(o: OutputRow, height: u32): UtxoValue {
    UtxoValue(o.valueSat, o.scriptType, height, o.addressHash)
  }

  /** The spend row linking an input to the output it consumes. */
  function Spend(inp: InputRow, height: u32, v: UtxoValue): SpendRow {
    SpendRow(height, inp.txIndex, inp.inputIndex, inp.txid, inp.prevTxid, inp.prevVout,
             v.valueSat, v.scriptType, v.addressHash, v.height)
  }

  /** Every output of the block by key; a later row replaces an earlier one. */
  function Seed(outs: seq<OutputRow>, height: u32): Utxos {
    if |outs| == 0 then map[]
    else Seed(outs[..|outs| - 1], height)[OutKey(outs[|outs| - 1]) := Created(outs[|outs| - 1], height)]
  }

  function OutKeys(outs: seq<OutputRow>): (ks: seq<Key>)
    ensures |ks| == |outs|
    ensures forall i :: 0 <= i < |outs| ==> ks[i] == OutKey(outs[i])
  {
    seq(|outs|, i requires 0 <= i < |outs| => OutKey(outs[i]))
  }

  // ---- The input scan ----

  /** The state of the input loop of one block. */
  datatype Scan = Scan(
    pending: Utxos,                   // outputs of this block not spent so far
    deleted: set<Key>,                // database keys queued for deletion
    spends: seq<SpendRow>,
    missing: nat,
    spent: seq<(Key, UtxoValue)>,     // undo: database entries consumed
    sameBlock: set<Key>)              // undo: created and spent in this block

  function ScanInput(db: Utxos, height: u32, s: Scan, inp: InputRow): Scan {
    var k := InKey(inp);
    if inp.isCoinbase then s
    else if k in s.pending then
      s.(pending := s.pending - {k},
         sameBlock := s.sameBlock + {k},
         spends := s.spends + [Spend(inp, height, s.pending[k])])
    else if k in db then
      s.(deleted := s.deleted + {k},
         spent := s.spent + [(k, db[k])],
         spends := s.spends + [Spend(inp, height, db[k])])
    else
      s.(missing := s.missing + 1)
  }

  function ScanInputs(db: Utxos, height: u32, s: Scan, ins: seq<InputRow>): Scan {
    if |ins| == 0 then s
    else ScanInput(db, height, ScanInputs(db, height, s, ins[..|ins| - 1]), ins[|ins| - 1])
  }

  function StartScan(outs: seq<OutputRow>, height: u32): Scan {
    Scan(Seed(outs, height), {}, [], 0, [], {})
  }

  // ---- Fees ----

  /** Value flowing into transaction `i` through the given spends. */
  function PaidIn(spends: seq<SpendRow>, i: nat): nat {
    if |spends| == 0 then 0
    else
      PaidIn(spends[..|spends| - 1], i)
      + (if spends[|spends| - 1].spendingTxIndex == i then spends[|spends| - 1].spentValueSat else 0)
  }

  /** Value flowing out of transaction `i` into the given outputs. */
  function PaidOut(outs: seq<OutputRow>, i: nat): nat {
    if |outs| == 0 then 0
    else
      PaidOut(outs[..|outs| - 1], i)
      + (if outs[|outs| - 1].txIndex == i then outs[|outs| - 1].valueSat else 0)
  }

  function Min(a: int, b: int): int { if a <= b then a else b }

  /** Inputs less outputs, with inputs capped at 64 bits and the result at zero. */
  function NetFee(paidIn: nat, paidOut: nat): u64 {
    if Min(paidIn, U64_MAX) <= paidOut then 0 else Min(paidIn, U64_MAX) - paidOut
  }

  function Fees(n: nat, spends: seq<SpendRow>, outs: seq<OutputRow>): (f: seq<u64>)
    ensures |f| == n
    ensures forall i :: 0 <= i < n ==> f[i] == NetFee(PaidIn(spends, i), PaidOut(outs, i))
  {
    seq(n, i requires 0 <= i < n => NetFee(PaidIn(spends, i), PaidOut(outs, i)))
  }

  // ---- Applying a block ----

  /** The keys that survive a filter, in order (`Vec::retain`). */
  function Without(keys: seq<Key>, drop: set<Key>): (r: seq<Key>)
    ensures |r| <= |keys|
    ensures forall k :: k in r <==> k in keys && k !in drop
  {
    if |keys| == 0 then []
    else
      var r := Without(keys[..|keys| - 1], drop);
      if keys[|keys| - 1] in drop then r else r + [keys[|keys| - 1]]
  }

  datatype Applied = Applied(
    utxos: Utxos, spends: seq<SpendRow>, fees: seq<u64>, missing: nat, undo: BlockUndo)

  function Finish(db: Utxos, nTx: nat, outs: seq<OutputRow>, s: Scan): Applied {
    Applied((db - s.deleted) + s.pending, s.spends, Fees(nTx, s.spends, outs), s.missing,
            BlockUndo(s.spent, Without(OutKeys(outs), s.sameBlock)))
  }

  function Apply(db: Utxos, height: u32, nTx: nat, ins: seq<InputRow>, outs: seq<OutputRow>): Applied {
    Finish(db, nTx, outs, ScanInputs(db, height, StartScan(outs, height), ins))
  }

  function ApplyFull(db: Utxos, height: u32, b: FullBlock): Applied {
    Apply(db, height, |b.txs|, b.inputs, b.outputs)
  }

  /** Row lists that name only transactions of the block; the source indexes fees by them. */
  predicate Indexed(nTx: nat, ins: seq<InputRow>, outs: seq<OutputRow>) {
    && (forall i :: 0 <= i < |ins| && !ins[i].isCoinbase ==> ins[i].txIndex < nTx)
    && (forall i :: 0 <= i < |outs| ==> outs[i].txIndex < nTx)
  }

  /** Rows as the parser produces them. */
  predicate WellParsed(b: FullBlock) { Indexed(|b.txs|, b.inputs, b.outputs) }

  // ---- Basic facts ----

  lemma {:induction false} ScanAppend(db: Utxos, height: u32, s: Scan, a: seq<InputRow>, b: seq<InputRow>)
    ensures ScanInputs(db, height, s, a + b)
         == ScanInputs(db, height, ScanInputs(db, height, s, a), b)
  {
    if |b| == 0 {
      assert a + b == a;
    } else {
      assert (a + b)[..|a + b| - 1] == a + b[..|b| - 1];
      ScanAppend(db, height, s, a, b[..|b| - 1]);
    }
  }

  lemma {:induction false} SeedAppend(a: seq<OutputRow>, b: seq<OutputRow>, height: u32)
    ensures Seed(a + b, height) == Seed(a, height) + Seed(b, height)
  {
    if |b| == 0 {
      assert a + b == a;
    } else {
      assert (a + b)[..|a + b| - 1] == a + b[..|b| - 1];
      SeedAppend(a, b[..|b| - 1], height);
    }
  }

  lemma {:induction false} SeedKeys(outs: seq<OutputRow>, height: u32)
    ensures forall k :: k in Seed(outs, height) <==> k in OutKeys(outs)
  {
    if |outs| > 0 {
      var n := |outs| - 1;
      SeedKeys(outs[..n], height);
      assert OutKeys(outs) == OutKeys(outs[..n]) + [OutKey(outs[n])];
    }
  }

  lemma {:induction false} PaidInAppend(a: seq<SpendRow>, b: seq<SpendRow>, i: nat)
    ensures PaidIn(a + b, i) == PaidIn(a, i) + PaidIn(b, i)
  {
    if |b| == 0 {
      assert a + b == a;
    } else {
      assert (a + b)[..|a + b| - 1] == a + b[..|b| - 1];
      PaidInAppend(a, b[..|b| - 1], i);
    }
  }

  lemma {:induction false} PaidOutAppend(a: seq<OutputRow>, b: seq<OutputRow>, i: nat)
    ensures PaidOut(a + b, i) == PaidOut(a, i) + PaidOut(b, i)
  {
    if |b| == 0 {
      assert a + b == a;
    } else {
      assert (a + b)[..|a + b| - 1] == a + b[..|b| - 1];
      PaidOutAppend(a, b[..|b| - 1], i);
    }
  }
}
