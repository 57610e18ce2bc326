// The spend rows of a block, column by column: which input spends, which output is spent.
module SpendRows {
  import opened Bytes
  import opened Rows
  import opened UndoCodec
  import opened UtxoSpec
  import opened UtxoRefinement
  import opened UtxoStore

  // ---- Which inputs find what they spend ----

  /** An input names an output by the transaction and the index within it. */
  predicate Names(i: InputRow, o: OutputRow) {
    !i.isCoinbase && i.prevTxid == o.txid && i.prevVout == o.outputIndex
  }

  predicate SameOutpoint(o: OutputRow, p: OutputRow) { o.txid == p.txid && o.outputIndex == p.outputIndex }

  predicate SameTarget(i: InputRow, j: InputRow) {
    !i.isCoinbase && !j.isCoinbase && i.prevTxid == j.prevTxid && i.prevVout == j.prevVout
  }

  /** Input `y` is the first of the block to name its outpoint. */
  predicate FirstToName(ins: seq<InputRow>, y: nat)
    requires y < |ins|
  {
    forall z :: 0 <= z < y ==> !SameTarget(ins[z], ins[y])
  }

  /** Output row `x` is the last of the block for its outpoint, and input `y` names it. */
  predicate SpendsOwn(ins: seq<InputRow>, outs: seq<OutputRow>, y: nat, x: nat)
    requires y < |ins| && x < |outs|
  {
    && Names(ins[y], outs[x]) && FirstToName(ins, y)
    && forall z :: x < z < |outs| ==> !SameOutpoint(outs[z], outs[x])
  }

  /** The columns that say who spends. */
  predicate SpentBy(r: SpendRow, i: InputRow, height: u32) {
    && r.height == height && r.spendingTxIndex == i.txIndex && r.spendingInputIndex == i.inputIndex
    && r.spendingTxid == i.txid && r.spentTxid == i.prevTxid && r.spentVout == i.prevVout
  }

  /** The columns that say what is spent: an output row of the block at `height`. */
  predicate Spends(r: SpendRow, o: OutputRow, height: u32) {
    && r.spentTxid == o.txid && r.spentVout == o.outputIndex
    && r.spentValueSat == o.valueSat && r.spentScriptType == o.scriptType
    && r.spentAddressHash == o.addressHash && r.spentHeight == height
  }

  /** The same columns taken from a database entry. */
  predicate SpendsEntry(r: SpendRow, v: UtxoValue) {
    && r.spentValueSat == v.valueSat && r.spentScriptType == v.scriptType
    && r.spentAddressHash == v.addressHash && r.spentHeight == v.height
  }

  /** An entry that says of an output row what a spend of it will need. */
  predicate Stores(v: UtxoValue, o: OutputRow, height: u32) {
    v.valueSat == o.valueSat && v.scriptType == o.scriptType && v.height == height && v.addressHash == o.addressHash
  }

  lemma KeysName(i: InputRow, o: OutputRow)
    ensures InKey(i) == OutKey(o) <==> i.prevTxid == o.txid && i.prevVout == o.outputIndex
  {
    if InKey(i) == OutKey(o) { MakeKeyInjective(i.prevTxid, i.prevVout, o.txid, o.outputIndex); }
  }

  lemma KeysMeet(i: InputRow, j: InputRow)
    ensures InKey(i) == InKey(j) <==> i.prevTxid == j.prevTxid && i.prevVout == j.prevVout
  {
    if InKey(i) == InKey(j) { MakeKeyInjective(i.prevTxid, i.prevVout, j.prevTxid, j.prevVout); }
  }

  lemma OutKeysMeet(o: OutputRow, p: OutputRow)
    ensures OutKey(o) == OutKey(p) <==> SameOutpoint(o, p)
  {
    if OutKey(o) == OutKey(p) { MakeKeyInjective(o.txid, o.outputIndex, p.txid, p.outputIndex); }
  }

  /** The entry of an outpoint comes from the last row that has it. */
  lemma {:induction false} SeededBy(outs: seq<OutputRow>, height: u32, x: nat)
    requires x < |outs| && forall z :: x < z < |outs| ==> !SameOutpoint(outs[z], outs[x])
    ensures OutKey(outs[x]) in Seed(outs, height) && Stores(Seed(outs, height)[OutKey(outs[x])], outs[x], height)
  {
    hide OutKey;
    var n := |outs| - 1;
    if x < n {
      OutKeysMeet(outs[n], outs[x]);
      SeededBy(outs[..n], height, x);
    }
  }

  // ---- The scan, input by input ----

  /** What the scan still has and has spent before input `y`. */
  ghost predicate Before(s: Scan, outs: seq<OutputRow>, ins: seq<InputRow>, y: nat, height: u32)
    requires y <= |ins|
  {
    forall k :: k in Seed(outs, height) ==>
      if exists z :: 0 <= z < y && !ins[z].isCoinbase && InKey(ins[z]) == k then k !in s.pending
      else k in s.pending && s.pending[k] == Seed(outs, height)[k]
  }

  lemma {:induction false} ScanPending(db: Utxos, outs: seq<OutputRow>, ins: seq<InputRow>, y: nat, height: u32)
    requires y <= |ins|
    ensures Before(ScanInputs(db, height, StartScan(outs, height), ins[..y]), outs, ins, y, height)
    ensures ScanInputs(db, height, StartScan(outs, height), ins[..y]).pending.Keys <= Seed(outs, height).Keys
  {
    hide InKey;
    if y > 0 {
      ScanPending(db, outs, ins, y - 1, height);
      assert ins[..y][..y - 1] == ins[..y - 1];
      var s := ScanInputs(db, height, StartScan(outs, height), ins[..y - 1]);
      var t := ScanInputs(db, height, StartScan(outs, height), ins[..y]);
      assert t == ScanInput(db, height, s, ins[y - 1]);
    }
  }

  /** Spend rows are only ever added. */
  lemma {:induction false} SpendsGrow(db: Utxos, height: u32, s: Scan, ins: seq<InputRow>, y: nat)
    requires y <= |ins|
    ensures ScanInputs(db, height, s, ins[..y]).spends <= ScanInputs(db, height, s, ins).spends
    decreases |ins|
  {
    var n := |ins| - 1;
    if y == |ins| {
      assert ins[..y] == ins;
    } else {
      assert ins[..n][..y] == ins[..y];
      SpendsGrow(db, height, s, ins[..n], y);
    }
  }

  lemma {:induction false} ScanNext(db: Utxos, height: u32, s: Scan, ins: seq<InputRow>, y: nat)
    requires y < |ins|
    ensures ScanInputs(db, height, s, ins[..y + 1])
         == ScanInput(db, height, ScanInputs(db, height, s, ins[..y]), ins[y])
  {
    assert ins[..y + 1][..y] == ins[..y];
  }

  /** The row an input that finds its entry adds, at the place it is added. */
  lemma RowAdded(db: Utxos, height: u32, nTx: nat, ins: seq<InputRow>, outs: seq<OutputRow>, y: nat) returns (p: nat)
    requires y < |ins| && !ins[y].isCoinbase
    requires var s := ScanInputs(db, height, StartScan(outs, height), ins[..y]);
             InKey(ins[y]) in s.pending || InKey(ins[y]) in db
    ensures var s := ScanInputs(db, height, StartScan(outs, height), ins[..y]);
            var spends := Apply(db, height, nTx, ins, outs).spends;
            && p < |spends| && SpentBy(spends[p], ins[y], height)
            && SpendsEntry(spends[p],
                           if InKey(ins[y]) in s.pending then s.pending[InKey(ins[y])] else db[InKey(ins[y])])
  {
    hide InKey;
    hide Seed;
    var start := StartScan(outs, height);
    var s := ScanInputs(db, height, start, ins[..y]);
    ScanNext(db, height, start, ins, y);
    SpendsGrow(db, height, start, ins, y + 1);
    p := |s.spends|;
    assert ScanInputs(db, height, start, ins[..y + 1]).spends[p] == Apply(db, height, nTx, ins, outs).spends[p];
  }

  /** An input that names an output of its own block. */
  lemma OwnSpendRow(db: Utxos, height: u32, nTx: nat, ins: seq<InputRow>, outs: seq<OutputRow>, y: nat, x: nat)
    returns (p: nat)
    requires y < |ins| && x < |outs| && SpendsOwn(ins, outs, y, x)
    ensures var spends := Apply(db, height, nTx, ins, outs).spends;
            p < |spends| && SpentBy(spends[p], ins[y], height) && Spends(spends[p], outs[x], height)
  {
    hide InKey;
    hide OutKey;
    hide Seed;
    hide Apply;
    hide ScanInputs;
    KeysName(ins[y], outs[x]);
    SeededBy(outs, height, x);
    ScanPending(db, outs, ins, y, height);
    forall z | 0 <= z < y && !ins[z].isCoinbase ensures InKey(ins[z]) != InKey(ins[y]) {
      KeysMeet(ins[z], ins[y]);
    }
    p := RowAdded(db, height, nTx, ins, outs, y);
  }

  /** An input that names nothing of its own block and finds an entry in the database. */
  lemma StoredSpendRow(db: Utxos, height: u32, nTx: nat, ins: seq<InputRow>, outs: seq<OutputRow>, y: nat)
    returns (p: nat)
    requires y < |ins| && !ins[y].isCoinbase && InKey(ins[y]) in db
    requires forall x :: 0 <= x < |outs| ==> !Names(ins[y], outs[x])
    ensures var spends := Apply(db, height, nTx, ins, outs).spends;
            p < |spends| && SpentBy(spends[p], ins[y], height) && SpendsEntry(spends[p], db[InKey(ins[y])])
  {
    hide InKey;
    hide OutKey;
    hide Seed;
    hide Apply;
    hide ScanInputs;
    SeedKeys(outs, height);
    forall x | 0 <= x < |outs| ensures OutKeys(outs)[x] != InKey(ins[y]) {
      KeysName(ins[y], outs[x]);
    }
    ScanPending(db, outs, ins, y, height);
    p := RowAdded(db, height, nTx, ins, outs, y);
  }

  // ---- Every row comes from an input ----

  /** The rows are those of some non-coinbase inputs, in the order of the inputs. */
  ghost predicate ComeFrom(spends: seq<SpendRow>, from: seq<nat>, ins: seq<InputRow>, height: u32) {
    && |from| == |spends|
    && (forall p :: 0 <= p < |from| ==>
         from[p] < |ins| && !ins[from[p]].isCoinbase && SpentBy(spends[p], ins[from[p]], height))
    && (forall p, q :: 0 <= p < q < |from| ==> from[p] < from[q])
  }

  /** One row for each input that finds its output; the other non-coinbase inputs are counted as missing. */
  lemma {:induction false} SpendOrigins(db: Utxos, outs: seq<OutputRow>, ins: seq<InputRow>, y: nat, height: u32)
    returns (from: seq<nat>)
    requires y <= |ins|
    ensures var s := ScanInputs(db, height, StartScan(outs, height), ins[..y]);
            && ComeFrom(s.spends, from, ins, height) && |s.spends| + s.missing == RealInputs(ins[..y])
            && forall p :: 0 <= p < |from| ==> from[p] < y
  {
    hide InKey;
    hide Seed;
    from := [];
    if y > 0 {
      from := SpendOrigins(db, outs, ins, y - 1, height);
      var s := ScanInputs(db, height, StartScan(outs, height), ins[..y - 1]);
      ScanNext(db, height, StartScan(outs, height), ins, y - 1);
      assert ins[..y][..y - 1] == ins[..y - 1];
      if |ScanInput(db, height, s, ins[y - 1]).spends| > |s.spends| { from := from + [y - 1]; }
    }
  }

  /** The same about a whole block. */
  lemma RowsComeFromInputs(db: Utxos, height: u32, nTx: nat, ins: seq<InputRow>, outs: seq<OutputRow>)
    returns (from: seq<nat>)
    ensures var a := Apply(db, height, nTx, ins, outs);
            ComeFrom(a.spends, from, ins, height) && |a.spends| + a.missing == RealInputs(ins)
  {
    hide ComeFrom;
    hide ScanInputs;
    from := SpendOrigins(db, outs, ins, |ins|, height);
    assert ins[..|ins|] == ins;
  }

  // ---- From the block that creates an output to the block that spends it ----

  /** The set after the blocks of `blocks`, the first of them at height `base`. */
  function After(db: Utxos, base: nat, blocks: seq<FullBlock>): Utxos
    requires base + |blocks| <= U32_RANGE
  {
    if |blocks| == 0 then db
    else
      var n := |blocks| - 1;
      ApplyFull(After(db, base, blocks[..n]), base + n, blocks[n]).utxos
  }

  /** What the blocks up to `b` write about the inputs of block `b`. */
  function RowsOf(db: Utxos, base: nat, blocks: seq<FullBlock>, b: nat): seq<SpendRow>
    requires b < |blocks| && base + |blocks| <= U32_RANGE
  {
    ApplyFull(After(db, base, blocks[..b]), base + b, blocks[b]).spends
  }

  predicate NobodyNames(ins: seq<InputRow>, o: OutputRow) { forall z :: 0 <= z < |ins| ==> !Names(ins[z], o) }

  predicate NobodyCreates(outs: seq<OutputRow>, o: OutputRow) {
    forall z :: 0 <= z < |outs| ==> !SameOutpoint(outs[z], o)
  }

  lemma EntryCreated(db: Utxos, height: u32, b: FullBlock, x: nat)
    requires x < |b.outputs| && NobodyNames(b.inputs, b.outputs[x])
    requires forall z :: x < z < |b.outputs| ==> !SameOutpoint(b.outputs[z], b.outputs[x])
    ensures var a := ApplyFull(db, height, b);
            OutKey(b.outputs[x]) in a.utxos && Stores(a.utxos[OutKey(b.outputs[x])], b.outputs[x], height)
  {
    hide InKey;
    hide OutKey;
    hide Seed;
    hide ScanInputs;
    SeededBy(b.outputs, height, x);
    ScanPending(db, b.outputs, b.inputs, |b.inputs|, height);
    assert b.inputs[..|b.inputs|] == b.inputs;
    forall z | 0 <= z < |b.inputs| && !b.inputs[z].isCoinbase ensures InKey(b.inputs[z]) != OutKey(b.outputs[x]) {
      KeysName(b.inputs[z], b.outputs[x]);
    }
  }

  lemma EntryKept(db: Utxos, height: u32, b: FullBlock, o: OutputRow)
    requires OutKey(o) in db && NobodyNames(b.inputs, o) && NobodyCreates(b.outputs, o)
    ensures var a := ApplyFull(db, height, b); OutKey(o) in a.utxos && a.utxos[OutKey(o)] == db[OutKey(o)]
  {
    hide InKey;
    hide OutKey;
    hide Seed;
    hide ScanInputs;
    DeletedGrows(db, height, StartScan(b.outputs, height), b.inputs);
    ScanPending(db, b.outputs, b.inputs, |b.inputs|, height);
    SeedKeys(b.outputs, height);
    assert b.inputs[..|b.inputs|] == b.inputs;
    forall z | 0 <= z < |b.inputs| && !b.inputs[z].isCoinbase ensures InKey(b.inputs[z]) != OutKey(o) {
      KeysName(b.inputs[z], o);
    }
    forall z | 0 <= z < |b.outputs| ensures OutKeys(b.outputs)[z] != OutKey(o) {
      OutKeysMeet(b.outputs[z], o);
    }
  }

  /** Output row `x` of block `a` is the last for its outpoint, and untouched until input `y` of block `b`. */
  ghost predicate Untouched(blocks: seq<FullBlock>, a: nat, x: nat, b: nat, y: nat)
    requires a <= b < |blocks| && x < |blocks[a].outputs| && y < |blocks[b].inputs|
  {
    var o := blocks[a].outputs[x];
    && (forall z :: x < z < |blocks[a].outputs| ==> !SameOutpoint(blocks[a].outputs[z], o))
    && (forall c :: a < c <= b ==> NobodyCreates(blocks[c].outputs, o))
    && (forall c :: a <= c < b ==> NobodyNames(blocks[c].inputs, o))
    && (forall z :: 0 <= z < y ==> !Names(blocks[b].inputs[z], o))
  }

  lemma {:induction false} StaysStored(db: Utxos, base: nat, blocks: seq<FullBlock>, a: nat, x: nat, c: nat)
    requires a < c <= |blocks| && base + |blocks| <= U32_RANGE && x < |blocks[a].outputs|
    requires forall z :: x < z < |blocks[a].outputs| ==> !SameOutpoint(blocks[a].outputs[z], blocks[a].outputs[x])
    requires forall d :: a < d < c ==> NobodyCreates(blocks[d].outputs, blocks[a].outputs[x])
    requires forall d :: a <= d < c ==> NobodyNames(blocks[d].inputs, blocks[a].outputs[x])
    ensures var o := blocks[a].outputs[x];
            var m := After(db, base, blocks[..c]);
            OutKey(o) in m && Stores(m[OutKey(o)], o, base + a)
  {
    hide ApplyFull;
    hide OutKey;
    hide NobodyNames;
    hide NobodyCreates;
    assert blocks[..c][..c - 1] == blocks[..c - 1];
    var before := After(db, base, blocks[..c - 1]);
    if c == a + 1 {
      EntryCreated(before, base + a, blocks[a], x);
    } else {
      StaysStored(db, base, blocks, a, x, c - 1);
      EntryKept(before, base + c - 1, blocks[c - 1], blocks[a].outputs[x]);
    }
  }

  /**
   * An input names an output created earlier, in the same block or any number of blocks
   * before, and not spent in between: a spend row of its block carries the columns of both.
   */
  lemma SpendNamesItsOutput(
    db: Utxos, base: nat, blocks: seq<FullBlock>, a: nat, x: nat, b: nat, y: nat) returns (p: nat)
    requires a <= b < |blocks| && base + |blocks| <= U32_RANGE
    requires x < |blocks[a].outputs| && y < |blocks[b].inputs|
    requires Names(blocks[b].inputs[y], blocks[a].outputs[x]) && Untouched(blocks, a, x, b, y)
    ensures var rows := RowsOf(db, base, blocks, b);
            && p < |rows| && SpentBy(rows[p], blocks[b].inputs[y], base + b)
            && Spends(rows[p], blocks[a].outputs[x], base + a)
  {
    hide InKey;
    hide OutKey;
    hide Apply;
    hide After;
    var i, o := blocks[b].inputs[y], blocks[a].outputs[x];
    var m := After(db, base, blocks[..b]);
    if a == b {
      p := OwnSpendRow(m, base + b, |blocks[b].txs|, blocks[b].inputs, blocks[b].outputs, y, x);
    } else {
      StaysStored(db, base, blocks, a, x, b);
      KeysName(i, o);
      assert NobodyCreates(blocks[b].outputs, o);
      p := StoredSpendRow(m, base + b, |blocks[b].txs|, blocks[b].inputs, blocks[b].outputs, y);
    }
  }
}
