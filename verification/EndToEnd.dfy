// From the bytes of a block file to the ledger: the components put together.
module EndToEnd {
  import opened Wrappers
  import opened Bytes
  import opened Rows
  import opened Wire
  import opened TxSyntax
  import opened TxLaws
  import opened TxRows
  import BlkFile
  import Script
  import UndoCodec
  import ReferenceLedger
  import UtxoRefinement
  import UtxoSpec
  import Xor

  // ---- Files to rows ----

  /** A block on its way to disk. */
  datatype Source = Source(magic: u32, header: bytes, txs: seq<RawTx>) {
    predicate Valid() {
      && BlkFile.IsKnownMagic(magic) && |header| == BLOCK_HEADER_LEN
      && AllEncodable(txs) && |txs| <= MAX_ITEMS && |BlockBytes(header, txs)| + 8 < U32_RANGE
    }

    function Record(): (r: BlkFile.Framed)
      requires Valid()
      ensures r.Valid()
    {
      assert |BlockBytes(header, txs)| >= BLOCK_HEADER_LEN;
      BlkFile.Framed(magic, BlockBytes(header, txs))
    }
  }

  predicate AllSources(blocks: seq<Source>) {
    forall s :: s in blocks ==> s.Valid()
  }

  function Records(blocks: seq<Source>): (rs: seq<BlkFile.Framed>)
    requires AllSources(blocks)
    ensures |rs| == |blocks| && BlkFile.AllValid(rs)
    ensures forall i :: 0 <= i < |blocks| ==> blocks[i] in blocks && rs[i] == blocks[i].Record()
  {
    seq(|blocks|, i requires 0 <= i < |blocks| => assert blocks[i] in blocks; blocks[i].Record())
  }

  /** What reading a record's payload by its location and parsing it gives. */
  ghost predicate ParsesTo(
    fileId: u32, data: bytes, r: BlkFile.BlkRecord, s: Source,
    height: u32, hash: Hash, h: BlockHeader, dsha: DSha, h160: Script.Hash160)
    requires s.Valid()
  {
    && r.headerRaw == s.header && r.location.recordLen >= 8
    && var payload := BlkFile.BlockBytes(fileId, data, r.location);
    && payload.Ok?
    && AllShaped(AllExpected(s.txs))
    && ParseBlockFull(payload.value, height, hash, h, dsha, h160)
       == Ok(BlockOf(AllExpected(s.txs), |payload.value|, height, hash, h, dsha, h160))
  }

  lemma PayloadParses(
    fileId: u32, data: bytes, r: BlkFile.BlkRecord, s: Source,
    height: u32, hash: Hash, h: BlockHeader, dsha: DSha, h160: Script.Hash160)
    requires s.Valid() && BlkFile.Delivers(fileId, data, r, BlockBytes(s.header, s.txs))
    ensures ParsesTo(fileId, data, r, s, height, hash, h, dsha, h160)
  {
    hide ParseBlockFull;
    hide BlockOf;
    hide AllShaped;
    assert BlockBytes(s.header, s.txs)[..BLOCK_HEADER_LEN] == s.header;
    WrittenBlockParses(s.header, s.txs, height, hash, h, dsha, h160);
  }

  /** Valid blocks, and padding the walk will not take for another one. */
  predicate Writable(blocks: seq<Source>, key: Option<Xor.XorKey>, padding: nat) {
    && AllSources(blocks)
    && |BlkFile.Frames(Records(blocks))| + padding <= U64_MAX
    && !BlkFile.PaddingMistaken(key, |BlkFile.Frames(Records(blocks))|, padding)
  }

  /**
   * Blocks written to a file, plain or obfuscated and with any padding that does
   * not pass for a record, come back in order, each parsing to its own rows.
   */
  lemma {:induction false} FilesParseBack(
    fileId: u32, blocks: seq<Source>, key: Option<Xor.XorKey>, padding: nat,
    height: u32, hash: Hash, h: BlockHeader, dsha: DSha, h160: Script.Hash160)
    ensures Writable(blocks, key, padding) ==>
      var raw := BlkFile.FileBytes(Records(blocks), key, padding);
      var data := BlkFile.Decoded(raw, key)[..BlkFile.DataEnd(raw, key)];
      && |data| <= U64_MAX
      && var found := BlkFile.Collected(fileId, data, 0);
      && found.Ok? && |found.value| == |blocks|
      && forall i :: 0 <= i < |blocks| ==>
           blocks[i] in blocks && ParsesTo(fileId, data, found.value[i], blocks[i], height, hash, h, dsha, h160)
  {
    hide ParsesTo;
    hide BlkFile.Delivers;
    hide BlkFile.Collected;
    hide BlkFile.FileBytes;
    hide BlkFile.DataEnd;
    if Writable(blocks, key, padding) {
      BlkFile.FramingRoundTrip(fileId, Records(blocks), key, padding);
      var raw := BlkFile.FileBytes(Records(blocks), key, padding);
      var data := BlkFile.Decoded(raw, key)[..BlkFile.DataEnd(raw, key)];
      var found := BlkFile.Collected(fileId, data, 0).value;
      forall i | 0 <= i < |blocks|
        ensures blocks[i] in blocks && ParsesTo(fileId, data, found[i], blocks[i], height, hash, h, dsha, h160)
      {
        assert Records(blocks)[i] == blocks[i].Record();
        PayloadParses(fileId, data, found[i], blocks[i], height, hash, h, dsha, h160);
      }
    }
  }

  // ---- Rows to the ledger ----

  /** The transactions of a parsed block as the ledger semantics takes them. */
  function LedgerTxs(ts: seq<TxParse>, height: u32, dsha: DSha, h160: Script.Hash160): (txs: seq<ReferenceLedger.Tx>)
    requires AllShaped(ts)
    ensures |txs| == |ts|
  {
    if |ts| == 0 then []
    else
      var n := |ts| - 1;
      assert ts[n] in ts;
      var txid := dsha(ts[n].preimage);
      LedgerTxs(ts[..n], height, dsha, h160)
        + [ReferenceLedger.Tx(InputRows(ts[n].raw, height, n, txid), OutputRows(ts[n].raw, height, n, txid, h160))]
  }

  lemma {:induction false} RowsAreFlat(ts: seq<TxParse>, height: u32, dsha: DSha, h160: Script.Hash160)
    requires AllShaped(ts)
    ensures ReferenceLedger.FlatIns(LedgerTxs(ts, height, dsha, h160)) == BlockInputs(ts, height, dsha)
    ensures ReferenceLedger.FlatOuts(LedgerTxs(ts, height, dsha, h160)) == BlockOutputs(ts, height, dsha, h160)
  {
    hide InputRows;
    hide OutputRows;
    if |ts| > 0 {
      var n := |ts| - 1;
      assert ts[n] in ts;
      RowsAreFlat(ts[..n], height, dsha, h160);
      var txs := LedgerTxs(ts, height, dsha, h160);
      assert txs[..n] == LedgerTxs(ts[..n], height, dsha, h160);
    }
  }

  /** Every row carries the index of the transaction that holds it. */
  lemma {:induction false} ParsedRowsNamed(ts: seq<TxParse>, height: u32, dsha: DSha, h160: Script.Hash160)
    requires AllShaped(ts)
    ensures ReferenceLedger.RowsNamed(LedgerTxs(ts, height, dsha, h160))
  {
    if |ts| > 0 {
      var n := |ts| - 1;
      assert ts[n] in ts;
      ParsedRowsNamed(ts[..n], height, dsha, h160);
      var front, txs := LedgerTxs(ts[..n], height, dsha, h160), LedgerTxs(ts, height, dsha, h160);
      assert forall i :: 0 <= i < n ==> txs[i] == front[i];
    }
  }

  /** No two transactions of the block share a txid. */
  predicate DistinctTxids(ts: seq<TxParse>, dsha: DSha) {
    forall i, j :: 0 <= i < j < |ts| ==> dsha(ts[i].preimage) != dsha(ts[j].preimage)
  }

  lemma {:induction false} OutputTxids(ts: seq<TxParse>, height: u32, dsha: DSha, h160: Script.Hash160, o: OutputRow)
    returns (t: nat)
    requires AllShaped(ts) && o in BlockOutputs(ts, height, dsha, h160)
    ensures t < |ts| && o.txid == dsha(ts[t].preimage)
  {
    var n := |ts| - 1;
    assert ts[n] in ts;
    if o in BlockOutputs(ts[..n], height, dsha, h160) {
      t := OutputTxids(ts[..n], height, dsha, h160, o);
    } else {
      t := n;
    }
  }

  /** Distinct txids make every output key of the block distinct. */
  lemma {:induction false} KeysDistinct(ts: seq<TxParse>, height: u32, dsha: DSha, h160: Script.Hash160, i: nat, j: nat)
    requires AllShaped(ts) && DistinctTxids(ts, dsha) && i < j < |BlockOutputs(ts, height, dsha, h160)|
    ensures UtxoSpec.OutKey(BlockOutputs(ts, height, dsha, h160)[i])
         != UtxoSpec.OutKey(BlockOutputs(ts, height, dsha, h160)[j])
    decreases |ts|
  {
    hide UtxoSpec.OutKey;
    var n := |ts| - 1;
    assert ts[n] in ts;
    var front, outs := BlockOutputs(ts[..n], height, dsha, h160), BlockOutputs(ts, height, dsha, h160);
    if j < |front| {
      KeysDistinct(ts[..n], height, dsha, h160, i, j);
    } else {
      if i < |front| {
        var t := OutputTxids(ts[..n], height, dsha, h160, front[i]);
      }
      KeyOf(outs[i], outs[j]);
    }
  }

  lemma KeyOf(a: OutputRow, b: OutputRow)
    requires a.txid != b.txid || a.outputIndex != b.outputIndex
    ensures UtxoSpec.OutKey(a) != UtxoSpec.OutKey(b)
  {
    if UtxoSpec.OutKey(a) == UtxoSpec.OutKey(b) {
      UndoCodec.MakeKeyInjective(a.txid, a.outputIndex, b.txid, b.outputIndex);
    }
  }

  /**
   * Txids and spends are distinct, no output is already known, and same-block
   * spends name earlier transactions.
   */
  predicate OrderlyBlock(
    db: UtxoSpec.Utxos, ts: seq<TxParse>, height: u32, dsha: DSha, h160: Script.Hash160)
    requires AllShaped(ts)
  {
    && DistinctTxids(ts, dsha)
    && (forall o :: o in BlockOutputs(ts, height, dsha, h160) ==> UtxoSpec.OutKey(o) !in db)
    && ReferenceLedger.SingleSpends(BlockInputs(ts, height, dsha))
    && ReferenceLedger.SpendsEarlier(LedgerTxs(ts, height, dsha, h160))
  }

  lemma {:induction false} OrderlyRefinesLedger(
    db: UtxoSpec.Utxos, ts: seq<TxParse>, height: u32, dsha: DSha, h160: Script.Hash160)
    requires AllShaped(ts) && OrderlyBlock(db, ts, height, dsha, h160)
    ensures var a := UtxoSpec.Apply(
      db, height, |ts|, BlockInputs(ts, height, dsha), BlockOutputs(ts, height, dsha, h160));
      var l := ReferenceLedger.ApplyTxs(ReferenceLedger.Ledger0(db), height, LedgerTxs(ts, height, dsha, h160));
      a.utxos == l.utxos && a.spends == l.spends && a.fees == l.fees && a.missing == l.missing
  {
    hide UtxoSpec.Apply;
    hide UtxoSpec.OutKey;
    hide ReferenceLedger.ApplyTxs;
    hide ReferenceLedger.SingleSpends;
    hide ReferenceLedger.SpendsEarlier;
    hide ReferenceLedger.RowsNamed;
    hide BlockInputs;
    hide BlockOutputs;
    hide LedgerTxs;
    hide DistinctTxids;
    RowsAreFlat(ts, height, dsha, h160);
    ParsedRowsNamed(ts, height, dsha, h160);
    var outs := BlockOutputs(ts, height, dsha, h160);
    forall i, j | 0 <= i < j < |outs| ensures UtxoSpec.OutKey(outs[i]) != UtxoSpec.OutKey(outs[j]) {
      KeysDistinct(ts, height, dsha, h160, i, j);
    }
    UtxoRefinement.ApplyRefinesLedger(db, height, LedgerTxs(ts, height, dsha, h160));
  }

  /**
   * Any payload that parses to an orderly block, applied by the store in its three
   * phases, has the effect of its transactions taken one at a time.
   */
  lemma {:induction false} ParsedBlockRefinesLedger(
    db: UtxoSpec.Utxos, payload: bytes, height: u32, hash: Hash, h: BlockHeader, dsha: DSha, h160: Script.Hash160)
    ensures ParseBlock(payload).Ok? && OrderlyBlock(db, ParseBlock(payload).value.0, height, dsha, h160) ==>
      var ts := ParseBlock(payload).value.0;
      var b := ParseBlockFull(payload, height, hash, h, dsha, h160);
      && b.Ok?
      && var a := UtxoSpec.ApplyFull(db, height, b.value);
      var l := ReferenceLedger.ApplyTxs(ReferenceLedger.Ledger0(db), height, LedgerTxs(ts, height, dsha, h160));
      a.utxos == l.utxos && a.spends == l.spends && a.fees == l.fees && a.missing == l.missing
  {
    hide ParseBlock;
    hide OrderlyBlock;
    hide UtxoSpec.Apply;
    hide ReferenceLedger.ApplyTxs;
    hide BlockTxs;
    hide BlockInputs;
    hide BlockOutputs;
    hide LedgerTxs;
    if ParseBlock(payload).Ok? && OrderlyBlock(db, ParseBlock(payload).value.0, height, dsha, h160) {
      OrderlyRefinesLedger(db, ParseBlock(payload).value.0, height, dsha, h160);
    }
  }
}
