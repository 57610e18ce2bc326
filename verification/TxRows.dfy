// The rows a parsed transaction or block gives rise to, and what they keep.
module TxRows {
  import opened Wrappers
  import opened Bytes
  import opened Rows
  import opened Wire
  import opened TxSyntax
  import opened TxLaws
  import Script
  import UtxoSpec
  import UndoCodec

  /** The double SHA-256 of the serialization hashed for a txid, left abstract. */
  type DSha = bytes -> Hash

  datatype BlockHeader = BlockHeader(
    version: int, prevHash: Hash, merkleRoot: Hash, time: u32, bits: u32, nonce: u32)

  // ---- One transaction ----

  function StackLen(w: seq<bytes>): nat {
    if |w| == 0 then 0 else StackLen(w[..|w| - 1]) + |w[|w| - 1]|
  }

  /** The witness byte counter is 32 bits wide. */
  function InputRowOf(i: TxIn, height: u32, txIndex: u32, index: u32, single: bool, txid: Hash,
      stack: Stack): InputRow {
    InputRow(height, txIndex, index, txid, i.prevTxid, i.prevVout, |i.scriptSig|, i.sequence,
             |stack|, StackLen(stack) % U32_RANGE,
             single && index == 0 && i.prevTxid == ZeroHash() && i.prevVout == 0xFFFF_FFFF)
  }

  function OutputRowOf(o: TxOut, height: u32, txIndex: u32, index: u32, txid: Hash, h160: Script.Hash160): OutputRow {
    var t := Script.Template(o.script);
    OutputRow(height, txIndex, index, txid, o.value, |o.script|, t.Code(), Script.AddressOf(t, o.script, h160))
  }

  function StackAt(raw: RawTx, i: nat): Stack {
    if i < |raw.stacks| then raw.stacks[i] else []
  }

  function InputRows(raw: RawTx, height: u32, txIndex: u32, txid: Hash): (rows: seq<InputRow>)
    requires Shaped(raw)
    ensures |rows| == |raw.ins|
  {
    seq(|raw.ins|, i requires 0 <= i < |raw.ins| =>
      InputRowOf(raw.ins[i], height, txIndex, i, |raw.ins| == 1, txid, StackAt(raw, i)))
  }

  function OutputRows(raw: RawTx, height: u32, txIndex: u32, txid: Hash, h160: Script.Hash160): (rows: seq<OutputRow>)
    requires Shaped(raw)
    ensures |rows| == |raw.outs|
  {
    seq(|raw.outs|, i requires 0 <= i < |raw.outs| => OutputRowOf(raw.outs[i], height, txIndex, i, txid, h160))
  }

  /** BIP 141 weight before it is cut to 32 bits. */
  function Weight(t: TxParse): nat {
    3 * |t.preimage| + t.totalLen
  }

  function TxRowOf(t: TxParse, height: u32, txIndex: u32, dsha: DSha): TxRow
    requires Shaped(t.raw)
  {
    TxRow(height, txIndex, dsha(t.preimage), t.raw.version, t.raw.locktime,
          t.totalLen % U32_RANGE, Weight(t) % U32_RANGE, 0, |t.raw.ins|, |t.raw.outs|, t.raw.flag.Some?)
  }

  // ---- A block ----

  predicate AllShaped(ts: seq<TxParse>) {
    && |ts| <= MAX_ITEMS
    && forall t :: t in ts ==> Shaped(t.raw)
  }

  function BlockInputs(ts: seq<TxParse>, height: u32, dsha: DSha): seq<InputRow>
    requires AllShaped(ts)
  {
    if |ts| == 0 then []
    else
      var n := |ts| - 1;
      assert ts[n] in ts;
      BlockInputs(ts[..n], height, dsha) + InputRows(ts[n].raw, height, n, dsha(ts[n].preimage))
  }

  function BlockOutputs(ts: seq<TxParse>, height: u32, dsha: DSha, h160: Script.Hash160): seq<OutputRow>
    requires AllShaped(ts)
  {
    if |ts| == 0 then []
    else
      var n := |ts| - 1;
      assert ts[n] in ts;
      BlockOutputs(ts[..n], height, dsha, h160) + OutputRows(ts[n].raw, height, n, dsha(ts[n].preimage), h160)
  }

  function BlockTxs(ts: seq<TxParse>, height: u32, dsha: DSha): (rows: seq<TxRow>)
    requires AllShaped(ts)
    ensures |rows| == |ts|
    ensures forall i :: 0 <= i < |ts| ==> ts[i] in ts && rows[i] == TxRowOf(ts[i], height, i, dsha)
  {
    if |ts| == 0 then []
    else
      var n := |ts| - 1;
      assert ts[n] in ts;
      assert forall i :: 0 <= i < n ==> ts[..n][i] == ts[i];
      BlockTxs(ts[..n], height, dsha) + [TxRowOf(ts[n], height, n, dsha)]
  }

  function OutputSum(outs: seq<TxOut>): nat {
    if |outs| == 0 then 0 else OutputSum(outs[..|outs| - 1]) + outs[|outs| - 1].value
  }

  /** The sum of the stored, 32-bit transaction weights. */
  function WeightSum(ts: seq<TxParse>): nat {
    if |ts| == 0 then 0 else WeightSum(ts[..|ts| - 1]) + Weight(ts[|ts| - 1]) % U32_RANGE
  }

  function BlockOf(ts: seq<TxParse>, size: nat, height: u32, hash: Hash, h: BlockHeader, dsha: DSha,
      h160: Script.Hash160): FullBlock
    requires AllShaped(ts)
  {
    FullBlock(
      BlockRow(height, hash, h.prevHash, h.merkleRoot, h.time, h.bits, h.nonce, h.version,
               |ts|, size % U32_RANGE, UtxoSpec.Min(WeightSum(ts) + 320, U32_RANGE - 1), 0,
               if |ts| == 0 then 0 else OutputSum(ts[0].raw.outs) % (U64_MAX + 1)),
      BlockTxs(ts, height, dsha), BlockInputs(ts, height, dsha), BlockOutputs(ts, height, dsha, h160))
  }

  /** The parser's result on a whole payload. */
  function ParseBlockFull(payload: bytes, height: u32, hash: Hash, h: BlockHeader, dsha: DSha, h160: Script.Hash160)
    : (r: Result<FullBlock, ParseError>)
  {
    var (ts, end) :- ParseBlock(payload);
    Ok(BlockOf(ts, |payload|, height, hash, h, dsha, h160))
  }

  // ---- What the rows keep ----

  /** Where the inputs of transaction `t` start among the block's input rows. */
  function InputStart(ts: seq<TxParse>, t: nat): nat
    requires t <= |ts|
  {
    if t == 0 then 0 else InputStart(ts, t - 1) + |ts[t - 1].raw.ins|
  }

  function OutputStart(ts: seq<TxParse>, t: nat): nat
    requires t <= |ts|
  {
    if t == 0 then 0 else OutputStart(ts, t - 1) + |ts[t - 1].raw.outs|
  }

  /** Input indices are dense: row `InputStart(t) + i` is input `i` of transaction `t`, under its own txid. */
  lemma {:induction false} InputsDense(ts: seq<TxParse>, height: u32, dsha: DSha, t: nat, i: nat)
    requires AllShaped(ts) && t < |ts| && i < |ts[t].raw.ins|
    ensures InputStart(ts, t) + i < |BlockInputs(ts, height, dsha)|
    ensures ts[t] in ts
    ensures BlockInputs(ts, height, dsha)[InputStart(ts, t) + i]
         == InputRows(ts[t].raw, height, t, dsha(ts[t].preimage))[i]
    decreases |ts|
  {
    hide InputRows;
    hide Shaped;
    hide BlockInputs;
    var n := |ts| - 1;
    assert ts[n] in ts && ts[t] in ts;
    InputsSplit(ts, height, dsha);
    InputTotal(ts[..n], height, dsha);
    StartOfPrefix(ts, n, n);
    StartOfPrefix(ts, n, t);
    var front := BlockInputs(ts[..n], height, dsha);
    if t < n {
      InputsDense(ts[..n], height, dsha, t, i);
      assert BlockInputs(ts, height, dsha)[InputStart(ts, t) + i] == front[InputStart(ts, t) + i];
    } else {
      assert BlockInputs(ts, height, dsha)[|front| + i] == InputRows(ts[n].raw, height, n, dsha(ts[n].preimage))[i];
    }
  }

  lemma {:induction false} InputsSplit(ts: seq<TxParse>, height: u32, dsha: DSha)
    requires AllShaped(ts) && |ts| > 0
    ensures var n := |ts| - 1;
      && AllShaped(ts[..n]) && ts[n] in ts
      && BlockInputs(ts, height, dsha)
         == BlockInputs(ts[..n], height, dsha) + InputRows(ts[n].raw, height, n, dsha(ts[n].preimage))
  {
    hide InputRows;
    hide Shaped;
    assert ts[|ts| - 1] in ts;
  }

  lemma {:induction false} InputTotal(ts: seq<TxParse>, height: u32, dsha: DSha)
    requires AllShaped(ts)
    ensures InputStart(ts, |ts|) == |BlockInputs(ts, height, dsha)|
  {
    if |ts| > 0 {
      var n := |ts| - 1;
      assert ts[n] in ts;
      InputTotal(ts[..n], height, dsha);
      StartOfPrefix(ts, n, n);
    }
  }

  lemma {:induction false} StartOfPrefix(ts: seq<TxParse>, n: nat, t: nat)
    requires t <= n <= |ts|
    ensures InputStart(ts[..n], t) == InputStart(ts, t) && OutputStart(ts[..n], t) == OutputStart(ts, t)
  {
    if t > 0 { StartOfPrefix(ts, n, t - 1); }
  }

  lemma {:induction false} OutputTotal(ts: seq<TxParse>, height: u32, dsha: DSha, h160: Script.Hash160)
    requires AllShaped(ts)
    ensures OutputStart(ts, |ts|) == |BlockOutputs(ts, height, dsha, h160)|
  {
    if |ts| > 0 {
      var n := |ts| - 1;
      assert ts[n] in ts;
      OutputTotal(ts[..n], height, dsha, h160);
      StartOfPrefix(ts, n, n);
    }
  }

  lemma {:induction false} OutputsDense(ts: seq<TxParse>, height: u32, dsha: DSha, h160: Script.Hash160, t: nat, i: nat)
    requires AllShaped(ts) && t < |ts| && i < |ts[t].raw.outs|
    ensures OutputStart(ts, t) + i < |BlockOutputs(ts, height, dsha, h160)|
    ensures ts[t] in ts
    ensures BlockOutputs(ts, height, dsha, h160)[OutputStart(ts, t) + i]
         == OutputRows(ts[t].raw, height, t, dsha(ts[t].preimage), h160)[i]
    decreases |ts|
  {
    hide OutputRows;
    hide Shaped;
    var n := |ts| - 1;
    assert ts[n] in ts;
    OutputTotal(ts[..n], height, dsha, h160);
    StartOfPrefix(ts, n, n);
    StartOfPrefix(ts, n, t);
    if t < n {
      OutputsDense(ts[..n], height, dsha, h160, t, i);
    }
  }

  /** The rows name only transactions of the block, which is what the store asks of its callers. */
  lemma {:induction false} RowsAreIndexed(ts: seq<TxParse>, height: u32, dsha: DSha, h160: Script.Hash160)
    requires AllShaped(ts)
    ensures forall r :: r in BlockInputs(ts, height, dsha) ==> r.txIndex < |ts|
    ensures forall r :: r in BlockOutputs(ts, height, dsha, h160) ==> r.txIndex < |ts|
  {
    if |ts| > 0 {
      var n := |ts| - 1;
      assert ts[n] in ts;
      RowsAreIndexed(ts[..n], height, dsha, h160);
    }
  }

  lemma ParsedBlocksAreWellFormed(
    payload: bytes, height: u32, hash: Hash, h: BlockHeader, dsha: DSha, h160: Script.Hash160)
    ensures var r := ParseBlockFull(payload, height, hash, h, dsha, h160);
      r.Ok? ==> UtxoSpec.WellParsed(r.value)
  {
    var p := ParseBlock(payload);
    if p.Ok? {
      RowsAreIndexed(p.value.0, height, dsha, h160);
    }
  }

  /** A written block parses to exactly the rows of its transactions. */
  lemma WrittenBlockParses(
    headerRaw: bytes, raws: seq<RawTx>, height: u32, hash: Hash, h: BlockHeader, dsha: DSha, h160: Script.Hash160)
    requires |headerRaw| == BLOCK_HEADER_LEN && AllEncodable(raws) && |raws| <= MAX_ITEMS
    ensures AllShaped(AllExpected(raws))
    ensures ParseBlockFull(BlockBytes(headerRaw, raws), height, hash, h, dsha, h160)
         == Ok(BlockOf(AllExpected(raws), |BlockBytes(headerRaw, raws)|, height, hash, h, dsha, h160))
  {
    hide BlockOf;
    hide ParseBlock;
    hide BlockBytes;
    hide Expected;
    BlockRoundTrip(headerRaw, raws);
    var ts := AllExpected(raws);
    forall t | t in ts ensures Shaped(t.raw) {
      var i :| 0 <= i < |ts| && ts[i] == t;
      assert raws[i] in raws;
      ExpectedShape(raws[i]);
    }
  }

  lemma ExpectedShape(raw: RawTx)
    requires Encodable(raw)
    ensures Shaped(Expected(raw).raw)
  {
  }

  /**
   * Row by row, the stripped bytes parse to the same transaction: same txid,
   * inputs with empty witness fields, outputs, version and locktime, and a
   * weight of four times their size.
   */
  lemma StrippedRowsAgree(b: bytes, pos: nat, height: u32, txIndex: u32, dsha: DSha, h160: Script.Hash160)
    ensures ParsesWithWitness(b, pos) && b[pos + 6] != 0 ==>
      var t := ParseTx(b, pos).value.0;
      && ParseTx(t.preimage, 0).Ok?
      && var u := ParseTx(t.preimage, 0).value.0;
      && SameButWitness(t, u, height, txIndex, dsha, h160)
      && Weight(u) == 4 * u.totalLen && Weight(t) == 3 * u.totalLen + t.totalLen
  {
    hide ParseTx;
    StrippedParses(b, pos);
  }

  ghost predicate SameButWitness(t: TxParse, u: TxParse, height: u32, txIndex: u32, dsha: DSha, h160: Script.Hash160)
    requires Shaped(t.raw) && Shaped(u.raw)
  {
    var id := dsha(t.preimage);
    && dsha(u.preimage) == id
    && InputRows(u.raw, height, txIndex, id) == WithoutWitness(InputRows(t.raw, height, txIndex, id))
    && OutputRows(u.raw, height, txIndex, id, h160) == OutputRows(t.raw, height, txIndex, id, h160)
    && TxRowOf(u, height, txIndex, dsha)
       == TxRowOf(t, height, txIndex, dsha).(
         size := u.totalLen % U32_RANGE, weight := Weight(u) % U32_RANGE, hasWitness := false)
  }

  function WithoutWitness(rows: seq<InputRow>): seq<InputRow> {
    seq(|rows|, i requires 0 <= i < |rows| => rows[i].(witnessItems := 0, witnessBytes := 0))
  }

  // ---- Block weight ----

  /** Bytes of all transactions without and with witness data. */
  function StrippedTotal(raws: seq<RawTx>): nat
    requires AllEncodable(raws)
  {
    if |raws| == 0 then 0
    else
      assert raws[|raws| - 1] in raws;
      StrippedTotal(raws[..|raws| - 1]) + |StrippedBytes(raws[|raws| - 1])|
  }

  lemma {:induction false} WeightsAddUp(raws: seq<RawTx>)
    requires AllEncodable(raws)
    requires forall raw :: raw in raws ==> Weight(Expected(raw)) < U32_RANGE
    ensures WeightSum(AllExpected(raws)) == 3 * StrippedTotal(raws) + |TxsBytes(raws)|
  {
    hide TxBytes;
    hide StrippedBytes;
    if |raws| > 0 {
      var n := |raws| - 1;
      assert raws[n] in raws;
      WeightsAddUp(raws[..n]);
      assert AllExpected(raws)[..n] == AllExpected(raws[..n]);
    }
  }

  lemma {:induction false} StoredWeight(
    ts: seq<TxParse>, size: nat, height: u32, hash: Hash, h: BlockHeader, dsha: DSha,
    h160: Script.Hash160)
    requires AllShaped(ts)
    ensures BlockOf(ts, size, height, hash, h, dsha, h160).blockRow.weight
         == UtxoSpec.Min(WeightSum(ts) + 320, U32_RANGE - 1)
  {
    hide BlockTxs;
    hide BlockInputs;
    hide BlockOutputs;
  }

  predicate NoWeightWraps(raws: seq<RawTx>)
    requires AllEncodable(raws)
  {
    forall raw :: raw in raws ==> Weight(Expected(raw)) < U32_RANGE
  }

  /** The stored sum is the BIP 141 weight less four times the length of the count. */
  lemma {:induction false} WeightIsBip141(headerRaw: bytes, raws: seq<RawTx>)
    requires |headerRaw| == BLOCK_HEADER_LEN && AllEncodable(raws) && |raws| <= MAX_ITEMS && NoWeightWraps(raws)
    ensures var count := |UndoCodec.Varint(|raws|)|;
      WeightSum(AllExpected(raws)) + 320
      == 3 * (BLOCK_HEADER_LEN + count + StrippedTotal(raws)) + |BlockBytes(headerRaw, raws)| - 4 * count
  {
    hide TxsBytes;
    hide StrippedTotal;
    hide UndoCodec.Varint;
    WeightsAddUp(raws);
  }

  lemma {:induction false} BlockWeight(
    headerRaw: bytes, raws: seq<RawTx>, height: u32, hash: Hash, h: BlockHeader, dsha: DSha,
    h160: Script.Hash160)
    requires |headerRaw| == BLOCK_HEADER_LEN && AllEncodable(raws) && |raws| <= MAX_ITEMS && NoWeightWraps(raws)
    ensures var count := |UndoCodec.Varint(|raws|)|;
      var bip141 := 3 * (BLOCK_HEADER_LEN + count + StrippedTotal(raws)) + |BlockBytes(headerRaw, raws)|;
      var r := ParseBlockFull(BlockBytes(headerRaw, raws), height, hash, h, dsha, h160);
      r.Ok? && r.value.blockRow.weight == UtxoSpec.Min(bip141 - 4 * count, U32_RANGE - 1)
  {
    hide ParseBlockFull;
    hide BlockOf;
    hide BlockBytes;
    hide AllShaped;
    hide AllEncodable;
    hide AllExpected;
    hide WeightSum;
    hide StrippedTotal;
    hide UndoCodec.Varint;
    WrittenBlockParses(headerRaw, raws, height, hash, h, dsha, h160);
    StoredWeight(AllExpected(raws), |BlockBytes(headerRaw, raws)|, height, hash, h, dsha, h160);
    WeightIsBip141(headerRaw, raws);
  }
}
