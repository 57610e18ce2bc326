// The columns of a parsed block's rows, each told from the transactions the block was written from.
module RowColumns {
  import opened Bytes
  import opened Rows
  import opened Wire
  import opened TxSyntax
  import opened TxLaws
  import opened TxRows
  import Script
  import ScriptForms

  // ---- What each row says ----

  /** The items of a witness stack end to end. */
  function Joined(w: seq<bytes>): bytes {
    if |w| == 0 then [] else w[0] + Joined(w[1..])
  }

  function WitnessOf(raw: RawTx, i: nat): Stack
    requires Shaped(raw) && i < |raw.ins|
  {
    if raw.flag.Some? then raw.stacks[i] else []
  }

  /** The outpoint of a coinbase: no transaction, the highest index. */
  predicate NullOutpoint(i: TxIn) {
    (forall b :: b in i.prevTxid ==> b == 0) && i.prevVout == 0xFFFF_FFFF
  }

  predicate InputRowSays(row: InputRow, raw: RawTx, i: nat, height: u32, t: nat, txid: Hash)
    requires Shaped(raw) && i < |raw.ins|
  {
    && row.height == height && row.txIndex == t && row.inputIndex == i && row.txid == txid
    && row.prevTxid == raw.ins[i].prevTxid && row.prevVout == raw.ins[i].prevVout
    && row.scriptSigLen == |raw.ins[i].scriptSig| && row.sequence == raw.ins[i].sequence
    && row.witnessItems == |WitnessOf(raw, i)|
    && row.witnessBytes == |Joined(WitnessOf(raw, i))| % U32_RANGE
    && (row.isCoinbase <==> |raw.ins| == 1 && NullOutpoint(raw.ins[i]))
  }

  ghost predicate OutputRowSays(
    row: OutputRow, raw: RawTx, i: nat, height: u32, t: nat, txid: Hash, h160: Script.Hash160)
    requires i < |raw.outs|
  {
    && row.height == height && row.txIndex == t && row.outputIndex == i && row.txid == txid
    && row.valueSat == raw.outs[i].value && row.scriptPubkeyLen == |raw.outs[i].script|
    && ScriptForms.Labels(raw.outs[i].script, row.scriptType, row.addressHash, h160)
  }

  /** `stripped` and `total` are the lengths of the transaction without and with its witness. */
  predicate TxRowSays(row: TxRow, raw: RawTx, height: u32, t: nat, txid: Hash, stripped: nat, total: nat) {
    && row.height == height && row.txIndex == t && row.txid == txid
    && row.version == raw.version && row.locktime == raw.locktime
    && row.size == total % U32_RANGE && row.weight == (3 * stripped + total) % U32_RANGE
    && row.fee == 0
    && row.inputCount == |raw.ins| && row.outputCount == |raw.outs|
    && row.hasWitness == raw.flag.Some?
  }

  function ValueOf(outs: seq<TxOut>): nat {
    if |outs| == 0 then 0 else outs[0].value + ValueOf(outs[1..])
  }

  /** All but the weight, which has a law of its own. */
  predicate BlockRowSays(row: BlockRow, raws: seq<RawTx>, size: nat, height: u32, hash: Hash, h: BlockHeader) {
    && row.height == height && row.hash == hash
    && row.prevHash == h.prevHash && row.merkleRoot == h.merkleRoot
    && row.time == h.time && row.bits == h.bits && row.nonce == h.nonce && row.version == h.version
    && row.txCount == |raws| && row.size == size % U32_RANGE && row.totalFee == 0
    && row.coinbaseValue == if |raws| == 0 then 0 else ValueOf(raws[0].outs) % (U64_MAX + 1)
  }

  // ---- The sums ----

  lemma {:induction false} JoinedSnoc(w: seq<bytes>, item: bytes)
    ensures Joined(w + [item]) == Joined(w) + item
  {
    if |w| > 0 {
      assert (w + [item])[1..] == w[1..] + [item];
      JoinedSnoc(w[1..], item);
    }
  }

  lemma {:induction false} JoinedLen(w: seq<bytes>)
    ensures |Joined(w)| == StackLen(w)
  {
    if |w| > 0 {
      var n := |w| - 1;
      JoinedLen(w[..n]);
      JoinedSnoc(w[..n], w[n]);
      assert w == w[..n] + [w[n]];
    }
  }

  lemma {:induction false} ValueSnoc(outs: seq<TxOut>, o: TxOut)
    ensures ValueOf(outs + [o]) == ValueOf(outs) + o.value
  {
    if |outs| > 0 {
      assert (outs + [o])[1..] == outs[1..] + [o];
      ValueSnoc(outs[1..], o);
    }
  }

  lemma {:induction false} ValueIsSum(outs: seq<TxOut>)
    ensures ValueOf(outs) == OutputSum(outs)
  {
    if |outs| > 0 {
      var n := |outs| - 1;
      ValueIsSum(outs[..n]);
      ValueSnoc(outs[..n], outs[n]);
      assert outs == outs[..n] + [outs[n]];
    }
  }

  /** Where the rows of transaction `t` start. */
  function InsBefore(raws: seq<RawTx>, t: nat): nat
    requires t <= |raws|
  {
    if t == 0 then 0 else InsBefore(raws, t - 1) + |raws[t - 1].ins|
  }

  function OutsBefore(raws: seq<RawTx>, t: nat): nat
    requires t <= |raws|
  {
    if t == 0 then 0 else OutsBefore(raws, t - 1) + |raws[t - 1].outs|
  }

  lemma {:induction false} Starts(raws: seq<RawTx>, t: nat)
    requires AllEncodable(raws) && t <= |raws|
    ensures InputStart(AllExpected(raws), t) == InsBefore(raws, t)
    ensures OutputStart(AllExpected(raws), t) == OutsBefore(raws, t)
  {
    hide TxBytes;
    hide StrippedBytes;
    hide Encodable;
    if t > 0 { Starts(raws, t - 1); }
  }

  // ---- One transaction ----

  lemma NullIsZero(h: Hash)
    ensures h == ZeroHash() <==> forall b :: b in h ==> b == 0
  {
    if forall b :: b in h ==> b == 0 {
      forall i | 0 <= i < 32 ensures h[i] == ZeroHash()[i] {
        assert h[i] in h;
      }
    }
  }

  lemma InputColumns(raw: RawTx, i: nat, height: u32, t: u32, txid: Hash)
    requires Shaped(raw) && i < |raw.ins|
    ensures InputRowSays(InputRows(raw, height, t, txid)[i], raw, i, height, t, txid)
  {
    NullIsZero(raw.ins[i].prevTxid);
    JoinedLen(WitnessOf(raw, i));
  }

  lemma OutputColumns(raw: RawTx, i: nat, height: u32, t: u32, txid: Hash, h160: Script.Hash160)
    requires Shaped(raw) && i < |raw.outs|
    ensures OutputRowSays(OutputRows(raw, height, t, txid, h160)[i], raw, i, height, t, txid, h160)
  {
    hide Script.Template;
    hide Script.AddressOf;
    hide ScriptForms.Labels;
    ScriptForms.EveryScriptLabelled(raw.outs[i].script, h160);
  }

  // ---- The rows of a written block ----

  /** Input `i` of transaction `t`, at its place among the input rows. */
  lemma WrittenInputRow(
    headerRaw: bytes, raws: seq<RawTx>, height: u32, hash: Hash, h: BlockHeader, dsha: DSha, h160: Script.Hash160,
    t: nat, i: nat)
    requires |headerRaw| == BLOCK_HEADER_LEN && AllEncodable(raws) && |raws| <= MAX_ITEMS
    requires t < |raws| && i < |raws[t].ins|
    ensures raws[t] in raws && Shaped(raws[t])
    ensures var r := ParseBlockFull(BlockBytes(headerRaw, raws), height, hash, h, dsha, h160);
      && r.Ok? && |r.value.inputs| == InsBefore(raws, |raws|) && InsBefore(raws, t) + i < |r.value.inputs|
      && InputRowSays(r.value.inputs[InsBefore(raws, t) + i], raws[t], i, height, t, dsha(StrippedBytes(raws[t])))
  {
    hide ParseBlockFull;
    hide BlockBytes;
    hide BlockInputs;
    hide InputRows;
    hide InputRowSays;
    hide StrippedBytes;
    hide TxBytes;
    var ts := AllExpected(raws);
    assert raws[t] in raws;
    WrittenBlockParses(headerRaw, raws, height, hash, h, dsha, h160);
    InputsDense(ts, height, dsha, t, i);
    InputTotal(ts, height, dsha);
    Starts(raws, t);
    Starts(raws, |raws|);
    InputColumns(raws[t], i, height, t, dsha(StrippedBytes(raws[t])));
  }

  lemma WrittenOutputRow(
    headerRaw: bytes, raws: seq<RawTx>, height: u32, hash: Hash, h: BlockHeader, dsha: DSha, h160: Script.Hash160,
    t: nat, i: nat)
    requires |headerRaw| == BLOCK_HEADER_LEN && AllEncodable(raws) && |raws| <= MAX_ITEMS
    requires t < |raws| && i < |raws[t].outs|
    ensures raws[t] in raws
    ensures var r := ParseBlockFull(BlockBytes(headerRaw, raws), height, hash, h, dsha, h160);
      && r.Ok? && |r.value.outputs| == OutsBefore(raws, |raws|) && OutsBefore(raws, t) + i < |r.value.outputs|
      && OutputRowSays(r.value.outputs[OutsBefore(raws, t) + i], raws[t], i, height, t,
                       dsha(StrippedBytes(raws[t])), h160)
  {
    hide ParseBlockFull;
    hide BlockBytes;
    hide BlockOutputs;
    hide OutputRows;
    hide OutputRowSays;
    hide StrippedBytes;
    hide TxBytes;
    var ts := AllExpected(raws);
    assert raws[t] in raws;
    WrittenBlockParses(headerRaw, raws, height, hash, h, dsha, h160);
    OutputsDense(ts, height, dsha, h160, t, i);
    OutputTotal(ts, height, dsha, h160);
    Starts(raws, t);
    Starts(raws, |raws|);
    OutputColumns(raws[t], i, height, t, dsha(StrippedBytes(raws[t])), h160);
  }

  /** Transaction `t`; its fee is filled in when the block is applied. */
  lemma WrittenTxRow(
    headerRaw: bytes, raws: seq<RawTx>, height: u32, hash: Hash, h: BlockHeader, dsha: DSha, h160: Script.Hash160,
    t: nat)
    requires |headerRaw| == BLOCK_HEADER_LEN && AllEncodable(raws) && |raws| <= MAX_ITEMS && t < |raws|
    ensures raws[t] in raws
    ensures var r := ParseBlockFull(BlockBytes(headerRaw, raws), height, hash, h, dsha, h160);
      && r.Ok? && |r.value.txs| == |raws|
      && TxRowSays(r.value.txs[t], raws[t], height, t, dsha(StrippedBytes(raws[t])),
                   |StrippedBytes(raws[t])|, |TxBytes(raws[t])|)
  {
    hide ParseBlockFull;
    hide BlockBytes;
    hide BlockInputs;
    hide BlockOutputs;
    hide BlockTxs;
    hide WeightSum;
    hide OutputSum;
    hide StrippedBytes;
    hide TxBytes;
    hide AllShaped;
    assert raws[t] in raws;
    WrittenBlockParses(headerRaw, raws, height, hash, h, dsha, h160);
  }

  lemma WrittenBlockRow(
    headerRaw: bytes, raws: seq<RawTx>, height: u32, hash: Hash, h: BlockHeader, dsha: DSha, h160: Script.Hash160)
    requires |headerRaw| == BLOCK_HEADER_LEN && AllEncodable(raws) && |raws| <= MAX_ITEMS
    ensures var r := ParseBlockFull(BlockBytes(headerRaw, raws), height, hash, h, dsha, h160);
      r.Ok? && BlockRowSays(r.value.blockRow, raws, |BlockBytes(headerRaw, raws)|, height, hash, h)
  {
    hide ParseBlockFull;
    hide BlockBytes;
    hide BlockTxs;
    hide BlockInputs;
    hide BlockOutputs;
    hide WeightSum;
    WrittenBlockParses(headerRaw, raws, height, hash, h, dsha, h160);
    if |raws| > 0 { ValueIsSum(raws[0].outs); }
  }
}
