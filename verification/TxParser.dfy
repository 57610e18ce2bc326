// The parser as it runs: a cursor over the payload, and rows filled in as the bytes are read.
module TxParser {
  import opened Wrappers
  import opened Bytes
  import opened Rows
  import opened Wire
  import opened TxSyntax
  import opened TxRows
  import Script
  import UtxoSpec

  /** The value a read hands to its caller. */
  function Outcome<T>(spec: Parsed<T>): Result<T, ParseError> {
    if spec.Err? then Err(spec.error) else Ok(spec.value.0)
  }

  class Cursor {
    const data: bytes
    var pos: nat

    ghost predicate Valid()
      reads this
    {
      pos <= |data|
    }

    /** A read that did what `spec` says; where a failed one stops is never looked at. */
    ghost predicate Did<T>(spec: Parsed<T>, r: Result<T, ParseError>)
      reads this
    {
      && Valid()
      && r == Outcome(spec)
      && (spec.Ok? ==> pos == spec.value.1)
    }

    constructor (data: bytes)
      ensures Valid() && this.data == data && pos == 0
    {
      this.data, pos := data, 0;
    }

    method ReadSlice(n: nat) returns (r: Result<bytes, ParseError>)
      requires Valid()
      modifies this
      ensures Did(ReadBytes(data, old(pos), n), r)
      ensures r.Err? ==> pos == old(pos)
    {
      if |data| - pos < n { return Err(Eof); }
      r := Ok(data[pos..pos + n]);
      pos := pos + n;
    }

    /** Skipping reads nothing, but fails exactly when reading would. */
    method Skip(n: nat) returns (r: Result<(), ParseError>)
      requires Valid()
      modifies this
      ensures Valid() && (r.Ok? <==> ReadBytes(data, old(pos), n).Ok?)
      ensures r == (if r.Ok? then Ok(()) else Err(Eof)) && pos == if r.Ok? then old(pos) + n else old(pos)
    {
      if |data| - pos < n { return Err(Eof); }
      pos := pos + n;
      r := Ok(());
    }

    /** The fixed-width little-endian reads, by width in bytes. */
    method ReadUint(n: nat) returns (r: Result<nat, ParseError>)
      requires Valid()
      modifies this
      ensures Did(ReadLe(data, old(pos), n), r)
      ensures r.Err? ==> pos == old(pos)
    {
      if |data| - pos < n { return Err(Eof); }
      r := Ok(LeNat(data[pos..pos + n]));
      pos := pos + n;
    }

    method ReadWord() returns (r: Result<u32, ParseError>)
      requires Valid()
      modifies this
      ensures Did(ReadU32(data, old(pos)), r)
    {
      RangeConstants();
      var v :- ReadUint(4);
      r := Ok(v);
    }

    method ReadCompact() returns (r: Result<u64, ParseError>)
      requires Valid()
      modifies this
      ensures Did(ReadVarint(data, old(pos)), r)
    {
      RangeConstants();
      if pos >= |data| { return Err(Eof); }
      var first := data[pos];
      pos := pos + 1;
      if first <= 0xfc { return Ok(first); }
      if first == 0xfd {
        var v :- ReadUint(2);
        return Ok(v);
      }
      if first == 0xfe {
        var v :- ReadUint(4);
        return Ok(v);
      }
      var v := ReadUint(8);
      if v.Err? { return Err(BadVarInt); }
      r := Ok(v.value);
    }

    method ReadItems() returns (r: Result<u64, ParseError>)
      requires Valid()
      modifies this
      ensures Did(ReadCount(data, old(pos)), r)
    {
      var n :- ReadCompact();
      if n > MAX_ITEMS { return Err(CountOverflow(n)); }
      r := Ok(n);
    }
  }

  // ---- Transactions ----

  method ReadHeadAt(c: Cursor) returns (r: Result<(Option<byte>, u32), ParseError>)
    requires c.Valid()
    modifies c
    ensures c.Did(ReadHead(c.data, old(c.pos)), r)
  {
    RangeConstants();
    if c.pos >= |c.data| { return Err(Eof); }
    var marker := c.data[c.pos];
    c.pos := c.pos + 1;
    if marker == 0x00 {
      if c.pos >= |c.data| { return Err(Eof); }
      var flag := c.data[c.pos];
      c.pos := c.pos + 1;
      if flag == 0 { return Err(BadSegwitFlag); }
      var n :- c.ReadItems();
      return Ok((Some(flag), n));
    }
    if marker <= 0xfc { return Ok((None, marker)); }
    if marker == 0xfd {
      var n :- c.ReadUint(2);
      return Ok((None, n));
    }
    if marker == 0xfe {
      var n :- c.ReadUint(4);
      return Ok((None, n));
    }
    var n :- c.ReadUint(8);
    if n > MAX_ITEMS { return Err(CountOverflow(n)); }
    r := Ok((None, n));
  }

  /** An input row before witness and txid are known. */
  function DraftInput(i: TxIn, height: u32, txIndex: u32, index: u32, single: bool): InputRow {
    InputRowOf(i, height, txIndex, index, single, ZeroHash(), [])
  }

  method ReadInput(c: Cursor, height: u32, txIndex: u32, index: u32, single: bool)
    returns (r: Result<InputRow, ParseError>)
    requires c.Valid()
    modifies c
    ensures c.Valid()
    ensures var spec := ParseIn(c.data, old(c.pos));
      && (spec.Ok? ==> r == Ok(DraftInput(spec.value.0, height, txIndex, index, single)) && c.pos == spec.value.1)
      && (spec.Err? ==> r == Err(spec.error))
  {
    hide ReadCount;
    hide ReadU32;
    var prevTxid :- c.ReadSlice(32);
    var prevVout :- c.ReadWord();
    var scriptLen :- c.ReadItems();
    var skipped :- c.Skip(scriptLen);
    var sequence :- c.ReadWord();
    var isCoinbase := single && index == 0 && prevTxid == ZeroHash() && prevVout == 0xFFFF_FFFF;
    r := Ok(InputRow(height, txIndex, index, ZeroHash(), prevTxid, prevVout, scriptLen, sequence, 0, 0, isCoinbase));
  }

  /** Rows for the inputs parsed so far. */
  ghost predicate AreDrafts(rows: seq<InputRow>, ins: seq<TxIn>, height: u32, txIndex: u32, single: bool) {
    && |rows| == |ins| <= U32_RANGE
    && forall i :: 0 <= i < |ins| ==> rows[i] == DraftInput(ins[i], height, txIndex, i, single)
  }

  method ReadInputs(c: Cursor, n: u32, height: u32, txIndex: u32) returns (r: Result<seq<InputRow>, ParseError>)
    requires c.Valid()
    modifies c
    ensures c.Valid()
    ensures var spec := ParseIns(c.data, old(c.pos), n);
      && (spec.Ok? ==> r.Ok? && AreDrafts(r.value, spec.value.0, height, txIndex, n == 1) && c.pos == spec.value.1)
      && (spec.Err? ==> r == Err(spec.error))
  {
    hide ParseIn;
    hide DraftInput;
    ghost var start := c.pos;
    var rows: seq<InputRow> := [];
    for i := 0 to n
      invariant c.Valid() && ParseMany(ParseIn, c.data, start, i).Ok?
      invariant c.pos == ParseMany(ParseIn, c.data, start, i).value.1
      invariant |ParseMany(ParseIn, c.data, start, i).value.0| == i
      invariant AreDrafts(rows, ParseMany(ParseIn, c.data, start, i).value.0, height, txIndex, n == 1)
    {
      var one := ReadInput(c, height, txIndex, i, n == 1);
      if one.Err? {
        ManyFails(ParseIn, c.data, start, i + 1, n);
        return Err(one.error);
      }
      rows := rows + [one.value];
    }
    r := Ok(rows);
  }

  method ReadOutput(c: Cursor, height: u32, txIndex: u32, index: u32, h160: Script.Hash160)
    returns (r: Result<OutputRow, ParseError>)
    requires c.Valid()
    modifies c
    ensures c.Valid()
    ensures var spec := ParseOut(c.data, old(c.pos));
      && (spec.Ok? ==>
            r == Ok(OutputRowOf(spec.value.0, height, txIndex, index, ZeroHash(), h160)) && c.pos == spec.value.1)
      && (spec.Err? ==> r == Err(spec.error))
  {
    hide ReadCount;
    hide Script.AddressOf;
    hide Script.Template;
    RangeConstants();
    var value :- c.ReadUint(8);
    if value > MAX_MONEY { return Err(BadValue(value)); }
    var spkLen :- c.ReadItems();
    var spk :- c.ReadSlice(spkLen);
    var scriptType, addressHash := Script.ClassifyScript(spk, h160);
    Script.TemplateIsUnique(spk, scriptType);
    r := Ok(OutputRow(height, txIndex, index, ZeroHash(), value, spkLen, scriptType.Code(), addressHash));
  }

  ghost predicate AreOutputs(
    rows: seq<OutputRow>, outs: seq<TxOut>, height: u32, txIndex: u32, txid: Hash, h160: Script.Hash160)
  {
    && |rows| == |outs| <= MAX_ITEMS
    && forall i :: 0 <= i < |outs| ==> rows[i] == OutputRowOf(outs[i], height, txIndex, i, txid, h160)
  }

  method ReadOutputs(c: Cursor, height: u32, txIndex: u32, h160: Script.Hash160)
    returns (r: Result<seq<OutputRow>, ParseError>)
    requires c.Valid()
    modifies c
    ensures c.Valid()
    ensures var spec := ParseOuts(c.data, old(c.pos));
      && (spec.Ok? ==>
            r.Ok? && AreOutputs(r.value, spec.value.0, height, txIndex, ZeroHash(), h160) && c.pos == spec.value.1)
      && (spec.Err? ==> r == Err(spec.error))
  {
    hide ParseOut;
    hide ReadCount;
    hide OutputRowOf;
    var n :- c.ReadItems();
    ghost var start := c.pos;
    var rows: seq<OutputRow> := [];
    for i := 0 to n
      invariant c.Valid() && ParseMany(ParseOut, c.data, start, i).Ok?
      invariant c.pos == ParseMany(ParseOut, c.data, start, i).value.1
      invariant |ParseMany(ParseOut, c.data, start, i).value.0| == i
      invariant AreOutputs(rows, ParseMany(ParseOut, c.data, start, i).value.0, height, txIndex, ZeroHash(), h160)
    {
      var one := ReadOutput(c, height, txIndex, i, h160);
      if one.Err? {
        ManyFails(ParseOut, c.data, start, i + 1, n);
        return Err(one.error);
      }
      rows := rows + [one.value];
    }
    r := Ok(rows);
  }

  /** A witness item: its length is kept, its bytes are skipped. */
  method SkipItem(c: Cursor) returns (r: Result<nat, ParseError>)
    requires c.Valid()
    modifies c
    ensures c.Valid()
    ensures var spec := ReadScript(c.data, old(c.pos));
      && (spec.Ok? ==> r == Ok(|spec.value.0|) && c.pos == spec.value.1)
      && (spec.Err? ==> r == Err(spec.error))
  {
    hide ReadCount;
    var len :- c.ReadItems();
    var skipped :- c.Skip(len);
    r := Ok(len);
  }

  lemma {:induction false} StackLenSnoc(items: seq<bytes>, item: bytes, total: u32)
    requires total == StackLen(items) % U32_RANGE
    ensures StackLen(items + [item]) % U32_RANGE == (total + |item|) % U32_RANGE
  {
    assert (items + [item])[..|items|] == items;
  }

  /** One witness stack: how many items, and their lengths added up in 32 bits. */
  method ReadStack(c: Cursor) returns (r: Result<(u32, u32), ParseError>)
    requires c.Valid()
    modifies c
    ensures c.Valid()
    ensures var spec := ParseStack(c.data, old(c.pos));
      && (spec.Ok? ==>
            r == Ok((|spec.value.0|, StackLen(spec.value.0) % U32_RANGE)) && c.pos == spec.value.1)
      && (spec.Err? ==> r == Err(spec.error))
  {
    hide ReadCount;
    hide ReadScript;
    hide StackLen;
    var n :- c.ReadItems();
    ghost var start := c.pos;
    var total: u32 := 0;
    EmptyStackLen();
    for i := 0 to n
      invariant c.Valid() && ParseMany(ReadScript, c.data, start, i).Ok?
      invariant c.pos == ParseMany(ReadScript, c.data, start, i).value.1
      invariant total == StackLen(ParseMany(ReadScript, c.data, start, i).value.0) % U32_RANGE
    {
      ghost var at := c.pos;
      ghost var items := ParseMany(ReadScript, c.data, start, i).value.0;
      var len := SkipItem(c);
      if len.Err? {
        ManyFails(ReadScript, c.data, start, i + 1, n);
        return Err(len.error);
      }
      StackLenSnoc(items, ReadScript(c.data, at).value.0, total);
      total := (total + len.value) % U32_RANGE;
    }
    ManyCount(ReadScript, c.data, start, n);
    r := Ok((n, total));
  }

  lemma EmptyStackLen()
    ensures StackLen([]) == 0
  {
  }

  /** Draft rows of which the first `|stacks|` have their witness fields filled in. */
  ghost predicate HaveStacks(rows: seq<InputRow>, drafts: seq<InputRow>, stacks: seq<Stack>) {
    && |rows| == |drafts| && |stacks| <= |rows|
    && (forall i :: 0 <= i < |stacks| ==>
          rows[i] == drafts[i].(witnessItems := |stacks[i]|, witnessBytes := StackLen(stacks[i]) % U32_RANGE))
    && (forall i :: |stacks| <= i < |rows| ==> rows[i] == drafts[i])
  }

  method ReadStacks(c: Cursor, drafts: seq<InputRow>) returns (r: Result<seq<InputRow>, ParseError>)
    requires c.Valid()
    modifies c
    ensures c.Valid()
    ensures var spec := ParseWitness(c.data, old(c.pos), true, |drafts|);
      && (spec.Ok? ==> r.Ok? && HaveStacks(r.value, drafts, spec.value.0) && c.pos == spec.value.1)
      && (spec.Err? ==> r == Err(spec.error))
  {
    hide ParseStack;
    ghost var start := c.pos;
    var rows := drafts;
    for i := 0 to |drafts|
      invariant c.Valid() && ParseMany(ParseStack, c.data, start, i).Ok?
      invariant c.pos == ParseMany(ParseStack, c.data, start, i).value.1
      invariant |ParseMany(ParseStack, c.data, start, i).value.0| == i
      invariant HaveStacks(rows, drafts, ParseMany(ParseStack, c.data, start, i).value.0)
    {
      var one := ReadStack(c);
      if one.Err? {
        ManyFails(ParseStack, c.data, start, i + 1, |drafts|);
        return Err(one.error);
      }
      rows := rows[i := rows[i].(witnessItems := one.value.0, witnessBytes := one.value.1)];
    }
    r := Ok(rows);
  }

  method StampInputs(drafts: seq<InputRow>, txid: Hash) returns (rows: seq<InputRow>)
    ensures |rows| == |drafts| && forall i :: 0 <= i < |drafts| ==> rows[i] == drafts[i].(txid := txid)
  {
    rows := drafts;
    for i := 0 to |rows|
      invariant |rows| == |drafts|
      invariant forall k :: 0 <= k < |drafts| ==> rows[k] == if k < i then drafts[k].(txid := txid) else drafts[k]
    {
      rows := rows[i := rows[i].(txid := txid)];
    }
  }

  method StampOutputs(drafts: seq<OutputRow>, txid: Hash) returns (rows: seq<OutputRow>)
    ensures |rows| == |drafts| && forall i :: 0 <= i < |drafts| ==> rows[i] == drafts[i].(txid := txid)
  {
    rows := drafts;
    for i := 0 to |rows|
      invariant |rows| == |drafts|
      invariant forall k :: 0 <= k < |drafts| ==> rows[k] == if k < i then drafts[k].(txid := txid) else drafts[k]
    {
      rows := rows[i := rows[i].(txid := txid)];
    }
  }

  type TxRowSet = (TxRow, seq<InputRow>, seq<OutputRow>)

  /** The rows of one parsed transaction. */
  function TxRowsOf(t: TxParse, height: u32, txIndex: u32, dsha: DSha, h160: Script.Hash160): TxRowSet
    requires Shaped(t.raw)
  {
    (TxRowOf(t, height, txIndex, dsha),
     InputRows(t.raw, height, txIndex, dsha(t.preimage)),
     OutputRows(t.raw, height, txIndex, dsha(t.preimage), h160))
  }

  lemma StampedInputs(
    drafts: seq<InputRow>, filled: seq<InputRow>, rows: seq<InputRow>, raw: RawTx, height: u32, txIndex: u32,
        txid: Hash)
    requires Shaped(raw) && AreDrafts(drafts, raw.ins, height, txIndex, |raw.ins| == 1)
    requires HaveStacks(filled, drafts, raw.stacks)
    requires |rows| == |filled| && forall i :: 0 <= i < |filled| ==> rows[i] == filled[i].(txid := txid)
    ensures rows == InputRows(raw, height, txIndex, txid)
  {
    assert StackLen([]) == 0;
  }

  lemma StampedOutputs(
    drafts: seq<OutputRow>, rows: seq<OutputRow>, raw: RawTx, height: u32, txIndex: u32, txid: Hash,
        h160: Script.Hash160)
    requires Shaped(raw) && AreOutputs(drafts, raw.outs, height, txIndex, ZeroHash(), h160)
    requires |rows| == |drafts| && forall i :: 0 <= i < |drafts| ==> rows[i] == drafts[i].(txid := txid)
    ensures rows == OutputRows(raw, height, txIndex, txid, h160)
  {
    hide Script.AddressOf;
    hide Script.Template;
  }

  /** The bytes hashed for the txid, put together as the source feeds them to the hash. */
  method HashedBytes(data: bytes, start: nat, prefixEnd: nat, end: nat, hasWitness: bool) returns (s: bytes)
    requires start <= prefixEnd <= |data| && prefixEnd + 4 <= end <= |data| && (hasWitness ==> start + 6 <= prefixEnd)
    ensures s == Preimage(data, start, prefixEnd, end, hasWitness)
  {
    if hasWitness {
      var prefix, lock := data[start..prefixEnd], data[end - 4..end];
      assert prefix[..4] == data[start..start + 4] && prefix[6..] == data[start + 6..prefixEnd];
      s := prefix[..4] + prefix[6..] + lock;
    } else {
      s := data[start..end];
    }
  }

  /** Rows without witness data count as filled with no stacks. */
  lemma NothingToFill(drafts: seq<InputRow>)
    ensures HaveStacks(drafts, drafts, [])
  {
  }

  /** Witness stacks when present, then the locktime. */
  method ReadTail(c: Cursor, drafts: seq<InputRow>, hasWitness: bool) returns (r: Result<(seq<InputRow>, u32),
      ParseError>)
    requires c.Valid()
    modifies c
    ensures c.Valid()
    ensures var w := ParseWitness(c.data, old(c.pos), hasWitness, |drafts|);
      && (w.Err? ==> r == Err(w.error))
      && (w.Ok? ==>
        var l := ReadU32(c.data, w.value.1);
        && (l.Err? ==> r == Err(l.error))
        && (l.Ok? ==>
              && r.Ok? && r.value.1 == l.value.0 && c.pos == l.value.1
              && HaveStacks(r.value.0, drafts, w.value.0)))
  {
    hide ReadU32;
    hide HaveStacks;
    hide ParseStack;
    var filled := drafts;
    if hasWitness {
      filled :- ReadStacks(c, drafts);
    } else {
      NothingToFill(drafts);
    }
    var locktime :- c.ReadWord();
    r := Ok((filled, locktime));
  }

  method ParseTransaction(c: Cursor, height: u32, txIndex: u32, dsha: DSha, h160: Script.Hash160)
    returns (r: Result<TxRowSet, ParseError>)
    requires c.Valid()
    modifies c
    ensures c.Valid()
    ensures var spec := ParseTx(c.data, old(c.pos));
      && (spec.Ok? ==> r == Ok(TxRowsOf(spec.value.0, height, txIndex, dsha, h160)) && c.pos == spec.value.1)
      && (spec.Err? ==> r == Err(spec.error))
  {
    hide ParseIns;
    hide ParseOuts;
    hide ParseWitness;
    hide ReadU32;
    hide ReadHead;
    hide AreOutputs;
    hide HaveStacks;
    hide Preimage;
    hide InputRows;
    hide OutputRows;
    var start := c.pos;
    var version :- c.ReadWord();
    var head :- ReadHeadAt(c);
    var hasWitness := head.0.Some?;
    var drafts :- ReadInputs(c, head.1, height, txIndex);
    var outputs :- ReadOutputs(c, height, txIndex, h160);
    var prefixEnd := c.pos;
    var tail :- ReadTail(c, drafts, hasWitness);
    var end := c.pos;
    ghost var t := ParseTx(c.data, start).value.0;
    assert ParseTx(c.data, start).Ok? && end == ParseTx(c.data, start).value.1;
    var hashed := HashedBytes(c.data, start, prefixEnd, end, hasWitness);
    var txid := dsha(hashed);
    var ins := StampInputs(tail.0, txid);
    var outs := StampOutputs(outputs, txid);
    StampedInputs(drafts, tail.0, ins, t.raw, height, txIndex, txid);
    StampedOutputs(outputs, outs, t.raw, height, txIndex, txid, h160);
    var totalLen := end - start;
    var strippedLen := if hasWitness then prefixEnd - start - 2 + 4 else totalLen;
    var weight := strippedLen * 3 + totalLen;
    var tx := TxRow(height, txIndex, txid, Signed(version), tail.1, totalLen % U32_RANGE, weight % U32_RANGE, 0,
                    head.1, |outs|, hasWitness);
    r := Ok((tx, ins, outs));
  }

  // ---- Blocks ----

  function RowTotal(outs: seq<OutputRow>): nat {
    if |outs| == 0 then 0 else RowTotal(outs[..|outs| - 1]) + outs[|outs| - 1].valueSat
  }

  method SumValues(outs: seq<OutputRow>) returns (total: u64)
    ensures total == RowTotal(outs) % (U64_MAX + 1)
  {
    total := 0;
    for i := 0 to |outs|
      invariant total == RowTotal(outs[..i]) % (U64_MAX + 1)
    {
      assert outs[..i + 1][..i] == outs[..i];
      total := (total + outs[i].valueSat) % (U64_MAX + 1);
    }
    assert outs[..|outs|] == outs;
  }

  lemma {:induction false} RowTotalIsOutputSum(rows: seq<OutputRow>, outs: seq<TxOut>)
    requires |rows| == |outs| && forall i :: 0 <= i < |outs| ==> rows[i].valueSat == outs[i].value
    ensures RowTotal(rows) == OutputSum(outs)
  {
    if |outs| > 0 {
      RowTotalIsOutputSum(rows[..|outs| - 1], outs[..|outs| - 1]);
    }
  }

  /** Everything accumulated after the first `|ts|` transactions. */
  datatype Progress = Progress(
    txs: seq<TxRow>, inputs: seq<InputRow>, outputs: seq<OutputRow>, coinbaseValue: u64, weightSum: nat)

  ghost predicate Reflects(p: Progress, ts: seq<TxParse>, height: u32, dsha: DSha, h160: Script.Hash160)
    requires AllShaped(ts)
  {
    && p.txs == BlockTxs(ts, height, dsha)
    && p.inputs == BlockInputs(ts, height, dsha)
    && p.outputs == BlockOutputs(ts, height, dsha, h160)
    && p.coinbaseValue == (if |ts| == 0 then 0 else OutputSum(ts[0].raw.outs) % (U64_MAX + 1))
    && p.weightSum == WeightSum(ts)
  }

  lemma ProgressStep(p: Progress, ts: seq<TxParse>, t: TxParse, coinbase: u64, height: u32, dsha: DSha,
      h160: Script.Hash160)
    requires AllShaped(ts + [t]) && AllShaped(ts) && Reflects(p, ts, height, dsha, h160)
    requires coinbase == if |ts| == 0 then OutputSum(t.raw.outs) % (U64_MAX + 1) else p.coinbaseValue
    ensures Shaped(t.raw)
    ensures var rows := TxRowsOf(t, height, |ts|, dsha, h160);
      Reflects(Progress(p.txs + [rows.0], p.inputs + rows.1, p.outputs + rows.2, coinbase, p.weightSum + rows.0.weight),
               ts + [t], height, dsha, h160)
  {
    hide InputRows;
    hide OutputRows;
    hide AllShaped;
    hide BlockTxs;
    hide BlockInputs;
    hide BlockOutputs;
    hide WeightSum;
    hide OutputSum;
    RowsSnoc(ts, t, height, dsha, h160);
    assert (ts + [t])[0] == if |ts| == 0 then t else ts[0];
  }

  lemma {:induction false} RowsSnoc(ts: seq<TxParse>, t: TxParse, height: u32, dsha: DSha, h160: Script.Hash160)
    requires AllShaped(ts + [t]) && AllShaped(ts)
    ensures Shaped(t.raw)
    ensures BlockTxs(ts + [t], height, dsha) == BlockTxs(ts, height, dsha) + [TxRowOf(t, height, |ts|, dsha)]
    ensures BlockInputs(ts + [t], height, dsha)
         == BlockInputs(ts, height, dsha) + InputRows(t.raw, height, |ts|, dsha(t.preimage))
    ensures BlockOutputs(ts + [t], height, dsha, h160)
         == BlockOutputs(ts, height, dsha, h160) + OutputRows(t.raw, height, |ts|, dsha(t.preimage), h160)
    ensures WeightSum(ts + [t]) == WeightSum(ts) + Weight(t) % U32_RANGE
  {
    hide InputRows;
    hide OutputRows;
    hide TxRowOf;
    hide Shaped;
    assert (ts + [t])[..|ts|] == ts && (ts + [t])[|ts|] == t;
    assert t in ts + [t];
  }

  method ParseOne(c: Cursor, p: Progress, height: u32, txIndex: u32, dsha: DSha, h160: Script.Hash160,
      ghost ts: seq<TxParse>)
    returns (r: Result<Progress, ParseError>)
    requires c.Valid() && AllShaped(ts) && |ts| == txIndex < MAX_ITEMS && Reflects(p, ts, height, dsha, h160)
    modifies c
    ensures c.Valid()
    ensures var spec := ParseTx(c.data, old(c.pos));
      && (spec.Ok? ==>
            && r.Ok? && AllShaped(ts + [spec.value.0]) && c.pos == spec.value.1
            && Reflects(r.value, ts + [spec.value.0], height, dsha, h160))
      && (spec.Err? ==> r == Err(spec.error))
  {
    hide ParseTx;
    hide Reflects;
    hide InputRows;
    ghost var at := c.pos;
    var rows :- ParseTransaction(c, height, txIndex, dsha, h160);
    ghost var t := ParseTx(c.data, at).value.0;
    var coinbaseValue := p.coinbaseValue;
    if txIndex == 0 {
      coinbaseValue := SumValues(rows.2);
      RowTotalIsOutputSum(rows.2, t.raw.outs);
    }
    ProgressStep(p, ts, t, coinbaseValue, height, dsha, h160);
    r := Ok(Progress(p.txs + [rows.0], p.inputs + rows.1, p.outputs + rows.2, coinbaseValue,
        p.weightSum + rows.0.weight));
  }

  /** `parse_block_full`: the count mismatch it also tests for cannot arise. */
  method ParseBlock(payload: bytes, height: u32, hash: Hash, h: BlockHeader, dsha: DSha, h160: Script.Hash160)
    returns (r: Result<FullBlock, ParseError>)
    ensures r == ParseBlockFull(payload, height, hash, h, dsha, h160)
  {
    hide ReadCount;
    hide ParseTx;
    hide Reflects;
    hide AllShaped;
    var c := new Cursor(payload);
    var skipped :- c.Skip(BLOCK_HEADER_LEN);
    var count :- c.ReadItems();
    ghost var start := c.pos;
    var p := Progress([], [], [], 0, 0);
    NoProgress(height, dsha, h160);
    ghost var ts: seq<TxParse> := [];
    for i := 0 to count
      invariant c.Valid() && c.data == payload
      invariant ParseMany(ParseTx, payload, start, i) == Ok((ts, c.pos)) && |ts| == i
      invariant AllShaped(ts) && Reflects(p, ts, height, dsha, h160)
    {
      ghost var at := c.pos;
      var step := ParseOne(c, p, height, i, dsha, h160, ts);
      if step.Err? {
        ManyFails(ParseTx, payload, start, i + 1, count);
        return Err(step.error);
      }
      ts := ts + [ParseTx(payload, at).value.0];
      p := step.value;
    }
    var weight := UtxoSpec.Min(p.weightSum + 80 * 4, U32_RANGE - 1);
    FinishBlock(p, ts, |payload|, height, hash, h, dsha, h160);
    r := Ok(FullBlock(
      BlockRow(height, hash, h.prevHash, h.merkleRoot, h.time, h.bits, h.nonce, h.version,
               count, |payload| % U32_RANGE, weight, 0, p.coinbaseValue),
      p.txs, p.inputs, p.outputs));
  }

  lemma NoProgress(height: u32, dsha: DSha, h160: Script.Hash160)
    ensures AllShaped([]) && Reflects(Progress([], [], [], 0, 0), [], height, dsha, h160)
  {
  }

  lemma FinishBlock(p: Progress, ts: seq<TxParse>, size: nat, height: u32, hash: Hash, h: BlockHeader,
      dsha: DSha, h160: Script.Hash160)
    requires AllShaped(ts) && Reflects(p, ts, height, dsha, h160)
    ensures BlockOf(ts, size, height, hash, h, dsha, h160) == FullBlock(
      BlockRow(height, hash, h.prevHash, h.merkleRoot, h.time, h.bits, h.nonce, h.version,
               |ts|, size % U32_RANGE, UtxoSpec.Min(p.weightSum + 320, U32_RANGE - 1), 0, p.coinbaseValue),
      p.txs, p.inputs, p.outputs)
  {
  }
}
