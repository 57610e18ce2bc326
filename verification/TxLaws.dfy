// The parser inverts the BIP 144 serialization, and stripping the witness is exact (BIP 141).
module TxLaws {
  import opened Wrappers
  import opened Bytes
  import opened Rows
  import opened Wire
  import opened UndoCodec
  import opened TxSyntax

  // ---- Stripping ----

  /** The same transaction without its witness. */
  function Legacy(raw: RawTx): RawTx {
    raw.(flag := None, stacks := [])
  }

  lemma PreimageMoved(b: bytes, start: nat, prefixEnd: nat, end: nat)
    requires start + 6 <= prefixEnd <= |b| && prefixEnd + 4 <= end <= |b|
    ensures var s := Preimage(b, start, prefixEnd, end, true);
      && Moved(b, start, start + 4, s, 0 - start)
      && Moved(b, start + 6, prefixEnd, s, -(start + 2))
      && Moved(b, end - 4, end, s, |s| - end)
  {
    var s := Preimage(b, start, prefixEnd, end, true);
    var x, y, z := b[start..start + 4], b[start + 6..prefixEnd], b[end - 4..end];
    forall j | start <= j < start + 4 ensures s[j - start] == b[j] {
      assert s[j - start] == x[j - start];
    }
    forall j | start + 6 <= j < prefixEnd ensures s[j - (start + 2)] == b[j] {
      assert s[j - (start + 2)] == y[j - (start + 6)];
    }
    forall j | end - 4 <= j < end ensures s[j + (|s| - end)] == b[j] {
      assert s[j + (|s| - end)] == z[j - (end - 4)];
    }
  }

  lemma PreimageWhole(s: bytes, prefixEnd: nat)
    requires prefixEnd + 4 == |s|
    ensures Preimage(s, 0, prefixEnd, |s|, false) == s
  {
    assert s[0..|s|] == s;
  }

  /** What `t` turns into once its witness is gone. */
  function Stripped(t: TxParse): TxParse {
    TxParse(Legacy(t.raw), t.preimage, |t.preimage|)
  }

  /** A witness transaction stands at `pos`. */
  predicate ParsesWithWitness(b: bytes, pos: nat) {
    ParseTx(b, pos).Ok? && ParseTx(b, pos).value.0.raw.flag.Some?
  }

  /** Parsing the stripped bytes when the count does not look like a marker. */
  lemma StrippedParses(b: bytes, pos: nat)
    ensures ParsesWithWitness(b, pos) && b[pos + 6] != 0 ==>
      var t := ParseTx(b, pos).value.0;
      ParseTx(t.preimage, 0) == Ok((Stripped(t), |t.preimage|))
  {
    hide ReadU32;
    hide ParseIns;
    hide ParseOuts;
    hide ParseMany;
    hide ReadCount;
    hide Moved;
    hide Preimage;
    if ParsesWithWitness(b, pos) && b[pos + 6] != 0 {
      var t, end := ParseTx(b, pos).value.0, ParseTx(b, pos).value.1;
      var (n, p1) := ReadCount(b, pos + 6).value;
      assert ReadHead(b, pos + 4) == Ok(((Some(b[pos + 5]), n), p1));
      var p2 := ParseIns(b, p1, n).value.1;
      var p3 := ParseOuts(b, p2).value.1;
      var s := t.preimage;
      var d: int, back: int := 0 - (pos + 2), 0 - pos;
      assert s == Preimage(b, pos, p3, end, true);
      PreimageMoved(b, pos, p3, end);
      U32Moved(b, pos, s, back);
      MovedPart(b, pos + 6, p3, s, d, pos + 6, p1);
      HeadStripped(b, pos + 6, s, d);
      MovedPart(b, pos + 6, p3, s, d, p1, p2);
      InsMoved(b, p1, n, s, d);
      MovedPart(b, pos + 6, p3, s, d, p2, p3);
      OutsMoved(b, p2, s, d);
      var last: int := |s| - end;
      U32Moved(b, end - 4, s, last);
      PreimageWhole(s, |s| - 4);
    }
  }

  /** A zero count reads as the marker again. */
  lemma ZeroCountIsMarker(b: bytes, pos: nat)
    ensures ParsesWithWitness(b, pos) && b[pos + 6] == 0 ==>
      var r := ParseTx(ParseTx(b, pos).value.0.preimage, 0);
      r.Err? || r.value.0.raw.flag.Some?
  {
    hide ParseIns;
    hide ParseOuts;
    hide ParseMany;
    if ParsesWithWitness(b, pos) && b[pos + 6] == 0 {
      var t := ParseTx(b, pos).value.0;
      assert t.preimage[4] == b[pos + 6];
      var h := ReadHead(t.preimage, 4);
      assert h.Err? || h.value.0.0.Some?;
    }
  }

  /**
   * For any witness transaction, stripping is exact if and only if the input
   * count is not the single byte zero, which the legacy form cannot express.
   */
  lemma StrippedReparsesIff(b: bytes, pos: nat)
    ensures ParsesWithWitness(b, pos) ==>
      var t := ParseTx(b, pos).value.0;
      (ParseTx(t.preimage, 0) == Ok((Stripped(t), |t.preimage|)) <==> b[pos + 6] != 0)
  {
    if ParsesWithWitness(b, pos) {
      if b[pos + 6] != 0 { StrippedParses(b, pos); } else { ZeroCountIsMarker(b, pos); }
    }
  }

  // ---- Writing ----

  function ScriptBytes(s: Blob): bytes { Varint(|s|) + s }

  function InBytes(i: TxIn): bytes {
    RangeConstants();
    i.prevTxid + (LeBytes(4, i.prevVout) + (ScriptBytes(i.scriptSig) + LeBytes(4, i.sequence)))
  }

  function OutBytes(o: TxOut): bytes {
    RangeConstants();
    LeBytes(8, o.value) + ScriptBytes(o.script)
  }

  function StackBytes(w: Stack): bytes {
    Varint(|w|) + Concat(ScriptBytes, w)
  }

  /** Field values the wire format can carry; a legacy transaction needs an input. */
  predicate Encodable(raw: RawTx) {
    && |raw.outs| <= MAX_ITEMS
    && match raw.flag
       case None => raw.stacks == [] && 1 <= |raw.ins| < U32_RANGE
       case Some(f) => f != 0 && |raw.stacks| == |raw.ins| <= MAX_ITEMS
  }

  function Body(raw: RawTx): bytes
    requires Encodable(raw)
  {
    Varint(|raw.ins|) + (Concat(InBytes, raw.ins) + (Varint(|raw.outs|) + Concat(OutBytes, raw.outs)))
  }

  function VersionBytes(raw: RawTx): (b: bytes)
    ensures |b| == 4
  {
    RangeConstants();
    LeBytes(4, Unsigned(raw.version))
  }

  function LockBytes(raw: RawTx): (b: bytes)
    ensures |b| == 4
  {
    RangeConstants();
    LeBytes(4, raw.locktime)
  }

  function StrippedBytes(raw: RawTx): bytes
    requires Encodable(raw)
  {
    VersionBytes(raw) + (Body(raw) + LockBytes(raw))
  }

  function TxBytes(raw: RawTx): bytes
    requires Encodable(raw)
  {
    if raw.flag.None? then StrippedBytes(raw)
    else VersionBytes(raw) + ([0, raw.flag.value] + (Body(raw) + (Concat(StackBytes, raw.stacks) + LockBytes(raw))))
  }

  /** What parsing a written transaction returns. */
  function Expected(raw: RawTx): TxParse
    requires Encodable(raw)
  {
    TxParse(raw, StrippedBytes(raw), |TxBytes(raw)|)
  }

  // ---- Parsing inverts writing ----

  lemma {:induction false} U32Back(b: bytes, pos: nat, v: u32)
    requires v < Range(4) && LiesAt(b, pos, LeBytes(4, v))
    ensures ReadU32(b, pos) == Ok((v, pos + 4))
  {
    LeBack(b, pos, 4, v);
  }

  lemma ScriptBack(b: bytes, pos: nat, s: Blob)
    requires LiesAt(b, pos, ScriptBytes(s))
    ensures ReadScript(b, pos) == Ok((s, pos + |ScriptBytes(s)|))
  {
    hide ReadCount;
    hide Varint;
    SplitAt(b, pos, Varint(|s|), s);
    CountBack(b, pos, |s|);
    BytesBack(b, pos + |Varint(|s|)|, s);
  }

  lemma InBack(b: bytes, pos: nat, i: TxIn)
    requires LiesAt(b, pos, InBytes(i))
    ensures ParseIn(b, pos) == Ok((i, pos + |InBytes(i)|))
  {
    hide ReadScript;
    hide ReadU32;
    hide ScriptBytes;
    RangeConstants();
    var script := ScriptBytes(i.scriptSig);
    SplitAt(b, pos, i.prevTxid, LeBytes(4, i.prevVout) + (script + LeBytes(4, i.sequence)));
    SplitAt(b, pos + 32, LeBytes(4, i.prevVout), script + LeBytes(4, i.sequence));
    SplitAt(b, pos + 36, script, LeBytes(4, i.sequence));
    BytesBack(b, pos, i.prevTxid);
    U32Back(b, pos + 32, i.prevVout);
    ScriptBack(b, pos + 36, i.scriptSig);
    U32Back(b, pos + 36 + |script|, i.sequence);
  }

  lemma OutBack(b: bytes, pos: nat, o: TxOut)
    requires LiesAt(b, pos, OutBytes(o))
    ensures ParseOut(b, pos) == Ok((o, pos + |OutBytes(o)|))
  {
    hide ReadScript;
    hide ScriptBytes;
    RangeConstants();
    SplitAt(b, pos, LeBytes(8, o.value), ScriptBytes(o.script));
    LeBack(b, pos, 8, o.value);
    ScriptBack(b, pos + 8, o.script);
  }

  lemma StackBack(b: bytes, pos: nat, w: Stack)
    requires LiesAt(b, pos, StackBytes(w))
    ensures ParseStack(b, pos) == Ok((w, pos + |StackBytes(w)|))
  {
    hide ReadCount;
    hide Varint;
    SplitAt(b, pos, Varint(|w|), Concat(ScriptBytes, w));
    CountBack(b, pos, |w|);
    forall i, q: nat | 0 <= i < |w| ensures ReadsBack(ReadScript, ScriptBytes, w[i], b, q) {
      if LiesAt(b, q, ScriptBytes(w[i])) { ScriptBack(b, q, w[i]); }
    }
    ManyBack(ReadScript, ScriptBytes, w, b, pos + |Varint(|w|)|);
  }

  lemma {:induction false} InsBack(b: bytes, pos: nat, ins: seq<TxIn>)
    requires LiesAt(b, pos, Concat(InBytes, ins))
    ensures ParseIns(b, pos, |ins|) == Ok((ins, pos + |Concat(InBytes, ins)|))
  {
    hide ParseIn;
    hide InBytes;
    hide LiesAt;
    forall i, q: nat | 0 <= i < |ins| ensures ReadsBack(ParseIn, InBytes, ins[i], b, q) {
      if LiesAt(b, q, InBytes(ins[i])) { InBack(b, q, ins[i]); }
    }
    ManyBack(ParseIn, InBytes, ins, b, pos);
  }

  lemma {:induction false} OutsBack(b: bytes, pos: nat, outs: seq<TxOut>)
    requires |outs| <= MAX_ITEMS && LiesAt(b, pos, Varint(|outs|) + Concat(OutBytes, outs))
    ensures ParseOuts(b, pos) == Ok((outs, pos + |Varint(|outs|) + Concat(OutBytes, outs)|))
  {
    hide ParseOut;
    hide OutBytes;
    hide ReadCount;
    hide Varint;
    SplitAt(b, pos, Varint(|outs|), Concat(OutBytes, outs));
    CountBack(b, pos, |outs|);
    forall i, q: nat | 0 <= i < |outs| ensures ReadsBack(ParseOut, OutBytes, outs[i], b, q) {
      if LiesAt(b, q, OutBytes(outs[i])) { OutBack(b, q, outs[i]); }
    }
    ManyBack(ParseOut, OutBytes, outs, b, pos + |Varint(|outs|)|);
  }

  lemma {:induction false} StacksBack(b: bytes, pos: nat, ws: seq<Stack>)
    requires LiesAt(b, pos, Concat(StackBytes, ws))
    ensures ParseWitness(b, pos, true, |ws|) == Ok((ws, pos + |Concat(StackBytes, ws)|))
  {
    hide ParseStack;
    hide StackBytes;
    hide LiesAt;
    forall i, q: nat | 0 <= i < |ws| ensures ReadsBack(ParseStack, StackBytes, ws[i], b, q) {
      if LiesAt(b, q, StackBytes(ws[i])) { StackBack(b, q, ws[i]); }
    }
    ManyBack(ParseStack, StackBytes, ws, b, pos);
  }

  /** The legacy reader takes the count's first byte for the marker and still gets the count. */
  lemma LegacyHeadBack(b: bytes, pos: nat, n: nat)
    requires 1 <= n < U32_RANGE && LiesAt(b, pos, Varint(n))
    ensures ReadHead(b, pos) == Ok(((None, n), pos + |Varint(n)|))
  {
    RangeConstants();
    VarintBack(b, pos, n);
    assert b[pos] == b[pos..pos + |Varint(n)|][0] == Varint(n)[0];
  }

  lemma SegwitHeadBack(b: bytes, pos: nat, f: byte, n: nat)
    requires f != 0 && n <= MAX_ITEMS && LiesAt(b, pos, [0, f]) && LiesAt(b, pos + 2, Varint(n))
    ensures ReadHead(b, pos) == Ok(((Some(f), n), pos + 2 + |Varint(n)|))
  {
    hide ReadCount;
    hide Varint;
    assert b[pos] == b[pos..pos + 2][0] && b[pos + 1] == b[pos..pos + 2][1];
    CountBack(b, pos + 2, n);
  }

  /** The count stands at `pos`; from `p` the inputs, then the outputs, read back. */
  ghost predicate BodyReads(b: bytes, pos: nat, raw: RawTx, p: nat)
    requires Encodable(raw)
  {
    && LiesAt(b, pos, Varint(|raw.ins|))
    && var ins := ParseIns(b, p, |raw.ins|);
    && ins.Ok? && ins.value.0 == raw.ins
    && ParseOuts(b, ins.value.1) == Ok((raw.outs, pos + |Body(raw)|))
  }

  /** Inputs and outputs, after the head has been read. */
  lemma BodyBack(b: bytes, pos: nat, raw: RawTx)
    requires Encodable(raw) && LiesAt(b, pos, Body(raw))
    ensures BodyReads(b, pos, raw, pos + |Varint(|raw.ins|)|)
  {
    hide Varint;
    hide ParseIns;
    hide ParseOuts;
    hide Concat;
    var v, i, o := Varint(|raw.ins|), Concat(InBytes, raw.ins), Varint(|raw.outs|) + Concat(OutBytes, raw.outs);
    SplitAt(b, pos, v, i + o);
    SplitAt(b, pos + |v|, i, o);
    InsBack(b, pos + |v|, raw.ins);
    OutsBack(b, pos + |v| + |i|, raw.outs);
  }

  lemma EndsBack(b: bytes, start: nat, end: nat, raw: RawTx)
    requires LiesAt(b, start, VersionBytes(raw)) && LiesAt(b, end, LockBytes(raw))
    ensures ReadU32(b, start) == Ok((Unsigned(raw.version), start + 4))
    ensures ReadU32(b, end) == Ok((raw.locktime, end + 4))
  {
    RangeConstants();
    U32Back(b, start, Unsigned(raw.version));
    U32Back(b, end, raw.locktime);
  }

  /** Parsing a written transaction, whatever follows it, returns it and consumes exactly its bytes. */
  lemma TxRoundTrip(b: bytes, pos: nat, raw: RawTx)
    requires Encodable(raw) && LiesAt(b, pos, TxBytes(raw))
    ensures ParseTx(b, pos) == Ok((Expected(raw), pos + |TxBytes(raw)|))
  {
    if raw.flag.None? { LegacyRoundTrip(b, pos, raw); } else { SegwitRoundTrip(b, pos, raw); }
  }

  lemma LegacyRoundTrip(b: bytes, pos: nat, raw: RawTx)
    requires Encodable(raw) && raw.flag.None? && LiesAt(b, pos, TxBytes(raw))
    ensures ParseTx(b, pos) == Ok((Expected(raw), pos + |TxBytes(raw)|))
  {
    hide Varint;
    hide ParseIns;
    hide ParseOuts;
    hide ReadHead;
    hide Body;
    hide ReadU32;
    hide VersionBytes;
    hide LockBytes;
    var v, body, l := VersionBytes(raw), Body(raw), LockBytes(raw);
    SplitAt(b, pos, v, body + l);
    SplitAt(b, pos + 4, body, l);
    EndsBack(b, pos, pos + 4 + |body|, raw);
    BodyBack(b, pos + 4, raw);
    LegacyHeadBack(b, pos + 4, |raw.ins|);
  }

  lemma SplitFive(b: bytes, pos: nat, v: bytes, m: bytes, body: bytes, w: bytes, l: bytes)
    requires LiesAt(b, pos, v + (m + (body + (w + l))))
    ensures LiesAt(b, pos, v) && LiesAt(b, pos + |v|, m) && LiesAt(b, pos + |v| + |m|, body)
    ensures LiesAt(b, pos + |v| + |m| + |body|, w) && LiesAt(b, pos + |v| + |m| + |body| + |w|, l)
    ensures pos + |v| + |m| + |body| + |w| + |l| <= |b|
  {
    SplitAt(b, pos, v, m + (body + (w + l)));
    SplitAt(b, pos + |v|, m, body + (w + l));
    SplitAt(b, pos + |v| + |m|, body, w + l);
    SplitAt(b, pos + |v| + |m| + |body|, w, l);
  }

  lemma PreimageOfPieces(b: bytes, pos: nat, v: bytes, body: bytes, l: bytes, end: nat)
    requires |v| == 4 == |l| && pos + 6 + |body| + 4 <= end <= |b|
    requires LiesAt(b, pos, v) && LiesAt(b, pos + 6, body) && LiesAt(b, end - 4, l)
    ensures Preimage(b, pos, pos + 6 + |body|, end, true) == v + (body + l)
  {
  }

  /** A transaction read piece by piece. */
  lemma PiecesParse(b: bytes, pos: nat, raw: RawTx, p1: nat, p2: nat, p3: nat, p4: nat)
    requires ReadU32(b, pos) == Ok((Unsigned(raw.version), pos + 4))
    requires ReadHead(b, pos + 4) == Ok(((raw.flag, |raw.ins|), p1))
    requires ParseIns(b, p1, |raw.ins|) == Ok((raw.ins, p2)) && ParseOuts(b, p2) == Ok((raw.outs, p3))
    requires ParseWitness(b, p3, raw.flag.Some?, |raw.ins|) == Ok((raw.stacks, p4))
    requires ReadU32(b, p4) == Ok((raw.locktime, p4 + 4))
    ensures pos <= p3 <= p4 + 4 <= |b|
    ensures ParseTx(b, pos) ==
      Ok((TxParse(raw, Preimage(b, pos, p3, p4 + 4, raw.flag.Some?), p4 + 4 - pos), p4 + 4))
  {
    hide Preimage;
    hide ReadHead;
    hide ReadU32;
    hide ParseIns;
    hide ParseOuts;
    hide ParseWitness;
    hide Signed;
    hide Unsigned;
    hide Shaped;
  }

  /** Where the pieces of a written witness transaction lie. */
  ghost predicate PiecesLie(b: bytes, pos: nat, raw: RawTx, atWitness: nat, end: nat)
    requires Encodable(raw) && raw.flag.Some?
  {
    && LiesAt(b, pos, VersionBytes(raw)) && LiesAt(b, pos + 4, [0, raw.flag.value])
    && LiesAt(b, pos + 6, Body(raw)) && atWitness == pos + 6 + |Body(raw)|
    && LiesAt(b, atWitness, Concat(StackBytes, raw.stacks))
    && end == atWitness + |Concat(StackBytes, raw.stacks)| + 4 && LiesAt(b, end - 4, LockBytes(raw))
    && end == pos + |TxBytes(raw)| && end <= |b|
  }

  lemma SegwitPieces(b: bytes, pos: nat, raw: RawTx) returns (atWitness: nat, end: nat)
    requires Encodable(raw) && raw.flag.Some? && LiesAt(b, pos, TxBytes(raw))
    ensures PiecesLie(b, pos, raw, atWitness, end)
  {
    hide Body;
    hide Concat;
    hide VersionBytes;
    hide LockBytes;
    hide LiesAt;
    var v, m, body, w, l :=
      VersionBytes(raw), [0, raw.flag.value], Body(raw), Concat(StackBytes, raw.stacks), LockBytes(raw);
    SplitFive(b, pos, v, m, body, w, l);
    atWitness, end := pos + 6 + |body|, pos + 6 + |body| + |w| + 4;
  }

  lemma SegwitPreimage(b: bytes, pos: nat, raw: RawTx, atWitness: nat, end: nat)
    requires Encodable(raw) && raw.flag.Some? && PiecesLie(b, pos, raw, atWitness, end)
    ensures Preimage(b, pos, atWitness, end, true) == StrippedBytes(raw)
  {
    hide Body;
    hide Concat;
    hide VersionBytes;
    hide LockBytes;
    hide LiesAt;
    hide Preimage;
    hide TxBytes;
    PreimageOfPieces(b, pos, VersionBytes(raw), Body(raw), LockBytes(raw), end);
  }

  lemma SegwitRoundTrip(b: bytes, pos: nat, raw: RawTx)
    requires Encodable(raw) && raw.flag.Some? && LiesAt(b, pos, TxBytes(raw))
    ensures ParseTx(b, pos) == Ok((Expected(raw), pos + |TxBytes(raw)|))
  {
    hide Varint;
    hide ParseIns;
    hide ParseOuts;
    hide ParseWitness;
    hide ReadHead;
    hide Body;
    hide ReadU32;
    hide Concat;
    hide VersionBytes;
    hide LockBytes;
    hide Preimage;
    hide LiesAt;
    hide ParseTx;
    hide TxBytes;
    hide StrippedBytes;
    var atWitness, end := SegwitPieces(b, pos, raw);
    EndsBack(b, pos, end - 4, raw);
    BodyBack(b, pos + 6, raw);
    SegwitHeadBack(b, pos + 4, raw.flag.value, |raw.ins|);
    StacksBack(b, atWitness, raw.stacks);
    var p := pos + 6 + |Varint(|raw.ins|)|;
    PiecesParse(b, pos, raw, p, ParseIns(b, p, |raw.ins|).value.1, atWitness, end - 4);
    SegwitPreimage(b, pos, raw, atWitness, end);
  }

  // ---- Blocks ----

  /** Parsed transactions lie inside the payload, number `n`, and have the shape their rows need. */
  lemma {:induction false} TxsParsed(b: bytes, pos: nat, n: nat)
    ensures var r := ParseMany(ParseTx, b, pos, n);
      pos <= |b| && r.Ok? ==>
        && pos <= r.value.1 <= |b| && |r.value.0| == n
        && forall t :: t in r.value.0 ==> Shaped(t.raw)
  {
    hide ParseTx;
    hide Shaped;
    if n > 0 { TxsParsed(b, pos, n - 1); }
  }

  /** The transactions of a block payload and the position after the last one. */
  function ParseBlock(b: bytes): (r: Parsed<seq<TxParse>>)
    ensures r.Ok? ==> r.value.1 <= |b| && |r.value.0| <= MAX_ITEMS
    ensures r.Ok? ==> forall t :: t in r.value.0 ==> Shaped(t.raw)
  {
    if |b| < BLOCK_HEADER_LEN then Err(Eof)
    else
      var (n, p) :- ReadCount(b, BLOCK_HEADER_LEN);
      TxsParsed(b, p, n);
      ParseMany(ParseTx, b, p, n)
  }

  predicate AllEncodable(raws: seq<RawTx>) {
    forall raw :: raw in raws ==> Encodable(raw)
  }

  function TxsBytes(raws: seq<RawTx>): bytes
    requires AllEncodable(raws)
  {
    if |raws| == 0 then []
    else
      var n := |raws| - 1;
      assert raws[n] in raws;
      TxsBytes(raws[..n]) + TxBytes(raws[n])
  }

  function AllExpected(raws: seq<RawTx>): (ts: seq<TxParse>)
    requires AllEncodable(raws)
    ensures |ts| == |raws|
    ensures forall i :: 0 <= i < |raws| ==> ts[i] == Expected(raws[i])
  {
    seq(|raws|, i requires 0 <= i < |raws| => assert raws[i] in raws; Expected(raws[i]))
  }

  lemma {:induction false} TxsBack(b: bytes, pos: nat, raws: seq<RawTx>)
    requires AllEncodable(raws) && LiesAt(b, pos, TxsBytes(raws))
    ensures ParseMany(ParseTx, b, pos, |raws|) == Ok((AllExpected(raws), pos + |TxsBytes(raws)|))
    decreases |raws|
  {
    hide ParseTx;
    hide TxBytes;
    hide Expected;
    if |raws| > 0 {
      var n := |raws| - 1;
      assert raws[n] in raws;
      var front := TxsBytes(raws[..n]);
      SplitAt(b, pos, front, TxBytes(raws[n]));
      TxsBack(b, pos, raws[..n]);
      TxRoundTrip(b, pos + |front|, raws[n]);
      assert AllExpected(raws) == AllExpected(raws[..n]) + [Expected(raws[n])];
    }
  }

  /** A block payload as written. */
  function BlockBytes(header: bytes, raws: seq<RawTx>): bytes
    requires AllEncodable(raws) && |raws| <= MAX_ITEMS
  {
    header + (Varint(|raws|) + TxsBytes(raws))
  }

  /** Parsing a written block returns its transactions in order and consumes every byte. */
  lemma BlockRoundTrip(header: bytes, raws: seq<RawTx>)
    requires |header| == BLOCK_HEADER_LEN && AllEncodable(raws) && |raws| <= MAX_ITEMS
    ensures ParseBlock(BlockBytes(header, raws)) == Ok((AllExpected(raws), |BlockBytes(header, raws)|))
  {
    hide Varint;
    hide ReadCount;
    hide TxsBytes;
    hide AllExpected;
    hide ParseMany;
    var b, v, t := BlockBytes(header, raws), Varint(|raws|), TxsBytes(raws);
    assert LiesAt(b, 0, b);
    SplitAt(b, 0, header, v + t);
    SplitAt(b, BLOCK_HEADER_LEN, v, t);
    CountBack(b, BLOCK_HEADER_LEN, |raws|);
    TxsBack(b, BLOCK_HEADER_LEN + |v|, raws);
  }
}
