// Transactions on the wire (BIP 144): parsing, writing, and the witness-free serialization.
module TxSyntax {
  import opened Wrappers
  import opened Bytes
  import opened Wire
  import opened UndoCodec

  const MAX_MONEY: nat := 21_000_000 * 100_000_000

  type i32 = x: int | -0x8000_0000 <= x < 0x8000_0000

  /** A byte string the item limit admits. */
  type Blob = s: bytes | |s| <= MAX_ITEMS

  /** The witness stack of one input. */
  type Stack = w: seq<Blob> | |w| <= MAX_ITEMS

  type Money = v: nat | v <= MAX_MONEY

  datatype TxIn = TxIn(prevTxid: Hash, prevVout: u32, scriptSig: Blob, sequence: u32)

  datatype TxOut = TxOut(value: Money, script: Blob)

  /** `flag` is present exactly for the witness form. */
  datatype RawTx = RawTx(
    version: i32, flag: Option<byte>, ins: seq<TxIn>, outs: seq<TxOut>, stacks: seq<Stack>, locktime: u32)

  /** A parsed transaction, the bytes its txid hashes, and its full length. */
  datatype TxParse = TxParse(raw: RawTx, preimage: bytes, totalLen: nat)

  function Signed(v: u32): i32 {
    if v < 0x8000_0000 then v else v - U32_RANGE
  }

  function Unsigned(v: i32): (u: u32)
    ensures Signed(u) == v
  {
    if v >= 0 then v else v + U32_RANGE
  }

  // ---- Parsing ----

  function ReadU32(b: bytes, pos: nat): (r: Parsed<u32>)
    ensures r.Ok? ==> r.value.1 == pos + 4 <= |b|
  {
    RangeConstants();
    var (v, p) :- ReadLe(b, pos, 4);
    Ok((v, p))
  }

  /** A length-prefixed byte string. */
  function ReadScript(b: bytes, pos: nat): (r: Parsed<Blob>)
    ensures r.Ok? ==> pos < r.value.1 <= |b|
  {
    var (n, p) :- ReadCount(b, pos);
    var (s, q) :- ReadBytes(b, p, n);
    Ok((s, q))
  }

  function ParseIn(b: bytes, pos: nat): (r: Parsed<TxIn>)
    ensures r.Ok? ==> pos < r.value.1 <= |b|
  {
    var (txid, p1) :- ReadBytes(b, pos, 32);
    var (vout, p2) :- ReadU32(b, p1);
    var (script, p3) :- ReadScript(b, p2);
    var (sequence, p4) :- ReadU32(b, p3);
    Ok((TxIn(txid, vout, script, sequence), p4))
  }

  function ParseOut(b: bytes, pos: nat): (r: Parsed<TxOut>)
    ensures r.Ok? ==> pos < r.value.1 <= |b|
  {
    RangeConstants();
    var (v, p1) :- ReadLe(b, pos, 8);
    if v > MAX_MONEY then Err(BadValue(v))
    else
      var (script, p2) :- ReadScript(b, p1);
      Ok((TxOut(v, script), p2))
  }

  function ParseStack(b: bytes, pos: nat): (r: Parsed<Stack>)
    ensures r.Ok? ==> pos < r.value.1 <= |b|
  {
    var (n, p) :- ReadCount(b, pos);
    var (items, q) :- ParseMany(ReadScript, b, p, n);
    ManyCount(ReadScript, b, p, n);
    ManyInside(ReadScript, b, p, n);
    Ok((items, q))
  }

  /** A run of reads that each stay inside the data stays inside too. */
  lemma {:induction false} ManyInside<T>(p: Parser<T>, b: bytes, pos: nat, n: nat)
    requires forall q: nat :: q <= |b| && p(b, q).Ok? ==> q <= p(b, q).value.1 <= |b|
    ensures pos <= |b| && ParseMany(p, b, pos, n).Ok? ==> pos <= ParseMany(p, b, pos, n).value.1 <= |b|
  {
    if n > 0 { ManyInside(p, b, pos, n - 1); }
  }

  /**
   * Marker, flag and input count. Without a marker the first byte already
   * belongs to the count, and only the 9-byte form is checked against the limit.
   */
  function ReadHead(b: bytes, pos: nat): (r: Parsed<(Option<byte>, u32)>)
    ensures r.Ok? ==> pos < r.value.1 <= |b|
    ensures r.Ok? && r.value.0.0.Some? ==> pos + 2 < r.value.1
  {
    RangeConstants();
    if pos >= |b| then Err(Eof)
    else if b[pos] == 0 then
      if pos + 1 >= |b| then Err(Eof)
      else if b[pos + 1] == 0 then Err(BadSegwitFlag)
      else
        var (n, p) :- ReadCount(b, pos + 2);
        Ok(((Some(b[pos + 1]), n), p))
    else
      var (n, p) :- LegacyCount(b, pos);
      Ok(((None, n), p))
  }

  function LegacyCount(b: bytes, pos: nat): (r: Parsed<u32>)
    requires pos < |b|
    ensures r.Ok? ==> pos < r.value.1 <= |b|
  {
    RangeConstants();
    var w := VarintTail(b[pos]);
    if w == 0 then Ok((b[pos], pos + 1))
    else
      var (n, p) :- ReadLe(b, pos + 1, w);
      if w == 8 && n > MAX_ITEMS then Err(CountOverflow(n)) else Ok((n, p))
  }

  function ParseIns(b: bytes, pos: nat, n: nat): (r: Parsed<seq<TxIn>>)
    ensures pos <= |b| && r.Ok? ==> pos <= r.value.1 <= |b| && |r.value.0| == n
  {
    ManyInside(ParseIn, b, pos, n);
    ManyCount(ParseIn, b, pos, n);
    ParseMany(ParseIn, b, pos, n)
  }

  function ParseOuts(b: bytes, pos: nat): (r: Parsed<seq<TxOut>>)
    ensures pos <= |b| && r.Ok? ==> pos < r.value.1 <= |b| && |r.value.0| <= MAX_ITEMS
  {
    var (n, p) :- ReadCount(b, pos);
    ManyInside(ParseOut, b, p, n);
    ManyCount(ParseOut, b, p, n);
    ParseMany(ParseOut, b, p, n)
  }

  function ParseWitness(b: bytes, pos: nat, present: bool, n: nat): (r: Parsed<seq<Stack>>)
    ensures pos <= |b| && r.Ok? ==> pos <= r.value.1 <= |b| && |r.value.0| == if present then n else 0
  {
    if !present then Ok(([], pos))
    else
      ManyInside(ParseStack, b, pos, n);
      ManyCount(ParseStack, b, pos, n);
      ParseMany(ParseStack, b, pos, n)
  }

  /** The three slices hashed for a witness transaction; everything otherwise. */
  function Preimage(b: bytes, start: nat, prefixEnd: nat, end: nat, segwit: bool): (s: bytes)
    requires start <= prefixEnd <= |b| && prefixEnd + 4 <= end <= |b| && (segwit ==> start + 6 <= prefixEnd)
    ensures |s| == if segwit then prefixEnd - start + 2 else end - start
  {
    if segwit then b[start..start + 4] + b[start + 6..prefixEnd] + b[end - 4..end] else b[start..end]
  }

  /** Row counts fit their fields, and only the witness form carries stacks, one per input. */
  predicate Shaped(raw: RawTx) {
    && |raw.ins| < U32_RANGE && |raw.outs| <= MAX_ITEMS
    && |raw.stacks| == if raw.flag.Some? then |raw.ins| else 0
  }

  function ParseTx(b: bytes, pos: nat): (r: Parsed<TxParse>)
    ensures r.Ok? ==> Shaped(r.value.0.raw)
    ensures r.Ok? ==> pos < r.value.1 <= |b| && r.value.0.totalLen == r.value.1 - pos
    ensures r.Ok? && r.value.0.raw.flag.Some? ==> pos + 6 < |b|
  {
    var (version, p0) :- ReadU32(b, pos);
    var (head, p1) :- ReadHead(b, p0);
    var (ins, p2) :- ParseIns(b, p1, head.1);
    var (outs, p3) :- ParseOuts(b, p2);
    var (stacks, p4) :- ParseWitness(b, p3, head.0.Some?, head.1);
    var (locktime, p5) :- ReadU32(b, p4);
    Ok((TxParse(RawTx(Signed(version), head.0, ins, outs, stacks, locktime),
                Preimage(b, pos, p3, p5, head.0.Some?), p5 - pos), p5))
  }

  // ---- Reads move with their bytes ----

  lemma U32Moved(b: bytes, pos: nat, c: bytes, d: int)
    requires pos + 4 <= |b| && Moved(b, pos, pos + 4, c, d)
    ensures MovesTo(ReadU32(b, pos), ReadU32(c, pos + d), d)
  {
    LeMoved(b, pos, 4, c, d);
  }

  lemma ScriptMoved(b: bytes, pos: nat, c: bytes, d: int)
    requires ReadScript(b, pos).Ok? && Moved(b, pos, ReadScript(b, pos).value.1, c, d)
    ensures 0 <= pos + d && MovesTo(ReadScript(b, pos), ReadScript(c, pos + d), d)
  {
    hide ReadCount;
    var (n, p) := ReadCount(b, pos).value;
    MovedPart(b, pos, p + n, c, d, pos, p);
    CountMoved(b, pos, c, d);
    BytesMoved(b, p, n, c, d);
  }

  lemma InMoved(b: bytes, pos: nat, c: bytes, d: int)
    requires ParseIn(b, pos).Ok? && Moved(b, pos, ParseIn(b, pos).value.1, c, d)
    ensures 0 <= pos + d && MovesTo(ParseIn(b, pos), ParseIn(c, pos + d), d)
  {
    hide ReadScript;
    hide ReadU32;
    var end := ParseIn(b, pos).value.1;
    var p3 := ReadScript(b, pos + 36).value.1;
    BytesMoved(b, pos, 32, c, d);
    U32Moved(b, pos + 32, c, d);
    MovedPart(b, pos, end, c, d, pos + 36, p3);
    ScriptMoved(b, pos + 36, c, d);
    MovedPart(b, pos, end, c, d, p3, end);
    U32Moved(b, p3, c, d);
  }

  lemma OutMoved(b: bytes, pos: nat, c: bytes, d: int)
    requires ParseOut(b, pos).Ok? && Moved(b, pos, ParseOut(b, pos).value.1, c, d)
    ensures 0 <= pos + d && MovesTo(ParseOut(b, pos), ParseOut(c, pos + d), d)
  {
    hide ReadScript;
    var end := ParseOut(b, pos).value.1;
    LeMoved(b, pos, 8, c, d);
    MovedPart(b, pos, end, c, d, pos + 8, end);
    ScriptMoved(b, pos + 8, c, d);
  }

  lemma InsLocal()
    ensures Local(ParseIn)
  {
    forall b, pos: nat, c, d | 0 <= pos + d && pos <= |b| ensures MovesHere(ParseIn, b, pos, c, d) {
      if ParseIn(b, pos).Ok? && Moved(b, pos, ParseIn(b, pos).value.1, c, d) { InMoved(b, pos, c, d); }
    }
  }

  lemma OutsLocal()
    ensures Local(ParseOut)
  {
    forall b, pos: nat, c, d | 0 <= pos + d && pos <= |b| ensures MovesHere(ParseOut, b, pos, c, d) {
      if ParseOut(b, pos).Ok? && Moved(b, pos, ParseOut(b, pos).value.1, c, d) { OutMoved(b, pos, c, d); }
    }
  }

  lemma InsMoved(b: bytes, pos: nat, n: nat, c: bytes, d: int)
    requires pos <= |b| && ParseIns(b, pos, n).Ok? && Moved(b, pos, ParseIns(b, pos, n).value.1, c, d)
    ensures MovesTo(ParseIns(b, pos, n), ParseIns(c, pos + d, n), d)
  {
    InsLocal();
    ManyMoves(ParseIn, b, pos, n, c, d);
  }

  lemma OutsMoved(b: bytes, pos: nat, c: bytes, d: int)
    requires pos <= |b| && ParseOuts(b, pos).Ok? && Moved(b, pos, ParseOuts(b, pos).value.1, c, d)
    ensures MovesTo(ParseOuts(b, pos), ParseOuts(c, pos + d), d)
  {
    hide ReadCount;
    hide ParseMany;
    var (n, p) := ReadCount(b, pos).value;
    ManyInside(ParseOut, b, p, n);
    MovedPart(b, pos, ParseOuts(b, pos).value.1, c, d, pos, p);
    CountMoved(b, pos, c, d);
    OutsLocal();
    ManyMoves(ParseOut, b, p, n, c, d);
  }

  /** A count read after marker and flag is the legacy count once its first byte is non-zero. */
  lemma HeadStripped(b: bytes, pos: nat, c: bytes, d: int)
    requires ReadCount(b, pos).Ok? && Moved(b, pos, ReadCount(b, pos).value.1, c, d) && b[pos] != 0
    ensures var (n, p) := ReadCount(b, pos).value; ReadHead(c, pos + d) == Ok(((None, n), p + d))
  {
    assert c[pos + d] == b[pos];
    var w := VarintTail(b[pos]);
    if w > 0 { LeMoved(b, pos + 1, w, c, d); }
  }
}
