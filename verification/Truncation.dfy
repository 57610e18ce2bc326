// A parse depends only on the bytes it consumes, so nothing shorter parses.
module Truncation {
  import opened Wrappers
  import opened Bytes
  import opened Rows
  import opened Wire
  import opened TxSyntax
  import opened TxLaws
  import UndoCodec

  // ---- A transaction moves with its bytes ----

  lemma HeadMoved(b: bytes, pos: nat, c: bytes, d: int)
    requires ReadHead(b, pos).Ok? && 0 <= pos + d && Moved(b, pos, ReadHead(b, pos).value.1, c, d)
    ensures MovesTo(ReadHead(b, pos), ReadHead(c, pos + d), d)
  {
    hide ReadCount;
    hide LegacyCount;
    var end := ReadHead(b, pos).value.1;
    assert c[pos + d] == b[pos];
    if b[pos] == 0 {
      assert c[pos + 1 + d] == b[pos + 1];
      MovedPart(b, pos, end, c, d, pos + 2, end);
      CountMoved(b, pos + 2, c, d);
    } else {
      LegacyMoved(b, pos, c, d);
    }
  }

  lemma LegacyMoved(b: bytes, pos: nat, c: bytes, d: int)
    requires pos < |b| && 0 <= pos + d < |c| && LegacyCount(b, pos).Ok?
    requires Moved(b, pos, LegacyCount(b, pos).value.1, c, d)
    ensures MovesTo(LegacyCount(b, pos), LegacyCount(c, pos + d), d)
  {
    assert c[pos + d] == b[pos];
    var w := UndoCodec.VarintTail(b[pos]);
    if w > 0 { LeMoved(b, pos + 1, w, c, d); }
  }

  lemma StackMoved(b: bytes, pos: nat, c: bytes, d: int)
    requires pos <= |b| && ParseStack(b, pos).Ok? && Moved(b, pos, ParseStack(b, pos).value.1, c, d)
    ensures 0 <= pos + d && MovesTo(ParseStack(b, pos), ParseStack(c, pos + d), d)
  {
    hide ReadCount;
    hide ReadScript;
    hide ParseMany;
    var (n, p) := ReadCount(b, pos).value;
    ManyInside(ReadScript, b, p, n);
    MovedPart(b, pos, ParseStack(b, pos).value.1, c, d, pos, p);
    CountMoved(b, pos, c, d);
    ScriptsLocal();
    ManyMoves(ReadScript, b, p, n, c, d);
  }

  lemma ScriptsLocal()
    ensures Local(ReadScript)
  {
    hide ReadScript;
    forall b, pos: nat, c, d | 0 <= pos + d && pos <= |b| ensures MovesHere(ReadScript, b, pos, c, d) {
      if ReadScript(b, pos).Ok? && Moved(b, pos, ReadScript(b, pos).value.1, c, d) { ScriptMoved(b, pos, c, d); }
    }
  }

  lemma StacksLocal()
    ensures Local(ParseStack)
  {
    hide ParseStack;
    forall b, pos: nat, c, d | 0 <= pos + d && pos <= |b| ensures MovesHere(ParseStack, b, pos, c, d) {
      if ParseStack(b, pos).Ok? && Moved(b, pos, ParseStack(b, pos).value.1, c, d) { StackMoved(b, pos, c, d); }
    }
  }

  lemma WitnessMoved(b: bytes, pos: nat, present: bool, n: nat, c: bytes, d: int)
    requires pos <= |b| && 0 <= pos + d && ParseWitness(b, pos, present, n).Ok?
    requires Moved(b, pos, ParseWitness(b, pos, present, n).value.1, c, d)
    ensures MovesTo(ParseWitness(b, pos, present, n), ParseWitness(c, pos + d, present, n), d)
  {
    hide ParseStack;
    if present {
      StacksLocal();
      ManyMoves(ParseStack, b, pos, n, c, d);
    }
  }

  lemma PreimageKept(b: bytes, start: nat, prefixEnd: nat, end: nat, segwit: bool, c: bytes, d: int)
    requires start <= prefixEnd && prefixEnd + 4 <= end <= |b| && (segwit ==> start + 6 <= prefixEnd)
    requires Moved(b, start, end, c, d)
    ensures Preimage(c, start + d, prefixEnd + d, end + d, segwit) == Preimage(b, start, prefixEnd, end, segwit)
  {
    hide Moved;
    if segwit {
      MovedPart(b, start, end, c, d, start, start + 4);
      MovedPart(b, start, end, c, d, start + 6, prefixEnd);
      MovedPart(b, start, end, c, d, end - 4, end);
      MovedSlice(b, start, start + 4, c, d);
      MovedSlice(b, start + 6, prefixEnd, c, d);
      MovedSlice(b, end - 4, end, c, d);
    } else {
      MovedSlice(b, start, end, c, d);
    }
  }

  lemma TxMoved(b: bytes, pos: nat, c: bytes, d: int)
    requires pos <= |b| && 0 <= pos + d && ParseTx(b, pos).Ok? && Moved(b, pos, ParseTx(b, pos).value.1, c, d)
    ensures MovesTo(ParseTx(b, pos), ParseTx(c, pos + d), d)
  {
    hide ReadU32;
    hide ReadHead;
    hide ParseIns;
    hide ParseOuts;
    hide ParseWitness;
    hide Preimage;
    hide Moved;
    var end := ParseTx(b, pos).value.1;
    var p0 := ReadU32(b, pos).value.1;
    var (head, p1) := ReadHead(b, p0).value;
    var p2 := ParseIns(b, p1, head.1).value.1;
    var p3 := ParseOuts(b, p2).value.1;
    var p4 := ParseWitness(b, p3, head.0.Some?, head.1).value.1;
    MovedPart(b, pos, end, c, d, pos, p0);
    U32Moved(b, pos, c, d);
    MovedPart(b, pos, end, c, d, p0, p1);
    HeadMoved(b, p0, c, d);
    MovedPart(b, pos, end, c, d, p1, p2);
    InsMoved(b, p1, head.1, c, d);
    MovedPart(b, pos, end, c, d, p2, p3);
    OutsMoved(b, p2, c, d);
    MovedPart(b, pos, end, c, d, p3, p4);
    WitnessMoved(b, p3, head.0.Some?, head.1, c, d);
    MovedPart(b, pos, end, c, d, p4, end);
    U32Moved(b, p4, c, d);
    PreimageKept(b, pos, p3, end, head.0.Some?, c, d);
  }

  lemma TxsLocal()
    ensures Local(ParseTx)
  {
    hide ParseTx;
    forall b, pos: nat, c, d | 0 <= pos + d && pos <= |b| ensures MovesHere(ParseTx, b, pos, c, d) {
      if ParseTx(b, pos).Ok? && Moved(b, pos, ParseTx(b, pos).value.1, c, d) { TxMoved(b, pos, c, d); }
    }
  }

  // ---- Blocks ----

  lemma BlockMoved(b: bytes, c: bytes)
    requires ParseBlock(b).Ok? && Moved(b, 0, ParseBlock(b).value.1, c, 0)
    ensures ParseBlock(c) == ParseBlock(b)
  {
    hide ReadCount;
    hide ParseTx;
    hide ParseMany;
    var end := ParseBlock(b).value.1;
    var (n, p) := ReadCount(b, BLOCK_HEADER_LEN).value;
    TxsLocal();
    TxsParsed(b, p, n);
    MovedPart(b, 0, end, c, 0, BLOCK_HEADER_LEN, p);
    CountMoved(b, BLOCK_HEADER_LEN, c, 0);
    MovedPart(b, 0, end, c, 0, p, end);
    ManyMoves(ParseTx, b, p, n, c, 0);
  }

  /**
   * What a payload parses to is fixed by the bytes up to the end of its last transaction:
   * cut anywhere before that it fails, cut anywhere after it parses the same.
   */
  lemma CutPayload(b: bytes, k: nat)
    requires ParseBlock(b).Ok? && k <= |b|
    ensures if k < ParseBlock(b).value.1 then ParseBlock(b[..k]).Err? else ParseBlock(b[..k]) == ParseBlock(b)
  {
    hide ParseBlock;
    if ParseBlock(b[..k]).Ok? {
      BlockMoved(b[..k], b);
    } else if ParseBlock(b).value.1 <= k {
      BlockMoved(b, b[..k]);
    }
  }

  /** Bytes after the last transaction change nothing. */
  lemma TrailingBytes(b: bytes, rest: bytes)
    requires ParseBlock(b).Ok?
    ensures ParseBlock(b + rest) == ParseBlock(b)
  {
    hide ParseBlock;
    BlockMoved(b, b + rest);
  }

  /** A count above the number of transactions present is an error. */
  lemma {:induction false} MissingTransactions(header: bytes, raws: seq<RawTx>, n: u64)
    requires |header| == BLOCK_HEADER_LEN && AllEncodable(raws) && |raws| < n <= 4_000_000
    ensures ParseBlock(header + (UndoCodec.Varint(n) + TxsBytes(raws))) == Err(Eof)
  {
    hide UndoCodec.Varint;
    hide ReadCount;
    hide TxsBytes;
    hide AllExpected;
    hide ParseTx;
    hide ParseMany;
    hide TxBytes;
    var v, t := UndoCodec.Varint(n), TxsBytes(raws);
    var b := header + (v + t);
    assert LiesAt(b, 0, b);
    SplitAt(b, 0, header, v + t);
    SplitAt(b, BLOCK_HEADER_LEN, v, t);
    CountBack(b, BLOCK_HEADER_LEN, n);
    TxsBack(b, BLOCK_HEADER_LEN + |v|, raws);
    RunsOut(b, BLOCK_HEADER_LEN + |v|, |raws|, n);
  }

  lemma NothingLeft(b: bytes)
    ensures ParseTx(b, |b|) == Err(Eof)
  {
  }

  lemma {:induction false} RunsOut(b: bytes, pos: nat, k: nat, n: nat)
    requires k < n && ParseMany(ParseTx, b, pos, k).Ok? && ParseMany(ParseTx, b, pos, k).value.1 == |b|
    ensures ParseMany(ParseTx, b, pos, n) == Err(Eof)
  {
    hide ParseTx;
    NothingLeft(b);
    assert ParseMany(ParseTx, b, pos, k + 1) == Err(Eof);
    ManyFails(ParseTx, b, pos, k + 1, n);
  }

  // ---- Marker and flag ----

  /** A zero where the input count should be is a marker: the byte after it is a flag, and not zero. */
  lemma MarkerAndFlag(b: bytes, pos: nat)
    requires pos + 6 <= |b|
    ensures b[pos + 4] == 0 == b[pos + 5] ==> ParseTx(b, pos) == Err(BadSegwitFlag)
    ensures ParseTx(b, pos).Ok? ==>
      ParseTx(b, pos).value.0.raw.flag == if b[pos + 4] == 0 then Some(b[pos + 5]) else None
  {
    hide ReadCount;
    hide LegacyCount;
    hide ParseIns;
    hide ParseOuts;
    hide ParseWitness;
  }

  // ---- Undo records ----

  /** `r'` reads the same value as `r` and leaves `t` more. */
  ghost predicate Extends<T(!new)>(r: Option<(T, bytes)>, r': Option<(T, bytes)>, t: bytes) {
    r.Some? ==> r' == Some((r.value.0, r.value.1 + t))
  }

  lemma VarintExtends(b: bytes, t: bytes)
    ensures Extends(UndoCodec.ReadVarint(b), UndoCodec.ReadVarint(b + t), t)
  {
    if UndoCodec.ReadVarint(b).Some? {
      var w := UndoCodec.VarintTail(b[0]);
      assert (b + t)[1..] == b[1..] + t;
      assert (b[1..] + t)[..w] == b[1..][..w] && (b[1..] + t)[w..] == b[1..][w..] + t;
    }
  }

  lemma {:induction false} SpentExtends(b: bytes, n: nat, t: bytes)
    ensures Extends(UndoCodec.ReadSpent(b, n), UndoCodec.ReadSpent(b + t, n), t)
    decreases n
  {
    hide UndoCodec.DecodeValue;
    if n > 0 && |b| >= 81 {
      SpentExtends(b[81..], n - 1, t);
      assert (b + t)[81..] == b[81..] + t && (b + t)[36..81] == b[36..81] && (b + t)[..36] == b[..36];
    }
  }

  lemma {:induction false} CreatedExtends(b: bytes, n: nat, t: bytes)
    ensures Extends(UndoCodec.ReadCreated(b, n), UndoCodec.ReadCreated(b + t, n), t)
    decreases n
  {
    if n > 0 && |b| >= 36 {
      CreatedExtends(b[36..], n - 1, t);
      assert (b + t)[36..] == b[36..] + t && (b + t)[..36] == b[..36];
    }
  }

  /** What follows the record. */
  function LeftOver(b: bytes): bytes
    requires UndoCodec.UndoOf(b).Some?
  {
    var (nSpent, b1) := UndoCodec.ReadVarint(b).value;
    var (_, b2) := UndoCodec.ReadSpent(b1, nSpent).value;
    var (nCreated, b3) := UndoCodec.ReadVarint(b2).value;
    UndoCodec.ReadCreated(b3, nCreated).value.1
  }

  lemma UndoExtends(b: bytes, t: bytes)
    requires UndoCodec.UndoOf(b).Some?
    ensures UndoCodec.UndoOf(b + t) == UndoCodec.UndoOf(b) && LeftOver(b + t) == LeftOver(b) + t
  {
    hide UndoCodec.ReadVarint;
    hide UndoCodec.ReadSpent;
    hide UndoCodec.ReadCreated;
    var (nSpent, b1) := UndoCodec.ReadVarint(b).value;
    var (_, b2) := UndoCodec.ReadSpent(b1, nSpent).value;
    var (nCreated, b3) := UndoCodec.ReadVarint(b2).value;
    VarintExtends(b, t);
    SpentExtends(b1, nSpent, t);
    VarintExtends(b2, t);
    CreatedExtends(b3, nCreated, t);
  }

  lemma WholeRecord(u: UndoCodec.BlockUndo)
    requires UndoCodec.Storable(u)
    ensures UndoCodec.UndoOf(UndoCodec.UndoBytes(u)) == Some(u) && LeftOver(UndoCodec.UndoBytes(u)) == []
  {
    hide UndoCodec.ReadVarint;
    hide UndoCodec.ReadSpent;
    hide UndoCodec.ReadCreated;
    hide UndoCodec.Varint;
    hide UndoCodec.SpentBytes;
    hide UndoCodec.CreatedBytes;
    var b3 := UndoCodec.CreatedBytes(u.created);
    var b2 := UndoCodec.Varint(|u.created|) + b3;
    var b1 := UndoCodec.SpentBytes(u.spent) + b2;
    assert UndoCodec.UndoBytes(u) == UndoCodec.Varint(|u.spent|) + b1;
    assert b3 + [] == b3;
    UndoCodec.VarintRoundTrip(|u.spent|, b1);
    UndoCodec.SpentRoundTrip(u.spent, b2);
    UndoCodec.VarintRoundTrip(|u.created|, b3);
    UndoCodec.CreatedRoundTrip(u.created, []);
  }

  /** A record cut anywhere short of its end is refused. */
  lemma CutRecord(u: UndoCodec.BlockUndo, k: nat)
    requires UndoCodec.Storable(u) && k < |UndoCodec.UndoBytes(u)|
    ensures UndoCodec.UndoOf(UndoCodec.UndoBytes(u)[..k]) == None
  {
    hide UndoCodec.UndoOf;
    hide UndoCodec.UndoBytes;
    hide LeftOver;
    var b := UndoCodec.UndoBytes(u);
    WholeRecord(u);
    assert b[..k] + b[k..] == b;
    if UndoCodec.UndoOf(b[..k]).Some? { UndoExtends(b[..k], b[k..]); }
  }
}
