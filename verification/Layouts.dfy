// The byte layouts of keys, records and transactions, field by field at their offsets.
module Layouts {
  import opened Wrappers
  import opened Bytes
  import opened Wire
  import opened UndoCodec
  import opened UtxoStore
  import opened TxSyntax
  import opened TxLaws

  // ---- Numbers ----

  /** The value of a little-endian number: byte `i` weighs 256 to the power `i`. */
  function Value(b: bytes): nat {
    if |b| == 0 then 0 else Value(b[..|b| - 1]) + b[|b| - 1] * Range(|b| - 1)
  }

  /** The value of a big-endian number. */
  function BigValue(b: bytes): nat {
    if |b| == 0 then 0 else 0x100 * BigValue(b[..|b| - 1]) + b[|b| - 1]
  }

  lemma Scaled(x: nat, r: nat)
    ensures 0x100 * (x * r) == x * (0x100 * r)
  {
  }

  lemma {:induction false} LeNatSnoc(b: bytes, x: byte)
    ensures LeNat(b + [x]) == LeNat(b) + x * Range(|b|)
  {
    if |b| > 0 {
      assert (b + [x])[1..] == b[1..] + [x];
      LeNatSnoc(b[1..], x);
      Scaled(x, Range(|b| - 1));
    }
  }

  lemma {:induction false} ValueIsLeNat(b: bytes)
    ensures Value(b) == LeNat(b)
  {
    if |b| > 0 {
      var n := |b| - 1;
      ValueIsLeNat(b[..n]);
      LeNatSnoc(b[..n], b[n]);
      assert b == b[..n] + [b[n]];
    }
  }

  lemma {:induction false} LittleEndian(n: nat, v: nat)
    requires v < Range(n)
    ensures Value(LeBytes(n, v)) == v
  {
    ValueIsLeNat(LeBytes(n, v));
    LeRoundTrip(n, v);
  }

  lemma {:induction false} BigEndian(n: nat, v: nat)
    requires v < Range(n)
    ensures BigValue(BeBytes(n, v)) == v
  {
    if n > 0 {
      BigEndian(n - 1, v / 0x100);
      assert BeBytes(n, v)[..n - 1] == BeBytes(n - 1, v / 0x100);
    }
  }

  /** A CompactSize: one byte up to 252, else a marker and 2, 4 or 8 bytes. */
  lemma VarintLayout(n: u64)
    ensures var b := Varint(n);
      if n < 253 then b == [n]
      else if n < 0x1_0000 then |b| == 3 && b[0] == 253 && Value(b[1..]) == n
      else if n < 0x1_0000_0000 then |b| == 5 && b[0] == 254 && Value(b[1..]) == n
      else |b| == 9 && b[0] == 255 && Value(b[1..]) == n
  {
    hide LeBytes;
    hide Value;
    RangeConstants();
    var w := if n < 0x1_0000 then 2 else if n < 0x1_0000_0000 then 4 else 8;
    if n >= 253 {
      LittleEndian(w, n);
      assert Varint(n)[1..] == LeBytes(w, n);
    }
  }

  // ---- The database ----

  lemma KeyLayout(txid: Hash, vout: u32)
    ensures MakeKey(txid, vout)[..32] == txid && Value(MakeKey(txid, vout)[32..]) == vout
  {
    hide Value;
    RangeConstants();
    LittleEndian(4, vout);
    assert MakeKey(txid, vout)[32..] == LeBytes(4, vout);
  }

  lemma UndoKeyLayout(height: u32)
    ensures |UndoKey(height)| == 4 && BigValue(UndoKey(height)) == height
  {
    RangeConstants();
    BigEndian(4, height);
  }

  lemma ValueLayout(v: UtxoValue)
    ensures var b := EncodeValue(v);
      && Value(b[..8]) == v.valueSat && b[8] == v.scriptType && Value(b[9..13]) == v.height
      && b[13..] == v.addressHash
  {
    hide Value;
    RangeConstants();
    LittleEndian(8, v.valueSat);
    LittleEndian(4, v.height);
    var b := EncodeValue(v);
    assert b[..8] == LeBytes(8, v.valueSat) && b[9..13] == LeBytes(4, v.height) && b[13..] == v.addressHash;
  }

  lemma TipLayout(t: TipState)
    ensures Value(TipBytes(t)[..4]) == t.height && TipBytes(t)[4..] == t.hash
  {
    hide Value;
    RangeConstants();
    LittleEndian(4, t.height);
    assert TipBytes(t)[..4] == LeBytes(4, t.height) && TipBytes(t)[4..] == t.hash;
  }

  lemma {:induction false} SpentAt(spent: seq<(Key, UtxoValue)>, i: nat)
    requires i < |spent|
    ensures |SpentBytes(spent)| == 81 * |spent|
    ensures SpentBytes(spent)[81 * i..81 * i + 36] == spent[i].0
    ensures SpentBytes(spent)[81 * i + 36..81 * i + 81] == EncodeValue(spent[i].1)
    decreases |spent|
  {
    hide EncodeValue;
    var b, head, tail := SpentBytes(spent), spent[0].0 + EncodeValue(spent[0].1), SpentBytes(spent[1..]);
    assert b == head + tail;
    if |spent| > 1 { SpentAt(spent[1..], if i > 0 then i - 1 else 0); }
    if i == 0 {
      assert b[..36] == spent[0].0 && b[36..81] == EncodeValue(spent[0].1);
    } else {
      assert b[81 * i..81 * i + 36] == tail[81 * (i - 1)..81 * (i - 1) + 36];
      assert b[81 * i + 36..81 * i + 81] == tail[81 * (i - 1) + 36..81 * (i - 1) + 81];
    }
  }

  lemma {:induction false} CreatedAt(created: seq<Key>, i: nat)
    requires i < |created|
    ensures |CreatedBytes(created)| == 36 * |created|
    ensures CreatedBytes(created)[36 * i..36 * i + 36] == created[i]
    decreases |created|
  {
    var b, tail := CreatedBytes(created), CreatedBytes(created[1..]);
    assert b == created[0] + tail;
    if |created| > 1 { CreatedAt(created[1..], if i > 0 then i - 1 else 0); }
    if i == 0 {
      assert b[..36] == created[0];
    } else {
      assert b[36 * i..36 * i + 36] == tail[36 * (i - 1)..36 * (i - 1) + 36];
    }
  }

  /** A slice of a part is a slice of the whole. */
  lemma Within(b: bytes, at: nat, part: bytes, from: nat, n: nat)
    requires at + |part| <= |b| && b[at..at + |part|] == part && from + n <= |part|
    ensures b[at + from..at + from + n] == part[from..from + n]
  {
    var slice := b[at + from..at + from + n];
    forall k | 0 <= k < n ensures slice[k] == part[from..from + n][k] {
      assert b[at..at + |part|][from + k] == b[at + from + k];
    }
  }

  /** Entry `i` stands at 81 times `i` from `at`. */
  predicate HoldsSpent(b: bytes, at: nat, spent: seq<(Key, UtxoValue)>) {
    && at + 81 * |spent| <= |b|
    && forall i :: 0 <= i < |spent| ==>
         && b[at + 81 * i..at + 81 * i + 36] == spent[i].0
         && b[at + 81 * i + 36..at + 81 * i + 81] == EncodeValue(spent[i].1)
  }

  /** Key `i` stands at 36 times `i` from `at`. */
  predicate HoldsCreated(b: bytes, at: nat, created: seq<Key>) {
    && at + 36 * |created| <= |b|
    && forall i :: 0 <= i < |created| ==> b[at + 36 * i..at + 36 * i + 36] == created[i]
  }

  lemma {:induction false} SpentLie(b: bytes, at: nat, spent: seq<(Key, UtxoValue)>)
    requires LiesAt(b, at, SpentBytes(spent))
    ensures |SpentBytes(spent)| == 81 * |spent| && HoldsSpent(b, at, spent)
  {
    hide EncodeValue;
    hide SpentBytes;
    if |spent| == 0 { NoEntries(spent, []); } else { SpentAt(spent, 0); }
    forall i | 0 <= i < |spent|
      ensures b[at + 81 * i..at + 81 * i + 36] == spent[i].0
      ensures b[at + 81 * i + 36..at + 81 * i + 81] == EncodeValue(spent[i].1)
    {
      SpentAt(spent, i);
      Within(b, at, SpentBytes(spent), 81 * i, 36);
      Within(b, at, SpentBytes(spent), 81 * i + 36, 45);
    }
  }

  lemma {:induction false} CreatedLie(b: bytes, at: nat, created: seq<Key>)
    requires LiesAt(b, at, CreatedBytes(created))
    ensures |CreatedBytes(created)| == 36 * |created| && HoldsCreated(b, at, created)
  {
    hide CreatedBytes;
    if |created| == 0 { NoEntries([], created); } else { CreatedAt(created, 0); }
    forall i | 0 <= i < |created| ensures b[at + 36 * i..at + 36 * i + 36] == created[i] {
      CreatedAt(created, i);
      Within(b, at, CreatedBytes(created), 36 * i, 36);
    }
  }

  lemma {:induction false} NoEntries(spent: seq<(Key, UtxoValue)>, created: seq<Key>)
    ensures |spent| == 0 ==> SpentBytes(spent) == []
    ensures |created| == 0 ==> CreatedBytes(created) == []
  {
  }

  lemma FourParts(b: bytes, w: bytes, x: bytes, y: bytes, z: bytes)
    requires b == w + x + y + z
    ensures b[..|w|] == w && LiesAt(b, |w|, x) && LiesAt(b, |w| + |x|, y) && LiesAt(b, |w| + |x| + |y|, z)
    ensures |b| == |w| + |x| + |y| + |z|
  {
  }

  /** An undo record: a count and 81 bytes for each entry spent, a count and 36 for each key created. */
  lemma UndoLayout(u: BlockUndo)
    requires Storable(u)
    ensures var b := UndoBytes(u);
      var spentAt := |Varint(|u.spent|)|;
      var countAt := spentAt + 81 * |u.spent|;
      var createdAt := countAt + |Varint(|u.created|)|;
      && |b| == createdAt + 36 * |u.created|
      && b[..spentAt] == Varint(|u.spent|) && b[countAt..createdAt] == Varint(|u.created|)
      && HoldsSpent(b, spentAt, u.spent) && HoldsCreated(b, createdAt, u.created)
  {
    hide Varint;
    hide HoldsSpent;
    hide HoldsCreated;
    hide SpentBytes;
    hide CreatedBytes;
    var b, m, n := UndoBytes(u), Varint(|u.spent|), Varint(|u.created|);
    FourParts(b, m, SpentBytes(u.spent), n, CreatedBytes(u.created));
    SpentLie(b, |m|, u.spent);
    CreatedLie(b, |m| + 81 * |u.spent| + |n|, u.created);
  }

  // ---- Transactions on the wire ----

  /** An input: outpoint, signature script with its length, sequence number. */
  lemma InputLayout(i: TxIn)
    ensures var b := InBytes(i);
      var sigAt := 36 + |Varint(|i.scriptSig|)|;
      && |b| == sigAt + |i.scriptSig| + 4
      && b[..32] == i.prevTxid && Value(b[32..36]) == i.prevVout
      && b[36..sigAt] == Varint(|i.scriptSig|) && b[sigAt..sigAt + |i.scriptSig|] == i.scriptSig
      && Value(b[|b| - 4..]) == i.sequence
  {
    hide Value;
    hide Varint;
    RangeConstants();
    LittleEndian(4, i.prevVout);
    LittleEndian(4, i.sequence);
    var b := InBytes(i);
    assert b[32..36] == LeBytes(4, i.prevVout) && b[|b| - 4..] == LeBytes(4, i.sequence);
  }

  /** An output: value, then its script with its length. */
  lemma OutputLayout(o: TxOut)
    ensures var b := OutBytes(o);
      var scriptAt := 8 + |Varint(|o.script|)|;
      && |b| == scriptAt + |o.script| && Value(b[..8]) == o.value
      && b[8..scriptAt] == Varint(|o.script|) && b[scriptAt..] == o.script
  {
    hide Value;
    hide Varint;
    RangeConstants();
    LittleEndian(8, o.value);
    assert OutBytes(o)[..8] == LeBytes(8, o.value);
  }

  lemma Between(v: bytes, mid: bytes, l: bytes)
    requires |v| == 4 == |l|
    ensures var b := v + (mid + l); b[..4] == v && b[4..4 + |mid|] == mid && b[|b| - 4..] == l
  {
  }

  lemma Regrouped(m: bytes, body: bytes, w: bytes, l: bytes)
    ensures m + (body + (w + l)) == (m + (body + w)) + l
  {
  }

  lemma VersionValue(raw: RawTx)
    ensures Value(VersionBytes(raw)) == if raw.version < 0 then raw.version + U32_RANGE else raw.version
    ensures Value(LockBytes(raw)) == raw.locktime
  {
    hide Value;
    RangeConstants();
    LittleEndian(4, Unsigned(raw.version));
    LittleEndian(4, raw.locktime);
  }

  /** The inputs and the outputs, each with their count. */
  function Puts(raw: RawTx): bytes
    requires Encodable(raw)
  {
    Varint(|raw.ins|) + Concat(InBytes, raw.ins) + Varint(|raw.outs|) + Concat(OutBytes, raw.outs)
  }

  lemma BodyIsPuts(raw: RawTx)
    requires Encodable(raw)
    ensures Body(raw) == Puts(raw)
  {
    hide Varint;
    hide Concat;
  }

  lemma TxAsMiddle(raw: RawTx)
    requires Encodable(raw)
    ensures StrippedBytes(raw) == VersionBytes(raw) + (Puts(raw) + LockBytes(raw))
    ensures var mid := if raw.flag.None? then Puts(raw)
                       else [0, raw.flag.value] + (Puts(raw) + Concat(StackBytes, raw.stacks));
            TxBytes(raw) == VersionBytes(raw) + (mid + LockBytes(raw))
  {
    hide Body;
    hide Puts;
    hide Concat;
    hide VersionBytes;
    hide LockBytes;
    BodyIsPuts(raw);
    if raw.flag.Some? {
      Regrouped([0, raw.flag.value], Body(raw), Concat(StackBytes, raw.stacks), LockBytes(raw));
    }
  }

  /**
   * A transaction: its version in two's complement, marker and flag if it has witnesses,
   * inputs, outputs, witnesses, and its lock time at the end. The bytes hashed for its id
   * are those without marker, flag and witnesses.
   */
  lemma TxLayout(raw: RawTx)
    requires Encodable(raw)
    ensures var b := TxBytes(raw);
      && |b| >= 8
      && Value(b[..4]) == (if raw.version < 0 then raw.version + U32_RANGE else raw.version)
      && Value(b[|b| - 4..]) == raw.locktime
      && b[4..|b| - 4] == (if raw.flag.None? then Puts(raw)
                           else [0, raw.flag.value] + (Puts(raw) + Concat(StackBytes, raw.stacks)))
      && StrippedBytes(raw) == b[..4] + (Puts(raw) + b[|b| - 4..])
  {
    hide Value;
    hide Puts;
    hide Concat;
    hide TxBytes;
    hide StrippedBytes;
    hide VersionBytes;
    hide LockBytes;
    TxAsMiddle(raw);
    VersionValue(raw);
    Between(VersionBytes(raw),
            if raw.flag.None? then Puts(raw)
            else [0, raw.flag.value] + (Puts(raw) + Concat(StackBytes, raw.stacks)), LockBytes(raw));
  }

  /** A count is read back up to four million and refused above that. */
  lemma CountLimit(b: bytes, pos: nat, n: u64)
    requires LiesAt(b, pos, Varint(n))
    ensures ReadCount(b, pos) == if n > 4_000_000 then Err(CountOverflow(n)) else Ok((n, pos + |Varint(n)|))
  {
    hide Varint;
    hide Wire.ReadVarint;
    VarintBack(b, pos, n);
  }

  /** An output is refused for its value exactly above 21 million coins of 100 million units. */
  lemma {:induction false} ValueLimit(b: bytes, pos: nat, v: u64)
    requires v < Range(8) && LiesAt(b, pos, LeBytes(8, v))
    ensures ParseOut(b, pos) == Err(BadValue(v)) <==> v > 2_100_000_000_000_000
  {
    RangeConstants();
    LeBack(b, pos, 8, v);
  }
}
