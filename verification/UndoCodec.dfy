// Keys, values and undo records as the database stores them.
module UndoCodec {
  import opened Wrappers
  import opened Bytes

  // ---- Outpoint keys ----

  type Key = k: bytes | |k| == 36 witness seq(36, _ => 0)

  datatype UtxoValue = UtxoValue(valueSat: u64, scriptType: byte, height: u32, addressHash: Hash)

  function MakeKey(txid: Hash, vout: u32): (k: Key)
  {
    RangeConstants();
    txid + LeBytes(4, vout)
  }

  lemma MakeKeyInjective(txid0: Hash, vout0: u32, txid1: Hash, vout1: u32)
    requires MakeKey(txid0, vout0) == MakeKey(txid1, vout1)
    ensures txid0 == txid1 && vout0 == vout1
  {
    RangeConstants();
    assert MakeKey(txid0, vout0)[..32] == txid0 && MakeKey(txid1, vout1)[..32] == txid1;
    assert MakeKey(txid0, vout0)[32..] == LeBytes(4, vout0);
    assert MakeKey(txid1, vout1)[32..] == LeBytes(4, vout1);
    LeInjective(4, vout0, vout1);
  }

  function UndoKey(height: u32): bytes {
    RangeConstants();
    BeBytes(4, height)
  }

  /** Undo records sort by height, and no two heights share a record. */
  lemma UndoKeyOrder(h0: u32, h1: u32)
    ensures LexLess(UndoKey(h0), UndoKey(h1)) <==> h0 < h1
    ensures UndoKey(h0) == UndoKey(h1) <==> h0 == h1
  {
    RangeConstants();
    BeOrder(4, h0, h1);
  }

  // ---- Values ----

  function EncodeValue(v: UtxoValue): (b: bytes)
    ensures |b| == 45
  {
    RangeConstants();
    LeBytes(8, v.valueSat) + [v.scriptType] + LeBytes(4, v.height) + v.addressHash
  }

  function DecodeValue(b: bytes): Option<UtxoValue> {
    if |b| != 45 then None
    else
      RangeConstants();
      Some(UtxoValue(LeNat(b[0..8]), b[8], LeNat(b[9..13]), b[13..45]))
  }

  lemma ValueRoundTrip(v: UtxoValue)
    ensures DecodeValue(EncodeValue(v)) == Some(v)
  {
    RangeConstants();
    var b := EncodeValue(v);
    assert b[0..8] == LeBytes(8, v.valueSat);
    assert b[9..13] == LeBytes(4, v.height);
    assert b[13..45] == v.addressHash;
    LeRoundTrip(8, v.valueSat);
    LeRoundTrip(4, v.height);
  }

  // ---- CompactSize integers ----

  function Varint(n: u64): (b: bytes)
    ensures 1 <= |b| <= 9
  {
    RangeConstants();
    if n <= 0xfc then [n]
    else if n <= 0xffff then [0xfd] + LeBytes(2, n)
    else if n <= 0xffff_ffff then [0xfe] + LeBytes(4, n)
    else [0xff] + LeBytes(8, n)
  }

  /** The width of the integer that follows a CompactSize first byte. */
  function VarintTail(first: byte): nat {
    if first <= 0xfc then 0 else if first == 0xfd then 2 else if first == 0xfe then 4 else 8
  }

  /** The decoded number and the bytes left over. */
  function ReadVarint(b: bytes): (r: Option<(u64, bytes)>)
    ensures r.Some? ==> |r.value.1| < |b|
  {
    RangeConstants();
    if |b| == 0 then None
    else
      var w := VarintTail(b[0]);
      if w == 0 then Some((b[0], b[1..]))
      else if |b| - 1 < w then None
      else Some((LeNat(b[1..][..w]), b[1..][w..]))
  }

  lemma VarintRoundTrip(n: u64, rest: bytes)
    ensures ReadVarint(Varint(n) + rest) == Some((n, rest))
  {
    RangeConstants();
    var b := Varint(n) + rest;
    var w := VarintTail(b[0]);
    if w > 0 {
      assert b[1..][..w] == LeBytes(w, n) && b[1..][w..] == rest;
      LeRoundTrip(w, n);
    } else {
      assert b[1..] == rest;
    }
  }

  // ---- Undo records ----

  datatype BlockUndo = BlockUndo(spent: seq<(Key, UtxoValue)>, created: seq<Key>)

  /** Every list a Rust vector can hold has a length that fits 64 bits. */
  predicate Storable(u: BlockUndo) {
    |u.spent| <= U64_MAX && |u.created| <= U64_MAX
  }

  function SpentBytes(spent: seq<(Key, UtxoValue)>): bytes {
    if |spent| == 0 then [] else (spent[0].0 + EncodeValue(spent[0].1)) + SpentBytes(spent[1..])
  }

  function CreatedBytes(created: seq<Key>): bytes {
    if |created| == 0 then [] else created[0] + CreatedBytes(created[1..])
  }

  function UndoBytes(u: BlockUndo): bytes
    requires Storable(u)
  {
    Varint(|u.spent|) + SpentBytes(u.spent) + Varint(|u.created|) + CreatedBytes(u.created)
  }

  function ReadSpent(b: bytes, n: nat): Option<(seq<(Key, UtxoValue)>, bytes)>
    decreases n
  {
    if n == 0 then Some(([], b))
    else if |b| < 81 then None
    else
      var v :- DecodeValue(b[36..81]);
      var (tail, rest) :- ReadSpent(b[81..], n - 1);
      var k: Key := b[..36];
      Some(([(k, v)] + tail, rest))
  }

  function ReadCreated(b: bytes, n: nat): Option<(seq<Key>, bytes)>
    decreases n
  {
    if n == 0 then Some(([], b))
    else if |b| < 36 then None
    else
      var (tail, rest) :- ReadCreated(b[36..], n - 1);
      var k: Key := b[..36];
      Some(([k] + tail, rest))
  }

  /** What a stored record denotes; bytes after the record are ignored. */
  function UndoOf(b: bytes): Option<BlockUndo> {
    var (nSpent, b1) :- ReadVarint(b);
    var (spent, b2) :- ReadSpent(b1, nSpent);
    var (nCreated, b3) :- ReadVarint(b2);
    var (created, _) :- ReadCreated(b3, nCreated);
    Some(BlockUndo(spent, created))
  }

  lemma {:induction false} SpentRoundTrip(spent: seq<(Key, UtxoValue)>, rest: bytes)
    ensures ReadSpent(SpentBytes(spent) + rest, |spent|) == Some((spent, rest))
  {
    if |spent| == 0 {
      assert SpentBytes(spent) + rest == rest;
    } else {
      var (k, v) := spent[0];
      var tail := SpentBytes(spent[1..]) + rest;
      var b := SpentBytes(spent) + rest;
      assert b == k + EncodeValue(v) + tail;
      assert b[..36] == k && b[36..81] == EncodeValue(v) && b[81..] == tail;
      ValueRoundTrip(v);
      SpentRoundTrip(spent[1..], rest);
      assert spent == [(k, v)] + spent[1..];
    }
  }

  lemma {:induction false} CreatedRoundTrip(created: seq<Key>, rest: bytes)
    ensures ReadCreated(CreatedBytes(created) + rest, |created|) == Some((created, rest))
  {
    if |created| == 0 {
      assert CreatedBytes(created) + rest == rest;
    } else {
      var tail := CreatedBytes(created[1..]) + rest;
      var b := CreatedBytes(created) + rest;
      assert b == created[0] + tail;
      assert b[..36] == created[0] && b[36..] == tail;
      CreatedRoundTrip(created[1..], rest);
      assert created == [created[0]] + created[1..];
    }
  }

  lemma Regroup(a: bytes, b: bytes, c: bytes, d: bytes, rest: bytes)
    ensures (a + b + c + d) + rest == a + (b + (c + (d + rest)))
  {
  }

  /** Decoding inverts encoding, whatever bytes follow the record. */
  lemma UndoRoundTrip(u: BlockUndo, rest: bytes)
    requires Storable(u)
    ensures UndoOf(UndoBytes(u) + rest) == Some(u)
  {
    var b3 := CreatedBytes(u.created) + rest;
    var b2 := Varint(|u.created|) + b3;
    var b1 := SpentBytes(u.spent) + b2;
    Regroup(Varint(|u.spent|), SpentBytes(u.spent), Varint(|u.created|), CreatedBytes(u.created), rest);
    VarintRoundTrip(|u.spent|, b1);
    SpentRoundTrip(u.spent, b2);
    VarintRoundTrip(|u.created|, b3);
    CreatedRoundTrip(u.created, rest);
  }

  // ---- The codec as it runs ----

  /** `put_varint`: appends to the output buffer. */
  method PutVarint(out: bytes, n: u64) returns (out': bytes)
    ensures out' == out + Varint(n)
  {
    RangeConstants();
    if n <= 0xfc {
      out' := out + [n];
    } else if n <= 0xffff {
      out' := out + [0xfd];
      out' := out' + LeBytes(2, n);
    } else if n <= 0xffff_ffff {
      out' := out + [0xfe];
      out' := out' + LeBytes(4, n);
    } else {
      out' := out + [0xff];
      out' := out' + LeBytes(8, n);
    }
  }

  lemma {:induction false} SpentBytesSnoc(spent: seq<(Key, UtxoValue)>, k: Key, v: UtxoValue)
    ensures SpentBytes(spent + [(k, v)]) == SpentBytes(spent) + (k + EncodeValue(v))
  {
    if |spent| > 0 {
      assert (spent + [(k, v)])[1..] == spent[1..] + [(k, v)];
      SpentBytesSnoc(spent[1..], k, v);
    }
  }

  lemma {:induction false} CreatedBytesSnoc(created: seq<Key>, k: Key)
    ensures CreatedBytes(created + [k]) == CreatedBytes(created) + k
  {
    if |created| > 0 {
      assert (created + [k])[1..] == created[1..] + [k];
      CreatedBytesSnoc(created[1..], k);
    }
  }

  method AppendSpent(out: bytes, spent: seq<(Key, UtxoValue)>) returns (out': bytes)
    ensures out' == out + SpentBytes(spent)
  {
    out' := out;
    for i := 0 to |spent|
      invariant out' == out + SpentBytes(spent[..i])
    {
      var (k, v) := spent[i];
      SpentBytesSnoc(spent[..i], k, v);
      assert spent[..i + 1] == spent[..i] + [(k, v)];
      out' := out' + k;
      out' := out' + EncodeValue(v);
    }
    assert spent[..|spent|] == spent;
  }

  method AppendCreated(out: bytes, created: seq<Key>) returns (out': bytes)
    ensures out' == out + CreatedBytes(created)
  {
    out' := out;
    for i := 0 to |created|
      invariant out' == out + CreatedBytes(created[..i])
    {
      CreatedBytesSnoc(created[..i], created[i]);
      assert created[..i + 1] == created[..i] + [created[i]];
      out' := out' + created[i];
    }
    assert created[..|created|] == created;
  }

  method EncodeUndo(u: BlockUndo) returns (out: bytes)
    requires Storable(u)
    ensures out == UndoBytes(u)
  {
    out := PutVarint([], |u.spent|);
    out := AppendSpent(out, u.spent);
    out := PutVarint(out, |u.created|);
    out := AppendCreated(out, u.created);
  }

  /** What reading the remaining items onto `acc` gives. */
  function Onto<T>(acc: seq<T>, r: Option<(seq<T>, bytes)>): Option<(seq<T>, bytes)> {
    if r.None? then None else Some((acc + r.value.0, r.value.1))
  }

  lemma OntoNil<T>(r: Option<(seq<T>, bytes)>)
    ensures Onto([], r) == r
  {
    assert r.Some? ==> [] + r.value.0 == r.value.0;
  }

  lemma OntoSnoc<T>(acc: seq<T>, x: T, r: Option<(seq<T>, bytes)>)
    ensures Onto(acc + [x], r) == Onto(acc, Onto([x], r))
  {
    assert r.Some? ==> (acc + [x]) + r.value.0 == acc + ([x] + r.value.0);
  }

  method DecodeSpent(raw: bytes, n: nat) returns (r: Option<(seq<(Key, UtxoValue)>, bytes)>)
    ensures r == ReadSpent(raw, n)
  {
    var b := raw;
    var spent: seq<(Key, UtxoValue)> := [];
    OntoNil(ReadSpent(raw, n));
    for i := 0 to n
      invariant ReadSpent(raw, n) == Onto(spent, ReadSpent(b, n - i))
    {
      if |b| < 81 { return None; }
      var v := DecodeValue(b[36..81]);
      if v.None? { return None; }
      var k: Key := b[..36];
      OntoSnoc(spent, (k, v.value), ReadSpent(b[81..], n - i - 1));
      spent := spent + [(k, v.value)];
      b := b[81..];
    }
    assert spent + [] == spent;
    r := Some((spent, b));
  }

  method DecodeCreated(raw: bytes, n: nat) returns (r: Option<(seq<Key>, bytes)>)
    ensures r == ReadCreated(raw, n)
  {
    var b := raw;
    var created: seq<Key> := [];
    OntoNil(ReadCreated(raw, n));
    for i := 0 to n
      invariant ReadCreated(raw, n) == Onto(created, ReadCreated(b, n - i))
    {
      if |b| < 36 { return None; }
      var k: Key := b[..36];
      OntoSnoc(created, k, ReadCreated(b[36..], n - i - 1));
      created := created + [k];
      b := b[36..];
    }
    assert created + [] == created;
    r := Some((created, b));
  }

  method DecodeUndo(raw: bytes) returns (r: Option<BlockUndo>)
    ensures r == UndoOf(raw)
  {
    var first := ReadVarint(raw);
    if first.None? { return None; }
    var spent := DecodeSpent(first.value.1, first.value.0);
    if spent.None? { return None; }
    var second := ReadVarint(spent.value.1);
    if second.None? { return None; }
    var created := DecodeCreated(second.value.1, second.value.0);
    if created.None? { return None; }
    r := Some(BlockUndo(spent.value.0, created.value.0));
  }
}
