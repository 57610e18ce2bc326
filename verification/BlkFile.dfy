// Record framing of block files: the open-time walk, the record iterator and reads by location.
module BlkFile {
  import opened Wrappers
  import opened Bytes
  import opened Rows
  import opened Xor

  predicate IsKnownMagic(m: nat) {
    m == 0xD9B4_BEF9 || m == 0x0709_110B || m == 0x40CF_030A || m == 0x283F_161C || m == 0xDAB5_BFFA
  }

  /** The first bytes of a record: those of the main network or of one of the four test networks. */
  lemma MagicBytes(b: bytes, off: nat)
    requires off + 4 <= |b|
    ensures IsKnownMagic(U32At(b, off)) <==>
            b[off..off + 4] in [[0xF9, 0xBE, 0xB4, 0xD9], [0x0B, 0x11, 0x09, 0x07], [0x0A, 0x03, 0xCF, 0x40],
                                [0x1C, 0x16, 0x3F, 0x28], [0xFA, 0xBF, 0xB5, 0xDA]]
  {
    var w := b[off..off + 4];
    assert w == [w[0], w[1], w[2], w[3]];
  }

  /** The file as written before obfuscation. */
  function Decoded(raw: bytes, key: Option<XorKey>): (plain: bytes)
    ensures |plain| == |raw|
  {
    if key.Some? then Masked(raw, key.value) else raw
  }

  /** Byte `i` of the file, unmasked; the keystream index is the offset into the file. */
  function PlainByte(raw: bytes, key: Option<XorKey>, i: nat): byte
    requires i < |raw|
  {
    if key.Some? then XorByte(raw[i], key.value[i % 8]) else raw[i]
  }

  function LeWord(b0: int, b1: int, b2: int, b3: int): (w: u32)
    requires 0 <= b0 < 0x100 && 0 <= b1 < 0x100 && 0 <= b2 < 0x100 && 0 <= b3 < 0x100
    ensures w % 0x100 == b0
  {
    b0 + 0x100 * b1 + 0x1_0000 * b2 + 0x100_0000 * b3
  }

  /** `u32::from_le_bytes` of the four bytes at `off`. */
  function U32At(b: bytes, off: nat): (w: u32)
    requires off + 4 <= |b|
  {
    LeWord(b[off], b[off + 1], b[off + 2], b[off + 3])
  }

  /** The same word read from the raw file through the key. */
  function Word(raw: bytes, off: nat, key: Option<XorKey>): (w: u32)
    requires off + 4 <= |raw|
    ensures w == U32At(Decoded(raw, key), off)
  {
    LeWord(PlainByte(raw, key, off), PlainByte(raw, key, off + 1),
           PlainByte(raw, key, off + 2), PlainByte(raw, key, off + 3))
  }

  // ---- What a run of records is ----

  /** The payload length of the complete record at `pos`, if there is one. */
  function RecordAt(b: bytes, pos: nat): (len: Option<nat>)
    ensures len.Some? ==> BLOCK_HEADER_LEN <= len.value < U32_RANGE && pos + 8 + len.value <= |b|
  {
    if pos + 8 + BLOCK_HEADER_LEN > |b| || !IsKnownMagic(U32At(b, pos)) then None
    else
      var len := U32At(b, pos + 4);
      if len < BLOCK_HEADER_LEN || len > |b| - pos - 8 then None else Some(len)
  }

  /** The end of the run of complete records that starts at `pos`. */
  function WalkEnd(b: bytes, pos: nat): (end: nat)
    requires pos <= |b|
    ensures pos <= end <= |b|
    decreases |b| - pos
  {
    var len := RecordAt(b, pos);
    if len.None? then pos else WalkEnd(b, pos + 8 + len.value)
  }

  /** The payloads of that run. */
  function Payloads(b: bytes, pos: nat): seq<bytes>
    requires pos <= |b|
    decreases |b| - pos
  {
    var len := RecordAt(b, pos);
    if len.None? then [] else [b[pos + 8..pos + 8 + len.value]] + Payloads(b, pos + 8 + len.value)
  }

  lemma WalkUnfolds(b: bytes, pos: nat)
    requires pos <= |b|
    ensures RecordAt(b, pos).None? <==> WalkEnd(b, pos) == pos
    ensures RecordAt(b, pos).None? ==> Payloads(b, pos) == []
    ensures RecordAt(b, pos).Some? ==> WalkEnd(b, pos) == WalkEnd(b, pos + 8 + RecordAt(b, pos).value)
  {
  }

  // ---- The open-time walk ----

  /** What the walk reports: all of a file that starts wrong, so that the error surfaces later. */
  function DataEnd(raw: bytes, key: Option<XorKey>): (end: nat)
    ensures end <= |raw|
  {
    var end := WalkEnd(Decoded(raw, key), 0);
    if end == 0 && |raw| > 0 && raw[0] != 0 then |raw| else end
  }

  /** The walk's two framing tests at an offset of the raw file. */
  method DeclaredLen(raw: bytes, pos: nat, key: Option<XorKey>) returns (len: Option<nat>)
    requires pos + 8 + BLOCK_HEADER_LEN <= |raw|
    ensures len == RecordAt(Decoded(raw, key), pos)
  {
    if !IsKnownMagic(Word(raw, pos, key)) { return None; }
    var declared := Word(raw, pos + 4, key);
    if declared < BLOCK_HEADER_LEN || declared > |raw| - pos - 8 { return None; }
    len := Some(declared);
  }

  method RecordWalkEnd(raw: bytes, key: Option<XorKey>) returns (end: nat)
    ensures end == DataEnd(raw, key)
  {
    hide RecordAt;
    hide Decoded;
    ghost var plain := Decoded(raw, key);
    var pos := 0;
    end := 0;
    while pos + 8 + BLOCK_HEADER_LEN <= |raw|
      invariant end == pos <= |raw|
      invariant WalkEnd(plain, 0) == WalkEnd(plain, pos)
    {
      var len := DeclaredLen(raw, pos, key);
      if len.None? { break; }
      pos := pos + 8 + len.value;
      end := pos;
    }
    if end == 0 && |raw| > 0 && raw[0] != 0 {
      return |raw|;
    }
  }

  /** Opening a file: decode when a key is present, then trim. */
  method Open(raw: bytes, key: Option<XorKey>) returns (data: bytes)
    ensures data == Decoded(raw, key)[..DataEnd(raw, key)]
  {
    var end := RecordWalkEnd(raw, key);
    if key.Some? {
      var decoded := XorDecode(raw, key.value);
      data := decoded[..end];
    } else {
      data := raw[..end];
    }
  }

  // ---- The record iterator ----

  /** The hash and header fields of a record are functions of its first 80 payload bytes. */
  datatype BlkRecord = BlkRecord(location: BlockLocation, headerRaw: bytes)

  datatype Reason = BadMagic(magic: u32) | BadRecordLen(len: u32) | Overrun(end: nat, fileLen: nat)

  datatype BlkError = Corrupt(fileId: u32, offset: nat, reason: Reason)

  type Item = Result<BlkRecord, BlkError>

  function SkipZeros(data: bytes, pos: nat): (p: nat)
    requires pos <= |data|
    ensures pos <= p <= |data|
    ensures p < |data| ==> data[p] != 0
    ensures forall i :: pos <= i < p ==> data[i] == 0
    decreases |data| - pos
  {
    if pos < |data| && data[pos] == 0 then SkipZeros(data, pos + 1) else pos
  }

  /** The next item and the position after it. */
  function NextItem(fileId: u32, data: bytes, pos: nat): (r: (Option<Item>, nat))
    requires pos <= |data| <= U64_MAX
    ensures r.0.Some? && r.0.value.Ok? ==> pos < r.1 <= |data|
    ensures r.1 <= |data|
  {
    var p := SkipZeros(data, pos);
    if p + 8 > |data| then (None, p)
    else
      var magic, len := U32At(data, p), U32At(data, p + 4);
      if !IsKnownMagic(magic) then (Some(Err(Corrupt(fileId, p, BadMagic(magic)))), p)
      else if len < BLOCK_HEADER_LEN || p + 8 + len > |data| then (Some(Err(Corrupt(fileId, p, BadRecordLen(len)))), p)
      else
        (Some(Ok(BlkRecord(BlockLocation(fileId, p, (len + 8) % U32_RANGE), data[p + 8..p + 8 + BLOCK_HEADER_LEN]))),
         p + 8 + len)
  }

  class BlkRecordIter {
    const fileId: u32
    const data: bytes
    var pos: nat

    ghost predicate Valid()
      reads this
    {
      pos <= |data| <= U64_MAX
    }

    constructor (fileId: u32, data: bytes)
      requires |data| <= U64_MAX
      ensures Valid() && this.fileId == fileId && this.data == data && pos == 0
    {
      this.fileId, this.data, pos := fileId, data, 0;
    }

    method Next() returns (item: Option<Item>)
      requires Valid()
      modifies this
      ensures Valid() && (item, pos) == NextItem(fileId, data, old(pos))
    {
      while pos < |data| && data[pos] == 0
        invariant pos <= |data| && SkipZeros(data, pos) == SkipZeros(data, old(pos))
        decreases |data| - pos
      {
        pos := pos + 1;
      }
      if pos + 8 > |data| { return None; }
      var magic, len := U32At(data, pos), U32At(data, pos + 4);
      if !IsKnownMagic(magic) {
        return Some(Err(Corrupt(fileId, pos, BadMagic(magic))));
      }
      if len < BLOCK_HEADER_LEN || pos + 8 + len > |data| {
        return Some(Err(Corrupt(fileId, pos, BadRecordLen(len))));
      }
      var location := BlockLocation(fileId, pos, (len + 8) % U32_RANGE);
      var headerRaw := data[pos + 8..pos + 8 + BLOCK_HEADER_LEN];
      pos := pos + 8 + len;
      item := Some(Ok(BlkRecord(location, headerRaw)));
    }
  }

  /** Everything the iterator yields from `pos` on, up to the first error. */
  function Collected(fileId: u32, data: bytes, pos: nat): Result<seq<BlkRecord>, BlkError>
    requires pos <= |data| <= U64_MAX
    decreases |data| - pos
  {
    var (item, next) := NextItem(fileId, data, pos);
    if item.None? then Ok([])
    else if item.value.Err? then Err(item.value.error)
    else
      var tail :- Collected(fileId, data, next);
      Ok([item.value.value] + tail)
  }

  lemma {:induction false} CollectedStep(fileId: u32, data: bytes, pos: nat, done: seq<BlkRecord>)
    requires pos <= |data| <= U64_MAX && NextItem(fileId, data, pos).0.Some?
    requires NextItem(fileId, data, pos).0.value.Ok?
    ensures Prepend(done, Collected(fileId, data, pos))
         == Prepend(done + [NextItem(fileId, data, pos).0.value.value],
                    Collected(fileId, data, NextItem(fileId, data, pos).1))
  {
    var (item, next) := NextItem(fileId, data, pos);
    var tail := Collected(fileId, data, next);
    if tail.Ok? {
      assert done + ([item.value.value] + tail.value) == (done + [item.value.value]) + tail.value;
    }
  }

  function Prepend(done: seq<BlkRecord>, tail: Result<seq<BlkRecord>, BlkError>): Result<seq<BlkRecord>, BlkError> {
    if tail.Err? then tail else Ok(done + tail.value)
  }

  lemma PrependNothing(tail: Result<seq<BlkRecord>, BlkError>)
    ensures Prepend([], tail) == tail
  {
    if tail.Ok? { assert [] + tail.value == tail.value; }
  }

  /** The scan loop of the header pass over one file. */
  method ReadRecords(fileId: u32, data: bytes) returns (r: Result<seq<BlkRecord>, BlkError>)
    requires |data| <= U64_MAX
    ensures r == Collected(fileId, data, 0)
  {
    var iter := new BlkRecordIter(fileId, data);
    var done: seq<BlkRecord> := [];
    PrependNothing(Collected(fileId, data, 0));
    while true
      invariant iter.Valid() && iter.fileId == fileId && iter.data == data
      invariant Collected(fileId, data, 0) == Prepend(done, Collected(fileId, data, iter.pos))
      decreases |data| - iter.pos
    {
      ghost var pos := iter.pos;
      var item := iter.Next();
      if item.None? {
        assert done + [] == done;
        return Ok(done);
      }
      if item.value.Err? { return Err(item.value.error); }
      CollectedStep(fileId, data, pos, done);
      done := done + [item.value.value];
    }
  }

  /** The payload at a location; the record length field must cover its own prefix. */
  function BlockBytes(fileId: u32, data: bytes, loc: BlockLocation): Result<bytes, BlkError>
    requires loc.recordLen >= 8
  {
    var start := loc.offset + 8;
    var end := start + (loc.recordLen - 8);
    if end > |data| then Err(Corrupt(fileId, loc.offset, Overrun(end, |data|))) else Ok(data[start..end])
  }

  // ---- The two scanners agree ----

  function RecordFor(fileId: u32, plain: bytes, pos: nat, len: nat): BlkRecord
    requires pos + 8 + len <= |plain| <= U64_MAX && BLOCK_HEADER_LEN <= len
  {
    BlkRecord(BlockLocation(fileId, pos, (len + 8) % U32_RANGE), plain[pos + 8..pos + 8 + BLOCK_HEADER_LEN])
  }

  /** The records of a walk, with their locations. */
  function Located(fileId: u32, plain: bytes, pos: nat): seq<BlkRecord>
    requires pos <= |plain| <= U64_MAX
    decreases |plain| - pos
  {
    var len := RecordAt(plain, pos);
    if len.None? then []
    else [RecordFor(fileId, plain, pos, len.value)] + Located(fileId, plain, pos + 8 + len.value)
  }

  lemma SameWord(plain: bytes, off: nat, end: nat)
    requires off + 4 <= end <= |plain|
    ensures U32At(plain[..end], off) == U32At(plain, off)
  {
  }

  lemma NonZeroStart(first: byte, magic: nat)
    requires IsKnownMagic(magic) && magic % 0x100 == first
    ensures first != 0
  {
  }

  /** The iterator over a trimmed file accepts what the walk accepted: no known magic starts with a zero byte. */
  lemma NextOnRecord(fileId: u32, plain: bytes, pos: nat, len: nat, end: nat)
    requires pos <= end <= |plain| <= U64_MAX && RecordAt(plain, pos) == Some(len) && pos + 8 + len <= end
    ensures NextItem(fileId, plain[..end], pos) == (Some(Ok(RecordFor(fileId, plain, pos, len))), pos + 8 + len)
  {
    var data := plain[..end];
    SameWord(plain, pos, end);
    SameWord(plain, pos + 4, end);
    NonZeroStart(plain[pos], U32At(plain, pos));
    assert SkipZeros(data, pos) == pos;
    assert data[pos + 8..pos + 8 + BLOCK_HEADER_LEN] == plain[pos + 8..pos + 8 + BLOCK_HEADER_LEN];
  }

  /** Over the walked prefix the iterator yields the walk's records and no error. */
  lemma {:induction false} IteratorFollowsWalk(fileId: u32, plain: bytes, pos: nat)
    requires pos <= |plain| <= U64_MAX
    ensures Collected(fileId, plain[..WalkEnd(plain, pos)], pos) == Ok(Located(fileId, plain, pos))
    decreases |plain| - pos
  {
    hide RecordAt;
    hide NextItem;
    var len := RecordAt(plain, pos);
    if len.Some? {
      NextOnRecord(fileId, plain, pos, len.value, WalkEnd(plain, pos));
      IteratorFollowsWalk(fileId, plain, pos + 8 + len.value);
    } else {
      NextAtEnd(fileId, plain[..pos]);
    }
  }

  lemma NextAtEnd(fileId: u32, data: bytes)
    requires |data| <= U64_MAX
    ensures NextItem(fileId, data, |data|) == (None, |data|)
  {
  }

  /** What the iterator reports on bytes at `p` that are no record. */
  function Complaint(fileId: u32, data: bytes, p: nat): BlkError
    requires p + 8 <= |data|
  {
    var magic := U32At(data, p);
    Corrupt(fileId, p, if IsKnownMagic(magic) then BadRecordLen(U32At(data, p + 4)) else BadMagic(magic))
  }

  /** From any position: nothing, an error, or a record and what follows it. */
  lemma CollectedFrom(fileId: u32, data: bytes, pos: nat)
    requires pos <= |data| <= U64_MAX
    ensures var p := SkipZeros(data, pos);
            var len := RecordAt(data, p);
            Collected(fileId, data, pos) ==
            if p + 8 > |data| then Ok([])
            else if len.None? then Err(Complaint(fileId, data, p))
            else Prepend([RecordFor(fileId, data, p, len.value)], Collected(fileId, data, p + 8 + len.value))
  {
    hide U32At;
    hide IsKnownMagic;
    hide SkipZeros;
  }

  /**
   * Opening then iterating, for every file and key. Unless the walk finds nothing in a
   * file whose first raw byte is non-zero, the iterator yields exactly the walked records.
   * In that remaining case it sees the whole decoded file and skips its leading zeros: if
   * fewer than eight bytes are left it yields nothing and no error, else an error at the
   * first byte left, unless a record starts there.
   */
  lemma {:induction false} OpenedFileIterates(fileId: u32, raw: bytes, key: Option<XorKey>)
    requires |raw| <= U64_MAX
    ensures var plain, end := Decoded(raw, key), DataEnd(raw, key);
      && (end == WalkEnd(plain, 0) ==> Collected(fileId, plain[..end], 0) == Ok(Located(fileId, plain, 0)))
      && (end != WalkEnd(plain, 0) ==>
            var p := SkipZeros(plain, 0);
            var len := RecordAt(plain, p);
            Collected(fileId, plain[..end], 0) ==
            if p + 8 > |raw| then Ok([])
            else if len.None? then Err(Complaint(fileId, plain, p))
            else Prepend([RecordFor(fileId, plain, p, len.value)], Collected(fileId, plain, p + 8 + len.value)))
  {
    hide Collected;
    hide RecordAt;
    hide Complaint;
    hide Decoded;
    var plain, end := Decoded(raw, key), DataEnd(raw, key);
    if end == WalkEnd(plain, 0) {
      IteratorFollowsWalk(fileId, plain, 0);
    } else {
      assert plain[..end] == plain;
      CollectedFrom(fileId, plain, 0);
    }
  }

  /** A non-empty file of under eight bytes, the first of them not zero, passes without an error. */
  lemma {:induction false} ShortFileIsSilent(fileId: u32, raw: bytes)
    requires 0 < |raw| < 8 && raw[0] != 0
    ensures DataEnd(raw, None) == |raw| && Collected(fileId, raw, 0) == Ok([])
  {
    CollectedFrom(fileId, raw, 0);
  }

  /** A record found in file `fileId`: its location names that file and where in it the record starts. */
  predicate FoundIn(r: BlkRecord, fileId: u32, data: bytes, from: nat) {
    && r.location.fileId == fileId
    && var at: nat := r.location.offset;
    && from <= at && at + 8 + BLOCK_HEADER_LEN <= |data| && IsKnownMagic(U32At(data, at))
    && r.location.recordLen == (U32At(data, at + 4) + 8) % U32_RANGE
    && r.headerRaw == data[at + 8..at + 8 + BLOCK_HEADER_LEN]
  }

  lemma ItemFoundIn(fileId: u32, data: bytes, pos: nat)
    requires pos <= |data| <= U64_MAX && NextItem(fileId, data, pos).0.Some?
    requires NextItem(fileId, data, pos).0.value.Ok?
    ensures var (item, next) := NextItem(fileId, data, pos);
      FoundIn(item.value.value, fileId, data, pos) && item.value.value.location.offset < next
  {
    hide SkipZeros;
    hide U32At;
    hide IsKnownMagic;
  }

  /** All found in the file from position `from` on, in ascending order. */
  predicate AllFoundIn(records: seq<BlkRecord>, fileId: u32, data: bytes, from: nat) {
    && (forall i :: 0 <= i < |records| ==> FoundIn(records[i], fileId, data, from))
    && (forall i, j :: 0 <= i < j < |records| ==> records[i].location.offset < records[j].location.offset)
  }

  lemma FoundBefore(r: BlkRecord, tail: seq<BlkRecord>, fileId: u32, data: bytes, pos: nat, next: nat)
    requires FoundIn(r, fileId, data, pos) && r.location.offset < next && pos <= next
    requires AllFoundIn(tail, fileId, data, next)
    ensures AllFoundIn([r] + tail, fileId, data, pos)
  {
    hide U32At;
    hide IsKnownMagic;
    forall i | 0 < i <= |tail| ensures FoundIn(([r] + tail)[i], fileId, data, pos) {
      assert FoundIn(tail[i - 1], fileId, data, next);
    }
  }

  /** Whatever the iterator yields was found in the file it reads. */
  lemma {:induction false} CollectedFoundIn(fileId: u32, data: bytes, pos: nat)
    requires pos <= |data| <= U64_MAX
    ensures var c := Collected(fileId, data, pos); c.Ok? ==> AllFoundIn(c.value, fileId, data, pos)
    decreases |data| - pos
  {
    hide NextItem;
    hide FoundIn;
    var c := Collected(fileId, data, pos);
    if c.Ok? && |c.value| > 0 {
      ItemFoundIn(fileId, data, pos);
      var (item, next) := NextItem(fileId, data, pos);
      CollectedFoundIn(fileId, data, next);
      FoundBefore(item.value.value, Collected(fileId, data, next).value, fileId, data, pos, next);
    }
  }

  predicate ReadsBack(fileId: u32, data: bytes, loc: BlockLocation, payload: bytes) {
    loc.fileId == fileId && loc.recordLen == |payload| + 8 && BlockBytes(fileId, data, loc) == Ok(payload)
  }

  lemma ReadAt(fileId: u32, plain: bytes, pos: nat, len: nat, end: nat)
    requires pos + 8 + len <= end <= |plain| <= U64_MAX && len + 8 < U32_RANGE
    ensures ReadsBack(fileId, plain[..end], BlockLocation(fileId, pos, len + 8), plain[pos + 8..pos + 8 + len])
  {
    assert plain[..end][pos + 8..pos + 8 + len] == plain[pos + 8..pos + 8 + len];
  }

  /** Record `i` of the listing carries payload `i`, and its location reads it back if the 32-bit length fits. */
  ghost predicate Delivers(fileId: u32, data: bytes, r: BlkRecord, payload: bytes) {
    && BLOCK_HEADER_LEN <= |payload| && r.headerRaw == payload[..BLOCK_HEADER_LEN]
    && (|payload| + 8 < U32_RANGE ==> ReadsBack(fileId, data, r.location, payload))
  }

  lemma {:induction false} LocationsReadBack(fileId: u32, plain: bytes, pos: nat)
    requires pos <= |plain| <= U64_MAX
    ensures |Located(fileId, plain, pos)| == |Payloads(plain, pos)|
    ensures forall i :: 0 <= i < |Payloads(plain, pos)| ==>
      Delivers(fileId, plain[..WalkEnd(plain, pos)], Located(fileId, plain, pos)[i], Payloads(plain, pos)[i])
    decreases |plain| - pos
  {
    hide RecordAt;
    hide Delivers;
    var len := RecordAt(plain, pos);
    if len.Some? {
      DeliversOne(fileId, plain, pos, len.value, WalkEnd(plain, pos));
      LocationsReadBack(fileId, plain, pos + 8 + len.value);
    }
  }

  lemma DeliversOne(fileId: u32, plain: bytes, pos: nat, len: nat, end: nat)
    requires BLOCK_HEADER_LEN <= len && pos + 8 + len <= end <= |plain| <= U64_MAX
    ensures Delivers(fileId, plain[..end], RecordFor(fileId, plain, pos, len), plain[pos + 8..pos + 8 + len])
  {
    assert plain[pos + 8..pos + 8 + len][..BLOCK_HEADER_LEN] == plain[pos + 8..pos + 8 + BLOCK_HEADER_LEN];
    if len + 8 < U32_RANGE { ReadAt(fileId, plain, pos, len, end); }
  }

  // ---- Writing records and reading them back ----

  datatype Framed = Framed(magic: u32, payload: bytes) {
    predicate Valid() {
      IsKnownMagic(magic) && BLOCK_HEADER_LEN <= |payload| < U32_RANGE
    }

    function Bytes(): (b: bytes)
      requires |payload| < U32_RANGE
      ensures |b| == 8 + |payload|
    {
      RangeConstants();
      LeBytes(4, magic) + LeBytes(4, |payload|) + payload
    }
  }

  predicate AllValid(recs: seq<Framed>) {
    forall r :: r in recs ==> r.Valid()
  }

  function Frames(recs: seq<Framed>): bytes
    requires AllValid(recs)
  {
    if |recs| == 0 then []
    else
      assert recs[0] in recs;
      recs[0].Bytes() + Frames(recs[1..])
  }

  function PayloadsOf(recs: seq<Framed>): seq<bytes> {
    if |recs| == 0 then [] else [recs[0].payload] + PayloadsOf(recs[1..])
  }

  lemma {:induction false} LeBytesWord(v: u32, b: bytes)
    requires v < Range(4) && b == LeBytes(4, v)
    ensures LeWord(b[0], b[1], b[2], b[3]) == v
  {
    var v1, v2, v3 := v / 0x100, v / 0x1_0000, v / 0x100_0000;
    assert LeBytes(4, v) == [v % 0x100] + LeBytes(3, v1);
    assert LeBytes(3, v1) == [v1 % 0x100] + LeBytes(2, v2);
    assert LeBytes(2, v2) == [v2 % 0x100] + LeBytes(1, v3);
    assert LeBytes(1, v3) == [v3 % 0x100];
    assert b == [v % 0x100, v1 % 0x100, v2 % 0x100, v3 % 0x100];
  }

  lemma FrameIsRecord(b: bytes, pos: nat, r: Framed)
    requires r.Valid() && pos + 8 + |r.payload| <= |b|
    requires b[pos..pos + 8 + |r.payload|] == r.Bytes()
    ensures RecordLies(b, pos, r.payload)
  {
    RangeConstants();
    var f, m, l := r.Bytes(), LeBytes(4, r.magic), LeBytes(4, |r.payload|);
    LeBytesWord(r.magic, m);
    LeBytesWord(|r.payload|, l);
    assert forall i :: 0 <= i < 8 + |r.payload| ==> b[pos + i] == b[pos..pos + 8 + |r.payload|][i] == f[i];
    assert f[0] == m[0] && f[1] == m[1] && f[2] == m[2] && f[3] == m[3];
    assert f[4] == l[0] && f[5] == l[1] && f[6] == l[2] && f[7] == l[3];
    assert f[8..] == r.payload;
    assert b[pos + 8..pos + 8 + |r.payload|] == b[pos..pos + 8 + |r.payload|][8..];
  }

  predicate RecordLies(b: bytes, pos: nat, payload: bytes) {
    RecordAt(b, pos) == Some(|payload|) && b[pos + 8..pos + 8 + |payload|] == payload
  }

  lemma {:induction false} FramesSplit(b: bytes, pos: nat, recs: seq<Framed>)
    requires |recs| > 0 && AllValid(recs) && LiesAt(b, pos, Frames(recs))
    ensures AllValid(recs[1..])
    ensures |Frames(recs)| == 8 + |recs[0].payload| + |Frames(recs[1..])|
    ensures RecordLies(b, pos, recs[0].payload) && LiesAt(b, pos + 8 + |recs[0].payload|, Frames(recs[1..]))
  {
    hide RecordAt;
    hide RecordLies;
    assert recs[0] in recs;
    SplitAt(b, pos, recs[0].Bytes(), Frames(recs[1..]));
    FrameIsRecord(b, pos, recs[0]);
  }

  /** The walk runs over written records and finds their payloads. */
  lemma {:induction false} WalkOverFrames(b: bytes, pos: nat, recs: seq<Framed>)
    requires AllValid(recs) && LiesAt(b, pos, Frames(recs))
    ensures WalkEnd(b, pos) == WalkEnd(b, pos + |Frames(recs)|)
    ensures Payloads(b, pos) == PayloadsOf(recs) + Payloads(b, pos + |Frames(recs)|)
    decreases |recs|
  {
    hide RecordAt;
    hide AllValid;
    if |recs| > 0 {
      var p, rest := recs[0].payload, recs[1..];
      var next := pos + 8 + |p|;
      FramesSplit(b, pos, recs);
      WalkOverFrames(b, next, rest);
      Chained([p], PayloadsOf(rest), Payloads(b, next + |Frames(rest)|));
    } else {
      Chained([], PayloadsOf(recs), Payloads(b, pos));
    }
  }

  lemma Chained(x: seq<bytes>, y: seq<bytes>, z: seq<bytes>)
    ensures x + (y + z) == (x + y) + z && [] + z == z
  {
  }

  /** A file: the obfuscated records, then preallocated zeros. */
  function FileBytes(recs: seq<Framed>, key: Option<XorKey>, padding: nat): bytes
    requires AllValid(recs)
  {
    Decoded(Frames(recs), key) + seq(padding, _ => 0)
  }

  /** What a zero byte of padding decodes to. */
  function PadByte(key: Option<XorKey>, i: nat): byte {
    if key.Some? then XorByte(0, key.value[i % 8]) else 0
  }

  function PadWord(key: Option<XorKey>, off: nat): (w: u32) {
    LeWord(PadByte(key, off), PadByte(key, off + 1), PadByte(key, off + 2), PadByte(key, off + 3))
  }

  /** The padding itself, seen through the key, passes for a record. */
  predicate PaddingMistaken(key: Option<XorKey>, end: nat, padding: nat) {
    && padding >= 8 + BLOCK_HEADER_LEN && IsKnownMagic(PadWord(key, end))
    && BLOCK_HEADER_LEN <= PadWord(key, end + 4) <= padding - 8
  }

  ghost predicate Padded(plain: bytes, end: nat, key: Option<XorKey>) {
    forall i :: end <= i < |plain| ==> plain[i] == PadByte(key, i)
  }

  lemma {:induction false} FileDecodes(recs: seq<Framed>, key: Option<XorKey>, padding: nat)
    requires AllValid(recs)
    ensures var f, plain := Frames(recs), Decoded(FileBytes(recs, key, padding), key);
      |plain| == |f| + padding && LiesAt(plain, 0, f) && Padded(plain, |f|, key)
  {
    if key.Some? {
      var f, k := Frames(recs), key.value;
      MaskTwice(f, k);
      var plain := Decoded(FileBytes(recs, key, padding), key);
      forall i | 0 <= i < |f| ensures plain[i] == f[i] {
        assert plain[i] == XorByte(Masked(f, k)[i], k[i % 8]) == Masked(Masked(f, k), k)[i];
      }
    }
  }

  lemma PaddingWord(plain: bytes, key: Option<XorKey>, end: nat, off: nat)
    requires end <= off && off + 4 <= |plain| && Padded(plain, end, key)
    ensures U32At(plain, off) == PadWord(key, off)
  {
  }

  lemma AtPadding(plain: bytes, end: nat, key: Option<XorKey>, padding: nat)
    requires |plain| == end + padding && Padded(plain, end, key)
    ensures RecordAt(plain, end).Some? <==> PaddingMistaken(key, end, padding)
  {
    hide PadWord;
    hide U32At;
    hide Padded;
    if padding >= 8 + BLOCK_HEADER_LEN {
      PaddingWord(plain, key, end, end);
      PaddingWord(plain, key, end, end + 4);
    }
  }

  /** The walk over a written file, decoded: its end, and what it finds. */
  ghost predicate WalksWritten(plain: bytes, recs: seq<Framed>, key: Option<XorKey>, padding: nat)
    requires AllValid(recs)
  {
    && LiesAt(plain, 0, Frames(recs))
    && (WalkEnd(plain, 0) == |Frames(recs)| <==> !PaddingMistaken(key, |Frames(recs)|, padding))
    && (WalkEnd(plain, 0) == |Frames(recs)| ==> Payloads(plain, 0) == PayloadsOf(recs))
  }

  lemma WrittenFileWalk(recs: seq<Framed>, key: Option<XorKey>, padding: nat)
    requires AllValid(recs)
    ensures WalksWritten(Decoded(FileBytes(recs, key, padding), key), recs, key, padding)
  {
    hide RecordAt;
    hide PaddingMistaken;
    hide FileBytes;
    hide Padded;
    hide Decoded;
    var plain := Decoded(FileBytes(recs, key, padding), key);
    var end := |Frames(recs)|;
    FileDecodes(recs, key, padding);
    WalkOverFrames(plain, 0, recs);
    AtPadding(plain, end, key, padding);
    WalkUnfolds(plain, end);
    Chained([], PayloadsOf(recs), []);
    assert PayloadsOf(recs) + [] == PayloadsOf(recs);
  }

  lemma {:induction false} EmptyFileStartsZero(recs: seq<Framed>, key: Option<XorKey>, padding: nat)
    requires AllValid(recs) && |Frames(recs)| == 0 && padding > 0
    ensures FileBytes(recs, key, padding)[0] == 0
  {
  }

  lemma PlainPaddingIsNoRecord(end: nat, padding: nat)
    ensures !PaddingMistaken(None, end, padding)
  {
  }

  /**
   * Where the walk stops on a file as written: at the end of the last record,
   * even one that ends in zeros, unless the keyed padding passes for a record.
   * A file without a key is never affected.
   */
  lemma {:induction false} WalkStopsAfterLastRecord(recs: seq<Framed>, key: Option<XorKey>, padding: nat)
    requires AllValid(recs)
    ensures DataEnd(FileBytes(recs, key, padding), key) == |Frames(recs)|
        <==> !PaddingMistaken(key, |Frames(recs)|, padding)
    ensures key.None? ==> !PaddingMistaken(key, |Frames(recs)|, padding)
  {
    hide RecordAt;
    hide PadWord;
    hide IsKnownMagic;
    hide FileBytes;
    hide Decoded;
    hide Frames;
    hide Payloads;
    WrittenFileWalk(recs, key, padding);
    FileDecodes(recs, key, padding);
    PlainPaddingIsNoRecord(|Frames(recs)|, padding);
    if |Frames(recs)| == 0 && padding > 0 { EmptyFileStartsZero(recs, key, padding); }
  }

  /** Its first eight bytes pass for a magic number and a length of 80. */
  const MISLEADING_KEY: XorKey := [0xF9, 0xBE, 0xB4, 0xD9, 0x50, 0, 0, 0]

  /**
   * Such a key exists: whenever the records fill a multiple of eight bytes, none at all
   * included, 88 bytes of padding are taken for one more record.
   */
  lemma {:induction false} PhantomRecord(recs: seq<Framed>, padding: nat)
    requires AllValid(recs) && |Frames(recs)| % 8 == 0 && padding >= 88
    ensures PaddingMistaken(Some(MISLEADING_KEY), |Frames(recs)|, padding)
    ensures DataEnd(FileBytes(recs, Some(MISLEADING_KEY), padding), Some(MISLEADING_KEY)) >= |Frames(recs)| + 88
  {
    hide FileBytes;
    hide Decoded;
    hide Frames;
    hide Padded;
    hide PadWord;
    hide RecordAt;
    var key, end := Some(MISLEADING_KEY), |Frames(recs)|;
    var plain := Decoded(FileBytes(recs, key, padding), key);
    MisleadingWords(end);
    FileDecodes(recs, key, padding);
    WalkOverFrames(plain, 0, recs);
    PaddingWord(plain, key, end, end);
    PaddingWord(plain, key, end, end + 4);
    RecordOf80(plain, end);
    WalkUnfolds(plain, end);
  }

  lemma RecordOf80(b: bytes, pos: nat)
    requires pos + 88 <= |b| && U32At(b, pos) == 0xD9B4_BEF9 && U32At(b, pos + 4) == 80
    ensures RecordAt(b, pos) == Some(80)
  {
  }

  lemma PadByteIsKey(key: XorKey, end: nat, i: nat)
    requires end % 8 == 0 && i < 8
    ensures PadByte(Some(key), end + i) == key[i]
  {
    assert (end + i) % 8 == i;
    ZeroTakes(key[i]);
  }

  lemma MisleadingWords(end: nat)
    requires end % 8 == 0
    ensures PadWord(Some(MISLEADING_KEY), end) == 0xD9B4_BEF9 && PadWord(Some(MISLEADING_KEY), end + 4) == 80
  {
    hide PadByte;
    PadByteIsKey(MISLEADING_KEY, end, 0);
    PadByteIsKey(MISLEADING_KEY, end, 1);
    PadByteIsKey(MISLEADING_KEY, end, 2);
    PadByteIsKey(MISLEADING_KEY, end, 3);
    PadByteIsKey(MISLEADING_KEY, end, 4);
    PadByteIsKey(MISLEADING_KEY, end, 5);
    PadByteIsKey(MISLEADING_KEY, end, 6);
    PadByteIsKey(MISLEADING_KEY, end, 7);
  }

  /** Writing records and opening the file yields them back, in order, each readable at its location. */
  lemma {:induction false} FramingRoundTrip(fileId: u32, recs: seq<Framed>, key: Option<XorKey>, padding: nat)
    requires AllValid(recs) && |Frames(recs)| + padding <= U64_MAX
    requires !PaddingMistaken(key, |Frames(recs)|, padding)
    ensures var raw := FileBytes(recs, key, padding);
      var data := Decoded(raw, key)[..DataEnd(raw, key)];
      && data == Frames(recs)
      && var found := Collected(fileId, data, 0);
      && found.Ok? && |found.value| == |recs|
      && forall i :: 0 <= i < |recs| ==> Delivers(fileId, data, found.value[i], recs[i].payload)
  {
    hide RecordAt;
    hide PaddingMistaken;
    hide FileBytes;
    hide Decoded;
    hide Frames;
    hide Payloads;
    hide PayloadsOf;
    hide Delivers;
    hide Collected;
    hide Located;
    hide DataEnd;
    var plain := Decoded(FileBytes(recs, key, padding), key);
    FileDecodes(recs, key, padding);
    WrittenFileWalk(recs, key, padding);
    WalkStopsAfterLastRecord(recs, key, padding);
    IteratorFollowsWalk(fileId, plain, 0);
    LocationsReadBack(fileId, plain, 0);
    PayloadsOfAt(recs);
  }

  lemma {:induction false} PayloadsOfAt(recs: seq<Framed>)
    ensures |PayloadsOf(recs)| == |recs|
    ensures forall i :: 0 <= i < |recs| ==> PayloadsOf(recs)[i] == recs[i].payload
  {
    if |recs| > 0 { PayloadsOfAt(recs[1..]); }
  }
}
