// Reading the Bitcoin wire format: what each read means, stated on positions.
module Wire {
  import opened Wrappers
  import opened Bytes
  import UndoCodec

  datatype ParseError =
    | Eof | BadVarInt | CountOverflow(n: u64)
    | BadValue(v: u64) | BadSegwitFlag

  /** A value and the position after it. */
  type Parsed<T> = Result<(T, nat), ParseError>

  const MAX_ITEMS: nat := 4_000_000

  // ---- Primitive reads ----

  function ReadBytes(b: bytes, pos: nat, n: nat): (r: Parsed<bytes>)
    ensures r.Ok? <==> pos + n <= |b|
    ensures r.Ok? ==> r.value.1 == pos + n && LiesAt(b, pos, r.value.0)
  {
    if pos + n > |b| then Err(Eof) else Ok((b[pos..pos + n], pos + n))
  }

  function ReadLe(b: bytes, pos: nat, n: nat): (r: Parsed<nat>)
    ensures r.Ok? <==> pos + n <= |b|
    ensures r.Ok? ==> r.value.1 == pos + n && r.value.0 < Range(n)
  {
    if pos + n > |b| then Err(Eof) else Ok((LeNat(b[pos..pos + n]), pos + n))
  }

  /** CompactSize; running out of data is reported differently for the 9-byte form. */
  function ReadVarint(b: bytes, pos: nat): (r: Parsed<u64>)
    ensures r.Ok? ==> pos < r.value.1 <= |b|
  {
    RangeConstants();
    if pos >= |b| then Err(Eof)
    else
      var w := UndoCodec.VarintTail(b[pos]);
      if w == 0 then Ok((b[pos], pos + 1))
      else
        var tail := ReadLe(b, pos + 1, w);
        if tail.Err? then Err(if w == 8 then BadVarInt else Eof) else Ok((tail.value.0, tail.value.1))
  }

  function ReadCount(b: bytes, pos: nat): (r: Parsed<u64>)
    ensures r.Ok? ==> pos < r.value.1 <= |b| && r.value.0 <= MAX_ITEMS
  {
    var (n, p) :- ReadVarint(b, pos);
    if n > MAX_ITEMS then Err(CountOverflow(n)) else Ok((n, p))
  }

  // ---- Reads depend only on the bytes they consume ----

  /** The bytes of `b` in `lo..hi` reappear in `c`, moved by `d`. */
  ghost predicate Moved(b: bytes, lo: nat, hi: nat, c: bytes, d: int) {
    && lo <= hi <= |b| && 0 <= lo + d && hi + d <= |c|
    && forall j {:trigger b[j]} :: lo <= j < hi ==> c[j + d] == b[j]
  }

  lemma MovedPart(b: bytes, lo: nat, hi: nat, c: bytes, d: int, lo': nat, hi': nat)
    requires Moved(b, lo, hi, c, d) && lo <= lo' <= hi' <= hi
    ensures Moved(b, lo', hi', c, d)
  {
  }

  lemma MovedSlice(b: bytes, lo: nat, hi: nat, c: bytes, d: int)
    requires Moved(b, lo, hi, c, d)
    ensures c[lo + d..hi + d] == b[lo..hi]
  {
    forall i | 0 <= i < hi - lo ensures c[lo + d..hi + d][i] == b[lo..hi][i] {
      assert b[lo + i] == c[lo + i + d];
    }
  }

  lemma LeMoved(b: bytes, pos: nat, n: nat, c: bytes, d: int)
    requires pos + n <= |b| && Moved(b, pos, pos + n, c, d)
    ensures ReadLe(c, pos + d, n).Ok? && ReadLe(c, pos + d, n).value.0 == ReadLe(b, pos, n).value.0
  {
    MovedSlice(b, pos, pos + n, c, d);
  }

  lemma BytesMoved(b: bytes, pos: nat, n: nat, c: bytes, d: int)
    requires pos + n <= |b| && Moved(b, pos, pos + n, c, d)
    ensures ReadBytes(c, pos + d, n).Ok? && ReadBytes(c, pos + d, n).value.0 == ReadBytes(b, pos, n).value.0
  {
    MovedSlice(b, pos, pos + n, c, d);
  }

  /** What it means for one read to move with its bytes. */
  ghost predicate MovesTo<T>(r: Parsed<T>, r': Parsed<T>, d: int) {
    r.Ok? ==> r'.Ok? && r'.value.0 == r.value.0 && r'.value.1 == r.value.1 + d
  }

  lemma VarintMoved(b: bytes, pos: nat, c: bytes, d: int)
    requires ReadVarint(b, pos).Ok? && Moved(b, pos, ReadVarint(b, pos).value.1, c, d)
    ensures 0 <= pos + d && MovesTo(ReadVarint(b, pos), ReadVarint(c, pos + d), d)
  {
    assert c[pos + d] == b[pos];
    var w := UndoCodec.VarintTail(b[pos]);
    if w > 0 {
      LeMoved(b, pos + 1, w, c, d);
    }
  }

  lemma CountMoved(b: bytes, pos: nat, c: bytes, d: int)
    requires ReadCount(b, pos).Ok? && Moved(b, pos, ReadCount(b, pos).value.1, c, d)
    ensures 0 <= pos + d && MovesTo(ReadCount(b, pos), ReadCount(c, pos + d), d)
  {
    VarintMoved(b, pos, c, d);
  }

  // ---- Reads invert writes ----

  lemma BytesBack(b: bytes, pos: nat, x: bytes)
    requires LiesAt(b, pos, x)
    ensures ReadBytes(b, pos, |x|) == Ok((x, pos + |x|))
  {
  }

  lemma {:induction false} LeBack(b: bytes, pos: nat, n: nat, v: nat)
    requires v < Range(n) && LiesAt(b, pos, LeBytes(n, v))
    ensures ReadLe(b, pos, n) == Ok((v, pos + n))
  {
    LeRoundTrip(n, v);
  }

  lemma VarintBack(b: bytes, pos: nat, n: u64)
    requires LiesAt(b, pos, UndoCodec.Varint(n))
    ensures ReadVarint(b, pos) == Ok((n, pos + |UndoCodec.Varint(n)|))
  {
    RangeConstants();
    var e := UndoCodec.Varint(n);
    assert b[pos] == b[pos..pos + |e|][0] == e[0];
    var w := UndoCodec.VarintTail(e[0]);
    if w > 0 {
      assert e == [e[0]] + LeBytes(w, n);
      SplitAt(b, pos, [e[0]], LeBytes(w, n));
      LeBack(b, pos + 1, w, n);
    }
  }

  lemma CountBack(b: bytes, pos: nat, n: u64)
    requires n <= MAX_ITEMS && LiesAt(b, pos, UndoCodec.Varint(n))
    ensures ReadCount(b, pos) == Ok((n, pos + |UndoCodec.Varint(n)|))
  {
    VarintBack(b, pos, n);
  }

  /** The cursor's CompactSize reader and the undo log's accept the same strings with the same value. */
  lemma VarintReadersAgree(b: bytes, pos: nat)
    requires pos <= |b|
    ensures var u := UndoCodec.ReadVarint(b[pos..]);
      if u.None? then ReadVarint(b, pos).Err?
      else ReadVarint(b, pos) == Ok((u.value.0, |b| - |u.value.1|))
  {
    if pos < |b| {
      assert b[pos..][0] == b[pos];
      var w := UndoCodec.VarintTail(b[pos]);
      if pos + 1 + w <= |b| {
        assert b[pos..][1..][..w] == b[pos + 1..pos + 1 + w];
      }
    }
  }

  // ---- Repetition ----

  type Parser<!T> = (bytes, nat) -> Parsed<T>

  /** `n` items in a row; the first failure is the result. */
  function ParseMany<T>(p: Parser<T>, b: bytes, pos: nat, n: nat): Parsed<seq<T>> {
    if n == 0 then Ok(([], pos))
    else
      var (vs, q) :- ParseMany(p, b, pos, n - 1);
      var (v, q') :- p(b, q);
      Ok((vs + [v], q'))
  }

  lemma {:induction false} ManyCount<T>(p: Parser<T>, b: bytes, pos: nat, n: nat)
    ensures ParseMany(p, b, pos, n).Ok? ==> |ParseMany(p, b, pos, n).value.0| == n
  {
    if n > 0 { ManyCount(p, b, pos, n - 1); }
  }

  /** A failure among the first items fails the whole repetition the same way. */
  lemma {:induction false} ManyFails<T>(p: Parser<T>, b: bytes, pos: nat, k: nat, n: nat)
    requires k <= n && ParseMany(p, b, pos, k).Err?
    ensures ParseMany(p, b, pos, n) == ParseMany(p, b, pos, k)
  {
    if k < n { ManyFails(p, b, pos, k, n - 1); }
  }

  /** One read ends inside the data and moves with its bytes. */
  ghost predicate MovesHere<T(!new)>(p: Parser<T>, b: bytes, pos: nat, c: bytes, d: int) {
    p(b, pos).Ok? ==>
      && pos <= p(b, pos).value.1 <= |b|
      && (Moved(b, pos, p(b, pos).value.1, c, d) ==> MovesTo(p(b, pos), p(c, pos + d), d))
  }

  ghost predicate Local<T(!new)>(p: Parser<T>) {
    forall b, pos: nat, c, d {:trigger MovesHere(p, b, pos, c, d)} :: 0 <= pos + d && pos <= |b| ==>
        MovesHere(p, b, pos, c, d)
  }

  lemma {:induction false} ManyMoves<T(!new)>(p: Parser<T>, b: bytes, pos: nat, n: nat, c: bytes, d: int)
    requires Local(p) && pos <= |b| && 0 <= pos + d && ParseMany(p, b, pos, n).Ok?
    ensures pos <= ParseMany(p, b, pos, n).value.1 <= |b|
    ensures Moved(b, pos, ParseMany(p, b, pos, n).value.1, c, d) ==>
      MovesTo(ParseMany(p, b, pos, n), ParseMany(p, c, pos + d, n), d)
  {
    if n > 0 {
      ManyMoves(p, b, pos, n - 1, c, d);
      var q := ParseMany(p, b, pos, n - 1).value.1;
      assert MovesHere(p, b, q, c, d);
    }
  }

  function Concat<T>(enc: T -> bytes, vs: seq<T>): bytes {
    if |vs| == 0 then [] else Concat(enc, vs[..|vs| - 1]) + enc(vs[|vs| - 1])
  }

  /** Reading back one written item. */
  ghost predicate ReadsBack<T(!new)>(p: Parser<T>, enc: T -> bytes, v: T, b: bytes, pos: nat) {
    LiesAt(b, pos, enc(v)) ==> p(b, pos) == Ok((v, pos + |enc(v)|))
  }

  lemma {:induction false} ManyBack<T(!new)>(p: Parser<T>, enc: T -> bytes, vs: seq<T>, b: bytes, pos: nat)
    requires LiesAt(b, pos, Concat(enc, vs))
    requires forall i, q: nat {:trigger ReadsBack(p, enc, vs[i], b, q)} :: 0 <= i < |vs| ==> ReadsBack(p, enc,
        vs[i], b, q)
    ensures ParseMany(p, b, pos, |vs|) == Ok((vs, pos + |Concat(enc, vs)|))
    decreases |vs|
  {
    if |vs| > 0 {
      var n := |vs| - 1;
      var front := Concat(enc, vs[..n]);
      SplitAt(b, pos, front, enc(vs[n]));
      forall i, q: nat | 0 <= i < n ensures ReadsBack(p, enc, vs[..n][i], b, q) {
        assert ReadsBack(p, enc, vs[i], b, q);
      }
      ManyBack(p, enc, vs[..n], b, pos);
      assert ReadsBack(p, enc, vs[n], b, pos + |front|);
      assert vs[..n] + [vs[n]] == vs;
    }
  }
}
