// Reconstructing the main chain from the headers found in the block files.
module ChainIndex {
  import opened Wrappers
  import opened Bytes
  import opened Rows

  /** A header as scanned; `work` is the exact proof-of-work contribution. */
  datatype Record = Record(hash: Hash, prev: Hash, location: BlockLocation, work: nat)

  datatype HeaderEntry = HeaderEntry(prev: Hash, location: BlockLocation, work: nat)

  type Headers = map<Hash, HeaderEntry>

  // ---- The headers, first copy of each hash ----

  function FirstSeen(records: seq<Record>): Headers {
    if |records| == 0 then map[]
    else
      var n := |records| - 1;
      var r := records[n];
      var before := FirstSeen(records[..n]);
      if r.hash in before then before else before[r.hash := HeaderEntry(r.prev, r.location, r.work)]
  }

  /** Every hash scanned is present, with the fields of its earliest record. */
  lemma {:induction false} FirstSeenIsEarliest(records: seq<Record>, i: nat)
    requires i < |records| && forall j :: 0 <= j < i ==> records[j].hash != records[i].hash
    ensures var r := records[i];
            r.hash in FirstSeen(records) && FirstSeen(records)[r.hash] == HeaderEntry(r.prev, r.location, r.work)
    decreases |records|
  {
    var n := |records| - 1;
    if i < n {
      FirstSeenIsEarliest(records[..n], i);
    } else {
      FirstSeenOnlyScanned(records[..n], records[i].hash);
    }
  }

  lemma {:induction false} FirstSeenOnlyScanned(records: seq<Record>, h: Hash)
    ensures h in FirstSeen(records) ==> exists j :: 0 <= j < |records| && records[j].hash == h
  {
    if |records| > 0 && h in FirstSeen(records) {
      var n := |records| - 1;
      FirstSeenOnlyScanned(records[..n], h);
      if h in FirstSeen(records[..n]) {
        var j :| 0 <= j < n && records[..n][j].hash == h;
        assert records[j].hash == h;
      } else {
        assert records[n].hash == h;
      }
    }
  }

  method CollectHeaders(records: seq<Record>) returns (headers: Headers)
    ensures headers == FirstSeen(records)
  {
    headers := map[];
    for i := 0 to |records|
      invariant headers == FirstSeen(records[..i])
    {
      assert records[..i + 1][..i] == records[..i];
      var r := records[i];
      if r.hash !in headers {
        headers := headers[r.hash := HeaderEntry(r.prev, r.location, r.work)];
      }
    }
    assert records[..|records|] == records;
  }

  // ---- What cumulative work means ----

  type Rank = Hash -> nat

  /** The parent relation has no cycles: parents rank below their children. */
  ghost predicate Acyclic(headers: Headers, rank: Rank) {
    forall h :: h in headers && headers[h].prev != ZeroHash() && headers[h].prev in headers
      ==> rank(headers[h].prev) < rank(h)
  }

  /** Total work on the path from a zero-parent block; none for a header not connected to one. */
  ghost function PathWork(headers: Headers, rank: Rank, h: Hash): Option<nat>
    requires Acyclic(headers, rank)
    decreases rank(h)
  {
    if h !in headers then None
    else
      var e := headers[h];
      if e.prev == ZeroHash() then Some(e.work)
      else if e.prev !in headers then None
      else
        var below := PathWork(headers, rank, e.prev);
        if below.None? then None else Some(below.value + e.work)
  }

  /** Every memo entry is the exact work of its path. */
  ghost predicate MemoExact(headers: Headers, rank: Rank, cum: map<Hash, nat>)
    requires Acyclic(headers, rank)
  {
    forall h :: h in cum ==> PathWork(headers, rank, h) == Some(cum[h])
  }

  // ---- The first pass: zero-parent headers ----

  function StackWeight(stack: seq<(Hash, bool)>): nat {
    if |stack| == 0 then 0
    else StackWeight(stack[..|stack| - 1]) + (if stack[|stack| - 1].1 then 1 else 2)
  }

  method VisitCandidate(headers: Headers, g: Hash, cum0: map<Hash, nat>, ghost rank: Rank)
    returns (cum: map<Hash, nat>)
    requires Acyclic(headers, rank) && MemoExact(headers, rank, cum0)
    ensures MemoExact(headers, rank, cum)
  {
    cum := cum0;
    var stack := [(g, false)];
    while |stack| > 0
      invariant MemoExact(headers, rank, cum)
      invariant forall i :: 0 <= i < |stack| && stack[i].1 ==>
        stack[i].0 in headers && (headers[stack[i].0].prev == ZeroHash() || headers[stack[i].0].prev in cum)
      decreases StackWeight(stack)
    {
      var top := stack[|stack| - 1];
      stack := stack[..|stack| - 1];
      var h := top.0;
      if h !in headers || h in cum { continue; }
      var e := headers[h];
      var parentCum :=
        if e.prev == ZeroHash() then Some(0) else if e.prev in cum then Some(cum[e.prev]) else None;
      if top.1 {
        var base := if parentCum.Some? then parentCum.value else 0;
        cum := cum[h := base + e.work];
      } else if parentCum.Some? {
        assert (stack + [(h, true)])[..|stack|] == stack;
        stack := stack + [(h, true)];
      }
    }
  }

  /** Visit every header whose parent is zero or unknown, in the hash map's own order. */
  method FirstPass(headers: Headers, ghost rank: Rank) returns (cum: map<Hash, nat>)
    requires Acyclic(headers, rank)
    ensures MemoExact(headers, rank, cum)
  {
    cum := map[];
    var todo := headers.Keys;
    while todo != {}
      invariant MemoExact(headers, rank, cum) && todo <= headers.Keys
      decreases todo
    {
      var g :| g in todo;
      todo := todo - {g};
      if headers[g].prev == ZeroHash() || headers[g].prev !in headers {
        cum := VisitCandidate(headers, g, cum, rank);
      }
    }
  }

  // ---- The memoised backward walk ----

  /** What follows position `i` of a walk that has reached `cur`. */
  function After(path: seq<Hash>, cur: Hash, i: nat): Hash
    requires i < |path|
  {
    if i + 1 < |path| then path[i + 1] else cur
  }

  /** Position `i` of the walk is a header whose non-zero parent is what follows. */
  ghost predicate WalkStep(headers: Headers, path: seq<Hash>, cur: Hash, i: nat)
    requires i < |path|
  {
    && path[i] in headers && headers[path[i]].prev != ZeroHash()
    && headers[path[i]].prev == After(path, cur, i)
  }

  /** `path` leads from its first element back to `cur`, through headers with non-zero parents. */
  ghost predicate WalksTo(headers: Headers, path: seq<Hash>, cur: Hash) {
    forall i :: 0 <= i < |path| ==> WalkStep(headers, path, cur, i)
  }

  /** Fill the memo along a path, nearest first, from the work at its far end. */
  method FillPath(headers: Headers, path: seq<Hash>, cur: Hash, acc0: nat, cum0: map<Hash, nat>, ghost rank: Rank)
    returns (cum: map<Hash, nat>)
    requires Acyclic(headers, rank) && MemoExact(headers, rank, cum0)
    requires WalksTo(headers, path, cur) && cur in headers && PathWork(headers, rank, cur) == Some(acc0)
    ensures MemoExact(headers, rank, cum) && cum0.Keys <= cum.Keys
    ensures |path| > 0 ==> path[0] in cum
  {
    cum := cum0;
    var acc := acc0;
    var i := |path|;
    while i > 0
      invariant 0 <= i <= |path|
      invariant MemoExact(headers, rank, cum) && cum0.Keys <= cum.Keys
      invariant PathWork(headers, rank, if i < |path| then path[i] else cur) == Some(acc)
      invariant i < |path| ==> path[i] in cum
    {
      i := i - 1;
      assert WalkStep(headers, path, cur, i);
      acc := acc + headers[path[i]].work;
      cum := cum[path[i] := acc];
    }
  }

  lemma WalkExtends(headers: Headers, path: seq<Hash>, cur: Hash)
    requires WalksTo(headers, path, cur) && cur in headers && headers[cur].prev != ZeroHash()
    ensures WalksTo(headers, path + [cur], headers[cur].prev)
  {
    var longer := path + [cur];
    forall i | 0 <= i < |longer|
      ensures WalkStep(headers, longer, headers[cur].prev, i)
    {
      if i < |path| {
        assert WalkStep(headers, path, cur, i);
      }
    }
  }

  /** A path that runs into an unknown header has no work. */
  lemma {:induction false} DeadEnd(headers: Headers, rank: Rank, path: seq<Hash>, cur: Hash, i: nat)
    requires Acyclic(headers, rank) && WalksTo(headers, path, cur) && cur !in headers && i < |path|
    ensures PathWork(headers, rank, path[i]) == None
    decreases |path| - i
  {
    assert WalkStep(headers, path, cur, i);
    if i + 1 < |path| { DeadEnd(headers, rank, path, cur, i + 1); }
  }

  /** `resolve_cum`: the work of one header, filling the memo for its whole path. */
  method ResolveCum(headers: Headers, h: Hash, cum0: map<Hash, nat>, ghost rank: Rank)
    returns (w: Option<nat>, cum: map<Hash, nat>)
    requires Acyclic(headers, rank) && MemoExact(headers, rank, cum0)
    ensures MemoExact(headers, rank, cum) && cum0.Keys <= cum.Keys
    ensures w == PathWork(headers, rank, h)
    ensures w.Some? ==> h in cum
  {
    cum := cum0;
    if h in cum { return Some(cum[h]), cum; }
    if h !in headers { return None, cum; }
    if headers[h].prev == ZeroHash() {
      cum := cum[h := headers[h].work];
      return Some(headers[h].work), cum;
    }
    var path: seq<Hash> := [];
    var cur := h;
    while true
      invariant cum == cum0 && WalksTo(headers, path, cur)
      invariant if |path| == 0 then cur == h else path[0] == h
      invariant h !in cum && h in headers && headers[h].prev != ZeroHash()
      decreases if cur in headers then rank(cur) + 1 else 0
    {
      if cur in cum {
        cum := FillPath(headers, path, cur, cum[cur], cum, rank);
        return Some(cum[h]), cum;
      }
      if cur !in headers {
        DeadEnd(headers, rank, path, cur, 0);
        return None, cum;
      }
      if headers[cur].prev == ZeroHash() {
        cum := cum[cur := headers[cur].work];
        cum := FillPath(headers, path, cur, headers[cur].work, cum, rank);
        return Some(cum[h]), cum;
      }
      WalkExtends(headers, path, cur);
      path := path + [cur];
      cur := headers[cur].prev;
    }
  }

  /** Resolve every header: the memo then holds exactly the connected ones. */
  method Sweep(headers: Headers, cum0: map<Hash, nat>, ghost rank: Rank) returns (cum: map<Hash, nat>)
    requires Acyclic(headers, rank) && MemoExact(headers, rank, cum0)
    ensures MemoExact(headers, rank, cum)
    ensures forall h :: h in cum <==> PathWork(headers, rank, h).Some?
  {
    cum := cum0;
    var todo := headers.Keys;
    while todo != {}
      invariant MemoExact(headers, rank, cum) && todo <= headers.Keys
      invariant forall h :: h in headers && h !in todo && PathWork(headers, rank, h).Some? ==> h in cum
      decreases todo
    {
      var h :| h in todo;
      todo := todo - {h};
      var w;
      w, cum := ResolveCum(headers, h, cum, rank);
    }
  }

  // ---- The tip: any entry of maximal work ----

  method SelectTip(cum: map<Hash, nat>) returns (tip: Option<(Hash, nat)>)
    ensures tip.None? <==> cum.Keys == {}
    ensures tip.Some? ==> tip.value.0 in cum && cum[tip.value.0] == tip.value.1
    ensures tip.Some? ==> forall h :: h in cum ==> cum[h] <= tip.value.1
  {
    tip := None;
    var todo := cum.Keys;
    while todo != {}
      invariant todo <= cum.Keys
      invariant tip.None? <==> todo == cum.Keys
      invariant tip.Some? ==> tip.value.0 in cum && cum[tip.value.0] == tip.value.1
      invariant tip.Some? ==> forall h :: h in cum && h !in todo ==> cum[h] <= tip.value.1
      decreases todo
    {
      var h :| h in todo;
      todo := todo - {h};
      assert h !in todo;
      if tip.None? || tip.value.1 < cum[h] {
        tip := Some((h, cum[h]));
      }
    }
  }

  // ---- Chains, stated without the memo ----

  /** A parent-linked run of headers that starts at a zero-parent block. */
  ghost predicate IsChain(headers: Headers, chain: seq<Hash>)
    decreases |chain|
  {
    && |chain| > 0
    && var n := |chain| - 1;
    && chain[n] in headers
    && if n == 0 then headers[chain[n]].prev == ZeroHash()
       else headers[chain[n]].prev == chain[n - 1] != ZeroHash() && IsChain(headers, chain[..n])
  }

  ghost function ChainWork(headers: Headers, chain: seq<Hash>): nat
    requires forall h :: h in chain ==> h in headers
  {
    if |chain| == 0 then 0
    else ChainWork(headers, chain[..|chain| - 1]) + headers[chain[|chain| - 1]].work
  }

  lemma {:induction false} ChainIsKnown(headers: Headers, chain: seq<Hash>)
    requires IsChain(headers, chain)
    ensures forall h :: h in chain ==> h in headers
    decreases |chain|
  {
    var n := |chain| - 1;
    if n > 0 { ChainIsKnown(headers, chain[..n]); }
    forall h | h in chain ensures h in headers {
      var i :| 0 <= i < |chain| && chain[i] == h;
      if i < n { assert chain[..n][i] == h; }
    }
  }

  /** `c` is a chain and its total work is `w`. */
  ghost predicate ChainOfWork(headers: Headers, c: seq<Hash>, w: nat) {
    && IsChain(headers, c)
    && (forall h :: h in c ==> h in headers)
    && ChainWork(headers, c) == w
  }

  /** The recursive work of a header is the sum along the chain that ends in it. */
  lemma {:induction false} PathWorkSumsChain(headers: Headers, rank: Rank, chain: seq<Hash>)
    requires Acyclic(headers, rank) && IsChain(headers, chain)
    ensures forall h :: h in chain ==> h in headers
    ensures PathWork(headers, rank, chain[|chain| - 1]) == Some(ChainWork(headers, chain))
    decreases |chain|
  {
    ChainIsKnown(headers, chain);
    var n := |chain| - 1;
    if n > 0 { PathWorkSumsChain(headers, rank, chain[..n]); }
  }

  /** Parents rank below their children, so a chain never revisits a header. */
  lemma {:induction false} ChainAscends(headers: Headers, rank: Rank, chain: seq<Hash>, i: nat, j: nat)
    requires Acyclic(headers, rank) && IsChain(headers, chain) && i < j < |chain|
    ensures rank(chain[i]) < rank(chain[j])
    decreases |chain|
  {
    var n := |chain| - 1;
    assert chain[..n][i] == chain[i];
    if j < n {
      assert chain[..n][j] == chain[j];
      ChainAscends(headers, rank, chain[..n], i, j);
    } else {
      ChainIsKnown(headers, chain);
      assert chain[n - 1] in chain;
      if i < n - 1 { ChainAscends(headers, rank, chain[..n], i, n - 1); }
    }
  }

  ghost predicate Distinct(s: seq<Hash>) {
    forall i, j :: 0 <= i < j < |s| ==> s[i] != s[j]
  }

  lemma {:induction false} DistinctCount(s: seq<Hash>)
    requires Distinct(s)
    ensures |set h | h in s| == |s|
  {
    if |s| > 0 {
      var n := |s| - 1;
      DistinctCount(s[..n]);
      assert (set h | h in s) == (set h | h in s[..n]) + {s[n]};
      assert s[n] !in s[..n];
    }
  }

  // ---- Walking back from the tip ----

  function Reversed(s: seq<Hash>): (r: seq<Hash>)
    ensures |r| == |s| && (|s| > 0 ==> r[|s| - 1] == s[0])
  {
    if |s| == 0 then [] else Reversed(s[1..]) + [s[0]]
  }

  lemma {:induction false} WalkReversesToChain(headers: Headers, path: seq<Hash>, root: Hash)
    requires WalksTo(headers, path, root) && root in headers && headers[root].prev == ZeroHash()
    ensures IsChain(headers, Reversed(path + [root]))
    decreases |path|
  {
    var whole := path + [root];
    if |path| == 0 {
      assert whole[1..] == [];
    } else {
      var rest := path[1..];
      assert whole[1..] == rest + [root];
      assert WalkStep(headers, path, root, 0);
      forall i | 0 <= i < |rest| ensures WalkStep(headers, rest, root, i) {
        assert WalkStep(headers, path, root, i + 1);
      }
      WalkReversesToChain(headers, rest, root);
      assert Reversed(whole)[..|path|] == Reversed(whole[1..]);
    }
  }

  /** From the tip to the zero-parent block, then reversed; the missing-parent exit is dead. */
  method WalkBack(headers: Headers, tip: Hash, ghost rank: Rank) returns (chain: seq<Hash>)
    requires Acyclic(headers, rank) && PathWork(headers, rank, tip).Some?
    ensures IsChain(headers, chain) && chain[|chain| - 1] == tip
  {
    var path: seq<Hash> := [];
    var cur := tip;
    while true
      invariant WalksTo(headers, path, cur)
      invariant (path + [cur])[0] == tip
      invariant PathWork(headers, rank, cur).Some?
      decreases rank(cur)
    {
      var prev := headers[cur].prev;
      if prev == ZeroHash() { break; }
      WalkExtends(headers, path, cur);
      path := path + [cur];
      if prev in headers {
        cur := prev;
      } else {
        assert false;
      }
    }
    WalkReversesToChain(headers, path, cur);
    chain := Reversed(path + [cur]);
  }

  // ---- The index handed to the pipeline ----

  datatype ChainIndex = ChainIndex(byHeight: seq<BlockLocation>, heightOf: map<Hash, u32>)

  datatype Stats = Stats(totalRecords: nat, uniqueBlocks: nat, orphans: nat, tipHeight: u32, tipHash: Hash)

  datatype ChainError = NoRecords

  /** The index lists the chain's locations by height and inverts it by hash. */
  ghost predicate Indexes(headers: Headers, chain: seq<Hash>, index: ChainIndex) {
    && |index.byHeight| == |chain|
    && (forall i :: 0 <= i < |chain| ==> chain[i] in headers && index.byHeight[i] == headers[chain[i]].location)
    && (forall i :: 0 <= i < |chain| ==> chain[i] in index.heightOf && index.heightOf[chain[i]] == i % U32_RANGE)
    && (forall h :: h in index.heightOf ==> h in chain)
  }

  /** The statistics: orphans are the headers left off the chain. */
  ghost predicate Counts(headers: Headers, chain: seq<Hash>, s: Stats) {
    && s.uniqueBlocks == |headers|
    && s.orphans == |headers.Keys - (set h | h in chain)|
    && |chain| > 0 && s.tipHash == chain[|chain| - 1] && s.tipHeight == (|chain| - 1) % U32_RANGE
  }

  method AssignHeights(headers: Headers, chain: seq<Hash>) returns (index: ChainIndex)
    requires forall h :: h in chain ==> h in headers
    requires Distinct(chain)
    ensures Indexes(headers, chain, index)
  {
    var byHeight: seq<BlockLocation> := [];
    var heightOf: map<Hash, u32> := map[];
    for i := 0 to |chain|
      invariant |byHeight| == i
      invariant forall k :: 0 <= k < i ==> byHeight[k] == headers[chain[k]].location
      invariant forall k :: 0 <= k < i ==> chain[k] in heightOf && heightOf[chain[k]] == k % U32_RANGE
      invariant forall h :: h in heightOf ==> h in chain
    {
      byHeight := byHeight + [headers[chain[i]].location];
      heightOf := heightOf[chain[i] := i % U32_RANGE];
    }
    index := ChainIndex(byHeight, heightOf);
  }

  /** No header is connected to a zero-parent block. */
  ghost predicate NoChain(headers: Headers) {
    forall c :: !IsChain(headers, c)
  }

  /** Among all chains from a zero-parent block, none carries more work than `chain`. */
  ghost predicate IsHeaviest(headers: Headers, chain: seq<Hash>) {
    && IsChain(headers, chain)
    && (forall h :: h in chain ==> h in headers)
    && forall c, w: nat :: ChainOfWork(headers, c, w) ==> w <= ChainWork(headers, chain)
  }

  /** The heaviest chain, if any header connects. */
  method HeaviestChain(headers: Headers, ghost rank: Rank) returns (chain: Option<seq<Hash>>)
    requires Acyclic(headers, rank)
    ensures chain.None? ==> NoChain(headers)
    ensures chain.Some? ==> IsHeaviest(headers, chain.value) && Distinct(chain.value)
  {
    var cum := FirstPass(headers, rank);
    cum := Sweep(headers, cum, rank);
    var tip := SelectTip(cum);
    if tip.None? {
      NothingConnected(headers, rank);
      return None;
    }
    var walked := WalkBack(headers, tip.value.0, rank);
    TipIsHeaviest(headers, rank, walked);
    ChainDistinct(headers, rank, walked);
    chain := Some(walked);
  }

  /**
   * The header pass as a whole. It fails exactly when nothing connects to a
   * zero-parent block; otherwise the chain it indexes is the heaviest one,
   * visits no header twice, and every other header is counted as an orphan.
   */
  method BuildChainIndex(records: seq<Record>, ghost rank: Rank)
    returns (r: Result<(ChainIndex, Stats), ChainError>, ghost chain: seq<Hash>)
    requires Acyclic(FirstSeen(records), rank)
    ensures r.Err? <==> NoChain(FirstSeen(records))
    ensures r.Ok? ==> IsHeaviest(FirstSeen(records), chain) && Distinct(chain)
    ensures r.Ok? ==> Indexes(FirstSeen(records), chain, r.value.0)
    ensures r.Ok? ==> Counts(FirstSeen(records), chain, r.value.1) && r.value.1.totalRecords == |records|
  {
    var headers := CollectHeaders(records);
    var found := HeaviestChain(headers, rank);
    if found.None? { return Err(NoRecords), []; }
    var walked := found.value;
    chain := walked;
    var index := AssignHeights(headers, walked);
    OrphanCount(headers, walked);
    var orphans := if |headers| >= |walked| then |headers| - |walked| else 0;
    r := Ok((index, Stats(|records|, |headers|, orphans, (|walked| - 1) % U32_RANGE, walked[|walked| - 1])));
  }

  lemma {:induction false} ChainDistinct(headers: Headers, rank: Rank, chain: seq<Hash>)
    requires Acyclic(headers, rank) && IsChain(headers, chain)
    ensures Distinct(chain)
  {
    forall i, j | 0 <= i < j < |chain| ensures chain[i] != chain[j] {
      ChainAscends(headers, rank, chain, i, j);
    }
  }

  lemma OrphanCount(headers: Headers, chain: seq<Hash>)
    requires forall h :: h in chain ==> h in headers
    requires Distinct(chain)
    ensures |headers| - |chain| == |headers.Keys - (set h | h in chain)|
  {
    DistinctCount(chain);
    var on := set h | h in chain;
    assert on <= headers.Keys;
    assert headers.Keys == (headers.Keys - on) + on;
  }

  lemma {:induction false} NothingConnected(headers: Headers, rank: Rank)
    requires Acyclic(headers, rank) && forall h :: PathWork(headers, rank, h).None?
    ensures NoChain(headers)
  {
    forall c ensures !IsChain(headers, c) {
      if IsChain(headers, c) { PathWorkSumsChain(headers, rank, c); }
    }
  }

  lemma {:induction false} TipIsHeaviest(headers: Headers, rank: Rank, chain: seq<Hash>)
    requires Acyclic(headers, rank) && IsChain(headers, chain)
    requires forall h :: PathWork(headers, rank, h).Some? ==>
      PathWork(headers, rank, chain[|chain| - 1]).Some?
      && PathWork(headers, rank, h).value <= PathWork(headers, rank, chain[|chain| - 1]).value
    ensures IsHeaviest(headers, chain)
  {
    PathWorkSumsChain(headers, rank, chain);
    forall c, w: nat | ChainOfWork(headers, c, w) ensures w <= ChainWork(headers, chain) {
      PathWorkSumsChain(headers, rank, c);
    }
  }
}
