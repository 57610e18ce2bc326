// The UTXO store as it runs: pending map, optional cache, write batch, undo log, tip.
module UtxoStore {
  import opened Wrappers
  import opened Bytes
  import opened Rows
  import opened UndoCodec
  import opened UtxoSpec
  import opened UtxoReorg
  import opened RecentCache

  // ---- Write batches ----

  datatype WriteOp =
    | Put(key: Key, value: UtxoValue)
    | Delete(key: Key)
    | PutUndo(height: u32, record: bytes)
    | DeleteUndo(height: u32)

  function WriteOne(db: Db, op: WriteOp): Db {
    match op
    case Put(k, v) => db.(utxos := db.utxos[k := v])
    case Delete(k) => db.(utxos := db.utxos - {k})
    case PutUndo(h, r) => db.(undoLog := db.undoLog[h := r])
    case DeleteUndo(h) => db.(undoLog := db.undoLog - {h})
  }

  /** A batch is one atomic update, its operations taking effect in order. */
  function Write(db: Db, batch: seq<WriteOp>): Db {
    if |batch| == 0 then db else WriteOne(Write(db, batch[..|batch| - 1]), batch[|batch| - 1])
  }

  lemma {:induction false} WriteSnoc(db: Db, batch: seq<WriteOp>, op: WriteOp)
    ensures Write(db, batch + [op]) == WriteOne(Write(db, batch), op)
  {
    assert (batch + [op])[..|batch|] == batch;
  }

  lemma {:induction false} WriteDelete(db: Db, batch: seq<WriteOp>, deleted: set<Key>, key: Key)
    requires Write(db, batch) == Db(db.utxos - deleted, db.undoLog)
    ensures Write(db, batch + [Delete(key)]) == Db(db.utxos - (deleted + {key}), db.undoLog)
  {
    WriteSnoc(db, batch, Delete(key));
    var l, r := db.utxos - deleted - {key}, db.utxos - (deleted + {key});
    assert l.Keys == r.Keys;
  }

  /** One more pending output written; `todo` are the ones still to come. */
  lemma {:induction false} WritePut(db: Db, batch: seq<WriteOp>, base: Utxos, pending: Utxos, todo: set<Key>, key: Key)
    requires Write(db, batch).utxos == base + (pending - todo)
    requires key in pending && key in todo
    ensures Write(db, batch + [Put(key, pending[key])])
         == Db(base + (pending - (todo - {key})), Write(db, batch).undoLog)
  {
    WriteSnoc(db, batch, Put(key, pending[key]));
    assert base + (pending - (todo - {key})) == (base + (pending - todo))[key := pending[key]];
  }

  /** The restoring half of a disconnect. */
  method PutSpent(db: Db, spent: seq<(Key, UtxoValue)>) returns (batch: seq<WriteOp>)
    ensures Write(db, batch) == Db(PutAll(db.utxos, spent), db.undoLog)
  {
    batch := [];
    for i := 0 to |spent|
      invariant Write(db, batch) == Db(PutAll(db.utxos, spent[..i]), db.undoLog)
    {
      assert spent[..i + 1][..i] == spent[..i];
      WriteSnoc(db, batch, Put(spent[i].0, spent[i].1));
      batch := batch + [Put(spent[i].0, spent[i].1)];
    }
    assert spent[..|spent|] == spent;
  }

  /** The removing half of a disconnect. */
  method DeleteCreated(db: Db, batch0: seq<WriteOp>, created: seq<Key>) returns (batch: seq<WriteOp>)
    ensures Write(db, batch) == Db(Write(db, batch0).utxos - KeySet(created), Write(db, batch0).undoLog)
  {
    batch := batch0;
    ghost var mid := Write(db, batch0);
    assert mid.utxos - KeySet([]) == mid.utxos;
    for i := 0 to |created|
      invariant Write(db, batch) == Db(mid.utxos - KeySet(created[..i]), mid.undoLog)
    {
      assert created[..i + 1] == created[..i] + [created[i]];
      assert mid.utxos - KeySet(created[..i + 1]) == mid.utxos - KeySet(created[..i]) - {created[i]};
      WriteSnoc(db, batch, Delete(created[i]));
      batch := batch + [Delete(created[i])];
    }
    assert created[..|created|] == created;
  }

  // ---- Saturating arithmetic ----

  function SatAdd(a: u64, b: u64): u64 { if a + b > U64_MAX then U64_MAX else a + b }

  function SatSub(a: u64, b: u64): u64 { if a < b then 0 else a - b }

  // ---- Tip state ----

  datatype TipState = TipState(height: u32, hash: Hash)

  function TipBytes(t: TipState): (b: bytes)
    ensures |b| == 36
  {
    RangeConstants();
    LeBytes(4, t.height) + t.hash
  }

  function TipOf(b: bytes): Option<TipState> {
    RangeConstants();
    if |b| == 36 then Some(TipState(LeNat(b[..4]), b[4..])) else None
  }

  lemma TipRoundTrip(t: TipState)
    ensures TipOf(TipBytes(t)) == Some(t)
  {
    RangeConstants();
    assert TipBytes(t)[..4] == LeBytes(4, t.height) && TipBytes(t)[4..] == t.hash;
    LeRoundTrip(4, t.height);
  }

  // ---- Cache coherence ----

  /** Every cached entry equals the database entry. */
  predicate Coherent(entries: Utxos, utxos: Utxos) { SubMap(entries, utxos) }

  /** Coherent apart from the keys still to be published. */
  predicate CoherentExcept(entries: Utxos, utxos: Utxos, todo: set<Key>) {
    forall k :: k in entries && k !in todo ==> k in utxos && utxos[k] == entries[k]
  }

  /** The budget pays for `n` entries of 112 bytes. */
  predicate HasRoom(n: nat, budgetBytes: nat) { n * 112 <= budgetBytes }

  /** All but `todo` of the pending outputs are cached, and no more than `most` entries come together. */
  predicate Published(entries: Utxos, pending: Utxos, todo: set<Key>, most: nat) {
    pending.Keys - todo <= entries.Keys && |entries| + |todo| <= most
  }

  /** With room for all of them nothing is evicted. */
  lemma {:induction false} PublishOne(
    entries: Utxos, order: seq<Key>, pending: Utxos, todo: set<Key>, most: nat, key: Key, budgetBytes: nat)
    requires key in todo && key in pending
    requires HasRoom(most, budgetBytes) ==> Published(entries, pending, todo, most)
    ensures var now := entries[key := pending[key]];
      HasRoom(most, budgetBytes) ==>
        && Published(now, pending, todo - {key}, most)
        && (key !in entries ==> Evicted(now, order + [key], budgetBytes) == (now, order + [key]))
  {
    var now := entries[key := pending[key]];
    assert now.Keys == entries.Keys + {key};
    assert |now| == |now.Keys| && |entries| == |entries.Keys| && |todo - {key}| == |todo| - 1;
    if HasRoom(most, budgetBytes) {
      assert |now| <= most;
      assert |now| * 112 <= most * 112;
    }
  }

  function RealInputs(ins: seq<InputRow>): nat {
    if |ins| == 0 then 0
    else RealInputs(ins[..|ins| - 1]) + (if ins[|ins| - 1].isCoinbase then 0 else 1)
  }

  datatype SpendResult = SpendResult(
    spends: seq<SpendRow>, fees: seq<u64>, missing: nat,
    dbLookups: nat, pendingHits: nat, cacheHits: nat)

  /** What the input loop hands on to the rest of `apply_block`. */
  datatype Loop = Loop(
    batch: seq<WriteOp>, spends: seq<SpendRow>, fees: seq<u64>, missing: nat,
    spent: seq<(Key, UtxoValue)>, sameBlock: set<Key>,
    dbLookups: nat, pendingHits: nat, cacheHits: nat)

  /** Fees hold the capped sum of what each transaction has taken in. */
  predicate Credited(fees: seq<u64>, nTx: nat, spends: seq<SpendRow>) {
    |fees| == nTx && forall t :: 0 <= t < nTx ==> fees[t] == Min(PaidIn(spends, t), U64_MAX)
  }

  /** `record_spend`. */
  method RecordSpend(spends: seq<SpendRow>, fees: seq<u64>, height: u32, inp: InputRow, v: UtxoValue)
    returns (spends': seq<SpendRow>, fees': seq<u64>)
    requires inp.txIndex < |fees| && Credited(fees, |fees|, spends)
    ensures spends' == spends + [Spend(inp, height, v)]
    ensures Credited(fees', |fees|, spends')
  {
    spends' := spends + [Spend(inp, height, v)];
    fees' := fees[inp.txIndex := SatAdd(fees[inp.txIndex], v.valueSat)];
    assert spends'[..|spends|] == spends;
  }

  /** The second fee pass: subtract every output from its transaction's fee. */
  method DebitOutputs(fees: seq<u64>, spends: seq<SpendRow>, outs: seq<OutputRow>) returns (fees': seq<u64>)
    requires Credited(fees, |fees|, spends)
    requires forall i :: 0 <= i < |outs| ==> outs[i].txIndex < |fees|
    ensures fees' == Fees(|fees|, spends, outs)
  {
    fees' := fees;
    for i := 0 to |outs|
      invariant |fees'| == |fees|
      invariant forall t :: 0 <= t < |fees| ==> fees'[t] == NetFee(PaidIn(spends, t), PaidOut(outs[..i], t))
    {
      var t := outs[i].txIndex;
      assert outs[..i + 1][..i] == outs[..i];
      fees' := fees'[t := SatSub(fees'[t], outs[i].valueSat)];
    }
    assert outs[..|outs|] == outs;
  }

  /** The loop record says about the database and the rows what the scan says. */
  ghost predicate Tracks(l: Loop, s: Scan, db: Db, nTx: nat, undoEnabled: bool) {
    && l.spends == s.spends && l.missing == s.missing
    && Credited(l.fees, nTx, l.spends)
    && Write(db, l.batch) == Db(db.utxos - s.deleted, db.undoLog)
    && (undoEnabled ==> l.spent == s.spent && l.sameBlock == s.sameBlock)
  }

  /** Before the first input. */
  lemma TracksStart(l: Loop, s: Scan, db: Db, nTx: nat, undoEnabled: bool)
    requires l.batch == [] && l.spends == [] && l.missing == 0 && l.spent == [] && l.sameBlock == {}
    requires l.fees == seq(nTx, _ => 0)
    requires s.deleted == {} && s.spends == [] && s.missing == 0 && s.spent == [] && s.sameBlock == {}
    ensures Tracks(l, s, db, nTx, undoEnabled)
  {
    assert db.utxos - s.deleted == db.utxos;
  }

  /** An input found nowhere. */
  lemma TracksMissing(l: Loop, s: Scan, db: Db, height: u32, inp: InputRow, nTx: nat, undoEnabled: bool)
    requires Tracks(l, s, db, nTx, undoEnabled) && !inp.isCoinbase
    requires InKey(inp) !in s.pending && InKey(inp) !in db.utxos
    ensures Tracks(l.(missing := l.missing + 1, dbLookups := l.dbLookups + 1),
                   ScanInput(db.utxos, height, s, inp), db, nTx, undoEnabled)
  {
  }

  /** What one input does to the pending outputs and the deletions. */
  lemma ScanCases(db: Utxos, height: u32, s: Scan, inp: InputRow)
    ensures var t, key := ScanInput(db, height, s, inp), InKey(inp);
            if inp.isCoinbase then t == s
            else
              && t.pending == s.pending - {key}
              && t.deleted == if key !in s.pending && key in db then s.deleted + {key} else s.deleted
  {
  }

  /** A spent key leaves the cache and may be deleted. */
  lemma KeptCoherent(entries: Utxos, utxos: Utxos, deleted: set<Key>, key: Key)
    requires Coherent(entries, utxos) && entries.Keys !! deleted
    ensures Coherent(entries - {key}, utxos) && (entries - {key}).Keys !! deleted + {key}
    ensures key in entries ==> key in utxos && utxos[key] == entries[key]
  {
  }

  lemma FinishKeeps(db: Utxos, nTx: nat, outs: seq<OutputRow>, s: Scan)
    ensures var a := Finish(db, nTx, outs, s); a.spends == s.spends && a.missing == s.missing
  {
  }

  function Lookups(l: Loop): nat { l.pendingHits + l.cacheHits + l.dbLookups }

  /** Drain the surviving outputs into the batch, in the hash map's own order. */
  method DrainInto(db: Db, batch0: seq<WriteOp>, pending: Utxos) returns (batch: seq<WriteOp>)
    ensures Write(db, batch) == Db(Write(db, batch0).utxos + pending, Write(db, batch0).undoLog)
  {
    batch := batch0;
    var todo := pending.Keys;
    ghost var base, log := Write(db, batch0).utxos, Write(db, batch0).undoLog;
    assert base + (pending - todo) == base;
    while todo != {}
      invariant todo <= pending.Keys
      invariant Write(db, batch) == Db(base + (pending - todo), log)
      decreases todo
    {
      var key :| key in todo;
      WritePut(db, batch, base, pending, todo, key);
      batch := batch + [Put(key, pending[key])];
      todo := todo - {key};
    }
    assert pending - todo == pending;
  }

  lemma OneFewer(m: Utxos, key: Key)
    requires key in m
    ensures |m - {key}| == |m| - 1
  {
    assert (m - {key}).Keys == m.Keys - {key} && |m| == |m.Keys| && |m - {key}| == |(m - {key}).Keys|;
  }

  /** A spend of an output of the same block. */
  method SpendPending(db: Db, height: u32, inp: InputRow, l: Loop, nTx: nat, undoEnabled: bool, ghost s: Scan,
      v: UtxoValue)
    returns (l': Loop)
    requires Tracks(l, s, db, nTx, undoEnabled) && !inp.isCoinbase && inp.txIndex < nTx
    requires InKey(inp) in s.pending && s.pending[InKey(inp)] == v
    ensures Tracks(l', ScanInput(db.utxos, height, s, inp), db, nTx, undoEnabled)
    ensures l'.pendingHits == l.pendingHits + 1 && l'.cacheHits == l.cacheHits && l'.dbLookups == l.dbLookups
  {
    var spends, fees := RecordSpend(l.spends, l.fees, height, inp, v);
    l' := l.(spends := spends, fees := fees, pendingHits := l.pendingHits + 1,
             sameBlock := if undoEnabled then l.sameBlock + {InKey(inp)} else l.sameBlock);
  }

  /** A spend of a database entry, whether the cache or the database answered. */
  method SpendStored(db: Db, height: u32, inp: InputRow, l: Loop, nTx: nat, undoEnabled: bool, cached: bool,
                     ghost s: Scan, v: UtxoValue)
    returns (l': Loop)
    requires Tracks(l, s, db, nTx, undoEnabled) && !inp.isCoinbase && inp.txIndex < nTx
    requires InKey(inp) !in s.pending && InKey(inp) in db.utxos && db.utxos[InKey(inp)] == v
    requires cached ==> !undoEnabled
    ensures Tracks(l', ScanInput(db.utxos, height, s, inp), db, nTx, undoEnabled)
    ensures l'.pendingHits == l.pendingHits && l'.cacheHits == l.cacheHits + (if cached then 1 else 0)
    ensures l'.dbLookups == l.dbLookups + (if cached then 0 else 1)
  {
    var key := InKey(inp);
    WriteDelete(db, l.batch, s.deleted, key);
    var spends, fees := RecordSpend(l.spends, l.fees, height, inp, v);
    l' := l.(spends := spends, fees := fees, batch := l.batch + [Delete(key)],
             cacheHits := if cached then l.cacheHits + 1 else l.cacheHits,
             dbLookups := if cached then l.dbLookups else l.dbLookups + 1,
             spent := if undoEnabled then l.spent + [(key, v)] else l.spent);
  }

  class Store {
    var db: Db
    var meta: Option<bytes>               // the record under the tip key
    var pending: Utxos
    const recent: RecentUtxoCache?
    const undoEnabled: bool

    /** A cache implies bulk mode, and never disagrees with the database. */
    ghost predicate Valid()
      reads this, recent
    {
      recent != null ==> !undoEnabled && recent.Valid() && Coherent(recent.entries, db.utxos)
    }

    /** What the cache has answered so far, and how much it holds. */
    function CacheHits(): nat
      reads recent
    {
      if recent == null then 0 else recent.hits
    }

    function Cached(): nat
      reads recent
    {
      if recent == null then 0 else |recent.entries|
    }

    /** `open` and `open_live`. */
    constructor Open(db: Db, meta: Option<bytes>, undoEnabled: bool)
      ensures Valid() && this.db == db && this.meta == meta
      ensures this.undoEnabled == undoEnabled && recent == null
    {
      this.db, this.meta, pending := db, meta, map[];
      recent, this.undoEnabled := null, undoEnabled;
    }

    /** `open_cached`: bulk mode with a fresh cache. */
    constructor OpenCached(db: Db, meta: Option<bytes>, cacheBytes: nat)
      ensures Valid() && this.db == db && this.meta == meta
      ensures !undoEnabled && recent != null && fresh(recent) && recent.budgetBytes == cacheBytes
    {
      this.db, this.meta, pending := db, meta, map[];
      undoEnabled := false;
      recent := new RecentUtxoCache(cacheBytes);
    }

    // ---- apply_block, phase by phase ----

    ghost predicate CacheReady(s: Scan)
      reads this, recent
    {
      Valid() && (recent != null ==> recent.entries.Keys !! s.deleted)
    }

    /** Every output of the block goes into `pending` before any input is looked at. */
    method SeedPending(height: u32, outs: seq<OutputRow>)
      modifies this`pending
      ensures pending == Seed(outs, height)
    {
      pending := map[];
      for i := 0 to |outs|
        invariant pending == Seed(outs[..i], height)
      {
        assert outs[..i + 1][..i] == outs[..i];
        pending := pending[OutKey(outs[i]) := Created(outs[i], height)];
      }
      assert outs[..|outs|] == outs;
    }

    /** The cache's answer, if there is a cache; the key is not cached afterwards. */
    method TakeCached(key: Key, ghost s: Scan) returns (v: Option<UtxoValue>)
      requires CacheReady(s)
      modifies recent
      ensures Valid() && (recent != null ==> recent.entries.Keys !! s.deleted + {key})
      ensures v.Some? ==> !undoEnabled && key in db.utxos && db.utxos[key] == v.value
      ensures CacheHits() == old(CacheHits()) + (if v.Some? then 1 else 0) && Cached() <= old(Cached())
    {
      hide Coherent;
      hide Queued;
      hide Fits;
      v := None;
      if recent != null {
        KeptCoherent(recent.entries, db.utxos, s.deleted, key);
        v := recent.Remove(key);
      }
    }

    /** One input that names nothing pending: from the cache, else from the database. */
    method ResolveStored(height: u32, inp: InputRow, l: Loop, nTx: nat, ghost s: Scan) returns (l': Loop)
      requires CacheReady(s) && Tracks(l, s, db, nTx, undoEnabled)
      requires !inp.isCoinbase && inp.txIndex < nTx && InKey(inp) !in s.pending
      modifies recent
      ensures CacheReady(ScanInput(db.utxos, height, s, inp))
      ensures Tracks(l', ScanInput(db.utxos, height, s, inp), db, nTx, undoEnabled)
      ensures Lookups(l') == Lookups(l) + 1 && l'.pendingHits == l.pendingHits
      ensures l'.cacheHits - l.cacheHits == CacheHits() - old(CacheHits()) && Cached() <= old(Cached())
    {
      hide Tracks;
      hide InKey;
      hide ScanInput;
      hide Coherent;
      hide Queued;
      hide Fits;
      hide CacheHits;
      hide Cached;
      ScanCases(db.utxos, height, s, inp);
      var key := InKey(inp);
      var cached := TakeCached(key, s);
      if cached.Some? {
        l' := SpendStored(db, height, inp, l, nTx, undoEnabled, true, s, cached.value);
      } else if key in db.utxos {
        l' := SpendStored(db, height, inp, l, nTx, undoEnabled, false, s, db.utxos[key]);
      } else {
        TracksMissing(l, s, db, height, inp, nTx, undoEnabled);
        l' := l.(missing := l.missing + 1, dbLookups := l.dbLookups + 1);
      }
    }

    /** One input: from `pending`, else from what is stored. */
    method ResolveInput(height: u32, inp: InputRow, l: Loop, nTx: nat, ghost s: Scan) returns (l': Loop)
      requires pending == s.pending && CacheReady(s) && Tracks(l, s, db, nTx, undoEnabled)
      requires !inp.isCoinbase && inp.txIndex < nTx
      modifies this`pending, recent
      ensures pending == ScanInput(db.utxos, height, s, inp).pending
      ensures CacheReady(ScanInput(db.utxos, height, s, inp))
      ensures Tracks(l', ScanInput(db.utxos, height, s, inp), db, nTx, undoEnabled)
      ensures Lookups(l') == Lookups(l) + 1
      ensures l'.pendingHits + |pending| == l.pendingHits + |old(pending)|
      ensures l'.cacheHits - l.cacheHits == CacheHits() - old(CacheHits()) && Cached() <= old(Cached())
    {
      hide Tracks;
      hide InKey;
      hide ScanInput;
      hide Coherent;
      hide Queued;
      hide Fits;
      hide CacheHits;
      hide Cached;
      ScanCases(db.utxos, height, s, inp);
      var key := InKey(inp);
      if key in pending {
        l' := SpendPending(db, height, inp, l, nTx, undoEnabled, s, pending[key]);
        OneFewer(pending, key);
        pending := pending - {key};
      } else {
        l' := ResolveStored(height, inp, l, nTx, s);
        assert s.pending - {key} == s.pending;
      }
    }

    method ResolveInputs(height: u32, nTx: nat, ins: seq<InputRow>, ghost s0: Scan)
      returns (l: Loop, ghost s: Scan)
      requires pending == s0.pending && s0.deleted == {} && s0.spends == [] && s0.missing == 0
      requires s0.spent == [] && s0.sameBlock == {}
      requires Valid() && Indexed(nTx, ins, [])
      modifies this`pending, recent
      ensures s == ScanInputs(db.utxos, height, s0, ins)
      ensures pending == s.pending && CacheReady(s) && Tracks(l, s, db, nTx, undoEnabled)
      ensures Lookups(l) == RealInputs(ins) && l.pendingHits == |s0.pending| - |s.pending|
      ensures l.cacheHits == CacheHits() - old(CacheHits()) && Cached() <= old(Cached())
    {
      hide Tracks;
      hide Coherent;
      hide Queued;
      hide Fits;
      hide ScanInput;
      hide CacheHits;
      hide Cached;
      l := Loop([], [], seq(nTx, _ => 0), 0, [], {}, 0, 0, 0);
      s := s0;
      TracksStart(l, s, db, nTx, undoEnabled);
      for i := 0 to |ins|
        invariant s == ScanInputs(db.utxos, height, s0, ins[..i])
        invariant pending == s.pending && CacheReady(s) && Tracks(l, s, db, nTx, undoEnabled)
        invariant Lookups(l) == RealInputs(ins[..i]) && l.pendingHits == |s0.pending| - |s.pending|
        invariant l.cacheHits == CacheHits() - old(CacheHits()) && Cached() <= old(Cached())
      {
        assert ins[..i + 1][..i] == ins[..i];
        ScanCases(db.utxos, height, s, ins[i]);
        if !ins[i].isCoinbase {
          l := ResolveInput(height, ins[i], l, nTx, s);
        }
        s := ScanInput(db.utxos, height, s, ins[i]);
      }
      assert ins[..|ins|] == ins;
    }

    /** Publish the surviving outputs into the cache, in the hash map's own order. */
    method PublishToCache(ghost s: Scan)
      requires pending == s.pending && CacheReady(s)
      modifies recent
      ensures recent != null ==>
        recent.Valid() && !undoEnabled && Coherent(recent.entries, (db.utxos - s.deleted) + s.pending)
      ensures CacheHits() == old(CacheHits())
      ensures recent != null && HasRoom(old(Cached()) + |pending|, recent.budgetBytes) ==>
        pending.Keys <= recent.entries.Keys
    {
      if recent != null {
        var todo := pending.Keys;
        ghost var utxos := (db.utxos - s.deleted) + s.pending;
        ghost var most := |recent.entries| + |pending|;
        assert |pending| == |pending.Keys|;
        while todo != {}
          invariant todo <= pending.Keys
          invariant recent.Valid() && CoherentExcept(recent.entries, utxos, todo) && recent.hits == old(recent.hits)
          invariant HasRoom(most, recent.budgetBytes) ==> Published(recent.entries, pending, todo, most)
          decreases todo
        {
          var key :| key in todo;
          PublishOne(recent.entries, recent.order, pending, todo, most, key, recent.budgetBytes);
          recent.Insert(key, pending[key]);
          todo := todo - {key};
        }
      }
    }

    /** `undo.created`, less what the block itself spent. */
    method CreatedKeys(outs: seq<OutputRow>, sameBlock: set<Key>) returns (created: seq<Key>)
      ensures created == Without(OutKeys(outs), sameBlock)
    {
      hide OutKey;
      created := [];
      for i := 0 to |outs|
        invariant created == Without(OutKeys(outs[..i]), sameBlock)
      {
        assert OutKeys(outs[..i + 1]) == OutKeys(outs[..i]) + [OutKey(outs[i])];
        if OutKey(outs[i]) !in sameBlock { created := created + [OutKey(outs[i])]; }
      }
      assert outs[..|outs|] == outs;
    }

    /** Publish, subtract the outputs from the fees, and write everything in one batch. */
    method Flush(height: u32, nTx: nat, outs: seq<OutputRow>, l: Loop, ghost s: Scan) returns (fees: seq<u64>)
      requires pending == s.pending && CacheReady(s) && Tracks(l, s, db, nTx, undoEnabled)
      requires Indexed(nTx, [], outs) && |s.spent| <= U64_MAX && |outs| <= U64_MAX
      modifies this`db, this`pending, recent
      ensures Valid() && CacheHits() == old(CacheHits())
      ensures recent != null && HasRoom(old(Cached()) + |s.pending|, recent.budgetBytes) ==>
        s.pending.Keys <= recent.entries.Keys
      ensures var a := Finish(old(db.utxos), nTx, outs, s);
              && Storable(a.undo)
              && db.utxos == a.utxos && fees == a.fees
              && db.undoLog == (if undoEnabled then old(db.undoLog)[height := UndoBytes(a.undo)] else old(db.undoLog))
    {
      hide Fees;
      PublishToCache(s);
      fees := DebitOutputs(l.fees, l.spends, outs);
      var batch := DrainInto(db, l.batch, pending);
      pending := map[];
      if undoEnabled {
        var created := CreatedKeys(outs, l.sameBlock);
        var record := EncodeUndo(BlockUndo(l.spent, created));
        WriteSnoc(db, batch, PutUndo(height, record));
        batch := batch + [PutUndo(height, record)];
      }
      db := Write(db, batch);
    }

    /**
     * Whatever the mode, the cache and its budget, a block changes the UTXO set and
     * yields the rows that `Apply` says; live mode adds the undo record. Pending hits are
     * the outputs of the block that did not survive it, cache hits those the cache counts.
     * A cache with room for all of them holds every output that did survive.
     */
    method ApplyBlock(height: u32, nTx: nat, ins: seq<InputRow>, outs: seq<OutputRow>) returns (r: SpendResult)
      requires Valid()
      requires Indexed(nTx, ins, outs) && |ins| <= U64_MAX && |outs| <= U64_MAX
      modifies this`db, this`pending, recent
      ensures Valid()
      ensures var a := Apply(old(db.utxos), height, nTx, ins, outs);
              && Storable(a.undo)
              && db.utxos == a.utxos
              && db.undoLog == (if undoEnabled then old(db.undoLog)[height := UndoBytes(a.undo)] else old(db.undoLog))
              && r.spends == a.spends && r.fees == a.fees && r.missing == a.missing
      ensures r.pendingHits + r.cacheHits + r.dbLookups == RealInputs(ins)
      ensures r.pendingHits
           == |Seed(outs, height)| - |ScanInputs(old(db.utxos), height, StartScan(outs, height), ins).pending|
      ensures r.cacheHits == CacheHits() - old(CacheHits())
      ensures recent != null && HasRoom(old(Cached()) + |Seed(outs, height)|, recent.budgetBytes) ==>
        ScanInputs(old(db.utxos), height, StartScan(outs, height), ins).pending.Keys <= recent.entries.Keys
    {
      hide ScanInputs;
      hide Seed;
      hide Finish;
      hide Coherent;
      SeedPending(height, outs);
      var l;
      ghost var s;
      l, s := ResolveInputs(height, nTx, ins, StartScan(outs, height));
      SpentCount(db.utxos, height, StartScan(outs, height), ins);
      FinishKeeps(db.utxos, nTx, outs, s);
      var fees := Flush(height, nTx, outs, l, s);
      r := SpendResult(l.spends, fees, l.missing, l.dbLookups, l.pendingHits, l.cacheHits);
    }

    /** Play the undo record back: spent outputs return, then created ones go. */
    method DisconnectBlock(height: u32) returns (r: Result<(), UtxoError>)
      requires Valid()
      modifies this`db
      ensures r == (if Disconnect(old(db), height).Ok? then Ok(()) else Err(Disconnect(old(db), height).error))
      ensures db == (if r.Ok? then Disconnect(old(db), height).value else old(db))
      ensures recent == null || r.Err? ==> Valid()
    {
      if height !in db.undoLog { return Err(NoUndo(height)); }
      var decoded := DecodeUndo(db.undoLog[height]);
      if decoded.None? { return Err(CorruptUndo(height)); }
      var undo := decoded.value;
      var batch := PutSpent(db, undo.spent);
      batch := DeleteCreated(db, batch, undo.created);
      WriteSnoc(db, batch, DeleteUndo(height));
      batch := batch + [DeleteUndo(height)];
      db := Write(db, batch);
      r := Ok(());
    }

    method SetTip(tip: TipState)
      requires Valid()
      modifies this`meta
      ensures Valid() && meta == Some(TipBytes(tip))
    {
      meta := Some(TipBytes(tip));
    }

    /** A missing record, or one of the wrong length, reads as no tip. */
    function Tip(): Option<TipState>
      reads this`meta
    {
      if meta.None? then None else TipOf(meta.value)
    }
  }
}
