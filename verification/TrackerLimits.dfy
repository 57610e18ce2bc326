// Where a catch-up call goes wrong: forks deeper than one block, and a node far behind.
module TrackerLimits {
  import opened Wrappers
  import opened Bytes
  import opened UndoCodec
  import opened UtxoSpec
  import opened UtxoRefinement
  import opened UtxoReorg
  import opened UtxoStore
  import opened Tracker

  // ---- A replaced tip: when the call is right ----

  predicate SameRecord(a: Chain, b: Chain, h: nat)
    requires h < |a| <= U32_RANGE && h < |b| <= U32_RANGE
  {
    UndoRecord(a, h) == UndoRecord(b, h)
  }

  /** Equal undo records at a height mean equal blocks: a record names the outputs its block created. */
  ghost predicate RecordsIdentify(a: Chain, b: Chain) {
    && |a| <= U32_RANGE && |b| <= U32_RANGE
    && forall h {:trigger SameRecord(a, b, h)} :: 0 <= h < |a| && h < |b| && SameRecord(a, b, h) ==> a[h] == b[h]
  }

  lemma SameRecords(db: Db, held: Chain, node: Chain)
    requires 1 < |held| <= |node| + 1 && |held| <= U32_RANGE && |node| <= U32_RANGE
    requires Holds(db, Patched(held, node), 0) && Holds(db, node, 0)
    requires RecordsIdentify(held, node)
    ensures held[..|held| - 1] <= node
  {
    hide UndoRecord;
    hide ReplayUtxos;
    var n := |held| - 1;
    var patched := Patched(held, node);
    assert patched[..n] == held[..n];
    forall h | 0 <= h < n ensures held[h] == node[h] {
      assert HasRecord(db.undoLog, patched, h) && HasRecord(db.undoLog, node, h);
      RecordKept(held[..n], patched, h);
      RecordKept(held[..n], held, h);
      assert SameRecord(held, node, h);
    }
  }

  /**
   * A stored tip the node no longer has: the call reports success and stores the node's
   * tip at any fork depth, but it is in sync with the node exactly when the node's chain
   * still contains everything below that tip, that is, when the fork is one block deep.
   */
  lemma InSyncIff(step: Stepper, l: Local, held: Chain, node: Chain, maxReorgDepth: nat)
    requires IsLive(step) && InSync(l, held, 0) && Serves(node) && maxReorgDepth > 0
    requires 1 < |held| <= |node| + 1 && !Matches(node, TipOfChain(held)) && FreshTop(held)
    requires RecordsIdentify(held, node)
    ensures CatchUp(step, l, node, maxReorgDepth).failure.None?
    ensures InSync(CatchUp(step, l, node, maxReorgDepth).local, node, 0) <==> held[..|held| - 1] <= node
  {
    hide CatchUp;
    hide Holds;
    hide RecordsIdentify;
    hide FreshTop;
    hide Matches;
    CatchUpPatches(step, l, held, node, 0, maxReorgDepth);
    PatchedIsNodeIff(held, node);
    var o := CatchUp(step, l, node, maxReorgDepth);
    if Holds(o.local.db, node, 0) {
      SameRecords(o.local.db, held, node);
    }
  }

  // ---- What a deeper fork leaves behind ----

  /** An entry no input names survives the block. */
  lemma UnnamedStays(utxos: Utxos, height: u32, b: Block, k: Key)
    requires k in utxos && !Named(b.inputs, k)
    ensures k in ApplyFull(utxos, height, b).utxos
  {
    DeletedGrows(utxos, height, StartScan(b.outputs, height), b.inputs);
  }

  lemma {:induction false} UnnamedStaysAlong(bottom: Chain, top: Chain, k: Key)
    requires |bottom| + |top| <= U32_RANGE && k in ReplayUtxos(bottom)
    requires forall i :: 0 <= i < |top| ==> !Named(top[i].block.inputs, k)
    ensures k in ReplayUtxos(bottom + top)
  {
    hide ApplyFull;
    hide Named;
    if |top| == 0 {
      assert bottom + top == bottom;
    } else {
      var n := |top| - 1;
      UnnamedStaysAlong(bottom, top[..n], k);
      assert (bottom + top)[..|bottom| + n] == bottom + top[..n];
      UnnamedStays(ReplayUtxos(bottom + top[..n]), |bottom| + n, top[n].block, k);
    }
  }

  /**
   * At any fork depth: an output of the abandoned branch that is unspent below the stored
   * tip stays in the set for good, unless a block of the node happens to name it. The call
   * reports success all the same.
   */
  lemma {:induction false} AbandonedOutputStays(
    step: Stepper, l: Local, held: Chain, node: Chain, base: nat, maxReorgDepth: nat, k: Key)
    requires IsLive(step) && InSync(l, held, base) && Serves(node) && maxReorgDepth > 0
    requires 1 < |held| <= |node| + 1 && !Matches(node, TipOfChain(held))
    requires base < |held| && FreshTop(held)
    requires k in ReplayUtxos(held[..|held| - 1]) && k !in ReplayUtxos(node)
    requires forall h :: |held| - 1 <= h < |node| ==> !Named(node[h].block.inputs, k)
    ensures var o := CatchUp(step, l, node, maxReorgDepth);
            && o.failure.None? && o.local.tip == Some(TipOfChain(node))
            && k in o.local.db.utxos && !InSync(o.local, node, base)
  {
    hide CatchUp;
    hide ReplayUtxos;
    hide FreshTop;
    hide Named;
    CatchUpPatches(step, l, held, node, base, maxReorgDepth);
    UnnamedStaysAlong(held[..|held| - 1], node[|held| - 1..], k);
  }

  // ---- A node that is two or more blocks behind ----

  /** The tip block is disconnected before the missing height is noticed; the stored tip stays. */
  lemma FarBehindFails(step: Stepper, l: Local, held: Chain, node: Chain, base: nat, maxReorgDepth: nat)
    requires InSync(l, held, base) && Serves(node) && maxReorgDepth > 0
    requires |node| + 1 < |held| && base < |held| && FreshTop(held)
    ensures var o := CatchUp(step, l, node, maxReorgDepth);
            && o.failure == Some(Rpc) && o.local.tip == l.tip
            && Holds(o.local.db, held[..|held| - 1], base) && |held| - 1 !in o.local.db.undoLog
  {
    HoldsRetracts(l.db, held, base);
    ReconcileMissesHeight(l.db, TipOfChain(held), node, maxReorgDepth);
  }

  /** Without its undo record a tip the node lacks can never be stepped back from. */
  lemma NoRecordNoProgress(step: Stepper, l: Local, tip: TipState, node: Chain, maxReorgDepth: nat)
    requires l.tip == Some(tip) && 0 < |node| <= U32_RANGE && !Matches(node, tip) && tip.height > 0
    requires maxReorgDepth > 0 && tip.height !in l.db.undoLog
    ensures CatchUp(step, l, node, maxReorgDepth).failure == Some(Utxo(NoUndo(tip.height)))
    ensures CatchUp(step, l, node, maxReorgDepth).local == l
  {
  }

  lemma NoReorgAllowed(step: Stepper, l: Local, tip: TipState, node: Chain)
    requires l.tip == Some(tip) && 0 < |node| <= U32_RANGE && !Matches(node, tip) && tip.height > 0
    ensures CatchUp(step, l, node, 0).failure == Some(ReorgTooDeep(0))
  {
  }

  /** A tip the node does not have can be stepped back from exactly when the node is at most one block behind. */
  lemma SucceedsIff(step: Stepper, l: Local, held: Chain, node: Chain, base: nat, maxReorgDepth: nat)
    requires IsLive(step) && InSync(l, held, base) && Serves(node)
    requires 1 < |held| && !Matches(node, TipOfChain(held)) && base < |held| && FreshTop(held)
    ensures CatchUp(step, l, node, maxReorgDepth).failure.None? <==> maxReorgDepth > 0 && |held| <= |node| + 1
  {
    hide CatchUp;
    hide FreshTop;
    hide Holds;
    if maxReorgDepth == 0 {
      NoReorgAllowed(step, l, TipOfChain(held), node);
    } else if |held| <= |node| + 1 {
      CatchUpPatches(step, l, held, node, base, maxReorgDepth);
    } else {
      FarBehindFails(step, l, held, node, base, maxReorgDepth);
    }
  }

  /**
   * After such a failure the stored tip names a block the set no longer holds, and every
   * later call against a node without that block fails for want of an undo record.
   */
  lemma NodeFarBehindStrands(step: Stepper, l: Local, held: Chain, node: Chain, later: Chain, base: nat,
      maxReorgDepth: nat)
    requires InSync(l, held, base) && Serves(node) && maxReorgDepth > 0
    requires |node| + 1 < |held| && base < |held| && FreshTop(held)
    requires 0 < |later| <= U32_RANGE && !Matches(later, TipOfChain(held))
    ensures var o := CatchUp(step, l, node, maxReorgDepth);
            && o.failure == Some(Rpc) && o.local.db.utxos == ReplayUtxos(held[..|held| - 1])
            && CatchUp(step, o.local, later, maxReorgDepth).failure == Some(Utxo(NoUndo(|held| - 1)))
            && CatchUp(step, o.local, later, maxReorgDepth).local == o.local
  {
    hide CatchUp;
    hide FreshTop;
    hide ReplayUtxos;
    FarBehindFails(step, l, held, node, base, maxReorgDepth);
    NoRecordNoProgress(step, CatchUp(step, l, node, maxReorgDepth).local, TipOfChain(held), later, maxReorgDepth);
  }

  /** Apply the blocks of `chain` from height `from` on to a set. */
  function ReplayOnto(utxos: Utxos, chain: Chain, from: nat): Utxos
    requires |chain| <= U32_RANGE
    decreases |chain| - from
  {
    if from >= |chain| then utxos
    else ReplayOnto(ApplyFull(utxos, from, chain[from].block).utxos, chain, from + 1)
  }

  lemma {:induction false} ForwardReplays(step: Stepper, db: Db, node: Chain, from: nat)
    requires IsLive(step) && |node| <= U32_RANGE
    ensures Forward(step, db, node, from).0.utxos == ReplayOnto(db.utxos, node, from)
    decreases |node| - from
  {
    hide ApplyFull;
    if from < |node| {
      assert step(db, from, node[from]) == LiveStep(db, from, node[from]);
      ForwardReplays(step, step(db, from, node[from]).0, node, from + 1);
    }
  }

  /**
   * After such a failure, a node that has the held chain again is caught up with without
   * complaint, on a set that lacks the held chain's last block: the blocks that follow it
   * are applied to the set before it.
   */
  lemma {:induction false} SilentSuccess(
    step: Stepper, l: Local, held: Chain, node: Chain, later: Chain, base: nat, maxReorgDepth: nat)
    requires IsLive(step) && InSync(l, held, base) && Serves(node) && Serves(later) && maxReorgDepth > 0
    requires |node| + 1 < |held| && base < |held| && FreshTop(held) && held <= later
    ensures var o := CatchUp(step, l, node, maxReorgDepth);
            var p := CatchUp(step, o.local, later, maxReorgDepth);
            && o.failure == Some(Rpc)
            && p.failure.None? && p.local.tip == Some(TipOfChain(later)) && Disconnects(p.events) == 0
            && p.local.db.utxos == ReplayOnto(ReplayUtxos(held[..|held| - 1]), later, |held|)
            && (later == held ==> p.events == [CaughtUp(|held| - 1)])
  {
    hide Reconcile;
    hide FreshTop;
    hide ReplayUtxos;
    hide ReplayOnto;
    hide Forward;
    FarBehindFails(step, l, held, node, base, maxReorgDepth);
    var local := CatchUp(step, l, node, maxReorgDepth).local;
    var tip := TipOfChain(held);
    assert later[|held| - 1] == held[|held| - 1];
    ReconcileMatching(local.db, tip, later, maxReorgDepth, 0);
    FinishShape(step, local.db, tip, later, []);
    ForwardReplays(step, local.db, later, |held|);
    LiveApplies(step);
    ShapeDisconnects(step, [], local.db, later, |held|);
    ForwardNothing(step, local.db, held);
  }

  // ---- No call brings the store back ----

  predicate Spares(record: bytes, gone: set<Key>) {
    UndoOf(record).Some? ==> forall e :: e in UndoOf(record).value.spent ==> e.0 !in gone
  }

  /**
   * The tip is at height `n` or above, there is no record of having applied `n`, and neither
   * the set nor a record that can be reached from the tip holds a key of `gone`.
   */
  ghost predicate LostAt(db: Db, top: nat, n: nat, gone: set<Key>) {
    && top >= n && n !in db.undoLog && gone !! db.utxos.Keys
    && forall h :: n < h <= top && h in db.undoLog ==> Spares(db.undoLog[h], gone)
  }

  ghost predicate Lost(l: Local, n: nat, gone: set<Key>) {
    l.tip.Some? && LostAt(l.db, l.tip.value.height, n, gone)
  }

  /** Above height `n` the chain's blocks create no key of `gone`. */
  ghost predicate CreatesNone(chain: Chain, n: nat, gone: set<Key>) {
    forall h :: n < h < |chain| ==> KeySet(OutKeys(chain[h].block.outputs)) !! gone
  }

  lemma LostIsOutOfSync(l: Local, n: nat, gone: set<Key>, chain: Chain, base: nat)
    requires Lost(l, n, gone) && base <= n
    ensures !InSync(l, chain, base)
  {
    assert !HasRecord(l.db.undoLog, chain, n);
  }

  /** Keys that are not there and not created stay away, from the set and from the undo record. */
  lemma ApplyAddsNone(utxos: Utxos, height: u32, b: Block, gone: set<Key>)
    requires gone !! utxos.Keys && KeySet(OutKeys(b.outputs)) !! gone
    ensures gone !! ApplyFull(utxos, height, b).utxos.Keys
    ensures forall e :: e in ApplyFull(utxos, height, b).undo.spent ==> e.0 !in gone
  {
    ScanHasShape(utxos, height, b.outputs, b.inputs);
    SeedKeys(b.outputs, height);
  }

  lemma {:induction false} PutAllKeys(m: Utxos, entries: seq<(Key, UtxoValue)>, gone: set<Key>)
    requires gone !! m.Keys && forall e :: e in entries ==> e.0 !in gone
    ensures gone !! PutAll(m, entries).Keys
  {
    if |entries| > 0 { PutAllKeys(m, entries[..|entries| - 1], gone); }
  }

  lemma DisconnectStaysLost(db: Db, top: u32, n: nat, gone: set<Key>)
    requires LostAt(db, top, n, gone) && Disconnect(db, top).Ok?
    ensures top > n && LostAt(Disconnect(db, top).value, top, n, gone)
  {
    hide UndoOf;
    PutAllKeys(db.utxos, UndoOf(db.undoLog[top]).value.spent, gone);
  }

  lemma {:induction false} ReconcileStaysLost(
    db: Db, tip: TipState, node: Chain, maxReorgDepth: nat, disconnects: nat, n: nat, gone: set<Key>)
    requires LostAt(db, tip.height, n, gone)
    ensures var r := Reconcile(db, tip, node, maxReorgDepth, disconnects);
            LostAt(r.db, r.stored.height, n, gone) && (r.result.Ok? ==> r.result.value == r.stored)
    decreases tip.height
  {
    hide Disconnect;
    hide Spares;
    if !Matches(node, tip) && tip.height > 0 && disconnects < maxReorgDepth {
      var d := Disconnect(db, tip.height);
      if d.Ok? {
        DisconnectStaysLost(db, tip.height, n, gone);
        if tip.height - 1 < |node| {
          ReconcileStaysLost(d.value, TipState(tip.height - 1, node[tip.height - 1].hash), node,
                             maxReorgDepth, disconnects + 1, n, gone);
        }
      }
    }
  }

  lemma LiveStaysLost(db: Db, height: u32, b: Block, n: nat, gone: set<Key>)
    requires height > n && LostAt(db, height - 1, n, gone) && KeySet(OutKeys(b.outputs)) !! gone
    ensures LostAt(ApplyLive(db, height, b), height, n, gone)
  {
    hide ApplyFull;
    hide UndoOf;
    ApplyAddsNone(db.utxos, height, b, gone);
    UndoStorable(db.utxos, height, b);
    RecordRoundTrip(ApplyFull(db.utxos, height, b).undo);
  }

  lemma {:induction false} ForwardStaysLost(
    step: Stepper, db: Db, node: Chain, from: nat, n: nat, gone: set<Key>)
    requires IsLive(step) && n < from <= |node| <= U32_RANGE
    requires LostAt(db, from - 1, n, gone) && CreatesNone(node, n, gone)
    ensures LostAt(Forward(step, db, node, from).0, |node| - 1, n, gone)
    decreases |node| - from
  {
    hide LostAt;
    hide ApplyLive;
    if from < |node| {
      assert step(db, from, node[from]) == LiveStep(db, from, node[from]);
      LiveStaysLost(db, from, node[from].block, n, gone);
      ForwardStaysLost(step, step(db, from, node[from]).0, node, from + 1, n, gone);
    }
  }

  lemma CallStaysLost(step: Stepper, l: Local, node: Chain, maxReorgDepth: nat, n: nat, gone: set<Key>)
    requires IsLive(step) && 0 < |node| <= U32_RANGE && Lost(l, n, gone) && CreatesNone(node, n, gone)
    ensures Lost(CatchUp(step, l, node, maxReorgDepth).local, n, gone)
  {
    hide Reconcile;
    hide CreatesNone;
    hide Spares;
    ReconcileStaysLost(l.db, l.tip.value, node, maxReorgDepth, 0, n, gone);
    var r := Reconcile(l.db, l.tip.value, node, maxReorgDepth, 0);
    if r.result.Ok? && r.stored.height < |node| {
      ForwardStaysLost(step, r.db, node, r.stored.height + 1, n, gone);
    }
  }

  /** Calls one after another, against whatever each node serves. */
  ghost predicate CallsFrom(step: Stepper, locals: seq<Local>, nodes: seq<Chain>, maxReorgDepth: nat) {
    && |locals| == |nodes| + 1
    && (forall i :: 0 <= i < |nodes| ==> 0 < |nodes[i]| <= U32_RANGE)
    && (forall i :: 0 <= i < |nodes| ==> locals[i + 1] == CatchUp(step, locals[i], nodes[i], maxReorgDepth).local)
  }

  lemma {:induction false} StaysLost(step: Stepper, locals: seq<Local>, nodes: seq<Chain>, maxReorgDepth: nat,
    n: nat, gone: set<Key>, i: nat)
    requires IsLive(step) && CallsFrom(step, locals, nodes, maxReorgDepth)
    requires forall j :: 0 <= j < |nodes| ==> CreatesNone(nodes[j], n, gone)
    requires Lost(locals[0], n, gone) && i <= |nodes|
    ensures Lost(locals[i], n, gone)
  {
    hide CatchUp;
    hide Lost;
    hide CreatesNone;
    if i > 0 {
      StaysLost(step, locals, nodes, maxReorgDepth, n, gone, i - 1);
      CallStaysLost(step, locals[i - 1], nodes[i - 1], maxReorgDepth, n, gone);
    }
  }

  /** A call that failed on a node far behind, and calls that follow it against any chains. */
  ghost predicate AfterFarBehind(step: Stepper, l: Local, held: Chain, node: Chain, base: nat, maxReorgDepth: nat,
    locals: seq<Local>, nodes: seq<Chain>)
  {
    && InSync(l, held, base) && Serves(node) && maxReorgDepth > 0
    && |node| + 1 < |held| && base < |held| && FreshTop(held)
    && CallsFrom(step, locals, nodes, maxReorgDepth)
    && locals[0] == CatchUp(step, l, node, maxReorgDepth).local
  }

  lemma FarBehindIsLost(step: Stepper, l: Local, held: Chain, node: Chain, base: nat, maxReorgDepth: nat,
    locals: seq<Local>, nodes: seq<Chain>, gone: set<Key>)
    requires AfterFarBehind(step, l, held, node, base, maxReorgDepth, locals, nodes)
    requires gone !! ReplayUtxos(held[..|held| - 1]).Keys
    ensures Lost(locals[0], |held| - 1, gone)
  {
    hide CatchUp;
    hide FreshTop;
    hide ReplayUtxos;
    FarBehindFails(step, l, held, node, base, maxReorgDepth);
  }

  /**
   * Once a call has failed on a node far behind, no sequence of calls, against whatever
   * chains, ever has the store in sync with any chain again down to the lost block.
   */
  lemma NeverInSyncAgain(step: Stepper, l: Local, held: Chain, node: Chain, base: nat, maxReorgDepth: nat,
    locals: seq<Local>, nodes: seq<Chain>, i: nat, chain: Chain)
    requires IsLive(step) && AfterFarBehind(step, l, held, node, base, maxReorgDepth, locals, nodes) && i <= |nodes|
    ensures !InSync(locals[i], chain, base)
  {
    hide CatchUp;
    hide FreshTop;
    hide ReplayUtxos;
    FarBehindIsLost(step, l, held, node, base, maxReorgDepth, locals, nodes, {});
    forall j | 0 <= j < |nodes| ensures CreatesNone(nodes[j], |held| - 1, {}) {
    }
    StaysLost(step, locals, nodes, maxReorgDepth, |held| - 1, {}, i);
    LostIsOutOfSync(locals[i], |held| - 1, {}, chain, base);
  }

  /**
   * And the set itself stays wrong: outputs that were new in the lost block, and that no
   * block applied above it creates again, are missing after every sequence of calls.
   */
  lemma LostOutputsStayLost(step: Stepper, l: Local, held: Chain, node: Chain, base: nat, maxReorgDepth: nat,
    locals: seq<Local>, nodes: seq<Chain>, i: nat, gone: set<Key>)
    requires IsLive(step) && AfterFarBehind(step, l, held, node, base, maxReorgDepth, locals, nodes) && i <= |nodes|
    requires gone !! ReplayUtxos(held[..|held| - 1]).Keys
    requires forall j :: 0 <= j < |nodes| ==> CreatesNone(nodes[j], |held| - 1, gone)
    ensures gone !! locals[i].db.utxos.Keys
    ensures forall chain: Chain :: |chain| <= U32_RANGE && !(gone !! ReplayUtxos(chain).Keys) ==>
      locals[i].db.utxos != ReplayUtxos(chain)
  {
    hide CatchUp;
    hide FreshTop;
    hide ReplayUtxos;
    hide CreatesNone;
    hide InSync;
    FarBehindIsLost(step, l, held, node, base, maxReorgDepth, locals, nodes, gone);
    StaysLost(step, locals, nodes, maxReorgDepth, |held| - 1, gone, i);
  }
}
