// The live tracker's catch-up: reconcile with the node, then apply forward.
module Tracker {
  import opened Wrappers
  import opened Bytes
  import opened Rows
  import opened UndoCodec
  import opened UtxoSpec
  import opened UtxoReorg
  import opened UtxoStore

  /** A block as the node serves it, already parsed. */
  datatype NodeBlock = NodeBlock(hash: Hash, block: Block)

  /** A node that does not change during a call: its best chain, genesis first. */
  type Chain = seq<NodeBlock>

  datatype TrackerError = Rpc | Utxo(error: UtxoError) | ReorgTooDeep(disconnects: nat)

  datatype Event =
    | ReorgStart
    | Disconnected(height: u32, hash: Hash)
    | AppliedBlock(height: u32, hash: Hash, spends: seq<SpendRow>)
    | CaughtUp(height: u32)

  /** What the tracker keeps between calls. */
  datatype Local = Local(db: Db, tip: Option<TipState>)

  datatype Outcome = Outcome(local: Local, failure: Option<TrackerError>, events: seq<Event>)

  predicate Serves(node: Chain) {
    0 < |node| <= U32_RANGE && forall i :: 0 <= i < |node| ==> node[i].hash != ZeroHash()
  }

  /** The hash the node gives for a height; unknown heights compare as zero. */
  function HashAt(node: Chain, height: nat): Hash {
    if height < |node| then node[height].hash else ZeroHash()
  }

  predicate Matches(node: Chain, tip: TipState) {
    HashAt(node, tip.height) == tip.hash && HashAt(node, tip.height) != ZeroHash()
  }

  // ---- What the code does, as functions ----

  datatype Reconciled = Reconciled(db: Db, stored: TipState, result: Result<TipState, TrackerError>, events: seq<Event>)

  /** The reconcile loop from `tip`, which is also the stored tip. */
  function Reconcile(db: Db, tip: TipState, node: Chain, maxReorgDepth: nat, disconnects: nat): Reconciled
    decreases tip.height
  {
    if Matches(node, tip) || tip.height == 0 then Reconciled(db, tip, Ok(tip), [])
    else if disconnects >= maxReorgDepth then Reconciled(db, tip, Err(ReorgTooDeep(disconnects)), [])
    else
      var first := if disconnects == 0 then [ReorgStart] else [];
      var d := Disconnect(db, tip.height);
      if d.Err? then Reconciled(db, tip, Err(Utxo(d.error)), first)
      else
        var events := first + [Disconnected(tip.height, tip.hash)];
        if tip.height - 1 >= |node| then Reconciled(d.value, tip, Err(Rpc), events)
        else
          // The previous hash is taken from the node, not from the abandoned branch.
          var rest := Reconcile(d.value, TipState(tip.height - 1, node[tip.height - 1].hash),
                                node, maxReorgDepth, disconnects + 1);
          rest.(events := events + rest.events)
  }

  /** Apply one block in live mode and report it. */
  function LiveStep(db: Db, height: u32, nb: NodeBlock): (Db, Event) {
    (ApplyLive(db, height, nb.block), AppliedBlock(height, nb.hash, ApplyFull(db.utxos, height, nb.block).spends))
  }

  type Stepper = (Db, u32, NodeBlock) -> (Db, Event)

  /** `step` is live application; stated so that only an explicit mention unfolds it. */
  ghost predicate IsLive(step: Stepper) {
    forall db, h, nb {:trigger LiveStep(db, h, nb)} :: step(db, h, nb) == LiveStep(db, h, nb)
  }

  /** Apply the node's blocks from height `from` to its tip. */
  function Forward(step: Stepper, db: Db, node: Chain, from: nat): (Db, seq<Event>)
    requires |node| <= U32_RANGE
    decreases |node| - from
  {
    if from >= |node| then (db, [])
    else
      var one := step(db, from, node[from]);
      var rest := Forward(step, one.0, node, from + 1);
      (rest.0, [one.1] + rest.1)
  }

  /** From a common point: apply forward and report. */
  function Finish(step: Stepper, r: Reconciled, node: Chain): Outcome
    requires 0 < |node| <= U32_RANGE
  {
    if r.result.Err? then Outcome(Local(r.db, Some(r.stored)), Some(r.result.error), r.events)
    else
      var top := |node| - 1;
      var tip := r.result.value;
      var f := Forward(step, r.db, node, tip.height + 1);
      var tip' := if tip.height < top then TipState(top, node[top].hash) else tip;
      Outcome(Local(f.0, Some(tip')), None, r.events + f.1 + [CaughtUp(tip'.height)])
  }

  function CatchUp(step: Stepper, l: Local, node: Chain, maxReorgDepth: nat): Outcome
    requires 0 < |node| <= U32_RANGE
  {
    var top := |node| - 1;
    if l.tip.None? then
      Outcome(Local(l.db, Some(TipState(top, node[top].hash))), None, [CaughtUp(top)])
    else
      Finish(step, Reconcile(l.db, l.tip.value, node, maxReorgDepth, 0), node)
  }

  // ---- What the store should hold ----

  /** The unspent set after replaying a chain from genesis. */
  function ReplayUtxos(chain: Chain): Utxos
    requires |chain| <= U32_RANGE
  {
    if |chain| == 0 then map[]
    else
      var n := |chain| - 1;
      ApplyFull(ReplayUtxos(chain[..n]), n, chain[n].block).utxos
  }

  /** The undo record live mode writes for one block of a chain. */
  function UndoRecord(chain: Chain, h: nat): bytes
    requires h < |chain| <= U32_RANGE
  {
    UndoStorable(ReplayUtxos(chain[..h]), h, chain[h].block);
    UndoBytes(ApplyFull(ReplayUtxos(chain[..h]), h, chain[h].block).undo)
  }

  ghost predicate HasRecord(log: map<u32, bytes>, chain: Chain, h: nat) {
    h < |chain| <= U32_RANGE && h in log && log[h] == UndoRecord(chain, h)
  }

  /** The set is the chain's, and the blocks from `base` on can be undone. */
  ghost predicate Holds(db: Db, chain: Chain, base: nat) {
    && |chain| <= U32_RANGE && db.utxos == ReplayUtxos(chain)
    && forall h :: base <= h < |chain| ==> HasRecord(db.undoLog, chain, h)
  }

  /** The top block's surviving outputs are new to the set it was applied to. */
  predicate FreshTop(chain: Chain)
    requires 0 < |chain| <= U32_RANGE
  {
    var n := |chain| - 1;
    FreshBlock(ReplayUtxos(chain[..n]), chain[n].block)
  }

  lemma RecordKept(chain: Chain, longer: Chain, h: nat)
    requires h < |chain| <= |longer| <= U32_RANGE && longer[..|chain|] == chain
    ensures UndoRecord(longer, h) == UndoRecord(chain, h)
  {
    assert longer[..h] == chain[..h] && longer[h] == chain[h];
  }

  lemma HoldsExtends(db: Db, chain: Chain, base: nat, nb: NodeBlock)
    requires Holds(db, chain, base) && |chain| < U32_RANGE
    ensures Holds(ApplyLive(db, |chain|, nb.block), chain + [nb], base)
  {
    hide ApplyFull;
    var n, longer := |chain|, chain + [nb];
    assert longer[..n] == chain;
    var db' := ApplyLive(db, n, nb.block);
    forall h | base <= h < |longer| ensures HasRecord(db'.undoLog, longer, h) {
      if h < n {
        assert HasRecord(db.undoLog, chain, h);
        RecordKept(chain, longer, h);
      }
    }
  }

  /** A database that holds a chain is what applying the top block to the rest gives. */
  lemma TopIsApplied(db: Db, chain: Chain, base: nat)
    requires Holds(db, chain, base) && base < |chain|
    ensures var n := |chain| - 1;
            db == ApplyLive(Db(ReplayUtxos(chain[..n]), db.undoLog), n, chain[n].block)
  {
    var n := |chain| - 1;
    assert HasRecord(db.undoLog, chain, n);
    assert db.undoLog[n := UndoRecord(chain, n)] == db.undoLog;
  }

  lemma HoldsRetracts(db: Db, chain: Chain, base: nat)
    requires Holds(db, chain, base) && base < |chain| && FreshTop(chain)
    ensures Disconnect(db, |chain| - 1).Ok?
    ensures Holds(Disconnect(db, |chain| - 1).value, chain[..|chain| - 1], base)
    ensures |chain| - 1 !in Disconnect(db, |chain| - 1).value.undoLog
  {
    var n := |chain| - 1;
    var below := Db(ReplayUtxos(chain[..n]), db.undoLog);
    TopIsApplied(db, chain, base);
    DisconnectAfterApply(below, n, chain[n].block);
    assert below.utxos - Survivors(chain[n].block) == below.utxos;
    var db' := Db(below.utxos, db.undoLog - {n});
    forall h | base <= h < n ensures HasRecord(db'.undoLog, chain[..n], h) {
      assert HasRecord(db.undoLog, chain, h);
      RecordKept(chain[..n], chain, h);
    }
  }

  lemma OneMore(held: Chain, node: Chain)
    requires |held| < |node|
    ensures (held + [node[|held|]]) + node[|held| + 1..] == held + node[|held|..]
  {
  }

  lemma LiveStepHolds(step: Stepper, db: Db, chain: Chain, base: nat, nb: NodeBlock)
    requires IsLive(step) && Holds(db, chain, base) && |chain| < U32_RANGE
    ensures Holds(step(db, |chain|, nb).0, chain + [nb], base)
  {
    assert step(db, |chain|, nb) == LiveStep(db, |chain|, nb);
    HoldsExtends(db, chain, base, nb);
  }

  /** Forward application puts the node's remaining blocks on top of whatever is held. */
  lemma {:induction false} ForwardHolds(step: Stepper, db: Db, held: Chain, node: Chain, base: nat)
    requires IsLive(step) && Holds(db, held, base) && |held| <= |node| <= U32_RANGE
    ensures Holds(Forward(step, db, node, |held|).0, held + node[|held|..], base)
    decreases |node| - |held|
  {
    var n := |held|;
    if n == |node| {
      assert held + node[n..] == held;
    } else {
      LiveStepHolds(step, db, held, base, node[n]);
      OneMore(held, node);
      ForwardHolds(step, step(db, n, node[n]).0, held + [node[n]], node, base);
    }
  }

  // ---- The reconcile loop ----

  /** The height and hash of a chain's last block. */
  function TipOfChain(chain: Chain): TipState
    requires 0 < |chain| <= U32_RANGE
  {
    TipState(|chain| - 1, chain[|chain| - 1].hash)
  }

  lemma {:induction false} ReconcileMatching(db: Db, tip: TipState, node: Chain, maxReorgDepth: nat, disconnects: nat)
    requires Matches(node, tip) || tip.height == 0
    ensures Reconcile(db, tip, node, maxReorgDepth, disconnects) == Reconciled(db, tip, Ok(tip), [])
  {
  }

  /**
   * After one disconnect the tip the loop continues with carries the node's own hash, so
   * the next comparison succeeds: against a node that does not change, the loop never
   * disconnects a second block.
   */
  lemma {:induction false} ReconcileStopsAfterOne(db: Db, tip: TipState, node: Chain, maxReorgDepth: nat)
    requires Serves(node) && !Matches(node, tip) && 0 < tip.height <= |node| && maxReorgDepth > 0
    requires Disconnect(db, tip.height).Ok?
    ensures var back := TipState(tip.height - 1, node[tip.height - 1].hash);
            Reconcile(db, tip, node, maxReorgDepth, 0)
            == Reconciled(Disconnect(db, tip.height).value, back, Ok(back),
                          [ReorgStart, Disconnected(tip.height, tip.hash)])
  {
    var d := Disconnect(db, tip.height).value;
    var back := TipState(tip.height - 1, node[tip.height - 1].hash);
    ReconcileMatching(d, back, node, maxReorgDepth, 1);
  }

  lemma {:induction false} ReconcileMissesHeight(db: Db, tip: TipState, node: Chain, maxReorgDepth: nat)
    requires !Matches(node, tip) && |node| < tip.height && maxReorgDepth > 0
    requires Disconnect(db, tip.height).Ok?
    ensures var r := Reconcile(db, tip, node, maxReorgDepth, 0);
            r.db == Disconnect(db, tip.height).value && r.stored == tip && r.result == Err(Rpc)
  {
  }

  // ---- Catching up ----

  /** The store holds `chain` and says so. */
  ghost predicate InSync(l: Local, chain: Chain, base: nat) {
    0 < |chain| <= U32_RANGE && Holds(l.db, chain, base) && l.tip == Some(TipOfChain(chain))
  }

  function Disconnects(events: seq<Event>): nat {
    if |events| == 0 then 0
    else Disconnects(events[..|events| - 1]) + (if events[|events| - 1].Disconnected? then 1 else 0)
  }

  lemma {:induction false} DisconnectsAppend(a: seq<Event>, b: seq<Event>)
    ensures Disconnects(a + b) == Disconnects(a) + Disconnects(b)
  {
    if |b| == 0 {
      assert a + b == a;
    } else {
      assert (a + b)[..|a + b| - 1] == a + b[..|b| - 1];
      DisconnectsAppend(a, b[..|b| - 1]);
    }
  }

  ghost predicate Applies(step: Stepper) {
    forall db, h, nb :: step(db, h, nb).1.AppliedBlock?
  }

  lemma {:induction false} ForwardOnlyApplies(step: Stepper, db: Db, node: Chain, from: nat)
    requires |node| <= U32_RANGE && Applies(step)
    ensures Disconnects(Forward(step, db, node, from).1) == 0
    decreases |node| - from
  {
    if from < |node| {
      var (db', event) := step(db, from, node[from]);
      ForwardOnlyApplies(step, db', node, from + 1);
      DisconnectsAppend([event], Forward(step, db', node, from + 1).1);
      assert [event][..0] == [];
    }
  }

  lemma LiveApplies(step: Stepper)
    requires IsLive(step)
    ensures Applies(step)
  {
    forall db, h, nb ensures step(db, h, nb).1.AppliedBlock? {
      assert LiveStep(db, h, nb).1.AppliedBlock?;
    }
  }

  lemma {:induction false} ForwardNothing(step: Stepper, db: Db, node: Chain)
    requires |node| <= U32_RANGE
    ensures Forward(step, db, node, |node|) == (db, [])
  {
  }

  /** From a point that carries the node's hash for its height. */
  lemma {:induction false} FinishShape(step: Stepper, d: Db, tip: TipState, node: Chain, events: seq<Event>)
    requires 0 < |node| <= U32_RANGE && tip.height < |node| && tip.hash == node[tip.height].hash
    ensures var o := Finish(step, Reconciled(d, tip, Ok(tip), events), node);
            var f := Forward(step, d, node, tip.height + 1);
            && o.local.db == f.0 && o.local.tip == Some(TipOfChain(node))
            && o.failure.None? && o.events == events + f.1 + [CaughtUp(|node| - 1)]
  {
  }

  lemma {:induction false} ShapeDisconnects(step: Stepper, events: seq<Event>, d: Db, node: Chain, from: nat)
    requires 0 < |node| <= U32_RANGE && Applies(step)
    ensures Disconnects(events + Forward(step, d, node, from).1 + [CaughtUp(|node| - 1)]) == Disconnects(events)
  {
    var applied := Forward(step, d, node, from).1;
    ForwardOnlyApplies(step, d, node, from);
    DisconnectsAppend(events, applied);
    DisconnectsAppend(events + applied, [CaughtUp(|node| - 1)]);
    assert [CaughtUp(|node| - 1)][..0] == [];
  }

  /** Finishing from a held chain whose last height carries the node's hash. */
  lemma FinishSyncs(step: Stepper, d: Db, held: Chain, node: Chain, base: nat, events: seq<Event>)
    requires IsLive(step) && Holds(d, held, base) && 0 < |held| <= |node| <= U32_RANGE
    ensures var tip := TipState(|held| - 1, node[|held| - 1].hash);
            var o := Finish(step, Reconciled(d, tip, Ok(tip), events), node);
            && o.failure.None? && Disconnects(o.events) == Disconnects(events)
            && Holds(o.local.db, held + node[|held|..], base) && o.local.tip == Some(TipOfChain(node))
  {
    FinishShape(step, d, TipState(|held| - 1, node[|held| - 1].hash), node, events);
    ForwardHolds(step, d, held, node, base);
    LiveApplies(step);
    ShapeDisconnects(step, events, d, node, |held|);
  }

  /** A stored tip the node still has: nothing is disconnected, the rest is applied. */
  lemma CatchUpExtends(step: Stepper, l: Local, held: Chain, node: Chain, base: nat, maxReorgDepth: nat)
    requires IsLive(step) && InSync(l, held, base) && Serves(node) && held <= node
    ensures var o := CatchUp(step, l, node, maxReorgDepth);
            o.failure.None? && InSync(o.local, node, base) && Disconnects(o.events) == 0
  {
    assert node[|held| - 1] == held[|held| - 1];
    ReconcileMatching(l.db, TipOfChain(held), node, maxReorgDepth, 0);
    FinishSyncs(step, l.db, held, node, base, []);
    assert held + node[|held|..] == node;
  }

  /** The chain a store ends up with when its tip block was replaced: only that block goes. */
  function Patched(held: Chain, node: Chain): Chain
    requires 0 < |held| <= |node| + 1
  {
    held[..|held| - 1] + node[|held| - 1..]
  }

  /** The reconcile loop on a replaced tip: it ends one block back, at the node's hash. */
  lemma OneBlockBack(l: Local, held: Chain, node: Chain, base: nat, maxReorgDepth: nat) returns (d: Db)
    requires InSync(l, held, base) && Serves(node) && maxReorgDepth > 0
    requires 1 < |held| <= |node| + 1 && !Matches(node, TipOfChain(held))
    requires base < |held| && FreshTop(held)
    ensures Holds(d, held[..|held| - 1], base)
    ensures var n := |held| - 1;
            var back := TipState(n - 1, node[n - 1].hash);
            Reconcile(l.db, l.tip.value, node, maxReorgDepth, 0)
            == Reconciled(d, back, Ok(back), [ReorgStart, Disconnected(n, held[n].hash)])
  {
    HoldsRetracts(l.db, held, base);
    ReconcileStopsAfterOne(l.db, TipOfChain(held), node, maxReorgDepth);
    d := Disconnect(l.db, |held| - 1).value;
  }

  /**
   * A stored tip the node no longer has, however deep the fork: one block is
   * disconnected and the node's blocks from that height on are put on top.
   */
  lemma CatchUpPatches(step: Stepper, l: Local, held: Chain, node: Chain, base: nat, maxReorgDepth: nat)
    requires IsLive(step) && InSync(l, held, base) && Serves(node) && maxReorgDepth > 0
    requires 1 < |held| <= |node| + 1 && !Matches(node, TipOfChain(held))
    requires base < |held| && FreshTop(held)
    ensures var o := CatchUp(step, l, node, maxReorgDepth);
            && o.failure.None? && Disconnects(o.events) == 1
            && Holds(o.local.db, Patched(held, node), base) && o.local.tip == Some(TipOfChain(node))
  {
    var n := |held| - 1;
    var first := [ReorgStart, Disconnected(n, held[n].hash)];
    var d := OneBlockBack(l, held, node, base, maxReorgDepth);
    FinishSyncs(step, d, held[..n], node, base, first);
    OneDisconnect(n, held[n].hash);
  }

  lemma OneDisconnect(h: u32, hash: Hash)
    ensures Disconnects([ReorgStart, Disconnected(h, hash)]) == 1
  {
    assert [ReorgStart, Disconnected(h, hash)][..1] == [ReorgStart] && [ReorgStart][..0] == [];
  }

  /** The patched chain is the node's exactly when the fork is one block deep. */
  lemma PatchedIsNodeIff(held: Chain, node: Chain)
    requires 0 < |held| <= |node| + 1
    ensures Patched(held, node) == node <==> held[..|held| - 1] <= node
  {
    var n := |held| - 1;
    assert Patched(held, node)[..n] == held[..n];
    if held[..n] <= node {
      assert node == node[..n] + node[n..];
    }
  }

  /** Equal hashes at a height mean equal chains up to there, as each hash covers its parent. */
  ghost predicate HashesIdentify(a: Chain, b: Chain) {
    forall h :: 0 <= h < |a| && h < |b| && a[h].hash == b[h].hash ==> a[..h + 1] == b[..h + 1]
  }

  /** The node extends the held chain, or replaces its last block, whose undo record exists. */
  ghost predicate Follows(held: Chain, node: Chain, base: nat)
    requires 0 < |held| <= U32_RANGE
  {
    && Serves(node) && HashesIdentify(held, node)
    && held[0] == node[0]
    && held[..|held| - 1] <= node
    && (held <= node || (base < |held| && FreshTop(held)))
  }

  /** With forks at most one block deep a call always succeeds and ends in sync with the node. */
  lemma CatchUpFollows(step: Stepper, l: Local, held: Chain, node: Chain, base: nat, maxReorgDepth: nat)
    requires IsLive(step) && InSync(l, held, base) && Follows(held, node, base) && maxReorgDepth > 0
    ensures var o := CatchUp(step, l, node, maxReorgDepth);
            o.failure.None? && InSync(o.local, node, base) && Disconnects(o.events) <= 1
  {
    if held <= node {
      CatchUpExtends(step, l, held, node, base, maxReorgDepth);
    } else {
      TipDiffers(held, node, base);
      CatchUpPatches(step, l, held, node, base, maxReorgDepth);
      PatchedIsNodeIff(held, node);
    }
  }

  lemma MatchingTip(held: Chain, node: Chain)
    requires 0 < |held| <= U32_RANGE && Serves(node) && HashesIdentify(held, node)
    requires Matches(node, TipOfChain(held))
    ensures held <= node
  {
    var n := |held| - 1;
    assert held[..n + 1] == node[..n + 1];
    assert held[..n + 1] == held;
  }

  lemma TipDiffers(held: Chain, node: Chain, base: nat)
    requires 0 < |held| <= U32_RANGE && Follows(held, node, base) && !(held <= node)
    ensures !Matches(node, TipOfChain(held)) && 1 < |held|
  {
    if Matches(node, TipOfChain(held)) {
      MatchingTip(held, node);
    }
    if |held| == 1 {
      SameGenesis(held, node);
    }
  }

  lemma SameGenesis(held: Chain, node: Chain)
    requires |held| == 1 && 0 < |node| && held[0] == node[0]
    ensures held <= node
  {
    assert held == node[..1];
  }

  /** Once caught up, calling again changes nothing and reports only that. */
  lemma CatchUpIdempotent(step: Stepper, l: Local, node: Chain, base: nat, maxReorgDepth: nat)
    requires Serves(node) && InSync(l, node, base)
    ensures CatchUp(step, l, node, maxReorgDepth) == Outcome(l, None, [CaughtUp(|node| - 1)])
  {
    ReconcileMatching(l.db, TipOfChain(node), node, maxReorgDepth, 0);
    ForwardNothing(step, l.db, node);
    assert [] + [] + [CaughtUp(|node| - 1)] == [CaughtUp(|node| - 1)];
  }

  // ---- Over any number of calls ----

  /** A call made while holding `held` against a node serving `node`. */
  datatype Call = Call(before: Local, held: Chain, node: Chain, outcome: Outcome)

  ghost predicate IsCall(step: Stepper, c: Call, base: nat, maxReorgDepth: nat) {
    && 0 < |c.held| <= U32_RANGE && Follows(c.held, c.node, base)
    && c.outcome == CatchUp(step, c.before, c.node, maxReorgDepth)
  }

  /** Calls one after another, the node extending or replacing its tip block in between. */
  ghost predicate IsCalls(step: Stepper, calls: seq<Call>, base: nat, maxReorgDepth: nat) {
    && (forall i :: 0 <= i < |calls| ==> IsCall(step, calls[i], base, maxReorgDepth))
    && (forall i :: 0 < i < |calls| ==>
         calls[i].before == calls[i - 1].outcome.local && calls[i].held == calls[i - 1].node)
  }

  ghost predicate Succeeds(c: Call, base: nat) {
    c.outcome.failure.None? && InSync(c.outcome.local, c.node, base) && Disconnects(c.outcome.events) <= 1
  }

  /** Every call succeeds and leaves the store in sync with the node it was made against. */
  lemma {:induction false} CallsStayInSync(step: Stepper, calls: seq<Call>, base: nat, maxReorgDepth: nat, i: nat)
    requires IsLive(step) && maxReorgDepth > 0 && IsCalls(step, calls, base, maxReorgDepth)
    requires i < |calls| && InSync(calls[0].before, calls[0].held, base)
    ensures Succeeds(calls[i], base)
  {
    if i > 0 {
      CallsStayInSync(step, calls, base, maxReorgDepth, i - 1);
    }
    var c := calls[i];
    CatchUpFollows(step, c.before, c.held, c.node, base, maxReorgDepth);
  }
}
