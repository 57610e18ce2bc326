// Disconnecting a block undoes applying it, over any stack of blocks.
module UtxoReorg {
  import opened Wrappers
  import opened Bytes
  import opened Rows
  import opened UndoCodec
  import opened UtxoSpec
  import opened Runs

  datatype UtxoError = NoUndo(height: u32) | CorruptUndo(height: u32)

  /** The two column families a block touches; undo records are raw bytes. */
  datatype Db = Db(utxos: Utxos, undoLog: map<u32, bytes>)

  /** Row lists as long as memory allows. */
  predicate Sized(b: FullBlock) {
    |b.inputs| <= U64_MAX && |b.outputs| <= U64_MAX
  }

  const EMPTY_BLOCK: FullBlock := FullBlock(
    BlockRow(0, ZeroHash(), ZeroHash(), ZeroHash(), 0, 0, 0, 0, 0, 0, 0, 0, 0), [], [], [])

  type Block = b: FullBlock | Sized(b) witness EMPTY_BLOCK

  // ---- The operations on values ----

  function PutAll(m: Utxos, entries: seq<(Key, UtxoValue)>): Utxos {
    if |entries| == 0 then m
    else PutAll(m, entries[..|entries| - 1])[entries[|entries| - 1].0 := entries[|entries| - 1].1]
  }

  function KeySet(keys: seq<Key>): set<Key> { set k | k in keys }

  function Revert(m: Utxos, undo: BlockUndo): Utxos {
    PutAll(m, undo.spent) - KeySet(undo.created)
  }

  /** `apply_block` in live mode. */
  function ApplyLive(db: Db, height: u32, b: Block): Db
  {
    UndoStorable(db.utxos, height, b);
    var a := ApplyFull(db.utxos, height, b);
    Db(a.utxos, db.undoLog[height := UndoBytes(a.undo)])
  }

  /** `disconnect_block`. */
  function Disconnect(db: Db, height: u32): Result<Db, UtxoError> {
    if height !in db.undoLog then Err(NoUndo(height))
    else
      var undo := UndoOf(db.undoLog[height]);
      if undo.None? then Err(CorruptUndo(height))
      else Ok(Db(Revert(db.utxos, undo.value), db.undoLog - {height}))
  }

  // ---- What the input scan leaves behind ----

  predicate Named(ins: seq<InputRow>, k: Key) {
    exists i :: 0 <= i < |ins| && !ins[i].isCoinbase && InKey(ins[i]) == k
  }

  /** The outputs of a block that no input of the block names. */
  function Survivors(b: Block): set<Key> {
    set k | k in OutKeys(b.outputs) && !Named(b.inputs, k)
  }

  ghost predicate ScanShape(db: Utxos, seed: Utxos, s: Scan) {
    && s.sameBlock <= seed.Keys
    && s.pending == seed - s.sameBlock
    && s.deleted <= db.Keys
    && s.deleted !! s.pending.Keys
    && (forall k :: k in s.deleted ==> (k, db[k]) in s.spent)
    && (forall e :: e in s.spent ==> e.0 in s.deleted && e.0 in db && db[e.0] == e.1)
  }

  lemma ScanShapeStep(db: Utxos, height: u32, seed: Utxos, s: Scan, inp: InputRow)
    requires ScanShape(db, seed, s)
    ensures ScanShape(db, seed, ScanInput(db, height, s, inp))
  {
    var k := InKey(inp);
    var s' := ScanInput(db, height, s, inp);
    if !inp.isCoinbase && k in s.pending {
      assert seed - s.sameBlock - {k} == seed - s'.sameBlock;
    } else if !inp.isCoinbase && k in db {
      assert forall e :: e in s'.spent <==> e in s.spent || e == (k, db[k]);
    }
  }

  lemma {:induction false} ScanHasShape(db: Utxos, height: u32, outs: seq<OutputRow>, ins: seq<InputRow>)
    ensures ScanShape(db, Seed(outs, height), ScanInputs(db, height, StartScan(outs, height), ins))
  {
    if |ins| == 0 {
      var none: set<Key> := {};
      assert Seed(outs, height) - none == Seed(outs, height);
    } else {
      ScanHasShape(db, height, outs, ins[..|ins| - 1]);
      ScanShapeStep(db, height, Seed(outs, height),
                    ScanInputs(db, height, StartScan(outs, height), ins[..|ins| - 1]), ins[|ins| - 1]);
    }
  }

  lemma NamedSnoc(ins: seq<InputRow>, k: Key)
    requires |ins| > 0
    ensures Named(ins, k) <==>
      Named(ins[..|ins| - 1], k) || (!ins[|ins| - 1].isCoinbase && InKey(ins[|ins| - 1]) == k)
  {
    var m := |ins| - 1;
    if Named(ins, k) {
      var i :| 0 <= i < |ins| && !ins[i].isCoinbase && InKey(ins[i]) == k;
      assert i < m ==> ins[..m][i] == ins[i];
    }
    if Named(ins[..m], k) {
      var i :| 0 <= i < m && !ins[..m][i].isCoinbase && InKey(ins[..m][i]) == k;
      assert ins[i] == ins[..m][i];
    }
  }

  /** An output is spent inside its block exactly when an input names it. */
  lemma {:induction false} SameBlockIsNamed(db: Utxos, height: u32, outs: seq<OutputRow>, ins: seq<InputRow>, k: Key)
    requires k in Seed(outs, height)
    ensures k in ScanInputs(db, height, StartScan(outs, height), ins).sameBlock <==> Named(ins, k)
  {
    if |ins| > 0 {
      var m := |ins| - 1;
      NamedSnoc(ins, k);
      SameBlockIsNamed(db, height, outs, ins[..m], k);
      ScanHasShape(db, height, outs, ins[..m]);
    }
  }

  lemma {:induction false} SpentCount(db: Utxos, height: u32, s: Scan, ins: seq<InputRow>)
    ensures |ScanInputs(db, height, s, ins).spent| <= |s.spent| + |ins|
  {
    if |ins| > 0 {
      SpentCount(db, height, s, ins[..|ins| - 1]);
    }
  }

  lemma UndoStorable(db: Utxos, height: u32, b: Block)
    ensures Storable(ApplyFull(db, height, b).undo)
  {
    SpentCount(db, height, StartScan(b.outputs, height), b.inputs);
  }

  // ---- One block ----

  lemma {:induction false} PutAllOf(m: Utxos, db: Utxos, entries: seq<(Key, UtxoValue)>)
    requires forall e :: e in entries ==> e.0 in db && db[e.0] == e.1
    ensures PutAll(m, entries) == m + map k | k in db && (k, db[k]) in entries :: db[k]
  {
    if |entries| > 0 {
      var n := |entries| - 1;
      assert entries[n] in entries;
      assert forall e :: e in entries <==> e in entries[..n] || e == entries[n];
      PutAllOf(m, db, entries[..n]);
    }
  }

  lemma RevertMaps(db: Utxos, deleted: set<Key>, pending: Utxos, restored: Utxos)
    requires deleted <= db.Keys && deleted !! pending.Keys
    requires restored.Keys == deleted && forall k :: k in restored ==> restored[k] == db[k]
    ensures (((db - deleted) + pending) + restored) - pending.Keys == db - pending.Keys
  {
    var l, r := (((db - deleted) + pending) + restored) - pending.Keys, db - pending.Keys;
    assert l.Keys == r.Keys;
  }

  lemma RestoredKeys(db: Utxos, seed: Utxos, s: Scan)
    requires ScanShape(db, seed, s)
    ensures (map k | k in db && (k, db[k]) in s.spent :: db[k]).Keys == s.deleted
  {
    var restored := map k | k in db && (k, db[k]) in s.spent :: db[k];
    forall k ensures k in restored.Keys <==> k in s.deleted {
      if k in restored.Keys {
        assert (k, db[k]).0 in s.deleted;
      }
    }
  }

  lemma {:induction false} RevertFinished(db: Utxos, nTx: nat, outs: seq<OutputRow>, height: u32, s: Scan)
    requires ScanShape(db, Seed(outs, height), s)
    ensures var a := Finish(db, nTx, outs, s); Revert(a.utxos, a.undo) == db - s.pending.Keys
  {
    var utxos := (db - s.deleted) + s.pending;
    var created := Without(OutKeys(outs), s.sameBlock);
    PutAllOf(utxos, db, s.spent);
    RestoredKeys(db, Seed(outs, height), s);
    RevertMaps(db, s.deleted, s.pending, map k | k in db && (k, db[k]) in s.spent :: db[k]);
    SeedKeys(outs, height);
    assert KeySet(created) == s.pending.Keys;
  }

  lemma {:induction false} SurvivorsPend(db: Utxos, height: u32, b: Block)
    ensures ScanInputs(db, height, StartScan(b.outputs, height), b.inputs).pending.Keys == Survivors(b)
  {
    var s := ScanInputs(db, height, StartScan(b.outputs, height), b.inputs);
    ScanHasShape(db, height, b.outputs, b.inputs);
    SeedKeys(b.outputs, height);
    forall k | k in Seed(b.outputs, height) ensures k in s.sameBlock <==> Named(b.inputs, k) {
      SameBlockIsNamed(db, height, b.outputs, b.inputs, k);
    }
  }

  lemma RecordRoundTrip(u: BlockUndo)
    requires Storable(u)
    ensures UndoOf(UndoBytes(u)) == Some(u)
  {
    UndoRoundTrip(u, []);
    assert UndoBytes(u) + [] == UndoBytes(u);
  }

  lemma RevertApplied(db: Utxos, height: u32, b: Block)
    ensures Revert(ApplyFull(db, height, b).utxos, ApplyFull(db, height, b).undo) == db - Survivors(b)
  {
    ScanHasShape(db, height, b.outputs, b.inputs);
    RevertFinished(db, |b.txs|, b.outputs, height,
                   ScanInputs(db, height, StartScan(b.outputs, height), b.inputs));
    SurvivorsPend(db, height, b);
  }

  lemma DisconnectRecord(utxos: Utxos, log: map<u32, bytes>, height: u32, undo: BlockUndo)
    requires Storable(undo)
    ensures Disconnect(Db(utxos, log[height := UndoBytes(undo)]), height)
         == Ok(Db(Revert(utxos, undo), log - {height}))
  {
    RecordRoundTrip(undo);
    assert log[height := UndoBytes(undo)] - {height} == log - {height};
  }

  /**
   * For every block: disconnecting straight after applying succeeds, consumes the
   * record, and gives back the prior set without the keys that survived the block.
   */
  lemma DisconnectAfterApply(db: Db, height: u32, b: Block)
    ensures Disconnect(ApplyLive(db, height, b), height)
         == Ok(Db(db.utxos - Survivors(b), db.undoLog - {height}))
  {
    UndoStorable(db.utxos, height, b);
    var a := ApplyFull(db.utxos, height, b);
    DisconnectRecord(a.utxos, db.undoLog, height, a.undo);
    RevertApplied(db.utxos, height, b);
  }

  /** The surviving outputs are new to the set (what BIP 30 asks of a block). */
  predicate FreshBlock(utxos: Utxos, b: Block) {
    Survivors(b) !! utxos.Keys
  }

  /** The prior set comes back exactly when no surviving output replaced an entry. */
  lemma DisconnectRestoresIff(db: Db, height: u32, b: Block)
    ensures Disconnect(ApplyLive(db, height, b), height).Ok?
    ensures Disconnect(ApplyLive(db, height, b), height).value.utxos == db.utxos <==> FreshBlock(db.utxos, b)
  {
    DisconnectAfterApply(db, height, b);
    var back := db.utxos - Survivors(b);
    assert back.Keys == db.utxos.Keys - Survivors(b);
    if FreshBlock(db.utxos, b) {
      assert back.Keys == db.utxos.Keys;
    }
  }

  // ---- Stacks of blocks ----

  /** One block applied in live mode. */
  type Step = RunStep<Db, Block>

  predicate IsApplied(s: Step) {
    s.after == ApplyLive(s.before, s.height, s.block)
  }

  /** The surviving outputs of the step's block are new to the set it meets. */
  predicate FreshStep(s: Step) { FreshBlock(s.before.utxos, s.block) }

  /** Blocks applied at consecutive heights, each to the state the previous one left. */
  predicate LiveRun(steps: seq<Step>) {
    Linked(steps) && forall i :: 0 <= i < |steps| ==> IsApplied(steps[i])
  }

  /** Disconnect the `count` topmost blocks below height `top`, highest first. */
  function Unwind(db: Db, top: nat, count: nat): Result<Db, UtxoError>
    requires top <= U32_RANGE
  {
    UnwindBy(Disconnect, db, top, count)
  }

  predicate LogBelow(db: Db, height: nat) {
    forall h :: h in db.undoLog ==> h < height
  }

  lemma StepLog(s: Step)
    requires IsApplied(s) && LogBelow(s.before, s.height)
    ensures LogBelow(s.after, s.height + 1)
  {
  }

  lemma {:induction false} RunLog(steps: seq<Step>, i: nat)
    requires LiveRun(steps) && i < |steps| && LogBelow(steps[0].before, steps[0].height)
    ensures LogBelow(steps[i].before, steps[i].height)
  {
    if i > 0 {
      RunLog(steps, i - 1);
      StepLog(steps[i - 1]);
    }
  }

  /** A single step back returns the whole state, undo log included. */
  lemma StepRestores(s: Step)
    requires IsApplied(s) && FreshStep(s) && LogBelow(s.before, s.height)
    ensures Disconnect(s.after, s.height) == Ok(s.before)
  {
    DisconnectAfterApply(s.before, s.height, s.block);
    assert s.before.utxos - Survivors(s.block) == s.before.utxos;
    assert s.before.undoLog - {s.height} == s.before.undoLog;
  }

  lemma RunReversible(steps: seq<Step>, i: nat)
    requires LiveRun(steps) && i < |steps| && LogBelow(steps[0].before, steps[0].height)
    requires FreshStep(steps[i])
    ensures Reversible(Disconnect, steps[i])
  {
    RunLog(steps, i);
    StepRestores(steps[i]);
  }

  /** Unwinding any number of blocks of a fresh run returns the state before them. */
  lemma UnwindRestores(steps: seq<Step>, keep: nat)
    requires LiveRun(steps) && keep < |steps|
    requires forall i :: 0 <= i < |steps| ==> FreshStep(steps[i])
    requires LogBelow(steps[0].before, steps[0].height)
    ensures var top := steps[|steps| - 1];
            Unwind(top.after, top.height + 1, |steps| - keep) == Ok(steps[keep].before)
  {
    forall i | 0 <= i < |steps| ensures Reversible(Disconnect, steps[i]) {
      RunReversible(steps, i);
    }
    UnwindLinked(Disconnect, steps, keep);
  }
}
