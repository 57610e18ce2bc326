// The catch-up as it runs against the store.
module LiveTracker {
  import opened Wrappers
  import opened Bytes
  import opened UtxoSpec
  import opened UtxoReorg
  import opened UtxoStore
  import opened Tracker

  /** The node serves parsed blocks whose rows name only their own transactions. */
  predicate Parsed(node: Chain) {
    0 < |node| <= U32_RANGE && forall i :: 0 <= i < |node| ==> WellParsed(node[i].block)
  }

  /** What a recursive call of `Reconcile` adds to the events seen so far. */
  function After(events: seq<Event>, r: Reconciled): Reconciled { r.(events := events + r.events) }

  lemma AfterNothing(r: Reconciled)
    ensures After([], r) == r
  {
    assert [] + r.events == r.events;
  }

  lemma AfterAfter(a: seq<Event>, b: seq<Event>, r: Reconciled)
    ensures After(a, After(b, r)) == After(a + b, r)
  {
    assert a + (b + r.events) == (a + b) + r.events;
  }

  /** What a further stretch of `Forward` adds to the events seen so far. */
  function Then(events: seq<Event>, f: (Db, seq<Event>)): (Db, seq<Event>) { (f.0, events + f.1) }

  lemma ThenNothing(f: (Db, seq<Event>))
    ensures Then([], f) == f
  {
    assert [] + f.1 == f.1;
  }

  lemma ThenThen(a: seq<Event>, b: seq<Event>, f: (Db, seq<Event>))
    ensures Then(a, Then(b, f)) == Then(a + b, f)
  {
    assert a + (b + f.1) == (a + b) + f.1;
  }

  /** The loop ends at the stored tip. */
  lemma {:induction false} ReconciledTip(db: Db, tip: TipState, node: Chain, maxReorgDepth: nat, disconnects: nat)
    ensures var r := Reconcile(db, tip, node, maxReorgDepth, disconnects); r.result.Ok? ==> r.stored == r.result.value
    decreases tip.height
  {
    hide Disconnect;
    hide Matches;
    if !(Matches(node, tip) || tip.height == 0) && disconnects < maxReorgDepth {
      var d := Disconnect(db, tip.height);
      if d.Ok? && tip.height - 1 < |node| {
        ReconciledTip(d.value, TipState(tip.height - 1, node[tip.height - 1].hash), node, maxReorgDepth,
            disconnects + 1);
      }
    }
  }

  class LiveTracker {
    const store: Store
    const maxReorgDepth: nat

    constructor (store: Store, maxReorgDepth: nat)
      ensures this.store == store && this.maxReorgDepth == maxReorgDepth
    {
      this.store, this.maxReorgDepth := store, maxReorgDepth;
    }

    /** One round of the reconcile loop, below a tip the node does not have. */
    method StepBack(node: Chain, local: TipState, disconnects: nat)
      returns (failure: Option<TrackerError>, prev: TipState, events: seq<Event>)
      requires store.recent == null && store.Tip() == Some(local)
      requires !Matches(node, local) && local.height > 0
      modifies store`db, store`meta
      ensures store.Tip() == Some(if failure.Some? then local else prev)
      ensures failure.None? ==> prev.height < local.height
      ensures Reconcile(old(store.db), local, node, maxReorgDepth, disconnects)
           == (if failure.Some? then Reconciled(store.db, local, Err(failure.value), events)
               else After(events, Reconcile(store.db, prev, node, maxReorgDepth, disconnects + 1)))
    {
      events, prev := [], local;
      if disconnects >= maxReorgDepth { return Some(ReorgTooDeep(disconnects)), prev, events; }
      if disconnects == 0 { events := [ReorgStart]; }
      var d := store.DisconnectBlock(local.height);
      if d.Err? { return Some(Utxo(d.error)), prev, events; }
      events := events + [Disconnected(local.height, local.hash)];
      if local.height - 1 >= |node| { return Some(Rpc), prev, events; }
      prev := TipState(local.height - 1, node[local.height - 1].hash);
      store.SetTip(prev);
      TipRoundTrip(prev);
      failure := None;
    }

    /** Step the local tip back until the node knows it. */
    method ReconcileWith(node: Chain, tip: TipState) returns (r: Result<TipState, TrackerError>, events: seq<Event>)
      requires store.recent == null && store.Tip() == Some(tip)
      modifies store`db, store`meta
      ensures store.Tip().Some?
      ensures Reconciled(store.db, store.Tip().value, r, events)
           == Reconcile(old(store.db), tip, node, maxReorgDepth, 0)
    {
      var local, disconnects := tip, 0;
      events := [];
      AfterNothing(Reconcile(store.db, tip, node, maxReorgDepth, 0));
      while !(Matches(node, local) || local.height == 0)
        invariant store.Tip() == Some(local)
        invariant After(events, Reconcile(store.db, local, node, maxReorgDepth, disconnects))
               == Reconcile(old(store.db), tip, node, maxReorgDepth, 0)
        decreases local.height
      {
        var failure, prev, more := StepBack(node, local, disconnects);
        if failure.Some? { return Err(failure.value), events + more; }
        AfterAfter(events, more, Reconcile(store.db, prev, node, maxReorgDepth, disconnects + 1));
        local, disconnects, events := prev, disconnects + 1, events + more;
      }
      ReconcileMatching(store.db, local, node, maxReorgDepth, disconnects);
      assert events + [] == events;
      r := Ok(local);
    }

    method ApplyOne(h: u32, nb: NodeBlock, ghost step: Stepper) returns (event: Event)
      requires store.recent == null && store.undoEnabled && WellParsed(nb.block) && IsLive(step)
      modifies store`db, store`pending
      ensures (store.db, event) == step(old(store.db), h, nb)
    {
      var res := store.ApplyBlock(h, |nb.block.txs|, nb.block.inputs, nb.block.outputs);
      event := AppliedBlock(h, nb.hash, res.spends);
      assert (store.db, event) == LiveStep(old(store.db), h, nb);
    }

    /** Apply the node's blocks above the local tip, advancing the stored tip with each. */
    method ApplyForward(node: Chain, tip: TipState, ghost step: Stepper) returns (top: TipState, events: seq<Event>)
      requires store.recent == null && store.undoEnabled && Parsed(node) && store.Tip() == Some(tip) && IsLive(step)
      modifies store`db, store`meta, store`pending
      ensures (store.db, events) == Forward(step, old(store.db), node, tip.height + 1)
      ensures top == (if tip.height < |node| - 1 then TipState(|node| - 1, node[|node| - 1].hash) else tip)
      ensures store.Tip() == Some(top)
    {
      top := tip;
      events := [];
      ThenNothing(Forward(step, store.db, node, tip.height + 1));
      while top.height < |node| - 1
        invariant top == tip || (tip.height < top.height < |node| && top.hash == node[top.height].hash)
        invariant store.Tip() == Some(top)
        invariant Then(events, Forward(step, store.db, node, top.height + 1))
               == Forward(step, old(store.db), node, tip.height + 1)
        decreases |node| - top.height
      {
        var h := top.height + 1;
        var event := ApplyOne(h, node[h], step);
        ThenThen(events, [event], Forward(step, store.db, node, h + 1));
        events := events + [event];
        top := TipState(h, node[h].hash);
        store.SetTip(top);
        TipRoundTrip(top);
      }
      assert events + [] == events;
    }

    method RunWith(node: Chain, ghost step: Stepper) returns (failure: Option<TrackerError>, events: seq<Event>)
      requires store.recent == null && store.undoEnabled && Parsed(node) && IsLive(step)
      modifies store`db, store`meta, store`pending
      ensures var o := CatchUp(step, Local(old(store.db), old(store.Tip())), node, maxReorgDepth);
              store.db == o.local.db && store.Tip() == o.local.tip && failure == o.failure && events == o.events
    {
      var tip := store.Tip();
      if tip.None? {
        var top := TipState(|node| - 1, node[|node| - 1].hash);
        store.SetTip(top);
        TipRoundTrip(top);
        return None, [CaughtUp(|node| - 1)];
      }
      var r, first := ReconcileWith(node, tip.value);
      if r.Err? { return Some(r.error), first; }
      ReconciledTip(old(store.db), tip.value, node, maxReorgDepth, 0);
      var top, applied := ApplyForward(node, r.value, step);
      failure, events := None, first + applied + [CaughtUp(top.height)];
    }

    /** `catch_up`: exactly the store, the failure and the events of `CatchUp`. */
    method Run(node: Chain) returns (failure: Option<TrackerError>, events: seq<Event>)
      requires store.recent == null && store.undoEnabled && Parsed(node)
      modifies store`db, store`meta, store`pending
      ensures var o := CatchUp(LiveStep, Local(old(store.db), old(store.Tip())), node, maxReorgDepth);
              store.db == o.local.db && store.Tip() == o.local.tip && failure == o.failure && events == o.events
    {
      failure, events := RunWith(node, LiveStep);
    }
  }
}
