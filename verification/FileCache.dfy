// The shared LRU of open block files: one lock for the recency list, one for the map,
// any number of threads.
module FileCache {
  import opened Sets
  import opened Wrappers

  const MAX_CACHED_FILES: nat := 16

  predicate NoDup(s: seq<nat>) { forall i, j :: 0 <= i < j < |s| ==> s[i] != s[j] }

  /** The list without the first occurrence of `id`. */
  function Drop(lru: seq<nat>, id: nat): (r: seq<nat>)
    ensures |r| <= |lru|
  {
    if |lru| == 0 then [] else if lru[0] == id then lru[1..] else [lru[0]] + Drop(lru[1..], id)
  }

  /** `id` becomes the most recently used. */
  function MoveToBack(lru: seq<nat>, id: nat): (r: seq<nat>)
    ensures |r| <= |lru| + 1
  {
    Drop(lru, id) + [id]
  }

  lemma {:induction false} DropFacts(lru: seq<nat>, id: nat)
    requires NoDup(lru)
    ensures NoDup(Drop(lru, id)) && id !in Drop(lru, id)
    ensures forall x :: x in Drop(lru, id) <==> x in lru && x != id
    ensures |Drop(lru, id)| == (if id in lru then |lru| - 1 else |lru|)
  {
    if |lru| > 0 {
      var head, tail := lru[0], lru[1..];
      assert lru == [head] + tail;
      assert head !in tail && NoDup(tail);
      DropFacts(tail, id);
      assert head != id ==> NoDup([head] + Drop(tail, id));
    }
  }

  lemma MoveToBackFacts(lru: seq<nat>, id: nat)
    requires NoDup(lru)
    ensures NoDup(MoveToBack(lru, id))
    ensures forall x :: x in MoveToBack(lru, id) <==> x in lru || x == id
    ensures |MoveToBack(lru, id)| == (if id in lru then |lru| else |lru| + 1)
  {
    DropFacts(lru, id);
  }

  // ---- touch, run by one thread alone ----

  /** Pop the oldest ids until the capacity is met, unmapping each but `id` itself. */
  function EvictOldest(lru: seq<nat>, files: set<nat>, id: nat): (seq<nat>, set<nat>)
    decreases |lru|
  {
    if |lru| <= MAX_CACHED_FILES then (lru, files)
    else EvictOldest(lru[1..], if lru[0] != id then files - {lru[0]} else files, id)
  }

  /** What is left is the most recent part of the list, and only what was popped is unmapped. */
  lemma {:induction false} EvictOldestKeepsRecent(lru: seq<nat>, files: set<nat>, id: nat)
    requires NoDup(lru) && |lru| > 0 && lru[|lru| - 1] == id
    ensures var (l, f) := EvictOldest(lru, files, id);
            var n := if |lru| <= MAX_CACHED_FILES then 0 else |lru| - MAX_CACHED_FILES;
            l == lru[n..] && forall x :: x in f <==> x in files && x !in lru[..n]
  {
    if |lru| > MAX_CACHED_FILES {
      var tail := lru[1..];
      assert lru == [lru[0]] + tail && NoDup(tail);
      EvictOldestKeepsRecent(tail, files - {lru[0]}, id);
      var m := |lru| - MAX_CACHED_FILES;
      assert lru[m..] == tail[m - 1..] && lru[..m] == [lru[0]] + tail[..m - 1];
    }
  }

  class Cache {
    var lru: seq<nat>      // oldest first
    var files: set<nat>    // ids of the mapped files

    constructor ()
      ensures lru == [] && files == {}
    {
      lru, files := [], {};
    }

    /** Take `id` out of the list if it is there. */
    method Forget(id: nat)
      modifies this`lru
      ensures lru == Drop(old(lru), id)
    {
      var pos := 0;
      while pos < |lru| && lru[pos] != id
        invariant pos <= |lru| && lru == old(lru)
        invariant Drop(lru, id) == lru[..pos] + Drop(lru[pos..], id)
      {
        var rest := lru[pos..];
        assert rest[1..] == lru[pos + 1..];
        assert Drop(rest, id) == [lru[pos]] + Drop(rest[1..], id);
        pos := pos + 1;
      }
      if pos < |lru| {
        assert lru[pos..][1..] == lru[pos + 1..];
        lru := lru[..pos] + lru[pos + 1..];
      }
    }

    /** `touch`: move to the back, then evict the oldest beyond the capacity. */
    method Touch(id: nat)
      modifies this
      ensures (lru, files) == EvictOldest(MoveToBack(old(lru), id), old(files), id)
    {
      Forget(id);
      lru := lru + [id];
      while |lru| > MAX_CACHED_FILES
        invariant EvictOldest(lru, files, id) == EvictOldest(MoveToBack(old(lru), id), old(files), id)
        decreases |lru|
      {
        var oldest := lru[0];
        lru := lru[1..];
        if oldest != id { files := files - {oldest}; }
      }
    }
  }

  // ---- Any number of threads ----

  datatype Thread =
    | Idle
    | Missed(id: nat)                        // looked up, absent; opening the file
    | MustTouch(id: nat, inserted: bool)     // has the file; about to take the list lock
    | Evicting(id: nat)                      // holds the list lock
    | Dropping(id: nat, victim: nat)         // holds the list lock, about to unmap a file

  datatype State = State(lru: seq<nat>, files: set<nat>, owner: Option<nat>, threads: seq<Thread>)

  datatype Action =
    | Look(t: nat, id: nat)
    | OpenFails(t: nat)
    | Insert(t: nat)
    | Lock(t: nat)
    | Pop(t: nat)
    | Unmap(t: nat)
    | Unlock(t: nat)

  predicate Enabled(s: State, a: Action) {
    a.t < |s.threads| && var th := s.threads[a.t];
    match a
    case Look(_, _) => th.Idle?
    case OpenFails(_) => th.Missed?
    case Insert(_) => th.Missed?
    case Lock(_) => th.MustTouch? && s.owner.None?
    case Pop(_) => th.Evicting? && |s.lru| > MAX_CACHED_FILES
    case Unmap(_) => th.Dropping?
    case Unlock(_) => th.Evicting? && |s.lru| <= MAX_CACHED_FILES
  }

  function Step(s: State, a: Action): State
    requires Enabled(s, a)
  {
    var t, th := a.t, s.threads[a.t];
    match a
    case Look(_, id) =>
      s.(threads := s.threads[t := if id in s.files then MustTouch(id, false) else Missed(id)])
    case OpenFails(_) => s.(threads := s.threads[t := Idle])
    case Insert(_) => s.(files := s.files + {th.id}, threads := s.threads[t := MustTouch(th.id, true)])
    case Lock(_) =>
      s.(lru := MoveToBack(s.lru, th.id), owner := Some(t), threads := s.threads[t := Evicting(th.id)])
    case Pop(_) =>
      s.(lru := s.lru[1..],
         threads := s.threads[t := if s.lru[0] != th.id then Dropping(th.id, s.lru[0]) else th])
    case Unmap(_) => s.(files := s.files - {th.victim}, threads := s.threads[t := Evicting(th.id)])
    case Unlock(_) => s.(owner := None, threads := s.threads[t := Idle])
  }

  /** The file a thread may keep mapped without it being in the list. */
  function Pending(th: Thread): set<nat> {
    match th
    case MustTouch(id, inserted) => if inserted then {id} else {}
    case Dropping(_, victim) => {victim}
    case _ => {}
  }

  predicate HoldsLock(th: Thread) { th.Evicting? || th.Dropping? }

  predicate PendingSomewhere(threads: seq<Thread>, id: nat) {
    exists t :: 0 <= t < |threads| && id in Pending(threads[t])
  }

  predicate Inv(s: State) {
    && NoDup(s.lru)
    && (forall t :: 0 <= t < |s.threads| ==> (HoldsLock(s.threads[t]) <==> s.owner == Some(t)))
    && (s.owner.Some? ==> s.owner.value < |s.threads|)
    && (s.owner.None? ==> |s.lru| <= MAX_CACHED_FILES)
    && (s.owner.Some? && s.threads[s.owner.value].Dropping? ==> |s.lru| <= MAX_CACHED_FILES)
    && (s.owner.Some? && s.threads[s.owner.value].Evicting? ==> |s.lru| <= MAX_CACHED_FILES + 1)
    && (s.owner.Some? ==> |s.lru| > 0 && s.lru[|s.lru| - 1] == s.threads[s.owner.value].id)
    && (forall id :: id in s.files ==> id in s.lru || PendingSomewhere(s.threads, id))
  }

  /** A thread that keeps what it had pending lets every pending file stay pending. */
  lemma PendingKept(threads: seq<Thread>, t: nat, th: Thread, id: nat)
    requires t < |threads| && PendingSomewhere(threads, id)
    ensures id in Pending(threads[t]) || PendingSomewhere(threads[t := th], id)
  {
    var u :| 0 <= u < |threads| && id in Pending(threads[u]);
    if u != t {
      assert threads[t := th][u] == threads[u];
    }
  }

  lemma StepKeepsInv(s: State, a: Action)
    requires Inv(s) && Enabled(s, a)
    ensures Inv(Step(s, a))
  {
    var s' := Step(s, a);
    var t := a.t;
    assert s'.threads == s.threads[t := s'.threads[t]];
    MoveToBackFacts(s.lru, if a.Lock? then s.threads[t].id else 0);
    forall id | id in s'.files ensures id in s'.lru || PendingSomewhere(s'.threads, id) {
      if id in Pending(s'.threads[t]) {
        assert PendingSomewhere(s'.threads, id);
      } else if id in s.files {
        if PendingSomewhere(s.threads, id) {
          PendingKept(s.threads, t, s'.threads[t], id);
        }
        if a.Pop? {
          assert s.lru == [s.lru[0]] + s.lru[1..];
        }
      }
    }
  }

  // ---- The bound ----

  function AllPending(threads: seq<Thread>): set<nat> {
    if |threads| == 0 then {} else AllPending(threads[..|threads| - 1]) + Pending(threads[|threads| - 1])
  }

  lemma {:induction false} AllPendingHas(threads: seq<Thread>, id: nat)
    requires PendingSomewhere(threads, id)
    ensures id in AllPending(threads)
  {
    var t :| 0 <= t < |threads| && id in Pending(threads[t]);
    var n := |threads| - 1;
    if t < n {
      assert id in Pending(threads[..n][t]);
      AllPendingHas(threads[..n], id);
    }
  }

  function Quiet(threads: seq<Thread>): nat {
    if |threads| == 0 then 0
    else Quiet(threads[..|threads| - 1]) + (if Pending(threads[|threads| - 1]) == {} then 1 else 0)
  }

  lemma {:induction false} PendingCount(threads: seq<Thread>)
    ensures |AllPending(threads)| + Quiet(threads) <= |threads|
  {
    if |threads| > 0 {
      var n := |threads| - 1;
      PendingCount(threads[..n]);
      var a, p := AllPending(threads[..n]), Pending(threads[n]);
      assert |a + p| == |a| + |p| - |a * p|;
      assert a + {} == a;
    }
  }

  lemma {:induction false} QuietOne(threads: seq<Thread>, t: nat)
    requires t < |threads| && Pending(threads[t]) == {}
    ensures Quiet(threads) >= 1
  {
    var n := |threads| - 1;
    if t < n { QuietOne(threads[..n], t); }
  }

  /** Resident files are in the list or pending with a thread. */
  lemma ResidentBound(s: State)
    requires Inv(s)
    ensures |s.files| <= MAX_CACHED_FILES + |s.threads|
    ensures (forall t :: 0 <= t < |s.threads| ==> s.threads[t].Idle?) ==> |s.files| <= MAX_CACHED_FILES
  {
    var a, b := Elements(s.lru), AllPending(s.threads);
    forall id | id in s.files ensures id in a + b {
      if PendingSomewhere(s.threads, id) { AllPendingHas(s.threads, id); }
    }
    SubsetSize(s.files, a + b);
    assert |a + b| == |a| + |b| - |a * b|;
    ElementsSize(s.lru);
    PendingCount(s.threads);
    if s.owner.Some? && s.threads[s.owner.value].Evicting? {
      QuietOne(s.threads, s.owner.value);
    }
    if forall t :: 0 <= t < |s.threads| ==> s.threads[t].Idle? {
      assert forall id :: id in s.files ==> id in a;
      SubsetSize(s.files, a);
    }
  }

  // ---- Whole runs ----

  predicate Init(s: State) {
    s.lru == [] && s.files == {} && s.owner.None? && forall t :: 0 <= t < |s.threads| ==> s.threads[t].Idle?
  }

  predicate RunStep(states: seq<State>, actions: seq<Action>, i: nat)
    requires i < |actions| && |states| == |actions| + 1
  {
    Enabled(states[i], actions[i]) && states[i + 1] == Step(states[i], actions[i])
  }

  predicate IsRun(states: seq<State>, actions: seq<Action>) {
    && |states| == |actions| + 1 && Init(states[0])
    && forall i :: 0 <= i < |actions| ==> RunStep(states, actions, i)
  }

  lemma {:induction false} RunInv(states: seq<State>, actions: seq<Action>, i: nat)
    requires IsRun(states, actions) && i <= |actions|
    ensures Inv(states[i]) && |states[i].threads| == |states[0].threads|
  {
    if i > 0 {
      RunInv(states, actions, i - 1);
      assert RunStep(states, actions, i - 1);
      StepKeepsInv(states[i - 1], actions[i - 1]);
    }
  }

  /** Under every interleaving, at every moment, and at rest. */
  lemma CacheBounded(states: seq<State>, actions: seq<Action>, i: nat)
    requires IsRun(states, actions) && i <= |actions|
    ensures NoDup(states[i].lru) && (states[i].owner.None? ==> |states[i].lru| <= 16)
    ensures |states[i].files| <= 16 + |states[0].threads|
    ensures (forall t :: 0 <= t < |states[i].threads| ==> states[i].threads[t].Idle?) ==> |states[i].files| <= 16
  {
    RunInv(states, actions, i);
    ResidentBound(states[i]);
  }
}
