// The three-phase block application refines the reference ledger.
module UtxoRefinement {
  import opened Bytes
  import opened Rows
  import opened UtxoSpec
  import opened ReferenceLedger

  // ---- Simulation ----

  /**
   * The ledger holds the database less the deletions plus those pending outputs
   * whose transactions have been reached; `rest` are the outputs not yet reached.
   */
  ghost predicate Related(db: Utxos, s: Scan, m: Utxos, rest: Utxos) {
    && rest.Keys !! db.Keys
    && s.pending.Keys !! db.Keys
    && s.deleted <= db.Keys
    && (forall k :: k in rest ==> k in s.pending && s.pending[k] == rest[k])
    && m == (db - s.deleted) + (s.pending - rest.Keys)
  }

  /** `s` extends `s0` by the spends and misses the purse has seen. */
  predicate Tallied(s0: Scan, s: Scan, p: Purse) {
    s.spends == s0.spends + p.spends && s.missing == s0.missing + p.missing
  }

  lemma InputStep(db: Utxos, height: u32, s0: Scan, s: Scan, p: Purse, inp: InputRow, rest: Utxos)
    requires Related(db, s, p.utxos, rest) && Tallied(s0, s, p)
    requires !inp.isCoinbase ==> InKey(inp) !in s.deleted && InKey(inp) !in rest
    ensures Related(db, ScanInput(db, height, s, inp), TakeInput(p, height, inp).utxos, rest)
    ensures Tallied(s0, ScanInput(db, height, s, inp), TakeInput(p, height, inp))
  {
    var k := InKey(inp);
    var s', p' := ScanInput(db, height, s, inp), TakeInput(p, height, inp);
    if !inp.isCoinbase {
      assert k in p.utxos <==> k in s.pending || k in db;
      if k in s.pending {
        assert p'.utxos == (db - s'.deleted) + (s'.pending - rest.Keys);
      } else if k in db {
        assert p'.utxos == (db - s'.deleted) + (s'.pending - rest.Keys);
      }
    }
  }

  predicate Unspent(ins: seq<InputRow>, s: Scan, rest: Utxos) {
    forall i :: 0 <= i < |ins| && !ins[i].isCoinbase ==> InKey(ins[i]) !in s.deleted && InKey(ins[i]) !in rest
  }

  lemma {:induction false} DeletedGrows(db: Utxos, height: u32, s: Scan, ins: seq<InputRow>)
    ensures forall k :: k in ScanInputs(db, height, s, ins).deleted ==>
      k in s.deleted || exists i :: 0 <= i < |ins| && !ins[i].isCoinbase && InKey(ins[i]) == k
  {
    if |ins| > 0 {
      var n := |ins| - 1;
      DeletedGrows(db, height, s, ins[..n]);
      var mid := ScanInputs(db, height, s, ins[..n]);
      forall k | k in ScanInputs(db, height, s, ins).deleted && k !in s.deleted
        ensures exists i :: 0 <= i < |ins| && !ins[i].isCoinbase && InKey(ins[i]) == k
      {
        if k in mid.deleted {
          var i :| 0 <= i < n && !ins[..n][i].isCoinbase && InKey(ins[..n][i]) == k;
          assert ins[i] == ins[..n][i];
        } else {
          assert !ins[n].isCoinbase && InKey(ins[n]) == k;
        }
      }
    }
  }

  lemma {:induction false} InputsSimulate(
      db: Utxos, height: u32, s: Scan, m: Utxos, ins: seq<InputRow>, rest: Utxos)
    requires Related(db, s, m, rest)
    requires Unspent(ins, s, rest) && SingleSpends(ins)
    ensures Related(db, ScanInputs(db, height, s, ins), TakeInputs(Purse(m, [], 0), height, ins).utxos, rest)
    ensures Tallied(s, ScanInputs(db, height, s, ins), TakeInputs(Purse(m, [], 0), height, ins))
  {
    if |ins| == 0 {
      assert s.spends + [] == s.spends;
    } else {
      var n := |ins| - 1;
      assert forall i :: 0 <= i < n ==> ins[..n][i] == ins[i];
      InputsSimulate(db, height, s, m, ins[..n], rest);
      DeletedGrows(db, height, s, ins[..n]);
      InputStep(db, height, s, ScanInputs(db, height, s, ins[..n]),
                TakeInputs(Purse(m, [], 0), height, ins[..n]), ins[n], rest);
    }
  }

  /** Reaching a transaction's outputs moves them from `rest` into the ledger. */
  lemma OutputsReached(db: Utxos, s: Scan, m: Utxos, here: Utxos, later: Utxos)
    requires here.Keys !! later.Keys
    requires Related(db, s, m, here + later)
    ensures Related(db, s, m + here, later)
  {
    var rest := here + later;
    assert (s.pending - rest.Keys) + here == s.pending - later.Keys;
  }

  function OutputsFrom(txs: seq<Tx>, i: nat, height: u32): Utxos
    requires i <= |txs|
  {
    Seed(FlatOuts(txs[i..]), height)
  }

  lemma {:induction false} DisjointParts(
    db: Utxos, a: seq<OutputRow>, b: seq<OutputRow>, c: seq<OutputRow>, height: u32)
    requires FreshOutputs(db, a + (b + c))
    ensures Seed(b, height).Keys !! Seed(c, height).Keys
  {
    SeedKeys(b, height);
    SeedKeys(c, height);
    var all := a + (b + c);
    forall x, y | 0 <= x < |b| && 0 <= y < |c| ensures OutKey(b[x]) != OutKey(c[y]) {
      assert all[|a| + x] == b[x] && all[|a| + |b| + y] == c[y];
    }
  }

  lemma {:induction false} OutputSplit(db: Utxos, txs: seq<Tx>, i: nat, height: u32)
    requires i < |txs| && FreshOutputs(db, FlatOuts(txs))
    ensures OutputsFrom(txs, i, height) == Seed(txs[i].outs, height) + OutputsFrom(txs, i + 1, height)
    ensures Seed(txs[i].outs, height).Keys !! OutputsFrom(txs, i + 1, height).Keys
  {
    SplitOuts(txs, i);
    SeedAppend(txs[i].outs, FlatOuts(txs[i + 1..]), height);
    DisjointParts(db, FlatOuts(txs[..i]), txs[i].outs, FlatOuts(txs[i + 1..]), height);
  }

  /** No input of a transaction names an output of that transaction or of a later one. */
  lemma {:induction false} NamesNoLaterOutput(txs: seq<Tx>, i: nat, inp: InputRow, y: nat)
    requires i < |txs| && SpendsEarlier(txs) && inp in txs[i].ins && !inp.isCoinbase
    requires y < |FlatOuts(txs[i..])|
    ensures InKey(inp) != OutKey(FlatOuts(txs[i..])[y])
  {
    hide InKey;
    hide OutKey;
    hide FlatOuts;
    var tail := txs[i..];
    OutputOrigin(tail, y);
    var j :| 0 <= j < |tail| && FlatOuts(tail)[y] in tail[j].outs;
    assert tail[j] == txs[i + j];
  }

  lemma {:induction false} InputsUnspent(db: Utxos, height: u32, txs: seq<Tx>, i: nat)
    requires i < |txs| && Orderly(db, txs)
    ensures Unspent(txs[i].ins,
                    ScanInputs(db, height, StartScan(FlatOuts(txs), height), FlatIns(txs[..i])),
                    OutputsFrom(txs, i, height))
    ensures SingleSpends(txs[i].ins)
  {
    hide InKey;
    hide OutKey;
    hide SpendsEarlier;
    hide FreshOutputs;
    SplitIns(txs, i);
    var before, here := FlatIns(txs[..i]), txs[i].ins;
    DeletedGrows(db, height, StartScan(FlatOuts(txs), height), before);
    forall x | 0 <= x < |here| ensures FlatIns(txs)[|before| + x] == here[x] {}
    forall x | 0 <= x < |before| ensures FlatIns(txs)[x] == before[x] {}
    SeedKeys(FlatOuts(txs[i..]), height);
    forall x, y | 0 <= x < |here| && !here[x].isCoinbase && 0 <= y < |FlatOuts(txs[i..])|
      ensures InKey(here[x]) != OutKey(FlatOuts(txs[i..])[y])
    {
      NamesNoLaterOutput(txs, i, here[x], y);
    }
  }

  function ScanPrefix(db: Utxos, height: u32, txs: seq<Tx>, i: nat): Scan
    requires i <= |txs|
  {
    ScanInputs(db, height, StartScan(FlatOuts(txs), height), FlatIns(txs[..i]))
  }

  function LedgerPrefix(db: Utxos, height: u32, txs: seq<Tx>, i: nat): Ledger
    requires i <= |txs|
  {
    ApplyTxs(Ledger0(db), height, txs[..i])
  }

  lemma {:induction false} PrefixNext(db: Utxos, height: u32, txs: seq<Tx>, i: nat)
    requires i < |txs|
    ensures ScanPrefix(db, height, txs, i + 1) == ScanInputs(db, height, ScanPrefix(db, height, txs, i), txs[i].ins)
    ensures LedgerPrefix(db, height, txs, i + 1) == ApplyTx(LedgerPrefix(db, height, txs, i), height, txs[i])
  {
    assert txs[..i + 1][..i] == txs[..i];
    ScanAppend(db, height, StartScan(FlatOuts(txs), height), FlatIns(txs[..i]), txs[i].ins);
  }

  ghost predicate Agree(db: Utxos, height: u32, txs: seq<Tx>, i: nat)
    requires i <= |txs|
  {
    var s, l := ScanPrefix(db, height, txs, i), LedgerPrefix(db, height, txs, i);
    && Related(db, s, l.utxos, OutputsFrom(txs, i, height))
    && s.spends == l.spends
    && s.missing == l.missing
  }

  lemma {:induction false} AgreeStart(db: Utxos, height: u32, txs: seq<Tx>)
    requires FreshOutputs(db, FlatOuts(txs))
    ensures Agree(db, height, txs, 0)
  {
    assert txs[0..] == txs;
    SeedKeys(FlatOuts(txs), height);
  }

  lemma AgreeNext(db: Utxos, height: u32, txs: seq<Tx>, i: nat)
    requires i < |txs| && Orderly(db, txs)
    requires Agree(db, height, txs, i)
    ensures Agree(db, height, txs, i + 1)
  {
    var s, l := ScanPrefix(db, height, txs, i), LedgerPrefix(db, height, txs, i);
    InputsUnspent(db, height, txs, i);
    InputsSimulate(db, height, s, l.utxos, txs[i].ins, OutputsFrom(txs, i, height));
    PrefixNext(db, height, txs, i);
    OutputSplit(db, txs, i, height);
    var p := TakeInputs(Purse(l.utxos, [], 0), height, txs[i].ins);
    OutputsReached(db, ScanPrefix(db, height, txs, i + 1), p.utxos,
                   Seed(txs[i].outs, height), OutputsFrom(txs, i + 1, height));
  }

  /** After any prefix of the transactions the scan and the ledger agree. */
  lemma {:induction false} PrefixSimulates(db: Utxos, height: u32, txs: seq<Tx>, i: nat)
    requires i <= |txs| && Orderly(db, txs)
    ensures Agree(db, height, txs, i)
  {
    if i == 0 {
      AgreeStart(db, height, txs);
    } else {
      PrefixSimulates(db, height, txs, i - 1);
      AgreeNext(db, height, txs, i - 1);
    }
  }

  // ---- Fees ----

  lemma {:induction false} LocalSpends(p: Purse, height: u32, ins: seq<InputRow>, i: nat, n: nat)
    requires forall r :: r in ins ==> r.txIndex == i
    requires p.spends == []
    ensures var q := TakeInputs(p, height, ins).spends;
            PaidIn(q, n) == if n == i then SpendTotal(q) else 0
  {
    if |ins| > 0 {
      var m := |ins| - 1;
      LocalSpends(p, height, ins[..m], i, n);
      var before := TakeInputs(p, height, ins[..m]).spends;
      var after := TakeInputs(p, height, ins).spends;
      assert ins[m] in ins;
      if after != before {
        assert after[..|after| - 1] == before;
      }
    }
  }

  lemma {:induction false} LocalOuts(outs: seq<OutputRow>, i: nat, n: nat)
    requires forall o :: o in outs ==> o.txIndex == i
    ensures PaidOut(outs, n) == if n == i then OutTotal(outs) else 0
  {
    if |outs| > 0 {
      var m := |outs| - 1;
      assert outs[m] in outs;
      LocalOuts(outs[..m], i, n);
    }
  }

  /** Each transaction's own fee is what its rows amount to across the whole block. */
  predicate FeesTally(l: Ledger, outs: seq<OutputRow>, n: nat) {
    if n < |l.fees| then l.fees[n] == NetFee(PaidIn(l.spends, n), PaidOut(outs, n))
    else PaidIn(l.spends, n) == 0 && PaidOut(outs, n) == 0
  }

  lemma FeesTallyNext(l: Ledger, height: u32, tx: Tx, outs: seq<OutputRow>, n: nat)
    requires FeesTally(l, outs, n)
    requires forall r :: r in tx.ins ==> r.txIndex == |l.fees|
    requires forall o :: o in tx.outs ==> o.txIndex == |l.fees|
    ensures FeesTally(ApplyTx(l, height, tx), outs + tx.outs, n)
  {
    var p := TakeInputs(Purse(l.utxos, [], 0), height, tx.ins);
    LocalSpends(Purse(l.utxos, [], 0), height, tx.ins, |l.fees|, n);
    LocalOuts(tx.outs, |l.fees|, n);
    PaidInAppend(l.spends, p.spends, n);
    PaidOutAppend(outs, tx.outs, n);
  }

  lemma {:induction false} LedgerFees(db: Utxos, height: u32, txs: seq<Tx>, i: nat, n: nat)
    requires i <= |txs| && RowsNamed(txs)
    ensures |LedgerPrefix(db, height, txs, i).fees| == i
    ensures FeesTally(LedgerPrefix(db, height, txs, i), FlatOuts(txs[..i]), n)
  {
    if i > 0 {
      LedgerFees(db, height, txs, i - 1, n);
      PrefixNext(db, height, txs, i - 1);
      assert txs[..i][..i - 1] == txs[..i - 1];
      FeesTallyNext(LedgerPrefix(db, height, txs, i - 1), height, txs[i - 1], FlatOuts(txs[..i - 1]), n);
    }
  }

  lemma {:induction false} LedgerFeesAll(db: Utxos, height: u32, txs: seq<Tx>)
    requires RowsNamed(txs)
    ensures var l := LedgerPrefix(db, height, txs, |txs|);
            l.fees == Fees(|txs|, l.spends, FlatOuts(txs))
  {
    var l := LedgerPrefix(db, height, txs, |txs|);
    assert txs[..|txs|] == txs;
    LedgerFees(db, height, txs, |txs|, 0);
    forall n | 0 <= n < |txs| ensures l.fees[n] == Fees(|txs|, l.spends, FlatOuts(txs))[n] {
      LedgerFees(db, height, txs, |txs|, n);
    }
  }

  // ---- The refinement ----

  /** What the whole store state amounts to once every transaction is reached. */
  lemma RelatedAtEnd(db: Utxos, s: Scan, m: Utxos)
    requires Related(db, s, m, map[])
    ensures m == (db - s.deleted) + s.pending
  {
    var none: Utxos := map[];
    assert s.pending - none.Keys == s.pending;
  }

  /** On an orderly block the store computes exactly what the ledger computes. */
  lemma {:induction false} ApplyRefinesLedger(db: Utxos, height: u32, txs: seq<Tx>)
    requires Orderly(db, txs)
    ensures var a := Apply(db, height, |txs|, FlatIns(txs), FlatOuts(txs));
            var l := ApplyTxs(Ledger0(db), height, txs);
            && a.utxos == l.utxos
            && a.spends == l.spends
            && a.fees == l.fees
            && a.missing == l.missing
  {
    PrefixSimulates(db, height, txs, |txs|);
    assert txs[..|txs|] == txs;
    assert OutputsFrom(txs, |txs|, height) == map[] by {
      assert txs[|txs|..] == [];
    }
    RelatedAtEnd(db, ScanPrefix(db, height, txs, |txs|), LedgerPrefix(db, height, txs, |txs|).utxos);
    LedgerFeesAll(db, height, txs);
  }
}
