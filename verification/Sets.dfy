// Sizes of finite sets of numbers.
module Sets {

  lemma {:induction false} SubsetSize(a: set<nat>, b: set<nat>)
    requires a <= b
    ensures |a| <= |b|
  {
    if a != {} {
      var x :| x in a;
      SubsetSize(a - {x}, b - {x});
    }
  }

  lemma UnionSize(a: set<nat>, b: set<nat>)
    ensures |a + b| <= |a| + |b|
  {
    assert |a + b| == |a| + |b| - |a * b|;
  }

  function Elements(xs: seq<nat>): set<nat> { set x | x in xs }

  lemma {:induction false} ElementsSize(xs: seq<nat>)
    ensures |Elements(xs)| <= |xs|
  {
    if |xs| == 0 {
      assert Elements(xs) == {};
    } else {
      ElementsSize(xs[1..]);
      assert xs == [xs[0]] + xs[1..];
      assert Elements(xs) == {xs[0]} + Elements(xs[1..]);
      UnionSize({xs[0]}, Elements(xs[1..]));
    }
  }

  lemma {:induction false} IndexCount(n: nat, ws: set<nat>)
    requires forall w :: w in ws ==> w < n
    ensures |ws| <= n
  {
    if n == 0 {
      assert ws == {};
    } else {
      IndexCount(n - 1, ws - {n - 1});
    }
  }

  /** The numbers from `lo` up to but not including `hi`. */
  function Span(lo: nat, hi: nat): (r: set<nat>)
    ensures forall x: nat :: x in r <==> lo <= x < hi
    decreases hi - lo
  {
    if lo >= hi then {} else {lo} + Span(lo + 1, hi)
  }
}
