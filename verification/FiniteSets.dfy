/** Counting finite sets of numbers. */
module FiniteSets {
  function UpTo(n: nat): (r: set<nat>)
    ensures |r| == n
    ensures forall i: nat :: i in r <==> i < n
  {
    if n == 0 then {} else UpTo(n - 1) + {n - 1}
  }

  lemma {:induction false} SubsetSize(a: set<nat>, b: set<nat>)
    requires a <= b
    ensures |a| <= |b|
  {
    if a != {} {
      var x :| x in a;
      SubsetSize(a - {x}, b - {x});
    }
  }

  function Elements(f: seq<nat>): (r: set<nat>)
    ensures forall x :: x in r <==> x in f
  {
    if f == [] then {} else Elements(f[1..]) + {f[0]}
  }

  predicate Repeats(f: seq<nat>, i: nat, j: nat) {
    i < j < |f| && f[i] == f[j]
  }

  lemma {:induction false} AllDifferent(f: seq<nat>)
    requires forall i: nat, j: nat :: !Repeats(f, i, j)
    ensures |Elements(f)| == |f|
  {
    if f != [] {
      forall i: nat, j: nat ensures !Repeats(f[1..], i, j) {
        assert !Repeats(f, i + 1, j + 1);
      }
      AllDifferent(f[1..]);
      forall k: nat | 0 < k < |f| ensures f[k] != f[0] {
        assert !Repeats(f, 0, k);
      }
    }
  }

  /** More than b numbers below b are not all different. */
  lemma Pigeonhole(f: seq<nat>, b: nat) returns (i: nat, j: nat)
    requires |f| > b && forall k :: 0 <= k < |f| ==> f[k] < b
    ensures Repeats(f, i, j)
  {
    if forall i: nat, j: nat :: !Repeats(f, i, j) {
      AllDifferent(f);
      SubsetSize(Elements(f), UpTo(b));
    } else {
      i, j :| Repeats(f, i, j);
    }
  }
}
