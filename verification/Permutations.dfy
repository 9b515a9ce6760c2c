/** Sequences without repetition, and why n distinct numbers below n are all of them. */
module Permutations {
  ghost predicate Distinct<T>(s: seq<T>) {
    forall i, j | 0 <= i < j < |s| :: s[i] != s[j]
  }

  ghost predicate IsPermutation(s: seq<nat>) {
    Distinct(s) && forall i | 0 <= i < |s| :: s[i] < |s|
  }

  function Below(n: nat): (r: set<nat>)
    ensures forall x: nat :: x in r <==> x < n
  {
    if n == 0 then {} else Below(n - 1) + {n - 1}
  }

  function Elements(s: seq<nat>): (r: set<nat>)
    ensures forall x :: x in r <==> x in s
  {
    if s == [] then {} else Elements(s[..|s| - 1]) + {s[|s| - 1]}
  }

  lemma {:induction false} BelowSize(n: nat)
    ensures |Below(n)| == n
  {
    if n > 0 {
      BelowSize(n - 1);
      assert |Below(n - 1) + {n - 1}| == |Below(n - 1)| + 1 by { assert n - 1 !in Below(n - 1); }
    }
  }

  lemma {:induction false} ElementsSize(s: seq<nat>)
    requires Distinct(s)
    ensures |Elements(s)| == |s|
  {
    if s != [] {
      ElementsSize(s[..|s| - 1]);
      assert s[|s| - 1] !in Elements(s[..|s| - 1]);
    }
  }

  lemma {:induction false} SubsetSize(a: set<nat>, b: set<nat>)
    requires a <= b
    ensures |a| <= |b| && (|a| == |b| ==> a == b)
    decreases a
  {
    if a == {} {
      assert |b| == 0 ==> b == {};
    } else {
      var x :| x in a;
      SubsetSize(a - {x}, b - {x});
      assert a - {x} == b - {x} ==> a == b;
    }
  }

  /** A permutation leaves no number out. */
  lemma Onto(s: seq<nat>, y: nat)
    requires IsPermutation(s) && y < |s|
    ensures y in s
  {
    ElementsSize(s);
    BelowSize(|s|);
    SubsetSize(Elements(s), Below(|s|));
    assert y in Below(|s|);
  }

  /** The position of `y` in a permutation. */
  ghost function PositionOf(s: seq<nat>, y: nat): (i: nat)
    requires IsPermutation(s) && y < |s|
    ensures i < |s| && s[i] == y
  {
    Onto(s, y);
    var i :| 0 <= i < |s| && s[i] == y;
    i
  }

  function Image(dom: set<nat>, f: map<nat, nat>): (r: set<nat>)
    requires dom <= f.Keys
    ensures forall x | x in dom :: f[x] in r
    ensures forall y | y in r :: exists x :: x in dom && f[x] == y
  {
    set x | x in dom :: f[x]
  }

  lemma {:induction false} ImageSize(dom: set<nat>, f: map<nat, nat>)
    requires dom <= f.Keys
    requires forall x, y | x in dom && y in dom && f[x] == f[y] :: x == y
    ensures |Image(dom, f)| == |dom|
  {
    if dom == {} {
      assert Image(dom, f) == {};
    } else {
      var x :| x in dom;
      ImageSize(dom - {x}, f);
      assert Image(dom, f) == Image(dom - {x}, f) + {f[x]};
      assert f[x] !in Image(dom - {x}, f);
    }
  }

  /** n items at different positions below n fill all of them. */
  lemma FillAll(dom: set<nat>, f: map<nat, nat>, y: nat)
    requires dom <= f.Keys
    requires forall x, y | x in dom && y in dom && f[x] == f[y] :: x == y
    requires forall x | x in dom :: f[x] < |dom|
    requires y < |dom|
    ensures exists x :: x in dom && f[x] == y
  {
    hide Image;
    ImageSize(dom, f);
    BelowSize(|dom|);
    assert Image(dom, f) <= Below(|dom|);
    SubsetSize(Image(dom, f), Below(|dom|));
    assert y in Image(dom, f);
  }

  /** `parts` have every number below n between them, each once. */
  ghost predicate SplitsBelow(parts: seq<seq<nat>>, n: nat) {
    && (forall t, k | 0 <= t < |parts| && 0 <= k < |parts[t]| :: parts[t][k] < n)
    && (forall t, k, t', k' | 0 <= t < |parts| && 0 <= k < |parts[t]| && 0 <= t' < |parts| && 0 <= k' < |parts[t']| ::
          parts[t][k] == parts[t'][k'] ==> t == t' && k == k')
    && forall x: nat | x < n :: HasPart(parts, x)
  }

  ghost predicate HasPart(parts: seq<seq<nat>>, x: nat) {
    exists t, k :: 0 <= t < |parts| && 0 <= k < |parts[t]| && parts[t][k] == x
  }
}
