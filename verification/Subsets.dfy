/** The enumeration of candidate authority sets: all sub-collections of two lists, and all pairs of them. */
module Subsets {

  function Extended<T>(acc: seq<seq<T>>, x: T): (r: seq<seq<T>>)
    ensures |r| == |acc| && forall i | 0 <= i < |acc| :: r[i] == acc[i] + [x]
  {
    seq(|acc|, i requires 0 <= i < |acc| => acc[i] + [x])
  }

  /** Each item doubles the collections so far: they are kept, and followed by themselves with the item at the end. */
  function Subsets<T>(xs: seq<T>): seq<seq<T>> {
    if xs == [] then [[]]
    else
      var acc := Subsets(xs[..|xs| - 1]);
      acc + Extended(acc, xs[|xs| - 1])
  }

  /** The reduce itself, as a loop over the list. */
  method Enumerate<T>(xs: seq<T>) returns (acc: seq<seq<T>>)
    ensures acc == Subsets(xs)
  {
    acc := [[]];
    for i := 0 to |xs|
      invariant acc == Subsets(xs[..i])
    {
      assert xs[..i + 1][..i] == xs[..i];
      acc := acc + Extended(acc, xs[i]);
    }
    assert xs[..|xs|] == xs;
  }

  function Pow2(n: nat): nat {
    if n == 0 then 1 else 2 * Pow2(n - 1)
  }

  lemma {:induction false} Count<T>(xs: seq<T>)
    ensures |Subsets(xs)| == Pow2(|xs|)
  {
    if xs != [] {
      Count(xs[..|xs| - 1]);
    }
  }

  function Items<T>(s: seq<T>): set<T> {
    set x | x in s
  }

  predicate Distinct<T(==)>(xs: seq<T>) {
    forall i, j | 0 <= i < j < |xs| :: xs[i] != xs[j]
  }

  lemma {:induction false} ItemsAppend<T>(s: seq<T>, x: T)
    ensures Items(s + [x]) == Items(s) + {x}
  {
  }

  lemma {:induction false} DistinctAppend<T>(s: seq<T>, x: T)
    requires Distinct(s) && x !in Items(s)
    ensures Distinct(s + [x])
  {
  }

  lemma {:induction false} DistinctPrefix<T>(s: seq<T>, n: nat)
    requires Distinct(s) && |s| == n + 1
    ensures Distinct(s[..n]) && s[n] !in Items(s[..n]) && Items(s) == Items(s[..n]) + {s[n]}
  {
    assert s == s[..n] + [s[n]];
  }

  lemma {:induction false} Member<T>(xs: seq<T>, i: nat)
    requires Distinct(xs) && i < |Subsets(xs)|
    ensures Items(Subsets(xs)[i]) <= Items(xs) && Distinct(Subsets(xs)[i])
  {
    hide Items, Distinct;
    if xs == [] {
      NothingToTell<T>();
    } else {
      var n := |xs| - 1;
      var acc := Subsets(xs[..n]);
      DistinctPrefix(xs, n);
      if i < |acc| {
        Member(xs[..n], i);
      } else {
        Member(xs[..n], i - |acc|);
        ItemsAppend(acc[i - |acc|], xs[n]);
        DistinctAppend(acc[i - |acc|], xs[n]);
      }
    }
  }

  lemma {:induction false} NothingToTell<T>()
    ensures Items<T>([]) == {} && Distinct<T>([])
  {
  }

  lemma {:induction false} OnlyOnce<T>(xs: seq<T>, i: nat, j: nat)
    requires Distinct(xs) && i < j < |Subsets(xs)|
    ensures Items(Subsets(xs)[i]) != Items(Subsets(xs)[j])
  {
    if xs != [] {
      hide Items, Distinct;
      var n, all := |xs| - 1, Subsets(xs);
      var acc := Subsets(xs[..n]);
      DistinctPrefix(xs, n);
      if j < |acc| {
        OnlyOnce(xs[..n], i, j);
      } else {
        Member(xs[..n], j - |acc|);
        ItemsAppend(acc[j - |acc|], xs[n]);
        if i < |acc| {
          Member(xs[..n], i);
        } else {
          Member(xs[..n], i - |acc|);
          ItemsAppend(acc[i - |acc|], xs[n]);
          OnlyOnce(xs[..n], i - |acc|, j - |acc|);
          assert Items(acc[i - |acc|]) == Items(all[i]) - {xs[n]} && Items(acc[j - |acc|]) == Items(all[j]) - {xs[n]};
        }
      }
    }
  }

  lemma {:induction false} Complete<T>(xs: seq<T>, s: set<T>) returns (i: nat)
    requires s <= Items(xs)
    ensures i < |Subsets(xs)| && Items(Subsets(xs)[i]) == s
  {
    if xs == [] {
      i := 0;
      assert s == {} && Items(Subsets(xs)[0]) == {};
    } else {
      var n, last := |xs| - 1, xs[|xs| - 1];
      var acc := Subsets(xs[..n]);
      assert xs == xs[..n] + [last];
      ItemsAppend(xs[..n], last);
      if last in s {
        i := Complete(xs[..n], s - {last});
        ItemsAppend(acc[i], last);
        i := i + |acc|;
        assert s == (s - {last}) + {last};
      } else {
        i := Complete(xs[..n], s);
      }
    }
  }

  /** Every set of items is enumerated once and only once, among 2^n in all. */
  lemma {:induction false} EverySubsetOnce<T>(xs: seq<T>, s: set<T>) returns (i: nat)
    requires Distinct(xs) && s <= Items(xs)
    ensures |Subsets(xs)| == Pow2(|xs|)
    ensures i < |Subsets(xs)| && forall j | 0 <= j < |Subsets(xs)| :: Items(Subsets(xs)[j]) == s <==> j == i
  {
    Count(xs);
    i := Complete(xs, s);
    forall j | 0 <= j < |Subsets(xs)| && j != i ensures Items(Subsets(xs)[j]) != s {
      if i < j { OnlyOnce(xs, i, j); } else { OnlyOnce(xs, j, i); }
    }
  }
  // ---------- the candidate space ----------

  function Row<A, B>(x: A, b: seq<B>): (r: seq<(A, B)>)
    ensures |r| == |b| && forall j | 0 <= j < |b| :: r[j] == (x, b[j])
  {
    seq(|b|, j requires 0 <= j < |b| => (x, b[j]))
  }

  /** One row for each operations collection, in order. */
  function Product<A, B>(a: seq<A>, b: seq<B>): seq<(A, B)> {
    if a == [] then [] else Product(a[..|a| - 1], b) + Row(a[|a| - 1], b)
  }

  /** The candidate space, as a loop over the operations collections. */
  method CandidateSpace<T>(operations: seq<T>, resources: seq<T>) returns (space: seq<(seq<T>, seq<T>)>)
    ensures space == Product(Subsets(operations), Subsets(resources))
  {
    space := [];
    var a := Enumerate(operations);
    for i := 0 to |a|
      invariant space == Product(a[..i], Subsets(resources))
    {
      assert a[..i + 1][..i] == a[..i];
      var b := Enumerate(resources);
      space := space + Row(a[i], b);
    }
    assert a[..|a|] == a;
  }

  function Place(i: nat, j: nat, n: nat): nat {
    i * n + j
  }

  lemma {:induction false} ProductLength<A, B>(a: seq<A>, b: seq<B>)
    ensures |Product(a, b)| == |a| * |b|
  {
    if a != [] {
      ProductLength(a[..|a| - 1], b);
      assert |a| * |b| == (|a| - 1) * |b| + |b|;
    }
  }

  lemma {:induction false} ProductAt<A, B>(a: seq<A>, b: seq<B>, i: nat, j: nat)
    requires i < |a| && j < |b|
    ensures Place(i, j, |b|) < |Product(a, b)| && Product(a, b)[Place(i, j, |b|)] == (a[i], b[j])
  {
    ProductLength(a[..|a| - 1], b);
    if i < |a| - 1 {
      ProductAt(a[..|a| - 1], b, i, j);
    }
  }

  lemma {:induction false} PlaceOf<A, B>(a: seq<A>, b: seq<B>, k: nat) returns (i: nat, j: nat)
    requires k < |Product(a, b)|
    ensures i < |a| && j < |b| && k == Place(i, j, |b|)
  {
    var n := |a| - 1;
    ProductLength(a[..n], b);
    if k < |Product(a[..n], b)| {
      i, j := PlaceOf(a[..n], b, k);
    } else {
      i, j := n, k - n * |b|;
    }
  }

  predicate IsPair<T>(p: (seq<T>, seq<T>), s: set<T>, t: set<T>) {
    Items(p.0) == s && Items(p.1) == t
  }

  /** Every pair of a set of operations and a set of resources is a candidate once and only once, among 2^m * 2^n in
      all: an unsalted commitment has one preimage there. */
  lemma {:induction false} EveryPairOnce<T>(operations: seq<T>, resources: seq<T>, s: set<T>, t: set<T>)
    returns (k: nat)
    requires Distinct(operations) && Distinct(resources) && s <= Items(operations) && t <= Items(resources)
    ensures |Product(Subsets(operations), Subsets(resources))| == Pow2(|operations|) * Pow2(|resources|)
    ensures k < |Product(Subsets(operations), Subsets(resources))|
    ensures forall l | 0 <= l < |Product(Subsets(operations), Subsets(resources))| ::
              IsPair(Product(Subsets(operations), Subsets(resources))[l], s, t) <==> l == k
  {
    hide Items, Distinct, Subsets, Product, Place;
    var a, b := Subsets(operations), Subsets(resources);
    ProductLength(a, b);
    var i := EverySubsetOnce(operations, s);
    var j := EverySubsetOnce(resources, t);
    ProductAt(a, b, i, j);
    k := Place(i, j, |b|);
    forall l: nat | l < |Product(a, b)| ensures IsPair(Product(a, b)[l], s, t) <==> l == k {
      var i', j' := PlaceOf(a, b, l);
      ProductAt(a, b, i', j');
    }
  }
}
