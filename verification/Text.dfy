/** Identifiers, the order in which strings are compared and sorted, and unambiguous concatenation. */
module Text {
  import opened Wrappers

  type Did = string

  /** The DID part of a verification method, which is a DID, '#' and a key name. */
  function UpToHash(s: string): Did {
    if s == [] || s[0] == '#' then [] else [s[0]] + UpToHash(s[1..])
  }

  /** What the part before a '#' is: no '#' is in it, and it is all of the string or is followed by one. */
  lemma {:induction false} UpToHashIs(s: string, d: Did)
    ensures UpToHash(s) == d <==> '#' !in d && (s == d || d + "#" <= s)
  {
    if s == [] || s[0] == '#' {
      if d != [] && d + "#" <= s { assert (d + "#")[0] == s[0] == d[0]; }
    } else {
      if d == [] {
        assert (d + "#")[0] == '#';
      } else {
        UpToHashIs(s[1..], d[1..]);
        assert d == [d[0]] + d[1..] && s == [s[0]] + s[1..];
        assert d + "#" <= s <==> d[0] == s[0] && d[1..] + "#" <= s[1..] by {
          assert (d + "#")[1..] == d[1..] + "#" && (d + "#")[0] == d[0];
          assert d + "#" == [d[0]] + (d[1..] + "#");
        }
        assert '#' in d <==> d[0] == '#' || '#' in d[1..];
      }
    }
  }

  /** Lexicographic order, the meaning of <= on strings. */
  predicate LexLeq(a: string, b: string)
    decreases a
  {
    a == [] || (b != [] && (a[0] < b[0] || (a[0] == b[0] && LexLeq(a[1..], b[1..]))))
  }

  lemma {:induction false} LexReflexive(a: string)
    ensures LexLeq(a, a)
  {
    if a != [] {
      LexReflexive(a[1..]);
    }
  }

  lemma {:induction false} SamePrefixSameHead(a: string, b: string, k: nat)
    requires 0 < k <= |a| && k <= |b| && a[..k] == b[..k]
    ensures a[0] == b[0]
  {
    assert a[..k][0] == b[..k][0];
  }

  /** Strings are ordered by the first place where they differ, and a prefix comes first. */
  lemma {:induction false} LexLeqIs(a: string, b: string)
    ensures LexLeq(a, b) <==> a <= b || exists k: nat :: k < |a| && k < |b| && a[..k] == b[..k] && a[k] < b[k]
  {
    if a != [] && b != [] {
      if a[0] == b[0] {
        LexLeqIs(a[1..], b[1..]);
        assert a == [a[0]] + a[1..] && b == [b[0]] + b[1..];
        if k: nat :| k < |a[1..]| && k < |b[1..]| && a[1..][..k] == b[1..][..k] && a[1..][k] < b[1..][k] {
          assert a[..k + 1] == [a[0]] + a[1..][..k] && b[..k + 1] == [b[0]] + b[1..][..k];
          assert a[k + 1] < b[k + 1];
        }
        if k: nat :| k < |a| && k < |b| && a[..k] == b[..k] && a[k] < b[k] {
          assert k > 0;
          assert a[1..][..k - 1] == a[..k][1..] && b[1..][..k - 1] == b[..k][1..];
          assert a[1..][k - 1] < b[1..][k - 1];
        }
      } else {
        assert a[0] < b[0] ==> a[..0] == b[..0];
        if k: nat :| k < |a| && k < |b| && a[..k] == b[..k] && a[k] < b[k] {
          if k > 0 {
            SamePrefixSameHead(a, b, k);
            assert false;
          }
        }
      }
    }
  }

  lemma {:induction false} LexTransitive(a: string, b: string, c: string)
    requires LexLeq(a, b) && LexLeq(b, c)
    ensures LexLeq(a, c)
    decreases a
  {
    if a != [] && a[0] == b[0] == c[0] {
      LexTransitive(a[1..], b[1..], c[1..]);
    }
  }

  /** Insertion of x, by its key, into a list that is sorted by key. */
  function Insert<T>(x: T, s: seq<T>, key: T -> string): (r: seq<T>)
    ensures multiset(r) == multiset{x} + multiset(s)
  {
    if s == [] || LexLeq(key(x), key(s[0])) then [x] + s
    else
      assert s == [s[0]] + s[1..];
      [s[0]] + Insert(x, s[1..], key)
  }

  /** Sorting rearranges: nothing is lost and nothing is added. */
  function Sort<T>(s: seq<T>, key: T -> string): (r: seq<T>)
    ensures multiset(r) == multiset(s)
  {
    if s == [] then []
    else
      assert s == [s[0]] + s[1..];
      Insert(s[0], Sort(s[1..], key), key)
  }

  lemma {:induction false} LexTotal(a: string, b: string)
    ensures LexLeq(a, b) || LexLeq(b, a)
    ensures LexLeq(a, b) && LexLeq(b, a) ==> a == b
    decreases a
  {
    if a != [] && b != [] && a[0] == b[0] {
      LexTotal(a[1..], b[1..]);
      assert a == [a[0]] + a[1..] && b == [b[0]] + b[1..];
    }
  }

  predicate Ordered<T>(s: seq<T>, key: T -> string) {
    forall i, j | 0 <= i < j < |s| :: LexLeq(key(s[i]), key(s[j]))
  }

  lemma {:induction false} InsertOrders<T>(x: T, s: seq<T>, key: T -> string)
    requires Ordered(s, key)
    ensures Ordered(Insert(x, s, key), key)
  {
    hide LexLeq, Insert;
    InsertStep(x, s, key);
    if s != [] {
      LexTotal(key(x), key(s[0]));
      if LexLeq(key(x), key(s[0])) {
        forall j | 0 <= j < |s| ensures LexLeq(key(x), key(s[j])) {
          if j > 0 { LexTransitive(key(x), key(s[0]), key(s[j])); }
        }
      } else {
        InsertOrders(x, s[1..], key);
        var rest := Insert(x, s[1..], key);
        forall j | 0 <= j < |rest| ensures LexLeq(key(s[0]), key(rest[j])) {
          assert rest[j] in multiset(rest);
          if rest[j] != x {
            assert rest[j] in multiset(s[1..]);
            var k :| 0 <= k < |s[1..]| && s[1..][k] == rest[j];
            assert s[k + 1] == rest[j];
          }
        }
      }
    }
  }

  lemma {:induction false} InsertStep<T>(x: T, s: seq<T>, key: T -> string)
    ensures Insert(x, s, key)
         == if s == [] || LexLeq(key(x), key(s[0])) then [x] + s else [s[0]] + Insert(x, s[1..], key)
  {
  }

  lemma {:induction false} SortOrders<T>(s: seq<T>, key: T -> string)
    ensures Ordered(Sort(s, key), key)
  {
    if s != [] {
      SortOrders(s[1..], key);
      InsertOrders(s[0], Sort(s[1..], key), key);
    }
  }

  lemma {:induction false} HeadIsLeast<T>(s: seq<T>, x: T, key: T -> string)
    requires Ordered(s, key) && x in s
    ensures LexLeq(key(s[0]), key(x))
  {
    hide LexLeq;
    var i :| 0 <= i < |s| && s[i] == x;
    LexReflexive(key(s[0]));
  }

  lemma {:induction false} TailCounts<T>(s: seq<T>)
    requires s != []
    ensures multiset(s[1..]) == multiset(s) - multiset{s[0]} && s[0] in s
  {
    assert s == [s[0]] + s[1..];
  }

  lemma {:induction false} SameMembers<T>(s: seq<T>, t: seq<T>, x: T)
    requires multiset(s) == multiset(t)
    ensures x in s <==> x in t
  {
    assert x in s <==> x in multiset(s);
  }

  lemma {:induction false} SameLength<T>(s: seq<T>, t: seq<T>)
    requires multiset(s) == multiset(t)
    ensures |s| == |t|
  {
    assert |multiset(s)| == |s| && |multiset(t)| == |t|;
  }

  lemma {:induction false} SameOrdered<T>(s: seq<T>, t: seq<T>, key: T -> string)
    requires multiset(s) == multiset(t) && Ordered(s, key) && Ordered(t, key)
    requires forall x, y | x in s && y in s && key(x) == key(y) :: x == y
    ensures s == t
  {
    hide LexLeq, Ordered;
    SameLength(s, t);
    if s != [] {
      SameMembers(s, t, s[0]);
      TailCounts(s);
      TailCounts(t);
      SameMembers(s, t, t[0]);
      HeadIsLeast(s, t[0], key);
      HeadIsLeast(t, s[0], key);
      LexTotal(key(s[0]), key(t[0]));
      OrderedTail(s, key);
      OrderedTail(t, key);
      SameOrdered(s[1..], t[1..], key);
      assert s == [s[0]] + s[1..] && t == [t[0]] + t[1..];
    }
  }

  lemma {:induction false} OrderedTail<T>(s: seq<T>, key: T -> string)
    requires Ordered(s, key) && s != []
    ensures Ordered(s[1..], key)
  {
  }

  /** Sorting forgets the order, as long as no two different elements share a key. */
  lemma {:induction false} SortIsCanonical<T>(s: seq<T>, t: seq<T>, key: T -> string)
    requires multiset(s) == multiset(t)
    requires forall x, y | x in s && y in s && key(x) == key(y) :: x == y
    ensures Sort(s, key) == Sort(t, key)
  {
    SortOrders(s, key);
    SortOrders(t, key);
    forall x | x in Sort(s, key) ensures x in s { SortKeepsMembers(s, key, x); }
    SameOrdered(Sort(s, key), Sort(t, key), key);
  }

  lemma {:induction false} SortKeepsMembers<T>(s: seq<T>, key: T -> string, x: T)
    ensures x in Sort(s, key) <==> x in s
  {
    assert x in Sort(s, key) <==> x in multiset(Sort(s, key));
    assert x in s <==> x in multiset(s);
  }

  /** A proof names its signer by a verification method: the DID alone, or the DID, '#' and a key. */
  predicate NamedBy(proof: Option<string>, signer: Did) {
    proof.Some? && '#' !in signer && (proof.value == signer || signer + "#" <= proof.value)
  }

  // ---------- keys of two parts ----------

  const SEPARATOR := "::"

  function Joined(a: string, b: string): string {
    a + SEPARATOR + b
  }

  /** No separator starts inside a, even when one follows a: the first separator after a is the joining one. */
  predicate Plain(a: string) {
    forall i | 0 <= i < |a| :: !(a[i] == ':' && (i + 1 == |a| || a[i + 1] == ':'))
  }

  lemma {:induction false} JoinedParts(a: string, b: string, i: nat)
    requires i <= |a|
    ensures i < |a| ==> Joined(a, b)[i] == a[i]
    ensures i + 1 < |a| ==> Joined(a, b)[i + 1] == a[i + 1]
    ensures i + 1 == |a| ==> Joined(a, b)[i + 1] == ':'
    ensures i == |a| ==> Joined(a, b)[i] == ':' && Joined(a, b)[i + 1] == ':'
  {
  }

  lemma {:induction false} PlainIsNotShorter(a: string, b: string, c: string, d: string)
    requires Plain(c) && Joined(a, b) == Joined(c, d)
    ensures |a| >= |c|
  {
    if |a| < |c| {
      JoinedParts(a, b, |a|);
      JoinedParts(c, d, |a|);
    }
  }

  /** Keys whose first parts are plain are equal only if both parts are. */
  lemma {:induction false} JoinedIsInjective(a: string, b: string, c: string, d: string)
    requires Plain(a) && Plain(c) && Joined(a, b) == Joined(c, d)
    ensures a == c && b == d
  {
    PlainIsNotShorter(a, b, c, d);
    PlainIsNotShorter(c, d, a, b);
    assert a == Joined(a, b)[..|a|] && c == Joined(c, d)[..|c|];
    assert b == Joined(a, b)[|a| + 2..] && d == Joined(c, d)[|c| + 2..];
  }
  lemma {:induction false} FirstSeparator(a: string) returns (i: nat)
    requires !Plain(a)
    ensures i < |a| && a[i] == ':' && (i + 1 == |a| || a[i + 1] == ':') && Plain(a[..i])
  {
    i := 0;
    while !(a[i] == ':' && (i + 1 == |a| || a[i + 1] == ':'))
      invariant i < |a| && forall j | 0 <= j < i :: !(a[j] == ':' && (j + 1 == |a| || a[j + 1] == ':'))
      decreases |a| - i
    {
      i := i + 1;
    }
  }

  /** A first part that is not plain shares all its keys with a shorter one, which is plain. */
  lemma {:induction false} NotPlainCollides(a: string, b: string) returns (c: string, d: string)
    requires !Plain(a)
    ensures |c| < |a| && Plain(c) && Joined(a, b) == Joined(c, d)
  {
    var i := FirstSeparator(a);
    c := a[..i];
    if i + 1 == |a| {
      d := ":" + b;
      assert a == c + ":";
    } else {
      d := Joined(a[i + 2..], b);
      assert a == c + SEPARATOR + a[i + 2..];
    }
  }

  /** A first part is plain exactly when no other one, no longer than itself, shares a key with it. */
  lemma {:induction false} PlainIffUnambiguous(a: string)
    ensures Plain(a) <==> forall b, c, d | |c| <= |a| && Joined(a, b) == Joined(c, d) :: c == a
  {
    forall b, c, d | Plain(a) && |c| <= |a| && Joined(a, b) == Joined(c, d) ensures c == a {
      PlainIsNotShorter(c, d, a, b);
      assert c == Joined(c, d)[..|c|] && a == Joined(a, b)[..|a|];
    }
    if !Plain(a) {
      var c, d := NotPlainCollides(a, "");
      assert Joined(a, "") == Joined(c, d);
    }
  }
}
