/**
 Stable sorting as `Array.prototype.sort` does it, for any order; what it keeps and when it is unique.
 */
module Sorting {

  ghost predicate TotalPreorder<T(!new)>(leq: (T, T) -> bool) {
    && (forall a, b :: leq(a, b) || leq(b, a))
    && (forall a, b, c :: leq(a, b) && leq(b, c) ==> leq(a, c))
  }

  ghost predicate Ordered<T>(s: seq<T>, leq: (T, T) -> bool) {
    forall i, j | 0 <= i < j < |s| :: leq(s[i], s[j])
  }

  /** Elements that tie are the same. */
  ghost predicate Untied<T(!new)>(m: multiset<T>, leq: (T, T) -> bool) {
    forall a, b | a in m && b in m && leq(a, b) && leq(b, a) :: a == b
  }

  /** Inserts `x` after everything that is not above it. */
  function Insert<T>(s: seq<T>, x: T, leq: (T, T) -> bool): seq<T> {
    if s == [] || leq(s[|s| - 1], x) then s + [x]
    else Insert(s[..|s| - 1], x, leq) + [s[|s| - 1]]
  }

  function Sorted<T>(s: seq<T>, leq: (T, T) -> bool): seq<T> {
    if s == [] then [] else Insert(Sorted(s[..|s| - 1], leq), s[|s| - 1], leq)
  }

  lemma {:induction false} InsertKeeps<T(!new)>(s: seq<T>, x: T, leq: (T, T) -> bool)
    requires TotalPreorder(leq) && Ordered(s, leq)
    ensures Ordered(Insert(s, x, leq), leq)
    ensures multiset(Insert(s, x, leq)) == multiset(s) + multiset{x}
  {
    if s != [] {
      var init, last := s[..|s| - 1], s[|s| - 1];
      assert s == init + [last];
      if leq(last, x) {
        forall i | 0 <= i < |s| ensures leq(s[i], x) {
          if i < |s| - 1 { assert leq(s[i], last); }
        }
      } else {
        InsertKeeps(init, x, leq);
        var r := Insert(init, x, leq);
        forall i | 0 <= i < |r| ensures leq(r[i], last) {
          assert r[i] in multiset(r);
          if r[i] != x { assert r[i] in multiset(init); assert r[i] in init; }
        }
      }
    }
  }

  lemma {:induction false} SortedKeeps<T(!new)>(s: seq<T>, leq: (T, T) -> bool)
    requires TotalPreorder(leq)
    ensures Ordered(Sorted(s, leq), leq)
    ensures multiset(Sorted(s, leq)) == multiset(s)
    ensures |Sorted(s, leq)| == |s|
  {
    if s != [] {
      SortedKeeps(s[..|s| - 1], leq);
      InsertKeeps(Sorted(s[..|s| - 1], leq), s[|s| - 1], leq);
      assert s == s[..|s| - 1] + [s[|s| - 1]];
    }
    assert |multiset(Sorted(s, leq))| == |multiset(s)|;
  }

  lemma LastIsGreatest<T(!new)>(s: seq<T>, x: T, leq: (T, T) -> bool)
    requires TotalPreorder(leq) && Ordered(s, leq) && x in multiset(s)
    ensures s != [] && leq(x, s[|s| - 1])
  {
    assert x in s;
    var i :| 0 <= i < |s| && s[i] == x;
    assert leq(x, x);
  }

  lemma WithoutLast<T>(s: seq<T>)
    requires s != []
    ensures multiset(s[..|s| - 1]) == multiset(s) - multiset{s[|s| - 1]}
    ensures s == s[..|s| - 1] + [s[|s| - 1]]
  {
    assert s == s[..|s| - 1] + [s[|s| - 1]];
  }

  lemma SameLast<T(!new)>(a: seq<T>, b: seq<T>, leq: (T, T) -> bool)
    requires TotalPreorder(leq)
    requires Ordered(a, leq) && Ordered(b, leq) && multiset(a) == multiset(b)
    requires Untied(multiset(a), leq)
    requires a != [] && b != []
    ensures a[|a| - 1] == b[|b| - 1]
  {
    assert a[|a| - 1] in multiset(a) && b[|b| - 1] in multiset(b);
    LastIsGreatest(b, a[|a| - 1], leq);
    LastIsGreatest(a, b[|b| - 1], leq);
  }

  /** Two ordered lists of the same elements, no two of them tied, are the same list. */
  lemma {:induction false} OrderedIsUnique<T(!new)>(a: seq<T>, b: seq<T>, leq: (T, T) -> bool)
    requires TotalPreorder(leq)
    requires Ordered(a, leq) && Ordered(b, leq) && multiset(a) == multiset(b)
    requires Untied(multiset(a), leq)
    ensures a == b
  {
    assert |multiset(a)| == |a| && |multiset(b)| == |b|;
    if a != [] {
      SameLast(a, b, leq);
      WithoutLast(a);
      WithoutLast(b);
      var initA, initB := a[..|a| - 1], b[..|b| - 1];
      UntiedWithin(multiset(initA), multiset(a), leq);
      OrderedIsUnique(initA, initB, leq);
    }
  }

  lemma UntiedWithin<T(!new)>(part: multiset<T>, whole: multiset<T>, leq: (T, T) -> bool)
    requires part <= whole && Untied(whole, leq)
    ensures Untied(part, leq)
  {
  }

  /** Sorting forgets the order its input came in, when no two elements are tied. */
  lemma SortedForgetsOrder<T(!new)>(a: seq<T>, b: seq<T>, leq: (T, T) -> bool)
    requires TotalPreorder(leq) && multiset(a) == multiset(b)
    requires Untied(multiset(a), leq)
    ensures Sorted(a, leq) == Sorted(b, leq)
  {
    SortedKeeps(a, leq);
    SortedKeeps(b, leq);
    OrderedIsUnique(Sorted(a, leq), Sorted(b, leq), leq);
  }

  // ----- Ties -----

  /** The elements that tie with `x`, in order. */
  function TiesOf<T>(s: seq<T>, x: T, leq: (T, T) -> bool): seq<T> {
    if s == [] then []
    else
      var earlier, last := TiesOf(s[..|s| - 1], x, leq), s[|s| - 1];
      if leq(last, x) && leq(x, last) then earlier + [last] else earlier
  }

  lemma TiesOfOneMore<T>(s: seq<T>, y: T, x: T, leq: (T, T) -> bool)
    ensures TiesOf(s + [y], x, leq) == if leq(y, x) && leq(x, y) then TiesOf(s, x, leq) + [y] else TiesOf(s, x, leq)
  {
    assert (s + [y])[..|s|] == s;
  }

  lemma {:induction false} InsertKeepsTies<T(!new)>(s: seq<T>, y: T, x: T, leq: (T, T) -> bool)
    requires TotalPreorder(leq)
    ensures TiesOf(Insert(s, y, leq), x, leq) == TiesOf(s + [y], x, leq)
  {
    if s != [] && !leq(s[|s| - 1], y) {
      var init, last := s[..|s| - 1], s[|s| - 1];
      InsertKeepsTies(init, y, x, leq);
      TiesOfOneMore(Insert(init, y, leq), last, x, leq);
      TiesOfOneMore(init, y, x, leq);
      TiesOfOneMore(s, y, x, leq);
    }
  }

  /** The sort is stable: elements that tie stay in the order they came in. */
  lemma {:induction false} SortedIsStable<T(!new)>(s: seq<T>, x: T, leq: (T, T) -> bool)
    requires TotalPreorder(leq)
    ensures TiesOf(Sorted(s, leq), x, leq) == TiesOf(s, x, leq)
  {
    if s != [] {
      var init, last := s[..|s| - 1], s[|s| - 1];
      assert s == init + [last];
      assert Sorted(s, leq) == Insert(Sorted(init, leq), last, leq);
      hide *;
      SortedIsStable(init, x, leq);
      InsertKeepsTies(Sorted(init, leq), last, x, leq);
      TiesOfOneMore(Sorted(init, leq), last, x, leq);
      TiesOfOneMore(init, last, x, leq);
    }
  }

  /** Element `k` is the last with the property, and the tie of `x` it belongs to has it last too. */
  lemma {:induction false} LastOfTies<T>(s: seq<T>, p: T -> bool, k: nat, x: T, leq: (T, T) -> bool) returns (i: nat)
    requires k < |s| && p(s[k]) && leq(s[k], x) && leq(x, s[k])
    requires forall j | k < j < |s| && p(s[j]) :: !(leq(s[j], x) && leq(x, s[j]))
    ensures var ties := TiesOf(s, x, leq);
            i < |ties| && ties[i] == s[k] && forall j | i < j < |ties| :: !p(ties[j])
  {
    var init, last := s[..|s| - 1], s[|s| - 1];
    if k == |s| - 1 {
      i := |TiesOf(init, x, leq)|;
    } else {
      i := LastOfTies(init, p, k, x, leq);
    }
  }

  lemma {:induction false} FirstOfTies<T>(s: seq<T>, p: T -> bool, k: nat, x: T, leq: (T, T) -> bool) returns (i: nat)
    requires k < |s| && p(s[k]) && leq(s[k], x) && leq(x, s[k])
    requires forall j | 0 <= j < k && p(s[j]) :: !(leq(s[j], x) && leq(x, s[j]))
    ensures var ties := TiesOf(s, x, leq);
            i < |ties| && ties[i] == s[k] && forall j | 0 <= j < i :: !p(ties[j])
  {
    var init := s[..|s| - 1];
    if k == |s| - 1 {
      i := |TiesOf(init, x, leq)|;
      NoTies(init, p, x, leq);
    } else {
      i := FirstOfTies(init, p, k, x, leq);
    }
  }

  lemma {:induction false} NoTies<T>(s: seq<T>, p: T -> bool, x: T, leq: (T, T) -> bool)
    requires forall y | y in s && p(y) :: !(leq(y, x) && leq(x, y))
    ensures forall y | y in TiesOf(s, x, leq) :: !p(y)
  {
    if s != [] { NoTies(s[..|s| - 1], p, x, leq); }
  }

  /** After sorting, the last element with a property is the one that was highest and, among its ties,
      came last. */
  lemma LastOfSorted<T(!new)>(s: seq<T>, leq: (T, T) -> bool, p: T -> bool, k: nat) returns (m: nat)
    requires TotalPreorder(leq) && k < |s| && p(s[k])
    requires forall j | 0 <= j < |s| && p(s[j]) :: leq(s[j], s[k]) && (leq(s[k], s[j]) ==> j <= k)
    ensures m < |Sorted(s, leq)| && Sorted(s, leq)[m] == s[k]
    ensures forall j | m < j < |Sorted(s, leq)| :: !p(Sorted(s, leq)[j])
  {
    var sorted, x := Sorted(s, leq), s[k];
    SortedKeeps(s, leq);
    SortedIsStable(s, x, leq);
    SameMembers(sorted, s);
    assert leq(x, x);
    m := LastWith(sorted, p);
    LastIsHighest(sorted, leq, x, p, m);
    assert leq(sorted[m], x) by { assert sorted[m] in s; }
    hide *;
    var a := LastOfTies(s, p, k, x, leq);
    var b := LastOfTies(sorted, p, m, x, leq);
    OneLast(TiesOf(s, x, leq), p, a, b);
  }

  lemma LastIsHighest<T(!new)>(sorted: seq<T>, leq: (T, T) -> bool, x: T, p: T -> bool, m: nat)
    requires Ordered(sorted, leq) && x in sorted && p(x) && leq(x, x)
    requires m < |sorted| && forall j | m < j < |sorted| :: !p(sorted[j])
    ensures leq(x, sorted[m])
  {
    var i: nat :| i < |sorted| && sorted[i] == x;
  }

  lemma OneLast<T>(s: seq<T>, p: T -> bool, a: nat, b: nat)
    requires a < |s| && b < |s| && p(s[a]) && p(s[b])
    requires forall j | a < j < |s| :: !p(s[j])
    requires forall j | b < j < |s| :: !p(s[j])
    ensures a == b
  {
  }

  lemma SameMembers<T>(a: seq<T>, b: seq<T>)
    requires multiset(a) == multiset(b)
    ensures forall x :: x in a <==> x in b
  {
    forall x ensures x in a <==> x in b { assert x in multiset(a) <==> x in multiset(b); }
  }

  /** And the first one is the one that was lowest and, among its ties, came first. */
  lemma FirstOfSorted<T(!new)>(s: seq<T>, leq: (T, T) -> bool, p: T -> bool, k: nat) returns (m: nat)
    requires TotalPreorder(leq) && k < |s| && p(s[k])
    requires forall j | 0 <= j < |s| && p(s[j]) :: leq(s[k], s[j]) && (leq(s[j], s[k]) ==> k <= j)
    ensures m < |Sorted(s, leq)| && Sorted(s, leq)[m] == s[k]
    ensures forall j | 0 <= j < m :: !p(Sorted(s, leq)[j])
  {
    var sorted, x := Sorted(s, leq), s[k];
    SortedKeeps(s, leq);
    SortedIsStable(s, x, leq);
    SameMembers(sorted, s);
    assert leq(x, x);
    m := FirstWith(sorted, p);
    FirstIsLowest(sorted, leq, x, p, m);
    assert leq(x, sorted[m]) by { assert sorted[m] in s; }
    hide *;
    var a := FirstOfTies(s, p, k, x, leq);
    var b := FirstOfTies(sorted, p, m, x, leq);
    OneFirst(TiesOf(s, x, leq), p, a, b);
  }

  lemma FirstIsLowest<T(!new)>(sorted: seq<T>, leq: (T, T) -> bool, x: T, p: T -> bool, m: nat)
    requires Ordered(sorted, leq) && x in sorted && p(x) && leq(x, x)
    requires m < |sorted| && forall j | 0 <= j < m :: !p(sorted[j])
    ensures leq(sorted[m], x)
  {
    var i: nat :| i < |sorted| && sorted[i] == x;
  }

  lemma OneFirst<T>(s: seq<T>, p: T -> bool, a: nat, b: nat)
    requires a < |s| && b < |s| && p(s[a]) && p(s[b])
    requires forall j | 0 <= j < a :: !p(s[j])
    requires forall j | 0 <= j < b :: !p(s[j])
    ensures a == b
  {
  }

  lemma {:induction false} LastWith<T>(s: seq<T>, p: T -> bool) returns (m: nat)
    requires exists x :: x in s && p(x)
    ensures m < |s| && p(s[m]) && forall j | m < j < |s| :: !p(s[j])
  {
    m := |s| - 1;
    if !p(s[m]) { m := LastWith(s[..m], p); }
  }

  lemma {:induction false} FirstWith<T>(s: seq<T>, p: T -> bool) returns (m: nat)
    requires exists x :: x in s && p(x)
    ensures m < |s| && p(s[m]) && forall j | 0 <= j < m :: !p(s[j])
  {
    m := 0;
    if !p(s[0]) {
      m := FirstWith(s[1..], p);
      m := m + 1;
    }
  }

  // ----- One element out of a list -----

  function Without<T>(s: seq<T>, k: nat): seq<T>
    requires k < |s|
  {
    s[..k] + s[k + 1..]
  }

  lemma FindAndRemove<T>(s: seq<T>, t: seq<T>) returns (k: nat)
    requires t != [] && multiset(s) == multiset(t)
    ensures k < |s| && s[k] == t[0] && multiset(Without(s, k)) == multiset(t[1..])
  {
    assert t[0] in multiset(s);
    k :| k < |s| && s[k] == t[0];
    assert s == s[..k] + [s[k]] + s[k + 1..];
    assert t == [t[0]] + t[1..];
    assert multiset(s) == multiset(s[..k]) + multiset{s[k]} + multiset(s[k + 1..]);
    assert multiset(Without(s, k)) == multiset(s) - multiset{s[k]};
    assert multiset(t[1..]) == multiset(t) - multiset{t[0]};
  }
}
