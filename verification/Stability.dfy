/**
 Agreement of the delivered top-5 rows across runs, measured twice: by the mean pairwise Jaccard
 similarity of the key sets, and by the largest group of runs with an identical joined key list.
 The mean is the exact one, before rounding.
 */
module Stability {
  import opened Common
  import opened Sorting

  type Keys = seq<string>

  // ----- The rows a run delivers -----

  /** A delivered unit, and the ids of the truth rows it was matched to. */
  datatype MatchedUnit = MatchedUnit(alternative: bool, rows: Keys)

  /** The ids outside any alternatives section, in order of delivery, with repetitions. */
  function MainRows(matched: seq<MatchedUnit>): Keys {
    if matched == [] then []
    else
      var earlier, last := MainRows(matched[..|matched| - 1]), matched[|matched| - 1];
      if last.alternative then earlier else earlier + last.rows
  }

  /** These are the rows of the units that are no alternatives. */
  lemma {:induction false} MainRowsAre(matched: seq<MatchedUnit>, key: string)
    ensures key in MainRows(matched) <==>
            exists i :: 0 <= i < |matched| && !matched[i].alternative && key in matched[i].rows
  {
    if matched != [] {
      var init := matched[..|matched| - 1];
      MainRowsAre(init, key);
      assert forall i | 0 <= i < |init| :: init[i] == matched[i];
    }
  }

  /** Each key once, where it first appears. */
  function FirstSeen(keys: Keys): Keys {
    if keys == [] then []
    else
      var earlier, key := FirstSeen(keys[..|keys| - 1]), keys[|keys| - 1];
      if key in earlier then earlier else earlier + [key]
  }

  /** `deliveredRows`: what was seen is kept in a map, which remembers the order of insertion. */
  method DeliveredRows(matched: seq<MatchedUnit>) returns (keys: Keys)
    ensures keys == FirstSeen(MainRows(matched))
  {
    keys := [];
    for i := 0 to |matched|
      invariant keys == FirstSeen(MainRows(matched[..i]))
    {
      assert matched[..i + 1][..i] == matched[..i];
      if !matched[i].alternative {
        keys := AddRows(MainRows(matched[..i]), keys, matched[i].rows);
      }
    }
    assert matched[..|matched|] == matched;
  }

  method AddRows(ghost earlier: Keys, seen: Keys, rows: Keys) returns (keys: Keys)
    requires seen == FirstSeen(earlier)
    ensures keys == FirstSeen(earlier + rows)
  {
    keys := seen;
    assert earlier + rows[..0] == earlier;
    for i := 0 to |rows|
      invariant keys == FirstSeen(earlier + rows[..i])
    {
      assert (earlier + rows[..i + 1])[..|earlier| + i] == earlier + rows[..i];
      if rows[i] !in keys { keys := keys + [rows[i]]; }
    }
    assert rows[..|rows|] == rows;
  }

  /** Delivered rows are distinct, none is missing and none invented. */
  lemma {:induction false} FirstSeenIsDistinct(keys: Keys)
    ensures Distinct(FirstSeen(keys)) && SetOf(FirstSeen(keys)) == SetOf(keys)
  {
    if keys != [] {
      var init, key := keys[..|keys| - 1], keys[|keys| - 1];
      FirstSeenIsDistinct(init);
      assert keys == init + [key];
      forall k: string ensures k in FirstSeen(keys) <==> k in keys {
        assert k in FirstSeen(init) <==> k in SetOf(init);
      }
    }
  }

  /** They come in the order in which they first appeared. */
  lemma {:induction false} FirstSeenKeepsOrder(keys: Keys, n: nat)
    requires n <= |keys|
    ensures FirstSeen(keys[..n]) <= FirstSeen(keys)
  {
    if n == |keys| {
      assert keys[..n] == keys;
    } else {
      FirstSeenKeepsOrder(keys[..|keys| - 1], n);
      assert keys[..|keys| - 1][..n] == keys[..n];
    }
  }

  // ----- The order of `sort()` on strings -----

  predicate TextLeq(a: string, b: string) {
    a == [] || (b != [] && (a[0] < b[0] || (a[0] == b[0] && TextLeq(a[1..], b[1..]))))
  }

  lemma {:induction false} TextTotal(a: string, b: string)
    ensures TextLeq(a, b) || TextLeq(b, a)
    ensures TextLeq(a, b) && TextLeq(b, a) ==> a == b
  {
    if a != [] && b != [] && a[0] == b[0] {
      TextTotal(a[1..], b[1..]);
      assert a == [a[0]] + a[1..] && b == [b[0]] + b[1..];
    }
  }

  lemma {:induction false} TextTransitive(a: string, b: string, c: string)
    requires TextLeq(a, b) && TextLeq(b, c)
    ensures TextLeq(a, c)
  {
    if a != [] && a[0] == b[0] == c[0] { TextTransitive(a[1..], b[1..], c[1..]); }
  }

  lemma TextIsOrder()
    ensures TotalPreorder(TextLeq)
  {
    forall a, b ensures TextLeq(a, b) || TextLeq(b, a) { TextTotal(a, b); }
    forall a, b, c | TextLeq(a, b) && TextLeq(b, c) ensures TextLeq(a, c) { TextTransitive(a, b, c); }
  }

  lemma TextUntied(m: multiset<string>)
    ensures Untied(m, TextLeq)
  {
    forall a, b | a in m && b in m && TextLeq(a, b) && TextLeq(b, a) ensures a == b { TextTotal(a, b); }
  }

  // ----- One run -----

  function TopFive(delivered: Keys): Keys {
    Sorted(if |delivered| <= 5 then delivered else delivered[..5], TextLeq)
  }

  /** The first five keys, or all if there are fewer, in the order of their text. */
  lemma TopFiveIs(delivered: Keys)
    ensures multiset(TopFive(delivered)) == multiset(delivered[..if |delivered| < 5 then |delivered| else 5])
    ensures Ordered(TopFive(delivered), TextLeq)
  {
    TextIsOrder();
    SortedKeeps(if |delivered| <= 5 then delivered else delivered[..5], TextLeq);
    assert delivered[..|delivered|] == delivered;
  }

  /** The order of texts is that of a dictionary: up to some place they agree, and there one ends or has
      the lower character. */
  lemma {:induction false} TextLeqIff(a: string, b: string)
    ensures TextLeq(a, b) <==>
            exists k :: 0 <= k <= |a| && k <= |b| && a[..k] == b[..k] && (k == |a| || (k < |b| && a[k] < b[k]))
  {
    if a == [] || b == [] {
      assert a[..0] == b[..0];
    } else {
      TextLeqIff(a[1..], b[1..]);
      if a[0] == b[0] {
        forall k | 0 <= k < |a| && k < |b| ensures a[1..][..k] == b[1..][..k] <==> a[..k + 1] == b[..k + 1] {
          assert a[..k + 1] == [a[0]] + a[1..][..k] && b[..k + 1] == [b[0]] + b[1..][..k];
          if a[..k + 1] == b[..k + 1] { assert a[1..][..k] == a[..k + 1][1..]; }
        }
        if k :| 0 <= k < |a| && k < |b| && a[1..][..k] == b[1..][..k] && (k == |a[1..]| || (k < |b[1..]| && a[1..][k] < b[1..][k])) {
          assert a[..k + 1] == b[..k + 1];
        }
        if k :| 0 <= k <= |a| && k <= |b| && a[..k] == b[..k] && (k == |a| || (k < |b| && a[k] < b[k])) {
          assert k > 0 && a[1..][..k - 1] == b[1..][..k - 1];
        }
      } else {
        assert a[..0] == b[..0];
        forall k | 0 < k <= |a| && k <= |b| ensures a[..k] != b[..k] {
          assert a[..k][0] == a[0] && b[..k][0] == b[0];
        }
      }
    }
  }

  function SetOf(keys: Keys): set<string> {
    set key | key in keys
  }

  /** `join('|')`. */
  function Join(keys: Keys): string {
    if keys == [] then []
    else if |keys| == 1 then keys[0]
    else keys[0] + ['|'] + Join(keys[1..])
  }

  ghost predicate Distinct(keys: Keys) {
    forall i, j | 0 <= i < j < |keys| :: keys[i] != keys[j]
  }

  ghost predicate BarFree(keys: Keys) {
    forall i | 0 <= i < |keys| :: '|' !in keys[i]
  }

  /** The first bar ends the first key, so a nonempty list of bar-free keys can be read off its join. */
  lemma {:induction false} JoinIsInjective(a: Keys, b: Keys)
    requires a != [] && b != [] && BarFree(a) && BarFree(b) && Join(a) == Join(b)
    ensures a == b
  {
    HeadOfJoin(a);
    HeadOfJoin(b);
    assert a[0] == Join(a)[..|a[0]|] == b[0];
    if |a| > 1 {
      assert Join(a[1..]) == Join(a)[|a[0]| + 1..] == Join(b[1..]);
      JoinIsInjective(a[1..], b[1..]);
    }
    assert a == [a[0]] + a[1..] && b == [b[0]] + b[1..];
  }

  lemma HeadOfJoin(a: Keys)
    requires a != []
    ensures a[0] <= Join(a)
    ensures |Join(a)| == |a[0]| <==> |a| == 1
    ensures |a| > 1 ==> |Join(a)| > |a[0]| && Join(a)[|a[0]|] == '|' && Join(a)[|a[0]| + 1..] == Join(a[1..])
  {
  }

  /** Sorted lists of distinct keys are equal exactly when the sets are. */
  lemma TopsAgreeIff(a: Keys, b: Keys)
    requires Distinct(a) && Distinct(b)
    ensures Sorted(a, TextLeq) == Sorted(b, TextLeq) <==> SetOf(a) == SetOf(b)
  {
    TextIsOrder();
    SetsAgreeIff(a, b);
    if SetOf(a) == SetOf(b) {
      TextUntied(multiset(a));
      SortedForgetsOrder(a, b, TextLeq);
    } else {
      SortedKeeps(a, TextLeq);
      SortedKeeps(b, TextLeq);
    }
  }

  lemma SetsAgreeIff(a: Keys, b: Keys)
    requires Distinct(a) && Distinct(b)
    ensures SetOf(a) == SetOf(b) <==> multiset(a) == multiset(b)
  {
    forall key: string
      ensures multiset(a)[key] == if key in SetOf(a) then 1 else 0
      ensures multiset(b)[key] == if key in SetOf(b) then 1 else 0
    {
      CountDistinct(a, key);
      CountDistinct(b, key);
    }
  }

  lemma {:induction false} CountDistinct(keys: Keys, key: string)
    requires Distinct(keys)
    ensures multiset(keys)[key] == if key in keys then 1 else 0
  {
    if keys != [] {
      WithoutLast(keys);
      CountDistinct(keys[..|keys| - 1], key);
    }
  }

  // ----- Sums over pairs of runs -----

  ghost function RowSum<T>(x: T, s: seq<T>, f: (T, T) -> real): real {
    if s == [] then 0.0 else f(x, s[0]) + RowSum(x, s[1..], f)
  }

  /** The sum of `f` over all pairs of an earlier and a later element. */
  ghost function PairSum<T>(s: seq<T>, f: (T, T) -> real): real {
    if s == [] then 0.0 else RowSum(s[0], s[1..], f) + PairSum(s[1..], f)
  }

  lemma {:induction false} RowWithout<T>(x: T, s: seq<T>, k: nat, f: (T, T) -> real)
    requires k < |s|
    ensures RowSum(x, s, f) == f(x, s[k]) + RowSum(x, Without(s, k), f)
  {
    if k == 0 {
      assert Without(s, 0) == s[1..];
    } else {
      RowWithout(x, s[1..], k - 1, f);
      assert Without(s, k)[1..] == Without(s[1..], k - 1);
    }
  }

  /** Taking one element out takes out its pairs with all others. */
  lemma {:induction false} PairsWithout<T(!new)>(s: seq<T>, k: nat, f: (T, T) -> real)
    requires k < |s| && forall x, y :: f(x, y) == f(y, x)
    ensures PairSum(s, f) == RowSum(s[k], Without(s, k), f) + PairSum(Without(s, k), f)
  {
    if k == 0 {
      assert Without(s, 0) == s[1..];
    } else {
      var rest := s[1..];
      PairsWithout(rest, k - 1, f);
      RowWithout(s[0], rest, k - 1, f);
      assert Without(s, k)[1..] == Without(rest, k - 1);
      assert Without(s, k)[0] == s[0];
    }
  }

  lemma {:induction false} RowForgetsOrder<T>(x: T, s: seq<T>, t: seq<T>, f: (T, T) -> real)
    requires multiset(s) == multiset(t)
    ensures RowSum(x, s, f) == RowSum(x, t, f)
    decreases t
  {
    if t == [] {
      assert |multiset(s)| == 0;
    } else {
      var k := FindAndRemove(s, t);
      RowWithout(x, s, k, f);
      RowForgetsOrder(x, Without(s, k), t[1..], f);
    }
  }

  lemma {:induction false} PairsForgetOrder<T(!new)>(s: seq<T>, t: seq<T>, f: (T, T) -> real)
    requires multiset(s) == multiset(t) && forall x, y :: f(x, y) == f(y, x)
    ensures PairSum(s, f) == PairSum(t, f)
    decreases t
  {
    if t == [] {
      assert |multiset(s)| == 0;
    } else {
      var k := FindAndRemove(s, t);
      PairsWithout(s, k, f);
      RowForgetsOrder(t[0], Without(s, k), t[1..], f);
      PairsForgetOrder(Without(s, k), t[1..], f);
    }
  }

  lemma {:induction false} RowsCompare<T(!new)>(x: T, s: seq<T>, f: (T, T) -> real, g: (T, T) -> real)
    requires forall a, b :: f(a, b) <= g(a, b)
    ensures RowSum(x, s, f) <= RowSum(x, s, g)
    ensures RowSum(x, s, f) == RowSum(x, s, g) <==> forall j | 0 <= j < |s| :: f(x, s[j]) == g(x, s[j])
  {
    if s != [] {
      RowsCompare(x, s[1..], f, g);
      assert (forall j | 0 <= j < |s| :: f(x, s[j]) == g(x, s[j]))
        <==> f(x, s[0]) == g(x, s[0]) && forall j | 0 <= j < |s[1..]| :: f(x, s[1..][j]) == g(x, s[1..][j]) by {
        assert forall j | 1 <= j < |s| :: s[j] == s[1..][j - 1];
      }
    }
  }

  /** A sum of smaller terms is smaller, and equal exactly when every term is. */
  lemma {:induction false} PairsCompare<T(!new)>(s: seq<T>, f: (T, T) -> real, g: (T, T) -> real)
    requires forall a, b :: f(a, b) <= g(a, b)
    ensures PairSum(s, f) <= PairSum(s, g)
    ensures PairSum(s, f) == PairSum(s, g) <==> forall i, j | 0 <= i < j < |s| :: f(s[i], s[j]) == g(s[i], s[j])
  {
    if s != [] {
      var rest := s[1..];
      RowsCompare(s[0], rest, f, g);
      PairsCompare(rest, f, g);
      assert forall j | 0 <= j < |rest| :: rest[j] == s[j + 1];
      assert (forall i, j | 0 <= i < j < |s| :: f(s[i], s[j]) == g(s[i], s[j]))
        <==> (forall j | 0 <= j < |rest| :: f(s[0], rest[j]) == g(s[0], rest[j]))
             && (forall i, j | 0 <= i < j < |rest| :: f(rest[i], rest[j]) == g(rest[i], rest[j])) by {
        SplitPairs(s, f, g);
      }
    }
  }

  lemma SplitPairs<T(!new)>(s: seq<T>, f: (T, T) -> real, g: (T, T) -> real)
    requires s != []
    ensures var rest := s[1..];
            (forall i, j | 0 <= i < j < |s| :: f(s[i], s[j]) == g(s[i], s[j]))
            <==> (forall j | 0 <= j < |rest| :: f(s[0], rest[j]) == g(s[0], rest[j]))
                 && (forall i, j | 0 <= i < j < |rest| :: f(rest[i], rest[j]) == g(rest[i], rest[j]))
  {
    var rest := s[1..];
    if (forall j | 0 <= j < |rest| :: f(s[0], rest[j]) == g(s[0], rest[j]))
       && (forall i, j | 0 <= i < j < |rest| :: f(rest[i], rest[j]) == g(rest[i], rest[j])) {
      forall i, j | 0 <= i < j < |s| ensures f(s[i], s[j]) == g(s[i], s[j]) {
        assert s[j] == rest[j - 1];
        if i > 0 { assert s[i] == rest[i - 1]; }
      }
    }
    if forall i, j | 0 <= i < j < |s| :: f(s[i], s[j]) == g(s[i], s[j]) {
      forall j | 0 <= j < |rest| ensures f(s[0], rest[j]) == g(s[0], rest[j]) { assert rest[j] == s[j + 1]; }
      forall i, j | 0 <= i < j < |rest| ensures f(rest[i], rest[j]) == g(rest[i], rest[j]) {
        assert rest[i] == s[i + 1] && rest[j] == s[j + 1];
      }
    }
  }

  // ----- The two measures -----

  function Jaccard(a: set<string>, b: set<string>): real
    requires a + b != {}
  {
    |a * b| as real / |a + b| as real
  }

  /** The term of one pair; a pair of empty sets counts for nothing. */
  function Term(a: set<string>, b: set<string>): real {
    if a + b == {} then 0.0 else Jaccard(a, b)
  }

  function Counted(a: set<string>, b: set<string>): real {
    if a + b == {} then 0.0 else 1.0
  }

  /** What both runs deliver, divided by what the two deliver together, a shared key counted once. */
  lemma JaccardIs(a: set<string>, b: set<string>)
    requires a + b != {}
    ensures var both := |set key | key in a && key in b|;
            |a| + |b| - both > 0 && Term(a, b) == both as real / (|a| + |b| - both) as real
  {
    assert a * b == set key | key in a && key in b;
    assert |a + b| == |a| + |b| - |a * b|;
    assert a + b == {} || |a + b| > 0;
  }

  lemma TermBounds(a: set<string>, b: set<string>)
    ensures 0.0 <= Term(a, b) <= Counted(a, b)
    ensures Term(a, b) == Counted(a, b) <==> a == b
    ensures Term(a, b) == Term(b, a) && Counted(a, b) == Counted(b, a)
  {
    assert a + b == b + a && a * b == b * a;
    if a + b != {} {
      var both, all := |a * b|, |a + b|;
      assert a * b <= a + b;
      assert a + b == (a * b) + ((a + b) - (a * b));
      assert all == both + |(a + b) - (a * b)|;
      Fraction(both, all);
      if both == all {
        assert (a + b) - (a * b) == {};
        assert a == b;
      }
      if a == b { assert a * b == a + b; }
    }
  }

  lemma Fraction(part: nat, whole: nat)
    requires part <= whole && whole > 0
    ensures 0.0 <= part as real / whole as real <= 1.0
    ensures part as real / whole as real == 1.0 <==> part == whole
  {
  }

  ghost function Mean(sets: seq<set<string>>): Option<real> {
    if PairSum(sets, Counted) == 0.0 then None else Some(PairSum(sets, Term) / PairSum(sets, Counted))
  }

  ghost function GroupSize(tops: seq<Keys>, joined: string): nat {
    if tops == [] then 0
    else (if tops[0] != [] && Join(tops[0]) == joined then 1 else 0) + GroupSize(tops[1..], joined)
  }

  /** `k` is the size of the largest group of runs with the same nonempty joined list. */
  ghost predicate IsLargestGroup(tops: seq<Keys>, k: nat) {
    && (forall i | 0 <= i < |tops| && tops[i] != [] :: GroupSize(tops, Join(tops[i])) <= k)
    && (k > 0 ==> exists i :: 0 <= i < |tops| && tops[i] != [] && GroupSize(tops, Join(tops[i])) == k)
  }

  function SetsOf(tops: seq<Keys>): seq<set<string>> {
    seq(|tops|, i requires 0 <= i < |tops| => SetOf(tops[i]))
  }

  function TopsOf(runs: seq<Keys>): seq<Keys> {
    seq(|runs|, i requires 0 <= i < |runs| => TopFive(runs[i]))
  }

  /** `stability`: a double loop over pairs, then a map of group sizes. */
  method Stability(runs: seq<Keys>) returns (mean: Option<real>, largest: nat)
    ensures mean == Mean(SetsOf(TopsOf(runs)))
    ensures IsLargestGroup(TopsOf(runs), largest)
  {
    var tops := TopsOf(runs);
    var total, pairs := PairTotals(SetsOf(tops));
    mean := if pairs == 0 then None else Some(total / pairs as real);
    var groups := CountGroups(tops);
    largest := LargestOf(tops, groups);
  }

  /** The outer loop, over the left run of each pair. */
  method PairTotals(sets: seq<set<string>>) returns (total: real, pairs: nat)
    ensures total == PairSum(sets, Term) && pairs as real == PairSum(sets, Counted)
  {
    total, pairs := 0.0, 0;
    for left := 0 to |sets|
      invariant total + PairSum(sets[left..], Term) == PairSum(sets, Term)
      invariant pairs as real + PairSum(sets[left..], Counted) == PairSum(sets, Counted)
    {
      var rowTotal, rowPairs := RowTotals(sets[left], sets[left + 1..]);
      assert sets[left..][1..] == sets[left + 1..];
      total := total + rowTotal;
      pairs := pairs + rowPairs;
    }
  }

  /** The inner loop, over the runs to the right of `a`. */
  method RowTotals(a: set<string>, later: seq<set<string>>) returns (total: real, pairs: nat)
    ensures total == RowSum(a, later, Term) && pairs as real == RowSum(a, later, Counted)
  {
    total, pairs := 0.0, 0;
    for right := 0 to |later|
      invariant total + RowSum(a, later[right..], Term) == RowSum(a, later, Term)
      invariant pairs as real + RowSum(a, later[right..], Counted) == RowSum(a, later, Counted)
    {
      var b := later[right];
      assert later[right..][1..] == later[right + 1..];
      if a + b != {} {
        total := total + Jaccard(a, b);
        pairs := pairs + 1;
      }
    }
  }

  ghost predicate Groups(tops: seq<Keys>, groups: map<string, nat>) {
    && (forall key | key in groups :: groups[key] == GroupSize(tops, key) > 0)
    && (forall i | 0 <= i < |tops| && tops[i] != [] :: Join(tops[i]) in groups)
  }

  method CountGroups(tops: seq<Keys>) returns (groups: map<string, nat>)
    ensures Groups(tops, groups)
  {
    groups := map[];
    for i := 0 to |tops|
      invariant forall key ::
          GroupSize(tops, key) == (if key in groups then groups[key] else 0) + GroupSize(tops[i..], key)
      invariant forall key | key in groups :: groups[key] > 0
      invariant forall j | 0 <= j < i && tops[j] != [] :: Join(tops[j]) in groups
    {
      assert tops[i..][1..] == tops[i + 1..];
      if tops[i] != [] {
        var key := Join(tops[i]);
        groups := groups[key := (if key in groups then groups[key] else 0) + 1];
      }
    }
  }

  method LargestOf(tops: seq<Keys>, groups: map<string, nat>) returns (largest: nat)
    requires Groups(tops, groups)
    ensures IsLargestGroup(tops, largest)
  {
    largest := 0;
    var left := groups.Keys;
    while left != {}
      invariant left <= groups.Keys
      invariant forall key | key in groups && key !in left :: groups[key] <= largest
      invariant largest > 0 ==> exists key :: key in groups && groups[key] == largest
      decreases left
    {
      var key :| key in left;
      if largest < groups[key] { largest := groups[key]; }
      left := left - {key};
    }
    if largest > 0 {
      ghost var key :| key in groups && groups[key] == largest;
      GroupHasAMember(tops, key);
    }
  }

  lemma {:induction false} GroupHasAMember(tops: seq<Keys>, joined: string)
    requires GroupSize(tops, joined) > 0
    ensures exists i :: 0 <= i < |tops| && tops[i] != [] && Join(tops[i]) == joined
  {
    if tops[0] == [] || Join(tops[0]) != joined {
      GroupHasAMember(tops[1..], joined);
      var i :| 0 <= i < |tops[1..]| && tops[1..][i] != [] && Join(tops[1..][i]) == joined;
      assert tops[i + 1] == tops[1..][i];
    }
  }

  // ----- The mean -----

  lemma TermsAreBounded()
    ensures forall a, b :: Term(a, b) <= Counted(a, b) && Zero(a, b) <= Term(a, b)
    ensures forall a, b :: Term(a, b) == Term(b, a) && Counted(a, b) == Counted(b, a)
  {
    forall a, b ensures 0.0 <= Term(a, b) <= Counted(a, b) && Term(a, b) == Term(b, a) && Counted(a, b) == Counted(b, a) {
      TermBounds(a, b);
    }
  }

  function Zero(a: set<string>, b: set<string>): real { 0.0 }

  lemma {:induction false} ZeroRow(x: set<string>, s: seq<set<string>>)
    ensures RowSum(x, s, Zero) == 0.0
  {
    if s != [] { ZeroRow(x, s[1..]); }
  }

  lemma {:induction false} ZeroPairs(s: seq<set<string>>)
    ensures PairSum(s, Zero) == 0.0
  {
    if s != [] {
      ZeroRow(s[0], s[1..]);
      ZeroPairs(s[1..]);
    }
  }

  /** The mean, when there is one, lies between zero and one. */
  lemma MeanIsAShare(sets: seq<set<string>>)
    ensures Mean(sets).Some? ==> 0.0 <= Mean(sets).value <= 1.0
  {
    TermsAreBounded();
    PairsCompare(sets, Zero, Term);
    PairsCompare(sets, Term, Counted);
    ZeroPairs(sets);
    if Mean(sets).Some? { Quotient(PairSum(sets, Term), PairSum(sets, Counted)); }
  }

  lemma Quotient(a: real, b: real)
    requires 0.0 <= a <= b && b != 0.0
    ensures 0.0 <= a / b <= 1.0 && (a / b == 1.0 <==> a == b)
  {
  }

  ghost predicate AllTheSame(sets: seq<set<string>>) {
    && (forall i, j | 0 <= i < j < |sets| :: sets[i] == sets[j])
    && (forall i | 0 <= i < |sets| :: sets[i] != {})
  }

  /** With two runs or more, the mean is one exactly when all runs deliver one nonempty set. */
  lemma MeanIsOneIff(sets: seq<set<string>>)
    requires |sets| >= 2
    ensures Mean(sets) == Some(1.0) <==> AllTheSame(sets)
  {
    TermsAreBounded();
    PairsCompare(sets, Term, Counted);
    PairsCompare(sets, Zero, Term);
    PairsCompare(sets, Zero, Counted);
    ZeroPairs(sets);
    forall i, j | 0 <= i < j < |sets|
      ensures Term(sets[i], sets[j]) == Counted(sets[i], sets[j]) <==> sets[i] == sets[j]
    {
      TermBounds(sets[i], sets[j]);
    }
    if PairSum(sets, Counted) != 0.0 {
      Quotient(PairSum(sets, Term), PairSum(sets, Counted));
      if PairSum(sets, Term) == PairSum(sets, Counted) {
        var i, j :| 0 <= i < j < |sets| && Zero(sets[i], sets[j]) != Counted(sets[i], sets[j]);
        assert sets[i] != {};
        forall k | 0 <= k < |sets| ensures sets[k] == sets[i] {
        }
      }
    }
  }

  /** Every pair of runs counts but those in which both deliver nothing. */
  lemma {:induction false} PairsCounted(sets: seq<set<string>>)
    ensures var n, e := |sets|, Empties(sets);
            e <= n && PairSum(sets, Counted) == (n * (n - 1) / 2 - e * (e - 1) / 2) as real
  {
    if sets != [] {
      var rest := sets[1..];
      PairsCounted(rest);
      RowCounted(sets[0], rest);
      var n, e := |rest|, Empties(rest);
      OneMorePair(n);
      OneMorePair(e);
    }
  }

  lemma OneMorePair(n: nat)
    ensures (n + 1) * n / 2 == n * (n - 1) / 2 + n
  {
    assert (n + 1) * n == n * (n - 1) + 2 * n;
  }

  ghost function Empties(sets: seq<set<string>>): nat {
    if sets == [] then 0 else (if sets[0] == {} then 1 else 0) + Empties(sets[1..])
  }

  lemma {:induction false} RowCounted(x: set<string>, s: seq<set<string>>)
    ensures Empties(s) <= |s|
    ensures RowSum(x, s, Counted) == (if x == {} then |s| - Empties(s) else |s|) as real
  {
    if s != [] {
      RowCounted(x, s[1..]);
      assert x + s[0] == {} <==> x == {} && s[0] == {};
    }
  }

  // ----- The largest group -----

  lemma {:induction false} GroupWithin(tops: seq<Keys>, joined: string)
    ensures GroupSize(tops, joined) <= |tops|
    ensures GroupSize(tops, joined) == |tops| <==>
            forall i | 0 <= i < |tops| :: tops[i] != [] && Join(tops[i]) == joined
  {
    if tops != [] {
      var rest := tops[1..];
      GroupWithin(rest, joined);
      assert forall i | 0 <= i < |rest| :: rest[i] == tops[i + 1];
      if GroupSize(tops, joined) == |tops| {
        forall i | 0 <= i < |tops| ensures tops[i] != [] && Join(tops[i]) == joined {
          if i > 0 { assert tops[i] == rest[i - 1]; }
        }
      }
    }
  }

  lemma LargestIsAllIff(tops: seq<Keys>, largest: nat)
    requires |tops| > 0 && IsLargestGroup(tops, largest)
    ensures largest == |tops| <==>
            forall i | 0 <= i < |tops| :: tops[i] != [] && Join(tops[i]) == Join(tops[0])
  {
    forall i | 0 <= i < |tops|
      ensures GroupSize(tops, Join(tops[i])) == |tops|
        <==> forall j | 0 <= j < |tops| :: tops[j] != [] && Join(tops[j]) == Join(tops[i])
      ensures GroupSize(tops, Join(tops[i])) <= |tops|
    {
      GroupWithin(tops, Join(tops[i]));
    }
    if forall i | 0 <= i < |tops| :: tops[i] != [] && Join(tops[i]) == Join(tops[0]) {
      assert GroupSize(tops, Join(tops[0])) <= largest;
    }
  }

  ghost predicate Comparable(runs: seq<Keys>) {
    forall i | 0 <= i < |runs| :: Distinct(runs[i]) && BarFree(runs[i])
  }

  lemma TopIsDistinct(run: Keys)
    requires Distinct(run)
    ensures Distinct(TopFive(run))
  {
    var cut, top := if |run| <= 5 then run else run[..5], TopFive(run);
    TextIsOrder();
    SortedKeeps(cut, TextLeq);
    forall i, j | 0 <= i < j < |top| ensures top[i] != top[j] {
      if top[i] == top[j] {
        CountTwice(top, i, j);
        CountDistinct(cut, top[i]);
        assert false;
      }
    }
  }

  lemma TopIsComparable(run: Keys)
    requires Distinct(run) && BarFree(run)
    ensures Distinct(TopFive(run)) && BarFree(TopFive(run))
  {
    var cut, top := if |run| <= 5 then run else run[..5], TopFive(run);
    TopIsDistinct(run);
    TextIsOrder();
    SortedKeeps(cut, TextLeq);
    forall i | 0 <= i < |top| ensures '|' !in top[i] {
      assert top[i] in multiset(top);
      assert top[i] in cut;
    }
  }

  lemma CountTwice(keys: Keys, i: nat, j: nat)
    requires i < j < |keys| && keys[i] == keys[j]
    ensures multiset(keys)[keys[i]] >= 2
  {
    assert keys == keys[..i] + [keys[i]] + keys[i + 1..j] + [keys[j]] + keys[j + 1..];
  }

  /** Runs of distinct keys that deliver the same set have the same sorted list. */
  lemma SameSetSameTop(a: Keys, b: Keys)
    requires Distinct(a) && Distinct(b) && SetOf(TopFive(a)) == SetOf(TopFive(b))
    ensures TopFive(a) == TopFive(b)
  {
    TopIsDistinct(a);
    TopIsDistinct(b);
    SortedOfTop(a);
    SortedOfTop(b);
    TopsAgreeIff(TopFive(a), TopFive(b));
  }

  lemma SortedOfTop(a: Keys)
    ensures Sorted(TopFive(a), TextLeq) == TopFive(a)
  {
    TextIsOrder();
    var cut := if |a| <= 5 then a else a[..5];
    SortedKeeps(cut, TextLeq);
    TextUntied(multiset(cut));
    SortedForgetsOrder(TopFive(a), cut, TextLeq);
  }

  /** All lists are nonempty and have the same join. */
  ghost predicate OneJoin(tops: seq<Keys>) {
    forall i | 0 <= i < |tops| :: tops[i] != [] && Join(tops[i]) == Join(tops[0])
  }

  ghost predicate TopsAreBarFree(runs: seq<Keys>) {
    forall i | 0 <= i < |runs| :: BarFree(TopFive(runs[i]))
  }

  ghost predicate RunsAreDistinct(runs: seq<Keys>) {
    forall i | 0 <= i < |runs| :: Distinct(runs[i])
  }

  /** For any two lists or more, the measures disagree in two cases and no other: one set with several
      joins, or one join with several sets. */
  lemma MeasuresDisagreeIff(tops: seq<Keys>, largest: nat)
    requires |tops| >= 2 && IsLargestGroup(tops, largest)
    ensures var sets := SetsOf(tops);
            (Mean(sets) == Some(1.0) <==> largest == |tops|) <==>
              && !(AllTheSame(sets) && exists i :: 0 <= i < |tops| && Join(tops[i]) != Join(tops[0]))
              && !(OneJoin(tops) && exists i :: 0 <= i < |tops| && SetOf(tops[i]) != SetOf(tops[0]))
  {
    var sets := SetsOf(tops);
    MeanIsOneIff(sets);
    LargestIsAllIff(tops, largest);
    forall i | 0 <= i < |tops| ensures sets[i] == SetOf(tops[i]) && (sets[i] == {} <==> tops[i] == []) {
      if tops[i] != [] { assert tops[i][0] in sets[i]; }
    }
    assert AllTheSame(sets) ==> forall i | 0 < i < |sets| :: sets[0] == sets[i];
  }

  /** Without bars in the keys, only lists that repeat a key can make the measures disagree: the runs
      deliver one set, but not one list. */
  lemma BarFreeMeasuresAgreeIff(runs: seq<Keys>, largest: nat)
    requires |runs| >= 2 && TopsAreBarFree(runs)
    requires IsLargestGroup(TopsOf(runs), largest)
    ensures var tops := TopsOf(runs);
            (Mean(SetsOf(tops)) == Some(1.0) <==> largest == |runs|) <==>
              !(AllTheSame(SetsOf(tops)) && exists i :: 0 <= i < |tops| && tops[i] != tops[0])
  {
    var tops, sets := TopsOf(runs), SetsOf(TopsOf(runs));
    MeasuresDisagreeIff(tops, largest);
    forall i | 0 <= i < |tops| && tops[i] != [] && tops[0] != [] && Join(tops[i]) == Join(tops[0])
      ensures tops[i] == tops[0]
    {
      JoinIsInjective(tops[i], tops[0]);
    }
    forall i | 0 <= i < |tops| && AllTheSame(sets) ensures tops[i] != [] { assert sets[i] != {}; }
  }

  /** With distinct keys in each run, only bars can: some other set is written as the same join. */
  lemma DistinctMeasuresAgreeIff(runs: seq<Keys>, largest: nat)
    requires |runs| >= 2 && RunsAreDistinct(runs)
    requires IsLargestGroup(TopsOf(runs), largest)
    ensures var tops := TopsOf(runs);
            (Mean(SetsOf(tops)) == Some(1.0) <==> largest == |runs|) <==>
              !(OneJoin(tops) && exists i :: 0 <= i < |tops| && SetOf(tops[i]) != SetOf(tops[0]))
  {
    var tops, sets := TopsOf(runs), SetsOf(TopsOf(runs));
    MeasuresDisagreeIff(tops, largest);
    if AllTheSame(sets) {
      forall i | 0 <= i < |tops| ensures tops[i] == tops[0] {
        assert sets[0] == sets[i];
        SameSetSameTop(runs[0], runs[i]);
      }
    }
  }

  /** The two measures agree: with two runs or more, of distinct bar-free keys each, the mean is one
      exactly when the largest group is all the runs. */
  lemma MeasuresAgree(runs: seq<Keys>, largest: nat)
    requires |runs| >= 2 && Comparable(runs)
    requires IsLargestGroup(TopsOf(runs), largest)
    ensures Mean(SetsOf(TopsOf(runs))) == Some(1.0) <==> largest == |runs|
  {
    var tops := TopsOf(runs);
    DistinctMeasuresAgreeIff(runs, largest);
    forall i | 0 <= i < |tops| ensures BarFree(tops[i]) { TopIsComparable(runs[i]); }
    if OneJoin(tops) {
      forall i | 0 <= i < |tops| ensures tops[i] == tops[0] { JoinIsInjective(tops[i], tops[0]); }
    }
  }

  /** Keys have to be distinct within a run: a run may not repeat its only row. */
  lemma RepeatedKeysDisagree(largest: nat)
    requires IsLargestGroup(TopsOf([["a", "a"], ["a"]]), largest)
    ensures Mean(SetsOf(TopsOf([["a", "a"], ["a"]]))) == Some(1.0) && largest != 2
  {
    var runs: seq<Keys> := [["a", "a"], ["a"]];
    var tops := TopsOf(runs);
    RepeatedTop();
    hide TopFive, Join, Mean;
    assert tops[0] == ["a", "a"] && tops[1] == ["a"];
    LargestIsAllIff(tops, largest);
    assert SetOf(tops[0]) == {"a"} == SetOf(tops[1]);
    MeanIsOneIff(SetsOf(tops));
  }

  /** And they have to be free of bars: these two runs have one join and no row in common. */
  lemma BarsDisagree(largest: nat)
    requires IsLargestGroup(TopsOf([["a|b"], ["a", "b"]]), largest)
    ensures largest == 2 && Mean(SetsOf(TopsOf([["a|b"], ["a", "b"]]))) != Some(1.0)
  {
    var runs: seq<Keys> := [["a|b"], ["a", "b"]];
    var tops := TopsOf(runs);
    BarredTop();
    hide TopFive, Join, Mean;
    assert tops[0] == ["a|b"] && tops[1] == ["a", "b"];
    LargestIsAllIff(tops, largest);
    assert "a" in SetOf(tops[1]) && "a" !in SetOf(tops[0]);
    assert SetsOf(tops)[0] != SetsOf(tops)[1];
    MeanIsOneIff(SetsOf(tops));
  }

  lemma BarredTop()
    ensures TopFive(["a|b"]) == ["a|b"] && TopFive(["a", "b"]) == ["a", "b"]
    ensures Join(["a", "b"]) == "a|b" == Join(["a|b"])
  {
    assert ["a", "b"][..1] == ["a"] && ["a", "b"][1..] == ["b"] && ["a"][..0] == [] && ["a|b"][..0] == [];
    assert Sorted(["a"], TextLeq) == ["a"] && Sorted(["a|b"], TextLeq) == ["a|b"];
  }

  lemma RepeatedTop()
    ensures TopFive(["a", "a"]) == ["a", "a"] && TopFive(["a"]) == ["a"]
    ensures Join(["a", "a"]) != Join(["a"])
  {
    assert ["a", "a"][..1] == ["a"] && ["a", "a"][1..] == ["a"] && ["a"][..0] == [];
    assert Sorted(["a"], TextLeq) == ["a"];
    assert |Join(["a", "a"])| == 3 && |Join(["a"])| == 1;
  }

  /** What the scorer delivers has distinct keys, so bar-free ids are all the agreement needs. */
  lemma ScoredRunsAgree(deliveries: seq<seq<MatchedUnit>>, runs: seq<Keys>, largest: nat)
    requires |deliveries| == |runs| >= 2
    requires forall i | 0 <= i < |runs| :: runs[i] == FirstSeen(MainRows(deliveries[i]))
    requires forall i | 0 <= i < |runs| :: BarFree(MainRows(deliveries[i]))
    requires IsLargestGroup(TopsOf(runs), largest)
    ensures Mean(SetsOf(TopsOf(runs))) == Some(1.0) <==> largest == |runs|
  {
    forall i | 0 <= i < |runs| ensures Distinct(runs[i]) && BarFree(runs[i]) {
      FirstSeenIsDistinct(MainRows(deliveries[i]));
      forall k | 0 <= k < |runs[i]| ensures '|' !in runs[i][k] {
        assert runs[i][k] in SetOf(runs[i]);
        assert runs[i][k] in MainRows(deliveries[i]);
      }
    }
    MeasuresAgree(runs, largest);
  }

  // ----- The order of the runs -----

  lemma {:induction false} GroupWithout(tops: seq<Keys>, k: nat, joined: string)
    requires k < |tops|
    ensures GroupSize(tops, joined)
            == (if tops[k] != [] && Join(tops[k]) == joined then 1 else 0) + GroupSize(Without(tops, k), joined)
  {
    if k == 0 {
      assert Without(tops, 0) == tops[1..];
    } else {
      GroupWithout(tops[1..], k - 1, joined);
      assert Without(tops, k)[1..] == Without(tops[1..], k - 1);
      assert Without(tops, k)[0] == tops[0];
    }
  }

  lemma {:induction false} GroupForgetsOrder(s: seq<Keys>, t: seq<Keys>, joined: string)
    requires multiset(s) == multiset(t)
    ensures GroupSize(s, joined) == GroupSize(t, joined)
    decreases |t|
  {
    if t == [] {
      assert |multiset(s)| == 0;
    } else {
      var k := FindAndRemove(s, t);
      GroupWithout(s, k, joined);
      GroupWithout(t, 0, joined);
      assert Without(t, 0) == t[1..];
      GroupForgetsOrder(Without(s, k), t[1..], joined);
    }
  }

  lemma {:induction false} MapForgetsOrder(s: seq<Keys>, t: seq<Keys>)
    requires multiset(s) == multiset(t)
    ensures multiset(SetsOf(s)) == multiset(SetsOf(t))
    decreases |t|
  {
    if t == [] {
      assert |multiset(s)| == 0;
    } else {
      var k := FindAndRemove(s, t);
      MapForgetsOrder(Without(s, k), t[1..]);
      assert SetsOf(s) == SetsOf(s)[..k] + [SetOf(s[k])] + SetsOf(s)[k + 1..];
      assert SetsOf(Without(s, k)) == SetsOf(s)[..k] + SetsOf(s)[k + 1..];
      assert SetsOf(t) == [SetOf(t[0])] + SetsOf(t[1..]);
    }
  }

  lemma {:induction false} TopsForgetOrder(s: seq<Keys>, t: seq<Keys>)
    requires multiset(s) == multiset(t)
    ensures multiset(TopsOf(s)) == multiset(TopsOf(t))
    decreases |t|
  {
    if t == [] {
      assert |multiset(s)| == 0;
    } else {
      var k := FindAndRemove(s, t);
      TopsForgetOrder(Without(s, k), t[1..]);
      assert TopsOf(s) == TopsOf(s)[..k] + [TopFive(s[k])] + TopsOf(s)[k + 1..];
      assert TopsOf(Without(s, k)) == TopsOf(s)[..k] + TopsOf(s)[k + 1..];
      assert TopsOf(t) == [TopFive(t[0])] + TopsOf(t[1..]);
    }
  }

  /** Neither measure depends on the order of the runs. */
  lemma MeasuresForgetOrder(a: seq<Keys>, b: seq<Keys>, largest: nat)
    requires multiset(a) == multiset(b)
    ensures Mean(SetsOf(TopsOf(a))) == Mean(SetsOf(TopsOf(b)))
    ensures IsLargestGroup(TopsOf(a), largest) <==> IsLargestGroup(TopsOf(b), largest)
  {
    var s, t := TopsOf(a), TopsOf(b);
    TopsForgetOrder(a, b);
    MapForgetsOrder(s, t);
    TermsAreBounded();
    PairsForgetOrder(SetsOf(s), SetsOf(t), Term);
    PairsForgetOrder(SetsOf(s), SetsOf(t), Counted);
    if IsLargestGroup(s, largest) { LargestForgetsOrder(s, t, largest); }
    if IsLargestGroup(t, largest) { LargestForgetsOrder(t, s, largest); }
  }

  lemma LargestForgetsOrder(s: seq<Keys>, t: seq<Keys>, largest: nat)
    requires multiset(s) == multiset(t) && IsLargestGroup(s, largest)
    ensures IsLargestGroup(t, largest)
  {
    forall joined ensures GroupSize(s, joined) == GroupSize(t, joined) { GroupForgetsOrder(s, t, joined); }
    forall x: Keys ensures x in s <==> x in t {
      assert x in multiset(s) <==> x in multiset(t);
    }
    forall i | 0 <= i < |t| && t[i] != [] ensures GroupSize(t, Join(t[i])) <= largest {
      assert t[i] in s;
    }
    if largest > 0 {
      var i :| 0 <= i < |s| && s[i] != [] && GroupSize(s, Join(s[i])) == largest;
      assert s[i] in t;
    }
  }
}
