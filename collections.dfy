/**
 * The array operations the source builds its queries from: `filter`, `find`,
 * `new Set(...)` followed by `sort()`, and the "group into a dictionary"
 * loop (`forEach`/`reduce` pushing into `acc[key]`).
 */
module Collections {
  import opened Strings

  datatype Option<T> = None | Some(value: T)

  /** `a` is `b` with some elements left out, the rest in order. */
  ghost predicate IsSubsequence<T>(a: seq<T>, b: seq<T>) {
    if a == [] then true
    else if b == [] then false
    else (a[0] == b[0] && IsSubsequence(a[1..], b[1..])) || IsSubsequence(a, b[1..])
  }

  lemma {:induction false} SubsequenceRefl<T>(a: seq<T>)
    ensures IsSubsequence(a, a)
  {
    if a != [] { SubsequenceRefl(a[1..]); }
  }

  /** `s.filter(p)`: exactly the elements of `s` satisfying `p`, in order, with their multiplicities. */
  function Filter<T>(s: seq<T>, p: T -> bool): (r: seq<T>)
    ensures |r| <= |s|
    ensures IsSubsequence(r, s)
    ensures forall i :: 0 <= i < |r| ==> p(r[i])
    ensures forall x :: x in r ==> x in s && p(x)
    ensures forall x :: x in s && p(x) ==> x in r && multiset(r)[x] == multiset(s)[x]
  {
    if s == [] then []
    else
      var rest := Filter(s[1..], p);
      assert s == [s[0]] + s[1..];
      if p(s[0]) then
        assert ([s[0]] + rest)[1..] == rest;
        [s[0]] + rest
      else rest
  }

  /** Filtering with a weaker predicate keeps more: the result of the stronger one is a subsequence. */
  lemma {:induction false} FilterMonotone<T>(s: seq<T>, q: T -> bool, p: T -> bool)
    requires forall x :: q(x) ==> p(x)
    ensures IsSubsequence(Filter(s, q), Filter(s, p))
  {
    if s != [] {
      FilterMonotone(s[1..], q, p);
      var fq, fp := Filter(s[1..], q), Filter(s[1..], p);
      if q(s[0]) {
        assert Filter(s, q) == [s[0]] + fq && Filter(s, p) == [s[0]] + fp;
        assert ([s[0]] + fq)[1..] == fq && ([s[0]] + fp)[1..] == fp;
      } else if p(s[0]) {
        assert Filter(s, p) == [s[0]] + fp && ([s[0]] + fp)[1..] == fp;
        if fq != [] {
          assert IsSubsequence(fq, ([s[0]] + fp)[1..]);
        }
      }
    }
  }

  /** Filters with pointwise-equal predicates agree. */
  lemma {:induction false} FilterCongruent<T>(s: seq<T>, p: T -> bool, q: T -> bool)
    requires forall x :: p(x) == q(x)
    ensures Filter(s, p) == Filter(s, q)
  {
    if s != [] { FilterCongruent(s[1..], p, q); }
  }

  /** Filtering a sequence extended at the end. */
  lemma {:induction false} FilterSnoc<T>(s: seq<T>, x: T, p: T -> bool)
    ensures Filter(s + [x], p) == Filter(s, p) + (if p(x) then [x] else [])
  {
    if s == [] {
      assert [x][1..] == [];
    } else {
      assert (s + [x])[1..] == s[1..] + [x];
      FilterSnoc(s[1..], x, p);
    }
  }

  /** Filtering a concatenation filters each part. */
  lemma {:induction false} FilterAppend<T>(a: seq<T>, b: seq<T>, p: T -> bool)
    ensures Filter(a + b, p) == Filter(a, p) + Filter(b, p)
  {
    if a == [] {
      assert a + b == b;
    } else {
      assert (a + b)[0] == a[0] && (a + b)[1..] == a[1..] + b;
      FilterAppend(a[1..], b, p);
    }
  }

  /** Two filters in a row are one filter by the conjunction. */
  lemma {:induction false} FilterFilter<T>(s: seq<T>, p: T -> bool, q: T -> bool)
    ensures Filter(Filter(s, p), q) == Filter(s, x => p(x) && q(x))
  {
    if s != [] {
      FilterFilter(s[1..], p, q);
      var rest := Filter(s[1..], p);
      if p(s[0]) {
        assert ([s[0]] + rest)[0] == s[0] && ([s[0]] + rest)[1..] == rest;
      }
    }
  }

  /** The order of two filters does not matter. */
  lemma FilterCommutes<T>(s: seq<T>, p: T -> bool, q: T -> bool)
    ensures Filter(Filter(s, p), q) == Filter(Filter(s, q), p)
  {
    FilterFilter(s, p, q);
    FilterFilter(s, q, p);
    FilterCongruent(s, x => p(x) && q(x), x => q(x) && p(x));
  }

  /** Dropping the same first element from two permutations of each other leaves two permutations. */
  lemma MultisetTail<T>(r1: seq<T>, r2: seq<T>)
    requires r1 != [] && r2 != [] && r1[0] == r2[0] && multiset(r1) == multiset(r2)
    ensures multiset(r1[1..]) == multiset(r2[1..])
  {
    assert r1 == [r1[0]] + r1[1..] && r2 == [r2[0]] + r2[1..];
    assert multiset(r1[1..]) == multiset(r1) - multiset{r1[0]};
    assert multiset(r2[1..]) == multiset(r2) - multiset{r2[0]};
  }

  /** `i` is the position `findIndex(p)` reports. */
  ghost predicate IsFirst<T>(s: seq<T>, i: int, p: T -> bool) {
    0 <= i < |s| && p(s[i]) && forall j :: 0 <= j < i ==> !p(s[j])
  }

  /** The position of the first element satisfying `p`, which `find` returns. */
  function FindIndex<T>(s: seq<T>, p: T -> bool): (r: Option<nat>)
    ensures r.Some? ==> IsFirst(s, r.value, p)
    ensures r.None? <==> forall i :: 0 <= i < |s| ==> !p(s[i])
  {
    if s == [] then None
    else if p(s[0]) then Some(0)
    else match FindIndex(s[1..], p)
      case None => None
      case Some(i) => Some(i + 1)
  }

  /** `s.find(p)`. */
  function Find<T>(s: seq<T>, p: T -> bool): (r: Option<T>)
    ensures r.None? <==> forall i :: 0 <= i < |s| ==> !p(s[i])
    ensures r.Some? ==> exists i :: IsFirst(s, i, p) && s[i] == r.value
  {
    match FindIndex(s, p)
    case None => None
    case Some(i) => Some(s[i])
  }

  // ----- Array.from(new Set(xs)).sort() -----

  ghost predicate StrictlyAscending(xs: seq<string>) {
    forall i, j :: 0 <= i < j < |xs| ==> LexLess(xs[i], xs[j])
  }

  /** Insert `x` into a strictly ascending list unless it is already there. */
  function InsertSorted(xs: seq<string>, x: string): (r: seq<string>)
    requires StrictlyAscending(xs)
    ensures StrictlyAscending(r)
    ensures forall y :: y in r <==> y in xs || y == x
  {
    if xs == [] then [x]
    else if x == xs[0] then xs
    else if LexLess(x, xs[0]) then
      assert forall j :: 0 < j < |xs| ==> LexLess(x, xs[j]) by {
        forall j | 0 < j < |xs| ensures LexLess(x, xs[j]) { LexLessTransitive(x, xs[0], xs[j]); }
      }
      [x] + xs
    else
      LexLessTotal(x, xs[0]);
      var rest := InsertSorted(xs[1..], x);
      assert forall y :: y in rest ==> LexLess(xs[0], y);
      [xs[0]] + rest
  }

  /** The distinct values of `xs` in ascending order. */
  function SortedDistinct(xs: seq<string>): (r: seq<string>)
    ensures StrictlyAscending(r)
    ensures forall y :: y in r <==> y in xs
  {
    if xs == [] then [] else InsertSorted(SortedDistinct(xs[..|xs| - 1]), xs[|xs| - 1])
  }

  /** There is only one strictly ascending list of a given set of strings. */
  lemma {:induction false} StrictlyAscendingUnique(a: seq<string>, b: seq<string>)
    requires StrictlyAscending(a) && StrictlyAscending(b)
    requires forall y :: y in a <==> y in b
    ensures a == b
  {
    assert a != [] ==> a[0] in b;
    assert b != [] ==> b[0] in a;
    if a != [] && b != [] {
      // the heads are both the least element
      assert a[0] in b && b[0] in a;
      if a[0] != b[0] {
        var ia :| 0 <= ia < |b| && b[ia] == a[0];
        var ib :| 0 <= ib < |a| && a[ib] == b[0];
        assert ia > 0 && ib > 0;
        LexLessAsymmetric(a[0], a[ib]);
      }
      forall y ensures y in a[1..] <==> y in b[1..] {
        if y in a[1..] {
          var k :| 1 <= k < |a| && a[k] == y;
          LexLessIrreflexive(y);
          assert y in b && y != b[0];
          var m :| 0 <= m < |b| && b[m] == y;
          assert b[1..][m - 1] == y;
        }
        if y in b[1..] {
          var k :| 1 <= k < |b| && b[k] == y;
          LexLessIrreflexive(y);
          assert y in a && y != a[0];
          var m :| 0 <= m < |a| && a[m] == y;
          assert a[1..][m - 1] == y;
        }
      }
      StrictlyAscendingUnique(a[1..], b[1..]);
    }
  }

  // ----- grouping into a dictionary -----

  /**
   * A JavaScript object used as a dictionary of lists: `order` is the order in
   * which its keys were first added (the order `Object.entries` lists them)
   * and `groups` maps each key to its list.
   */
  datatype Grouping<T> = Grouping(order: seq<string>, groups: map<string, seq<T>>)

  /** The distinct keys of `keys`, in order of first appearance. */
  function FirstOccurrences(keys: seq<string>): (r: seq<string>)
    ensures forall k :: k in r <==> k in keys
    ensures forall i, j :: 0 <= i < j < |r| ==> r[i] != r[j]
  {
    if keys == [] then []
    else
      var d := FirstOccurrences(keys[..|keys| - 1]);
      var k := keys[|keys| - 1];
      assert keys == keys[..|keys| - 1] + [k];
      if k in d then d else d + [k]
  }

  function KeysOf<T>(items: seq<T>, key: T -> string): (r: seq<string>)
    ensures |r| == |items| && forall i :: 0 <= i < |items| ==> r[i] == key(items[i])
  {
    seq(|items|, i requires 0 <= i < |items| => key(items[i]))
  }

  function KeyIs<T>(key: T -> string, k: string): T -> bool {
    x => key(x) == k
  }

  lemma KeysOfSnoc<T>(s: seq<T>, x: T, key: T -> string)
    ensures KeysOf(s + [x], key) == KeysOf(s, key) + [key(x)]
  {
  }

  lemma FirstOccurrencesSnoc(keys: seq<string>, k: string)
    ensures FirstOccurrences(keys + [k]) ==
      if k in FirstOccurrences(keys) then FirstOccurrences(keys) else FirstOccurrences(keys) + [k]
  {
    assert (keys + [k])[..|keys|] == keys;
  }

  lemma GroupSnoc<T>(s: seq<T>, x: T, key: T -> string, k: string)
    ensures Filter(s + [x], KeyIs(key, k)) == Filter(s, KeyIs(key, k)) + (if key(x) == k then [x] else [])
  {
    FilterSnoc(s, x, KeyIs(key, k));
  }

  /** A grouping of `items` by `key`: each item sits in the list of its key, in order. */
  ghost predicate IsGroupingOf<T>(g: Grouping<T>, items: seq<T>, key: T -> string) {
    && g.order == FirstOccurrences(KeysOf(items, key))
    && (forall k :: k in g.groups <==> k in g.order)
    && (forall k :: k in g.groups ==> g.groups[k] == Filter(items, KeyIs(key, k)) && g.groups[k] != [])
  }

  lemma PrefixSnoc<T>(s: seq<T>, i: nat)
    requires i < |s|
    ensures s[..i + 1] == s[..i] + [s[i]]
  {
  }

  /** A key that has no group yet occurs on no item so far. */
  lemma NewKeyUnseen<T>(g: Grouping<T>, items: seq<T>, key: T -> string, k: string)
    requires IsGroupingOf(g, items, key) && k !in g.groups
    ensures Filter(items, KeyIs(key, k)) == []
  {
    assert forall y :: y in items ==> key(y) != k by {
      forall y | y in items ensures key(y) != k {
        var j :| 0 <= j < |items| && items[j] == y;
        assert KeysOf(items, key)[j] == key(y);
      }
    }
  }

  /** The key order after adding `x`: its key is appended when it is new. */
  lemma StepOrder<T>(g: Grouping<T>, g': Grouping<T>, items: seq<T>, x: T, key: T -> string)
    requires IsGroupingOf(g, items, key)
    requires g'.order == if key(x) in g.groups then g.order else g.order + [key(x)]
    ensures g'.order == FirstOccurrences(KeysOf(items + [x], key))
  {
    KeysOfSnoc(items, x, key);
    FirstOccurrencesSnoc(KeysOf(items, key), key(x));
  }

  /** The list of key `k` after adding `x`. */
  lemma StepGroup<T>(g: Grouping<T>, g': Grouping<T>, items: seq<T>, x: T, key: T -> string, k: string)
    requires IsGroupingOf(g, items, key)
    requires g'.groups == g.groups[key(x) := (if key(x) in g.groups then g.groups[key(x)] else []) + [x]]
    requires k in g'.groups
    ensures g'.groups[k] == Filter(items + [x], KeyIs(key, k)) && g'.groups[k] != []
  {
    if k == key(x) && k !in g.groups {
      NewKeyUnseen(g, items, key, k);
    }
    GroupSnoc(items, x, key, k);
  }

  /** One step of the grouping loop: adding `x` to its group (creating it first if need be) keeps the grouping. */
  lemma GroupingStep<T>(g: Grouping<T>, g': Grouping<T>, items: seq<T>, x: T, key: T -> string)
    requires IsGroupingOf(g, items, key)
    requires g'.order == if key(x) in g.groups then g.order else g.order + [key(x)]
    requires g'.groups == g.groups[key(x) := (if key(x) in g.groups then g.groups[key(x)] else []) + [x]]
    ensures IsGroupingOf(g', items + [x], key)
  {
    StepOrder(g, g', items, x, key);
    forall k | k in g'.groups
      ensures g'.groups[k] == Filter(items + [x], KeyIs(key, k)) && g'.groups[k] != []
    {
      StepGroup(g, g', items, x, key, k);
    }
  }

  /**
   * The loop `items.forEach(x => { if (!acc[key(x)]) acc[key(x)] = []; acc[key(x)].push(x); })`.
   */
  method GroupBy<T>(items: seq<T>, key: T -> string) returns (g: Grouping<T>)
    ensures IsGroupingOf(g, items, key)
  {
    var order: seq<string> := [];
    var groups: map<string, seq<T>> := map[];
    var i := 0;
    while i < |items|
      invariant 0 <= i <= |items|
      invariant IsGroupingOf(Grouping(order, groups), items[..i], key)
    {
      var x := items[i];
      var k := key(x);
      ghost var before := Grouping(order, groups);
      var group := if k in groups then groups[k] else [];
      if k !in groups {
        order := order + [k];
      }
      groups := groups[k := group + [x]];
      GroupingStep(before, Grouping(order, groups), items[..i], x, key);
      PrefixSnoc(items, i);
      i := i + 1;
    }
    assert items[..i] == items;
    g := Grouping(order, groups);
  }

  /** In a grouping every item lands in exactly the group of its own key. */
  lemma GroupingPlacesEachItem<T>(g: Grouping<T>, items: seq<T>, key: T -> string, x: T)
    requires IsGroupingOf(g, items, key)
    requires x in items
    ensures key(x) in g.groups && x in g.groups[key(x)]
    ensures forall k :: k in g.groups && x in g.groups[k] ==> k == key(x)
  {
    var j :| 0 <= j < |items| && items[j] == x;
    assert KeysOf(items, key)[j] == key(x);
  }
}
