/**
 * The `filteredItems` expression of `useFuzzyFilter` (hooks/useFuzzyFilter.ts):
 * an item is kept when one of the listed properties holds a truthy value
 * whose lower-cased text contains the lower-cased filter.
 */
module FuzzyFilter {
  import opened Strings
  import opened Collections

  /** The JavaScript values a property can hold, as far as the filter looks at them. */
  datatype Value = Text(s: string) | Number(n: int) | Boolean(b: bool) | Null | Undefined

  /** JavaScript truthiness: the empty string, 0, false, null and undefined are falsy. */
  predicate Truthy(v: Value) {
    match v
    case Text(s) => s != ""
    case Number(n) => n != 0
    case Boolean(b) => b
    case Null => false
    case Undefined => false
  }

  function DigitChar(d: nat): char
    requires d < 10
  {
    "0123456789"[d]
  }

  function NatText(n: nat): (r: string)
    ensures |r| > 0
  {
    if n < 10 then [DigitChar(n)] else NatText(n / 10) + [DigitChar(n % 10)]
  }

  /** `value.toString()` for the values the filter can see (truthy ones). */
  function ToText(v: Value): string {
    match v
    case Text(s) => s
    case Number(n) => if n < 0 then "-" + NatText(-n) else NatText(n)
    case Boolean(b) => if b then "true" else "false"
    case Null => "null"
    case Undefined => "undefined"
  }

  /** The test applied to one property value. */
  predicate ValueMatches(v: Value, filter: string) {
    Truthy(v) && Contains(Lower(ToText(v)), Lower(filter))
  }

  /** `propsToInclude.some(...)` for one item; `get` reads a property of an item. */
  predicate SomePropMatches<T, K>(item: T, props: seq<K>, get: (T, K) -> Value, filter: string) {
    if props == [] then false
    else ValueMatches(get(item, props[0]), filter) || SomePropMatches(item, props[1..], get, filter)
  }

  /** `.some` holds exactly when one of the listed properties matches. */
  lemma {:induction false} SomePropMatchesExists<T, K>(item: T, props: seq<K>, get: (T, K) -> Value, filter: string)
    ensures SomePropMatches(item, props, get, filter) <==>
      exists i :: 0 <= i < |props| && ValueMatches(get(item, props[i]), filter)
  {
    if props != [] {
      SomePropMatchesExists(item, props[1..], get, filter);
      if ValueMatches(get(item, props[0]), filter) {
        assert 0 <= 0 < |props| && ValueMatches(get(item, props[0]), filter);
      } else {
        assert forall i :: 1 <= i < |props| ==> props[1..][i - 1] == props[i];
      }
    }
  }

  /** `filteredItems`; with no listed properties nothing is kept. */
  function FilteredItems<T(!new), K>(items: seq<T>, props: seq<K>, get: (T, K) -> Value, filter: string): (r: seq<T>)
    ensures IsSubsequence(r, items)
    ensures forall x :: x in r <==> x in items && SomePropMatches(x, props, get, filter)
    ensures forall x :: multiset(r)[x] == if SomePropMatches(x, props, get, filter) then multiset(items)[x] else 0
    ensures props == [] ==> r == []
  {
    Filter(items, (x: T) => SomePropMatches(x, props, get, filter))
  }

  /** An item is kept iff some listed property is truthy and its lower-cased text contains the lower-cased filter. */
  lemma KeptIffSomePropertyMatches<T(!new), K>(items: seq<T>, props: seq<K>, get: (T, K) -> Value, filter: string, x: T)
    requires x in items
    ensures x in FilteredItems(items, props, get, filter) <==>
      exists i :: 0 <= i < |props| && Truthy(get(x, props[i]))
        && Contains(Lower(ToText(get(x, props[i]))), Lower(filter))
  {
    SomePropMatchesExists(x, props, get, filter);
  }

  /** The filter ignores letter case: filters that lower-case alike give the same result. */
  lemma CaseInsensitive<T(!new), K>(items: seq<T>, props: seq<K>, get: (T, K) -> Value, f1: string, f2: string)
    requires Lower(f1) == Lower(f2)
    ensures FilteredItems(items, props, get, f1) == FilteredItems(items, props, get, f2)
  {
    forall x: T ensures SomePropMatches(x, props, get, f1) == SomePropMatches(x, props, get, f2) {
      SomePropMatchesExists(x, props, get, f1);
      SomePropMatchesExists(x, props, get, f2);
    }
    FilterCongruent(items, (x: T) => SomePropMatches(x, props, get, f1), (x: T) => SomePropMatches(x, props, get, f2));
  }

  /** The empty filter keeps exactly the items with some truthy listed property. */
  lemma EmptyFilterKeepsTruthy<T(!new), K>(items: seq<T>, props: seq<K>, get: (T, K) -> Value, x: T)
    requires x in items
    ensures x in FilteredItems(items, props, get, "") <==> exists i :: 0 <= i < |props| && Truthy(get(x, props[i]))
  {
    SomePropMatchesExists(x, props, get, "");
    forall i | 0 <= i < |props| ensures ValueMatches(get(x, props[i]), "") == Truthy(get(x, props[i])) {
      ContainsEmpty(Lower(ToText(get(x, props[i]))));
    }
  }

  /** A longer filter keeps less: when `f1` occurs in `f2`, the result for `f2` is a subsequence of the result for `f1`. */
  lemma NarrowingFilterKeepsSubsequence<T(!new), K>(items: seq<T>, props: seq<K>, get: (T, K) -> Value, f1: string, f2: string)
    requires Contains(f2, f1)
    ensures IsSubsequence(FilteredItems(items, props, get, f2), FilteredItems(items, props, get, f1))
  {
    LowerKeepsContains(f2, f1);
    forall x: T | SomePropMatches(x, props, get, f2) ensures SomePropMatches(x, props, get, f1) {
      SomePropMatchesExists(x, props, get, f2);
      SomePropMatchesExists(x, props, get, f1);
      var i :| 0 <= i < |props| && ValueMatches(get(x, props[i]), f2);
      ContainsTransitive(Lower(ToText(get(x, props[i]))), Lower(f2), Lower(f1));
    }
    FilterMonotone(items, (x: T) => SomePropMatches(x, props, get, f2), (x: T) => SomePropMatches(x, props, get, f1));
  }
}
