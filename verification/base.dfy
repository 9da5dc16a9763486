/** Generic helpers shared by every page model: an optional value (the
    JavaScript `null`/`undefined` cases) and the array `filter` the pages use. */
module Base {

  /** A value that may be absent, as `localStorage.getItem` or an unset
      React state can be. */
  datatype Option<+T> = None | Some(value: T)

  /** JavaScript truthiness of a `string | null`: `null` and the empty
      string are both falsy. */
  predicate IsTruthy(s: Option<string>)
  {
    s.Some? && s.value != ""
  }

  /** `s || fallback` for a `string | null`. */
  function OrElse(s: Option<string>, fallback: string): (r: string)
    ensures IsTruthy(s) ==> r == s.value
    ensures !IsTruthy(s) ==> r == fallback
  {
    if IsTruthy(s) then s.value else fallback
  }

  /** `a` can be obtained from `b` by deleting elements: an order-preserving
      subsequence. */
  predicate IsSubsequence<T(==)>(a: seq<T>, b: seq<T>)
    decreases |b|
  {
    if |a| == 0 then true
    else if |b| == 0 then false
    else (a[0] == b[0] && IsSubsequence(a[1..], b[1..])) || IsSubsequence(a, b[1..])
  }

  /** JavaScript's `Array.prototype.filter`: keeps, in order, the elements
      satisfying `f`. */
  function Filter<T(!new)>(f: T -> bool, s: seq<T>): (r: seq<T>)
    ensures |r| <= |s|
    ensures forall x :: x in r <==> x in s && f(x)
    ensures forall x :: multiset(r)[x] == if f(x) then multiset(s)[x] else 0
    ensures IsSubsequence(r, s)
    ensures |r| == |s| <==> forall x :: x in s ==> f(x)
  {
    if |s| == 0 then []
    else
      var rest := Filter(f, s[1..]);
      assert s == [s[0]] + s[1..];
      assert multiset(s) == multiset{s[0]} + multiset(s[1..]);
      if f(s[0]) then
        [s[0]] + rest
      else
        assert rest == [] || rest[0] != s[0] by {
          if rest != [] { assert rest[0] in rest; }
        }
        rest
  }

  /** Filtering with a predicate that holds everywhere keeps the sequence. */
  lemma {:induction false} FilterAll<T(!new)>(f: T -> bool, s: seq<T>)
    requires forall x :: x in s ==> f(x)
    ensures Filter(f, s) == s
  {
    if |s| > 0 {
      FilterAll(f, s[1..]);
    }
  }

  /** Filtering with two predicates that agree everywhere gives the same result. */
  lemma {:induction false} FilterSame<T(!new)>(f: T -> bool, g: T -> bool, s: seq<T>)
    requires forall x :: f(x) == g(x)
    ensures Filter(f, s) == Filter(g, s)
  {
    if |s| > 0 {
      FilterSame(f, g, s[1..]);
    }
  }
}
