// Option, Result and the order-preserving filter shared by every component.
module Common {

  datatype Option<+T> = None | Some(value: T)

  datatype Result<+T, +E> = Ok(value: T) | Err(error: E)

  /** `part` occurs in `s`. */
  predicate Contains(s: string, part: string) {
    exists i :: 0 <= i <= |s| && part <= s[i..]
  }

  /** strings.Join. */
  function JoinWith(sep: string, parts: seq<string>): string {
    if parts == [] then ""
    else if |parts| == 1 then parts[0]
    else parts[0] + sep + JoinWith(sep, parts[1..])
  }

  /** Joining puts one separator between each part and the next. */
  lemma {:induction false} JoinAppends(sep: string, parts: seq<string>, last: string)
    ensures JoinWith(sep, []) == ""
    ensures JoinWith(sep, parts + [last]) == if parts == [] then last else JoinWith(sep, parts) + sep + last
  {
    if parts == [] {
      assert parts + [last] == [last];
    } else {
      JoinAppends(sep, parts[1..], last);
      assert (parts + [last])[1..] == parts[1..] + [last];
      if |parts| > 1 {
        assert parts[0] + sep + (JoinWith(sep, parts[1..]) + sep + last)
            == (parts[0] + sep + JoinWith(sep, parts[1..])) + sep + last;
      }
    }
  }

  /** The elements of `s` that satisfy `keep`, in their original order. */
  function Filter<T>(keep: T -> bool, s: seq<T>): (r: seq<T>)
    ensures |r| <= |s|
    ensures forall x :: x in r ==> x in s && keep(x)
    ensures forall x :: x in s && keep(x) ==> x in r
  {
    if s == [] then
      []
    else
      var last := s[|s| - 1];
      Filter(keep, s[..|s| - 1]) + (if keep(last) then [last] else [])
  }

  /** One step of a loop that keeps or skips the next element. */
  lemma FilterAppend<T>(keep: T -> bool, s: seq<T>, x: T)
    ensures keep(x) ==> Filter(keep, s + [x]) == Filter(keep, s) + [x]
    ensures !keep(x) ==> Filter(keep, s + [x]) == Filter(keep, s)
  {
    assert (s + [x])[..|s + [x]| - 1] == s;
  }

  /** The same, for a loop that walks `s` by index. */
  lemma FilterStep<T>(keep: T -> bool, s: seq<T>, i: nat)
    requires i < |s|
    ensures keep(s[i]) ==> Filter(keep, s[..i + 1]) == Filter(keep, s[..i]) + [s[i]]
    ensures !keep(s[i]) ==> Filter(keep, s[..i + 1]) == Filter(keep, s[..i])
    ensures i + 1 == |s| ==> s[..i + 1] == s
  {
    FilterAppend(keep, s[..i], s[i]);
    assert s[..i + 1] == s[..i] + [s[i]];
  }

  lemma FilterDropsLast<T>(keep: T -> bool, a: seq<T>, b: seq<T>, x: T)
    requires Filter(keep, a + [x]) == Filter(keep, b + [x])
    ensures Filter(keep, a) == Filter(keep, b)
  {
    FilterAppend(keep, a, x);
    FilterAppend(keep, b, x);
    if keep(x) {
      assert Filter(keep, a) == Filter(keep, a + [x])[..|Filter(keep, a)|];
      assert Filter(keep, b) == Filter(keep, b + [x])[..|Filter(keep, b)|];
    }
  }

  lemma Associate<T>(a: seq<T>, b: seq<T>, c: seq<T>)
    ensures (a + b) + c == a + (b + c)
  {
  }

  lemma {:induction false} FilterConcat<T>(keep: T -> bool, a: seq<T>, b: seq<T>)
    ensures Filter(keep, a + b) == Filter(keep, a) + Filter(keep, b)
  {
    if b == [] {
      assert a + b == a;
    } else {
      var init, last := b[..|b| - 1], b[|b| - 1];
      FilterConcat(keep, a, init);
      Associate(a, init, [last]);
      assert b == init + [last];
      hide Filter;
      FilterAppend(keep, a + init, last);
      FilterAppend(keep, init, last);
      Associate(Filter(keep, a), Filter(keep, init), [last]);
    }
  }

  lemma {:induction false} FiltersCommute<T>(p: T -> bool, q: T -> bool, s: seq<T>)
    ensures Filter(p, Filter(q, s)) == Filter(q, Filter(p, s))
  {
    if s != [] {
      var init, last := s[..|s| - 1], s[|s| - 1];
      FiltersCommute(p, q, init);
      FilterConcat(p, Filter(q, init), if q(last) then [last] else []);
      FilterConcat(q, Filter(p, init), if p(last) then [last] else []);
    }
  }

  lemma {:induction false} FilterMultiplicity<T>(keep: T -> bool, s: seq<T>, x: T)
    ensures multiset(Filter(keep, s))[x] == if keep(x) then multiset(s)[x] else 0
  {
    if s != [] {
      FilterMultiplicity(keep, s[..|s| - 1], x);
      assert s == s[..|s| - 1] + [s[|s| - 1]];
    }
  }

  lemma {:induction false} NothingKept<T>(keep: T -> bool, s: seq<T>)
    requires forall x :: x in s ==> !keep(x)
    ensures Filter(keep, s) == []
  {
    if s != [] {
      NothingKept(keep, s[..|s| - 1]);
    }
  }

  lemma {:induction false} AllKept<T>(keep: T -> bool, s: seq<T>)
    requires forall i :: 0 <= i < |s| ==> keep(s[i])
    ensures Filter(keep, s) == s
  {
    if s != [] {
      var init, last := s[..|s| - 1], s[|s| - 1];
      AllKept(keep, init);
      assert s == init + [last];
    }
  }

  /** Filters that agree on the elements of `s` give the same result. */
  lemma {:induction false} FilterAgree<T>(p: T -> bool, q: T -> bool, s: seq<T>)
    requires forall x :: x in s ==> p(x) == q(x)
    ensures Filter(p, s) == Filter(q, s)
  {
    if s != [] {
      FilterAgree(p, q, s[..|s| - 1]);
    }
  }

  /** Two filters give the same result exactly when they agree on the elements of `s`. */
  lemma FilterAgreeExactly<T(!new)>(p: T -> bool, q: T -> bool, s: seq<T>)
    ensures Filter(p, s) == Filter(q, s) <==> forall x :: x in s ==> p(x) == q(x)
  {
    if forall x :: x in s ==> p(x) == q(x) {
      FilterAgree(p, q, s);
    }
  }
}
