/** The JavaScript built-ins the components rely on, over immutable sequences. */
module JsBuiltins {

  /** `Array.prototype.filter`: the elements satisfying `keep`, in their original order. */
  function Filter<T(!new)>(s: seq<T>, keep: T -> bool): (r: seq<T>)
    ensures |r| <= |s|
    ensures forall i :: 0 <= i < |r| ==> keep(r[i])
    ensures (forall i :: 0 <= i < |s| ==> keep(s[i])) ==> r == s
  {
    if |s| == 0 then []
    else
      var init := s[..|s| - 1];
      var last := s[|s| - 1];
      assert s == init + [last];
      Filter(init, keep) + (if keep(last) then [last] else [])
  }

  /** Filtering keeps every occurrence of a kept value and no occurrence of a dropped one. */
  lemma {:induction false} FilterContents<T(!new)>(s: seq<T>, keep: T -> bool)
    ensures forall x :: multiset(Filter(s, keep))[x] == if keep(x) then multiset(s)[x] else 0
    ensures forall x :: x in Filter(s, keep) <==> x in s && keep(x)
    decreases |s|
  {
    if |s| > 0 {
      var init := s[..|s| - 1];
      var last := s[|s| - 1];
      assert s == init + [last];
      FilterContents(init, keep);
      assert multiset(s) == multiset(init) + multiset{last};
    }
  }

  /** A sequence in which no value occurs twice. */
  predicate NoDuplicates<T(==)>(s: seq<T>)
  {
    forall i, j :: 0 <= i < j < |s| ==> s[i] != s[j]
  }

  /** Filtering a sequence without duplicates cannot create one. */
  lemma {:induction false} FilterKeepsNoDuplicates<T(!new)>(s: seq<T>, keep: T -> bool)
    requires NoDuplicates(s)
    ensures NoDuplicates(Filter(s, keep))
    decreases |s|
  {
    if |s| > 0 {
      var init := s[..|s| - 1];
      var last := s[|s| - 1];
      assert s == init + [last];
      FilterKeepsNoDuplicates(init, keep);
      FilterContents(init, keep);
      assert last !in init;
    }
  }

  /** Filtering distributes over concatenation: each part keeps its own survivors, and the
      survivors of `a` stay in front of those of `b`. */
  lemma {:induction false} FilterConcat<T(!new)>(a: seq<T>, b: seq<T>, keep: T -> bool)
    ensures Filter(a + b, keep) == Filter(a, keep) + Filter(b, keep)
    decreases |b|
  {
    if |b| == 0 {
      assert a + b == a;
    } else {
      var init := b[..|b| - 1];
      var last := b[|b| - 1];
      var ab := a + b;
      assert ab[..|ab| - 1] == a + init;
      assert ab[|ab| - 1] == last;
      assert b[..|b| - 1] == init;
      FilterConcat(a, init, keep);
      calc {
        Filter(ab, keep);
        Filter(a + init, keep) + (if keep(last) then [last] else []);
        (Filter(a, keep) + Filter(init, keep)) + (if keep(last) then [last] else []);
        Filter(a, keep) + (Filter(init, keep) + (if keep(last) then [last] else []));
        Filter(a, keep) + Filter(b, keep);
      }
    }
  }

  /** Two filters may be applied in either order. */
  lemma {:induction false} FilterCommute<T(!new)>(s: seq<T>, p: T -> bool, q: T -> bool)
    ensures Filter(Filter(s, p), q) == Filter(Filter(s, q), p)
    decreases |s|
  {
    if |s| > 0 {
      var init := s[..|s| - 1];
      var last := s[|s| - 1];
      assert s[..|s| - 1] == init;
      var tp := if p(last) then [last] else [];
      var tq := if q(last) then [last] else [];
      assert Filter(s, p) == Filter(init, p) + tp;
      assert Filter(s, q) == Filter(init, q) + tq;
      FilterCommute(init, p, q);
      FilterConcat(Filter(init, p), tp, q);
      FilterConcat(Filter(init, q), tq, p);
      assert Filter(tp, q) == Filter(tq, p);
    }
  }

  /** The start index `Array.prototype.slice(start)` resolves: a negative start counts back
      from the end and stops at 0, a start past the end stops at the length. */
  function SliceStart(len: nat, start: int): (k: nat)
    ensures k <= len
    ensures start < 0 && len + start >= 0 ==> k == len + start
    ensures start < 0 && len + start < 0 ==> k == 0
    ensures 0 <= start <= len ==> k == start
    ensures start > len ==> k == len
  {
    if start < 0 then (if len + start < 0 then 0 else len + start)
    else if start > len then len
    else start
  }

  /** `Array.prototype.slice(start)` with one argument: the suffix from the resolved start. */
  function Slice<T>(s: seq<T>, start: int): (r: seq<T>)
    ensures |r| <= |s| && r == s[|s| - |r|..]
    ensures start < 0 ==> |r| == if -start < |s| then -start else |s|
    ensures start >= 0 ==> |r| == if start < |s| then |s| - start else 0
  {
    s[SliceStart(|s|, start)..]
  }

  /** `Math.max` of two numbers. */
  function Max(a: real, b: real): (m: real)
    ensures m >= a && m >= b && (m == a || m == b)
  {
    if a >= b then a else b
  }

  /** `Math.min` of two numbers. */
  function Min(a: real, b: real): (m: real)
    ensures m <= a && m <= b && (m == a || m == b)
  {
    if a <= b then a else b
  }
}
