/** Shared vocabulary of the model: optional and fallible results, doubles as
    the Python and C++ code compare them, plane points, the part of a WCS the
    run changes, and order-preserving filtering of sequences. */
module Common {

  datatype Option<+T> = None | Some(value: T)

  datatype Result<+T, +E> = Success(value: T) | Failure(error: E)

  /** A double as the source tests it. Only comparisons and finiteness tests
      are modelled on this type; arithmetic is done on `real`. */
  datatype Float = Num(v: real) | Inf(negative: bool) | NaN

  /** numpy.isfinite */
  predicate IsFinite(f: Float) {
    f.Num?
  }

  /** IEEE `f < t` against a finite threshold: false for NaN, true for -inf. */
  predicate LessThan(f: Float, t: real) {
    match f
    case Num(v) => v < t
    case Inf(negative) => negative
    case NaN => false
  }

  /** IEEE `f == f`, the idiom the source uses to reject NaN. */
  predicate SelfEqual(f: Float) {
    !f.NaN?
  }

  function Abs(x: real): real {
    if x < 0.0 then -x else x
  }

  datatype Point = Point(x: real, y: real)

  function Add(p: Point, q: Point): Point {
    Point(p.x + q.x, p.y + q.y)
  }

  function Sub(p: Point, q: Point): Point {
    Point(p.x - q.x, p.y - q.y)
  }

  /** The part of an exposure's WCS that the run touches: its reference pixel.
      The sky side is carried along opaquely. */
  datatype Wcs = Wcs(refPixel: Point, skyOrigin: Point)

  /** `a` is obtained from `b` by deleting elements: the order of what is kept
      is the order of the input. */
  predicate IsSubseq<T(==)>(a: seq<T>, b: seq<T>)
    decreases |b|
  {
    if |a| == 0 then true
    else if |b| == 0 then false
    else (a[0] == b[0] && IsSubseq(a[1..], b[1..])) || IsSubseq(a, b[1..])
  }

  /** The elements of `s` satisfying `keep`, in input order (a list
      comprehension with an `if`). */
  function Filter<T(==)>(s: seq<T>, keep: T -> bool): (r: seq<T>)
    ensures |r| <= |s|
    ensures forall i :: 0 <= i < |r| ==> r[i] in s && keep(r[i])
    ensures forall i :: 0 <= i < |s| && keep(s[i]) ==> s[i] in r
    ensures IsSubseq(r, s)
  {
    if |s| == 0 then []
    else
      var rest := Filter(s[1..], keep);
      if keep(s[0]) then [s[0]] + rest
      else rest
  }

  lemma {:induction false} IsSubseqRefl<T>(s: seq<T>)
    ensures IsSubseq(s, s)
    decreases |s|
  {
    if |s| > 0 {
      IsSubseqRefl(s[1..]);
    }
  }

  /** Weakening the predicate of a filter can only add elements. */
  lemma {:induction false} FilterMonotone<T>(s: seq<T>, p: T -> bool, q: T -> bool)
    requires forall i :: 0 <= i < |s| && p(s[i]) ==> q(s[i])
    ensures IsSubseq(Filter(s, p), Filter(s, q))
    decreases |s|
  {
    if |s| > 0 {
      FilterMonotone(s[1..], p, q);
      var a := Filter(s[1..], p);
      var b := Filter(s[1..], q);
      if p(s[0]) {
        assert Filter(s, p) == [s[0]] + a;
        assert Filter(s, q) == [s[0]] + b;
        assert ([s[0]] + a)[1..] == a;
        assert ([s[0]] + b)[1..] == b;
      } else if q(s[0]) {
        assert Filter(s, p) == a;
        assert Filter(s, q) == [s[0]] + b;
        assert ([s[0]] + b)[1..] == b;
      }
    }
  }

  predicate NoDup<T(==)>(s: seq<T>) {
    forall i, j :: 0 <= i < j < |s| ==> s[i] != s[j]
  }

  /** Number of occurrences of `x` in `s`. */
  function Count<T(==)>(s: seq<T>, x: T): nat {
    if |s| == 0 then 0
    else (if s[0] == x then 1 else 0) + Count(s[1..], x)
  }

  lemma {:induction false} CountAbsent<T>(s: seq<T>, x: T)
    requires x !in s
    ensures Count(s, x) == 0
    decreases |s|
  {
    if |s| > 0 {
      assert x !in s[1..];
      CountAbsent(s[1..], x);
    }
  }

  /** Without duplicates, a value occurs at most once. */
  lemma {:induction false} NoDupCount<T>(s: seq<T>, x: T)
    requires NoDup(s)
    ensures Count(s, x) <= 1
    decreases |s|
  {
    if |s| > 0 {
      NoDupCount(s[1..], x);
      if s[0] == x {
        assert forall j :: 0 <= j < |s[1..]| ==> s[1..][j] == s[j + 1];
        CountAbsent(s[1..], x);
      }
    }
  }

  /** A sequence of equal values counts its own length. */
  lemma {:induction false} CountConstant<T>(s: seq<T>, x: T)
    requires forall i :: 0 <= i < |s| ==> s[i] == x
    ensures Count(s, x) == |s|
    decreases |s|
  {
    if |s| > 0 {
      CountConstant(s[1..], x);
    }
  }

  /** Counting over a concatenation adds up. */
  lemma {:induction false} CountAppend<T>(a: seq<T>, b: seq<T>, x: T)
    ensures Count(a + b, x) == Count(a, x) + Count(b, x)
    decreases |a|
  {
    if |a| > 0 {
      assert (a + b)[1..] == a[1..] + b;
      CountAppend(a[1..], b, x);
    } else {
      assert a + b == b;
    }
  }

  /** A present value is counted. */
  lemma {:induction false} CountPresent<T>(s: seq<T>, x: T)
    requires x in s
    ensures Count(s, x) >= 1
    decreases |s|
  {
    if s[0] != x {
      CountPresent(s[1..], x);
    }
  }

  /** Filtering a sequence with one more element at the end. */
  lemma {:induction false} FilterSnoc<T>(s: seq<T>, x: T, keep: T -> bool)
    ensures Filter(s + [x], keep) == Filter(s, keep) + (if keep(x) then [x] else [])
    decreases |s|
  {
    if |s| == 0 {
      assert s + [x] == [x];
    } else {
      assert (s + [x])[1..] == s[1..] + [x];
      FilterSnoc(s[1..], x, keep);
    }
  }

  /** Two tests that agree on the elements give the same filter. */
  lemma {:induction false} FilterCongruent<T>(s: seq<T>, p: T -> bool, q: T -> bool)
    requires forall i :: 0 <= i < |s| ==> p(s[i]) == q(s[i])
    ensures Filter(s, p) == Filter(s, q)
    decreases |s|
  {
    if |s| > 0 {
      assert forall i :: 0 <= i < |s[1..]| ==> s[1..][i] == s[i + 1];
      FilterCongruent(s[1..], p, q);
    }
  }

  predicate StartsWith(s: string, prefix: string) {
    |prefix| <= |s| && s[..|prefix|] == prefix
  }

  predicate EndsWith(s: string, suffix: string) {
    |suffix| <= |s| && s[|s| - |suffix|..] == suffix
  }
}
