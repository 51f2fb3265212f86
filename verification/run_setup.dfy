/** The start of MosaicTask.run: the visit, CCD and filter ids of the data
    references, each listed once in first-seen order, the check that a run
    covers exactly one filter, and the choice of colour-term device. */
module RunSetup {
  import opened Common

  /** The keys of a data reference the run reads. */
  datatype DataId = DataId(visit: int, ccd: int, filter: string, field: string)

  /** Index of the first occurrence of `x` in `xs`. */
  function FirstIndex<T(==)>(xs: seq<T>, x: T): (i: nat)
    requires x in xs
    ensures i < |xs| && xs[i] == x
    ensures forall k :: 0 <= k < i ==> xs[k] != x
  {
    if xs[0] == x then 0 else 1 + FirstIndex(xs[1..], x)
  }

  /** `r` lists each value of `xs` exactly once, ordered by first
      occurrence in `xs`. */
  predicate FirstSeenOf<T(==)>(r: seq<T>, xs: seq<T>) {
    && NoDup(r)
    && (forall a :: 0 <= a < |r| ==> r[a] in xs)
    && (forall k :: 0 <= k < |xs| ==> xs[k] in r)
    && (forall a, b :: 0 <= a < b < |r| ==> FirstIndex(xs, r[a]) < FirstIndex(xs, r[b]))
  }

  /** The `if not x in list: list.append(x)` loop of run. */
  method FirstSeen<T(==)>(xs: seq<T>) returns (r: seq<T>)
    ensures FirstSeenOf(r, xs)
    ensures |r| <= |xs| && |r| == |Values(xs)|
  {
    r := [];
    for i := 0 to |xs|
      invariant SeenUpTo(r, xs, i) && |r| <= i
    {
      if xs[i] !in r {
        SeenAppend(r, xs, i);
        r := r + [xs[i]];
      }
    }
    FirstSeenCount(r, xs);
  }

  /** The first-seen list of `xs[..i]`, with first indices taken in `xs`. */
  ghost predicate SeenUpTo<T>(r: seq<T>, xs: seq<T>, i: nat)
    requires i <= |xs|
  {
    && NoDup(r)
    && (forall a :: 0 <= a < |r| ==> r[a] in xs && FirstIndex(xs, r[a]) < i)
    && (forall k :: 0 <= k < i ==> xs[k] in r)
    && (forall a, b :: 0 <= a < b < |r| ==> FirstIndex(xs, r[a]) < FirstIndex(xs, r[b]))
  }

  /** Appending a value seen for the first time at i extends the list. */
  lemma SeenAppend<T>(r: seq<T>, xs: seq<T>, i: nat)
    requires i < |xs| && SeenUpTo(r, xs, i) && xs[i] !in r
    ensures SeenUpTo(r + [xs[i]], xs, i + 1)
  {
    assert FirstIndex(xs, xs[i]) == i;
    var r' := r + [xs[i]];
    forall k | 0 <= k < i + 1
      ensures xs[k] in r'
    {
      if k < i {
        assert xs[k] in r;
      }
    }
  }

  /** The distinct values of a sequence. */
  function Values<T>(xs: seq<T>): set<T> {
    set i | 0 <= i < |xs| :: xs[i]
  }

  /** A first-seen list is as long as the sequence has distinct values. */
  lemma FirstSeenCount<T>(r: seq<T>, xs: seq<T>)
    requires FirstSeenOf(r, xs)
    ensures |r| == |Values(xs)|
  {
    forall x | x in Values(r)
      ensures x in Values(xs)
    {
      var a :| 0 <= a < |r| && r[a] == x;
      var k :| 0 <= k < |xs| && xs[k] == x;
    }
    forall x | x in Values(xs)
      ensures x in Values(r)
    {
      var k :| 0 <= k < |xs| && xs[k] == x;
      var a :| 0 <= a < |r| && r[a] == x;
    }
    assert Values(r) == Values(xs);
    NoDupValues(r);
  }

  lemma {:induction false} NoDupValues<T>(s: seq<T>)
    requires NoDup(s)
    ensures |Values(s)| == |s|
    decreases |s|
  {
    if |s| > 0 {
      var t := s[1..];
      assert NoDup(t);
      NoDupValues(t);
      assert Values(s) == {s[0]} + Values(t) by {
        forall x | x in Values(s)
          ensures x in {s[0]} + Values(t)
        {
          var i :| 0 <= i < |s| && s[i] == x;
          if i > 0 {
            assert t[i - 1] == x;
          }
        }
        forall x | x in {s[0]} + Values(t)
          ensures x in Values(s)
        {
          if x != s[0] {
            var i :| 0 <= i < |t| && t[i] == x;
            assert s[i + 1] == x;
          }
        }
      }
      forall i | 0 <= i < |t|
        ensures t[i] != s[0]
      {
        assert t[i] == s[i + 1];
      }
    }
  }

  function Visits(refs: seq<DataId>): (vs: seq<int>)
    ensures |vs| == |refs| && forall i :: 0 <= i < |refs| ==> vs[i] == refs[i].visit
  {
    seq(|refs|, i requires 0 <= i < |refs| => refs[i].visit)
  }

  function CcdIds(refs: seq<DataId>): (cs: seq<int>)
    ensures |cs| == |refs| && forall i :: 0 <= i < |refs| ==> cs[i] == refs[i].ccd
  {
    seq(|refs|, i requires 0 <= i < |refs| => refs[i].ccd)
  }

  function Filters(refs: seq<DataId>): (fs: seq<string>)
    ensures |fs| == |refs| && forall i :: 0 <= i < |refs| ==> fs[i] == refs[i].filter
  {
    seq(|refs|, i requires 0 <= i < |refs| => refs[i].filter)
  }

  /** The colour-term device activated for a camera; other cameras run
      without a colour term. */
  function ColorDevice(camera: string): (d: Option<string>)
    ensures d.Some? <==> camera == "suprimecam" || camera == "suprimecam-mit"
    ensures camera == "suprimecam" ==> d == Some("Hamamatsu")
    ensures camera == "suprimecam-mit" ==> d == Some("MIT")
  {
    if camera == "suprimecam" then Some("Hamamatsu")
    else if camera == "suprimecam-mit" then Some("MIT")
    else None
  }

  /** What run hands to mosaic. */
  datatype RunPlan = RunPlan(frameIds: seq<int>, ccdIds: seq<int>, filter: string, colorDevice: Option<string>)

  /** "There are %d filters in input frames": the run stops before mosaic. */
  datatype RunError = FilterCount(n: nat)

  method Run(camera: string, refs: seq<DataId>) returns (r: Result<RunPlan, RunError>)
    ensures r.Success? <==> |refs| > 0 && forall i :: 0 <= i < |refs| ==> refs[i].filter == refs[0].filter
    ensures r.Success? ==>
      && FirstSeenOf(r.value.frameIds, Visits(refs))
      && FirstSeenOf(r.value.ccdIds, CcdIds(refs))
      && r.value.filter == refs[0].filter
      && r.value.colorDevice == ColorDevice(camera)
    ensures r.Failure? ==> (r.error.n == 0 <==> |refs| == 0)
    ensures r.Failure? ==> r.error.n != 1
    // the count in the message is the number of distinct filters
    ensures r.Failure? ==> r.error.n == |Values(Filters(refs))|
  {
    var frameIds := FirstSeen(Visits(refs));
    var ccdIds := FirstSeen(CcdIds(refs));
    var filters := FirstSeen(Filters(refs));
    OneFilterCheck(refs, filters);
    if |filters| != 1 {
      return Failure(FilterCount(|filters|));
    }
    return Success(RunPlan(frameIds, ccdIds, filters[0], ColorDevice(camera)));
  }

  /** The filter check passes exactly when there are references and they all
      share one filter, which is then the one first-seen filter; no filter
      at all means no references. */
  lemma OneFilterCheck(refs: seq<DataId>, filters: seq<string>)
    requires FirstSeenOf(filters, Filters(refs)) && |filters| <= |refs|
    ensures |filters| == 1 <==> |refs| > 0 && forall i :: 0 <= i < |refs| ==> refs[i].filter == refs[0].filter
    ensures |filters| == 1 ==> filters[0] == refs[0].filter
    ensures |filters| == 0 <==> |refs| == 0
  {
    var fs := Filters(refs);
    if |refs| > 0 {
      assert fs[0] in filters;
      if forall i :: 0 <= i < |refs| ==> refs[i].filter == refs[0].filter {
        SingleValue(filters, fs);
      }
      if |filters| == 1 {
        assert fs[0] == filters[0];
        forall i | 0 <= i < |refs|
          ensures refs[i].filter == refs[0].filter
        {
          assert fs[i] in filters;
          assert fs[i] == filters[0];
        }
      }
    }
  }

  /** A first-seen list of a constant non-empty sequence has one element. */
  lemma SingleValue<T>(r: seq<T>, xs: seq<T>)
    requires FirstSeenOf(r, xs) && |xs| > 0
    requires forall k :: 0 <= k < |xs| ==> xs[k] == xs[0]
    ensures |r| == 1
  {
    assert xs[0] in r;
    forall a | 0 <= a < |r|
      ensures r[a] == xs[0]
    {
      var k :| 0 <= k < |xs| && xs[k] == r[a];
    }
    CountConstant(r, xs[0]);
    NoDupCount(r, xs[0]);
  }
}
