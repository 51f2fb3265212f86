/** The end of MosaicTask.mosaic around the solver: the extent of the
    matched observations (`getExtent`), the flux-fit domain rounded up from
    it, and the loops of `writeNewWcs` and `writeFcr` that store one product
    per (visit, CCD) pair with its photometric zero point. */
module FitProducts {
  import opened Common
  import opened OrderedMap

  /** A running maximum of the Python code: -inf until a value is seen. */
  datatype Extent = NegInf | Fin(v: real)

  /** The focal-plane coordinates of one observation of matchVec. */
  datatype UV = UV(u: real, v: real)

  /** `x > e` for a running maximum. */
  predicate Above(x: real, e: Extent) {
    e.NegInf? || x > e.v
  }

  /** getExtent: the largest |u| and |v| over the observations, -inf for
      none. */
  method GetExtent(ms: seq<UV>) returns (uMax: Extent, vMax: Extent)
    ensures uMax.NegInf? <==> |ms| == 0
    ensures vMax.NegInf? <==> |ms| == 0
    ensures uMax.Fin? ==> forall i :: 0 <= i < |ms| ==> Abs(ms[i].u) <= uMax.v
    ensures uMax.Fin? ==> exists i :: 0 <= i < |ms| && Abs(ms[i].u) == uMax.v
    ensures vMax.Fin? ==> forall i :: 0 <= i < |ms| ==> Abs(ms[i].v) <= vMax.v
    ensures vMax.Fin? ==> exists i :: 0 <= i < |ms| && Abs(ms[i].v) == vMax.v
  {
    uMax, vMax := NegInf, NegInf;
    for k := 0 to |ms|
      invariant uMax.NegInf? <==> k == 0
      invariant vMax.NegInf? <==> k == 0
      invariant uMax.Fin? ==> forall i :: 0 <= i < k ==> Abs(ms[i].u) <= uMax.v
      invariant uMax.Fin? ==> exists i :: 0 <= i < k && Abs(ms[i].u) == uMax.v
      invariant vMax.Fin? ==> forall i :: 0 <= i < k ==> Abs(ms[i].v) <= vMax.v
      invariant vMax.Fin? ==> exists i :: 0 <= i < k && Abs(ms[i].v) == vMax.v
    {
      if Above(Abs(ms[k].u), uMax) {
        uMax := Fin(Abs(ms[k].u));
      }
      if Above(Abs(ms[k].v), vMax) {
        vMax := Fin(Abs(ms[k].v));
      }
    }
  }

  /** `(math.floor(x / 10.) + 1) * 10`; under Python 2 floor(-inf) is -inf,
      so no observation leaves the domain at -inf. */
  function RoundUpDomain(e: Extent): (r: Extent)
    ensures r.NegInf? <==> e.NegInf?
    ensures r.Fin? ==> e.v < r.v <= e.v + 10.0
    ensures r.Fin? ==> (r.v / 10.0).Floor as real * 10.0 == r.v
  {
    match e
    case NegInf => NegInf
    case Fin(x) =>
      var k := (x / 10.0).Floor + 1;
      FloorStep(x, k);
      Fin(10.0 * k as real)
  }

  /** The facts about k = floor(x/10) + 1 that RoundUpDomain needs. */
  lemma FloorStep(x: real, k: int)
    requires k == (x / 10.0).Floor + 1
    ensures x < 10.0 * k as real <= x + 10.0
    ensures (10.0 * k as real / 10.0).Floor as real * 10.0 == 10.0 * k as real
  {
    assert (k - 1) as real <= x / 10.0 < k as real;
    assert (10.0 * k as real) / 10.0 == k as real;
  }

  /** The rounded bound is the least multiple of ten strictly above the
      extent. */
  lemma RoundUpDomainLeast(x: real, m: int)
    requires x < 10.0 * m as real
    ensures RoundUpDomain(Fin(x)).v <= 10.0 * m as real
  {
    var k := (x / 10.0).Floor + 1;
    assert (k - 1) as real <= x / 10.0 < m as real;
    assert k - 1 < m;
  }

  /** The (visit, CCD) pairs of the two nested loops, visit-major. */
  function PairsOf(visits: seq<int>, ccds: seq<int>): (ps: seq<(int, int)>)
    ensures |ps| == |visits| * |ccds|
    decreases |visits|
  {
    if |visits| == 0 then []
    else seq(|ccds|, j requires 0 <= j < |ccds| => (visits[0], ccds[j])) + PairsOf(visits[1..], ccds)
  }

  /** Pair i·|ccds| + j is (visits[i], ccds[j]). */
  lemma {:induction false} PairsOfIndex(visits: seq<int>, ccds: seq<int>, i: int, j: int)
    requires 0 <= i < |visits| && 0 <= j < |ccds|
    ensures 0 <= i * |ccds| + j < |PairsOf(visits, ccds)|
    ensures PairsOf(visits, ccds)[i * |ccds| + j] == (visits[i], ccds[j])
    decreases i
  {
    var n := |ccds|;
    var head := seq(n, j requires 0 <= j < n => (visits[0], ccds[j]));
    assert PairsOf(visits, ccds) == head + PairsOf(visits[1..], ccds);
    if i > 0 {
      PairsOfIndex(visits[1..], ccds, i - 1, j);
      assert i * n + j == n + ((i - 1) * n + j);
    }
    MulBound(i, n, |visits|, j);
  }

  lemma MulBound(i: int, n: int, m: int, j: int)
    requires 0 <= i < m && 0 <= j < n
    ensures 0 <= i * n + j < m * n
  {
    assert i * n <= (m - 1) * n;
  }

  /** One butler.put: the zero point written with the product and whether
      the put went through (a failing put is reported and skipped). */
  datatype PutRecord = PutRecord(visit: int, ccd: int, fluxMag0: real, stored: bool)

  /** Errors that leave the write loop: a visit or CCD without a fitted
      scale (a missing key of fexp or fchip), or a zero scale (division by
      zero in 1.0/scale). */
  datatype WriteAbort = MissingScale(visit: int, ccd: int) | ZeroScale(visit: int, ccd: int)

  datatype WriteOutcome = WriteOutcome(records: seq<PutRecord>, abort: Option<WriteAbort>)

  /** fexp[visit] * fchip[ccd], None when either is missing. */
  function Scale(fexp: seq<Entry<real>>, fchip: seq<Entry<real>>, visit: int, ccd: int): (r: Option<real>)
    ensures r.Some? <==> visit in Keys(fexp) && ccd in Keys(fchip)
    ensures r.Some? ==> r.value == Lookup(fexp, visit).value * Lookup(fchip, ccd).value
  {
    match (Lookup(fexp, visit), Lookup(fchip, ccd))
    case (Some(e), Some(c)) => Some(e * c)
    case _ => None
  }

  /** The record a pair gets when its scale is usable. */
  predicate IsRecordOf(rec: PutRecord, p: (int, int), fexp: seq<Entry<real>>, fchip: seq<Entry<real>>, put: (int, int) -> bool) {
    var s := Scale(fexp, fchip, p.0, p.1);
    && rec.visit == p.0 && rec.ccd == p.1
    && s.Some? && s.value != 0.0 && rec.fluxMag0 * s.value == 1.0
    && rec.stored == put(p.0, p.1)
  }

  /** The body shared by writeNewWcs and writeFcr over the pairs: the
      product itself (from convertCoeff and the flux-fit parameters) is
      outside the model; `put` says whether the store succeeds. */
  function WriteProducts(pairs: seq<(int, int)>, fexp: seq<Entry<real>>, fchip: seq<Entry<real>>, put: (int, int) -> bool)
    : (r: WriteOutcome)
    ensures |r.records| <= |pairs|
    ensures forall i :: 0 <= i < |r.records| ==> IsRecordOf(r.records[i], pairs[i], fexp, fchip, put)
    ensures r.abort.None? <==> |r.records| == |pairs|
    ensures r.abort.Some? ==>
      var p := pairs[|r.records|];
      var s := Scale(fexp, fchip, p.0, p.1);
      (r.abort == Some(MissingScale(p.0, p.1)) && s.None?) || (r.abort == Some(ZeroScale(p.0, p.1)) && s == Some(0.0))
    decreases |pairs|
  {
    if |pairs| == 0 then WriteOutcome([], None)
    else
      var p := pairs[0];
      match Scale(fexp, fchip, p.0, p.1)
      case None => WriteOutcome([], Some(MissingScale(p.0, p.1)))
      case Some(s) =>
        if s == 0.0 then WriteOutcome([], Some(ZeroScale(p.0, p.1)))
        else
          var rec := PutRecord(p.0, p.1, 1.0 / s, put(p.0, p.1));
          InverseRecord(p, s, fexp, fchip, put);
          var rest := WriteProducts(pairs[1..], fexp, fchip, put);
          assert forall i :: 0 <= i < |rest.records| ==> ([rec] + rest.records)[i + 1] == rest.records[i];
          WriteOutcome([rec] + rest.records, rest.abort)
  }

  /** The record of a pair whose scale s is non-zero: zero point 1/s. */
  lemma InverseRecord(p: (int, int), s: real, fexp: seq<Entry<real>>, fchip: seq<Entry<real>>, put: (int, int) -> bool)
    requires Scale(fexp, fchip, p.0, p.1) == Some(s) && s != 0.0
    ensures IsRecordOf(PutRecord(p.0, p.1, 1.0 / s, put(p.0, p.1)), p, fexp, fchip, put)
  {
    assert (1.0 / s) * s == 1.0;
  }

  /** When every visit and CCD has a non-zero scale, every pair is written
      and the loops run to the end. */
  lemma {:induction false} WriteProductsComplete(pairs: seq<(int, int)>, fexp: seq<Entry<real>>, fchip: seq<Entry<real>>, put: (int, int) -> bool)
    requires forall i :: 0 <= i < |pairs| ==>
      var s := Scale(fexp, fchip, pairs[i].0, pairs[i].1); s.Some? && s.value != 0.0
    ensures WriteProducts(pairs, fexp, fchip, put).abort.None?
    ensures |WriteProducts(pairs, fexp, fchip, put).records| == |pairs|
    decreases |pairs|
  {
    if |pairs| > 0 {
      assert forall i :: 1 <= i < |pairs| ==> pairs[1..][i - 1] == pairs[i];
      WriteProductsComplete(pairs[1..], fexp, fchip, put);
    }
  }

  /** Whether a put succeeds does not change which pairs are written or
      where the loop stops: the WCS and FCR loops write the same pairs with
      the same zero points. */
  lemma {:induction false} WriteProductsSameZeroPoints(pairs: seq<(int, int)>, fexp: seq<Entry<real>>, fchip: seq<Entry<real>>,
                                                       put1: (int, int) -> bool, put2: (int, int) -> bool)
    ensures var r1, r2 := WriteProducts(pairs, fexp, fchip, put1), WriteProducts(pairs, fexp, fchip, put2);
      && r1.abort == r2.abort && |r1.records| == |r2.records|
      && forall i :: 0 <= i < |r1.records| ==> r1.records[i].fluxMag0 == r2.records[i].fluxMag0
    decreases |pairs|
  {
    if |pairs| > 0 {
      WriteProductsSameZeroPoints(pairs[1..], fexp, fchip, put1, put2);
    }
  }

  /** writeNewWcs followed by writeFcr; the second loop only runs when the
      first reaches its end. */
  datatype Written = Written(wcs: WriteOutcome, fcr: Option<WriteOutcome>)

  function WriteAll(visits: seq<int>, ccds: seq<int>, fexp: seq<Entry<real>>, fchip: seq<Entry<real>>,
                    putWcs: (int, int) -> bool, putFcr: (int, int) -> bool): (w: Written)
    ensures w.fcr.Some? <==> w.wcs.abort.None?
    ensures |w.wcs.records| <= |visits| * |ccds|
    ensures w.wcs.abort.None? <==> |w.wcs.records| == |visits| * |ccds|
    ensures forall i :: 0 <= i < |w.wcs.records| ==> IsRecordOf(w.wcs.records[i], PairsOf(visits, ccds)[i], fexp, fchip, putWcs)
    ensures w.fcr.Some? ==> w.fcr.value.abort.None? && |w.fcr.value.records| == |w.wcs.records|
    ensures w.fcr.Some? ==> forall i :: 0 <= i < |w.fcr.value.records| ==>
      IsRecordOf(w.fcr.value.records[i], PairsOf(visits, ccds)[i], fexp, fchip, putFcr)
      && w.fcr.value.records[i].fluxMag0 == w.wcs.records[i].fluxMag0
  {
    var pairs := PairsOf(visits, ccds);
    var wcs := WriteProducts(pairs, fexp, fchip, putWcs);
    if wcs.abort.Some? then Written(wcs, None)
    else
      WriteProductsSameZeroPoints(pairs, fexp, fchip, putWcs, putFcr);
      Written(wcs, Some(WriteProducts(pairs, fexp, fchip, putFcr)))
  }
}
