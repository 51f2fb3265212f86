/** Input bookkeeping of mosaicTask.py before the cross-match: the CCD set
    and its recentring (`readCcd`), one WCS per visit (`readWcs`), pruning of
    CCDs without data (`removeNonExistCcd`), per-visit catalogs
    (`readCatalog`), pruning of empty visits (`checkInputs`) and the
    observation count of a source group (`countObsInSourceGroup`).
    The data-access layer is a `Butler` value of functions. */
module Ingest {
  import opened Common
  import opened OrderedMap
  import opened StarSelection

  /** What the run reads of a CCD from the camera description: its centre on
      the focal plane (mm), its pixel size (mm) and its size in pixels. */
  datatype Ccd = Ccd(center: Point, pixelSize: real, width: int, height: int)

  predicate ValidCcd(c: Ccd) {
    c.pixelSize > 0.0
  }

  predicate AllValid(cs: seq<Entry<Ccd>>) {
    forall i :: 0 <= i < |cs| ==> ValidCcd(cs[i].val)
  }

  /** ccd.getCenter().getPixels(ccd.getPixelSize()) */
  function CenterInPixels(c: Ccd): Point
    requires ValidCcd(c)
  {
    Point(c.center.x / c.pixelSize, c.center.y / c.pixelSize)
  }

  /** The data-access layer, as the run uses it. */
  datatype Butler = Butler(
    complete: (int, int) -> bool,            // calexp, src, icSrc and icMatch all exist
    wcsFor: (int, int) -> Option<Wcs>,       // getWcsForCcd: None when the read fails
    ccdData: (int, int) -> Option<CcdData>)  // the reads of getAllForCcd

  datatype IngestError =
    | NoCcds                               // ccds.size() == 0 in readCcd
    | WcsUnreadable(visit: int, ccd: int)  // getWcsForCcd gave None to readWcs

  // ---------------------------------------------------------------- readCcd

  /** The CcdSet filled by `ccds[i] = findCcd(camera, i)` for each id. */
  function BuildCcdSet(camera: int -> Ccd, ccdIds: seq<int>): (r: seq<Entry<Ccd>>)
    ensures Sorted(r)
    ensures forall k :: k in Keys(r) <==> k in ccdIds
    ensures forall e :: e in r ==> e.val == camera(e.key)
    decreases |ccdIds|
  {
    if |ccdIds| == 0 then []
    else
      var last := ccdIds[|ccdIds| - 1];
      var prev := BuildCcdSet(camera, ccdIds[..|ccdIds| - 1]);
      InsertKeys(prev, last, camera(last));
      assert ccdIds == ccdIds[..|ccdIds| - 1] + [last];
      Insert(prev, last, camera(last))
  }

  /** Componentwise sum of points, in sequence order. */
  function SumPoints(ps: seq<Point>): Point
    decreases |ps|
  {
    if |ps| == 0 then Point(0.0, 0.0)
    else Add(SumPoints(ps[..|ps| - 1]), ps[|ps| - 1])
  }

  /** The CCD centres in pixels, in set order. */
  function CentersInPixels(cs: seq<Entry<Ccd>>): (ps: seq<Point>)
    requires AllValid(cs)
    ensures |ps| == |cs|
  {
    seq(|cs|, i requires 0 <= i < |cs| && AllValid(cs) => CenterInPixels(cs[i].val))
  }

  /** One CCD moved so that the mean centre becomes the origin, then shifted
      by half its size, as readCcd does with setCenter. */
  function Recenter(c: Ccd, mean: Point): (r: Ccd)
    requires ValidCcd(c)
    ensures ValidCcd(r) && r.pixelSize == c.pixelSize && r.width == c.width && r.height == c.height
  {
    var byMean := Point(mean.x * c.pixelSize, mean.y * c.pixelSize);
    var half := Point(c.width as real * 0.5, c.height as real * 0.5);
    c.(center := Sub(Sub(c.center, byMean), half))
  }

  function RecenterAll(cs: seq<Entry<Ccd>>, mean: Point): (r: seq<Entry<Ccd>>)
    requires AllValid(cs)
    ensures |r| == |cs| && AllValid(r)
    ensures forall i :: 0 <= i < |cs| ==> r[i] == Entry(cs[i].key, Recenter(cs[i].val, mean))
  {
    seq(|cs|, i requires 0 <= i < |cs| && AllValid(cs) => Entry(cs[i].key, Recenter(cs[i].val, mean)))
  }

  /** A recentred CCD's centre in pixels with the half-size shift undone:
      its position relative to the mean centre of the set. */
  function CenterFromMean(c: Ccd): Point
    requires ValidCcd(c)
  {
    Point((c.center.x + c.width as real * 0.5) / c.pixelSize,
          (c.center.y + c.height as real * 0.5) / c.pixelSize)
  }

  function CentersFromMean(cs: seq<Entry<Ccd>>): (ps: seq<Point>)
    requires AllValid(cs)
    ensures |ps| == |cs|
  {
    seq(|cs|, i requires 0 <= i < |cs| && AllValid(cs) => CenterFromMean(cs[i].val))
  }

  /** readCcd: look every id up in the camera and recentre the set on the
      mean of the CCD centres. Dividing by the set size fails on no CCDs. */
  function ReadCcd(camera: int -> Ccd, ccdIds: seq<int>): (r: Result<seq<Entry<Ccd>>, IngestError>)
    requires forall i :: 0 <= i < |ccdIds| ==> ValidCcd(camera(ccdIds[i]))
    ensures r.Failure? <==> |ccdIds| == 0
    ensures r.Failure? ==> r.error == NoCcds
    ensures r.Success? ==> Sorted(r.value) && AllValid(r.value)
    ensures r.Success? ==> forall k :: k in Keys(r.value) <==> k in ccdIds
    ensures r.Success? ==> forall i :: 0 <= i < |r.value| ==>
      var c := camera(r.value[i].key);
      r.value[i].val.pixelSize == c.pixelSize && r.value[i].val.width == c.width && r.value[i].val.height == c.height
    ensures r.Success? ==> SumPoints(CentersFromMean(r.value)) == Point(0.0, 0.0)
    // every CCD is moved by the same mean: the mean of the camera's centres
    ensures r.Success? ==> var ccds := BuildCcdSet(camera, ccdIds);
      && AllValid(ccds) && |ccds| > 0
      && forall i :: 0 <= i < |r.value| ==>
           CenterFromMean(r.value[i].val) == Sub(CenterInPixels(camera(r.value[i].key)), MeanCenter(ccds))
  {
    if |ccdIds| == 0 then
      Failure(NoCcds)
    else
      var ccds := BuildCcdSet(camera, ccdIds);
      BuiltCcdsNonEmpty(camera, ccdIds);
      var mean := MeanCenter(ccds);
      RecenteredKeys(ccds, mean);
      RecenteredSizes(camera, ccdIds, mean);
      CenteredOnMean(ccds);
      RecenteredFromCamera(camera, ccdIds, mean);
      Success(RecenterAll(ccds, mean))
  }

  /** A non-empty id list gives a non-empty set of valid CCDs. */
  lemma BuiltCcdsNonEmpty(camera: int -> Ccd, ccdIds: seq<int>)
    requires forall i :: 0 <= i < |ccdIds| ==> ValidCcd(camera(ccdIds[i]))
    requires |ccdIds| > 0
    ensures AllValid(BuildCcdSet(camera, ccdIds)) && |BuildCcdSet(camera, ccdIds)| > 0
  {
    BuiltCcdsValid(camera, ccdIds);
    assert ccdIds[0] in Keys(BuildCcdSet(camera, ccdIds));
  }

  /** Recentring keeps the ids and their order. */
  lemma RecenteredKeys(cs: seq<Entry<Ccd>>, mean: Point)
    requires AllValid(cs)
    ensures Keys(RecenterAll(cs, mean)) == Keys(cs)
    ensures Sorted(cs) ==> Sorted(RecenterAll(cs, mean))
  {
  }

  /** Recentring the set built from the camera keeps each CCD's pixel size
      and dimensions as the camera gives them. */
  lemma RecenteredSizes(camera: int -> Ccd, ccdIds: seq<int>, mean: Point)
    requires AllValid(BuildCcdSet(camera, ccdIds))
    ensures var r := RecenterAll(BuildCcdSet(camera, ccdIds), mean);
      forall i :: 0 <= i < |r| ==>
        var c := camera(r[i].key);
        r[i].val.pixelSize == c.pixelSize && r[i].val.width == c.width && r[i].val.height == c.height
  {
    var ccds := BuildCcdSet(camera, ccdIds);
    forall i | 0 <= i < |ccds|
      ensures ccds[i].val == camera(ccds[i].key)
    {
      assert ccds[i] in ccds;
    }
  }

  /** The mean of the CCD centres in pixels. */
  function MeanCenter(cs: seq<Entry<Ccd>>): (m: Point)
    requires AllValid(cs) && |cs| > 0
    ensures |cs| as real * m.x == SumPoints(CentersInPixels(cs)).x
    ensures |cs| as real * m.y == SumPoints(CentersInPixels(cs)).y
  {
    var sum := SumPoints(CentersInPixels(cs));
    var n := |cs| as real;
    Point(sum.x / n, sum.y / n)
  }

  lemma CenteredOnMean(cs: seq<Entry<Ccd>>)
    requires AllValid(cs) && |cs| > 0
    ensures SumPoints(CentersFromMean(RecenterAll(cs, MeanCenter(cs)))) == Point(0.0, 0.0)
  {
    RecenteredOnMean(cs, MeanCenter(cs));
  }

  /** Recentring on the mean puts the mean of the new centres at the origin. */
  lemma RecenteredOnMean(cs: seq<Entry<Ccd>>, mean: Point)
    requires AllValid(cs)
    requires |cs| as real * mean.x == SumPoints(CentersInPixels(cs)).x
    requires |cs| as real * mean.y == SumPoints(CentersInPixels(cs)).y
    ensures SumPoints(CentersFromMean(RecenterAll(cs, mean))) == Point(0.0, 0.0)
  {
    var ps, qs := CentersFromMean(RecenterAll(cs, mean)), CentersInPixels(cs);
    RecenteredCenters(cs, mean);
    SumShifted(ps, qs, mean);
    TimesIsProduct(|qs|, mean.x);
    TimesIsProduct(|qs|, mean.y);
  }

  lemma BuiltCcdsValid(camera: int -> Ccd, ccdIds: seq<int>)
    requires forall i :: 0 <= i < |ccdIds| ==> ValidCcd(camera(ccdIds[i]))
    ensures AllValid(BuildCcdSet(camera, ccdIds))
  {
    var ccds := BuildCcdSet(camera, ccdIds);
    forall i | 0 <= i < |ccds|
      ensures ValidCcd(ccds[i].val)
    {
      assert ccds[i] in ccds;
      assert ccds[i].key in Keys(ccds);
    }
  }

  /** After recentring, each CCD sits at its old centre minus the mean. */
  lemma RecenteredCenters(cs: seq<Entry<Ccd>>, mean: Point)
    requires AllValid(cs)
    ensures forall i :: 0 <= i < |cs| ==>
      CentersFromMean(RecenterAll(cs, mean))[i] == Sub(CentersInPixels(cs)[i], mean)
  {
    forall i | 0 <= i < |cs|
      ensures CentersFromMean(RecenterAll(cs, mean))[i] == Sub(CentersInPixels(cs)[i], mean)
    {
      CenterFromMeanOfRecenter(cs[i].val, mean);
    }
  }

  /** Recentring the set built from the camera moves each CCD's centre in
      pixels by minus the same point. */
  lemma RecenteredFromCamera(camera: int -> Ccd, ccdIds: seq<int>, mean: Point)
    requires AllValid(BuildCcdSet(camera, ccdIds))
    ensures var r := RecenterAll(BuildCcdSet(camera, ccdIds), mean);
      forall i :: 0 <= i < |r| ==> CenterFromMean(r[i].val) == Sub(CenterInPixels(camera(r[i].key)), mean)
  {
    var ccds := BuildCcdSet(camera, ccdIds);
    forall i | 0 <= i < |ccds|
      ensures CenterFromMean(RecenterAll(ccds, mean)[i].val) == Sub(CenterInPixels(camera(ccds[i].key)), mean)
    {
      assert ccds[i] in ccds;
      CenterFromMeanOfRecenter(ccds[i].val, mean);
    }
  }

  /** Subtracting the same point from every term subtracts it n times from
      the sum. */
  lemma {:induction false} SumShifted(ps: seq<Point>, qs: seq<Point>, m: Point)
    requires |ps| == |qs|
    requires forall i :: 0 <= i < |ps| ==> ps[i] == Sub(qs[i], m)
    ensures SumPoints(ps) == Point(SumPoints(qs).x - Times(|qs|, m.x), SumPoints(qs).y - Times(|qs|, m.y))
    decreases |ps|
  {
    if |ps| > 0 {
      var k := |ps| - 1;
      assert forall i :: 0 <= i < k ==> ps[..k][i] == Sub(qs[..k][i], m);
      SumShifted(ps[..k], qs[..k], m);
    }
  }

  /** n copies of a added up; SumShifted counts with it so that its
      induction stays linear. */
  function Times(n: nat, a: real): real
    decreases n
  {
    if n == 0 then 0.0 else Times(n - 1, a) + a
  }

  lemma {:induction false} TimesIsProduct(n: nat, a: real)
    ensures Times(n, a) == n as real * a
    decreases n
  {
    if n > 0 {
      TimesIsProduct(n - 1, a);
      assert n as real * a == (n - 1) as real * a + 1.0 * a;
    }
  }

  lemma CenterFromMeanOfRecenter(c: Ccd, mean: Point)
    requires ValidCcd(c)
    ensures CenterFromMean(Recenter(c, mean)) == Sub(CenterInPixels(c), mean)
  {
    var p := c.pixelSize;
    assert (c.center.x - mean.x * p) / p == c.center.x / p - mean.x;
    assert (c.center.y - mean.y * p) / p == c.center.y / p - mean.y;
  }

  // ---------------------------------------------------------------- readWcs

  /** Index of the first CCD (in set order) that has all four datasets. */
  function FirstComplete(complete: (int, int) -> bool, visit: int, ccdKeys: seq<int>): (r: Option<nat>)
    ensures r.Some? ==> r.value < |ccdKeys| && complete(visit, ccdKeys[r.value])
    ensures r.Some? ==> forall j :: 0 <= j < r.value ==> !complete(visit, ccdKeys[j])
    ensures r.None? <==> forall j :: 0 <= j < |ccdKeys| ==> !complete(visit, ccdKeys[j])
    decreases |ccdKeys|
  {
    if |ccdKeys| == 0 then None
    else if complete(visit, ccdKeys[0]) then Some(0)
    else match FirstComplete(complete, visit, ccdKeys[1..])
      case None => None
      case Some(k) => Some(k + 1)
  }

  function ShiftReferencePixel(w: Wcs, offset: Point): Wcs {
    w.(refPixel := Add(w.refPixel, offset))
  }

  /** The body of readWcs for one visit: nothing when no CCD is complete,
      else the WCS of the first complete CCD shifted by that CCD's centre in
      pixels; an unreadable WCS is an uncaught error. */
  function VisitWcs(b: Butler, visit: int, ccdSet: seq<Entry<Ccd>>): Result<Option<Wcs>, IngestError>
    requires AllValid(ccdSet)
  {
    match FirstComplete(b.complete, visit, Keys(ccdSet))
    case None => Success(None)
    case Some(k) =>
      match b.wcsFor(visit, ccdSet[k].key)
      case None => Failure(WcsUnreadable(visit, ccdSet[k].key))
      case Some(w) => Success(Some(ShiftReferencePixel(w, CenterInPixels(ccdSet[k].val))))
  }

  /** The WCS readWcs stores for a visit that has a complete CCD. */
  predicate IsVisitWcs(b: Butler, visit: int, ccdSet: seq<Entry<Ccd>>, w: Wcs)
    requires AllValid(ccdSet)
  {
    exists k :: 0 <= k < |ccdSet| && IsFirstComplete(b, visit, ccdSet, k)
      && b.wcsFor(visit, ccdSet[k].key) == Some(ShiftReferencePixelInv(w, ccdSet[k].val))
  }

  /** `ccdSet[k]` is the first complete CCD of the visit. */
  predicate IsFirstComplete(b: Butler, visit: int, ccdSet: seq<Entry<Ccd>>, k: int)
    requires 0 <= k < |ccdSet|
  {
    b.complete(visit, ccdSet[k].key) && forall j :: 0 <= j < k ==> !b.complete(visit, ccdSet[j].key)
  }

  function ShiftReferencePixelInv(w: Wcs, c: Ccd): Wcs
    requires ValidCcd(c)
  {
    w.(refPixel := Sub(w.refPixel, CenterInPixels(c)))
  }

  /** readWcs: the WcsDic of every visit with a complete CCD, keyed by visit;
      fails at the first visit whose chosen WCS cannot be read. */
  function ReadWcs(b: Butler, visitIds: seq<int>, ccdSet: seq<Entry<Ccd>>): (r: Result<seq<Entry<Wcs>>, IngestError>)
    requires AllValid(ccdSet)
    ensures r.Success? ==> Sorted(r.value)
    ensures r.Success? ==> forall v :: v in Keys(r.value) <==>
      v in visitIds && exists j :: 0 <= j < |ccdSet| && b.complete(v, ccdSet[j].key)
    ensures r.Success? ==> forall i :: 0 <= i < |r.value| ==> IsVisitWcs(b, r.value[i].key, ccdSet, r.value[i].val)
    ensures r.Failure? ==> exists i :: 0 <= i < |visitIds| && VisitWcs(b, visitIds[i], ccdSet) == Failure(r.error)
    decreases |visitIds|
  {
    if |visitIds| == 0 then Success([])
    else
      var visit := visitIds[|visitIds| - 1];
      var init := visitIds[..|visitIds| - 1];
      match ReadWcs(b, init, ccdSet)
      case Failure(e) => Failure(e)
      case Success(d) =>
        match VisitWcs(b, visit, ccdSet)
        case Failure(e) => Failure(e)
        case Success(None) =>
          assert visitIds == init + [visit];
          WcsSkipped(b, init, visit, ccdSet, d);
          Success(d)
        case Success(Some(w)) =>
          assert visitIds == init + [visit];
          WcsAdded(b, init, visit, ccdSet, d, w);
          Success(Insert(d, visit, w))
  }

  /** d is the WcsDic readWcs builds for these visits. */
  ghost predicate IsWcsDic(b: Butler, visits: seq<int>, ccdSet: seq<Entry<Ccd>>, d: seq<Entry<Wcs>>)
    requires AllValid(ccdSet)
  {
    && Sorted(d)
    && (forall v :: v in Keys(d) <==> v in visits && exists j :: 0 <= j < |ccdSet| && b.complete(v, ccdSet[j].key))
    && forall i :: 0 <= i < |d| ==> IsVisitWcs(b, d[i].key, ccdSet, d[i].val)
  }

  /** A visit without a complete CCD leaves the WcsDic as it is. */
  lemma WcsSkipped(b: Butler, init: seq<int>, visit: int, ccdSet: seq<Entry<Ccd>>, d: seq<Entry<Wcs>>)
    requires AllValid(ccdSet)
    requires IsWcsDic(b, init, ccdSet, d)
    requires VisitWcs(b, visit, ccdSet) == Success(None)
    ensures IsWcsDic(b, init + [visit], ccdSet, d)
  {
    assert forall j :: 0 <= j < |ccdSet| ==> Keys(ccdSet)[j] == ccdSet[j].key;
  }

  /** A visit with a readable WCS adds it under the visit. */
  lemma WcsAdded(b: Butler, init: seq<int>, visit: int, ccdSet: seq<Entry<Ccd>>, d: seq<Entry<Wcs>>, w: Wcs)
    requires AllValid(ccdSet)
    requires IsWcsDic(b, init, ccdSet, d)
    requires VisitWcs(b, visit, ccdSet) == Success(Some(w))
    ensures IsWcsDic(b, init + [visit], ccdSet, Insert(d, visit, w))
  {
    VisitWcsIsVisitWcs(b, visit, ccdSet, w);
    InsertKeys(d, visit, w);
    var r := Insert(d, visit, w);
    forall i | 0 <= i < |r|
      ensures IsVisitWcs(b, r[i].key, ccdSet, r[i].val)
    {
      assert r[i] in r;
    }
  }

  lemma VisitWcsIsVisitWcs(b: Butler, visit: int, ccdSet: seq<Entry<Ccd>>, w: Wcs)
    requires AllValid(ccdSet)
    requires VisitWcs(b, visit, ccdSet) == Success(Some(w))
    ensures IsVisitWcs(b, visit, ccdSet, w)
    ensures exists j :: 0 <= j < |ccdSet| && b.complete(visit, ccdSet[j].key)
  {
    var k := FirstComplete(b.complete, visit, Keys(ccdSet)).value;
    var w0 := b.wcsFor(visit, ccdSet[k].key).value;
    assert w == ShiftReferencePixel(w0, CenterInPixels(ccdSet[k].val));
    assert ShiftReferencePixelInv(w, ccdSet[k].val) == w0;
    assert IsFirstComplete(b, visit, ccdSet, k);
  }

  // ------------------------------------------------------- removeNonExistCcd

  /** Number of the visits for which the CCD has all four datasets. */
  function CountComplete(complete: (int, int) -> bool, visits: seq<int>, ccd: int): (n: nat)
    ensures n == 0 <==> forall i :: 0 <= i < |visits| ==> !complete(visits[i], ccd)
    ensures n <= |visits|
    decreases |visits|
  {
    if |visits| == 0 then 0
    else
      var rest := CountComplete(complete, visits[1..], ccd);
      assert forall i :: 1 <= i < |visits| ==> visits[i] == visits[1..][i - 1];
      (if complete(visits[0], ccd) then 1 else 0) + rest
  }

  /** removeNonExistCcd: erase from the CcdSet every CCD that is complete in
      none of the visits of the WcsDic. */
  function RemoveNonExistCcd<W>(complete: (int, int) -> bool, ccdSet: seq<Entry<Ccd>>, wcsDic: seq<Entry<W>>)
    : (r: seq<Entry<Ccd>>)
    requires Sorted(ccdSet)
    ensures Sorted(r) && IsSubseq(r, ccdSet)
    ensures forall e :: e in r <==>
      e in ccdSet && exists i :: 0 <= i < |wcsDic| && complete(wcsDic[i].key, e.key)
  {
    var r := Filter(ccdSet, (e: Entry<Ccd>) => CountComplete(complete, Keys(wcsDic), e.key) != 0);
    SubseqSorted(r, ccdSet);
    forall e | e in r
      ensures exists i :: 0 <= i < |wcsDic| && complete(wcsDic[i].key, e.key)
    {
      var j :| 0 <= j < |r| && r[j] == e;
      var i :| 0 <= i < |wcsDic| && complete(Keys(wcsDic)[i], e.key);
      assert complete(wcsDic[i].key, e.key);
    }
    forall e | e in ccdSet && exists i :: 0 <= i < |wcsDic| && complete(wcsDic[i].key, e.key)
      ensures e in r
    {
      var i :| 0 <= i < |wcsDic| && complete(wcsDic[i].key, e.key);
      assert complete(Keys(wcsDic)[i], e.key);
      var j :| 0 <= j < |ccdSet| && ccdSet[j] == e;
    }
    r
  }

  // ------------------------------------------------------------ readCatalog

  /** A measMosaic.Source made from a measured record, tagged with its visit
      (setExp) and CCD (setChip). */
  datatype Obs = Obs(row: SourceRow, visit: int, ccd: int)

  /** A measMosaic.Source made from a reference object and the CCD's WCS. */
  datatype RefSource = RefSource(ref: RefObject, wcs: Wcs)

  /** A measMosaic.SourceMatch. */
  datatype ObsMatch = ObsMatch(ref: RefSource, obs: Obs)

  /** The selected records with a finite right ascension, in order, tagged. */
  function RowsToObs(rows: seq<SourceRow>, visit: int, ccd: int): (r: seq<Obs>)
    ensures |r| <= |rows|
    ensures forall o :: o in r <==> o.visit == visit && o.ccd == ccd && o.row in rows && IsFinite(o.row.ra)
    decreases |rows|
  {
    if |rows| == 0 then []
    else
      var init := RowsToObs(rows[..|rows| - 1], visit, ccd);
      var row := rows[|rows| - 1];
      assert rows == rows[..|rows| - 1] + [row];
      if IsFinite(row.ra) then init + [Obs(row, visit, ccd)] else init
  }

  /** The selected matches with both sides present, in order, tagged. */
  function MatchesToObs(ms: seq<Match>, wcs: Wcs, visit: int, ccd: int): (r: seq<ObsMatch>)
    ensures |r| <= |ms|
    ensures forall m :: m in r <==>
      m.ref.wcs == wcs && m.obs.visit == visit && m.obs.ccd == ccd
      && Match(Some(m.ref.ref), Some(m.obs.row)) in ms
    decreases |ms|
  {
    if |ms| == 0 then []
    else
      var init := MatchesToObs(ms[..|ms| - 1], wcs, visit, ccd);
      var m := ms[|ms| - 1];
      assert ms == ms[..|ms| - 1] + [m];
      if m.first.Some? && m.second.Some? then
        init + [ObsMatch(RefSource(m.first.value, wcs), Obs(m.second.value, visit, ccd))]
      else init
  }

  /** What getAllForCcd yields for one (visit, ccd). */
  function CcdSelectionOf(b: Butler, ct: Option<ColorTerm>, visit: int, ccd: int): Option<CcdSelection> {
    GetAllForCcd(b.ccdData(visit, ccd), ct)
  }

  /** A source readCatalog keeps: selected on its CCD, with a finite RA. */
  predicate IsCatalogSource(b: Butler, ct: Option<ColorTerm>, o: Obs) {
    var sel := CcdSelectionOf(b, ct, o.visit, o.ccd);
    sel.Some? && o.row in sel.value.sources && IsFinite(o.row.ra)
  }

  /** A match readCatalog keeps: selected on its CCD, both sides present, the
      reference side carrying that CCD's WCS. */
  predicate IsCatalogMatch(b: Butler, ct: Option<ColorTerm>, m: ObsMatch) {
    var sel := CcdSelectionOf(b, ct, m.obs.visit, m.obs.ccd);
    sel.Some? && m.ref.wcs == sel.value.wcs && Match(Some(m.ref.ref), Some(m.obs.row)) in sel.value.matches
  }

  function CcdSources(b: Butler, ct: Option<ColorTerm>, visit: int, ccd: int): seq<Obs> {
    match CcdSelectionOf(b, ct, visit, ccd)
    case None => []
    case Some(sel) => RowsToObs(sel.sources, visit, ccd)
  }

  function CcdMatches(b: Butler, ct: Option<ColorTerm>, visit: int, ccd: int): seq<ObsMatch> {
    match CcdSelectionOf(b, ct, visit, ccd)
    case None => []
    case Some(sel) => MatchesToObs(sel.matches, sel.wcs, visit, ccd)
  }

  /** The source list of one visit: its CCDs' kept sources, CCD by CCD. */
  function VisitSources(b: Butler, ct: Option<ColorTerm>, visit: int, ccds: seq<int>): (r: seq<Obs>)
    ensures forall o :: o in r <==> o.visit == visit && o.ccd in ccds && IsCatalogSource(b, ct, o)
    decreases |ccds|
  {
    if |ccds| == 0 then []
    else
      var ccd := ccds[|ccds| - 1];
      assert ccds == ccds[..|ccds| - 1] + [ccd];
      VisitSources(b, ct, visit, ccds[..|ccds| - 1]) + CcdSources(b, ct, visit, ccd)
  }

  /** The match list of one visit: its CCDs' kept matches, CCD by CCD. */
  function VisitMatches(b: Butler, ct: Option<ColorTerm>, visit: int, ccds: seq<int>): (r: seq<ObsMatch>)
    ensures forall m :: m in r <==> m.obs.visit == visit && m.obs.ccd in ccds && IsCatalogMatch(b, ct, m)
    decreases |ccds|
  {
    if |ccds| == 0 then []
    else
      var ccd := ccds[|ccds| - 1];
      assert ccds == ccds[..|ccds| - 1] + [ccd];
      VisitMatches(b, ct, visit, ccds[..|ccds| - 1]) + CcdMatches(b, ct, visit, ccd)
  }

  /** readCatalog: one source list and one match list per visit, in visit
      order, each the concatenation over the CCDs in CCD order. */
  method ReadCatalog(b: Butler, ct: Option<ColorTerm>, frameIds: seq<int>, ccdIds: seq<int>)
    returns (sourceSet: seq<seq<Obs>>, matchList: seq<seq<ObsMatch>>)
    ensures |sourceSet| == |frameIds| && |matchList| == |frameIds|
    ensures forall i :: 0 <= i < |frameIds| ==>
      sourceSet[i] == VisitSources(b, ct, frameIds[i], ccdIds) && matchList[i] == VisitMatches(b, ct, frameIds[i], ccdIds)
  {
    sourceSet, matchList := [], [];
    for i := 0 to |frameIds|
      invariant CatalogsUpTo(b, ct, frameIds[..i], ccdIds, sourceSet, matchList)
    {
      var ss, ml := ReadVisitCatalog(b, ct, frameIds[i], ccdIds);
      CatalogsStep(b, ct, frameIds[..i], ccdIds, sourceSet, matchList, frameIds[i], ss, ml);
      assert frameIds[..i + 1] == frameIds[..i] + [frameIds[i]];
      sourceSet, matchList := sourceSet + [ss], matchList + [ml];
    }
    assert frameIds[..|frameIds|] == frameIds;
  }

  /** The lists of readCatalog for the given visits. */
  predicate CatalogsUpTo(b: Butler, ct: Option<ColorTerm>, frameIds: seq<int>, ccdIds: seq<int>,
                         sourceSet: seq<seq<Obs>>, matchList: seq<seq<ObsMatch>>) {
    && |sourceSet| == |frameIds| && |matchList| == |frameIds|
    && forall k :: 0 <= k < |frameIds| ==>
         sourceSet[k] == VisitSources(b, ct, frameIds[k], ccdIds) && matchList[k] == VisitMatches(b, ct, frameIds[k], ccdIds)
  }

  lemma CatalogsStep(b: Butler, ct: Option<ColorTerm>, frameIds: seq<int>, ccdIds: seq<int>,
                     sourceSet: seq<seq<Obs>>, matchList: seq<seq<ObsMatch>>, visit: int, ss: seq<Obs>, ml: seq<ObsMatch>)
    requires CatalogsUpTo(b, ct, frameIds, ccdIds, sourceSet, matchList)
    requires ss == VisitSources(b, ct, visit, ccdIds) && ml == VisitMatches(b, ct, visit, ccdIds)
    ensures CatalogsUpTo(b, ct, frameIds + [visit], ccdIds, sourceSet + [ss], matchList + [ml])
  {
  }

  /** The body of readCatalog's loop over the CCDs of one visit. */
  method ReadVisitCatalog(b: Butler, ct: Option<ColorTerm>, visit: int, ccdIds: seq<int>)
    returns (ss: seq<Obs>, ml: seq<ObsMatch>)
    ensures ss == VisitSources(b, ct, visit, ccdIds) && ml == VisitMatches(b, ct, visit, ccdIds)
  {
    ss, ml := [], [];
    for j := 0 to |ccdIds|
      invariant ss == VisitSources(b, ct, visit, ccdIds[..j])
      invariant ml == VisitMatches(b, ct, visit, ccdIds[..j])
    {
      var ccd := ccdIds[j];
      assert ccdIds[..j + 1][..j] == ccdIds[..j];
      var sel := CcdSelectionOf(b, ct, visit, ccd);
      var s1: seq<Obs>, m1: seq<ObsMatch> := [], [];
      if sel.Some? {
        s1 := ReadRows(sel.value.sources, visit, ccd);
        m1 := ReadMatches(sel.value.matches, sel.value.wcs, visit, ccd);
      }
      assert s1 == CcdSources(b, ct, visit, ccd) && m1 == CcdMatches(b, ct, visit, ccd);
      assert VisitSources(b, ct, visit, ccdIds[..j + 1]) == VisitSources(b, ct, visit, ccdIds[..j]) + s1;
      assert VisitMatches(b, ct, visit, ccdIds[..j + 1]) == VisitMatches(b, ct, visit, ccdIds[..j]) + m1;
      ss, ml := ss + s1, ml + m1;
    }
    assert ccdIds[..|ccdIds|] == ccdIds;
  }

  /** readCatalog's loop over the selected records of one CCD. */
  method ReadRows(sources: seq<SourceRow>, visit: int, ccd: int) returns (ss: seq<Obs>)
    ensures ss == RowsToObs(sources, visit, ccd)
  {
    ss := [];
    for k := 0 to |sources|
      invariant ss == RowsToObs(sources[..k], visit, ccd)
    {
      assert sources[..k + 1][..k] == sources[..k];
      if IsFinite(sources[k].ra) {
        ss := ss + [Obs(sources[k], visit, ccd)];
      }
    }
    assert sources[..|sources|] == sources;
  }

  /** readCatalog's loop over the selected matches of one CCD. */
  method ReadMatches(matches: seq<Match>, wcs: Wcs, visit: int, ccd: int) returns (ml: seq<ObsMatch>)
    ensures ml == MatchesToObs(matches, wcs, visit, ccd)
  {
    ml := [];
    for k := 0 to |matches|
      invariant ml == MatchesToObs(matches[..k], wcs, visit, ccd)
    {
      assert matches[..k + 1][..k] == matches[..k];
      var m := matches[k];
      if m.first.Some? && m.second.Some? {
        ml := ml + [ObsMatch(RefSource(m.first.value, wcs), Obs(m.second.value, visit, ccd))];
      }
    }
    assert matches[..|matches|] == matches;
  }

  // ------------------------------------------------------------ checkInputs

  /** Indices, below n and below every list's length (zip stops at the
      shortest), of the visits that have a source or a match. */
  function KeptFrames<S, M>(sourceSet: seq<seq<S>>, matchList: seq<seq<M>>, n: nat): (ks: seq<nat>)
    requires n <= |sourceSet| && n <= |matchList|
    ensures forall j :: 0 <= j < |ks| ==> ks[j] < n && (|sourceSet[ks[j]]| > 0 || |matchList[ks[j]]| > 0)
    ensures forall j, l :: 0 <= j < l < |ks| ==> ks[j] < ks[l]
    ensures forall i :: 0 <= i < n && (|sourceSet[i]| > 0 || |matchList[i]| > 0) ==> i in ks
    decreases n
  {
    if n == 0 then []
    else
      var init := KeptFrames(sourceSet, matchList, n - 1);
      if |sourceSet[n - 1]| > 0 || |matchList[n - 1]| > 0 then init + [n - 1] else init
  }

  function Min3(a: nat, b: nat, c: nat): (m: nat)
    ensures m <= a && m <= b && m <= c && (m == a || m == b || m == c)
  {
    if a <= b && a <= c then a else if b <= c then b else c
  }

  /** `xs[j]` is `src[kept[j]]` for every j. */
  ghost predicate AlignedWith<T>(xs: seq<T>, kept: seq<nat>, src: seq<T>) {
    |xs| == |kept| && forall j :: 0 <= j < |kept| ==> kept[j] < |src| && xs[j] == src[kept[j]]
  }

  /** checkInputs: drop the visits with neither sources nor matches, from the
      WcsDic and from both lists, keeping the three aligned. */
  method CheckInputs<W, S, M>(wcsDic: seq<Entry<W>>, sourceSet: seq<seq<S>>, matchList: seq<seq<M>>)
    returns (newWcsDic: seq<Entry<W>>, newSourceSet: seq<seq<S>>, newMatchList: seq<seq<M>>)
    requires Sorted(wcsDic)
    ensures Sorted(newWcsDic)
    ensures var kept := KeptFrames(sourceSet, matchList, Min3(|wcsDic|, |sourceSet|, |matchList|));
      AlignedWith(newWcsDic, kept, wcsDic) && AlignedWith(newSourceSet, kept, sourceSet)
      && AlignedWith(newMatchList, kept, matchList)
    ensures forall j :: 0 <= j < |newSourceSet| ==> |newSourceSet[j]| > 0 || |newMatchList[j]| > 0
  {
    var n := Min3(|wcsDic|, |sourceSet|, |matchList|);
    newWcsDic, newSourceSet, newMatchList := [], [], [];
    for i := 0 to n
      invariant AlignedWith(newWcsDic, KeptFrames(sourceSet, matchList, i), wcsDic)
      invariant AlignedWith(newSourceSet, KeptFrames(sourceSet, matchList, i), sourceSet)
      invariant AlignedWith(newMatchList, KeptFrames(sourceSet, matchList, i), matchList)
      invariant Sorted(newWcsDic)
    {
      var ss, ml := sourceSet[i], matchList[i];
      ghost var kept := KeptFrames(sourceSet, matchList, i);
      if |ss| > 0 || |ml| > 0 {
        assert KeptFrames(sourceSet, matchList, i + 1) == kept + [i];
        KeepNext(newWcsDic, kept, wcsDic, i);
        AppendAligned(newWcsDic, kept, wcsDic, i);
        AppendAligned(newSourceSet, kept, sourceSet, i);
        AppendAligned(newMatchList, kept, matchList, i);
        newWcsDic := Insert(newWcsDic, wcsDic[i].key, wcsDic[i].val);
        newSourceSet := newSourceSet + [ss];
        newMatchList := newMatchList + [ml];
      } else {
        assert KeptFrames(sourceSet, matchList, i + 1) == kept;
      }
    }
  }

  /** A visit kept after the earlier kept ones goes to the end of the sorted
      WcsDic, which stays sorted. */
  lemma KeepNext<W>(dic: seq<Entry<W>>, kept: seq<nat>, wcsDic: seq<Entry<W>>, i: nat)
    requires Sorted(wcsDic) && Sorted(dic) && AlignedWith(dic, kept, wcsDic) && i < |wcsDic|
    requires forall j :: 0 <= j < |kept| ==> kept[j] < i
    ensures Insert(dic, wcsDic[i].key, wcsDic[i].val) == dic + [wcsDic[i]]
    ensures Sorted(dic + [wcsDic[i]])
  {
    forall j | 0 <= j < |dic|
      ensures dic[j].key < wcsDic[i].key
    {
      assert dic[j] == wcsDic[kept[j]] && kept[j] < i;
    }
    InsertAbove(dic, wcsDic[i].key, wcsDic[i].val);
    assert wcsDic[i] == Entry(wcsDic[i].key, wcsDic[i].val);
  }

  /** An aligned list stays aligned when the next kept element is appended. */
  lemma AppendAligned<T>(xs: seq<T>, kept: seq<nat>, src: seq<T>, i: nat)
    requires AlignedWith(xs, kept, src) && i < |src|
    ensures AlignedWith(xs + [src[i]], kept + [i], src)
  {
  }

  // -------------------------------------------------- countObsInSourceGroup

  /** Number of observations over all groups of a SourceGroup. */
  function TotalEntries<T>(sg: seq<seq<T>>): nat
    decreases |sg|
  {
    if |sg| == 0 then 0 else TotalEntries(sg[..|sg| - 1]) + |sg[|sg| - 1]|
  }

  /** countObsInSourceGroup: each group's first entry is the merged object
      itself, so a group contributes its length minus one. */
  method CountObsInSourceGroup<T>(sg: seq<seq<T>>) returns (num: int)
    ensures num == TotalEntries(sg) - |sg|
    ensures (forall i :: 0 <= i < |sg| ==> |sg[i]| >= 1) ==> num >= 0
    ensures (forall i :: 0 <= i < |sg| ==> |sg[i]| >= 2) ==> num >= |sg|
  {
    num := 0;
    for i := 0 to |sg|
      invariant num == TotalEntries(sg[..i]) - i
      invariant (forall k :: 0 <= k < |sg| ==> |sg[k]| >= 1) ==> num >= 0
      invariant (forall k :: 0 <= k < |sg| ==> |sg[k]| >= 2) ==> num >= i
    {
      assert sg[..i + 1][..i] == sg[..i];
      num := num + (|sg[i]| - 1);
    }
    assert sg[..|sg|] == sg;
  }
}
