/** Star selection of mosaicTask.py: `selectStars` on a source catalog, on a
    plain list of records and on a match list; the colour-term rewrite of
    reference fluxes; and `getAllForCcd`, which falls back to saturated
    matches when fewer than ten unsaturated ones remain. */
module StarSelection {
  import opened Common

  /** The columns of one source record that selection and ingest read. */
  datatype SourceRow = SourceRow(
    id: int,
    ra: Float,
    extendedness: Float,   // classification.extendedness
    saturated: bool,       // flags.pixel.saturated.center
    nchild: int,           // deblend.nchild
    psfStar: bool)         // classification.psfstar

  /** A SourceCatalog; `hasNchild` is false when it lacks deblend.nchild. */
  datatype SourceCatalog = SourceCatalog(rows: seq<SourceRow>, hasNchild: bool)

  /** A reference-catalog object, reduced to its flux. */
  datatype RefObject = RefObject(id: int, flux: Float)

  /** A ReferenceMatch: reference side `first`, measured side `second`;
      either can be missing. */
  datatype Match = Match(first: Option<RefObject>, second: Option<SourceRow>)

  const ExtendednessCut: real := 0.5

  /** Fewer unsaturated matches than this and saturated ones are let in. */
  const MinUnsaturatedMatches: nat := 10

  /** deblend.nchild, or 0 when the catalog has no such column. */
  function NChild(cat: SourceCatalog, row: SourceRow): int {
    if cat.hasNchild then row.nchild else 0
  }

  predicate IsCatalogStar(cat: SourceCatalog, row: SourceRow) {
    LessThan(row.extendedness, ExtendednessCut) && !row.saturated && NChild(cat, row) == 0
  }

  /** selectStars on a SourceCatalog: point-like, unsaturated, not deblended;
      the includeSaturated flag is not consulted on this branch. */
  function SelectCatalogStars(cat: SourceCatalog): (stars: seq<SourceRow>)
    ensures IsSubseq(stars, cat.rows)
    ensures forall row :: row in stars <==>
      row in cat.rows && LessThan(row.extendedness, 0.5) && !row.saturated && (cat.hasNchild ==> row.nchild == 0)
    ensures |cat.rows| == 0 ==> stars == []
  {
    if |cat.rows| == 0 then []
    else Filter(cat.rows, row => IsCatalogStar(cat, row))
  }

  /** The record-level test of the list branches; psfstar counts only for
      match lists. */
  predicate IsListStar(row: SourceRow, usePsfFlag: bool, includeSaturated: bool) {
    ((usePsfFlag && row.psfStar) || LessThan(row.extendedness, ExtendednessCut))
    && (includeSaturated || !row.saturated)
  }

  /** selectStars on a plain list of records (no psfstar key). */
  function SelectListStars(rows: seq<SourceRow>, includeSaturated: bool): (stars: seq<SourceRow>)
    ensures IsSubseq(stars, rows)
    ensures forall row :: row in stars <==>
      row in rows && LessThan(row.extendedness, 0.5) && (includeSaturated || !row.saturated)
  {
    Filter(rows, row => IsListStar(row, false, includeSaturated))
  }

  predicate IsMatchStar(m: Match, includeSaturated: bool) {
    m.second.Some? && IsListStar(m.second.value, true, includeSaturated)
  }

  /** selectStars on a match list. Every entry's `second` is read, so a
      single match without a measured side raises (None here). */
  function SelectMatchStars(ms: seq<Match>, includeSaturated: bool): (r: Option<seq<Match>>)
    ensures r.None? <==> exists i :: 0 <= i < |ms| && ms[i].second.None?
    ensures r.Some? ==> IsSubseq(r.value, ms)
    ensures r.Some? ==> forall m :: m in r.value <==>
      m in ms && (m.second.value.psfStar || LessThan(m.second.value.extendedness, 0.5))
      && (includeSaturated || !m.second.value.saturated)
  {
    if |ms| == 0 then Some([])
    else if exists i :: 0 <= i < |ms| && ms[i].second.None? then None
    else Some(Filter(ms, m => IsMatchStar(m, includeSaturated)))
  }

  /** Letting saturated matches in only adds entries: the unsaturated
      selection is a subsequence of the inclusive one. */
  lemma SaturatedSelectionContains(ms: seq<Match>)
    ensures SelectMatchStars(ms, false).Some? <==> SelectMatchStars(ms, true).Some?
    ensures SelectMatchStars(ms, false).Some? ==>
      IsSubseq(SelectMatchStars(ms, false).value, SelectMatchStars(ms, true).value)
  {
    if |ms| == 0 {
      assert SelectMatchStars(ms, false).value == [];
    } else if SelectMatchStars(ms, false).Some? {
      FilterMonotone(ms, m => IsMatchStar(m, false), m => IsMatchStar(m, true));
    }
  }

  /** The match list used for a CCD: the unsaturated selection when it has
      at least ten entries, the saturated-inclusive one otherwise. */
  function ChooseMatches(ms: seq<Match>): (r: Option<seq<Match>>)
    ensures r.Some? <==> SelectMatchStars(ms, false).Some?
    ensures r.Some? ==> IsSubseq(SelectMatchStars(ms, false).value, r.value)
    ensures r.Some? && |SelectMatchStars(ms, false).value| >= MinUnsaturatedMatches ==>
      r.value == SelectMatchStars(ms, false).value
    ensures r.Some? && |SelectMatchStars(ms, false).value| < MinUnsaturatedMatches ==>
      r.value == SelectMatchStars(ms, true).value
    ensures r.Some? && (exists i :: 0 <= i < |r.value| && r.value[i].second.value.saturated) ==>
      |SelectMatchStars(ms, false).value| < MinUnsaturatedMatches
  {
    SaturatedSelectionContains(ms);
    match SelectMatchStars(ms, false)
    case None => None
    case Some(sel) =>
      if |sel| < MinUnsaturatedMatches then
        SelectMatchStars(ms, true)
      else
        IsSubseqRefl(sel);
        Some(sel)
  }

  /** A colour term as the loop of getAllForCcd uses it: the reference
      fluxes in the term's primary and secondary bands (`get(key_p)`,
      `get(key_s)`), and the arithmetic after the two log10 calls
      (transformMags and pow), applied outside the model, which gives the
      corrected flux or None when it raises. */
  datatype ColorTerm = ColorTerm(bandFluxes: RefObject -> (Float, Float), transform: (Float, Float) -> Option<Float>)

  /** math.log10 raises ValueError on zero and on a negative argument; it
      returns NaN for NaN and +inf for +inf. */
  predicate Log10Raises(x: Float) {
    match x
    case Num(v) => v <= 0.0
    case Inf(negative) => negative
    case NaN => false
  }

  /** The corrected flux of one reference object, None when a log10 or the
      rest of the arithmetic raises. */
  function CorrectedFlux(ref: RefObject, ct: ColorTerm): Option<Float> {
    var fluxes := ct.bandFluxes(ref);
    if Log10Raises(fluxes.0) || Log10Raises(fluxes.1) then None
    else ct.transform(fluxes.0, fluxes.1)
  }

  /** A match whose reference side makes the colour-term arithmetic raise. */
  predicate Raises(m: Match, ct: ColorTerm) {
    m.first.Some? && CorrectedFlux(m.first.value, ct).None?
  }

  /** One match after the colour term: the reference flux is replaced by the
      corrected one, or the reference side is dropped when that is NaN. */
  function CorrectMatch(m: Match, ct: ColorTerm): Match
    requires !Raises(m, ct)
  {
    match m.first
    case None => m
    case Some(ref) =>
      var flux := CorrectedFlux(ref, ct).value;
      if SelfEqual(flux) then Match(Some(ref.(flux := flux)), m.second)
      else Match(None, m.second)
  }

  /** Whether the reference schema can be read: from the first match, or from
      the second when the first has no reference side. */
  predicate HasRefSchema(ms: seq<Match>) {
    |ms| > 0 && (ms[0].first.Some? || (|ms| > 1 && ms[1].first.Some?))
  }

  /** The colour-term loop of getAllForCcd. It raises (None) when the
      reference schema cannot be found from the first two matches, and when
      the arithmetic raises for any match with a reference side. */
  function ApplyColorTerm(ms: seq<Match>, ct: ColorTerm): (r: Option<seq<Match>>)
    ensures r.None? <==> !HasRefSchema(ms) || exists i :: 0 <= i < |ms| && Raises(ms[i], ct)
    // in particular a reference flux that is zero or negative in either band
    // makes the loop raise
    ensures r.Some? ==> forall i :: 0 <= i < |ms| && ms[i].first.Some? ==>
      !Log10Raises(ct.bandFluxes(ms[i].first.value).0) && !Log10Raises(ct.bandFluxes(ms[i].first.value).1)
    ensures r.Some? ==> |r.value| == |ms|
    ensures r.Some? ==> forall i :: 0 <= i < |ms| ==>
      && r.value[i].second == ms[i].second
      && (r.value[i].first.Some? <==> ms[i].first.Some? && !CorrectedFlux(ms[i].first.value, ct).value.NaN?)
      && (r.value[i].first.Some? ==>
            r.value[i].first.value.id == ms[i].first.value.id
            && Some(r.value[i].first.value.flux) == CorrectedFlux(ms[i].first.value, ct))
  {
    if !HasRefSchema(ms) || exists i :: 0 <= i < |ms| && Raises(ms[i], ct) then None
    else Some(seq(|ms|, i requires 0 <= i < |ms| && !Raises(ms[i], ct) => CorrectMatch(ms[i], ct)))
  }

  /** What the data-access layer yields for one (visit, ccd), or None when
      src or calexp_md is missing or a read fails. */
  datatype CcdData = CcdData(wcs: Wcs, sources: SourceCatalog, matches: seq<Match>)

  datatype CcdSelection = CcdSelection(sources: seq<SourceRow>, matches: seq<Match>, wcs: Wcs)

  /** getAllForCcd: read, colour-correct, select. Any exception gives None. */
  function GetAllForCcd(data: Option<CcdData>, ct: Option<ColorTerm>): (r: Option<CcdSelection>)
    ensures data.None? ==> r.None?
    ensures data.Some? && ct.Some? && ApplyColorTerm(data.value.matches, ct.value).None? ==> r.None?
    // otherwise only a match without a measured side makes the selection fail
    ensures data.Some? && (ct.None? || ApplyColorTerm(data.value.matches, ct.value).Some?) ==>
      (r.Some? <==> forall i :: 0 <= i < |data.value.matches| ==> data.value.matches[i].second.Some?)
    ensures r.Some? ==>
      && r.value.wcs == data.value.wcs
      && r.value.sources == SelectCatalogStars(data.value.sources)
      && var corrected := if ct.Some? then ApplyColorTerm(data.value.matches, ct.value).value else data.value.matches;
         ChooseMatches(corrected) == Some(r.value.matches)
    ensures r.Some? ==> forall i :: 0 <= i < |r.value.matches| ==> r.value.matches[i].second.Some?
  {
    match data
    case None => None
    case Some(d) =>
      var corrected := if ct.None? then Some(d.matches) else ApplyColorTerm(d.matches, ct.value);
      match corrected
      case None => None
      case Some(ms) =>
        var sources := SelectCatalogStars(d.sources);
        match ChooseMatches(ms)
        case None => None
        case Some(matches) =>
          assert forall i :: 0 <= i < |matches| ==> matches[i] in ms;
          Some(CcdSelection(sources, matches, d.wcs))
  }

  /** A CCD with a colour term and a reference flux of zero in the primary
      band is dropped: log10(0) raises and getAllForCcd returns None. */
  lemma ZeroReferenceFluxDropsCcd(data: CcdData, ct: ColorTerm, i: int)
    requires 0 <= i < |data.matches| && data.matches[i].first.Some?
    requires ct.bandFluxes(data.matches[i].first.value).0 == Num(0.0)
    ensures GetAllForCcd(Some(data), Some(ct)).None?
  {
    assert Raises(data.matches[i], ct);
  }
}
