/** The quarter-turn bookkeeping of updateExposure.py. meas_mosaic fits in
    a pixel frame that puts (0, 0) at the lower left on the sky; a CCD
    mounted with nQuarter quarter turns has its camera frame turned by that
    much. The WCS, the flux-correction image and the catalog positions are
    turned into the fit frame and back. The turning helpers themselves
    (rotateWcsPixelsBy90, rotateImageBy90, rotatePixelCoords) are outside
    the model: only the number of quarter turns and the dimensions each is
    given are. */
module QuarterTurns {
  import opened Common

  datatype Dims = Dims(width: int, height: int)

  function Swap(d: Dims): Dims {
    Dims(d.height, d.width)
  }

  /** The dimensions of an image after q quarter turns (Python `%`, which
      for a positive divisor agrees with Dafny's). */
  function RotateDims(d: Dims, q: int): Dims {
    if q % 2 != 0 then Swap(d) else d
  }

  /** Turning by p and then by q is turning by p + q. */
  lemma RotateDimsAdd(d: Dims, p: int, q: int)
    ensures RotateDims(RotateDims(d, p), q) == RotateDims(d, p + q)
  {
    assert (p + q) % 2 == (p % 2 + q % 2) % 2;
  }

  /** A pixel frame: the quarter turns from the camera frame and the image
      dimensions in it. */
  datatype Frame = Frame(turns: int, dims: Dims)

  /** One call of a turning helper: the quarter turns and the dimensions it
      is given. A forward turn is given the frame it turns from; the turn
      back of the catalog positions (rotatePixelCoordsBack) is given the
      camera frame it turns back to. */
  datatype TurnCall = TurnCall(quarters: int, dims: Dims)

  function Apply(f: Frame, c: Option<TurnCall>): Frame {
    match c
    case None => f
    case Some(t) => Frame(f.turns + t.quarters, RotateDims(f.dims, t.quarters))
  }

  /** Whether the results are turned at all: not for HSC-processed data and
      not for a CCD mounted a whole number of turns. */
  predicate Turned(nQuarter: int, hscRun: bool) {
    !hscRun && nQuarter % 4 != 0
  }

  /** getFluxFitParams: the WCS is turned into the fit frame by nQuarter,
      given the calexp's dimensions. */
  function FitWcsTurn(nQuarter: int, hscRun: bool, calexpDims: Dims): (c: Option<TurnCall>)
    ensures c.Some? <==> Turned(nQuarter, hscRun)
    ensures c.Some? ==> c.value == TurnCall(nQuarter, calexpDims)
  {
    if !hscRun && nQuarter % 4 != 0 then Some(TurnCall(nQuarter, calexpDims)) else None
  }

  /** applyMosaicResultsExposure: the dimensions in the fit frame, width and
      height swapped for a non-HSC CCD with an odd number of quarter turns. */
  function MosaicDims(calexpDims: Dims, nQuarter: int, hscRun: bool): (d: Dims)
    ensures !hscRun && nQuarter % 2 != 0 ==> d == Swap(calexpDims)
    ensures hscRun || nQuarter % 2 == 0 ==> d == calexpDims
  {
    if !hscRun && nQuarter % 2 != 0 then Dims(calexpDims.height, calexpDims.width) else calexpDims
  }

  /** applyMosaicResultsExposure: the WCS and the correction image are
      turned back by 4 - nQuarter, the WCS given the fit-frame dimensions. */
  function BackTurn(nQuarter: int, hscRun: bool, dims: Dims): (c: Option<TurnCall>)
    ensures c.Some? <==> Turned(nQuarter, hscRun)
    ensures c.Some? ==> c.value == TurnCall(4 - nQuarter, dims)
  {
    if nQuarter % 4 != 0 && !hscRun then Some(TurnCall(4 - nQuarter, dims)) else None
  }

  /** The frames of the products of applyMosaicResultsExposure: the fit WCS,
      the dimensions the correction image is computed with, the final WCS
      and the final correction image. */
  datatype ExposureFrames = ExposureFrames(fitWcs: Frame, fcorDims: Dims, back: Option<TurnCall>, wcs: Frame, fcor: Frame)

  function ApplyResultsExposure(calexpDims: Dims, nQuarter: int, hscRun: bool): (r: ExposureFrames)
    // each turn is given the dimensions of the frame it turns from
    ensures r.back.Some? ==> r.back.value.dims == r.fitWcs.dims
    // the correction image is computed in the frame of the fit WCS
    ensures r.fcorDims == r.fitWcs.dims
    // the WCS ends up in the camera frame: whole turns, calexp dimensions
    ensures r.wcs.turns % 4 == 0 && r.wcs.dims == calexpDims
    // the correction image has the exposure's dimensions when it is applied
    ensures r.fcor.dims == calexpDims
  {
    var fit := Apply(Frame(0, calexpDims), FitWcsTurn(nQuarter, hscRun, calexpDims));
    var dims := MosaicDims(calexpDims, nQuarter, hscRun);
    var back := BackTurn(nQuarter, hscRun, dims);
    FramesAgree(calexpDims, nQuarter, hscRun);
    ExposureFrames(fit, dims, back, Apply(fit, back), Apply(Frame(fit.turns, dims), back))
  }

  /** The dimension swap of applyMosaicResultsExposure and the turns of
      getFluxFitParams agree, and the turn back restores the calexp's
      dimensions. */
  lemma FramesAgree(calexpDims: Dims, nQuarter: int, hscRun: bool)
    ensures Apply(Frame(0, calexpDims), FitWcsTurn(nQuarter, hscRun, calexpDims)).dims
            == MosaicDims(calexpDims, nQuarter, hscRun)
    ensures Turned(nQuarter, hscRun) ==>
      RotateDims(MosaicDims(calexpDims, nQuarter, hscRun), 4 - nQuarter) == calexpDims
    ensures !Turned(nQuarter, hscRun) ==> MosaicDims(calexpDims, nQuarter, hscRun) == calexpDims
  {
    if Turned(nQuarter, hscRun) {
      assert RotateDims(calexpDims, nQuarter) == MosaicDims(calexpDims, nQuarter, hscRun);
      RotateDimsAdd(calexpDims, nQuarter, 4 - nQuarter);
      assert RotateDims(calexpDims, 4) == calexpDims;
    } else if !hscRun {
      ParityOfWholeTurns(nQuarter);
    }
  }

  /** A whole number of turns is an even number of quarter turns. */
  lemma ParityOfWholeTurns(n: int)
    requires n % 4 == 0
    ensures n % 2 == 0
  {
    var k := n / 4;
    assert n == 4 * k;
    assert n == 2 * (2 * k);
  }

  /** applyMosaicResultsCatalog: the catalog positions are turned into the
      fit frame by nQuarter with the calexp's dimensions
      (rotatePixelCoords), corrected, and turned back by nQuarter with the
      same dimensions (rotatePixelCoordsBack), under the same test. */
  function CatalogTurns(nQuarter: int, hscRun: bool, calexpDims: Dims): (Option<TurnCall>, Option<TurnCall>) {
    var fwd := FitWcsTurn(nQuarter, hscRun, calexpDims);
    (fwd, if fwd.Some? then Some(TurnCall(-nQuarter, calexpDims)) else None)
  }

  /** The frame of the catalog positions while the correction is evaluated
      and afterwards: the first is the frame of the fit WCS, the second the
      camera frame they started in. */
  function CatalogFrames(calexpDims: Dims, nQuarter: int, hscRun: bool): (r: (Frame, Frame))
    ensures r.0 == Apply(Frame(0, calexpDims), FitWcsTurn(nQuarter, hscRun, calexpDims))
    ensures r.0.dims == MosaicDims(calexpDims, nQuarter, hscRun)
    ensures r.1 == Frame(0, calexpDims)
  {
    var turns := CatalogTurns(nQuarter, hscRun, calexpDims);
    var during := Apply(Frame(0, calexpDims), turns.0);
    FramesAgree(calexpDims, nQuarter, hscRun);
    TurnBack(calexpDims, nQuarter);
    (during, Apply(during, turns.1))
  }

  /** Turning by q and then by -q restores the dimensions. */
  lemma TurnBack(d: Dims, q: int)
    ensures RotateDims(RotateDims(d, q), -q) == d
  {
    RotateDimsAdd(d, q, -q);
  }
}
