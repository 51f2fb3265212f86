/** The detector-geometry shim of src/shimCameraGeom.cc: the yaw left after
    removing a detector's quarter turns, detector and focal-plane centres in
    pixels, and the two rotate-and-translate formulas. Angles are in degrees.
    There is no trigonometry: cos and sin of an angle come from a `trig`
    oracle, and the lemmas that need it assume cos^2 + sin^2 = 1. */
module CameraGeom {
  import opened Common

  /** cos and sin of one angle. */
  datatype Rotation = Rotation(cos: real, sin: real)

  predicate IsUnit(r: Rotation) {
    r.cos * r.cos + r.sin * r.sin == 1.0
  }

  /** cos 0 = 1, sin 0 = 0. */
  const Identity: Rotation := Rotation(1.0, 0.0)

  /** R(theta) p */
  function Rotate(r: Rotation, p: Point): Point {
    Point(r.cos * p.x - r.sin * p.y, r.sin * p.x + r.cos * p.y)
  }

  /** R(-theta) p, with cos(-theta) = cos theta and sin(-theta) = -sin theta. */
  function RotateBack(r: Rotation, p: Point): Point {
    Point(r.cos * p.x + r.sin * p.y, -r.sin * p.x + r.cos * p.y)
  }

  function NormSq(p: Point): real {
    p.x * p.x + p.y * p.y
  }

  /** What the shim reads from a cameraGeom Detector. */
  datatype Detector = Detector(
    serial: int,
    yaw: real,             // orientation yaw, degrees
    nQuarter: int,         // orientation quarter turns
    centerFp: Point,       // centre on the focal plane, mm
    pixelSize: Point,      // mm per pixel in x and y
    centerPixels: Point)   // centre in the detector's own pixel frame

  predicate HasPixelSize(det: Detector) {
    det.pixelSize.x != 0.0 && det.pixelSize.y != 0.0
  }

  /** InvalidParameterError of getYaw, with the values its message reports. */
  datatype GeomError = YawMismatch(serial: int, yaw: real, nQuarter: int, residual: real)

  /** C++ `a % b` on int for a positive divisor: truncating division, so the
      remainder takes the sign of the dividend (Dafny's `%` is Euclidean). */
  function CRem(a: int, b: int): (r: int)
    requires b > 0
    ensures r == 0 <==> a % b == 0
    ensures -b < r < b
    // the remainder of truncating division: a minus a multiple of b, with
    // the sign of a (these pin it down)
    ensures (a - r) % b == 0
    ensures a >= 0 ==> r >= 0
    ensures a < 0 ==> r <= 0
    ensures a >= 0 ==> r == a % b
  {
    if a >= 0 then
      MultipleRemainder(a - a % b, b, a / b);
      a % b
    else
      NegatedRemainder(a, b);
      MultipleRemainder(a + (-a) % b, b, -((-a) / b));
      -((-a) % b)
  }

  /** Truncating division is symmetric: negating the dividend negates the
      remainder. */
  lemma CRemOdd(a: int, b: int)
    requires b > 0
    ensures CRem(-a, b) == -CRem(a, b)
  {
    var r, s := CRem(a, b), CRem(-a, b);
    if a == 0 {
      MultipleRemainder(0, b, 0);
    } else {
      // both -s and r are a minus a multiple of b with the sign of a
      var t := -a - s;
      assert t % b == 0;
      MultipleRemainderNeg(t, b);
      assert -t == a - (-s);
      SameResidue(a, r, -s, b);
    }
  }

  /** A multiple of b negated is a multiple of b. */
  lemma MultipleRemainderNeg(a: int, b: int)
    requires b > 0 && a % b == 0
    ensures (-a) % b == 0
  {
    MultipleRemainder(-a, b, -(a / b));
  }

  /** Two values with the sign of a that differ from a by multiples of b and
      lie strictly between -b and b are equal: the C++ remainder is unique. */
  lemma SameResidue(a: int, r: int, s: int, b: int)
    requires b > 0
    requires (a - r) % b == 0 && (a - s) % b == 0
    requires -b < r < b && -b < s < b
    requires a >= 0 ==> r >= 0 && s >= 0
    requires a < 0 ==> r <= 0 && s <= 0
    ensures r == s
  {
    var p, q := (a - r) / b, (a - s) / b;
    assert a - r == b * p && a - s == b * q;
    var k := p - q;
    assert s - r == b * p - b * q;
    assert b * p - b * q == b * k;
    MultipleAtLeast(b, k);
    MultipleAtLeast(b, -k);
    assert b * (-k) == -(b * k);
  }

  /** A positive multiple of b is at least b. */
  lemma {:induction false} MultipleAtLeast(b: int, k: int)
    requires b > 0
    ensures k >= 1 ==> b * k >= b
    decreases if k < 0 then 0 else k
  {
    if k > 1 {
      MultipleAtLeast(b, k - 1);
      assert b * k == b * (k - 1) + b;
    }
  }

  lemma NegatedRemainder(a: int, b: int)
    requires b > 0
    ensures (-a) % b == 0 <==> a % b == 0
  {
    if a % b == 0 {
      MultipleRemainder(-a, b, -(a / b));
    }
    if (-a) % b == 0 {
      MultipleRemainder(a, b, -((-a) / b));
    }
  }

  lemma MultipleRemainder(a: int, b: int, q: int)
    requires b > 0
    requires a == b * q
    ensures a % b == 0
  {
    var r, d := a % b, a / b;
    assert a == b * d + r;
    assert r == b * (q - d);
    if q - d >= 1 {
      assert false;
    } else if q - d <= -1 {
      assert false;
    }
  }

  /** The yaw after subtracting the quarter turns, before the range check. */
  function ResidualYaw(det: Detector): real {
    if CRem(det.nQuarter, 4) != 0 then det.yaw - det.nQuarter as real * 90.0
    else det.yaw
  }

  /** getYaw: yaw minus 90 degrees per quarter turn (nothing is subtracted
      when the quarter turns are a multiple of four), and an error when what
      is left is not strictly within 90 degrees. */
  function GetYaw(det: Detector): (r: Result<real, GeomError>)
    ensures r.Success? ==> -90.0 < r.value < 90.0
    ensures r.Success? && det.nQuarter % 4 == 0 ==> r.value == det.yaw
    ensures r.Success? && det.nQuarter % 4 != 0 ==> r.value + 90.0 * det.nQuarter as real == det.yaw
    ensures r.Failure? <==>
      (if det.nQuarter % 4 == 0 then Abs(det.yaw) >= 90.0 else Abs(det.yaw - 90.0 * det.nQuarter as real) >= 90.0)
    ensures r.Failure? ==> r.error == YawMismatch(det.serial, det.yaw, det.nQuarter, Abs(ResidualYaw(det)))
  {
    var deg := ResidualYaw(det);
    if Abs(deg) >= 90.0 then Failure(YawMismatch(det.serial, det.yaw, det.nQuarter, Abs(deg)))
    else Success(deg)
  }

  /** A detector turned by nQuarter quarter turns whose yaw is within 90
      degrees of that turn gets back exactly the small residual. */
  lemma GetYawOfQuarterTurns(det: Detector, residual: real)
    requires 0 < det.nQuarter < 4
    requires -90.0 < residual < 90.0
    requires det.yaw == 90.0 * det.nQuarter as real + residual
    ensures GetYaw(det) == Success(residual)
  {
  }

  /** A yaw of a right angle or more that the quarter turns do not account
      for is refused. */
  lemma GetYawRejectsUnaccountedTurn(det: Detector)
    requires det.nQuarter == 0
    requires det.yaw >= 90.0 || det.yaw <= -90.0
    ensures GetYaw(det).Failure?
  {
  }

  /** getCenterInDetectorPixels: x and y are swapped for an odd number of
      quarter turns (negative ones included, as C++ `%` keeps the sign). */
  function CenterInDetectorPixels(det: Detector): (c: Point)
    ensures det.nQuarter % 2 == 1 ==> c == Point(det.centerPixels.y, det.centerPixels.x)
    ensures det.nQuarter % 2 == 0 ==> c == det.centerPixels
  {
    var center := det.centerPixels;
    if CRem(det.nQuarter, 2) != 0 then Point(center.y, center.x) else center
  }

  /** A diagonal linear transform. */
  datatype Scaling = Scaling(sx: real, sy: real)

  function ApplyScaling(s: Scaling, p: Point): Point {
    Point(s.sx * p.x, s.sy * p.y)
  }

  /** makeScalingMmToPx: millimetres to pixels, dividing by the pixel size. */
  function ScalingMmToPx(pSize: Point): (s: Scaling)
    requires pSize.x != 0.0 && pSize.y != 0.0
    ensures forall p: Point :: ApplyScaling(s, p).x * pSize.x == p.x && ApplyScaling(s, p).y * pSize.y == p.y
  {
    Scaling(1.0 / pSize.x, 1.0 / pSize.y)
  }

  /** getCenterInFpPixels: the focal-plane centre in pixels; multiplying back
      by the pixel size gives the centre in millimetres. */
  function CenterInFpPixels(det: Detector): (c: Point)
    requires HasPixelSize(det)
    ensures c.x * det.pixelSize.x == det.centerFp.x
    ensures c.y * det.pixelSize.y == det.centerFp.y
  {
    ApplyScaling(ScalingMmToPx(det.pixelSize), det.centerFp)
  }

  /** The offset from the detector-pixel centre to the focal-plane-pixel
      centre, shared by both formulas below. */
  function CenterOffset(det: Detector): Point
    requires HasPixelSize(det)
  {
    Sub(CenterInFpPixels(det), CenterInDetectorPixels(det))
  }

  /** detPxToFpPxRot: rotate a detector pixel position by the yaw, then move
      the detector centre onto the focal-plane centre. Fails as getYaw does. */
  function DetPxToFpPxRot(det: Detector, detPt: Point, trig: real -> Rotation): (r: Result<Point, GeomError>)
    requires HasPixelSize(det)
    ensures r.Failure? <==> GetYaw(det).Failure?
    ensures r.Failure? ==> r.error == GetYaw(det).error
    ensures r.Success? ==> Sub(r.value, CenterOffset(det)) == Rotate(trig(GetYaw(det).value), detPt)
  {
    match GetYaw(det)
    case Failure(e) => Failure(e)
    case Success(yaw) =>
      var rot := trig(yaw);
      var centerDet := CenterInDetectorPixels(det);
      var centerFp := CenterInFpPixels(det);
      var offset := Sub(Rotate(rot, detPt), centerDet);
      Success(Add(centerFp, offset))
  }

  /** computeX0Y0: the lower-left corner (x0, y0) moved by the centre offset
      and rotated back by the yaw. Fails as getYaw does. */
  function ComputeX0Y0(det: Detector, x0: real, y0: real, trig: real -> Rotation): (r: Result<Point, GeomError>)
    requires HasPixelSize(det)
    ensures r.Failure? <==> GetYaw(det).Failure?
    ensures r.Failure? ==> r.error == GetYaw(det).error
    ensures r.Success? ==>
      var rot := trig(GetYaw(det).value);
      IsUnit(rot) ==> Rotate(rot, r.value) == Add(CenterOffset(det), Point(x0, y0))
  {
    match GetYaw(det)
    case Failure(e) => Failure(e)
    case Success(yaw) =>
      var rot := trig(yaw);
      var off := CenterOffset(det);
      assert IsUnit(rot) ==> Rotate(rot, RotateBack(rot, Add(off, Point(x0, y0)))) == Add(off, Point(x0, y0)) by {
        if IsUnit(rot) {
          RotateUndoesRotateBack(rot, Add(off, Point(x0, y0)));
        }
      }
      Success(Point((off.x + x0) * rot.cos + (off.y + y0) * rot.sin,
                    -(off.x + x0) * rot.sin + (off.y + y0) * rot.cos))
  }

  lemma RotateUndoesRotateBack(r: Rotation, p: Point)
    requires IsUnit(r)
    ensures Rotate(r, RotateBack(r, p)) == p
  {
    var c, s := r.cos, r.sin;
    calc {
      c * (c * p.x + s * p.y) - s * (-s * p.x + c * p.y);
      (c * c + s * s) * p.x;
      p.x;
    }
    calc {
      s * (c * p.x + s * p.y) + c * (-s * p.x + c * p.y);
      (c * c + s * s) * p.y;
      p.y;
    }
  }

  lemma RotateBackUndoesRotate(r: Rotation, p: Point)
    requires IsUnit(r)
    ensures RotateBack(r, Rotate(r, p)) == p
  {
    var c, s := r.cos, r.sin;
    calc {
      c * (c * p.x - s * p.y) + s * (s * p.x + c * p.y);
      (c * c + s * s) * p.x;
      p.x;
    }
    calc {
      -s * (c * p.x - s * p.y) + c * (s * p.x + c * p.y);
      (c * c + s * s) * p.y;
      p.y;
    }
  }

  lemma RotatePreservesNorm(r: Rotation, p: Point)
    requires IsUnit(r)
    ensures NormSq(Rotate(r, p)) == NormSq(p)
    ensures NormSq(RotateBack(r, p)) == NormSq(p)
  {
    var c, s := r.cos, r.sin;
    calc {
      NormSq(Rotate(r, p));
      (c * p.x - s * p.y) * (c * p.x - s * p.y) + (s * p.x + c * p.y) * (s * p.x + c * p.y);
      (c * c + s * s) * (p.x * p.x + p.y * p.y);
      NormSq(p);
    }
    calc {
      NormSq(RotateBack(r, p));
      (c * p.x + s * p.y) * (c * p.x + s * p.y) + (-s * p.x + c * p.y) * (-s * p.x + c * p.y);
      (c * c + s * s) * (p.x * p.x + p.y * p.y);
      NormSq(p);
    }
  }

  /** With zero yaw the detector-to-focal-plane map is the pure translation
      by the centre offset. */
  lemma DetPxToFpPxRotZeroYaw(det: Detector, detPt: Point, trig: real -> Rotation)
    requires HasPixelSize(det)
    requires GetYaw(det) == Success(0.0)
    requires trig(0.0) == Identity
    ensures DetPxToFpPxRot(det, detPt, trig) == Success(Add(detPt, CenterOffset(det)))
  {
  }

  /** The detector-to-focal-plane map is a rigid motion: it keeps the
      distance between any two detector positions. */
  lemma DetPxToFpPxRotIsRigid(det: Detector, p: Point, q: Point, trig: real -> Rotation)
    requires HasPixelSize(det)
    requires GetYaw(det).Success?
    requires IsUnit(trig(GetYaw(det).value))
    ensures NormSq(Sub(DetPxToFpPxRot(det, p, trig).value, DetPxToFpPxRot(det, q, trig).value)) == NormSq(Sub(p, q))
  {
    var rot := trig(GetYaw(det).value);
    var fp := DetPxToFpPxRot(det, p, trig).value;
    var fq := DetPxToFpPxRot(det, q, trig).value;
    assert Sub(fp, fq) == Rotate(rot, Sub(p, q));
    RotatePreservesNorm(rot, Sub(p, q));
  }

  /** Rotating back the focal-plane position minus the offset recovers the
      detector position: the map is invertible. */
  lemma DetPxToFpPxRotInverse(det: Detector, detPt: Point, trig: real -> Rotation)
    requires HasPixelSize(det)
    requires GetYaw(det).Success?
    requires IsUnit(trig(GetYaw(det).value))
    ensures RotateBack(trig(GetYaw(det).value), Sub(DetPxToFpPxRot(det, detPt, trig).value, CenterOffset(det))) == detPt
  {
    RotateBackUndoesRotate(trig(GetYaw(det).value), detPt);
  }

  /** computeX0Y0 keeps the length of offset + (x0, y0), and with zero yaw it
      is offset + (x0, y0) itself. */
  lemma ComputeX0Y0Length(det: Detector, x0: real, y0: real, trig: real -> Rotation)
    requires HasPixelSize(det)
    requires GetYaw(det).Success?
    requires IsUnit(trig(GetYaw(det).value))
    ensures NormSq(ComputeX0Y0(det, x0, y0, trig).value) == NormSq(Add(CenterOffset(det), Point(x0, y0)))
  {
    var rot := trig(GetYaw(det).value);
    assert ComputeX0Y0(det, x0, y0, trig).value == RotateBack(rot, Add(CenterOffset(det), Point(x0, y0)));
    RotatePreservesNorm(rot, Add(CenterOffset(det), Point(x0, y0)));
  }

  lemma ComputeX0Y0ZeroYaw(det: Detector, x0: real, y0: real, trig: real -> Rotation)
    requires HasPixelSize(det)
    requires GetYaw(det) == Success(0.0)
    requires trig(0.0) == Identity
    ensures ComputeX0Y0(det, x0, y0, trig) == Success(Add(CenterOffset(det), Point(x0, y0)))
  {
  }
}
