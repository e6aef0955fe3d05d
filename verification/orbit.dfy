/** The WanVideoReCamMasterGenerateOrbitCameraEx node: a trajectory of 4x4
    camera poses that orbit, rise and zoom around a fixed centre, one pose per
    latent frame. The trigonometric values are opaque: a Trig record supplies
    them for an angle given in degrees. */
module OrbitCamera {
  import opened Common

  datatype Vec3 = Vec3(x: real, y: real, z: real)

  /** A matrix as its rows. */
  type Matrix = seq<seq<real>>

  predicate IsMatrix(m: Matrix, rows: nat, cols: nat)
  {
    |m| == rows && forall i :: 0 <= i < rows ==> |m[i]| == cols
  }

  /** np.cos(np.radians(d)), np.sin(np.radians(d)) and np.tan(np.radians(d))
      for an angle d in degrees, taken as given. */
  datatype Trig = Trig(cos: real -> real, sin: real -> real, tan: real -> real)

  /** Calibration constants: the centre of the orbit and the initial camera. */
  const Center: Vec3 := Vec3(3685.0, 1380.0, 240.0)
  const Camera: Vec3 := Vec3(3390.0, 1380.0, 240.0)

  /** abs(camera[0] - center[0]): the orbit radius. */
  const SubjDist: real := Abs(Camera.x - Center.x)

  /** Video frames for t latent frames: (t - 1) * 4 + 1. */
  function NumFrames(t: nat): (n: int)
    ensures t >= 2 <==> n >= 2
    ensures t == 1 <==> n == 1
    ensures t >= 1 ==> (n + 3) / 4 == t && n - 1 == 4 * (t - 1)
  {
    (t - 1) * 4 + 1
  }

  /** i * x / (num_frames - 1): a linear ramp from 0 at the first frame to x
      at the last. */
  function Ramp(i: nat, x: real, numFrames: int): (r: real)
    requires numFrames >= 2
    ensures i == 0 ==> r == 0.0
    ensures i == numFrames - 1 ==> r == x
    ensures x == 0.0 ==> r == 0.0
  {
    Share(i as real, x, (numFrames - 1) as real)
  }

  function Share(i: real, x: real, d: real): real
    requires d > 0.0
  {
    i * x / d
  }

  /** The shares i / d and j / d of the way done at two frames. */
  lemma FractionBounds(i: real, j: real, d: real)
    requires 0.0 <= i <= j <= d
    requires 0.0 < d
    ensures 0.0 <= i / d <= j / d <= 1.0
  {
    QuotientSign(i, d);
    QuotientSign(j - i, d);
    assert j / d - i / d == (j - i) / d;
    QuotientCompare(j, 1.0, d);
  }

  lemma ShareTimes(i: real, x: real, d: real)
    requires d > 0.0
    ensures Share(i, x, d) == (i / d) * x
  {
    var p := i / d;
    assert p * d == i;
    var l := i * x / d;
    assert l * d == i * x;
    assert (p * x) * d == (p * d) * x;
  }

  lemma ScaleBetween(p: real, q: real, x: real)
    requires 0.0 <= p <= q <= 1.0
    ensures x >= 0.0 ==> 0.0 <= p * x <= q * x <= x
    ensures x <= 0.0 ==> x <= q * x <= p * x <= 0.0
  {
    var y := if x >= 0.0 then x else -x;
    if y > 0.0 {
      if p > 0.0 { MulPositive(p, y); }
      if q > p { MulPositive(q - p, y); assert q * y - p * y == (q - p) * y; }
      if 1.0 > q { MulPositive(1.0 - q, y); assert y - q * y == (1.0 - q) * y; }
    }
  }

  /** i * x / d for 0 <= i <= j <= d lies between 0 and x, in order. */
  lemma ShareBetween(i: real, j: real, d: real, x: real)
    requires 0.0 <= i <= j <= d
    requires 0.0 < d
    ensures x >= 0.0 ==> 0.0 <= Share(i, x, d) <= Share(j, x, d) <= x
    ensures x <= 0.0 ==> x <= Share(j, x, d) <= Share(i, x, d) <= 0.0
  {
    var p, q := i / d, j / d;
    FractionBounds(i, j, d);
    ShareTimes(i, x, d);
    ShareTimes(j, x, d);
    ScaleBetween(p, q, x);
    assert Share(i, x, d) == p * x && Share(j, x, d) == q * x;
  }

  /** Along the frames the ramp moves monotonically toward x and stays
      between 0 and x. */
  lemma RampMonotone(i: nat, j: nat, x: real, numFrames: int)
    requires numFrames >= 2 && i <= j <= numFrames - 1
    ensures x >= 0.0 ==> 0.0 <= Ramp(i, x, numFrames) <= Ramp(j, x, numFrames) <= x
    ensures x <= 0.0 ==> x <= Ramp(j, x, numFrames) <= Ramp(i, x, numFrames) <= 0.0
  {
    ShareBetween(i as real, j as real, (numFrames - 1) as real, x);
  }

  /** Camera position after the horizontal orbit and the vertical shift, before
      zoom: x and y on a circle around the centre, z raised by the tangent. */
  function OrbitPosition(hCos: real, hSin: real, vTan: real): (p: Vec3)
    ensures Center.x - p.x == SubjDist * Abs(hCos)
    ensures p.y - Center.y == SubjDist * hSin
    ensures p.z - Camera.z == SubjDist * vTan
    ensures Abs(hCos) == 1.0 && hSin == 0.0 && vTan == 0.0 ==> p == Camera
  {
    Vec3(Camera.x + SubjDist * (1.0 - Abs(hCos)),
         Camera.y + SubjDist * hSin,
         Camera.z + SubjDist * vTan)
  }

  /** With cos^2 + sin^2 = 1 the horizontal position stays on the circle of
      radius SubjDist around the centre. */
  lemma OrbitOnCircle(hCos: real, hSin: real, vTan: real)
    requires hCos * hCos + hSin * hSin == 1.0
    ensures var p := OrbitPosition(hCos, hSin, vTan);
            (p.x - Center.x) * (p.x - Center.x) + (p.y - Center.y) * (p.y - Center.y)
              == SubjDist * SubjDist
  {
    var p := OrbitPosition(hCos, hSin, vTan);
    var c := Abs(hCos);
    assert c * c == hCos * hCos;
    assert p.x - Center.x == -(SubjDist * c);
    assert p.y - Center.y == SubjDist * hSin;
    assert SubjDist * c * (SubjDist * c) == SubjDist * SubjDist * (c * c);
    assert SubjDist * hSin * (SubjDist * hSin) == SubjDist * SubjDist * (hSin * hSin);
  }

  /** p + (c - p) * f in every coordinate. */
  function ZoomToward(p: Vec3, c: Vec3, f: real): (r: Vec3)
    ensures f == 0.0 ==> r == p
    ensures f == 1.0 ==> r == c
  {
    Vec3(p.x + (c.x - p.x) * f, p.y + (c.y - p.y) * f, p.z + (c.z - p.z) * f)
  }

  /** Zooming by f scales the offset to the centre by 1 - f: toward the centre
      for 0 < f < 1, away from it for f < 0. */
  lemma ZoomScalesOffset(p: Vec3, c: Vec3, f: real)
    ensures var r := ZoomToward(p, c, f);
            c.x - r.x == (1.0 - f) * (c.x - p.x) &&
            c.y - r.y == (1.0 - f) * (c.y - p.y) &&
            c.z - r.z == (1.0 - f) * (c.z - p.z)
  {
  }

  /** rot1: the horizontal rotation about the vertical axis. */
  function RotH(c: real, s: real): (m: Matrix)
    ensures IsMatrix(m, 3, 3)
  {
    [[c, s, 0.0], [-s, c, 0.0], [0.0, 0.0, 1.0]]
  }

  /** rot2: the vertical rotation. */
  function RotV(c: real, s: real): (m: Matrix)
    ensures IsMatrix(m, 3, 3)
  {
    [[c, 0.0, -s], [0.0, 1.0, 0.0], [s, 0.0, c]]
  }

  const Identity3: Matrix := [[1.0, 0.0, 0.0], [0.0, 1.0, 0.0], [0.0, 0.0, 1.0]]

  /** np.matmul of two 3x3 matrices. */
  function Mul3(a: Matrix, b: Matrix): (m: Matrix)
    requires IsMatrix(a, 3, 3) && IsMatrix(b, 3, 3)
    ensures IsMatrix(m, 3, 3)
  {
    seq(3, i requires 0 <= i < 3 =>
      seq(3, j requires 0 <= j < 3 => a[i][0] * b[0][j] + a[i][1] * b[1][j] + a[i][2] * b[2][j]))
  }

  function Transpose3(a: Matrix): (m: Matrix)
    requires IsMatrix(a, 3, 3)
    ensures IsMatrix(m, 3, 3)
  {
    seq(3, i requires 0 <= i < 3 => seq(3, j requires 0 <= j < 3 => a[j][i]))
  }

  /** At angle zero both rotations are the identity, and so is rot2 * rot1. */
  lemma RotationAtZero()
    ensures Mul3(RotV(1.0, 0.0), RotH(1.0, 0.0)) == Identity3
  {
    var m := Mul3(RotV(1.0, 0.0), RotH(1.0, 0.0));
    assert m[0] == Identity3[0];
    assert m[1] == Identity3[1];
    assert m[2] == Identity3[2];
  }

  /** rot2 * rot1 written out entry by entry. */
  lemma RotationEntries(hc: real, hs: real, vc: real, vs: real)
    ensures Mul3(RotV(vc, vs), RotH(hc, hs)) ==
            [[vc * hc, vc * hs, -vs], [-hs, hc, 0.0], [vs * hc, vs * hs, vc]]
  {
    var m := Mul3(RotV(vc, vs), RotH(hc, hs));
    assert m[0][0] == vc * hc && m[0][1] == vc * hs && m[0][2] == -vs;
    assert m[0] == [vc * hc, vc * hs, -vs];
    assert m[1][0] == -hs && m[1][1] == hc && m[1][2] == 0.0;
    assert m[1] == [-hs, hc, 0.0];
    assert m[2][0] == vs * hc && m[2][1] == vs * hs && m[2][2] == vc;
    assert m[2] == [vs * hc, vs * hs, vc];
  }

  /** Entry (i, j) of r * transpose(r) is the dot product of rows i and j. */
  lemma GramEntries(r: Matrix)
    requires IsMatrix(r, 3, 3)
    ensures forall i, j :: 0 <= i < 3 && 0 <= j < 3 ==>
              Mul3(r, Transpose3(r))[i][j] == r[i][0] * r[j][0] + r[i][1] * r[j][1] + r[i][2] * r[j][2]
  {
  }

  /** The rows of rot2 * rot1, as RotationEntries writes them, are
      orthonormal when both pairs lie on the unit circle. */
  lemma RowsOrthonormal(hc: real, hs: real, vc: real, vs: real)
    requires hc * hc + hs * hs == 1.0 && vc * vc + vs * vs == 1.0
    ensures vc * hc * (vc * hc) + vc * hs * (vc * hs) + -vs * -vs == 1.0
    ensures vc * hc * -hs + vc * hs * hc + -vs * 0.0 == 0.0
    ensures vc * hc * (vs * hc) + vc * hs * (vs * hs) + -vs * vc == 0.0
    ensures -hs * -hs + hc * hc + 0.0 * 0.0 == 1.0
    ensures -hs * (vs * hc) + hc * (vs * hs) + 0.0 * vc == 0.0
    ensures vs * hc * (vs * hc) + vs * hs * (vs * hs) + vc * vc == 1.0
  {
    var cc, ss, cs := vc * vc, vs * vs, vc * vs;
    assert vc * hc * (vc * hc) + vc * hs * (vc * hs) == cc * (hc * hc + hs * hs);
    assert vs * hc * (vs * hc) + vs * hs * (vs * hs) == ss * (hc * hc + hs * hs);
    assert vc * hc * (vs * hc) + vc * hs * (vs * hs) == cs * (hc * hc + hs * hs);
  }

  /** When each cosine/sine pair lies on the unit circle, rot2 * rot1 is
      orthogonal: its rows are orthonormal. */
  lemma RotationOrthogonal(hc: real, hs: real, vc: real, vs: real)
    requires hc * hc + hs * hs == 1.0 && vc * vc + vs * vs == 1.0
    ensures var r := Mul3(RotV(vc, vs), RotH(hc, hs));
            Mul3(r, Transpose3(r)) == Identity3
  {
    RotationEntries(hc, hs, vc, vs);
    RowsOrthonormal(hc, hs, vc, vs);
    var r := Mul3(RotV(vc, vs), RotH(hc, hs));
    GramEntries(r);
    var p := Mul3(r, Transpose3(r));
    assert p[0][0] == 1.0 && p[0][1] == 0.0 && p[0][2] == 0.0;
    assert p[0] == Identity3[0];
    assert p[1][0] == 0.0 && p[1][1] == 1.0 && p[1][2] == 0.0;
    assert p[1] == Identity3[1];
    assert p[2][0] == 0.0 && p[2][1] == 0.0 && p[2][2] == 1.0;
    assert p[2] == Identity3[2];
  }

  /** The 4x4 matrix with identity rotation and translation p. */
  function Translation(p: Vec3): (m: Matrix)
    ensures IsMatrix(m, 4, 4)
  {
    [[1.0, 0.0, 0.0, p.x], [0.0, 1.0, 0.0, p.y], [0.0, 0.0, 1.0, p.z], [0.0, 0.0, 0.0, 1.0]]
  }

  /** transform[0:3, 0:3] = rot: the top-left block is replaced, the
      translation column and the bottom row are kept. */
  function SetBlock(t: Matrix, rot: Matrix): (m: Matrix)
    requires IsMatrix(t, 4, 4) && IsMatrix(rot, 3, 3)
    ensures IsMatrix(m, 4, 4)
    ensures forall i, j :: 0 <= i < 3 && 0 <= j < 3 ==> m[i][j] == rot[i][j]
    ensures forall i :: 0 <= i < 4 ==> m[i][3] == t[i][3]
    ensures m[3] == t[3]
  {
    seq(4, i requires 0 <= i < 4 =>
      seq(4, j requires 0 <= j < 4 => if i < 3 && j < 3 then rot[i][j] else t[i][j]))
  }

  /** The pose for ramped angles angleH, angleV (degrees) and zoom factor zf. */
  function PoseAt(angleH: real, angleV: real, zf: real, trig: Trig): (m: Matrix)
    ensures IsMatrix(m, 4, 4) && m[3] == [0.0, 0.0, 0.0, 1.0]
  {
    var hCos, hSin := trig.cos(angleH), trig.sin(angleH);
    var vCos, vSin, vTan := trig.cos(-angleV), trig.sin(-angleV), trig.tan(angleV);
    var position := ZoomToward(OrbitPosition(hCos, hSin, vTan), Center, zf);
    SetBlock(Translation(position), Mul3(RotV(vCos, vSin), RotH(hCos, hSin)))
  }

  /** The pose of frame i of numFrames. */
  function FramePose(i: nat, numFrames: int, degreesH: int, degreesV: int, zoom: real, trig: Trig): (m: Matrix)
    requires numFrames >= 2
    ensures IsMatrix(m, 4, 4)
    ensures i == 0 ==> m == PoseAt(0.0, 0.0, 0.0, trig)
    ensures i == numFrames - 1 ==> m == PoseAt(degreesH as real, degreesV as real, zoom, trig)
  {
    PoseAt(Ramp(i, degreesH as real, numFrames), Ramp(i, degreesV as real, numFrames),
           Ramp(i, zoom, numFrames), trig)
  }

  /** A pose is a 4x4 homogeneous matrix: rotation block, translation column
      and bottom row [0, 0, 0, 1]. PoseRigid says when the block is a rotation. */
  lemma PoseLayout(angleH: real, angleV: real, zf: real, trig: Trig)
    ensures var m, hCos, hSin, vTan := PoseAt(angleH, angleV, zf, trig),
                trig.cos(angleH), trig.sin(angleH), trig.tan(angleV);
            var p := ZoomToward(OrbitPosition(hCos, hSin, vTan), Center, zf);
            var rot := Mul3(RotV(trig.cos(-angleV), trig.sin(-angleV)), RotH(hCos, hSin));
            IsMatrix(m, 4, 4) && m[3] == [0.0, 0.0, 0.0, 1.0] &&
            m[0][3] == p.x && m[1][3] == p.y && m[2][3] == p.z &&
            forall i, j :: 0 <= i < 3 && 0 <= j < 3 ==> m[i][j] == rot[i][j]
  {
  }

  /** The top-left 3x3 block of a 4x4 matrix. */
  function Block(m: Matrix): (b: Matrix)
    requires IsMatrix(m, 4, 4)
    ensures IsMatrix(b, 3, 3)
    ensures forall i, j :: 0 <= i < 3 && 0 <= j < 3 ==> b[i][j] == m[i][j]
  {
    seq(3, i requires 0 <= i < 3 => m[i][..3])
  }

  /** When both cosine/sine pairs the pose uses lie on the unit circle, its
      rotation block is orthogonal, so the pose is a rigid transform. */
  lemma PoseRigid(angleH: real, angleV: real, zf: real, trig: Trig)
    requires trig.cos(angleH) * trig.cos(angleH) + trig.sin(angleH) * trig.sin(angleH) == 1.0
    requires trig.cos(-angleV) * trig.cos(-angleV) + trig.sin(-angleV) * trig.sin(-angleV) == 1.0
    ensures var b := Block(PoseAt(angleH, angleV, zf, trig));
            Mul3(b, Transpose3(b)) == Identity3
  {
    var hc, hs, vc, vs := trig.cos(angleH), trig.sin(angleH), trig.cos(-angleV), trig.sin(-angleV);
    PoseLayout(angleH, angleV, zf, trig);
    RotationOrthogonal(hc, hs, vc, vs);
    var rot := Mul3(RotV(vc, vs), RotH(hc, hs));
    var b := Block(PoseAt(angleH, angleV, zf, trig));
    assert b[0] == rot[0] && b[1] == rot[1] && b[2] == rot[2];
    assert b == rot;
  }

  /** The pose of the camera before it moves: identity rotation at Camera. */
  const InitialPose: Matrix := SetBlock(Translation(Camera), Identity3)

  /** The trigonometric values at angle zero. */
  predicate ExactAtZero(trig: Trig)
  {
    trig.cos(0.0) == 1.0 && trig.sin(0.0) == 0.0 && trig.tan(0.0) == 0.0
  }

  /** With zero angles and no zoom the camera stands at its initial pose. */
  lemma PoseAtRest(trig: Trig)
    requires ExactAtZero(trig)
    ensures PoseAt(0.0, 0.0, 0.0, trig) == InitialPose
  {
    RotationAtZero();
    assert -0.0 == 0.0;
    assert OrbitPosition(1.0, 0.0, 0.0) == Camera;
  }

  /** The first frame is the initial pose, whatever the requested motion. */
  lemma FirstFrameIsInitialPose(numFrames: int, degreesH: int, degreesV: int, zoom: real, trig: Trig)
    requires numFrames >= 2 && ExactAtZero(trig)
    ensures FramePose(0, numFrames, degreesH, degreesV, zoom, trig) == InitialPose
  {
    PoseAtRest(trig);
  }

  /** With no orbit and no zoom every frame is the initial pose. */
  lemma NoMotionIsStill(i: nat, numFrames: int, trig: Trig)
    requires numFrames >= 2 && ExactAtZero(trig)
    ensures FramePose(i, numFrames, 0, 0, 0.0, trig) == InitialPose
  {
    PoseAtRest(trig);
  }

  /** With zoom factor 1 the camera sits at the centre, whatever the angles. */
  lemma FullZoomAtCenter(angleH: real, angleV: real, trig: Trig)
    ensures var m := PoseAt(angleH, angleV, 1.0, trig);
            m[0][3] == Center.x && m[1][3] == Center.y && m[2][3] == Center.z
  {
    PoseLayout(angleH, angleV, 1.0, trig);
  }

  /** generate_orbit: one pose per frame, appended in frame order. Dividing
      by num_frames - 1 fails when there is exactly one frame; with no frames
      the loop does not run. */
  method GenerateOrbit(numFrames: int, degreesH: int, degreesV: int, zoom: real, trig: Trig)
    returns (r: Result<seq<Matrix>>)
    ensures numFrames <= 0 ==> r == Ok([])
    ensures numFrames == 1 ==> r == Err(DivisionByZero)
    ensures numFrames >= 2 ==>
              r.Ok? && |r.value| == numFrames &&
              forall i :: 0 <= i < numFrames ==>
                r.value[i] == FramePose(i, numFrames, degreesH, degreesV, zoom, trig)
  {
    var cameraData: seq<Matrix> := [];
    var i := 0;
    while i < numFrames
      invariant 0 <= i && (i <= numFrames || i == 0)
      invariant numFrames == 1 ==> i == 0
      invariant |cameraData| == i
      invariant forall k :: 0 <= k < i ==>
                  numFrames >= 2 && cameraData[k] == FramePose(k, numFrames, degreesH, degreesV, zoom, trig)
    {
      if numFrames - 1 == 0 {
        return Err(DivisionByZero);
      }
      var angleH := Ramp(i, degreesH as real, numFrames);
      var angleV := Ramp(i, degreesV as real, numFrames);
      var zoomFactor := Ramp(i, zoom, numFrames);
      var hCos, hSin := trig.cos(angleH), trig.sin(angleH);
      var vCos, vSin, vTan := trig.cos(-angleV), trig.sin(-angleV), trig.tan(angleV);
      var position := OrbitPosition(hCos, hSin, vTan);
      position := ZoomToward(position, Center, zoomFactor);
      var rot := Mul3(RotV(vCos, vSin), RotH(hCos, hSin));
      var transform := Translation(position);
      transform := SetBlock(transform, rot);
      cameraData := cameraData + [transform];
      i := i + 1;
    }
    return Ok(cameraData);
  }

  /** s[::4]: the elements at indices 0, 4, 8, ... */
  function EveryFourth<T>(s: seq<T>): (r: seq<T>)
    ensures |r| == (|s| + 3) / 4
    ensures forall k :: 0 <= k < |r| ==> 4 * k < |s| && r[k] == s[4 * k]
    decreases |s|
  {
    if |s| == 0 then []
    else if |s| <= 4 then [s[0]]
    else [s[0]] + EveryFourth(s[4..])
  }

  /** For t >= 1 latent frames the stride-4 slice of NumFrames(t) poses keeps
      exactly t of them, and the last one kept is the last frame. */
  lemma SubsampleKeepsLatentCount<T>(t: nat, s: seq<T>)
    requires t >= 1 && |s| == NumFrames(t)
    ensures |EveryFourth(s)| == t
    ensures EveryFourth(s)[t - 1] == s[|s| - 1]
  {
    var n, k := NumFrames(t), t - 1;
    assert (n + 3) / 4 == t && n - 1 == 4 * k;
    var r := EveryFourth(s);
    assert |r| == t;
    assert r[k] == s[4 * k];
  }

  /** process: the trajectory for a latent with t frames. t == 1 fails on the
      ramp's zero denominator; t == 0 gives no poses, and stacking none fails. */
  method Process(t: nat, degreesH: int, degreesV: int, zoom: real, trig: Trig)
    returns (r: Result<seq<Matrix>>)
    ensures t == 0 ==> r == Err(EmptyStack)
    ensures t == 1 ==> r == Err(DivisionByZero)
    ensures t >= 2 ==>
              r.Ok? && |r.value| == t &&
              (forall k :: 0 <= k < t ==>
                 r.value[k] == FramePose(4 * k, NumFrames(t), degreesH, degreesV, zoom, trig)) &&
              r.value[t - 1] == PoseAt(degreesH as real, degreesV as real, zoom, trig)
  {
    var numFrames := NumFrames(t);
    var cameraTransforms := GenerateOrbit(numFrames, degreesH, degreesV, zoom, trig);
    if cameraTransforms.Err? {
      return Err(cameraTransforms.error);
    }
    var traj := EveryFourth(cameraTransforms.value);
    if |traj| == 0 {
      return Err(EmptyStack);
    }
    if t >= 2 {
      SubsampleKeepsLatentCount(t, cameraTransforms.value);
    }
    return Ok(traj);
  }
}
