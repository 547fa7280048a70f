/** The fixed-size linear algebra of a two-state, one-input system: state
    vectors, the 2×2 system matrix, the 2×1 input matrix, its 1×2 left
    pseudoinverse, and the 3×3 block matrix that discretisation exponentiates
    (common/include/Eigen.hh, src/Eigen.hh). With States = 2 and Inputs = 1
    the "tall" shape that the pseudoinverse type demands holds by
    construction. */
module Matrices {

  /** A column of two reals: a state vector, a state derivative, or a 2×1
      input matrix. */
  datatype Vec2 = Vec2(x0: real, x1: real) {
    function Plus(o: Vec2): Vec2 { Vec2(x0 + o.x0, x1 + o.x1) }
    function Minus(o: Vec2): Vec2 { Vec2(x0 - o.x0, x1 - o.x1) }
    function Negated(): Vec2 { Vec2(-x0, -x1) }
    /** A 2×1 matrix times a 1-vector (a scalar). */
    function Times(k: real): Vec2 { Vec2(x0 * k, x1 * k) }
  }

  const Zero2: Vec2 := Vec2(0.0, 0.0)

  /** A 1×2 row: a pseudoinverse of an input matrix, or a feedback gain. */
  datatype Row2 = Row2(c0: real, c1: real) {
    function Dot(v: Vec2): real { c0 * v.x0 + c1 * v.x1 }
  }

  datatype Mat2 = Mat2(a00: real, a01: real, a10: real, a11: real) {
    function Apply(v: Vec2): Vec2 {
      Vec2(a00 * v.x0 + a01 * v.x1, a10 * v.x0 + a11 * v.x1)
    }
  }

  const Identity2: Mat2 := Mat2(1.0, 0.0, 0.0, 1.0)

  function Transpose(bc: Vec2): Row2 { Row2(bc.x0, bc.x1) }

  /** BcᵀBc, a 1×1 matrix. */
  function Gram(bc: Vec2): real { Transpose(bc).Dot(bc) }

  /** The Moore–Penrose left pseudoinverse Bc⁺ = (BcᵀBc)⁻¹Bcᵀ. BcᵀBc is
      invertible exactly when Bc is not the zero column; the source does not
      check this (a zero column is a configuration error). */
  function PseudoInverse(bc: Vec2): (p: Row2)
    requires bc != Zero2
    ensures p.Dot(bc) == 1.0
    ensures bc.x0 == 0.0 ==> p == Row2(0.0, 1.0 / bc.x1)
  {
    ScaledTransposeIsLeftInverse(bc);
    Row2(bc.x0 / Gram(bc), bc.x1 / Gram(bc))
  }

  lemma ScaledTransposeIsLeftInverse(bc: Vec2)
    requires bc != Zero2
    ensures Gram(bc) != 0.0
    ensures Row2(bc.x0 / Gram(bc), bc.x1 / Gram(bc)).Dot(bc) == 1.0
    ensures bc.x0 == 0.0 ==> Row2(bc.x0 / Gram(bc), bc.x1 / Gram(bc)) == Row2(0.0, 1.0 / bc.x1)
  {
    GramPositive(bc);
    var g := Gram(bc);
    assert g == bc.x0 * bc.x0 + bc.x1 * bc.x1;
    assert (bc.x0 / g) * bc.x0 == (bc.x0 * bc.x0) / g;
    assert (bc.x1 / g) * bc.x1 == (bc.x1 * bc.x1) / g;
    assert (bc.x0 * bc.x0) / g + (bc.x1 * bc.x1) / g == g / g;
    assert g / g == 1.0;
    if bc.x0 == 0.0 {
      assert g == bc.x1 * bc.x1;
      assert bc.x1 / (bc.x1 * bc.x1) == 1.0 / bc.x1;
    }
  }

  lemma GramPositive(bc: Vec2)
    requires bc != Zero2
    ensures Gram(bc) > 0.0
  {
    assert Gram(bc) == bc.x0 * bc.x0 + bc.x1 * bc.x1;
    assert bc.x0 * bc.x0 >= 0.0;
    assert bc.x1 * bc.x1 >= 0.0;
    if bc.x0 != 0.0 {
      assert bc.x0 * bc.x0 > 0.0;
    } else {
      assert bc.x1 * bc.x1 > 0.0;
    }
  }

  /** Bc·Bc⁺ projects onto the input direction: any constant that Bc can
      produce (c = Bc·k) is reproduced exactly by Bc·(Bc⁺·c). */
  lemma {:induction false} PseudoInverseReproducesRange(bc: Vec2, k: real)
    requires bc != Zero2
    ensures bc.Times(PseudoInverse(bc).Dot(bc.Times(k))) == bc.Times(k)
  {
    var p := PseudoInverse(bc);
    calc {
      p.Dot(bc.Times(k));
      p.c0 * (bc.x0 * k) + p.c1 * (bc.x1 * k);
      (p.c0 * bc.x0 + p.c1 * bc.x1) * k;
      { assert p.Dot(bc) == 1.0; }
      k;
    }
  }

  /** For the elevator's input column [0; b] the pseudoinverse is [0, 1/b],
      and Bc·Bc⁺ maps an acceleration-only vector [0, a] to itself. */
  lemma {:induction false} PseudoInverseOfAccelerationColumn(b: real, a: real)
    requires b != 0.0
    ensures PseudoInverse(Vec2(0.0, b)) == Row2(0.0, 1.0 / b)
    ensures Vec2(0.0, b).Times(PseudoInverse(Vec2(0.0, b)).Dot(Vec2(0.0, a))) == Vec2(0.0, a)
  {
    var p := PseudoInverse(Vec2(0.0, b));
    assert p.Dot(Vec2(0.0, a)) == a / b;
    assert b * (a / b) == a;
  }

  /** A 3-vector [x; u]: a state stacked on an input. */
  datatype Vec3 = Vec3(y0: real, y1: real, y2: real)

  /** A 3×3 matrix by rows. */
  datatype Mat3 = Mat3(r0: Vec3, r1: Vec3, r2: Vec3) {
    function Apply(v: Vec3): Vec3 {
      Vec3(Dot3(r0, v), Dot3(r1, v), Dot3(r2, v))
    }
    function Scaled(k: real): Mat3 {
      Mat3(Scale3(r0, k), Scale3(r1, k), Scale3(r2, k))
    }
  }

  function Dot3(a: Vec3, b: Vec3): real { a.y0 * b.y0 + a.y1 * b.y1 + a.y2 * b.y2 }
  function Scale3(a: Vec3, k: real): Vec3 { Vec3(a.y0 * k, a.y1 * k, a.y2 * k) }
  function Add3(a: Mat3, b: Mat3): Mat3 {
    Mat3(Vec3(a.r0.y0 + b.r0.y0, a.r0.y1 + b.r0.y1, a.r0.y2 + b.r0.y2),
         Vec3(a.r1.y0 + b.r1.y0, a.r1.y1 + b.r1.y1, a.r1.y2 + b.r1.y2),
         Vec3(a.r2.y0 + b.r2.y0, a.r2.y1 + b.r2.y1, a.r2.y2 + b.r2.y2))
  }

  const Identity3: Mat3 := Mat3(Vec3(1.0, 0.0, 0.0), Vec3(0.0, 1.0, 0.0), Vec3(0.0, 0.0, 1.0))

  /** Van Loan's block matrix M = [[Ac, Bc], [0, 0]]. */
  function Augmented(ac: Mat2, bc: Vec2): Mat3 {
    Mat3(Vec3(ac.a00, ac.a01, bc.x0),
         Vec3(ac.a10, ac.a11, bc.x1),
         Vec3(0.0, 0.0, 0.0))
  }

  /** The block layout of M is the continuous affine system with the input
      held constant: d/dt [x; u] = M·[x; u] = [Ac·x + Bc·u; 0]. */
  lemma AugmentedDynamics(ac: Mat2, bc: Vec2, x: Vec2, u: real)
    ensures Augmented(ac, bc).Apply(Vec3(x.x0, x.x1, u))
         == Vec3(ac.Apply(x).Plus(bc.Times(u)).x0, ac.Apply(x).Plus(bc.Times(u)).x1, 0.0)
  {
  }

  /** The discrete pair (Ad, Bd). */
  datatype Discrete = Discrete(ad: Mat2, bd: Vec2)

  function TopLeft(phi: Mat3): Mat2 { Mat2(phi.r0.y0, phi.r0.y1, phi.r1.y0, phi.r1.y1) }
  function TopRight(phi: Mat3): Vec2 { Vec2(phi.r0.y2, phi.r1.y2) }

  /** Discretize: φ = exp(M·T); Ad is φ's top-left 2×2 block and Bd its
      top-right 2×1 block. The matrix exponential is supplied by the caller
      (Eigen's MatrixFunctions in the source). */
  function Discretize(ac: Mat2, bc: Vec2, samplePeriod: real, exp: Mat3 -> Mat3): Discrete {
    var phi := exp(Augmented(ac, bc).Scaled(samplePeriod));
    Discrete(TopLeft(phi), TopRight(phi))
  }

  /** With the exponential truncated to first order, exp(X) ≈ I + X, the
      blocks that Discretize extracts are forward Euler: Ad = I + Ac·T and
      Bd = Bc·T. This pins down that the blocks sit where the discrete
      update expects them. */
  lemma {:induction false} DiscretizeFirstOrder(ac: Mat2, bc: Vec2, t: real)
    ensures Discretize(ac, bc, t, (m: Mat3) => Add3(Identity3, m))
         == Discrete(Mat2(1.0 + ac.a00 * t, ac.a01 * t, ac.a10 * t, 1.0 + ac.a11 * t), bc.Times(t))
  {
    var phi := Add3(Identity3, Augmented(ac, bc).Scaled(t));
    assert TopLeft(phi) == Mat2(1.0 + ac.a00 * t, ac.a01 * t, ac.a10 * t, 1.0 + ac.a11 * t);
    assert TopRight(phi) == bc.Times(t);
  }
}
