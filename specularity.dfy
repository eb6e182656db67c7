/**
 * `Specularity`: which way round a star triangle is. The sign of the
 * triple product of its three vertices tells a triangle from its mirror
 * image; a triple product too close to zero (the stars nearly in line)
 * is ignored.
 */
module Specularities {
  import opened StarTriangles
  import Angles

  datatype Vector3 = Vector3(x: real, y: real, z: real)

  /** `Vector3::cross`. */
  function Cross(a: Vector3, b: Vector3): (c: Vector3)
    ensures Dot(c, a) == 0.0 && Dot(c, b) == 0.0
  {
    Vector3(a.y * b.z - a.z * b.y, a.z * b.x - a.x * b.z, a.x * b.y - a.y * b.x)
  }

  /** `Vector3::dot`. */
  function Dot(a: Vector3, b: Vector3): (r: real)
    ensures a == Vector3(0.0, 0.0, 0.0) || b == Vector3(0.0, 0.0, 0.0) ==> r == 0.0
  {
    a.x * b.x + a.y * b.y + a.z * b.z
  }

  /** `(t.1 x t.2) . t.0`, the quantity `test` measures. */
  function TripleProduct(t: StarTriangle<Vector3>): (r: real)
    ensures t.0 == t.1 || t.0 == t.2 ==> r == 0.0
  {
    Dot(Cross(t.1, t.2), t.0)
  }

  datatype SpecularityResult = Ignore | Valid(positive: bool)

  datatype Specularity = Specularity(specularityMin: real)

  /** `Specularity::default`: the hand-picked threshold 0.001. */
  function Default(): (s: Specularity)
    ensures s.specularityMin == 0.001
  {
    Specularity(0.001)
  }

  /**
   * `test`: `Ignore` when the triple product is smaller in size than the
   * threshold, otherwise whether it is positive.
   */
  function Test(spec: Specularity, t: StarTriangle<Vector3>): (r: SpecularityResult)
    ensures r.Ignore? <==> Angles.Abs(TripleProduct(t)) < spec.specularityMin
    ensures r.Valid? ==> (r.positive <==> 0.0 < TripleProduct(t))
  {
    var cross := TripleProduct(t);
    if Angles.Abs(cross) < spec.specularityMin then Ignore else Valid(cross > 0.0)
  }

  /** `same`: the two triangles have the same orientation, or either cannot tell. */
  function Same(spec: Specularity, a: StarTriangle<Vector3>, b: StarTriangle<Vector3>): (r: bool)
    ensures r <==> !(Test(spec, a) == Valid(true) && Test(spec, b) == Valid(false)) &&
                   !(Test(spec, a) == Valid(false) && Test(spec, b) == Valid(true))
  {
    var aa := Test(spec, a);
    var bb := Test(spec, b);
    aa == bb || aa == Ignore || bb == Ignore
  }

  /** The order of the two triangles does not matter. */
  lemma SameSymmetric(spec: Specularity, a: StarTriangle<Vector3>, b: StarTriangle<Vector3>)
    ensures Same(spec, a, b) == Same(spec, b, a)
  {
  }

  /** Swapping the last two vertices negates the triple product. */
  lemma SwapNegates(t: StarTriangle<Vector3>)
    ensures TripleProduct(StarTriangle(t.0, t.2, t.1)) == -TripleProduct(t)
  {
  }

  /** Rotating the vertices leaves the triple product as it was. */
  lemma RotateKeeps(t: StarTriangle<Vector3>)
    ensures TripleProduct(StarTriangle(t.1, t.2, t.0)) == TripleProduct(t)
  {
  }

  /**
   * The mirror image of a triangle tests the other way round: swapping
   * two vertices turns `Valid(b)` into `Valid(!b)` and keeps `Ignore`.
   * (A zero triple product is `Valid(false)` both ways round, which only
   * a threshold of zero or less lets through.)
   */
  lemma SwapFlips(spec: Specularity, t: StarTriangle<Vector3>)
    ensures Test(spec, t).Ignore? ==> Test(spec, StarTriangle(t.0, t.2, t.1)).Ignore?
    ensures Test(spec, t).Valid? && TripleProduct(t) != 0.0 ==>
      Test(spec, StarTriangle(t.0, t.2, t.1)) == Valid(!Test(spec, t).positive)
  {
    SwapNegates(t);
  }

  /** A triangle and its mirror image are the same only when the test cannot tell. */
  lemma MirrorNotSame(spec: Specularity, t: StarTriangle<Vector3>)
    ensures Same(spec, t, StarTriangle(t.0, t.2, t.1)) <==> Test(spec, t).Ignore? || TripleProduct(t) == 0.0
  {
    SwapFlips(spec, t);
  }

  /** A triangle rotated is the same as itself. */
  lemma RotatedSame(spec: Specularity, t: StarTriangle<Vector3>)
    ensures Same(spec, t, StarTriangle(t.1, t.2, t.0))
  {
    RotateKeeps(t);
  }

  /** The documented example: the triple product of the three points is 240. */
  lemma ExampleTriangle()
    ensures var t := StarTriangle(Vector3(-1.0, 2.0, 3.0), Vector3(4.0, 5.0, 6.0), Vector3(7.0, 8.0, -9.0));
      TripleProduct(t) == 240.0 &&
      Test(Specularity(239.0), t) == Valid(true) &&
      Test(Specularity(239.0), StarTriangle(t.0, t.2, t.1)) == Valid(false) &&
      Test(Specularity(250.0), t) == Ignore
  {
  }
}
