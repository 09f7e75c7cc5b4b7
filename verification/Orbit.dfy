/** Planet.calcOrbitDuration: the orbit period in milliseconds, scaled by
    the area of the orbit circle against a reference circle of radius 400
    that takes 300000 ms.  The source multiplies both areas by Math.PI; the
    model takes that constant as a parameter `pi` so that its cancellation
    is proved rather than assumed. */
module Orbit {

  const ReferenceDistance: real := 400.0
  const ReferencePeriodMs: real := 300000.0

  function CircleArea(pi: real, radius: real): real {
    pi * radius * radius
  }

  function CalcOrbitDuration(pi: real, distance: real): (ms: real)
    requires pi > 0.0
    ensures ms == ReferencePeriodMs * distance * distance / (ReferenceDistance * ReferenceDistance)
  {
    var baseCircleArea := CircleArea(pi, ReferenceDistance);
    var currentOrbitArea := CircleArea(pi, distance);
    PiCancels(pi, distance);
    ReferencePeriodMs * currentOrbitArea / baseCircleArea
  }

  lemma PiCancels(pi: real, d: real)
    requires pi > 0.0
    ensures 300000.0 * (pi * d * d) / (pi * 400.0 * 400.0) == 300000.0 * d * d / (400.0 * 400.0)
  {
    var lhsNum, rhsNum := 300000.0 * (pi * d * d), 300000.0 * d * d;
    assert lhsNum == pi * rhsNum;
    assert pi * 400.0 * 400.0 == pi * (400.0 * 400.0);
  }

  /** The reference orbit takes exactly 300000 ms, a zero-distance orbit
      takes none, and the period never depends on the value used for pi. */
  lemma OrbitDurationAnchors(pi: real, otherPi: real)
    requires pi > 0.0 && otherPi > 0.0
    ensures CalcOrbitDuration(pi, 400.0) == 300000.0
    ensures CalcOrbitDuration(pi, 0.0) == 0.0
    ensures forall d :: CalcOrbitDuration(pi, d) == CalcOrbitDuration(otherPi, d)
  {
  }

  /** Scaling the distance by k scales the period by k², and the period is
      never negative. */
  lemma OrbitDurationScales(pi: real, d: real, k: real)
    requires pi > 0.0
    ensures CalcOrbitDuration(pi, k * d) == k * k * CalcOrbitDuration(pi, d)
    ensures CalcOrbitDuration(pi, d) >= 0.0
  {
    var c := 300000.0 / (400.0 * 400.0);
    assert CalcOrbitDuration(pi, k * d) == c * ((k * d) * (k * d));
    assert CalcOrbitDuration(pi, d) == c * (d * d);
    assert (k * d) * (k * d) == k * k * (d * d);
    if d < 0.0 {
      assert d * d == (-d) * (-d);
    }
  }

  /** A farther orbit never takes less time than a nearer one. */
  lemma OrbitDurationGrows(pi: real, d: real, d': real)
    requires pi > 0.0
    requires 0.0 <= d <= d'
    ensures CalcOrbitDuration(pi, d) <= CalcOrbitDuration(pi, d')
  {
    var c := 300000.0 / (400.0 * 400.0);
    var dd, dd', ddm := d * d, d' * d', d * d';
    assert dd <= ddm <= dd';
    assert CalcOrbitDuration(pi, d) == c * dd;
    assert CalcOrbitDuration(pi, d') == c * dd';
  }
}
