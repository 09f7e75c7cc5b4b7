/** The physics of a GravityObject: the gravitational pull of the planets,
    the two halves of a velocity-Verlet step, the collision damage and the
    cap on the trail queue.  The planet list and the time step are explicit
    parameters of every operation. */
module Gravity {
  import opened Vectors
  import opened Entities

  /** No planet sits exactly at `p`, so every gravity term is defined. */
  predicate Clear(planets: seq<Planet>, p: Vec2) {
    forall i :: 0 <= i < |planets| ==> planets[i].center != p
  }

  /** One planet's term: the vector to its centre scaled by mass/|d|², so its
      length is mass/|d| (the pull falls off with the distance, not with its
      square). */
  function Pull(planet: Planet, p: Vec2): Vec2
    requires planet.center != p
  {
    var toPlanet := Sub(planet.center, p);
    SubNonZero(planet.center, p);
    LenSqPositive(toPlanet);
    Scale(toPlanet, planet.mass / LenSq(toPlanet))
  }

  /** Reference definition of getGravityAccelVector: the sum of one Pull per
      planet. */
  function Accel(planets: seq<Planet>, p: Vec2): Vec2
    requires Clear(planets, p)
    decreases |planets|
  {
    if |planets| == 0 then Zero
    else Add(Pull(planets[0], p), Accel(planets[1..], p))
  }

  /** A planet appended to the list adds exactly its own term. */
  lemma {:induction false} AccelAppend(planets: seq<Planet>, extra: Planet, p: Vec2)
    requires Clear(planets, p) && extra.center != p
    ensures Clear(planets + [extra], p)
    ensures Accel(planets + [extra], p) == Add(Accel(planets, p), Pull(extra, p))
    decreases |planets|
  {
    var all := planets + [extra];
    assert forall i :: 0 <= i < |planets| ==> all[i] == planets[i];
    if |planets| > 0 {
      assert all[1..] == planets[1..] + [extra];
      AccelAppend(planets[1..], extra, p);
    }
  }

  /** getGravityAccelVector as the source computes it: a running sum over the
      planets in order, starting from the zero vector. */
  method GravityAccel(planets: seq<Planet>, p: Vec2) returns (accel: Vec2)
    requires Clear(planets, p)
    ensures accel == Accel(planets, p)
    ensures |planets| == 0 ==> accel == Zero
  {
    accel := Zero;
    var i := 0;
    while i < |planets|
      invariant 0 <= i <= |planets|
      invariant Clear(planets[..i], p)
      invariant accel == Accel(planets[..i], p)
    {
      AccelAppend(planets[..i], planets[i], p);
      assert planets[..i] + [planets[i]] == planets[..i + 1];
      accel := Add(accel, Pull(planets[i], p));
      i := i + 1;
    }
    assert planets[..i] == planets;
  }

  lemma CrossScaleSelf(x: real, y: real, k: real)
    ensures (x * k) * y - (y * k) * x == 0.0
  {
  }

  lemma DotScaleSelf(x: real, y: real, k: real)
    ensures (x * k) * x + (y * k) * y == k * (x * x + y * y)
  {
  }

  lemma QuotientNonNegative(m: real, l: real)
    requires m >= 0.0 && l > 0.0
    ensures m / l >= 0.0
  {
  }

  lemma ProductNonNegative(k: real, l: real)
    requires k >= 0.0 && l >= 0.0
    ensures k * l >= 0.0
  {
  }

  lemma SquaredQuotient(m: real, l: real)
    requires l != 0.0
    ensures (m / l) * (m / l) * l == m * m / l
  {
  }

  /** A single planet pulls straight at its centre: the acceleration is
      parallel to the vector towards the planet, points along it when the
      mass is non-negative, and its squared length is mass²/|d|². */
  lemma SinglePlanetPull(planet: Planet, p: Vec2)
    requires planet.center != p
    ensures Clear([planet], p)
    ensures Cross(Accel([planet], p), Sub(planet.center, p)) == 0.0
    ensures planet.mass >= 0.0 ==> Dot(Accel([planet], p), Sub(planet.center, p)) >= 0.0
    ensures LenSq(Sub(planet.center, p)) > 0.0
    ensures LenSq(Accel([planet], p)) == planet.mass * planet.mass / LenSq(Sub(planet.center, p))
  {
    var d := Sub(planet.center, p);
    SubNonZero(planet.center, p);
    LenSqPositive(d);
    var l := LenSq(d);
    var k := planet.mass / l;
    var a := Accel([planet], p);
    assert [planet][1..] == [];
    assert Accel([planet][1..], p) == Zero;
    var pull := Pull(planet, p);
    assert pull == Scale(d, k);
    assert a == Add(pull, Zero);
    assert a == Scale(d, k);
    calc {
      Cross(a, d);
      (d.x * k) * d.y - (d.y * k) * d.x;
      { CrossScaleSelf(d.x, d.y, k); }
      0.0;
    }
    calc {
      Dot(a, d);
      (d.x * k) * d.x + (d.y * k) * d.y;
      { DotScaleSelf(d.x, d.y, k); }
      k * l;
    }
    if planet.mass >= 0.0 {
      QuotientNonNegative(planet.mass, l);
      ProductNonNegative(k, l);
    }
    calc {
      LenSq(a);
      { LenSqScale(d, k); }
      k * k * l;
      { SquaredQuotient(planet.mass, l); }
      planet.mass * planet.mass / l;
    }
  }

  /** Position half of the Verlet step (updatePosition): move by
      vel·dt + a·dt²/2 with `a` the acceleration at the old position, cache
      `a`, and push the old position onto the trail. */
  function UpdatePosition(planets: seq<Planet>, dt: real, o: GravityObject): (r: GravityObject)
    requires Clear(planets, o.pos)
    ensures r.accel == Accel(planets, o.pos)
    ensures Sub(r.pos, o.pos) == Add(Scale(o.vel, dt), Scale(r.accel, dt * dt / 2.0))
    ensures r.vel == o.vel && r.damage == o.damage
    ensures |r.trail| == |o.trail| + 1
    ensures r.trail[..|o.trail|] == o.trail && r.trail[|o.trail|] == o.pos
  {
    var accel := Accel(planets, o.pos);
    var newPos := Add(Add(o.pos, Scale(o.vel, dt)), Scale(accel, dt * dt / 2.0));
    o.(pos := newPos, accel := accel, trail := o.trail + [o.pos])
  }

  lemma HalfSum(a: real, b: real, h: real)
    ensures a * h + b * h == (a + b) * h
  {
  }

  /** Velocity half of the Verlet step (updateVelocity): add half of the
      cached acceleration and half of the acceleration at the current
      position, each times dt.  Nothing but the velocity changes. */
  function UpdateVelocity(planets: seq<Planet>, dt: real, o: GravityObject): (r: GravityObject)
    requires Clear(planets, o.pos)
    ensures r.pos == o.pos && r.accel == o.accel && r.trail == o.trail && r.damage == o.damage
  {
    var current := Accel(planets, o.pos);
    var newVel := Add(Add(o.vel, Scale(o.accel, dt / 2.0)), Scale(current, dt / 2.0));
    o.(vel := newVel)
  }

  /** The velocity changes by the average of the cached and the current
      acceleration, times dt. */
  lemma VelocityUsesAverage(planets: seq<Planet>, dt: real, o: GravityObject)
    requires Clear(planets, o.pos)
    ensures UpdateVelocity(planets, dt, o).vel
         == Add(o.vel, Scale(Add(o.accel, Accel(planets, o.pos)), dt / 2.0))
  {
    var current := Accel(planets, o.pos);
    HalfSum(o.accel.x, current.x, dt / 2.0);
    HalfSum(o.accel.y, current.y, dt / 2.0);
  }

  /** Both halves are defined: no planet at the old or the new position. */
  predicate CanStep(planets: seq<Planet>, dt: real, o: GravityObject) {
    Clear(planets, o.pos) && Clear(planets, UpdatePosition(planets, dt, o).pos)
  }

  /** One whole Verlet step against a fixed planet list */
  function Step(planets: seq<Planet>, dt: real, o: GravityObject): GravityObject
    requires CanStep(planets, dt, o)
  {
    UpdateVelocity(planets, dt, UpdatePosition(planets, dt, o))
  }

  /** `n` whole steps are all defined */
  predicate CanRun(planets: seq<Planet>, dt: real, o: GravityObject, n: nat)
    decreases n
  {
    n == 0 || (CanStep(planets, dt, o) && CanRun(planets, dt, Step(planets, dt, o), n - 1))
  }

  function Run(planets: seq<Planet>, dt: real, o: GravityObject, n: nat): GravityObject
    requires CanRun(planets, dt, o, n)
    decreases n
  {
    if n == 0 then o else Run(planets, dt, Step(planets, dt, o), n - 1)
  }

  lemma StepsAdd(p: real, v: real, dt: real, n: nat)
    requires n > 0
    ensures (p + v * dt) + v * ((n - 1) as real * dt) == p + v * (n as real * dt)
  {
  }

  lemma VecStepsAdd(p: Vec2, v: Vec2, dt: real, n: nat)
    requires n > 0
    ensures Add(Add(p, Scale(v, dt)), Scale(v, (n - 1) as real * dt)) == Add(p, Scale(v, n as real * dt))
  {
    StepsAdd(p.x, v.x, dt, n);
    StepsAdd(p.y, v.y, dt, n);
  }

  lemma ScaleZero(k: real)
    ensures Scale(Zero, k) == Zero
  {
  }

  /** One step with no planets moves by vel·dt and keeps the velocity. */
  lemma FreeStep(dt: real, o: GravityObject)
    ensures CanStep([], dt, o)
    ensures Step([], dt, o).pos == Add(o.pos, Scale(o.vel, dt))
    ensures Step([], dt, o).vel == o.vel
  {
    var moved := UpdatePosition([], dt, o);
    assert moved.accel == Zero;
    ScaleZero(dt * dt / 2.0);
    ScaleZero(dt / 2.0);
  }

  /** With no planets the integrator is exact straight-line motion: after n
      steps the object sits at pos + vel·n·dt and its velocity is unchanged. */
  lemma {:induction false} FreeFlight(dt: real, o: GravityObject, n: nat)
    ensures CanRun([], dt, o, n)
    ensures Run([], dt, o, n).pos == Add(o.pos, Scale(o.vel, n as real * dt))
    ensures Run([], dt, o, n).vel == o.vel
    decreases n
  {
    if n > 0 {
      FreeStep(dt, o);
      var next := Step([], dt, o);
      FreeFlight(dt, next, n - 1);
      calc {
        Run([], dt, o, n).pos;
        Run([], dt, next, n - 1).pos;
        Add(next.pos, Scale(next.vel, (n - 1) as real * dt));
        Add(Add(o.pos, Scale(o.vel, dt)), Scale(o.vel, (n - 1) as real * dt));
        { VecStepsAdd(o.pos, o.vel, dt, n); }
        Add(o.pos, Scale(o.vel, n as real * dt));
      }
    } else {
      ScaleByZero(o.pos, o.vel, dt);
    }
  }

  lemma ScaleByZero(p: Vec2, v: Vec2, dt: real)
    ensures Add(p, Scale(v, 0 as real * dt)) == p
  {
  }

  // ------------------------------------------------------------ collision

  datatype CollisionOutcome = CollisionOutcome(planet: Planet, destroyed: bool)

  /** onCollision: the planet loses `damage` mass and is destroyed when its
      mass drops to zero or below. */
  function OnCollision(planet: Planet, o: GravityObject): (r: CollisionOutcome)
    ensures r.planet.mass == planet.mass - o.damage
    ensures r.planet.center == planet.center && r.planet.radius == planet.radius
    ensures r.destroyed <==> r.planet.mass <= 0.0
  {
    var hit := planet.(mass := planet.mass - o.damage);
    CollisionOutcome(hit, hit.mass <= 0.0)
  }

  /** A hit destroys the planet exactly when the damage reaches its mass, and
      a zero-damage object leaves the planet as it was. */
  lemma CollisionDestroysIff(planet: Planet, o: GravityObject)
    ensures OnCollision(planet, o).destroyed <==> o.damage >= planet.mass
    ensures o.damage == 0.0 ==> OnCollision(planet, o).planet == planet
    ensures o.damage == 0.0 && planet.mass > 0.0 ==> !OnCollision(planet, o).destroyed
  {
  }

  // ---------------------------------------------------------------- trail

  const TrailCapacity: nat := 10

  /** The cap drawObject applies: drop the oldest entry when the queue holds
      more than TrailCapacity. */
  function CapTrail(trail: seq<Vec2>): (r: seq<Vec2>)
    ensures |r| == (if |trail| > TrailCapacity then |trail| - 1 else |trail|)
    ensures r == trail[|trail| - |r|..]
    ensures |trail| <= TrailCapacity + 1 ==> |r| <= TrailCapacity
  {
    if |trail| > TrailCapacity then trail[1..] else trail
  }

  /** Push-then-cap keeps a bounded trail bounded, and the trail then holds
      the most recent positions, the pre-step position last. */
  lemma TrailStaysBounded(planets: seq<Planet>, dt: real, o: GravityObject)
    requires Clear(planets, o.pos)
    requires |o.trail| <= TrailCapacity
    ensures var t := CapTrail(UpdatePosition(planets, dt, o).trail);
      && |t| <= TrailCapacity
      && |t| == (if |o.trail| == TrailCapacity then TrailCapacity else |o.trail| + 1)
      && t[|t| - 1] == o.pos
      && t[..|t| - 1] == o.trail[|o.trail| + 1 - |t|..]
  {
    var pushed := UpdatePosition(planets, dt, o).trail;
    assert pushed == o.trail + [o.pos];
  }
}
