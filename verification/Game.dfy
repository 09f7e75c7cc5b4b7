/** The per-frame logic of mainLoop.js: the ordered physics tick of
    update(), the trail cap applied while drawing, the spawn arithmetic of
    getShotGravityObject and the planet/projectile collider handler. */
module Game {
  import opened Vectors
  import opened Entities
  import opened Gravity
  import opened Utils

  /** The live planet and projectile groups */
  datatype World = World(planets: seq<Planet>, objects: seq<GravityObject>)

  /** The planets after their orbit update: each body reset to its new
      centre, mass and radius unchanged.  The new centres come from the orbit
      curve and tween, which are inputs here. */
  function MovePlanets(planets: seq<Planet>, centers: seq<Vec2>): (moved: seq<Planet>)
    requires |centers| == |planets|
    ensures |moved| == |planets|
    ensures forall i :: 0 <= i < |planets| ==>
      moved[i].center == centers[i] && moved[i].mass == planets[i].mass && moved[i].radius == planets[i].radius
  {
    seq(|planets|, i requires 0 <= i < |planets| => planets[i].(center := centers[i]))
  }

  function Centers(planets: seq<Planet>): (centers: seq<Vec2>)
    ensures |centers| == |planets|
    ensures forall i :: 0 <= i < |planets| ==> centers[i] == planets[i].center
  {
    seq(|planets|, i requires 0 <= i < |planets| => planets[i].center)
  }

  /** Every half-step of the tick is defined: no projectile sits on an old
      planet centre before its position step, nor on a new one after it. */
  predicate TickDefined(planets: seq<Planet>, centers: seq<Vec2>, dt: real, objects: seq<GravityObject>)
    requires |centers| == |planets|
  {
    forall i :: 0 <= i < |objects| ==>
      Clear(planets, objects[i].pos) &&
      Clear(MovePlanets(planets, centers), UpdatePosition(planets, dt, objects[i]).pos)
  }

  /** updatePositions: first the position half of every projectile against
      the planets where they stand, then every planet's orbit update, then
      the velocity half of every projectile against the moved planets. */
  method UpdatePositions(planets: seq<Planet>, centers: seq<Vec2>, dt: real, objects: seq<GravityObject>)
      returns (newPlanets: seq<Planet>, newObjects: seq<GravityObject>)
    requires |centers| == |planets|
    requires TickDefined(planets, centers, dt, objects)
    ensures newPlanets == MovePlanets(planets, centers)
    ensures |newObjects| == |objects|
    ensures forall i :: 0 <= i < |objects| ==>
      newObjects[i] == UpdateVelocity(newPlanets, dt, UpdatePosition(planets, dt, objects[i]))
  {
    var positioned: seq<GravityObject> := [];
    var i := 0;
    while i < |objects|
      invariant 0 <= i <= |objects| && |positioned| == i
      invariant forall j :: 0 <= j < i ==> positioned[j] == UpdatePosition(planets, dt, objects[j])
    {
      positioned := positioned + [UpdatePosition(planets, dt, objects[i])];
      i := i + 1;
    }

    newPlanets := [];
    i := 0;
    while i < |planets|
      invariant 0 <= i <= |planets| && |newPlanets| == i
      invariant forall j :: 0 <= j < i ==> newPlanets[j] == planets[j].(center := centers[j])
    {
      newPlanets := newPlanets + [planets[i].(center := centers[i])];
      i := i + 1;
    }
    assert newPlanets == MovePlanets(planets, centers);

    newObjects := [];
    i := 0;
    while i < |positioned|
      invariant 0 <= i <= |positioned| && |newObjects| == i
      invariant forall j :: 0 <= j < i ==> newObjects[j] == UpdateVelocity(newPlanets, dt, positioned[j])
    {
      newObjects := newObjects + [UpdateVelocity(newPlanets, dt, positioned[i])];
      i := i + 1;
    }
  }

  /** When no planet moves, the tick gives every projectile exactly one whole
      Verlet step, the same step the preview takes. */
  lemma StillPlanetsTickIsStep(planets: seq<Planet>, dt: real, o: GravityObject)
    requires CanStep(planets, dt, o)
    ensures MovePlanets(planets, Centers(planets)) == planets
    ensures UpdateVelocity(MovePlanets(planets, Centers(planets)), dt, UpdatePosition(planets, dt, o))
         == Step(planets, dt, o)
  {
    var moved := MovePlanets(planets, Centers(planets));
    assert forall i :: 0 <= i < |planets| ==> moved[i] == planets[i];
  }

  /** The trail cap every drawObject call applies before drawing */
  method DrawObjects(objects: seq<GravityObject>) returns (drawn: seq<GravityObject>)
    ensures |drawn| == |objects|
    ensures forall i :: 0 <= i < |objects| ==> drawn[i] == objects[i].(trail := CapTrail(objects[i].trail))
  {
    drawn := [];
    var i := 0;
    while i < |objects|
      invariant 0 <= i <= |objects| && |drawn| == i
      invariant forall j :: 0 <= j < i ==> drawn[j] == objects[j].(trail := CapTrail(objects[j].trail))
    {
      drawn := drawn + [objects[i].(trail := CapTrail(objects[i].trail))];
      i := i + 1;
    }
  }

  /** What one frame does to one projectile whose trail was within capacity */
  lemma FrameObject(planets: seq<Planet>, moved: seq<Planet>, dt: real, o: GravityObject)
    requires Clear(planets, o.pos) && Clear(moved, UpdatePosition(planets, dt, o).pos)
    requires |o.trail| <= TrailCapacity
    ensures var t := UpdateVelocity(moved, dt, UpdatePosition(planets, dt, o));
      var d := t.(trail := CapTrail(t.trail));
      && 1 <= |d.trail| <= TrailCapacity
      && d.trail[|d.trail| - 1] == o.pos
      && d.pos == UpdatePosition(planets, dt, o).pos
      && d.vel == t.vel
  {
    TrailStaysBounded(planets, dt, o);
  }

  /** One frame of update(): the tick, then the trail cap each drawObject
      applies.  Trails that were within capacity stay within it, and each
      ends with the projectile's position before the tick. */
  method Frame(w: World, centers: seq<Vec2>, dt: real) returns (next: World)
    requires |centers| == |w.planets|
    requires TickDefined(w.planets, centers, dt, w.objects)
    requires forall i :: 0 <= i < |w.objects| ==> |w.objects[i].trail| <= TrailCapacity
    ensures next.planets == MovePlanets(w.planets, centers)
    ensures |next.objects| == |w.objects|
    ensures forall i :: 0 <= i < |w.objects| ==>
      && 1 <= |next.objects[i].trail| <= TrailCapacity
      && next.objects[i].trail[|next.objects[i].trail| - 1] == w.objects[i].pos
      && next.objects[i].pos == UpdatePosition(w.planets, dt, w.objects[i]).pos
      && next.objects[i].vel == UpdateVelocity(next.planets, dt, UpdatePosition(w.planets, dt, w.objects[i])).vel
  {
    var planets, ticked := UpdatePositions(w.planets, centers, dt, w.objects);
    var drawn := DrawObjects(ticked);
    next := World(planets, drawn);
    forall k | 0 <= k < |w.objects|
      ensures 1 <= |next.objects[k].trail| <= TrailCapacity
      ensures next.objects[k].trail[|next.objects[k].trail| - 1] == w.objects[k].pos
      ensures next.objects[k].pos == UpdatePosition(w.planets, dt, w.objects[k]).pos
      ensures next.objects[k].vel == UpdateVelocity(planets, dt, UpdatePosition(w.planets, dt, w.objects[k])).vel
    {
      FrameObject(w.planets, planets, dt, w.objects[k]);
    }
  }

  // ------------------------------------------------------------- shooting

  /** The planet a shot leaves from: the centre of its physics body, if it
      still has one, and its radius. */
  datatype ShotOrigin = ShotOrigin(body: Option<Vec2>, radius: real)

  /** Clearance between the origin's surface and the spawn point */
  const SpawnGap: real := 2.0

  /** The normalised aim: a unit vector, or the zero vector when the pointer
      is exactly on the planet's centre (normalising leaves it at zero). */
  predicate IsAim(dir: Vec2) {
    LenSq(dir) == 1.0 || dir == Zero
  }

  /** getShotGravityObject: nothing without an origin body; otherwise a
      projectile of default damage spawned radius + 2 out along the aim and
      moving along it at `speed`. */
  function GetShotGravityObject(origin: Option<ShotOrigin>, dir: Vec2, speed: real): (shot: Option<GravityObject>)
    requires IsAim(dir)
    ensures shot.None? <==> origin.None? || origin.value.body.None?
    ensures shot.Some? ==>
      && Sub(shot.value.pos, origin.value.body.value) == Scale(dir, origin.value.radius + SpawnGap)
      && shot.value.vel == Scale(dir, speed)
      && shot.value.damage == DefaultDamage
      && shot.value.trail == []
  {
    if origin.None? || origin.value.body.None? then None
    else
      var center := origin.value.body.value;
      Some(NewObject(Add(center, Scale(dir, origin.value.radius + SpawnGap)), Scale(dir, speed), DefaultDamage))
  }

  /** With a unit aim the shot starts exactly radius + 2 from the origin's
      centre, moves at exactly `speed`, and so never starts inside the
      origin planet whose radius it was offset by. */
  lemma ShotClearsOrigin(origin: ShotOrigin, dir: Vec2, speed: real, mass: real)
    requires origin.body.Some? && LenSq(dir) == 1.0 && origin.radius >= 0.0
    ensures var shot := GetShotGravityObject(Some(origin), dir, speed).value;
      && DistSq(shot.pos, origin.body.value) == (origin.radius + SpawnGap) * (origin.radius + SpawnGap)
      && LenSq(shot.vel) == speed * speed
      && !Overlaps(Planet(origin.body.value, mass, origin.radius), shot.pos, ObjectRadius)
  {
    var shot := GetShotGravityObject(Some(origin), dir, speed).value;
    var k := origin.radius + SpawnGap;
    LenSqScale(dir, k);
    LenSqScale(dir, speed);
    var reach := origin.radius + ObjectRadius;
    assert DistSq(shot.pos, origin.body.value) == k * k;
    GapExceedsReach(origin.radius);
  }

  lemma GapExceedsReach(r: real)
    requires r >= 0.0
    ensures (r + 2.0) * (r + 2.0) > (r + 1.0) * (r + 1.0)
  {
  }

  // ------------------------------------------------------------- collisions

  function RemoveAt<T>(s: seq<T>, i: nat): (r: seq<T>)
    requires i < |s|
    ensures |r| == |s| - 1
    ensures forall j :: 0 <= j < i ==> r[j] == s[j]
    ensures forall j :: i <= j < |r| ==> r[j] == s[j + 1]
  {
    s[..i] + s[i + 1..]
  }

  /** The collider callback for a reported (planet, projectile) pair: the
      projectile's onCollision damages the planet, the projectile always
      leaves the world, and the planet leaves it exactly when its mass is
      now zero or below. */
  function HandleCollision(w: World, planetIndex: nat, objectIndex: nat): (r: World)
    requires planetIndex < |w.planets| && objectIndex < |w.objects|
    ensures r.objects == RemoveAt(w.objects, objectIndex)
    ensures var hit := OnCollision(w.planets[planetIndex], w.objects[objectIndex]).planet;
      && (hit.mass <= 0.0 ==> r.planets == RemoveAt(w.planets, planetIndex))
      && (hit.mass > 0.0 ==> r.planets == w.planets[planetIndex := hit])
  {
    var outcome := OnCollision(w.planets[planetIndex], w.objects[objectIndex]);
    var objects := RemoveAt(w.objects, objectIndex);
    if outcome.destroyed then World(RemoveAt(w.planets, planetIndex), objects)
    else World(w.planets[planetIndex := outcome.planet], objects)
  }

  predicate AllPlanetsAlive(planets: seq<Planet>) {
    forall i :: 0 <= i < |planets| ==> planets[i].mass > 0.0
  }

  /** The handler keeps the invariant that every planet still in the world
      has positive mass, removes exactly one projectile, and removes at most
      one planet, the one that was hit. */
  lemma CollisionKeepsPlanetsAlive(w: World, planetIndex: nat, objectIndex: nat)
    requires planetIndex < |w.planets| && objectIndex < |w.objects|
    requires AllPlanetsAlive(w.planets)
    ensures AllPlanetsAlive(HandleCollision(w, planetIndex, objectIndex).planets)
    ensures |HandleCollision(w, planetIndex, objectIndex).objects| == |w.objects| - 1
    ensures |HandleCollision(w, planetIndex, objectIndex).planets| ==
      if w.objects[objectIndex].damage >= w.planets[planetIndex].mass then |w.planets| - 1 else |w.planets|
  {
    var r := HandleCollision(w, planetIndex, objectIndex);
    CollisionDestroysIff(w.planets[planetIndex], w.objects[objectIndex]);
    var hit := OnCollision(w.planets[planetIndex], w.objects[objectIndex]).planet;
    if hit.mass <= 0.0 {
      forall i | 0 <= i < |r.planets|
        ensures r.planets[i].mass > 0.0
      {
        if i < planetIndex {
          assert r.planets[i] == w.planets[i];
        } else {
          assert r.planets[i] == w.planets[i + 1];
        }
      }
    }
  }
}
