/** drawTrajectoryLine: the aiming preview.  A zero-damage copy of the
    projectile is stepped `iterations` times against the current (unmoving)
    planet list, and every step contributes the segment from the copy's
    position before the step to its position after it.  With
    `stopOnCollision` the preview ends right after the first step whose end
    point lies inside a planet. */
module Trajectory {
  import opened Vectors
  import opened Entities
  import opened Gravity
  import opened Utils

  datatype Segment = Segment(start: Vec2, end: Vec2)

  /** The disposable copy: same position and velocity, damage 0, a fresh
      trail and cache. */
  function PreviewCopy(o: GravityObject): (c: GravityObject)
    ensures c.pos == o.pos && c.vel == o.vel && c.damage == 0.0
  {
    NewObject(o.pos, o.vel, 0.0)
  }

  predicate InsideAnyPlanet(planets: seq<Planet>, p: Vec2) {
    IsInsidePlanet(p, ObjectRadius, planets)
  }

  /** Every step the preview takes is defined: `n` steps, or fewer when the
      collision stop ends the preview early. */
  predicate PreviewDefined(planets: seq<Planet>, dt: real, o: GravityObject, n: int, stopOnCollision: bool)
    decreases if n < 0 then 0 else n
  {
    n <= 0 ||
    (CanStep(planets, dt, o) &&
     var next := Step(planets, dt, o);
     (stopOnCollision && InsideAnyPlanet(planets, next.pos)) ||
     PreviewDefined(planets, dt, next, n - 1, stopOnCollision))
  }

  function MaxZero(n: int): nat {
    if n < 0 then 0 else n
  }

  /** Each copy is the previous one after a whole Verlet step (position
      half, then velocity half) against the same planet list. */
  ghost predicate Stepped(planets: seq<Planet>, dt: real, states: seq<GravityObject>) {
    forall i :: 0 <= i < |states| - 1 ==>
      CanStep(planets, dt, states[i]) && states[i + 1] == Step(planets, dt, states[i])
  }

  /** `lines[i]` runs from copy i to copy i + 1. */
  ghost predicate Drawn(states: seq<GravityObject>, lines: seq<Segment>) {
    && |states| == |lines| + 1
    && forall i :: 0 <= i < |lines| ==> lines[i] == Segment(states[i].pos, states[i + 1].pos)
  }

  lemma SteppedExtend(planets: seq<Planet>, dt: real, states: seq<GravityObject>, next: GravityObject)
    requires |states| > 0 && Stepped(planets, dt, states)
    requires CanStep(planets, dt, states[|states| - 1])
    requires next == Step(planets, dt, states[|states| - 1])
    ensures Stepped(planets, dt, states + [next])
  {
  }

  lemma DrawnExtend(states: seq<GravityObject>, lines: seq<Segment>, next: GravityObject)
    requires Drawn(states, lines)
    ensures Drawn(states + [next], lines + [Segment(states[|states| - 1].pos, next.pos)])
  {
  }

  /** Consecutive segments share their end points: the preview is one
      connected polyline starting at the copy's position. */
  lemma DrawnConnected(states: seq<GravityObject>, lines: seq<Segment>)
    requires Drawn(states, lines)
    ensures forall i :: 0 <= i < |lines| - 1 ==> lines[i].end == lines[i + 1].start
    ensures |lines| > 0 ==> lines[0].start == states[0].pos
  {
    forall i | 0 <= i < |lines| - 1
      ensures lines[i].end == lines[i + 1].start
    {
      assert lines[i] == Segment(states[i].pos, states[i + 1].pos);
      assert lines[i + 1] == Segment(states[i + 1].pos, states[i + 2].pos);
    }
    if |lines| > 0 {
      assert lines[0] == Segment(states[0].pos, states[1].pos);
    }
  }

  /** Stepping never changes a projectile's damage. */
  lemma {:induction false} SteppedKeepsDamage(planets: seq<Planet>, dt: real, states: seq<GravityObject>, k: nat)
    requires Stepped(planets, dt, states) && k < |states|
    ensures states[k].damage == states[0].damage
    decreases k
  {
    if k > 0 {
      SteppedKeepsDamage(planets, dt, states, k - 1);
      assert states[k] == Step(planets, dt, states[k - 1]);
    }
  }

  /** One step of the copy, as the loop body performs it */
  method AdvanceCopy(planets: seq<Planet>, dt: real, copy: GravityObject)
      returns (next: GravityObject, line: Segment)
    requires CanStep(planets, dt, copy)
    ensures next == Step(planets, dt, copy)
    ensures next.damage == copy.damage
    ensures line == Segment(copy.pos, next.pos)
  {
    var current := copy.pos;
    next := UpdatePosition(planets, dt, copy);
    next := UpdateVelocity(planets, dt, next);
    line := Segment(current, next.pos);
  }

  /** The loop of drawTrajectoryLine, run on the copy `start`.  `states`
      (ghost) are the successive copies. */
  method PreviewLoop(planets: seq<Planet>, dt: real, start: GravityObject, iterations: int,
                     stopOnCollision: bool)
      returns (lines: seq<Segment>, ghost states: seq<GravityObject>)
    requires PreviewDefined(planets, dt, start, iterations, stopOnCollision)
    ensures |lines| <= MaxZero(iterations)
    ensures !stopOnCollision ==> |lines| == MaxZero(iterations)
    ensures Drawn(states, lines) && states[0] == start
    ensures Stepped(planets, dt, states)
    ensures stopOnCollision ==> forall i :: 0 <= i < |lines| - 1 ==> !InsideAnyPlanet(planets, lines[i].end)
    ensures |lines| < iterations ==>
              stopOnCollision && |lines| > 0 && InsideAnyPlanet(planets, lines[|lines| - 1].end)
  {
    lines := [];
    var copy := start;
    states := [copy];
    var i := 0;
    while i < iterations
      invariant 0 <= i <= MaxZero(iterations)
      invariant |lines| == i && |states| == i + 1
      invariant states[0] == start && states[i] == copy
      invariant Drawn(states, lines) && Stepped(planets, dt, states)
      invariant PreviewDefined(planets, dt, copy, iterations - i, stopOnCollision)
      invariant stopOnCollision ==> forall j :: 0 <= j < i ==> !InsideAnyPlanet(planets, lines[j].end)
    {
      var next, line := AdvanceCopy(planets, dt, copy);
      SteppedExtend(planets, dt, states, next);
      DrawnExtend(states, lines, next);
      lines := lines + [line];
      states := states + [next];
      copy := next;
      i := i + 1;
      if stopOnCollision && InsideAnyPlanet(planets, copy.pos) {
        break;
      }
    }
  }

  /** drawTrajectoryLine: nothing for a missing projectile; otherwise the
      loop above on a zero-damage copy, leaving the projectile itself alone. */
  method DrawTrajectoryLine(obj: Option<GravityObject>, planets: seq<Planet>, iterations: int,
                            dt: real, stopOnCollision: bool)
      returns (lines: seq<Segment>, ghost states: seq<GravityObject>)
    requires obj.Some? ==> PreviewDefined(planets, dt, PreviewCopy(obj.value), iterations, stopOnCollision)
    ensures obj.None? ==> lines == []
    ensures |lines| <= MaxZero(iterations)
    ensures obj.Some? && !stopOnCollision ==> |lines| == MaxZero(iterations)
    ensures obj.Some? ==> Drawn(states, lines) && states[0] == PreviewCopy(obj.value)
    ensures obj.Some? ==> Stepped(planets, dt, states)
    ensures obj.Some? ==> forall i :: 0 <= i < |states| ==> states[i].damage == 0.0
    ensures forall i :: 0 <= i < |lines| - 1 ==> lines[i].end == lines[i + 1].start
    ensures stopOnCollision ==> forall i :: 0 <= i < |lines| - 1 ==> !InsideAnyPlanet(planets, lines[i].end)
    ensures obj.Some? && |lines| < iterations ==>
              stopOnCollision && |lines| > 0 && InsideAnyPlanet(planets, lines[|lines| - 1].end)
  {
    if obj.None? {
      return [], [];
    }
    lines, states := PreviewLoop(planets, dt, PreviewCopy(obj.value), iterations, stopOnCollision);
    DrawnConnected(states, lines);
    forall k | 0 <= k < |states|
      ensures states[k].damage == 0.0
    {
      SteppedKeepsDamage(planets, dt, states, k);
    }
  }
}
