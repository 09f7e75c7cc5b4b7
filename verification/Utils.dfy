/** The two helpers of utils.js: the point-in-planet test and the ID counter. */
module Utils {
  import opened Vectors
  import opened Entities

  /** Circle overlap as the source tests it, "distance between the centres
      is below the sum of the radii", written with squared distances: see
      `OverlapMatchesDistance` for why the two agree. */
  predicate Overlaps(planet: Planet, pos: Vec2, radius: real) {
    var reach := planet.radius + radius;
    reach > 0.0 && DistSq(pos, planet.center) < reach * reach
  }

  /** For any non-negative `d` whose square is the squared centre distance
      (that is, `d` is the distance), the squared test agrees with the
      source's `distance < planet.radius + radius`, whatever the radii's signs. */
  lemma OverlapMatchesDistance(planet: Planet, pos: Vec2, radius: real, d: real)
    requires d >= 0.0 && d * d == DistSq(pos, planet.center)
    ensures Overlaps(planet, pos, radius) <==> d < planet.radius + radius
  {
    SquaredComparison(d, planet.radius + radius);
  }

  /** Touching circles do not overlap: the comparison is strict. */
  lemma TouchingIsNotInside(planet: Planet, pos: Vec2, radius: real)
    requires DistSq(pos, planet.center) == (planet.radius + radius) * (planet.radius + radius)
    ensures !Overlaps(planet, pos, radius)
  {
  }

  /** isInsidePlanet: scans the planets in order and answers true at the
      first one the object overlaps. */
  function IsInsidePlanet(pos: Vec2, radius: real, planets: seq<Planet>): (inside: bool)
    ensures inside <==> exists i :: 0 <= i < |planets| && Overlaps(planets[i], pos, radius)
    ensures |planets| == 0 ==> !inside
    decreases |planets|
  {
    if |planets| == 0 then false
    else if Overlaps(planets[0], pos, radius) then true
    else
      var rest := IsInsidePlanet(pos, radius, planets[1..]);
      assert forall i :: 1 <= i < |planets| ==> planets[i] == planets[1..][i - 1];
      rest
  }

  /** Adding planets can only turn "outside" into "inside": if every planet of
      `small` is also in `large`, an object inside some planet of `small` is
      inside some planet of `large`. */
  lemma InsideMonotone(pos: Vec2, radius: real, small: seq<Planet>, large: seq<Planet>)
    requires forall i :: 0 <= i < |small| ==> small[i] in large
    ensures IsInsidePlanet(pos, radius, small) ==> IsInsidePlanet(pos, radius, large)
  {
    if IsInsidePlanet(pos, radius, small) {
      var i :| 0 <= i < |small| && Overlaps(small[i], pos, radius);
      var j :| 0 <= j < |large| && large[j] == small[i];
    }
  }

  /** Appending one planet adds exactly that planet's test to the answer. */
  lemma InsideAppend(pos: Vec2, radius: real, planets: seq<Planet>, extra: Planet)
    ensures IsInsidePlanet(pos, radius, planets + [extra])
        <==> IsInsidePlanet(pos, radius, planets) || Overlaps(extra, pos, radius)
  {
    var all := planets + [extra];
    assert all[|planets|] == extra;
    assert forall i :: 0 <= i < |planets| ==> all[i] == planets[i];
  }

  // ---------------------------------------------------------------- IDs

  /** The counter getUniqueID keeps on itself; 0 stands for "not yet set". */
  datatype IdCounter = IdCounter(lastNum: nat)

  const FreshCounter: IdCounter := IdCounter(0)

  function DigitChar(d: nat): char
    requires d < 10
  {
    "0123456789"[d]
  }

  predicate IsDigit(c: char) {
    '0' <= c <= '9'
  }

  predicate AllDigits(s: string) {
    forall i :: 0 <= i < |s| ==> IsDigit(s[i])
  }

  function DigitValue(c: char): nat
    requires IsDigit(c)
  {
    (c - '0') as nat
  }

  /** JavaScript's decimal rendering of a non-negative integer: no leading zero */
  function Decimal(n: nat): (s: string)
    ensures |s| >= 1 && AllDigits(s)
    ensures n > 0 ==> s[0] != '0'
    decreases n
  {
    if n < 10 then [DigitChar(n)] else Decimal(n / 10) + [DigitChar(n % 10)]
  }

  /** Reads a string of decimal digits back as a number */
  function ParseDecimal(s: string): nat
    requires AllDigits(s)
    decreases |s|
  {
    if |s| == 0 then 0
    else ParseDecimal(s[..|s| - 1]) * 10 + DigitValue(s[|s| - 1])
  }

  lemma {:induction false} DecimalRoundTrip(n: nat)
    ensures ParseDecimal(Decimal(n)) == n
    decreases n
  {
    var s := Decimal(n);
    if n < 10 {
      assert s[..0] == [];
    } else {
      DecimalRoundTrip(n / 10);
      assert s[..|s| - 1] == Decimal(n / 10);
    }
  }

  lemma DecimalInjective(m: nat, n: nat)
    requires Decimal(m) == Decimal(n)
    ensures m == n
  {
    DecimalRoundTrip(m);
    DecimalRoundTrip(n);
  }

  /** getUniqueID(prefix): bump the counter, answer prefix + counter */
  function GetUniqueId(counter: IdCounter, prefix: string): (r: (IdCounter, string))
    ensures r.0.lastNum == counter.lastNum + 1
    ensures |r.1| > |prefix| && r.1[..|prefix|] == prefix
    ensures AllDigits(r.1[|prefix|..]) && ParseDecimal(r.1[|prefix|..]) == r.0.lastNum
  {
    var next := counter.lastNum + 1;
    var id := prefix + Decimal(next);
    DecimalRoundTrip(next);
    assert id[|prefix|..] == Decimal(next);
    (IdCounter(next), id)
  }

  /** The first call ever made answers prefix followed by "1". */
  lemma FirstIdIsOne(prefix: string)
    ensures GetUniqueId(FreshCounter, prefix).1 == prefix + "1"
  {
  }

  /** Successive calls, one per entry of `prefixes`, all sharing the single
      counter, with the counter they leave */
  function Calls(counter: IdCounter, prefixes: seq<string>): (r: (IdCounter, seq<string>))
    ensures r.0.lastNum == counter.lastNum + |prefixes|
    ensures |r.1| == |prefixes|
    decreases |prefixes|
  {
    if |prefixes| == 0 then (counter, [])
    else
      var (next, id) := GetUniqueId(counter, prefixes[0]);
      var (last, ids) := Calls(next, prefixes[1..]);
      (last, [id] + ids)
  }

  /** The i-th call answers its own prefix followed by the counter it reached */
  lemma {:induction false} CallsSpell(counter: IdCounter, prefixes: seq<string>, i: nat)
    requires i < |prefixes|
    ensures Calls(counter, prefixes).1[i] == prefixes[i] + Decimal(counter.lastNum + i + 1)
    decreases |prefixes|
  {
    if i > 0 {
      var next := GetUniqueId(counter, prefixes[0]).0;
      CallsSpell(next, prefixes[1..], i - 1);
    }
  }

  /** No two calls with the same prefix ever return the same ID, whatever
      calls with other prefixes happen in between. */
  lemma IdsNeverRepeat(counter: IdCounter, prefixes: seq<string>, i: nat, j: nat)
    requires i < j < |prefixes| && prefixes[i] == prefixes[j]
    ensures Calls(counter, prefixes).1[i] != Calls(counter, prefixes).1[j]
  {
    var ki, kj := counter.lastNum + i + 1, counter.lastNum + j + 1;
    CallsSpell(counter, prefixes, i);
    CallsSpell(counter, prefixes, j);
    DistinctPrefixedDecimals(prefixes[i], ki, kj);
  }

  /** Different prefixes are not kept apart: "a1" at the first call and "a"
      at the eleventh both answer "a11". */
  lemma PrefixesCanCollide()
    ensures GetUniqueId(IdCounter(0), "a1").1 == GetUniqueId(IdCounter(10), "a").1 == "a11"
  {
    assert Decimal(1) == "1";
    assert Decimal(11) == Decimal(1) + "1";
  }

  lemma DistinctPrefixedDecimals(prefix: string, m: nat, n: nat)
    requires m != n
    ensures prefix + Decimal(m) != prefix + Decimal(n)
  {
    if prefix + Decimal(m) == prefix + Decimal(n) {
      PrefixedDecimalInjective(prefix, m, n);
    }
  }

  lemma PrefixedDecimalInjective(prefix: string, m: nat, n: nat)
    requires prefix + Decimal(m) == prefix + Decimal(n)
    ensures m == n
  {
    assert (prefix + Decimal(m))[|prefix|..] == Decimal(m);
    assert (prefix + Decimal(n))[|prefix|..] == Decimal(n);
    DecimalInjective(m, n);
  }
}
