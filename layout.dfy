/** The link markers drawn between a chained enemy and its `prev`
    (main.rs `draw_chains`, main.rs:868-922), for one pair of endpoints.
    Distances and positions are modelled as reals. */
module LinkLayout {

  datatype Vec3 = Vec3(x: real, y: real, z: real)

  /** One chain sprite: where it is drawn and its uniform scale. */
  datatype Marker = Marker(pos: Vec3, scale: real)

  /** `CHAIN_SIZE` (main.rs:875). */
  const ChainSize: real := 12.0

  /** The largest `u32`. */
  const MaxU32: int := 0xFFFF_FFFF

  /** `(distance / CHAIN_SIZE) as u32`: a float-to-integer cast truncates
      toward zero and saturates at both ends of the `u32` range. */
  function Steps(d: real): (n: nat)
    ensures n <= MaxU32
    ensures 0.0 <= d / ChainSize < (MaxU32 as real) ==> n == (d / ChainSize).Floor
  {
    var raw := d / ChainSize;
    if raw < 0.0 then 0
    else if raw.Floor > MaxU32 then MaxU32
    else raw.Floor
  }

  /** Whether the short-link case applies (main.rs:890). */
  predicate Forced(d: real)
  {
    Steps(d) <= 4
  }

  /** The divisor used for the fractions: 6 in the short-link case. */
  function MarkerCount(d: real): (count: nat)
    ensures count >= 5
  {
    if Forced(d) then 6 else Steps(d)
  }

  /** The fractional part left over by the cast, `temp - distance as f32`,
      computed before the short-link case replaces the count. */
  function Remainder(d: real): (r: real)
    ensures 0.0 <= d / ChainSize < MaxU32 as real ==> 0.0 <= r < 1.0
  {
    d / ChainSize - Steps(d) as real
  }

  /** The scale of every marker of the pair (main.rs:898-903). */
  function MarkerScale(d: real): (s: real)
    ensures Remainder(d) >= 0.0 ==> s >= if Forced(d) then 0.8 else 1.0
  {
    (if Forced(d) then 0.8 else 1.0) * (Remainder(d) / MarkerCount(d) as real + 1.0)
  }

  /** `Vec3::lerp`. */
  function Lerp(a: Vec3, b: Vec3, t: real): (r: Vec3)
    ensures t == 0.0 ==> r == a
    ensures t == 1.0 ==> r == b
  {
    Vec3(a.x + (b.x - a.x) * t, a.y + (b.y - a.y) * t, a.z + (b.z - a.z) * t)
  }

  /** The lerp fraction of the `i`-th marker, `i / count`. */
  function Fraction(i: nat, count: nat): real
    requires count > 0
  {
    i as real / count as real
  }

  /** The marker for loop index `i`: on the segment at fraction
      `i / count`, lifted to `z = 1`. */
  function MarkerAt(a: Vec3, b: Vec3, d: real, i: nat): (r: Marker)
    ensures r.pos.z == 1.0 && r.scale == MarkerScale(d)
    ensures i == 0 ==> r.pos.x == a.x && r.pos.y == a.y
    ensures i == MarkerCount(d) ==> r.pos.x == b.x && r.pos.y == b.y
  {
    var q := Lerp(a, b, Fraction(i, MarkerCount(d)));
    Marker(Vec3(q.x, q.y, 1.0), MarkerScale(d))
  }

  /** The markers drawn for one chained pair whose endpoints are `a` and
      `b` at distance `d` (main.rs:886-920). */
  method LinkMarkers(a: Vec3, b: Vec3, d: real) returns (markers: seq<Marker>)
    ensures |markers| == MarkerCount(d) - 1
    ensures forall i :: 0 <= i < |markers| ==> markers[i] == MarkerAt(a, b, d, i + 1)
  {
    var temp := d / ChainSize;
    var count := Steps(d);
    var remainder := temp - count as real;
    var flag := false;
    if count <= 4 {
      flag := true;
      count := 6;
    }
    markers := [];
    var chain := 1;
    while chain < count
      invariant 1 <= chain <= count
      invariant count == MarkerCount(d) && flag == Forced(d)
      invariant |markers| == chain - 1
      invariant forall i :: 0 <= i < |markers| ==> markers[i] == MarkerAt(a, b, d, i + 1)
    {
      var q := Lerp(a, b, chain as real / count as real);
      var pos := Vec3(q.x, q.y, 1.0);
      var t := if flag then 0.8 else 1.0;
      var size := t * (remainder / count as real + 1.0);
      markers := markers + [Marker(pos, size)];
      chain := chain + 1;
    }
  }

  /** The markers sit at strictly increasing fractions, all strictly
      between the two endpoints. */
  lemma FractionsIncreasing(d: real, i: nat, j: nat)
    requires 1 <= i < j < MarkerCount(d)
    ensures 0.0 < Fraction(i, MarkerCount(d)) < Fraction(j, MarkerCount(d)) < 1.0
  {
    FractionsBetween(MarkerCount(d), i, j);
  }

  lemma FractionsBetween(count: nat, i: nat, j: nat)
    requires 1 <= i < j < count
    ensures 0.0 < Fraction(i, count) < Fraction(j, count) < 1.0
  {
    var c := count as real;
    DivLess(i as real, j as real, c);
    DivLess(j as real, c, c);
  }

  lemma DivLess(x: real, y: real, c: real)
    requires 0.0 < x < y && c > 0.0
    ensures 0.0 < x / c < y / c
  {
    assert y / c - x / c == (y - x) / c;
  }

  /** For every distance the cast can represent, the remainder is the
      fractional part of `d / 12`, so the scale lies in
      `[base, base * (1 + 1/count))`. */
  lemma ScaleBounds(d: real)
    requires 0.0 <= d / ChainSize < MaxU32 as real
    ensures 0.0 <= Remainder(d) < 1.0
    ensures Forced(d) ==> 0.8 <= MarkerScale(d) < 0.8 * (1.0 + 1.0 / 6.0)
    ensures !Forced(d) ==> 1.0 <= MarkerScale(d) < 1.0 + 1.0 / MarkerCount(d) as real
  {
    var c := MarkerCount(d) as real;
    var r := Remainder(d);
    assert 0.0 <= r / c < 1.0 / c by {
      assert 1.0 / c - r / c == (1.0 - r) / c;
      assert r / c == r * (1.0 / c);
    }
  }

  /** `d = 100`: `100 / 12` truncates to 8, so seven markers are drawn at
      eighths, with remainder 1/3 and scale `1 + 1/24`. */
  lemma LongLinkExample()
    ensures Steps(100.0) == 8 && MarkerCount(100.0) == 8 && !Forced(100.0)
    ensures Remainder(100.0) == 1.0 / 3.0
    ensures MarkerScale(100.0) == 1.0 + 1.0 / 24.0
  {
    assert 100.0 / ChainSize == 8.0 + 1.0 / 3.0;
  }

  /** `d = 20`: `20 / 12` truncates to 1, so the short-link case draws five
      markers at sixths, scaled by `0.8 * (1 + (2/3)/6) = 8/9`. */
  lemma ShortLinkExample()
    ensures Steps(20.0) == 1 && MarkerCount(20.0) == 6 && Forced(20.0)
    ensures Remainder(20.0) == 2.0 / 3.0
    ensures MarkerScale(20.0) == 8.0 / 9.0
  {
    assert 20.0 / ChainSize == 1.0 + 2.0 / 3.0;
  }
}
