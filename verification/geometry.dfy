/**
 * Plane vectors (Eigen::Vector2d) over exact reals. Every distance threshold
 * of the source, `(a - b).norm() < r`, is decided here on squared lengths so
 * that no square root is needed; `NormBelow` shows the two agree for any
 * Euclidean norm.
 */
module Geometry {

  datatype Vec = Vec(x: real, y: real)

  const Origin: Vec := Vec(0.0, 0.0)

  function Add(a: Vec, b: Vec): Vec { Vec(a.x + b.x, a.y + b.y) }

  function Sub(a: Vec, b: Vec): Vec { Vec(a.x - b.x, a.y - b.y) }

  function Scale(k: real, a: Vec): Vec { Vec(k * a.x, k * a.y) }

  function SqNorm(v: Vec): real { v.x * v.x + v.y * v.y }

  function SqDist(a: Vec, b: Vec): real { (a.x - b.x) * (a.x - b.x) + (a.y - b.y) * (a.y - b.y) }

  /** `(a - b).norm() < r`, for a radius `r >= 0`. */
  predicate Within(a: Vec, b: Vec, r: real) { SqDist(a, b) < r * r }

  /** `(a - b).norm() > r`, for a radius `r >= 0`. */
  predicate Beyond(a: Vec, b: Vec, r: real) { SqDist(a, b) > r * r }

  /** `v.norm() < r`: the vector is shorter than `r >= 0`. */
  predicate Slower(v: Vec, r: real) { SqNorm(v) < r * r }

  function Abs(x: real): real { if x < 0.0 then -x else x }

  /**
   * `std::copysign(mag, sgn)`: the magnitude of `mag` with the sign of `sgn`.
   * Reals have no negative zero, so `sgn == 0` counts as positive.
   */
  function CopySign(mag: real, sgn: real): (r: real)
    ensures Abs(r) == Abs(mag)
    ensures sgn < 0.0 ==> r <= 0.0
    ensures 0.0 <= sgn ==> 0.0 <= r
  {
    if sgn < 0.0 then -Abs(mag) else Abs(mag)
  }

  /** `norm` is the Euclidean length: non-negative, and its square is `SqNorm`. */
  ghost predicate IsEuclidean(norm: Vec -> real) {
    forall v :: 0.0 <= norm(v) && norm(v) * norm(v) == SqNorm(v)
  }

  /** Squaring keeps the order of non-negative reals. */
  lemma SquareMonotone(a: real, b: real)
    requires 0.0 <= a && 0.0 <= b
    ensures a < b <==> a * a < b * b
  {
    if a < b {
      calc {
        a * a;
      <= { assert a * (b - a) >= 0.0; }
        a * b;
      < { assert b * (b - a) > 0.0; }
        b * b;
      }
    } else {
      calc {
        b * b;
      <= { assert b * (a - b) >= 0.0; }
        b * a;
      <= { assert a * (a - b) >= 0.0; }
        a * a;
      }
    }
  }

  /** A squared comparison decides the same thing as the source's `norm()` comparison. */
  lemma NormBelow(norm: Vec -> real, a: Vec, b: Vec, r: real)
    requires IsEuclidean(norm)
    requires 0.0 <= r
    ensures norm(Sub(a, b)) < r <==> Within(a, b, r)
    ensures norm(Sub(a, b)) > r <==> Beyond(a, b, r)
  {
    var d := norm(Sub(a, b));
    assert 0.0 <= d && d * d == SqDist(a, b);
    SquareMonotone(d, r);
    SquareMonotone(r, d);
  }

  /** A Euclidean norm vanishes exactly on the zero vector. */
  lemma NormZero(norm: Vec -> real, v: Vec)
    requires IsEuclidean(norm)
    ensures norm(v) == 0.0 <==> v == Origin
  {
    var d := norm(v);
    assert 0.0 <= d && d * d == SqNorm(v);
    SquareMonotone(0.0, d);
    if v != Origin {
      assert 0.0 <= v.x * v.x && 0.0 <= v.y * v.y;
      if v.x != 0.0 {
        SquareMonotone(0.0, Abs(v.x));
        assert Abs(v.x) * Abs(v.x) == v.x * v.x;
      } else {
        SquareMonotone(0.0, Abs(v.y));
        assert Abs(v.y) * Abs(v.y) == v.y * v.y;
      }
      assert 0.0 < SqNorm(v);
    }
  }
}

/**
 * The world snapshot the tactics read: the field dimensions and the robots
 * seen by vision. A `robots_list` is a map from id to robot; its iteration
 * order is the order of the sequence here.
 */
module World {
  import opened Geometry
  import opened Optional

  datatype Field = Field(
    xMin: real, xMax: real, yMax: real, width: real,
    penaltyLength: real, penaltyWidth: real)

  datatype Robot = Robot(id: nat, pos: Vec, theta: real)

  /** `robots.at(id)` / `robots.find(id)`: the robot with that id, if vision sees it. */
  function Find(robots: seq<Robot>, id: nat): (r: Option<Robot>)
    ensures r.Some? ==> r.value in robots && r.value.id == id
    ensures r.None? <==> forall i :: 0 <= i < |robots| ==> robots[i].id != id
  {
    if robots == [] then None
    else if robots[0].id == id then Some(robots[0])
    else Find(robots[1..], id)
  }

  predicate Visible(robots: seq<Robot>, id: nat) { Find(robots, id).Some? }

  /** How a command asks the robot to kick. */
  datatype KickType = NoKick | Line | Chip

  datatype KickFlag = KickFlag(kind: KickType, power: real)

  const NoKickFlag: KickFlag := KickFlag(NoKick, 0.0)
}
