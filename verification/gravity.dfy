/** Planar vectors, the inverse-square force law and the leapfrog velocity kick
    used by the per-frame update of `Body` (2-bodyPhysic.py). Values are Dafny
    reals: the model checks the structure of the update, not floating point. */
module Gravity {

  /** A 2-vector: one row of the position buffer, a velocity or an acceleration. */
  datatype Vec = Vec(x: real, y: real)

  const ZERO: Vec := Vec(0.0, 0.0)

  function Add(p: Vec, q: Vec): Vec {
    Vec(p.x + q.x, p.y + q.y)
  }

  function Scale(k: real, p: Vec): Vec {
    Vec(k * p.x, k * p.y)
  }

  function Neg(p: Vec): Vec {
    Vec(-p.x, -p.y)
  }

  function Dot(p: Vec, q: Vec): real {
    p.x * q.x + p.y * q.y
  }

  /** z-component of the cross product; zero exactly when p and q are parallel. */
  function Cross(p: Vec, q: Vec): real {
    p.x * q.y - p.y * q.x
  }

  function Cube(r: real): real {
    r * r * r
  }

  lemma CubePositive(r: real)
    requires r > 0.0
    ensures Cube(r) > 0.0
  {
  }

  /** The vector norm is a call into the numerics library (`np.linalg.norm`),
      so the model takes it as a parameter. This predicate says what a
      Euclidean norm is without defining a square root: it is non-negative
      and its square is the squared length. */
  ghost predicate IsEuclidean(norm: Vec -> real) {
    forall p: Vec :: norm(p) >= 0.0 && norm(p) * norm(p) == Dot(p, p)
  }

  /** Inverse-square attraction toward the origin with unit gravitational
      parameter: a = -p / r^3 where r is the norm of p. Multiplying the
      result back by r^3 recovers -p. */
  function Accel(norm: Vec -> real, p: Vec): (a: Vec)
    requires norm(p) > 0.0
    ensures Scale(Cube(norm(p)), a) == Neg(p)
  {
    var r := norm(p);
    assert Cube(r) > 0.0;
    Scale(-1.0 / Cube(r), p)
  }

  /** The acceleration is parallel to the position and each of its
      components points against the matching component of the position:
      toward the centre on both axes, and zero on an axis where the
      position is zero. Away from the origin it is never zero. */
  lemma AccelOpposesPosition(norm: Vec -> real, p: Vec)
    requires norm(p) > 0.0
    ensures Cross(Accel(norm, p), p) == 0.0
    ensures p.x > 0.0 ==> Accel(norm, p).x < 0.0
    ensures p.x < 0.0 ==> Accel(norm, p).x > 0.0
    ensures p.x == 0.0 ==> Accel(norm, p).x == 0.0
    ensures p.y > 0.0 ==> Accel(norm, p).y < 0.0
    ensures p.y < 0.0 ==> Accel(norm, p).y > 0.0
    ensures p.y == 0.0 ==> Accel(norm, p).y == 0.0
    ensures p != ZERO ==> Accel(norm, p) != ZERO
  {
  }

  /** For a Euclidean norm the force law has magnitude 1/r^2, stated without
      square roots as |a|^2 * r^4 == 1. */
  lemma AccelMagnitude(norm: Vec -> real, p: Vec)
    requires IsEuclidean(norm)
    requires norm(p) > 0.0
    ensures Dot(Accel(norm, p), Accel(norm, p)) * (norm(p) * norm(p) * norm(p) * norm(p)) == 1.0
  {
    var r := norm(p);
    var c := Cube(r);
    assert c > 0.0;
    var k := -1.0 / c;
    assert k * c == -1.0;
    var a := Accel(norm, p);
    assert a == Vec(k * p.x, k * p.y);
    var d := Dot(p, p);
    assert d == r * r;
    calc {
      Dot(a, a) * (r * r * r * r);
      ((k * p.x) * (k * p.x) + (k * p.y) * (k * p.y)) * (r * r * r * r);
      (k * k * d) * (r * r * r * r);
      (k * k) * (r * r) * (r * r * r * r);
      (k * c) * (k * c);
      1.0;
    }
  }

  /** The velocity kick of frame i: a half kick dt/2 * a on frame 0, which
      sets up the leapfrog offset, and a full kick dt * a on every other frame. */
  function Kick(i: nat, dt: real, v: Vec, a: Vec): Vec {
    if i == 0 then Add(v, Scale(dt / 2.0, a)) else Add(v, Scale(dt, a))
  }

  /** The half kick is selected by the frame index alone: with a non-zero
      step and a non-zero acceleration, the kick is the half kick exactly on
      frame 0 and the full kick exactly on every other frame. */
  lemma HalfKickOnlyAtZero(i: nat, dt: real, v: Vec, a: Vec)
    requires dt != 0.0 && a != ZERO
    ensures Kick(i, dt, v, a) == Add(v, Scale(dt / 2.0, a)) <==> i == 0
    ensures Kick(i, dt, v, a) == Add(v, Scale(dt, a)) <==> i != 0
  {
  }
}
