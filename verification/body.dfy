/** The orbiting body of 2-bodyPhysic.py: a point mass attracted to the
    origin, advanced one animation frame per call by a leapfrog step, whose
    visited positions are kept in a chunked N x 2 buffer that the renderer
    reads as an x column and a y column. */
module TwoBody {
  import opened Gravity
  import opened Trajectory

  class Body {
    /** Position buffer: row 0 is the initial position, row i + 1 is written by frame i. */
    var pos: array<Vec>
    var v: Vec
    var a: Vec
    /** Norm of the row written last. */
    var r: real
    const dt: real
    /** The vector norm used by the force law (`np.linalg.norm`). */
    const norm: Vec -> real
    /** Index of the row written last: 0 after construction, i + 1 after frame i. */
    ghost var latest: nat

    /** The acceleration and r always come from the row written last by the
        force law; they are never carried forward. */
    ghost predicate Valid()
      reads this, pos
    {
      latest < pos.Length &&
      r == norm(pos[latest]) && r > 0.0 &&
      a == Accel(norm, pos[latest])
    }

    /** The frames so far were 0, 1, ..., latest - 1, in order. */
    ghost predicate InOrder()
      reads this, pos
    {
      Settled(pos[..], latest)
    }

    /** The one-row buffer holding the initial position, with the force law
        evaluated once at that position. */
    constructor (initialPos: Vec, initialV: Vec, dt: real, norm: Vec -> real)
      requires dt > 0.0
      requires norm(initialPos) > 0.0
      ensures Valid() && InOrder() && fresh(pos)
      ensures pos[..] == [initialPos] && latest == 0
      ensures v == initialV && this.dt == dt && this.norm == norm
      ensures r == norm(initialPos) && a == Accel(norm, initialPos)
    {
      var r0 := norm(initialPos);
      pos := new Vec[1](_ => initialPos);
      v := initialV;
      r := r0;
      a := Scale(-1.0 / Cube(r0), initialPos);
      this.dt := dt;
      this.norm := norm;
      latest := 0;
      new;
      assert pos[..] == [initialPos];
      SeedSettled(initialPos);
    }

    /** The line data handed to the renderer before the first frame: the
        x column and the y column of the whole buffer. */
    method Init() returns (xs: seq<real>, ys: seq<real>)
      ensures |xs| == pos.Length && |ys| == pos.Length
      ensures forall k :: 0 <= k < pos.Length ==> xs[k] == pos[k].x && ys[k] == pos[k].y
    {
      xs, ys := Xs(pos[..]), Ys(pos[..]);
    }

    /** The position frame i writes: row i of the grown buffer drifted by
        dt times the velocity after frame i's kick. */
    function NextPosition(i: nat): Vec
      reads this, pos
      requires i + 1 < pos.Length + GrowthRows(i)
    {
      Add(Grow(pos[..], i)[i], Scale(dt, Kick(i, dt, v, a)))
    }

    /** Velocity kick of frame i (lines 39-42): half a step on frame 0, a
        full step on every other frame. */
    method KickVelocity(i: nat)
      modifies this`v
      ensures v == Kick(i, dt, old(v), a)
    {
      if i == 0 {
        v := Add(v, Scale(dt / 2.0, a));
      } else {
        v := Add(v, Scale(dt, a));
      }
    }

    /** Growth step of frame i (lines 43-44): on every hundredth frame the
        buffer is replaced by a copy followed by (i + 1) * 100 zero rows. */
    method GrowFor(i: nat)
      modifies this`pos
      ensures pos[..] == Grow(old(pos[..]), i)
      ensures GrowthRows(i) == 0 ==> pos == old(pos)
      ensures GrowthRows(i) > 0 ==> fresh(pos)
    {
      if i % CHUNK == 0 {
        pos := AppendZeroRows(pos, (i + 1) * CHUNK);
      }
    }

    /** Force recomputation after row j is written (lines 48-50): r is the
        norm of that row and a the force law there, making the object valid
        with row j as the latest sample. */
    method RecomputeForce(j: nat)
      requires j < pos.Length && norm(pos[j]) > 0.0
      modifies this`r, this`a, this`latest
      ensures Valid() && latest == j
      ensures r == norm(pos[j]) && a == Accel(norm, pos[j])
    {
      r := norm(pos[j]);
      CubePositive(r);
      a := Scale(-1.0 / Cube(r), pos[j]);
      latest := j;
    }

    /** One animation frame: kick the velocity (half kick on frame 0), grow
        the buffer by a zero block on every hundredth frame, write row i + 1,
        recompute the acceleration there, and return the new line data. */
    method Step(i: nat) returns (xs: seq<real>, ys: seq<real>)
      requires Valid()
      requires i + 1 < pos.Length + GrowthRows(i)
      requires norm(NextPosition(i)) > 0.0
      modifies this, pos
      ensures Valid() && latest == i + 1
      ensures v == Kick(i, dt, old(v), old(a))
      ensures pos[..] == StepRows(old(pos[..]), i, old(NextPosition(i)))
      ensures r == norm(pos[i + 1]) && a == Accel(norm, pos[i + 1])
      ensures GrowthRows(i) == 0 ==> pos == old(pos)
      ensures GrowthRows(i) > 0 ==> fresh(pos)
      ensures old(InOrder()) && i == old(latest) ==>
                InOrder() && pos[..i + 2] == old(pos[..i + 1]) + [pos[i + 1]]
      ensures |xs| == pos.Length && |ys| == pos.Length
      ensures forall k :: 0 <= k < pos.Length ==> xs[k] == pos[k].x && ys[k] == pos[k].y
    {
      ghost var rows0 := pos[..];
      ghost var next := NextPosition(i);
      ghost var wasInOrder := InOrder() && i == latest;
      KickVelocity(i);
      GrowFor(i);
      pos[i + 1] := Add(pos[i], Scale(dt, v));
      assert pos[..] == Grow(rows0, i)[i + 1 := next];
      RecomputeForce(i + 1);
      if wasInOrder {
        InOrderStep(rows0, i, next);
      }
      xs, ys := Xs(pos[..]), Ys(pos[..]);
    }
  }

  /** The seed of the shipped configuration (position (0.5, 0), velocity
      (0, 1.63), dt = 0.1): before any frame the line data is the single
      point (0.5, 0). */
  method SeedLineData(norm: Vec -> real) returns (xs: seq<real>, ys: seq<real>)
    requires norm(Vec(0.5, 0.0)) > 0.0
    ensures xs == [0.5] && ys == [0.0]
  {
    var body := new Body(Vec(0.5, 0.0), Vec(0.0, 1.63), 0.1, norm);
    xs, ys := body.Init();
  }
}
