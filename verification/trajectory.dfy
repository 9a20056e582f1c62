/** The chunked trajectory buffer of `Body` (2-bodyPhysic.py): an N x 2 array
    of positions that grows by a block of zero rows whenever the frame index
    is a multiple of 100, and into which frame i writes exactly row i + 1.
    The functions here are the value-level specification of one frame's
    effect on the rows; `AppendZeroRows` is the copying append itself. */
module Trajectory {
  import opened Gravity

  /** Frames that start a new chunk: every hundredth one, frame 0 included. */
  const CHUNK: nat := 100

  /** Number of zero rows frame i appends before its write. */
  function GrowthRows(i: nat): nat {
    if i % CHUNK == 0 then (i + 1) * CHUNK else 0
  }

  function Zeros(n: nat): seq<Vec> {
    seq(n, _ => ZERO)
  }

  /** The buffer after the growth step of frame i. */
  function Grow(rows: seq<Vec>, i: nat): (g: seq<Vec>)
    ensures i % CHUNK == 0 ==> |g| == |rows| + (i + 1) * CHUNK
    ensures i % CHUNK != 0 ==> g == rows
    ensures g[..|rows|] == rows
    ensures forall k :: |rows| <= k < |g| ==> g[k] == ZERO
  {
    rows + Zeros(GrowthRows(i))
  }

  /** The buffer after frame i: grown, then row i + 1 set to `next`. Only
      that row differs from the grown buffer; every earlier row keeps its
      value and every other appended row is zero. */
  function StepRows(rows: seq<Vec>, i: nat, next: Vec): (r: seq<Vec>)
    requires i + 1 < |Grow(rows, i)|
    ensures |r| == |rows| + GrowthRows(i)
    ensures r[i + 1] == next
    ensures forall k :: 0 <= k < |rows| && k != i + 1 ==> r[k] == rows[k]
    ensures forall k :: |rows| <= k < |r| && k != i + 1 ==> r[k] == ZERO
  {
    Grow(rows, i)[i + 1 := next]
  }

  /** Buffer length after the frames 0, 1, ..., n - 1 have been applied in
      order to the one-row buffer built by the constructor. */
  ghost function LengthAfter(n: nat): nat {
    if n == 0 then 1 else LengthAfter(n - 1) + GrowthRows(n - 1)
  }

  /** The chunk grown at frame 100 m reaches past the end of that chunk of
      frames: after frame n the buffer holds at least 100 * (n / 100) + 101 rows. */
  lemma {:induction false} ChunkCovers(n: nat)
    ensures LengthAfter(n + 1) >= CHUNK * (n / CHUNK) + CHUNK + 1
  {
    if n == 0 {
      assert LengthAfter(1) == 1 + CHUNK;
    } else if n % CHUNK == 0 {
      assert LengthAfter(n + 1) == LengthAfter(n) + (n + 1) * CHUNK;
      assert CHUNK * (n / CHUNK) == n;
    } else {
      ChunkCovers(n - 1);
      assert (n - 1) / CHUNK == n / CHUNK;
    }
  }

  /** Bounds invariant: when frames arrive in order, the row that frame n
      writes, n + 1, lies inside the buffer once frame n's growth is done. */
  lemma {:induction false} NextWriteInBounds(n: nat)
    ensures n + 1 < LengthAfter(n) + GrowthRows(n)
  {
    ChunkCovers(n);
    assert n % CHUNK < CHUNK;
  }

  /** The buffer as it stands after n in-order frames: its length is
      LengthAfter(n), row n is the latest sample and every row after it is
      still zero padding. */
  ghost predicate Settled(rows: seq<Vec>, n: nat) {
    |rows| == LengthAfter(n) && n < |rows| &&
    forall k :: n < k < |rows| ==> rows[k] == ZERO
  }

  lemma SeedSettled(seed: Vec)
    ensures Settled([seed], 0)
  {
  }

  /** An in-order frame n on a settled buffer stays in bounds, keeps the
      buffer settled for n + 1, and appends exactly one sample to the
      samples recorded so far: rows 0..n are untouched and row n + 1 is the
      new position. */
  lemma {:induction false} InOrderStep(rows: seq<Vec>, n: nat, next: Vec)
    requires Settled(rows, n)
    ensures n + 1 < |Grow(rows, n)|
    ensures Settled(StepRows(rows, n, next), n + 1)
    ensures StepRows(rows, n, next)[..n + 2] == rows[..n + 1] + [next]
  {
    NextWriteInBounds(n);
    var r := StepRows(rows, n, next);
    forall k | n + 1 < k < |r|
      ensures r[k] == ZERO
    {
      if k < |rows| {
        assert r[k] == rows[k];
      }
    }
    assert r[..n + 2] == rows[..n + 1] + [next];
  }

  /** The numpy append of line 44: a new array holding the old rows followed
      by n zero rows. */
  method AppendZeroRows(rows: array<Vec>, n: nat) returns (grown: array<Vec>)
    ensures fresh(grown)
    ensures grown[..] == rows[..] + Zeros(n)
  {
    grown := new Vec[rows.Length + n](_ => ZERO);
    var k := 0;
    while k < rows.Length
      invariant 0 <= k <= rows.Length
      invariant forall j :: 0 <= j < k ==> grown[j] == rows[j]
      invariant forall j :: rows.Length <= j < grown.Length ==> grown[j] == ZERO
    {
      grown[k] := rows[k];
      k := k + 1;
    }
  }

  /** The renderer's x data: the buffer's first column, index-aligned with it. */
  function Xs(rows: seq<Vec>): (xs: seq<real>)
    ensures |xs| == |rows|
    ensures forall k :: 0 <= k < |rows| ==> xs[k] == rows[k].x
  {
    seq(|rows|, k requires 0 <= k < |rows| => rows[k].x)
  }

  /** The renderer's y data: the buffer's second column, index-aligned with it. */
  function Ys(rows: seq<Vec>): (ys: seq<real>)
    ensures |ys| == |rows|
    ensures forall k :: 0 <= k < |rows| ==> ys[k] == rows[k].y
  {
    seq(|rows|, k requires 0 <= k < |rows| => rows[k].y)
  }
}
