# Two-body orbit step

A Dafny model of the per-frame update of class `Body` in `2-bodyPhysic.py`:
a point mass orbiting a fixed, infinitely heavy centre at the origin under
an inverse-square force with unit gravitational parameter. Each animation
frame `i` the body

1. kicks its velocity by `dt/2 * a` on frame 0 and by `dt * a` on every other frame,
2. on every hundredth frame grows its N x 2 position buffer by `(i + 1) * 100` zero rows,
3. writes row `i + 1` of the buffer as row `i` plus `dt` times the kicked velocity,
4. recomputes `r` and `a = -p / r^3` from that new row,
5. hands the renderer the buffer's x column and y column, zero padding included.

The project has three modules:

- `Gravity` (`gravity.dfy`): 2-vectors over `real`, the force law `Accel`, the kick rule `Kick`, and lemmas about them.
- `Trajectory` (`trajectory.dfy`): the chunked buffer as values. `Grow` and `StepRows` give the effect of one frame on the rows. `LengthAfter` and `Settled` describe the buffer after in-order frames 0, 1, 2, …. `AppendZeroRows` is the copying append.
- `TwoBody` (`body.dfy`): class `Body`. It holds the buffer as an `array<Vec>` that frames replace when they grow it and write in place otherwise. It also holds the fields `v`, `a` and `r`, the constants `dt` and `norm`, and the ghost index `latest` of the row written last.

The vector norm (`np.linalg.norm`) is a library call. The model takes it as a
parameter `norm: Vec -> real`, fixed at construction. Every division by `r^3`
requires `norm(p) > 0`. `Gravity.IsEuclidean` states what a Euclidean norm is
without defining a square root. Only the magnitude lemma relies on it.

## Model

| member | source | states |
|---|---|---|
| `Gravity.Accel` | 2-bodyPhysic.py:48-50 | the force law is defined only when the norm of the position is positive; multiplying the acceleration by r^3 gives back minus the position |
| `Gravity.AccelOpposesPosition` | 2-bodyPhysic.py:49-50 | the acceleration is parallel to the position; on each axis its component has the opposite sign to the position's, and it is zero where the position's is zero; away from the origin it is non-zero |
| `Gravity.AccelMagnitude` | 2-bodyPhysic.py:26-27 | with a Euclidean norm the acceleration has magnitude 1/r^2, stated as \|a\|^2 * r^4 == 1 |
| `Gravity.HalfKickOnlyAtZero` | 2-bodyPhysic.py:39-42 | for dt != 0 and a != 0, the kick equals the half kick v + dt/2*a exactly when i == 0; it equals the full kick v + dt*a exactly when i != 0 |
| `Trajectory.Grow` | 2-bodyPhysic.py:43-44 | when i % 100 == 0 the length grows by exactly (i+1)*100, and otherwise the buffer is unchanged; existing rows keep their values and every appended row is (0,0) |
| `Trajectory.AppendZeroRows` | 2-bodyPhysic.py:44 | the new, freshly allocated array is the old rows followed by n zero rows |
| `Trajectory.StepRows` | 2-bodyPhysic.py:47 | a frame sets row i+1 to the new position; every other pre-existing row keeps its value, every other appended row is (0,0), and the length is the grown length |
| `Trajectory.ChunkCovers` | 2-bodyPhysic.py:43-44 | after in-order frames 0..n the buffer holds at least 100*(n/100) + 101 rows; for example, the growth at i = 100k gives at least 100k + 101 rows |
| `Trajectory.NextWriteInBounds` | 2-bodyPhysic.py:43-47 | with in-order frames, once frame n's growth is done the row n+1 that it writes lies inside the buffer |
| `Trajectory.SeedSettled` | 2-bodyPhysic.py:20 | the one-row buffer built from the initial position is the settled buffer of zero frames |
| `Trajectory.InOrderStep` | 2-bodyPhysic.py:43-47 | an in-order frame n on a settled buffer stays in bounds; afterwards every row after n+1 is still (0,0), the length is LengthAfter(n+1), and the samples 0..n are unchanged with the new position appended as sample n+1 |
| `Trajectory.Xs` | 2-bodyPhysic.py:35 | the x data has the buffer's full length and is index-aligned with its rows |
| `Trajectory.Ys` | 2-bodyPhysic.py:53 | the y data has the buffer's full length and is index-aligned with its rows |
| `TwoBody.Body.constructor` | 2-bodyPhysic.py:20-28 | the buffer holds exactly one row, the initial position; v is the initial velocity; r is its norm and a = Accel(norm, pos); the buffer is settled for zero frames |
| `TwoBody.Body.Init` | 2-bodyPhysic.py:34-36 | the line data are the buffer's x and y columns, of the buffer's full length |
| `TwoBody.SeedLineData` | 2-bodyPhysic.py:64-67 | built from position (0.5, 0.0), velocity (0.0, 1.63) and dt 0.1, the initial line data are exactly [0.5] and [0.0] |
| `TwoBody.Body.KickVelocity` | 2-bodyPhysic.py:39-42 | the new velocity is Kick(i, dt, v, a): the half kick on frame 0 and the full kick otherwise |
| `TwoBody.Body.GrowFor` | 2-bodyPhysic.py:43-44 | the buffer becomes Grow(old buffer, i); it is a fresh array when rows are appended and the same array otherwise |
| `TwoBody.Body.RecomputeForce` | 2-bodyPhysic.py:48-50 | r is the norm of the written row and a = Accel(norm, row); the object invariant holds with that row as the latest |
| `TwoBody.Body.Step` | 2-bodyPhysic.py:38-54 | v is kicked, and the buffer is StepRows(old buffer, i, old row i + dt * kicked v), so only row i+1 changes. Afterwards r and a are re-derived from row i+1. In-order calls keep the buffer settled and append exactly one sample. The returned line data are the full x and y columns |

## Left out

- Plotting and animation are not modelled: `main`, `FuncAnimation`, the axes, axis limits, spines and `line.set_data`. Only the data handed to the renderer is modelled.
- The unittest class is not modelled as a harness. `TwoBody.SeedLineData` restates the exact assertion of `test_bodyInit`.
- The rounded end-to-end trajectory `[0.5, 0.48, 0.423, 0.337]` / `[0.0, 0.163, 0.313, 0.443]` is not modelled. It depends on IEEE rounding and the library's square root, and the model works over unbounded reals with an abstract norm.
- The norm is a parameter, not a definition, because Dafny reals have no square root.
- `Gravity.AccelMagnitude`: holds only for a norm that satisfies `IsEuclidean`. The class does not require that of its norm.
- Numpy shapes are simplified: `a` starts as a 1 x 2 array and makes `v` 1 x 2 by broadcasting. All vectors here are plain 2-vectors.
- The source does not validate its constructor arguments. The model makes `dt > 0` and a positive initial norm preconditions of the constructor.
- The division by zero at the origin is unguarded in the source. `TwoBody.Body.Step` requires the norm of the position it writes to be positive.
- An out-of-range frame index makes the source raise an uncaught `IndexError`. `TwoBody.Body.Step` instead requires `i + 1` to lie within the grown buffer. For in-order frames `Trajectory.NextWriteInBounds` proves that this always holds.
- Negative frame indices are not modelled (Python would index from the end). Frame indices are `nat`, as the animation driver supplies them.
- A padding-free store that grows by exactly one row per frame is not modelled, because the code does not do that. It pre-allocates zero rows in chunks and hands the padding to the renderer. The model follows the code: the samples are rows `0..latest`, and the padding is modelled explicitly.
- Aliasing between the column views that numpy hands the renderer and the buffer is not modelled. The line data are returned as copies (`seq<real>`).
