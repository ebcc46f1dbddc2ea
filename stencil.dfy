/** The discrete Laplacian used for diffusion: a fixed 3×3 kernel with
    weight -1 at the centre, 0.2 on the four orthogonal neighbours and 0.05
    on the four diagonal ones, applied to one chemical of a field. */
module Stencil {
  import opened Grid

  /** Which chemical a Laplacian is taken of. */
  datatype Chemical = A | B

  /** The concentration of chemical `ch` in cell `c`. */
  function Level(c: Cell, ch: Chemical): real {
    match ch
    case A => c.a
    case B => c.b
  }

  /** The kernel weight at offset (dx, dy) from the centre. */
  function Weight(dx: int, dy: int): real
    requires -1 <= dx <= 1 && -1 <= dy <= 1
  {
    if dx == 0 && dy == 0 then -1.0
    else if dx == 0 || dy == 0 then 0.2
    else 0.05
  }

  /** The level of chemical `ch` at offset (dx, dy) from interior cell (x, y). */
  function Around(f: Field, h: nat, x: int, y: int, ch: Chemical, dx: int, dy: int): real
    requires Shaped(f, |f|, h) && 1 <= x < |f| - 1 && 1 <= y < h - 1
    requires -1 <= dx <= 1 && -1 <= dy <= 1
  {
    Level(f[x + dx][y + dy], ch)
  }

  /** The kernel applied to column x + dx of the 3×3 neighbourhood. */
  function KernelColumn(f: Field, h: nat, x: int, y: int, ch: Chemical, dx: int): real
    requires Shaped(f, |f|, h) && 1 <= x < |f| - 1 && 1 <= y < h - 1 && -1 <= dx <= 1
  {
    Weight(dx, -1) * Around(f, h, x, y, ch, dx, -1)
    + Weight(dx, 0) * Around(f, h, x, y, ch, dx, 0)
    + Weight(dx, 1) * Around(f, h, x, y, ch, dx, 1)
  }

  /** Reference definition of the Laplacian of chemical `ch` at interior
      cell (x, y): the sum over the 3×3 neighbourhood of weight times level.
      It is only defined away from the one-cell border. */
  function Laplacian(f: Field, h: nat, x: int, y: int, ch: Chemical): real
    requires Shaped(f, |f|, h) && 1 <= x < |f| - 1 && 1 <= y < h - 1
  {
    KernelColumn(f, h, x, y, ch, -1) + KernelColumn(f, h, x, y, ch, 0) + KernelColumn(f, h, x, y, ch, 1)
  }

  /** The nine weights sum to zero. */
  lemma WeightsSumToZero()
    ensures Weight(-1, -1) + Weight(-1, 0) + Weight(-1, 1)
          + Weight(0, -1) + Weight(0, 0) + Weight(0, 1)
          + Weight(1, -1) + Weight(1, 0) + Weight(1, 1) == 0.0
  {
  }

  /** Hence a cell whose eight neighbours all hold its own level has
      Laplacian 0. */
  lemma LaplacianOfUniform(f: Field, h: nat, x: int, y: int, ch: Chemical)
    requires Shaped(f, |f|, h) && 1 <= x < |f| - 1 && 1 <= y < h - 1
    requires forall dx, dy :: -1 <= dx <= 1 && -1 <= dy <= 1 ==>
      Around(f, h, x, y, ch, dx, dy) == Level(f[x][y], ch)
    ensures Laplacian(f, h, x, y, ch) == 0.0
  {
    WeightsSumToZero();
  }

  /** The Laplacian of one chemical depends only on that chemical's levels
      in the 3×3 neighbourhood: the two chemicals diffuse independently. */
  lemma LaplacianReadsOnlyNeighbourhood(f: Field, g: Field, h: nat, x: int, y: int, ch: Chemical)
    requires Shaped(f, |f|, h) && Shaped(g, |g|, h) && |f| == |g|
    requires 1 <= x < |f| - 1 && 1 <= y < h - 1
    requires forall dx, dy :: -1 <= dx <= 1 && -1 <= dy <= 1 ==>
      Around(f, h, x, y, ch, dx, dy) == Around(g, h, x, y, ch, dx, dy)
    ensures Laplacian(f, h, x, y, ch) == Laplacian(g, h, x, y, ch)
  {
  }
}
