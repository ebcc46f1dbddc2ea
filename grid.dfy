/** The grid data model of the reaction-diffusion sketch: a cell holds the
    concentrations of the two chemicals, a field is a column-major grid of
    cells (`f[i][j]` is the cell at column i, row j, as `grid[i][j]` is in
    the sketch), and the initial seed square. */
module Grid {

  /** One grid cell `{a, b}`: concentration of chemical A and of chemical B. */
  datatype Cell = Cell(a: real, b: real)

  /** The background cell `{a: 1, b: 0}`. */
  const Background: Cell := Cell(1.0, 0.0)

  /** The seed cell `{a: 1, b: 1}`. */
  const Seed: Cell := Cell(1.0, 1.0)

  /** Half-extent of the seed square around the centre. */
  const SeedHalf: int := 10

  /** Both concentrations lie in the closed interval [0, 1]. */
  predicate InUnit(c: Cell) {
    0.0 <= c.a <= 1.0 && 0.0 <= c.b <= 1.0
  }

  /** A value snapshot of a grid: `f[i][j]` for column i and row j. */
  type Field = seq<seq<Cell>>

  /** `f` has w columns of h cells each. */
  predicate Shaped(f: Field, w: nat, h: nat) {
    |f| == w && forall i :: 0 <= i < w ==> |f[i]| == h
  }

  /** Every cell of `f` lies in [0, 1]. */
  predicate UnitField(f: Field) {
    forall i, j :: 0 <= i < |f| && 0 <= j < |f[i]| ==> InUnit(f[i][j])
  }

  /** The p5 `constrain(v, lo, hi)`: v limited to [lo, hi]. */
  function Constrain(v: real, lo: real, hi: real): (r: real)
    requires lo <= hi
    ensures lo <= r <= hi
    ensures lo <= v <= hi ==> r == v
    ensures v < lo ==> r == lo
    ensures hi < v ==> r == hi
  {
    if v < lo then lo else if hi < v then hi else v
  }

  /** The seed test of `init` for a w×h canvas. The sketch combines the four
      comparisons with `&`, which on booleans acts as logical and. */
  predicate InSeed(w: nat, h: nat, i: int, j: int) {
    w / 2 - SeedHalf < i < w / 2 + SeedHalf && h / 2 - SeedHalf < j < h / 2 + SeedHalf
  }

  /** The value `init` gives to `grid[i][j]`. */
  function InitialCell(w: nat, h: nat, i: int, j: int): (c: Cell)
    ensures InUnit(c) && c.a == 1.0
    ensures c.b == 1.0 <==> InSeed(w, h, i, j)
    ensures c.b == 0.0 <==> !InSeed(w, h, i, j)
  {
    if InSeed(w, h, i, j) then Seed else Background
  }

  /** The seed region is the square of cells at distance at most
      SeedHalf - 1 from the centre `(floor(w/2), floor(h/2))` in each
      coordinate, and it is symmetric about that centre. */
  lemma SeedSquare(w: nat, h: nat, i: int, j: int)
    ensures InSeed(w, h, i, j) <==>
      (-SeedHalf < i - w / 2 < SeedHalf && -SeedHalf < j - h / 2 < SeedHalf)
    ensures InSeed(w, h, i, j) <==> InSeed(w, h, 2 * (w / 2) - i, 2 * (h / 2) - j)
    ensures w > 0 && h > 0 ==> InSeed(w, h, w / 2, h / 2) && w / 2 < w && h / 2 < h
  {
  }

  /** On the 400×400 canvas of `setup`, the centre cell is seeded and the
      corner is background. */
  lemma SeedOn400Canvas()
    ensures InitialCell(400, 400, 200, 200) == Seed
    ensures InitialCell(400, 400, 0, 0) == Background
    ensures InitialCell(400, 400, 190, 200) == Background
    ensures InitialCell(400, 400, 191, 209) == Seed
  {
  }
}
