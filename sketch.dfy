/** The sketch's global simulation state and its entry points: `init`,
    `draw` (update sweep, render pass, `grid = next`), `laplaceA`,
    `laplaceB`, the Play / Pause / Reset actions and `mouseDragged`.

    `grid` and `next` are references to W×H arrays of cells. `init`
    allocates two distinct arrays; the assignment `grid = next` at the end
    of a running `draw` makes both names refer to the same array, and from
    then on the update sweep works in place. */
module Sketch {
  import opened Grid
  import opened Stencil
  import opened Diffusion
  import opened Render

  /** The value snapshot of a cell array. */
  ghost function Cells(g: array2<Cell>): (f: Field)
    reads g
    ensures Shaped(f, g.Length0, g.Length1)
    ensures forall i, j :: 0 <= i < g.Length0 && 0 <= j < g.Length1 ==> f[i][j] == g[i, j]
  {
    seq(g.Length0, i requires 0 <= i < g.Length0 reads g =>
      seq(g.Length1, j requires 0 <= j < g.Length1 reads g => g[i, j]))
  }

  /** Array `g` holds field `f`, cell by cell. */
  ghost predicate Holds(g: array2<Cell>, f: Field)
    reads g
  {
    Shaped(f, g.Length0, g.Length1) &&
    forall i, j :: 0 <= i < g.Length0 && 0 <= j < g.Length1 ==> g[i, j] == f[i][j]
  }

  /** An array that holds a field has that field as its snapshot. */
  lemma HoldsCells(g: array2<Cell>, f: Field)
    requires Holds(g, f)
    ensures Cells(g) == f
  {
    var c := Cells(g);
    forall i | 0 <= i < |f|
      ensures c[i] == f[i]
    {
      assert |c[i]| == |f[i]|;
      assert forall j :: 0 <= j < |f[i]| ==> c[i][j] == f[i][j];
    }
  }

  /** Every cell of `g` lies in [0, 1]. */
  ghost predicate UnitArray(g: array2<Cell>)
    reads g
  {
    forall i, j :: 0 <= i < g.Length0 && 0 <= j < g.Length1 ==> InUnit(g[i, j])
  }

  /** The nested loops of `init`: a w×h grid holding the seed square on a
      background, and a distinct w×h `next` buffer of background cells. */
  method NewBuffers(w: nat, h: nat) returns (grid: array2<Cell>, next: array2<Cell>)
    ensures fresh(grid) && fresh(next) && grid != next
    ensures grid.Length0 == w && grid.Length1 == h && next.Length0 == w && next.Length1 == h
    ensures forall i, j :: 0 <= i < w && 0 <= j < h ==>
      grid[i, j] == InitialCell(w, h, i, j) && next[i, j] == Background
  {
    var cx, cy := w / 2, h / 2;
    grid := new Cell[w, h];
    next := new Cell[w, h];
    var i := 0;
    while i < w
      invariant 0 <= i <= w
      invariant forall p, q :: 0 <= p < i && 0 <= q < h ==>
        grid[p, q] == InitialCell(w, h, p, q) && next[p, q] == Background
    {
      var j := 0;
      while j < h
        invariant 0 <= j <= h
        invariant forall p, q :: 0 <= p < i && 0 <= q < h ==>
          grid[p, q] == InitialCell(w, h, p, q) && next[p, q] == Background
        invariant forall q :: 0 <= q < j ==>
          grid[i, q] == InitialCell(w, h, i, q) && next[i, q] == Background
      {
        if cx - SeedHalf < i < cx + SeedHalf && cy - SeedHalf < j < cy + SeedHalf {
          grid[i, j] := Seed;
        } else {
          grid[i, j] := Background;
        }
        next[i, j] := Background;
        j := j + 1;
      }
      i := i + 1;
    }
  }

  class Simulation {
    /** Canvas width and height: the grid is W columns by H rows. */
    const W: nat
    const H: nat
    /** The p5 pixel buffer: W·H RGBA bytes. */
    const pixels: array<int>
    /** Whether `draw` advances the simulation. */
    var play: bool
    /** The current cells, `grid[i][j]` in the sketch. */
    var grid: array2<Cell>
    /** The buffer the update sweep writes. */
    var next: array2<Cell>

    /** Both buffers are W×H with every concentration in [0, 1]. */
    ghost predicate Valid()
      reads this, grid, next
    {
      grid.Length0 == W && grid.Length1 == H &&
      next.Length0 == W && next.Length1 == H &&
      UnitArray(grid) && UnitArray(next)
    }

    /** The pixel buffer holds W·H RGBA pixels, every byte in [0, 255]. */
    ghost predicate Canvas()
      reads pixels
    {
      pixels.Length == W * H * 4 &&
      forall k :: 0 <= k < pixels.Length ==> 0 <= pixels[k] <= 255
    }

    /** The state `init` leaves: the seed square in `grid`, background in
        `next`, two distinct arrays. */
    ghost predicate Initialised()
      reads this, grid, next
    {
      grid != next &&
      grid.Length0 == W && grid.Length1 == H && next.Length0 == W && next.Length1 == H &&
      forall i, j :: 0 <= i < W && 0 <= j < H ==>
        grid[i, j] == InitialCell(W, H, i, j) && next[i, j] == Background
    }

    /** `setup`: a w×h canvas painted white (`background(255)`), playing,
        then `init`. */
    constructor (w: nat, h: nat)
      ensures Valid() && Canvas() && Initialised()
      ensures W == w && H == h && play
      ensures fresh(grid) && fresh(next) && fresh(pixels)
      ensures forall k :: 0 <= k < pixels.Length ==> pixels[k] == 255
    {
      W, H := w, h;
      play := true;
      pixels := new int[w * h * 4](_ => 255);
      var g, n := NewBuffers(w, h);
      grid, next := g, n;
    }

    /** `init`: re-allocate both buffers with the initial distribution.
        Afterwards `grid` and `next` are distinct storage again. */
    method Init()
      requires Valid()
      modifies this`grid, this`next
      ensures Valid() && Initialised()
      ensures fresh(grid) && fresh(next) && play == old(play)
    {
      grid, next := NewBuffers(W, H);
    }

    /** `laplaceA(x, y)`: the stencil applied to chemical A of `grid`,
        in the sketch's order of terms. Every index it reads lies inside
        the grid because (x, y) is an interior cell. */
    function LaplaceA(x: int, y: int): (r: real)
      reads this, grid
      requires 1 <= x < grid.Length0 - 1 && 1 <= y < grid.Length1 - 1
      ensures r == Laplacian(Cells(grid), grid.Length1, x, y, A)
    {
      grid[x, y].a * -1.0
      + grid[x - 1, y].a * 0.2
      + grid[x + 1, y].a * 0.2
      + grid[x, y + 1].a * 0.2
      + grid[x, y - 1].a * 0.2
      + grid[x - 1, y - 1].a * 0.05
      + grid[x + 1, y - 1].a * 0.05
      + grid[x + 1, y + 1].a * 0.05
      + grid[x - 1, y + 1].a * 0.05
    }

    /** `laplaceB(x, y)`: the same stencil applied to chemical B. */
    function LaplaceB(x: int, y: int): (r: real)
      reads this, grid
      requires 1 <= x < grid.Length0 - 1 && 1 <= y < grid.Length1 - 1
      ensures r == Laplacian(Cells(grid), grid.Length1, x, y, B)
    {
      grid[x, y].b * -1.0
      + grid[x - 1, y].b * 0.2
      + grid[x + 1, y].b * 0.2
      + grid[x, y + 1].b * 0.2
      + grid[x, y - 1].b * 0.2
      + grid[x - 1, y - 1].b * 0.05
      + grid[x + 1, y - 1].b * 0.05
      + grid[x + 1, y + 1].b * 0.05
      + grid[x - 1, y + 1].b * 0.05
    }

    /** The body of the update loop for interior cell (i, j): raw kinetics
        written to `next[i][j]`, then each chemical constrained to [0, 1].
        The value stored is `Updated` of the grid as it was on entry, also
        when `grid` and `next` are the same array. */
    method UpdateCell(i: int, j: int)
      requires Valid() && Interior(W, H, i, j)
      modifies next
      ensures Valid()
      ensures next[i, j] == Updated(old(Cells(grid)), H, i, j)
      ensures forall p, q :: 0 <= p < W && 0 <= q < H && (p != i || q != j) ==>
        next[p, q] == old(next[p, q])
    {
      ghost var target := Updated(Cells(grid), H, i, j);
      ghost var lapB := LaplaceB(i, j);
      var a := grid[i, j].a;
      var b := grid[i, j].b;
      next[i, j] := next[i, j].(a := ReactA(a, b, LaplaceA(i, j)));
      assert LaplaceB(i, j) == lapB;
      next[i, j] := next[i, j].(b := ReactB(a, b, LaplaceB(i, j)));
      next[i, j] := next[i, j].(a := Constrain(next[i, j].a, 0.0, 1.0));
      next[i, j] := next[i, j].(b := Constrain(next[i, j].b, 0.0, 1.0));
      assert next[i, j] == target;
    }

    /** `UpdateCell` seen on the sweep specification: if the buffers hold
        the sweep state before cell (i, j), afterwards they hold the state
        after it. */
    method VisitCell(i: int, j: int, ghost t: Buffers) returns (ghost v: Buffers)
      requires Valid() && Interior(W, H, i, j)
      requires WellFormed(t, W, H) && t.shared == (grid == next)
      requires Holds(grid, t.cur) && Holds(next, t.nxt)
      modifies next
      ensures Valid() && v == Visit(t, W, H, i, j)
      ensures Holds(grid, v.cur) && Holds(next, v.nxt)
    {
      v := Visit(t, W, H, i, j);
      HoldsCells(grid, t.cur);
      UpdateCell(i, j);
      assert Holds(next, v.nxt);
      assert Holds(grid, v.cur) by {
        if grid == next {
          assert v.cur == v.nxt;
        }
      }
    }

    /** One pass of the inner update loop over column i, rows 1 .. H-2:
        if the buffers hold the sweep state `done` reached after columns
        1 .. i-1, afterwards they hold the state after column i. */
    method UpdateColumn(i: int, ghost done: Buffers) returns (ghost after: Buffers)
      requires Valid() && 1 <= i <= Inner(W)
      requires WellFormed(done, W, H) && done.shared == (grid == next)
      requires Holds(grid, done.cur) && Holds(next, done.nxt)
      modifies next
      ensures Valid() && after == SweepColumn(done, W, H, i, Inner(H))
      ensures Holds(grid, after.cur) && Holds(next, after.nxt)
    {
      after := done;
      var j := 1;
      while j < H - 1
        invariant 1 <= j <= Inner(H) + 1
        invariant after == SweepColumn(done, W, H, i, j - 1)
        invariant Valid()
        invariant Holds(grid, after.cur) && Holds(next, after.nxt)
      {
        after := VisitCell(i, j, after);
        assert after == SweepColumn(done, W, H, i, j);
        j := j + 1;
      }
      assert j - 1 == Inner(H);
    }

    /** The update loop of `draw`: i-major, j-minor over the interior.
        `next` ends up holding the `Sweep` of the entry state, read in place
        when `grid` and `next` are the same array. */
    method UpdateInterior()
      requires Valid()
      modifies next
      ensures Valid()
      ensures Holds(next, Sweep(Buffers(old(Cells(grid)), old(Cells(next)), grid == next), W, H).nxt)
    {
      ghost var s0 := Buffers(Cells(grid), Cells(next), grid == next);
      ghost var t := s0;
      var i := 1;
      while i < W - 1
        invariant 1 <= i <= Inner(W) + 1
        invariant t == SweepColumns(s0, W, H, i - 1)
        invariant Valid()
        invariant Holds(grid, t.cur) && Holds(next, t.nxt)
      {
        t := UpdateColumn(i, t);
        assert t == SweepColumns(s0, W, H, i);
        i := i + 1;
      }
      assert t == Sweep(s0, W, H);
    }

    /** The body of the render loop for cell (i, j): its four bytes at
        offset `(i + j·W)·4` get the grey level three times and alpha 255;
        no byte of any other cell changes. */
    method PaintCell(i: int, j: int)
      requires Valid() && Canvas() && 0 <= i < W && 0 <= j < H
      modifies pixels
      ensures Valid() && Canvas()
      ensures forall ch :: 0 <= ch < 4 ==> pixels[PixelIndex(W, H, i, j, ch)] == Channel(next[i, j], ch)
      ensures forall p, q, ch :: 0 <= p < W && 0 <= q < H && 0 <= ch < 4 && (p != i || q != j) ==>
        pixels[PixelIndex(W, H, p, q, ch)] == old(pixels[PixelIndex(W, H, p, q, ch)])
    {
      var pix := (i + j * W) * 4;
      assert pix == PixelIndex(W, H, i, j, 0) && pix + 3 == PixelIndex(W, H, i, j, 3);
      OtherCellsOtherBytes(W, H, i, j);
      var c := ((next[i, j].a - next[i, j].b) * 255.0).Floor;
      c := Constrain(c as real, 0.0, 255.0).Floor;
      pixels[pix + 0] := c;
      pixels[pix + 1] := c;
      pixels[pix + 2] := c;
      pixels[pix + 3] := 255;
      assert c == Intensity(next[i, j]);
      assert forall ch :: 0 <= ch < 4 ==> PixelIndex(W, H, i, j, ch) == pix + ch;
    }

    /** One pass of the inner render loop over column i: the bytes of
        column i are painted, those of every other column are kept. */
    method RenderColumn(i: int)
      requires Valid() && Canvas() && 0 <= i < W
      requires forall p, q, ch :: 0 <= p < i && 0 <= q < H && 0 <= ch < 4 ==>
        pixels[PixelIndex(W, H, p, q, ch)] == Channel(next[p, q], ch)
      modifies pixels
      ensures Valid() && Canvas()
      ensures forall p, q, ch :: 0 <= p <= i && 0 <= q < H && 0 <= ch < 4 ==>
        pixels[PixelIndex(W, H, p, q, ch)] == Channel(next[p, q], ch)
      ensures forall p, q, ch :: i < p < W && 0 <= q < H && 0 <= ch < 4 ==>
        pixels[PixelIndex(W, H, p, q, ch)] == old(pixels[PixelIndex(W, H, p, q, ch)])
    {
      var j := 0;
      while j < H
        invariant 0 <= j <= H
        invariant Valid() && Canvas()
        invariant forall p, q, ch :: 0 <= p < W && 0 <= q < H && 0 <= ch < 4 && (p < i || (p == i && q < j)) ==>
          pixels[PixelIndex(W, H, p, q, ch)] == Channel(next[p, q], ch)
        invariant forall p, q, ch :: i < p < W && 0 <= q < H && 0 <= ch < 4 ==>
          pixels[PixelIndex(W, H, p, q, ch)] == old(pixels[PixelIndex(W, H, p, q, ch)])
      {
        PaintCell(i, j);
        j := j + 1;
      }
    }

    /** The render loop of `draw`: channel `ch` of cell (i, j) goes to byte
        `(i + j·W)·4 + ch`; red, green and blue get the cell's grey level,
        alpha gets 255. */
    method RenderNext()
      requires Valid() && Canvas()
      modifies pixels
      ensures Valid() && Canvas()
      ensures forall i, j, ch :: 0 <= i < W && 0 <= j < H && 0 <= ch < 4 ==>
        pixels[PixelIndex(W, H, i, j, ch)] == Channel(next[i, j], ch)
    {
      var i := 0;
      while i < W
        invariant 0 <= i <= W
        invariant Valid() && Canvas()
        invariant forall p, q, ch :: 0 <= p < i && 0 <= q < H && 0 <= ch < 4 ==>
          pixels[PixelIndex(W, H, p, q, ch)] == Channel(next[p, q], ch)
      {
        RenderColumn(i);
        i := i + 1;
      }
    }

    /** `draw`. While paused nothing changes. While playing: the update
        sweep fills `next`, the render pass paints `next` into `pixels`, and
        `grid` becomes the same array as `next`. */
    method Draw()
      requires Valid() && Canvas()
      modifies this`grid, grid, next, pixels
      ensures Valid() && Canvas() && next == old(next) && play == old(play)
      ensures !old(play) ==> grid == old(grid) && unchanged(grid, next, pixels)
      ensures old(play) ==> grid == next
      ensures old(play) ==>
        Holds(next, Sweep(Buffers(old(Cells(grid)), old(Cells(next)), old(grid == next)), W, H).nxt)
      ensures old(play) ==> forall i, j, ch :: 0 <= i < W && 0 <= j < H && 0 <= ch < 4 ==>
        pixels[PixelIndex(W, H, i, j, ch)] == Channel(next[i, j], ch)
      ensures old(play) && old(grid) != old(next) ==> unchanged(old(grid))
    {
      if play {
        UpdateInterior();
        RenderNext();
        grid := next;
      }
    }

    /** The Play action. */
    method Play()
      modifies this`play
      ensures play
    {
      play := true;
    }

    /** The Pause action. */
    method Pause()
      modifies this`play
      ensures !play
    {
      play := false;
    }

    /** The Reset action: re-run `init`; `play` is left as it was. */
    method Reset()
      requires Valid()
      modifies this`grid, this`next
      ensures Valid() && Initialised()
      ensures fresh(grid) && fresh(next) && play == old(play)
    {
      Init();
    }

    /** `mouseDragged` on cell (x, y): sets chemical B of `grid[x][y]` to 1.
        When `grid` and `next` are the same array the write shows in `next`
        too; otherwise `next` is untouched. */
    method Drag(x: int, y: int)
      requires Valid() && 0 <= x < W && 0 <= y < H
      modifies grid
      ensures Valid()
      ensures grid[x, y] == old(grid[x, y]).(b := 1.0)
      ensures forall p, q :: 0 <= p < W && 0 <= q < H && (p != x || q != y) ==>
        grid[p, q] == old(grid[p, q])
      ensures grid != next ==> unchanged(next)
    {
      grid[x, y] := grid[x, y].(b := 1.0);
    }
  }

  /** A session on a 30×30 canvas: the first running `draw` works on two
      arrays and ends with `grid` and `next` aliased; a paused `draw` changes
      nothing; Reset makes them distinct again. */
  method Session() {
    var sim := new Simulation(30, 30);
    assert sim.grid != sim.next && sim.grid[15, 15] == Seed;
    sim.Draw();
    assert sim.grid == sim.next;
    sim.Drag(3, 4);
    assert sim.next[3, 4].b == 1.0;
    sim.Pause();
    var before := sim.grid[7, 7];
    sim.Draw();
    assert sim.grid[7, 7] == before;
    sim.Reset();
    assert sim.grid != sim.next && !sim.play;
    sim.Play();
    assert sim.play;
  }
}
