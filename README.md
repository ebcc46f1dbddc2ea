# Reaction-diffusion sketch, modelled in Dafny

This project models `sketch.js`, a p5.js sketch that runs the Gray-Scott
reaction-diffusion simulation on a grid. Every cell of the grid holds the
levels `a` and `b` of two chemicals. The model covers these parts:

- **Initialisation** (`init`). `grid` is filled with `{a: 1, b: 0}` except
  for a 19×19 seed square of `{a: 1, b: 1}` around the centre. `next` is
  filled with `{a: 1, b: 0}`. The two are distinct arrays.
- **The stencil** (`laplaceA`, `laplaceB`). A 3×3 Laplacian kernel with
  weight -1 at the centre, 0.2 on the orthogonal neighbours and 0.05 on the
  diagonal ones.
- **The step** (`draw`). While playing, each step has three phases:
  - an update sweep over the interior cells: kinetics with `dA = 1.5`,
    `dB = 0.1`, `f = 0.055` and `k = 0.062`, then each chemical is
    constrained to [0, 1];
  - a render pass: cell (i, j) becomes an RGBA grey pixel at byte
    `(i + j·width)·4`;
  - the assignment `grid = next`.
- **The controls.** The Play, Pause and Reset actions, and `mouseDragged`.

The files are:

- `grid.dfy`: cells, fields, `constrain`, the seed square.
- `stencil.dfy`: the reference Laplacian, built from a weight table, and
  its properties.
- `diffusion.dfy`: the kinetics, the update of one cell, and the sweep as
  a pure specification over a pair of fields that may or may not share
  storage.
- `render.dfy`: the grey level and the pixel layout.
- `sketch.dfy`: the sketch's state as a class that owns the two
  `array2<Cell>` buffers and the pixel array. The loops of `init`, `draw`
  and the render pass are methods proved against the functions above.
  `Session` at the end of the file is a worked scenario, not a model of a
  function of the sketch. It shows four things in order: the first running
  `draw` leaves `grid` and `next` aliased; a drag then shows through
  `next`; a paused `draw` changes nothing; and Reset makes the two arrays
  distinct again.

`grid = next` assigns a reference. After the first running step, `grid`
and `next` are therefore the same array. Every later sweep works in place
and reads neighbours that the same sweep has already rewritten. The model
keeps this behaviour:

- `Simulation.Draw` is specified by `Sweep` with `shared == (grid == next)`.
- `DoubleBufferedStep` describes the step when the arrays are distinct:
  every interior cell is computed from the pre-step grid.
- `InPlaceStep` describes the step when the arrays are shared. Each
  interior cell is computed from a field in which every cell earlier in
  the sweep order already holds its new value, and every later cell
  still holds its old one.
- `InPlaceDiffersFromDoubleBuffered` gives a concrete field on which the
  two steps differ.

## Behaviour worth noting

In each case below, the model follows the code.

- **Double buffering only on the first step.** The sweep is
  double-buffered only on the first running step after `init`. From then
  on, `grid` and `next` alias and the sweep reads its own writes
  (`Diffusion.InPlaceStep`, `Diffusion.InPlaceDiffersFromDoubleBuffered`).
- **Reset does not resume.** Reset only calls `init`
  (sketch.js:35). It does not resume a paused sketch
  (`Sketch.Simulation.Reset`, `play == old(play)`).
- **Drag coordinates are not checked.** `mouseDragged` indexes
  `grid[floor(mouseX)][floor(mouseY)]` without checking that the
  coordinates lie on the grid (sketch.js:49).
- **The B equation.** The header comment of `sketch.js` (lines 12-13)
  gives `B' = B + Db·∇²B – (k + f)·B`. The code adds the reaction term
  `+ a·b·b`, and the model uses the code's equation.
- **The seed square is 19×19.** The header comment (sketch.js:8)
  announces a 20×20 seed square. The strict inequalities of the seed test
  (sketch.js:65-66) select 19 columns and 19 rows: on the 400×400 canvas
  these are columns and rows 191 .. 209 (`Grid.SeedOn400Canvas`).

## Model

| member | source | states |
|---|---|---|
| Grid.Constrain | sketch.js:103-104 | the result lies in [lo, hi]; it equals v when v is in range, lo below the range and hi above it |
| Grid.InitialCell | sketch.js:64-70 | every initial cell has a = 1 and lies in [0, 1]; b = 1 exactly on the seed square and b = 0 everywhere else |
| Grid.SeedSquare | sketch.js:54-66 | the seed square is the set of cells strictly closer than 10 to the centre (floor(w/2), floor(h/2)) in both coordinates; it is symmetric about the centre, and the centre cell is seeded |
| Grid.SeedOn400Canvas | sketch.js:65-70 | on the 400×400 canvas of setup, the centre and (191, 209) are seeded, while the corner and (190, 200) are background |
| Stencil.WeightsSumToZero | sketch.js:131-139 | the nine kernel weights sum to zero |
| Stencil.LaplacianOfUniform | sketch.js:129-141 | the Laplacian is 0 at a cell whose eight neighbours hold its own level |
| Stencil.LaplacianReadsOnlyNeighbourhood | sketch.js:143-155 | the Laplacian of a chemical depends only on that chemical's levels in the 3×3 neighbourhood |
| Diffusion.Updated | sketch.js:95-104 | the updated cell lies in [0, 1]. Each chemical equals its raw Gray-Scott value when that value is in [0, 1], becomes 0 when it is below 0 and becomes 1 when it is above 1 |
| Diffusion.Visit | sketch.js:95-104 | one loop iteration writes exactly cell (i, j) of next with the updated value read from the current grid; other cells are unchanged, and grid is unchanged unless it shares storage with next |
| Diffusion.SweepColumn | sketch.js:94-105 | the inner loop keeps both fields W×H and preserves whether they share storage |
| Diffusion.SweepColumns | sketch.js:93-106 | the outer loop keeps both fields W×H and preserves whether they share storage |
| Diffusion.Sweep | sketch.js:93-106 | a whole update sweep keeps both fields W×H and preserves whether they share storage |
| Diffusion.SweepColumnUntouched | sketch.js:94 | the inner loop over column i leaves every cell outside rows 1..n of that column as it was in next |
| Diffusion.SweepColumnsUntouched | sketch.js:93-94 | the outer loop leaves every cell outside the visited columns and the interior rows as it was in next |
| Diffusion.BorderUntouched | sketch.js:93-94 | the sweep never writes the one-cell border of next |
| Diffusion.SweepColumnKeepsUnit | sketch.js:103-104 | the inner loop keeps all levels in [0, 1] |
| Diffusion.SweepColumnsKeepUnit | sketch.js:103-104 | the outer loop keeps all levels in [0, 1] |
| Diffusion.SweepKeepsUnit | sketch.js:93-106 | a step that starts from levels in [0, 1] leaves every level of both fields in [0, 1] |
| Diffusion.SweepColumnDoubleBuffered | sketch.js:94-105 | with distinct storage, the inner loop leaves grid alone and sets visited cells to their update from the pre-step grid |
| Diffusion.SweepColumnsDoubleBuffered | sketch.js:93-106 | with distinct storage, after n columns every visited cell holds its update from the pre-step grid, and the other cells keep their old next value |
| Diffusion.DoubleBufferedStep | sketch.js:93-106 | with distinct storage, the step computes every interior cell from the pre-step grid alone, keeps the border of next and leaves grid unchanged |
| Diffusion.SweepColumnSettled | sketch.js:94-105 | rows m+1 .. n of the inner loop leave every cell outside them as it was after row m |
| Diffusion.SweepColumnsSettled | sketch.js:93-106 | columns m+1 .. n of the outer loop leave columns 0 .. m as they were after column m |
| Diffusion.Reached | sketch.js:93-95 | the state the sweep has built when it reaches interior cell (p, q) keeps both fields W×H and preserves whether they share storage |
| Diffusion.ReachedOtherColumn | sketch.js:94-105 | while the inner loop runs over column p, every other column stays as it was after column p-1 |
| Diffusion.SweepSettledColumn | sketch.js:93-106 | once column m is finished, columns 0 .. m already hold their values at the end of the step |
| Diffusion.ReachedEarlierColumn | sketch.js:93-106 | when the sweep reaches (p, q), every cell of an earlier column holds its value at the end of the step |
| Diffusion.ReachedEarlierRow | sketch.js:93-106 | when the sweep reaches (p, q), every cell above it in column p holds its value at the end of the step |
| Diffusion.ReachedLaterColumn | sketch.js:93-106 | when the sweep reaches (p, q), every cell of a later column still holds its pre-step value |
| Diffusion.ReachedLaterRow | sketch.js:94-105 | when the sweep reaches (p, q), cell (p, q) and every cell below it in column p still hold their pre-step values |
| Diffusion.InPlaceStep | sketch.js:93-123 | with shared storage, interior cell (p, q) ends the step with the update of the field as it was when the sweep reached it; in that field, cells earlier in the sweep order hold their new values and cells at or after (p, q) hold their pre-step values |
| Diffusion.InPlaceDiffersFromDoubleBuffered | sketch.js:93-123 | on a 4×3 field, the in-place sweep gives cell (2,1) a = 1 and the double-buffered sweep gives a = 0.7 |
| Render.Intensity | sketch.js:113-114 | the grey level is an integer in [0, 255] and is the floor of (a - b)·255 constrained to [0, 255] |
| Render.Channel | sketch.js:115-118 | red, green and blue get the grey level, alpha gets 255, and every byte is in [0, 255] |
| Render.PixelIndex | sketch.js:112-118 | every channel offset of every cell lies inside the width·height·4 pixel buffer |
| Render.OffsetInRange | sketch.js:112 | the offset (i + j·w)·4 + ch of an on-canvas cell lies inside the buffer |
| Render.PixelIndexInjective | sketch.js:112-118 | distinct (cell, channel) pairs address distinct bytes |
| Render.OtherCellsOtherBytes | sketch.js:110-119 | no byte of another cell lies among the four bytes of cell (i, j) |
| Render.PixelIndexCovers | sketch.js:110-119 | every byte of the buffer is the offset of some cell and channel, so a render pass writes the whole buffer |
| Render.IntensityExamples | sketch.js:113-114 | {a: 1, b: 0} renders white (255); {a: 0, b: 1} and {a: 0.5, b: 0.5} render black (0) |
| Sketch.NewBuffers | sketch.js:53-74 | the two arrays are fresh, distinct and w×h; grid holds the initial distribution and next holds background cells |
| Sketch.Simulation.constructor | sketch.js:77-83 | the sketch starts playing with a white w×h·4 pixel buffer and freshly initialised, distinct buffers |
| Sketch.Simulation.Init | sketch.js:53-74 | init reallocates both buffers with the initial distribution, makes them distinct again and leaves play alone |
| Sketch.Simulation.LaplaceA | sketch.js:129-141 | the sketch's nine-term sum for chemical A equals the reference Laplacian of the current grid |
| Sketch.Simulation.LaplaceB | sketch.js:143-155 | the sketch's nine-term sum for chemical B equals the reference Laplacian of the current grid |
| Sketch.Simulation.UpdateCell | sketch.js:95-104 | the four writes leave next[i][j] equal to the updated value of the grid as it was on entry, even when grid and next alias; every other cell is unchanged |
| Sketch.Simulation.VisitCell | sketch.js:95-104 | if the arrays hold a sweep state t, one loop iteration leaves them holding Visit(t) at cell (i, j), which it returns as ghost state |
| Sketch.Simulation.UpdateColumn | sketch.js:94-105 | if the arrays hold the sweep state reached after column i-1, the inner loop leaves them holding that state swept over rows 1 .. H-2 of column i, which it returns as ghost state |
| Sketch.Simulation.UpdateInterior | sketch.js:93-106 | after the update loop, next holds the Sweep of the entry state, in place when grid and next alias |
| Sketch.Simulation.PaintCell | sketch.js:112-118 | the four bytes of cell (i, j) get its grey level three times and alpha 255, and no byte of any other cell changes |
| Sketch.Simulation.RenderColumn | sketch.js:111-119 | the inner render loop sets the four bytes of every cell of column i to its channels; earlier columns keep theirs, and later columns keep their old bytes |
| Sketch.Simulation.RenderNext | sketch.js:109-121 | after the render loop, byte PixelIndex(i, j, ch) holds Channel(next[i][j], ch) for every cell and channel |
| Sketch.Simulation.Draw | sketch.js:88-126 | a paused draw changes nothing. A running draw does four things: next becomes the Sweep of the entry state; the pixels show next; grid becomes next; and with distinct buffers the old grid is untouched |
| Sketch.Simulation.Play | sketch.js:33 | play becomes true |
| Sketch.Simulation.Pause | sketch.js:34 | play becomes false |
| Sketch.Simulation.Reset | sketch.js:35 | Reset re-runs init: fresh, distinct, initialised buffers, with play unchanged |
| Sketch.Simulation.Drag | sketch.js:48-50 | the dragged cell gets b = 1 and keeps its a. No other grid cell changes, and next is untouched unless it aliases grid |

## Left out

- The dat.GUI menu (`gui`, sketch.js:38-45) is left out. It is UI wiring; the three actions it exposes are modelled as `Play`, `Pause` and `Reset`.
- `setup` canvas plumbing is not modelled. `createCanvas(400, 400)` and `pixelDensity(1)` become the constructor's `w` and `h`, one pixel per cell. The 400×400 size appears only in `SeedOn400Canvas`.
- `loadPixels` and `updatePixels` are not modelled. The pixel buffer is a plain array, and transfer to the screen is I/O.
- The p5 frame loop that calls `draw` repeatedly is not modelled. `Draw` models one call.
- Floating point is not modelled. The levels are exact reals, so IEEE rounding in the kinetics, the stencil sums and `floor` is not captured. The order of terms in `LaplaceA` and `LaplaceB` follows the source, but with reals that order does not matter.
- Sketch.Simulation.Drag: requires the cell to lie on the grid. The mouse-to-cell translation is not modelled. Off the grid, the source indexes a missing row or cell and the handler throws, so the model does not cover that case.
- The initial content of the pixel buffer is taken to be 255 in every byte, as `background(255)` paints it white.
- The unused `chemical` parameter of `laplaceA` is not modelled, because it has no effect.
- `grid` and `next` are modelled as W×H arrays of cell values. The source's cells are objects, but they are only reachable through the arrays, so array-level aliasing captures every sharing the source has.
