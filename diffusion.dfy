/** The Gray-Scott update of one interior cell and the sweep of `draw` over
    all interior cells, in i-major / j-minor order.

    The sweep reads a "current" field and writes a "next" field. While the
    two are distinct storage (the first running step after `init`) every
    read sees the pre-step values. Once `grid = next` has made them the
    same storage, the sweep works in place and a cell's update reads the
    neighbours already rewritten earlier in the same sweep. `Buffers` keeps
    both fields and whether they are shared; a shared visit updates both. */
module Diffusion {
  import opened Grid
  import opened Stencil

  /** Diffusion rate of A (`dA`). */
  const DiffusionA: real := 1.5
  /** Diffusion rate of B (`dB`). */
  const DiffusionB: real := 0.1
  /** Feed rate (`f`). */
  const Feed: real := 0.055
  /** Kill rate (`k`). */
  const Kill: real := 0.062

  /** Number of interior indices along an axis of length n: 1 .. n-2. */
  function Inner(n: nat): (r: nat)
    ensures n >= 2 ==> r + 2 == n
    ensures n < 2 ==> r == 0
  {
    if n < 2 then 0 else n - 2
  }

  /** (i, j) is a cell the stencil may be applied to. */
  predicate Interior(w: nat, h: nat, i: int, j: int) {
    1 <= i < w - 1 && 1 <= j < h - 1
  }

  /** Gray-Scott kinetics for A before constraining, given the cell's
      levels and the Laplacian of A there. */
  function ReactA(a: real, b: real, lapA: real): real {
    a + DiffusionA * lapA - a * b * b + Feed * (1.0 - a)
  }

  /** Gray-Scott kinetics for B before constraining. */
  function ReactB(a: real, b: real, lapB: real): real {
    b + DiffusionB * lapB + a * b * b - (Kill + Feed) * b
  }

  /** The new value of interior cell (i, j) computed from field `f`:
      Gray-Scott kinetics, each chemical then constrained to [0, 1]. */
  function Updated(f: Field, h: nat, i: int, j: int): (c: Cell)
    requires Shaped(f, |f|, h) && Interior(|f|, h, i, j)
    ensures InUnit(c)
    ensures 0.0 <= ReactA(f[i][j].a, f[i][j].b, Laplacian(f, h, i, j, A)) <= 1.0 ==>
      c.a == ReactA(f[i][j].a, f[i][j].b, Laplacian(f, h, i, j, A))
    ensures 0.0 <= ReactB(f[i][j].a, f[i][j].b, Laplacian(f, h, i, j, B)) <= 1.0 ==>
      c.b == ReactB(f[i][j].a, f[i][j].b, Laplacian(f, h, i, j, B))
    ensures ReactA(f[i][j].a, f[i][j].b, Laplacian(f, h, i, j, A)) < 0.0 ==> c.a == 0.0
    ensures 1.0 < ReactA(f[i][j].a, f[i][j].b, Laplacian(f, h, i, j, A)) ==> c.a == 1.0
    ensures ReactB(f[i][j].a, f[i][j].b, Laplacian(f, h, i, j, B)) < 0.0 ==> c.b == 0.0
    ensures 1.0 < ReactB(f[i][j].a, f[i][j].b, Laplacian(f, h, i, j, B)) ==> c.b == 1.0
  {
    var a := f[i][j].a;
    var b := f[i][j].b;
    Cell(Constrain(ReactA(a, b, Laplacian(f, h, i, j, A)), 0.0, 1.0),
         Constrain(ReactB(a, b, Laplacian(f, h, i, j, B)), 0.0, 1.0))
  }

  /** The buffer pair during a sweep: `cur` is what `grid` refers to, `nxt`
      what `next` refers to, `shared` whether they are the same storage. */
  datatype Buffers = Buffers(cur: Field, nxt: Field, shared: bool)

  /** Both fields are w×h, and shared storage holds one and the same field. */
  predicate WellFormed(s: Buffers, w: nat, h: nat) {
    Shaped(s.cur, w, h) && Shaped(s.nxt, w, h) && (s.shared ==> s.cur == s.nxt)
  }

  /** One iteration of the update loop body: cell (i, j) of `nxt` gets the
      value computed from `cur`; in shared storage `cur` sees the write. */
  function Visit(s: Buffers, w: nat, h: nat, i: int, j: int): (r: Buffers)
    requires WellFormed(s, w, h) && Interior(w, h, i, j)
    ensures WellFormed(r, w, h) && r.shared == s.shared
    ensures r.nxt[i][j] == Updated(s.cur, h, i, j)
    ensures forall p, q :: 0 <= p < w && 0 <= q < h && (p != i || q != j) ==> r.nxt[p][q] == s.nxt[p][q]
    ensures !s.shared ==> r.cur == s.cur
  {
    var n := s.nxt[i := s.nxt[i][j := Updated(s.cur, h, i, j)]];
    Buffers(if s.shared then n else s.cur, n, s.shared)
  }

  /** The inner loop for column i after visiting rows 1 .. n. */
  function SweepColumn(s: Buffers, w: nat, h: nat, i: int, n: nat): (r: Buffers)
    requires WellFormed(s, w, h) && 1 <= i <= Inner(w) && n <= Inner(h)
    ensures WellFormed(r, w, h) && r.shared == s.shared
    decreases n
  {
    if n == 0 then s else Visit(SweepColumn(s, w, h, i, n - 1), w, h, i, n)
  }

  /** The outer loop after visiting columns 1 .. n completely. */
  function SweepColumns(s: Buffers, w: nat, h: nat, n: nat): (r: Buffers)
    requires WellFormed(s, w, h) && n <= Inner(w)
    ensures WellFormed(r, w, h) && r.shared == s.shared
    decreases n
  {
    if n == 0 then s else SweepColumn(SweepColumns(s, w, h, n - 1), w, h, n, Inner(h))
  }

  /** The whole update sweep of one running `draw`. */
  function Sweep(s: Buffers, w: nat, h: nat): (r: Buffers)
    requires WellFormed(s, w, h)
    ensures WellFormed(r, w, h) && r.shared == s.shared
  {
    SweepColumns(s, w, h, Inner(w))
  }

  // ---------------------------------------------------------------------
  // Cells outside the visited region keep their `next` values.

  lemma {:induction false} SweepColumnUntouched(s: Buffers, w: nat, h: nat, i: int, n: nat, p: int, q: int)
    requires WellFormed(s, w, h) && 1 <= i <= Inner(w) && n <= Inner(h)
    requires 0 <= p < w && 0 <= q < h && (p != i || q < 1 || n < q)
    ensures SweepColumn(s, w, h, i, n).nxt[p][q] == s.nxt[p][q]
    decreases n
  {
    if n > 0 {
      SweepColumnUntouched(s, w, h, i, n - 1, p, q);
    }
  }

  lemma {:induction false} SweepColumnsUntouched(s: Buffers, w: nat, h: nat, n: nat, p: int, q: int)
    requires WellFormed(s, w, h) && n <= Inner(w)
    requires 0 <= p < w && 0 <= q < h && !(1 <= p <= n && 1 <= q <= Inner(h))
    ensures SweepColumns(s, w, h, n).nxt[p][q] == s.nxt[p][q]
    decreases n
  {
    if n > 0 {
      SweepColumnsUntouched(s, w, h, n - 1, p, q);
      SweepColumnUntouched(SweepColumns(s, w, h, n - 1), w, h, n, Inner(h), p, q);
    }
  }

  /** The sweep never writes the one-cell border of `next`: border cells
      keep whatever `next` held before the step. */
  lemma BorderUntouched(s: Buffers, w: nat, h: nat, p: int, q: int)
    requires WellFormed(s, w, h)
    requires 0 <= p < w && 0 <= q < h && !Interior(w, h, p, q)
    ensures Sweep(s, w, h).nxt[p][q] == s.nxt[p][q]
  {
    SweepColumnsUntouched(s, w, h, Inner(w), p, q);
  }

  // ---------------------------------------------------------------------
  // Every value the sweep writes lies in [0, 1].

  lemma {:induction false} SweepColumnKeepsUnit(s: Buffers, w: nat, h: nat, i: int, n: nat)
    requires WellFormed(s, w, h) && 1 <= i <= Inner(w) && n <= Inner(h)
    requires UnitField(s.cur) && UnitField(s.nxt)
    ensures UnitField(SweepColumn(s, w, h, i, n).cur) && UnitField(SweepColumn(s, w, h, i, n).nxt)
    decreases n
  {
    if n > 0 {
      SweepColumnKeepsUnit(s, w, h, i, n - 1);
    }
  }

  lemma {:induction false} SweepColumnsKeepUnit(s: Buffers, w: nat, h: nat, n: nat)
    requires WellFormed(s, w, h) && n <= Inner(w)
    requires UnitField(s.cur) && UnitField(s.nxt)
    ensures UnitField(SweepColumns(s, w, h, n).cur) && UnitField(SweepColumns(s, w, h, n).nxt)
    decreases n
  {
    if n > 0 {
      SweepColumnsKeepUnit(s, w, h, n - 1);
      SweepColumnKeepsUnit(SweepColumns(s, w, h, n - 1), w, h, n, Inner(h));
    }
  }

  /** A step started from fields in [0, 1] leaves both fields in [0, 1]. */
  lemma SweepKeepsUnit(s: Buffers, w: nat, h: nat)
    requires WellFormed(s, w, h) && UnitField(s.cur) && UnitField(s.nxt)
    ensures UnitField(Sweep(s, w, h).cur) && UnitField(Sweep(s, w, h).nxt)
  {
    SweepColumnsKeepUnit(s, w, h, Inner(w));
  }

  // ---------------------------------------------------------------------
  // With distinct storage the sweep is the textbook double-buffered step.

  lemma {:induction false} SweepColumnDoubleBuffered(s: Buffers, w: nat, h: nat, i: int, n: nat, p: int, q: int)
    requires WellFormed(s, w, h) && !s.shared && 1 <= i <= Inner(w) && n <= Inner(h)
    requires 0 <= p < w && 0 <= q < h
    ensures SweepColumn(s, w, h, i, n).cur == s.cur
    ensures SweepColumn(s, w, h, i, n).nxt[p][q] ==
      if p == i && 1 <= q <= n then Updated(s.cur, h, p, q) else s.nxt[p][q]
    decreases n
  {
    if n > 0 {
      SweepColumnDoubleBuffered(s, w, h, i, n - 1, p, q);
    }
  }

  lemma {:induction false} SweepColumnsDoubleBuffered(s: Buffers, w: nat, h: nat, n: nat, p: int, q: int)
    requires WellFormed(s, w, h) && !s.shared && n <= Inner(w)
    requires 0 <= p < w && 0 <= q < h
    ensures SweepColumns(s, w, h, n).cur == s.cur
    ensures SweepColumns(s, w, h, n).nxt[p][q] ==
      if 1 <= p <= n && 1 <= q <= Inner(h) then Updated(s.cur, h, p, q) else s.nxt[p][q]
    decreases n
  {
    if n > 0 {
      SweepColumnsDoubleBuffered(s, w, h, n - 1, p, q);
      SweepColumnDoubleBuffered(SweepColumns(s, w, h, n - 1), w, h, n, Inner(h), p, q);
    }
  }

  /** When `grid` and `next` are distinct, every interior cell of the new
      `next` is computed from the pre-step `grid` alone, every border cell
      keeps its old `next` value, and `grid` itself is not touched. */
  lemma DoubleBufferedStep(s: Buffers, w: nat, h: nat, p: int, q: int)
    requires WellFormed(s, w, h) && !s.shared
    requires 0 <= p < w && 0 <= q < h
    ensures Sweep(s, w, h).cur == s.cur
    ensures Sweep(s, w, h).nxt[p][q] ==
      if Interior(w, h, p, q) then Updated(s.cur, h, p, q) else s.nxt[p][q]
  {
    SweepColumnsDoubleBuffered(s, w, h, Inner(w), p, q);
  }

  // ---------------------------------------------------------------------
  // Once a cell has been visited, the rest of the sweep leaves it alone.

  /** Rows m+1 .. n of column i do not touch any cell outside them. */
  lemma {:induction false} SweepColumnSettled(s: Buffers, w: nat, h: nat, i: int, m: nat, n: nat, p: int, q: int)
    requires WellFormed(s, w, h) && 1 <= i <= Inner(w) && m <= n <= Inner(h)
    requires 0 <= p < w && 0 <= q < h && (p != i || q <= m || n < q)
    ensures SweepColumn(s, w, h, i, n).nxt[p][q] == SweepColumn(s, w, h, i, m).nxt[p][q]
    decreases n
  {
    if m < n {
      SweepColumnSettled(s, w, h, i, m, n - 1, p, q);
    }
  }

  /** Columns m+1 .. n do not touch columns 0 .. m. */
  lemma {:induction false} SweepColumnsSettled(s: Buffers, w: nat, h: nat, m: nat, n: nat, p: int, q: int)
    requires WellFormed(s, w, h) && m <= n <= Inner(w)
    requires 0 <= p <= m && p < w && 0 <= q < h
    ensures SweepColumns(s, w, h, n).nxt[p][q] == SweepColumns(s, w, h, m).nxt[p][q]
    decreases n
  {
    if m < n {
      var prev := SweepColumns(s, w, h, n - 1);
      assert SweepColumns(s, w, h, n) == SweepColumn(prev, w, h, n, Inner(h));
      SweepColumnsSettled(s, w, h, m, n - 1, p, q);
      SweepColumnUntouched(prev, w, h, n, Inner(h), p, q);
    }
  }

  /** Cell (p', q') comes before cell (p, q) in the i-major, j-minor order. */
  predicate Earlier(p': int, q': int, p: int, q: int) {
    p' < p || (p' == p && q' < q)
  }

  /** The state the sweep has built when it reaches cell (p, q). */
  function Reached(s: Buffers, w: nat, h: nat, p: int, q: int): (r: Buffers)
    requires WellFormed(s, w, h) && Interior(w, h, p, q)
    ensures WellFormed(r, w, h) && r.shared == s.shared
  {
    SweepColumn(SweepColumns(s, w, h, p - 1), w, h, p, q - 1)
  }

  /** Reaching (p, q) has changed no column but p since column p-1 was
      finished. */
  lemma ReachedOtherColumn(s: Buffers, w: nat, h: nat, p: int, q: int, p': int, q': int)
    requires WellFormed(s, w, h) && Interior(w, h, p, q)
    requires 0 <= p' < w && p' != p && 0 <= q' < h
    ensures Reached(s, w, h, p, q).nxt[p'][q'] == SweepColumns(s, w, h, p - 1).nxt[p'][q']
  {
    SweepColumnUntouched(SweepColumns(s, w, h, p - 1), w, h, p, q - 1, p', q');
  }

  /** Once column m is finished, columns 0 .. m hold their final values. */
  lemma SweepSettledColumn(s: Buffers, w: nat, h: nat, m: nat, p': int, q': int)
    requires WellFormed(s, w, h) && m <= Inner(w)
    requires 0 <= p' <= m && p' < w && 0 <= q' < h
    ensures Sweep(s, w, h).nxt[p'][q'] == SweepColumns(s, w, h, m).nxt[p'][q']
  {
    SweepColumnsSettled(s, w, h, m, Inner(w), p', q');
  }

  /** A cell of an earlier column already holds its final value when the
      sweep reaches (p, q). */
  lemma ReachedEarlierColumn(s: Buffers, w: nat, h: nat, p: int, q: int, p': int, q': int)
    requires WellFormed(s, w, h) && Interior(w, h, p, q)
    requires 0 <= p' < p && 0 <= q' < h
    ensures Reached(s, w, h, p, q).nxt[p'][q'] == Sweep(s, w, h).nxt[p'][q']
  {
    ReachedOtherColumn(s, w, h, p, q, p', q');
    SweepSettledColumn(s, w, h, p - 1, p', q');
  }

  /** A cell earlier in column p already holds its final value when the
      sweep reaches (p, q). */
  lemma ReachedEarlierRow(s: Buffers, w: nat, h: nat, p: int, q: int, q': int)
    requires WellFormed(s, w, h) && Interior(w, h, p, q)
    requires 0 <= q' < q
    ensures Reached(s, w, h, p, q).nxt[p][q'] == Sweep(s, w, h).nxt[p][q']
  {
    var done := SweepColumns(s, w, h, p - 1);
    SweepColumnSettled(done, w, h, p, q - 1, Inner(h), p, q');
    assert SweepColumns(s, w, h, p) == SweepColumn(done, w, h, p, Inner(h));
    SweepColumnsSettled(s, w, h, p, Inner(w), p, q');
  }

  /** A cell of a later column still holds its pre-step value when the
      sweep reaches (p, q). */
  lemma ReachedLaterColumn(s: Buffers, w: nat, h: nat, p: int, q: int, p': int, q': int)
    requires WellFormed(s, w, h) && Interior(w, h, p, q)
    requires p < p' < w && 0 <= q' < h
    ensures Reached(s, w, h, p, q).nxt[p'][q'] == s.nxt[p'][q']
  {
    ReachedOtherColumn(s, w, h, p, q, p', q');
    SweepColumnsUntouched(s, w, h, p - 1, p', q');
  }

  /** A cell at or after (p, q) in column p still holds its pre-step value
      when the sweep reaches (p, q). */
  lemma ReachedLaterRow(s: Buffers, w: nat, h: nat, p: int, q: int, q': int)
    requires WellFormed(s, w, h) && Interior(w, h, p, q)
    requires q <= q' < h
    ensures Reached(s, w, h, p, q).nxt[p][q'] == s.nxt[p][q']
  {
    var done := SweepColumns(s, w, h, p - 1);
    SweepColumnUntouched(done, w, h, p, q - 1, p, q');
    SweepColumnsUntouched(s, w, h, p - 1, p, q');
  }

  /** With shared storage (every running step after the first), interior
      cell (p, q) ends the step with the update computed from the field
      the sweep has built when it reaches (p, q): every cell earlier in the
      sweep order already holds its final value of this step, every later
      cell still holds its pre-step value. */
  lemma InPlaceStep(s: Buffers, w: nat, h: nat, p: int, q: int)
    requires WellFormed(s, w, h) && s.shared && Interior(w, h, p, q)
    ensures Sweep(s, w, h).nxt[p][q] == Updated(Reached(s, w, h, p, q).cur, h, p, q)
    ensures forall p', q' :: 0 <= p' < w && 0 <= q' < h ==>
      Reached(s, w, h, p, q).cur[p'][q'] ==
        if Earlier(p', q', p, q) then Sweep(s, w, h).nxt[p'][q'] else s.cur[p'][q']
  {
    var done := SweepColumns(s, w, h, p - 1);
    SweepColumnsSettled(s, w, h, p, Inner(w), p, q);
    SweepColumnSettled(done, w, h, p, q, Inner(h), p, q);
    assert SweepColumn(done, w, h, p, q) == Visit(Reached(s, w, h, p, q), w, h, p, q);
    forall p', q' | 0 <= p' < w && 0 <= q' < h
      ensures Reached(s, w, h, p, q).cur[p'][q'] ==
        if Earlier(p', q', p, q) then Sweep(s, w, h).nxt[p'][q'] else s.cur[p'][q']
    {
      if p' < p {
        ReachedEarlierColumn(s, w, h, p, q, p', q');
      } else if p' == p && q' < q {
        ReachedEarlierRow(s, w, h, p, q, q');
      } else if p' == p {
        ReachedLaterRow(s, w, h, p, q, q');
      } else {
        ReachedLaterColumn(s, w, h, p, q, p', q');
      }
    }
  }

  /** A 4×3 field (two interior cells, (1,1) and (2,1)) whose cell (1,1)
      holds no A: everything else is `{a: 1, b: 0}`. */
  function Example(): (f: Field)
    ensures Shaped(f, 4, 3)
  {
    [[Background, Background, Background],
     [Background, Cell(0.0, 0.0), Background],
     [Background, Background, Background],
     [Background, Background, Background]]
  }

  /** On `Example`, the in-place sweep and the double-buffered sweep give
      cell (2,1) different values: in place it reads the already updated
      (1,1) (whose A rose to 1) and keeps a = 1; double-buffered it reads
      the old a = 0 there and drops to a = 0.7. */
  lemma InPlaceDiffersFromDoubleBuffered()
    ensures Sweep(Buffers(Example(), Example(), true), 4, 3).nxt[2][1].a == 1.0
    ensures Sweep(Buffers(Example(), Example(), false), 4, 3).nxt[2][1].a == 0.7
  {
    var f := Example();
    assert Updated(f, 3, 1, 1) == Background;
    assert Updated(f, 3, 2, 1).a == 0.7;
    var g := f[1 := f[1][1 := Background]];
    assert Updated(g, 3, 2, 1).a == 1.0;
    var shared := Buffers(f, f, true);
    assert SweepColumns(shared, 4, 3, 1).cur == g;
    var separate := Buffers(f, f, false);
    DoubleBufferedStep(separate, 4, 3, 2, 1);
  }
}
