/** The Very Hard player's line test: whether a cell, counted as one cell of a row
    whatever it holds, sits in a straight row of rowLength cells whose other cells all
    hold one player's stones. The test looks only at the cells around (r, c), never at
    (r, c) itself. */
module Potential {
  import opened Grids
  import opened Lines
  import opened EngineBoard

  /** The eight directions the player checks, in its order: left, right, up, down and
      the four diagonal steps. */
  const EightDirections: seq<Dir> :=
    [Dir(0, -1), Dir(0, 1), Dir(-1, 0), Dir(1, 0), Dir(-1, -1), Dir(1, 1), Dir(-1, 1), Dir(1, -1)]

  /** The cells at offsets 1..a from (r, c) along d lie on the board and hold p. */
  ghost predicate Ray(g: Grid, r: int, c: int, d: Dir, a: int, p: int)
    requires WellFormed(g, Size)
  {
    forall i :: 1 <= i <= a ==> OwnsAt(g, Size, r, c, d, i, p)
  }

  /** A row of L cells along the line of d through (r, c): a cells of p forward along d
      and L - 1 - a cells of p backwards, with (r, c) itself as the remaining cell. */
  ghost predicate PotentialRow(g: Grid, r: int, c: int, d: Dir, p: int, L: int)
    requires WellFormed(g, Size)
  {
    L >= 2 && exists a :: 0 <= a <= L - 1 && Ray(g, r, c, d, a, p) && Ray(g, r, c, Dir(-d.dr, -d.dc), L - 1 - a, p)
  }

  /** A row of L cells through (r, c) along one of the directions ds. */
  ghost predicate PotentialAlong(g: Grid, r: int, c: int, p: int, L: int, ds: seq<Dir>)
    requires WellFormed(g, Size)
  {
    |ds| > 0 && (PotentialRow(g, r, c, ds[0], p, L) || PotentialAlong(g, r, c, p, L, ds[1..]))
  }

  /** A row of L cells through (r, c) along any of the eight directions. */
  ghost predicate PotentialAny(g: Grid, r: int, c: int, p: int, L: int)
    requires WellFormed(g, Size)
  {
    PotentialAlong(g, r, c, p, L, EightDirections)
  }

  /** The eight-direction test is the eight single-direction tests, in the player's order. */
  lemma PotentialAnyEight(g: Grid, r: int, c: int, p: int, L: int)
    requires WellFormed(g, Size)
    ensures PotentialAny(g, r, c, p, L) <==>
      (PotentialRow(g, r, c, Dir(0, -1), p, L) || PotentialRow(g, r, c, Dir(0, 1), p, L) ||
       PotentialRow(g, r, c, Dir(-1, 0), p, L) || PotentialRow(g, r, c, Dir(1, 0), p, L) ||
       PotentialRow(g, r, c, Dir(-1, -1), p, L) || PotentialRow(g, r, c, Dir(1, 1), p, L) ||
       PotentialRow(g, r, c, Dir(-1, 1), p, L) || PotentialRow(g, r, c, Dir(1, -1), p, L))
  {
    var ds := EightDirections;
    assert !PotentialAlong(g, r, c, p, L, ds[8..]);
    assert PotentialAlong(g, r, c, p, L, ds[7..]) <==> PotentialRow(g, r, c, ds[7], p, L) || PotentialAlong(g, r, c, p, L, ds[8..]);
    assert PotentialAlong(g, r, c, p, L, ds[6..]) <==> PotentialRow(g, r, c, ds[6], p, L) || PotentialAlong(g, r, c, p, L, ds[7..]);
    assert PotentialAlong(g, r, c, p, L, ds[5..]) <==> PotentialRow(g, r, c, ds[5], p, L) || PotentialAlong(g, r, c, p, L, ds[6..]);
    assert PotentialAlong(g, r, c, p, L, ds[4..]) <==> PotentialRow(g, r, c, ds[4], p, L) || PotentialAlong(g, r, c, p, L, ds[5..]);
    assert PotentialAlong(g, r, c, p, L, ds[3..]) <==> PotentialRow(g, r, c, ds[3], p, L) || PotentialAlong(g, r, c, p, L, ds[4..]);
    assert PotentialAlong(g, r, c, p, L, ds[2..]) <==> PotentialRow(g, r, c, ds[2], p, L) || PotentialAlong(g, r, c, p, L, ds[3..]);
    assert PotentialAlong(g, r, c, p, L, ds[1..]) <==> PotentialRow(g, r, c, ds[1], p, L) || PotentialAlong(g, r, c, p, L, ds[2..]);
    assert PotentialAlong(g, r, c, p, L, ds) <==> PotentialRow(g, r, c, ds[0], p, L) || PotentialAlong(g, r, c, p, L, ds[1..]);
  }

  /** The cell at offset i backwards along d is the cell at offset -i forwards. */
  lemma NegOffset(g: Grid, r: int, c: int, d: Dir, i: int, p: int)
    requires WellFormed(g, Size)
    ensures OwnsAt(g, Size, r, c, Dir(-d.dr, -d.dc), i, p) <==> OwnsAt(g, Size, r, c, d, -i, p)
  {
    assert i * -d.dr == (-i) * d.dr && i * -d.dc == (-i) * d.dc;
  }

  /** When p's stones run exactly f cells forward and exactly b cells backwards, and the
      two runs with (r, c) add up to fewer than L cells, there is no row of L. */
  lemma NoPotentialRow(g: Grid, r: int, c: int, d: Dir, p: int, L: int, f: int, b: int)
    requires WellFormed(g, Size) && 0 <= f && 0 <= b && f + b < L - 1
    requires !OwnsAt(g, Size, r, c, d, f + 1, p)
    requires !OwnsAt(g, Size, r, c, Dir(-d.dr, -d.dc), b + 1, p)
    ensures !PotentialRow(g, r, c, d, p, L)
  {
    forall a | 0 <= a <= L - 1 && Ray(g, r, c, d, a, p) ensures !Ray(g, r, c, Dir(-d.dr, -d.dc), L - 1 - a, p) {
      assert a <= f;
    }
  }

  /** The test along d and along the opposite direction agree: the eight checks are
      the four lines of the board, each looked at from both ends. */
  lemma PotentialSymmetric(g: Grid, r: int, c: int, d: Dir, p: int, L: int)
    requires WellFormed(g, Size)
    ensures PotentialRow(g, r, c, d, p, L) <==> PotentialRow(g, r, c, Dir(-d.dr, -d.dc), p, L)
  {
    var e := Dir(-d.dr, -d.dc);
    assert Dir(-e.dr, -e.dc) == d;
    if PotentialRow(g, r, c, d, p, L) {
      var a :| 0 <= a <= L - 1 && Ray(g, r, c, d, a, p) && Ray(g, r, c, e, L - 1 - a, p);
      assert Ray(g, r, c, Dir(-e.dr, -e.dc), L - 1 - (L - 1 - a), p);
    }
    if PotentialRow(g, r, c, e, p, L) {
      var a :| 0 <= a <= L - 1 && Ray(g, r, c, e, a, p) && Ray(g, r, c, Dir(-e.dr, -e.dc), L - 1 - a, p);
      assert Ray(g, r, c, d, L - 1 - a, p) && Ray(g, r, c, e, L - 1 - (L - 1 - a), p);
    }
  }

  /** The eight-direction test is the test along the four line directions of the win
      condition. */
  lemma PotentialFourLines(g: Grid, r: int, c: int, p: int, L: int)
    requires WellFormed(g, Size)
    ensures PotentialAny(g, r, c, p, L) <==>
      (PotentialRow(g, r, c, Dir(1, 0), p, L) || PotentialRow(g, r, c, Dir(0, 1), p, L) ||
       PotentialRow(g, r, c, Dir(1, 1), p, L) || PotentialRow(g, r, c, Dir(1, -1), p, L))
  {
    PotentialAnyEight(g, r, c, p, L);
    PotentialSymmetric(g, r, c, Dir(0, 1), p, L);
    PotentialSymmetric(g, r, c, Dir(1, 0), p, L);
    PotentialSymmetric(g, r, c, Dir(1, 1), p, L);
    PotentialSymmetric(g, r, c, Dir(1, -1), p, L);
  }

  /** A row of L + 1 cells contains a row of L cells. */
  lemma PotentialShorter(g: Grid, r: int, c: int, d: Dir, p: int, L: int)
    requires WellFormed(g, Size) && L >= 2
    requires PotentialRow(g, r, c, d, p, L + 1)
    ensures PotentialRow(g, r, c, d, p, L)
  {
    var a :| 0 <= a <= L && Ray(g, r, c, d, a, p) && Ray(g, r, c, Dir(-d.dr, -d.dc), L - a, p);
    if a == L {
      assert Ray(g, r, c, d, L - 1, p) && Ray(g, r, c, Dir(-d.dr, -d.dc), L - 1 - (L - 1), p);
    } else {
      assert Ray(g, r, c, d, a, p) && Ray(g, r, c, Dir(-d.dr, -d.dc), L - 1 - a, p);
    }
  }

  /** A row of L + 1 cells in some direction contains a row of L cells. */
  lemma PotentialAnyShorter(g: Grid, r: int, c: int, p: int, L: int)
    requires WellFormed(g, Size) && L >= 2
    requires PotentialAny(g, r, c, p, L + 1)
    ensures PotentialAny(g, r, c, p, L)
  {
    PotentialAnyEight(g, r, c, p, L);
    PotentialAnyEight(g, r, c, p, L + 1);
    forall d | PotentialRow(g, r, c, d, p, L + 1) ensures PotentialRow(g, r, c, d, p, L) {
      PotentialShorter(g, r, c, d, p, L);
    }
  }

  /** For a cell holding p, a row of five along d through it is exactly a five-in-a-row
      win along d. */
  lemma RowOfFiveIsLineWin(g: Grid, r: int, c: int, d: Dir, p: int)
    requires WellFormed(g, Size) && Owns(g, Size, r, c, p)
    ensures PotentialRow(g, r, c, d, p, 5) <==> LineWin(g, Size, r, c, d, p)
  {
    assert OwnsAt(g, Size, r, c, d, 0, p) by {
      assert r + 0 * d.dr == r && c + 0 * d.dc == c;
    }
    if PotentialRow(g, r, c, d, p, 5) {
      var a :| 0 <= a <= 4 && Ray(g, r, c, d, a, p) && Ray(g, r, c, Dir(-d.dr, -d.dc), 4 - a, p);
      forall i | a - 4 <= i < a + 1 ensures OwnsAt(g, Size, r, c, d, i, p) {
        if i < 0 {
          NegOffset(g, r, c, d, -i, p);
        }
      }
      assert Window(g, Size, r, c, d, a - 4, p);
    }
    if LineWin(g, Size, r, c, d, p) {
      var k :| -4 <= k <= 0 && Window(g, Size, r, c, d, k, p);
      var e := Dir(-d.dr, -d.dc);
      forall i | 1 <= i <= -k ensures OwnsAt(g, Size, r, c, e, i, p) {
        NegOffset(g, r, c, d, i, p);
      }
      assert Ray(g, r, c, d, k + 4, p) && Ray(g, r, c, e, 4 - (k + 4), p);
    }
  }

  /** For a cell holding p, a row of five through it in any direction is exactly the
      win the engine detects at that cell. */
  lemma RowOfFiveIsWin(g: Grid, r: int, c: int, p: int)
    requires WellFormed(g, Size) && Owns(g, Size, r, c, p)
    ensures PotentialAny(g, r, c, p, 5) <==> Wins(g, Size, r, c, p)
  {
    PotentialFourLines(g, r, c, p, 5);
    RowOfFiveIsLineWin(g, r, c, Dir(1, 0), p);
    RowOfFiveIsLineWin(g, r, c, Dir(0, 1), p);
    RowOfFiveIsLineWin(g, r, c, Dir(1, 1), p);
    RowOfFiveIsLineWin(g, r, c, Dir(1, -1), p);
  }

  /** A ray along a single step never passes through its own start cell, so writing that
      cell does not change it. */
  lemma RayIgnoresStart(g: Grid, r: int, c: int, d: Dir, a: int, p: int, v: int)
    requires WellFormed(g, Size) && InRange(Size, r, c) && d in EightDirections
    ensures Ray(Set(g, r, c, v), r, c, d, a, p) <==> Ray(g, r, c, d, a, p)
  {
    forall i | 1 <= i <= a
      ensures OwnsAt(Set(g, r, c, v), Size, r, c, d, i, p) <==> OwnsAt(g, Size, r, c, d, i, p)
    {
      assert (r + i * d.dr, c + i * d.dc) != (r, c);
    }
  }

  lemma RowIgnoresStart(g: Grid, r: int, c: int, d: Dir, p: int, L: int, v: int)
    requires WellFormed(g, Size) && InRange(Size, r, c) && d in EightDirections
    ensures PotentialRow(Set(g, r, c, v), r, c, d, p, L) <==> PotentialRow(g, r, c, d, p, L)
  {
    var e := Dir(-d.dr, -d.dc);
    assert e in EightDirections;
    forall a ensures Ray(Set(g, r, c, v), r, c, d, a, p) <==> Ray(g, r, c, d, a, p) {
      RayIgnoresStart(g, r, c, d, a, p, v);
    }
    forall a ensures Ray(Set(g, r, c, v), r, c, e, a, p) <==> Ray(g, r, c, e, a, p) {
      RayIgnoresStart(g, r, c, e, a, p, v);
    }
  }

  /** Whatever (r, c) holds, the test at (r, c) gives the same answer. */
  lemma PotentialIgnoresStart(g: Grid, r: int, c: int, p: int, L: int, v: int)
    requires WellFormed(g, Size) && InRange(Size, r, c)
    ensures PotentialAny(Set(g, r, c, v), r, c, p, L) <==> PotentialAny(g, r, c, p, L)
  {
    PotentialAnyEight(g, r, c, p, L);
    PotentialAnyEight(Set(g, r, c, v), r, c, p, L);
    RowIgnoresStart(g, r, c, Dir(0, -1), p, L, v);
    RowIgnoresStart(g, r, c, Dir(0, 1), p, L, v);
    RowIgnoresStart(g, r, c, Dir(-1, 0), p, L, v);
    RowIgnoresStart(g, r, c, Dir(1, 0), p, L, v);
    RowIgnoresStart(g, r, c, Dir(-1, -1), p, L, v);
    RowIgnoresStart(g, r, c, Dir(1, 1), p, L, v);
    RowIgnoresStart(g, r, c, Dir(-1, 1), p, L, v);
    RowIgnoresStart(g, r, c, Dir(1, -1), p, L, v);
  }

  /** Placing p at an empty cell wins for p exactly when the test for a row of five
      succeeds at that cell before the stone is placed. */
  lemma PotentialFiveWinsByPlacing(g: Grid, r: int, c: int, p: int)
    requires WellFormed(g, Size) && InRange(Size, r, c)
    ensures PotentialAny(g, r, c, p, 5) <==> Wins(Set(g, r, c, p), Size, r, c, p)
  {
    PotentialIgnoresStart(g, r, c, p, 5, p);
    RowOfFiveIsWin(Set(g, r, c, p), r, c, p);
  }
}
