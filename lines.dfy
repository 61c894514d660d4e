/** Five-in-a-row: the win condition shared by both game classes, stated on grid
    values. A win through (r, c) is a window of five consecutive on-board cells owned
    by the player, among the nine cells at offsets -4..4 from (r, c) along one of the
    four line directions. */
module Lines {
  import opened Grids

  /** The four line directions scanned through a just-played cell. */
  const WinDirections: seq<Dir> := [Dir(1, 0), Dir(0, 1), Dir(1, 1), Dir(1, -1)]

  /** Cell (r, c) is on the n-by-n board and holds p. */
  ghost predicate Owns(g: Grid, n: int, r: int, c: int, p: int)
    requires WellFormed(g, n)
  {
    InRange(n, r, c) && At(g, r, c) == p
  }

  /** The cell at offset i from (r, c) along d is on the board and holds p. */
  ghost predicate OwnsAt(g: Grid, n: int, r: int, c: int, d: Dir, i: int, p: int)
    requires WellFormed(g, n)
  {
    Owns(g, n, r + i * d.dr, c + i * d.dc, p)
  }

  /** The five cells at offsets k..k+4 from (r, c) along d all hold p. */
  ghost predicate Window(g: Grid, n: int, r: int, c: int, d: Dir, k: int, p: int)
    requires WellFormed(g, n)
  {
    forall i :: k <= i < k + 5 ==> OwnsAt(g, n, r, c, d, i, p)
  }

  /** Five consecutive cells of p along d inside offsets -4..4 of (r, c). */
  ghost predicate LineWin(g: Grid, n: int, r: int, c: int, d: Dir, p: int)
    requires WellFormed(g, n)
  {
    exists k :: -4 <= k <= 0 && Window(g, n, r, c, d, k, p)
  }

  /** The move at (r, c) completes five in a row for p. */
  ghost predicate Wins(g: Grid, n: int, r: int, c: int, p: int)
    requires WellFormed(g, n)
  {
    LineWin(g, n, r, c, Dir(1, 0), p) || LineWin(g, n, r, c, Dir(0, 1), p) ||
    LineWin(g, n, r, c, Dir(1, 1), p) || LineWin(g, n, r, c, Dir(1, -1), p)
  }

  /** Five cells of p starting at (sr, sc) and stepping along d. */
  ghost predicate FiveFrom(g: Grid, n: int, sr: int, sc: int, d: Dir, p: int)
    requires WellFormed(g, n)
  {
    Window(g, n, sr, sc, d, 0, p)
  }

  /** Some five cells of p anywhere on the board along d. */
  ghost predicate DirFive(g: Grid, n: int, d: Dir, p: int)
    requires WellFormed(g, n)
  {
    exists sr, sc :: FiveFrom(g, n, sr, sc, d, p)
  }

  /** The whole-board win condition: five in a row of p horizontally, vertically,
      diagonally or anti-diagonally somewhere. */
  ghost predicate NaiveWin(g: Grid, n: int, p: int)
    requires WellFormed(g, n)
  {
    DirFive(g, n, Dir(0, 1), p) || DirFive(g, n, Dir(1, 0), p) ||
    DirFive(g, n, Dir(1, 1), p) || DirFive(g, n, Dir(1, -1), p)
  }

  /** Every window inside offsets -4..4 contains offset 0, so a win through (r, c)
      means that (r, c) itself holds p. */
  lemma WinOwnsCell(g: Grid, n: int, r: int, c: int, p: int)
    requires WellFormed(g, n)
    requires Wins(g, n, r, c, p)
    ensures Owns(g, n, r, c, p)
  {
    if LineWin(g, n, r, c, Dir(1, 0), p) {
      LineWinOwnsCell(g, n, r, c, Dir(1, 0), p);
    } else if LineWin(g, n, r, c, Dir(0, 1), p) {
      LineWinOwnsCell(g, n, r, c, Dir(0, 1), p);
    } else if LineWin(g, n, r, c, Dir(1, 1), p) {
      LineWinOwnsCell(g, n, r, c, Dir(1, 1), p);
    } else {
      LineWinOwnsCell(g, n, r, c, Dir(1, -1), p);
    }
  }

  lemma LineWinOwnsCell(g: Grid, n: int, r: int, c: int, d: Dir, p: int)
    requires WellFormed(g, n)
    requires LineWin(g, n, r, c, d, p)
    ensures Owns(g, n, r, c, p)
  {
    var k :| -4 <= k <= 0 && Window(g, n, r, c, d, k, p);
    assert OwnsAt(g, n, r, c, d, 0, p);
    assert r + 0 * d.dr == r && c + 0 * d.dc == c;
  }

  /** Offsets along a line can be measured from any cell of it. */
  lemma ShiftWindow(g: Grid, n: int, r: int, c: int, d: Dir, k: int, p: int)
    requires WellFormed(g, n)
    ensures Window(g, n, r, c, d, k, p) <==> FiveFrom(g, n, r + k * d.dr, c + k * d.dc, d, p)
  {
    forall i | k <= i < k + 5
      ensures OwnsAt(g, n, r, c, d, i, p) <==> OwnsAt(g, n, r + k * d.dr, c + k * d.dc, d, i - k, p)
    {
      assert r + i * d.dr == r + k * d.dr + (i - k) * d.dr;
      assert c + i * d.dc == c + k * d.dc + (i - k) * d.dc;
    }
    if FiveFrom(g, n, r + k * d.dr, c + k * d.dc, d, p) {
      forall i | k <= i < k + 5 ensures OwnsAt(g, n, r, c, d, i, p) {
        assert OwnsAt(g, n, r + k * d.dr, c + k * d.dc, d, i - k, p);
      }
    }
    var sr, sc := r + k * d.dr, c + k * d.dc;
    if Window(g, n, r, c, d, k, p) {
      forall j | 0 <= j < 5 ensures OwnsAt(g, n, sr, sc, d, j, p) {
        assert OwnsAt(g, n, r, c, d, j + k, p);
      }
    }
  }

  /** Any run of five or more cells of p along d through (r, c) is a win: a longer
      run contains a five-window inside offsets -4..4. */
  lemma LongRunWins(g: Grid, n: int, r: int, c: int, d: Dir, k: int, m: int, p: int)
    requires WellFormed(g, n)
    requires m >= 5 && k <= 0 < k + m
    requires forall i :: k <= i < k + m ==> OwnsAt(g, n, r, c, d, i, p)
    ensures LineWin(g, n, r, c, d, p)
  {
    var s := if k >= -4 then k else -4;
    assert Window(g, n, r, c, d, s, p);
  }

  /** A win through a cell is a five somewhere on the board. */
  lemma WinImpliesNaive(g: Grid, n: int, r: int, c: int, p: int)
    requires WellFormed(g, n)
    requires Wins(g, n, r, c, p)
    ensures NaiveWin(g, n, p)
  {
    if LineWin(g, n, r, c, Dir(1, 0), p) {
      LineWinFive(g, n, r, c, Dir(1, 0), p);
    } else if LineWin(g, n, r, c, Dir(0, 1), p) {
      LineWinFive(g, n, r, c, Dir(0, 1), p);
    } else if LineWin(g, n, r, c, Dir(1, 1), p) {
      LineWinFive(g, n, r, c, Dir(1, 1), p);
    } else {
      LineWinFive(g, n, r, c, Dir(1, -1), p);
    }
  }

  lemma LineWinFive(g: Grid, n: int, r: int, c: int, d: Dir, p: int)
    requires WellFormed(g, n)
    requires LineWin(g, n, r, c, d, p)
    ensures DirFive(g, n, d, p)
  {
    var k :| -4 <= k <= 0 && Window(g, n, r, c, d, k, p);
    ShiftWindow(g, n, r, c, d, k, p);
    var sr, sc := r + k * d.dr, c + k * d.dc;
    assert FiveFrom(g, n, sr, sc, d, p);
  }

  /** A five anywhere on the board is a win through its first cell. */
  lemma NaiveImpliesSomeWin(g: Grid, n: int, p: int)
    requires WellFormed(g, n)
    requires NaiveWin(g, n, p)
    ensures exists r, c :: InRange(n, r, c) && Wins(g, n, r, c, p)
  {
    if DirFive(g, n, Dir(0, 1), p) {
      FiveStartWins(g, n, Dir(0, 1), p);
    } else if DirFive(g, n, Dir(1, 0), p) {
      FiveStartWins(g, n, Dir(1, 0), p);
    } else if DirFive(g, n, Dir(1, 1), p) {
      FiveStartWins(g, n, Dir(1, 1), p);
    } else {
      FiveStartWins(g, n, Dir(1, -1), p);
    }
  }

  lemma FiveStartWins(g: Grid, n: int, d: Dir, p: int)
    requires WellFormed(g, n)
    requires DirFive(g, n, d, p)
    ensures exists r, c :: InRange(n, r, c) && LineWin(g, n, r, c, d, p)
  {
    var sr, sc :| FiveFrom(g, n, sr, sc, d, p);
    assert OwnsAt(g, n, sr, sc, d, 0, p);
    assert sr + 0 * d.dr == sr && sc + 0 * d.dc == sc;
    assert Window(g, n, sr, sc, d, 0, p);
    assert InRange(n, sr, sc) && LineWin(g, n, sr, sc, d, p);
  }

  /** Both ends of a five lie on the board. */
  lemma FiveFromEnds(g: Grid, n: int, sr: int, sc: int, d: Dir, p: int)
    requires WellFormed(g, n)
    requires FiveFrom(g, n, sr, sc, d, p)
    ensures InRange(n, sr, sc) && InRange(n, sr + 4 * d.dr, sc + 4 * d.dc)
  {
    assert OwnsAt(g, n, sr, sc, d, 0, p) && OwnsAt(g, n, sr, sc, d, 4, p);
    assert sr + 0 * d.dr == sr && sc + 0 * d.dc == sc;
  }

  /** No five along d from any on-board start means no five along d at all. */
  lemma NoFiveAnywhere(g: Grid, n: int, d: Dir, p: int)
    requires WellFormed(g, n)
    requires forall sr, sc :: InRange(n, sr, sc) ==> !FiveFrom(g, n, sr, sc, d, p)
    ensures !DirFive(g, n, d, p)
  {
    forall sr, sc | FiveFrom(g, n, sr, sc, d, p) ensures false {
      FiveFromEnds(g, n, sr, sc, d, p);
    }
  }
}
