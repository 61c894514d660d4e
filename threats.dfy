/** The Very Hard player's board evaluation: the number of empty cells where a player
    would complete five in a row, the number of "threats" around the player's stones,
    the blocking priority and the weighted sum of these that scores a position. */
module Threats {
  import opened Grids
  import opened Lines
  import opened EngineBoard
  import opened EngineGame
  import opened Potential
  import opened Search

  /** Offsets 1..ThreatLength - 1 are looked at on each side of a stone. */
  const ThreatLength: int := 4
  /** The weight of each of the player's five-in-a-row cells. */
  const WinningMovePriority: int := 500
  const MaxPriorityScore: int := 100
  const MinPriorityScore: int := 10

  /** 1 when b holds, 0 otherwise: one count per side that is a threat. */
  function Ind(b: bool): int
  {
    if b then 1 else 0
  }

  // ---- Threats ----

  /** The cell at offset i from (r, c) along d is on the board and holds p or nothing. */
  ghost predicate OpenAt(g: Grid, r: int, c: int, d: Dir, i: int, p: int)
    requires WellFormed(g, Size)
  {
    OwnsAt(g, Size, r, c, d, i, p) || OwnsAt(g, Size, r, c, d, i, Empty)
  }

  /** None of the offsets 1..j along d is off the board or holds another stone. */
  ghost predicate Clear(g: Grid, r: int, c: int, d: Dir, j: int, p: int)
    requires WellFormed(g, Size)
  {
    forall i :: 1 <= i <= j ==> OpenAt(g, r, c, d, i, p)
  }

  /** The number of p's stones among the offsets 1..j along d. */
  ghost function StonesUpTo(g: Grid, r: int, c: int, d: Dir, j: int, p: int): (k: int)
    requires WellFormed(g, Size)
    ensures 0 <= k && (j >= 0 ==> k <= j)
    decreases j
  {
    if j <= 0 then 0
    else StonesUpTo(g, r, c, d, j - 1, p) + Ind(OwnsAt(g, Size, r, c, d, j, p))
  }

  /** A threat on the d side of (r, c): within the next ThreatLength - 1 cells along d,
      before the board edge or a stone of another player, p has two stones. */
  ghost predicate SideThreat(g: Grid, r: int, c: int, d: Dir, p: int)
    requires WellFormed(g, Size)
  {
    exists j {:trigger Clear(g, r, c, d, j, p)} ::
      2 <= j < ThreatLength && Clear(g, r, c, d, j, p) && StonesUpTo(g, r, c, d, j, p) >= 2
  }

  /** The scan of one side stops at offset m, either at the edge or at another stone
      (m < ThreatLength) or after the last offset (m == ThreatLength), having seen
      fewer than two of p's stones: no threat on that side. */
  lemma NoSideThreat(g: Grid, r: int, c: int, d: Dir, p: int, m: int)
    requires WellFormed(g, Size) && 1 <= m <= ThreatLength
    requires Clear(g, r, c, d, m - 1, p) && StonesUpTo(g, r, c, d, m - 1, p) < 2
    requires m < ThreatLength ==> !OpenAt(g, r, c, d, m, p)
    ensures !SideThreat(g, r, c, d, p)
  {
    forall j | 2 <= j < ThreatLength && Clear(g, r, c, d, j, p) ensures StonesUpTo(g, r, c, d, j, p) < 2 {
      assert j < m;
      StonesGrow(g, r, c, d, p, j, m - 1);
    }
  }

  lemma {:induction false} StonesGrow(g: Grid, r: int, c: int, d: Dir, p: int, j: int, k: int)
    requires WellFormed(g, Size) && j <= k
    ensures StonesUpTo(g, r, c, d, j, p) <= StonesUpTo(g, r, c, d, k, p)
    decreases k - j
  {
    if j < k {
      StonesGrow(g, r, c, d, p, j, k - 1);
    }
  }

  /** The threats counted for one direction: one per side with a threat. */
  ghost function DirThreats(g: Grid, r: int, c: int, d: Dir, p: int): int
    requires WellFormed(g, Size)
  {
    Ind(SideThreat(g, r, c, d, p)) + Ind(SideThreat(g, r, c, Dir(-d.dr, -d.dc), p))
  }

  /** The threats around (r, c) over the directions ds. */
  ghost function ThreatsAlong(g: Grid, r: int, c: int, p: int, ds: seq<Dir>): (t: int)
    requires WellFormed(g, Size)
    ensures 0 <= t <= 2 * |ds|
  {
    if ds == [] then 0 else DirThreats(g, r, c, ds[0], p) + ThreatsAlong(g, r, c, p, ds[1..])
  }

  /** The threats around (r, c) over the eight directions. */
  ghost function ThreatsAt(g: Grid, r: int, c: int, p: int): (t: int)
    requires WellFormed(g, Size)
    ensures 0 <= t <= 16
  {
    ThreatsAlong(g, r, c, p, EightDirections)
  }

  /** The eight directions one by one, in the player's order. */
  lemma ThreatsAtEight(g: Grid, r: int, c: int, p: int)
    requires WellFormed(g, Size)
    ensures ThreatsAt(g, r, c, p) ==
      DirThreats(g, r, c, Dir(0, -1), p) + DirThreats(g, r, c, Dir(0, 1), p) +
      DirThreats(g, r, c, Dir(-1, 0), p) + DirThreats(g, r, c, Dir(1, 0), p) +
      DirThreats(g, r, c, Dir(-1, -1), p) + DirThreats(g, r, c, Dir(1, 1), p) +
      DirThreats(g, r, c, Dir(-1, 1), p) + DirThreats(g, r, c, Dir(1, -1), p)
  {
    var ds := EightDirections;
    assert ThreatsAlong(g, r, c, p, ds[8..]) == 0;
    assert ThreatsAlong(g, r, c, p, ds[7..]) == DirThreats(g, r, c, ds[7], p) + ThreatsAlong(g, r, c, p, ds[8..]);
    assert ThreatsAlong(g, r, c, p, ds[6..]) == DirThreats(g, r, c, ds[6], p) + ThreatsAlong(g, r, c, p, ds[7..]);
    assert ThreatsAlong(g, r, c, p, ds[5..]) == DirThreats(g, r, c, ds[5], p) + ThreatsAlong(g, r, c, p, ds[6..]);
    assert ThreatsAlong(g, r, c, p, ds[4..]) == DirThreats(g, r, c, ds[4], p) + ThreatsAlong(g, r, c, p, ds[5..]);
    assert ThreatsAlong(g, r, c, p, ds[3..]) == DirThreats(g, r, c, ds[3], p) + ThreatsAlong(g, r, c, p, ds[4..]);
    assert ThreatsAlong(g, r, c, p, ds[2..]) == DirThreats(g, r, c, ds[2], p) + ThreatsAlong(g, r, c, p, ds[3..]);
    assert ThreatsAlong(g, r, c, p, ds[1..]) == DirThreats(g, r, c, ds[1], p) + ThreatsAlong(g, r, c, p, ds[2..]);
    assert ThreatsAlong(g, r, c, p, ds) == DirThreats(g, r, c, ds[0], p) + ThreatsAlong(g, r, c, p, ds[1..]);
  }

  /** The number of the eight sides of (r, c) that carry a threat. */
  ghost function ThreatSides(g: Grid, r: int, c: int, p: int): (t: int)
    requires WellFormed(g, Size)
  {
    Ind(SideThreat(g, r, c, Dir(0, -1), p)) + Ind(SideThreat(g, r, c, Dir(0, 1), p)) +
    Ind(SideThreat(g, r, c, Dir(-1, 0), p)) + Ind(SideThreat(g, r, c, Dir(1, 0), p)) +
    Ind(SideThreat(g, r, c, Dir(-1, -1), p)) + Ind(SideThreat(g, r, c, Dir(1, 1), p)) +
    Ind(SideThreat(g, r, c, Dir(-1, 1), p)) + Ind(SideThreat(g, r, c, Dir(1, -1), p))
  }

  /** Every direction is checked together with its opposite, so every side is counted
      twice and the threats at a cell are an even number. */
  lemma ThreatsCountedTwice(g: Grid, r: int, c: int, p: int)
    requires WellFormed(g, Size)
    ensures ThreatsAt(g, r, c, p) == 2 * ThreatSides(g, r, c, p)
    ensures ThreatsAt(g, r, c, p) % 2 == 0
  {
    ThreatsAtEight(g, r, c, p);
  }

  /** The threats at (r, c) when it holds p's stone, nothing otherwise. */
  ghost function ThreatWeight(g: Grid, p: int, r: int, c: int): (w: int)
    requires WellFormed(g, Size)
    ensures 0 <= w <= 16
  {
    if InRange(Size, r, c) && At(g, r, c) == p then ThreatsAt(g, r, c, p) else 0
  }

  /** The threat count's weight of a cell (r, c) of a grid h. */
  ghost function ThreatWeights(p: int): (Grid, int, int) -> int
  {
    (h, r, c) => if WellFormed(h, Size) then ThreatWeight(h, p, r, c) else 0
  }

  /** Adding the weight of (r, c) to the sum of the cells before it gives the sum of
      the cells up to and including it. */
  lemma ThreatAccumulate(g: Grid, p: int, r: int, c: int, before: int, t: int)
    requires WellFormed(g, Size) && 1 <= r <= Size && 1 <= c <= Size
    requires before == SumBefore(ThreatWeights(p), g, Size, r, c) && t == ThreatWeight(g, p, r, c)
    ensures before + t == SumBefore(ThreatWeights(p), g, Size, r, c + 1)
  {
    SumStep(ThreatWeights(p), g, Size, r, c);
  }

  /** The threats around all of p's stones. */
  ghost function AllThreats(g: Grid, p: int): int
    requires WellFormed(g, Size)
  {
    SumCells(ThreatWeights(p), g, Size)
  }

  lemma ThreatsBounds(g: Grid, p: int)
    requires WellFormed(g, Size)
    ensures 0 <= AllThreats(g, p) <= 16 * (Size * Size)
  {
    SumCellsBounds(ThreatWeights(p), g, Size, 0, 16);
  }

  // ---- Five-in-a-row cells ----

  /** (r, c) is empty and p would have a row of five through it. */
  ghost function RowWeight(g: Grid, p: int, r: int, c: int): (w: int)
    requires WellFormed(g, Size)
    ensures 0 <= w <= 1
  {
    Ind(InRange(Size, r, c) && At(g, r, c) == Empty && PotentialAny(g, r, c, p, 5))
  }

  /** The five-in-a-row count's weight of a cell (r, c) of a grid h. */
  ghost function RowWeights(p: int): (Grid, int, int) -> int
  {
    (h, r, c) => if WellFormed(h, Size) then RowWeight(h, p, r, c) else 0
  }

  /** The number of empty cells where p would have a row of five. */
  ghost function PotentialRows(g: Grid, p: int): int
    requires WellFormed(g, Size)
  {
    SumCells(RowWeights(p), g, Size)
  }

  /** A cell counts exactly when it is empty and p wins by playing there. */
  lemma RowWeightMeaning(g: Grid, p: int, r: int, c: int)
    requires WellFormed(g, Size)
    ensures RowWeight(g, p, r, c) == 1 <==>
      (InRange(Size, r, c) && At(g, r, c) == Empty && Wins(Set(g, r, c, p), Size, r, c, p))
  {
    if InRange(Size, r, c) {
      PotentialFiveWinsByPlacing(g, r, c, p);
    }
  }

  lemma PotentialRowsBounds(g: Grid, p: int)
    requires WellFormed(g, Size)
    ensures 0 <= PotentialRows(g, p) <= Size * Size
  {
    SumCellsBounds(RowWeights(p), g, Size, 0, 1);
  }

  // ---- The score of a position ----

  /** The lower priority when the opponent has more five-in-a-row cells than me,
      the higher one otherwise. */
  ghost function BlockingPriority(g: Grid, me: int): int
    requires WellFormed(g, Size)
  {
    if PotentialRows(g, Other(me)) > PotentialRows(g, me) then MinPriorityScore else MaxPriorityScore
  }

  /** 500 per own five-in-a-row cell, 50 per own threat and the blocking priority, less
      100 per opponent five-in-a-row cell and 50 per opponent threat. */
  ghost function GameScore(g: Grid, me: int): int
    requires WellFormed(g, Size)
  {
    Weighted(PotentialRows(g, me), AllThreats(g, me), BlockingPriority(g, me),
             PotentialRows(g, Other(me)), AllThreats(g, Other(me)))
  }

  /** The weighted sum the score is made of. */
  function Weighted(rows: int, threats: int, blocking: int, opponentRows: int, opponentThreats: int): int
  {
    rows * WinningMovePriority + threats * 50 + blocking - opponentRows * 100 - opponentThreats * 50
  }

  /** Counts within their ranges keep the weighted sum within the 32-bit range. */
  lemma WeightedFits(rows: int, threats: int, blocking: int, opponentRows: int, opponentThreats: int)
    requires 0 <= rows <= Size * Size && 0 <= opponentRows <= Size * Size
    requires 0 <= threats <= 16 * (Size * Size) && 0 <= opponentThreats <= 16 * (Size * Size)
    requires MinPriorityScore <= blocking <= MaxPriorityScore
    ensures MinInt < Weighted(rows, threats, blocking, opponentRows, opponentThreats)
    ensures Weighted(rows, threats, blocking, opponentRows, opponentThreats) + MaxPriorityScore <= MaxInt
  {
    assert 0 <= rows * WinningMovePriority <= 112500;
    assert 0 <= threats * 50 <= 180000 && 0 <= opponentThreats * 50 <= 180000;
    assert 0 <= opponentRows * 100 <= 22500;
  }

  /** The score, and the score with the blocking bonus added, stay strictly inside the
      32-bit range the player computes in, above the initial best score MinInt. */
  lemma GameScoreFits(g: Grid, me: int)
    requires WellFormed(g, Size)
    ensures MinInt < GameScore(g, me) && GameScore(g, me) + MaxPriorityScore <= MaxInt
  {
    PotentialRowsBounds(g, me);
    PotentialRowsBounds(g, Other(me));
    ThreatsBounds(g, me);
    ThreatsBounds(g, Other(me));
    WeightedFits(PotentialRows(g, me), AllThreats(g, me), BlockingPriority(g, me),
                 PotentialRows(g, Other(me)), AllThreats(g, Other(me)));
  }
}
