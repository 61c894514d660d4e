/** The Hard player's move ordering: candidates sorted in ascending order of the key
    "board score after the move minus the distance to the centre". */
module Ordering {
  import opened Grids
  import opened EngineBoard

  /** Four times the squared Euclidean distance from a cell to the point
      (Size / 2, Size / 2) = (7.5, 7.5) that the distance is measured from; an integer,
      unlike the distance. */
  function Dist4(a: Cell): (q: int)
    ensures q >= 0
    ensures InRange(Size, a.row, a.column) ==> q <= 2 * Size * Size
  {
    var dr := 2 * a.row - Size;
    var dc := 2 * a.column - Size;
    Square(dr, Size);
    Square(dc, Size);
    dr * dr + dc * dc
  }

  lemma Square(v: int, m: int)
    ensures v * v >= 0
    ensures -m <= v <= m ==> v * v <= m * m
  {
    if -m <= v <= m {
      if v >= 0 {
        assert v * v <= m * v <= m * m;
      } else {
        assert v * v <= (-m) * v <= m * m;
      }
    }
  }

  /** Ascending key order on (score, cell) pairs: the lower score first and, among equal
      scores, the cell farther from the centre first. */
  predicate KeyLe(sa: int, a: Cell, sb: int, b: Cell)
  {
    sa < sb || (sa == sb && Dist4(a) >= Dist4(b))
  }

  /** The key order is the order of the real keys score - distance, for scores that are
      multiples of 100 and on-board cells, whose distance to the centre is below 11. */
  lemma KeyOrderMatches(sa: int, sb: int, da: real, db: real, a: Cell, b: Cell)
    requires InRange(Size, a.row, a.column) && InRange(Size, b.row, b.column)
    requires sa % 100 == 0 && sb % 100 == 0
    requires 0.0 <= da && 4.0 * da * da == Dist4(a) as real
    requires 0.0 <= db && 4.0 * db * db == Dist4(b) as real
    ensures (sa as real - da <= sb as real - db) <==> KeyLe(sa, a, sb, b)
  {
    BelowEleven(da, Dist4(a));
    BelowEleven(db, Dist4(b));
    if sa != sb {
      assert sa <= sb - 100 || sb <= sa - 100;
    } else {
      SquareOrder(da, db);
    }
  }

  lemma BelowEleven(d: real, q: int)
    requires 0.0 <= d && 4.0 * d * d == q as real && q <= 2 * Size * Size
    ensures d < 11.0
  {
    SquareOrder(d, 11.0);
  }

  /** Squaring keeps the order of non-negative reals. */
  lemma SquareOrder(x: real, y: real)
    requires 0.0 <= x && 0.0 <= y
    ensures x >= y <==> x * x >= y * y
  {
    if x >= y {
      var low, mid, high := y * y, y * x, x * x;
      assert low <= mid;
      assert mid <= high;
      assert low <= high;
    } else {
      var low, mid, high := x * x, x * y, y * y;
      assert low <= mid;
      assert mid < high;
      assert low < high;
    }
  }

  /** The key order is total and transitive. */
  lemma KeyTotal(sa: int, a: Cell, sb: int, b: Cell)
    ensures KeyLe(sa, a, sb, b) || KeyLe(sb, b, sa, a)
  {
  }

  lemma KeyTrans(sa: int, a: Cell, sb: int, b: Cell, sc: int, c: Cell)
    requires KeyLe(sa, a, sb, b) && KeyLe(sb, b, sc, c)
    ensures KeyLe(sa, a, sc, c)
  {
  }

  /** Every cell of q has a score in score. */
  ghost predicate Scored(q: seq<Cell>, score: map<Cell, int>)
  {
    forall a :: a in q ==> a in score
  }

  /** q is in ascending key order. */
  ghost predicate SortedBy(q: seq<Cell>, score: map<Cell, int>)
    requires Scored(q, score)
  {
    forall i, j :: 0 <= i < j < |q| ==> KeyLe(score[q[i]], q[i], score[q[j]], q[j])
  }

  /** Placing e between a sorted prefix whose keys are at most e's and a sorted suffix
      whose keys are at least e's gives a sorted sequence. */
  lemma InsertSorted(q: seq<Cell>, p: int, e: Cell, score: map<Cell, int>)
    requires Scored(q, score) && e in score && SortedBy(q, score) && 0 <= p <= |q|
    requires forall k :: 0 <= k < p ==> KeyLe(score[q[k]], q[k], score[e], e)
    requires p < |q| ==> KeyLe(score[e], e, score[q[p]], q[p])
    ensures Scored(q[..p] + [e] + q[p..], score) && SortedBy(q[..p] + [e] + q[p..], score)
  {
    var u := q[..p] + [e] + q[p..];
    assert forall k :: 0 <= k < p ==> u[k] == q[k];
    assert forall k :: p < k < |u| ==> u[k] == q[k - 1];
    assert Scored(u, score) by {
      forall a | a in u ensures a in score {
        var k :| 0 <= k < |u| && u[k] == a;
      }
    }
    forall i, j | 0 <= i < j < |u| ensures KeyLe(score[u[i]], u[i], score[u[j]], u[j]) {
      if j == p {
      } else if i == p {
        if j - 1 > p {
          KeyTrans(score[e], e, score[q[p]], q[p], score[q[j - 1]], q[j - 1]);
        }
      } else if i < p < j {
        KeyTrans(score[q[i]], q[i], score[e], e, score[q[j - 1]], q[j - 1]);
      }
    }
  }

  /** Inserts e after every element whose key is at most e's, keeping the order. */
  method Insert(q: seq<Cell>, e: Cell, score: map<Cell, int>) returns (u: seq<Cell>)
    requires Scored(q, score) && e in score && SortedBy(q, score)
    ensures Scored(u, score) && SortedBy(u, score)
    ensures multiset(u) == multiset(q) + multiset{e}
  {
    var p := 0;
    while p < |q| && KeyLe(score[q[p]], q[p], score[e], e)
      invariant 0 <= p <= |q|
      invariant forall k :: 0 <= k < p ==> KeyLe(score[q[k]], q[k], score[e], e)
    {
      p := p + 1;
    }
    if p < |q| {
      KeyTotal(score[q[p]], q[p], score[e], e);
    }
    InsertSorted(q, p, e, score);
    u := q[..p] + [e] + q[p..];
    assert q == q[..p] + q[p..];
  }

  /** An insertion sort on the precomputed scores: the same cells in ascending key order. */
  method SortByKey(moves: seq<Cell>, score: map<Cell, int>) returns (ordered: seq<Cell>)
    requires Scored(moves, score)
    ensures Scored(ordered, score) && SortedBy(ordered, score)
    ensures multiset(ordered) == multiset(moves)
  {
    ordered := [];
    var i := 0;
    while i < |moves|
      invariant 0 <= i <= |moves|
      invariant Scored(ordered, score) && SortedBy(ordered, score)
      invariant multiset(ordered) == multiset(moves[..i])
    {
      ordered := Insert(ordered, moves[i], score);
      assert moves[..i + 1] == moves[..i] + [moves[i]];
      i := i + 1;
    }
    assert moves[..i] == moves;
  }
}
