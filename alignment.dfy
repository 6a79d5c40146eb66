/** Alignment engine of utils.h: the tie-break helpers, the `Cost` cell and the
    two row-by-row dynamic-programming sweeps (`dtw_matching` on absolute
    pitches, `dp_matching` on contour tokens).

    Each sweep is specified cell by cell: `DtwCell(q, r, i, j)` and
    `DpCell(q, r, i, j)` are the cell that the source pushes into row `i` at
    column `j`. The sweep methods keep only a `prev` and a `curr` row, as the
    source does, and are proved to return row `|q| - 1` of that grid. */
module Alignment {

  function Abs(x: int): nat { if x < 0 then -x else x }

  /** The `pos_min(a,b,c)` macro: 1 or 2 when that argument is strictly the
      smallest, otherwise 3 (so every tie that is not won outright goes to 3). */
  function PosMin(a: int, b: int, c: int): (m: int)
    ensures 1 <= m <= 3
    ensures m == 1 <==> a < b && a < c
    ensures m == 2 <==> b < a && b < c
  {
    if a < b && a < c then 1 else if b < a && b < c then 2 else 3
  }

  /** The value of the option `PosMin` picks. */
  function PosMinValue(a: int, b: int, c: int): int {
    var m := PosMin(a, b, c);
    if m == 1 then a else if m == 2 then b else c
  }

  /** What the tie-break promises and what it does not: the picked option is
      never larger than the third, a strict minimum is always picked, but two
      equal first options send the choice to the third even when it is larger
      (`pos_min(1,1,5) == 3`). */
  lemma PosMinChoice(a: int, b: int, c: int)
    ensures PosMinValue(a, b, c) <= c
    ensures (a < b && a < c) || (b < a && b < c) || (c < a && c < b) ==>
      PosMinValue(a, b, c) <= a && PosMinValue(a, b, c) <= b
    ensures a == b ==> PosMin(a, b, c) == 3
    ensures PosMin(1, 1, 5) == 3
  {
  }

  /** A DP cell: the run being aligned starts at reference column `ini` and ends
      at `fin`, with accumulated cost `score`; `height` is the pitch offset the
      DTW sweep carries along the run (the contour sweep leaves it 0). */
  datatype Cost = Cost(ini: int, fin: int, score: int, height: int)

  /** Length of the run of a cell. */
  function Len(c: Cost): int { c.fin - c.ini }

  /** Normalised score `score / (fin - ini)`, exact. A zero-length run has no
      normalised score (the source divides by zero there); such runs are removed
      before sorting, and 0 stands in for them here. */
  function NormScore(c: Cost): (r: real)
    ensures Len(c) > 0 ==> r * Len(c) as real == c.score as real
    ensures Len(c) <= 0 ==> r == 0.0
  {
    if Len(c) > 0 then c.score as real / Len(c) as real else 0.0
  }

  /** Normalised scores of cells with nonnegative score are nonnegative, and
      zero exactly when the score is. */
  lemma NormScoreSign(c: Cost)
    requires Len(c) > 0 && c.score >= 0
    ensures NormScore(c) >= 0.0
    ensures NormScore(c) == 0.0 <==> c.score == 0
  {
    var l := Len(c) as real;
    var x := c.score as real;
    assert NormScore(c) * l == x;
  }

  /** `Cost::operator<`: compares normalised scores, i.e. (cross-multiplying by
      the two positive lengths) `a.score * Len(b) < b.score * Len(a)`. */
  function CostLess(a: Cost, b: Cost): (less: bool)
    requires Len(a) > 0 && Len(b) > 0
    ensures less <==> a.score * Len(b) < b.score * Len(a)
  {
    CrossMultiply(a.score as real, Len(a) as real, b.score as real, Len(b) as real);
    NormScore(a) < NormScore(b)
  }

  lemma CrossMultiply(x: real, p: real, y: real, q: real)
    requires p > 0.0 && q > 0.0
    ensures x / p < y / q <==> x * q < y * p
  {
    var u, v := x / p, y / q;
    assert u * p == x && v * q == y;
    assert x * q == u * (p * q) && y * p == v * (p * q);
    if u < v {
      assert u * (p * q) < v * (p * q);
    } else {
      assert v * (p * q) <= u * (p * q);
    }
  }

  /** `distance_ij`: semitone distance capped at an octave. The DTW sweep of the
      source does not call it. */
  function DistanceIJ(a: int, b: int): (d: int)
    ensures 0 <= d <= 12
    ensures d <= Abs(a - b)
    ensures d < 12 ==> d == Abs(a - b)
  {
    var d := Abs(a - b);
    if d > 12 then 12 else d
  }

  /** The capped distance is symmetric and obeys the triangle inequality. */
  lemma DistanceIJMetric(a: int, b: int, c: int)
    ensures DistanceIJ(a, b) == DistanceIJ(b, a)
    ensures DistanceIJ(a, a) == 0
    ensures DistanceIJ(a, c) <= DistanceIJ(a, b) + DistanceIJ(b, c)
  {
  }

  /** Distance between a cell's carried height and the current interval `d`. */
  function Gap(c: Cost, d: int): nat { Abs(c.height - d) }

  /** `min(c1,c2,c3,d)` of the DTW sweep: the predecessor whose height is
      strictly closest to `d`; on a tie, `pos_min` on the scores of the tied
      ones, with 1000 standing in for the score of the one left out. */
  function Min(c1: Cost, c2: Cost, c3: Cost, d: int): (m: int)
    ensures 1 <= m <= 3
    ensures Gap(c1, d) < Gap(c2, d) && Gap(c1, d) < Gap(c3, d) ==> m == 1
    ensures Gap(c2, d) < Gap(c1, d) && Gap(c2, d) < Gap(c3, d) ==> m == 2
    ensures Gap(c3, d) < Gap(c1, d) && Gap(c3, d) < Gap(c2, d) ==> m == 3
  {
    var a1, a2, a3 := Gap(c1, d), Gap(c2, d), Gap(c3, d);
    if a1 < a2 && a1 < a3 then 1
    else if a2 < a1 && a2 < a3 then 2
    else if a3 < a1 && a3 < a2 then 3
    else if a1 == a2 && a1 == a3 then PosMin(c1.score, c2.score, c3.score)
    else if a1 == a2 then PosMin(c1.score, c2.score, 1000)
    else if a1 == a3 then PosMin(c1.score, 1000, c3.score)
    else PosMin(1000, c2.score, c3.score)
  }

  function Pick(c1: Cost, c2: Cost, c3: Cost, m: int): Cost {
    if m == 1 then c1 else if m == 2 then c2 else c3
  }

  /** When the scores are distinct and below the sentinel, `Min` picks a
      predecessor whose height is closest to `d`, and among those the one with
      the smallest score. */
  lemma MinPicksClosest(c1: Cost, c2: Cost, c3: Cost, d: int)
    requires c1.score < 1000 && c2.score < 1000 && c3.score < 1000
    requires c1.score != c2.score && c1.score != c3.score && c2.score != c3.score
    ensures var p := Pick(c1, c2, c3, Min(c1, c2, c3, d));
      Gap(p, d) <= Gap(c1, d) && Gap(p, d) <= Gap(c2, d) && Gap(p, d) <= Gap(c3, d) &&
      (Gap(c1, d) == Gap(p, d) ==> p.score <= c1.score) &&
      (Gap(c2, d) == Gap(p, d) ==> p.score <= c2.score) &&
      (Gap(c3, d) == Gap(p, d) ==> p.score <= c3.score)
  {
  }

  /** The sentinel quirk. On a tie for the closest height, the predecessor left
      out of the tie enters `pos_min` with score 1000. So when the left and upper
      predecessors tie with equal scores, the farther diagonal one wins; and
      whenever both tied scores exceed 1000 (at or above it, for left and upper),
      the farther predecessor wins however the tied scores differ. */
  lemma MinSentinelQuirk(c1: Cost, c2: Cost, c3: Cost, d: int)
    ensures Gap(c1, d) == Gap(c2, d) < Gap(c3, d) && c1.score == c2.score ==> Min(c1, c2, c3, d) == 3
    ensures Gap(c1, d) == Gap(c2, d) < Gap(c3, d) && c1.score >= 1000 && c2.score >= 1000 ==> Min(c1, c2, c3, d) == 3
    ensures Gap(c1, d) == Gap(c3, d) < Gap(c2, d) && c1.score > 1000 && c3.score > 1000 ==> Min(c1, c2, c3, d) == 2
    ensures Gap(c2, d) == Gap(c3, d) < Gap(c1, d) && c2.score > 1000 && c3.score > 1000 ==> Min(c1, c2, c3, d) == 1
  {
  }

  /** A diagonal predecessor with zero score and exactly the current interval
      always wins `Min` when the other scores are nonnegative. */
  lemma MinPrefersPerfectDiagonal(c1: Cost, c2: Cost, c3: Cost, d: int)
    requires c1.score >= 0 && c2.score >= 0
    requires c3.score == 0 && Gap(c3, d) == 0
    ensures Min(c1, c2, c3, d) == 3
  {
  }

  /** `Min` depends only on the gaps and the scores, so moving every height and
      the interval by the same amount changes nothing. */
  lemma MinShift(c1: Cost, c2: Cost, c3: Cost, x: int, y: int, k: int)
    ensures Min(Raise(c1, k), Raise(c2, k), Raise(c3, k), (x + k) - y) == Min(c1, c2, c3, x - y)
  {
    assert Gap(Raise(c1, k), (x + k) - y) == Gap(c1, x - y);
    assert Gap(Raise(c2, k), (x + k) - y) == Gap(c2, x - y);
    assert Gap(Raise(c3, k), (x + k) - y) == Gap(c3, x - y);
  }

  function Raise(c: Cost, k: int): Cost { c.(height := c.height + k) }

  // ---------------------------------------------------------------------------
  // dtw_matching: the grid

  /** Column 0 of a later DTW row, for query pitch `x` and reference pitch `y`:
      extends the cell above it (the source writes its run start as the
      constant 0). */
  function DtwFirstColumn(up: Cost, x: int, y: int): (c: Cost)
    ensures c.ini == 0 && c.fin == 0 && c.height == up.height
    ensures c.score >= up.score
    ensures c.score == up.score <==> up.height == x - y
  {
    Cost(0, 0, up.score + Abs(up.height - (x - y)), up.height)
  }

  /** One inner DTW step at column `j` for query pitch `x` and reference pitch
      `y`: extend the predecessor chosen by `Min` for the interval `x - y`,
      adding the distance between its height and that interval. */
  function DtwStep(left: Cost, up: Cost, diag: Cost, x: int, y: int, j: int): Cost {
    Extend(Pick(left, up, diag, Min(left, up, diag, x - y)), x - y, j)
  }

  /** The run of `from` extended to column `j`, adding the distance between its
      height and the interval `d`. */
  function Extend(from: Cost, d: int, j: int): Cost {
    Cost(from.ini, j, from.score + Gap(from, d), from.height)
  }

  /** What one inner DTW step does: it extends one of its three predecessors
      to column `j`, keeping that predecessor's run start and height and adding
      the gap between its height and the interval `x - y`; a predecessor
      strictly closest in height is the one extended. */
  lemma DtwStepChoice(left: Cost, up: Cost, diag: Cost, x: int, y: int, j: int)
    ensures var c := DtwStep(left, up, diag, x, y, j);
      c == Extend(left, x - y, j) || c == Extend(up, x - y, j) || c == Extend(diag, x - y, j)
    ensures Gap(left, x - y) < Gap(up, x - y) && Gap(left, x - y) < Gap(diag, x - y) ==>
      DtwStep(left, up, diag, x, y, j) == Extend(left, x - y, j)
    ensures Gap(up, x - y) < Gap(left, x - y) && Gap(up, x - y) < Gap(diag, x - y) ==>
      DtwStep(left, up, diag, x, y, j) == Extend(up, x - y, j)
    ensures Gap(diag, x - y) < Gap(left, x - y) && Gap(diag, x - y) < Gap(up, x - y) ==>
      DtwStep(left, up, diag, x, y, j) == Extend(diag, x - y, j)
  {
  }

  /** The first `k` cells of the DTW row that follows `prev` for query pitch `x`;
      the interval of column `j` is the raw signed difference `x - r[j]`. */
  function DtwRowPrefix(prev: seq<Cost>, x: int, r: seq<int>, k: nat): (row: seq<Cost>)
    requires 0 < k <= |r| && |prev| == |r|
    ensures |row| == k
    decreases k
  {
    if k == 1 then [DtwFirstColumn(prev[0], x, r[0])]
    else
      var row := DtwRowPrefix(prev, x, r, k - 1);
      row + [DtwStep(row[k - 2], prev[k - 1], prev[k - 2], x, r[k - 1], k - 1)]
  }

  /** Row `i` of `dtw_matching` for query `q` against reference `r`. Row 0
      starts a run at every column with score 0 and height `q[0] - r[j]`. */
  function DtwRow(q: seq<int>, r: seq<int>, i: nat): (row: seq<Cost>)
    requires i < |q| && 0 < |r|
    ensures |row| == |r|
  {
    if i == 0 then seq(|r|, j requires 0 <= j < |r| => Cost(j, j, 0, q[0] - r[j]))
    else DtwRowPrefix(DtwRow(q, r, i - 1), q[i], r, |r|)
  }

  /** The cell of row `i`, column `j`. */
  function DtwCell(q: seq<int>, r: seq<int>, i: nat, j: nat): Cost
    requires i < |q| && j < |r|
  {
    DtwRow(q, r, i)[j]
  }

  /** A cell of a row prefix does not depend on how long the prefix is. */
  lemma {:induction false} DtwRowPrefixAt(prev: seq<Cost>, x: int, r: seq<int>, k: nat, j: nat)
    requires 0 < k <= |r| && |prev| == |r| && j < k
    ensures DtwRowPrefix(prev, x, r, k)[j] == DtwRowPrefix(prev, x, r, j + 1)[j]
    decreases k
  {
    if j + 1 < k {
      DtwRowPrefixAt(prev, x, r, k - 1, j);
    }
  }

  /** Extending a row prefix by one inner cell. */
  lemma DtwRowPrefixSnoc(prev: seq<Cost>, x: int, r: seq<int>, k: nat)
    requires 0 < k < |r| && |prev| == |r|
    ensures DtwRowPrefix(prev, x, r, k + 1) ==
      DtwRowPrefix(prev, x, r, k) + [DtwStep(DtwRowPrefix(prev, x, r, k)[k - 1], prev[k], prev[k - 1], x, r[k], k)]
  {
  }

  /** The cell-by-cell recurrence that the two-row sweep computes. */
  lemma DtwCellRecurrence(q: seq<int>, r: seq<int>, i: nat, j: nat)
    requires i < |q| && j < |r|
    ensures i == 0 ==> DtwCell(q, r, i, j) == Cost(j, j, 0, q[0] - r[j])
    ensures i > 0 && j == 0 ==> DtwCell(q, r, i, j) == DtwFirstColumn(DtwCell(q, r, i - 1, 0), q[i], r[0])
    ensures i > 0 && j > 0 ==>
      DtwCell(q, r, i, j) == DtwStep(DtwCell(q, r, i, j - 1), DtwCell(q, r, i - 1, j), DtwCell(q, r, i - 1, j - 1), q[i], r[j], j)
  {
    if i > 0 {
      var prev := DtwRow(q, r, i - 1);
      DtwRowPrefixAt(prev, q[i], r, |r|, j);
      if j > 0 {
        DtwRowPrefixAt(prev, q[i], r, |r|, j - 1);
      }
    }
  }

  /** Shape of a DTW cell at column `j`: it ends at its own column, starts at
      or before it, has a nonnegative score, and its height is the interval
      `q[0] - r[ini]` of the run's start. */
  predicate DtwShaped(q: seq<int>, r: seq<int>, c: Cost, j: nat)
    requires 0 < |q| && j < |r|
  {
    c.fin == j && 0 <= c.ini <= j && c.score >= 0 && c.height == q[0] - r[c.ini]
  }

  /** An inner step of well-shaped predecessors is well shaped. */
  lemma DtwStepShaped(q: seq<int>, r: seq<int>, left: Cost, up: Cost, diag: Cost, x: int, y: int, j: nat)
    requires 0 < |q| && 0 < j < |r|
    requires DtwShaped(q, r, left, j - 1) && DtwShaped(q, r, up, j) && DtwShaped(q, r, diag, j - 1)
    ensures DtwShaped(q, r, DtwStep(left, up, diag, x, y, j), j)
  {
  }

  /** Every DTW cell is well shaped, because `ini` and `height` are always copied
      from the same predecessor; row 0 has score 0. */
  lemma {:induction false} DtwCellShape(q: seq<int>, r: seq<int>, i: nat, j: nat)
    requires i < |q| && j < |r|
    ensures DtwShaped(q, r, DtwCell(q, r, i, j), j)
    ensures i == 0 ==> DtwCell(q, r, i, j).score == 0 && DtwCell(q, r, i, j).ini == j
    decreases i, j
  {
    DtwCellRecurrence(q, r, i, j);
    if i > 0 {
      if j == 0 {
        DtwCellShape(q, r, i - 1, 0);
      } else {
        DtwCellShape(q, r, i, j - 1);
        DtwCellShape(q, r, i - 1, j);
        DtwCellShape(q, r, i - 1, j - 1);
        DtwStepShaped(q, r, DtwCell(q, r, i, j - 1), DtwCell(q, r, i - 1, j), DtwCell(q, r, i - 1, j - 1), q[i], r[j], j);
      }
    }
  }

  /** `t` is the query `q` sung `k` semitones higher. */
  predicate Transposed(t: seq<int>, q: seq<int>, k: int) {
    |t| == |q| && forall i :: 0 <= i < |q| ==> t[i] == q[i] + k
  }

  lemma PickRaise(c1: Cost, c2: Cost, c3: Cost, m: int, k: int)
    ensures Pick(Raise(c1, k), Raise(c2, k), Raise(c3, k), m) == Raise(Pick(c1, c2, c3, m), k)
  {
  }

  lemma ExtendRaise(from: Cost, x: int, y: int, j: int, k: int)
    ensures Extend(Raise(from, k), (x + k) - y, j) == Raise(Extend(from, x - y, j), k)
  {
  }

  /** Raising all three predecessors and the query pitch by `k` raises the
      step's result by `k` and changes nothing else. */
  lemma DtwStepShift(left: Cost, up: Cost, diag: Cost, x: int, y: int, j: int, k: int)
    ensures DtwStep(Raise(left, k), Raise(up, k), Raise(diag, k), x + k, y, j) == Raise(DtwStep(left, up, diag, x, y, j), k)
  {
    MinShift(left, up, diag, x, y, k);
    PickRaise(left, up, diag, Min(left, up, diag, x - y), k);
    ExtendRaise(Pick(left, up, diag, Min(left, up, diag, x - y)), x, y, j, k);
  }

  /** Every cell of `row'` is the corresponding cell of `row` raised by `k`. */
  predicate RaisedRow(row': seq<Cost>, row: seq<Cost>, k: int) {
    |row'| == |row| && forall c :: 0 <= c < |row| ==> row'[c] == Raise(row[c], k)
  }

  /** Raising the previous row and the query pitch by `k` raises the next row
      prefix by `k`. */
  lemma {:induction false} DtwRowPrefixRaised(prev': seq<Cost>, prev: seq<Cost>, x: int, r: seq<int>, k: int, m: nat)
    requires 0 < m <= |r| && |prev| == |r| && RaisedRow(prev', prev, k)
    ensures RaisedRow(DtwRowPrefix(prev', x + k, r, m), DtwRowPrefix(prev, x, r, m), k)
    decreases m
  {
    if m == 1 {
      assert (x + k) - r[0] == (x - r[0]) + k;
    } else {
      DtwRowPrefixRaised(prev', prev, x, r, k, m - 1);
      var row', row := DtwRowPrefix(prev', x + k, r, m - 1), DtwRowPrefix(prev, x, r, m - 1);
      DtwRowPrefixSnoc(prev', x + k, r, m - 1);
      DtwRowPrefixSnoc(prev, x, r, m - 1);
      DtwStepShift(row[m - 2], prev[m - 1], prev[m - 2], x, r[m - 1], m - 1, k);
    }
  }

  lemma RaisedRowCongruence(rowT: seq<Cost>, rowT': seq<Cost>, rowQ: seq<Cost>, rowQ': seq<Cost>, k: int)
    requires rowT == rowT' && rowQ == rowQ' && RaisedRow(rowT', rowQ', k)
    ensures RaisedRow(rowT, rowQ, k)
  {
  }

  /** The DTW sweep is transposition invariant: singing the query `k` semitones
      higher leaves every run and score unchanged and only raises the heights. */
  lemma {:induction false} DtwTransposition(q: seq<int>, t: seq<int>, r: seq<int>, k: int, i: nat)
    requires Transposed(t, q, k)
    requires i < |q| && 0 < |r|
    ensures RaisedRow(DtwRow(t, r, i), DtwRow(q, r, i), k)
  {
    if i == 0 {
      forall j | 0 <= j < |r|
        ensures DtwRow(t, r, 0)[j] == Raise(DtwRow(q, r, 0)[j], k)
      {
        assert t[0] - r[j] == (q[0] - r[j]) + k;
      }
    } else {
      DtwTransposition(q, t, r, k, i - 1);
      var prevT, prevQ := DtwRow(t, r, i - 1), DtwRow(q, r, i - 1);
      assert t[i] == q[i] + k;
      DtwRowPrefixRaised(prevT, prevQ, q[i], r, k, |r|);
      RaisedRowCongruence(DtwRow(t, r, i), DtwRowPrefix(prevT, q[i] + k, r, |r|),
        DtwRow(q, r, i), DtwRowPrefix(prevQ, q[i], r, |r|), k);
    }
  }

  /** A diagonal predecessor with score 0 and exactly the current interval is
      extended, keeping score 0. */
  lemma DtwStepPerfect(left: Cost, up: Cost, diag: Cost, x: int, y: int, j: int)
    requires left.score >= 0 && up.score >= 0
    requires diag.score == 0 && diag.height == x - y
    ensures DtwStep(left, up, diag, x, y, j) == Cost(diag.ini, j, 0, x - y)
  {
    MinPrefersPerfectDiagonal(left, up, diag, x - y);
  }

  /** The query occurs in the reference at column `a`, transposed by `k`. */
  predicate OccursTransposed(q: seq<int>, r: seq<int>, a: nat, k: int) {
    a + |q| <= |r| && forall t :: 0 <= t < |q| ==> q[t] == r[a + t] + k
  }

  /** An occurrence of the query in the reference, transposed by `k`, is aligned
      exactly: cell (i, a+i) is the run from `a` with score 0. */
  lemma {:induction false} DtwOccurrence(q: seq<int>, r: seq<int>, a: nat, k: int, i: nat)
    requires OccursTransposed(q, r, a, k)
    requires i < |q|
    ensures DtwCell(q, r, i, a + i) == Cost(a, a + i, 0, k)
  {
    var j := a + i;
    assert q[i] == r[j] + k;
    DtwCellRecurrence(q, r, i, j);
    if i > 0 {
      DtwOccurrence(q, r, a, k, i - 1);
      DtwCellShape(q, r, i, j - 1);
      DtwCellShape(q, r, i - 1, j);
      DtwStepPerfect(DtwCell(q, r, i, j - 1), DtwCell(q, r, i - 1, j), DtwCell(q, r, i - 1, j - 1), q[i], r[j], j);
    }
  }

  // ---------------------------------------------------------------------------
  // dtw_matching: the sweep

  /** One row of `dtw_matching`'s sweep: `curr` is computed from `prev` for
      query token `x`, column by column. */
  method DtwNextRow(prev: seq<Cost>, x: int, r: seq<int>) returns (curr: seq<Cost>)
    requires 0 < |r| && |prev| == |r|
    ensures curr == DtwRowPrefix(prev, x, r, |r|)
  {
    curr := [Cost(0, 0, prev[0].score + Abs(prev[0].height - (x - r[0])), prev[0].height)];
    var j := 1;
    while j < |r|
      invariant 1 <= j <= |r|
      invariant curr == DtwRowPrefix(prev, x, r, j)
    {
      var dist := x - r[j];
      var m := Min(curr[j - 1], prev[j], prev[j - 1], dist);
      var next: Cost;
      if m == 1 {
        next := Cost(curr[j - 1].ini, j, curr[j - 1].score + Abs(curr[j - 1].height - dist), curr[j - 1].height);
      } else if m == 2 {
        next := Cost(prev[j].ini, j, prev[j].score + Abs(prev[j].height - dist), prev[j].height);
      } else {
        next := Cost(prev[j - 1].ini, j, prev[j - 1].score + Abs(prev[j - 1].height - dist), prev[j - 1].height);
      }
      assert next == DtwStep(curr[j - 1], prev[j], prev[j - 1], x, r[j], j);
      DtwRowPrefixSnoc(prev, x, r, j);
      curr := curr + [next];
      j := j + 1;
    }
  }

  /** The DTW sweep of `dtw_matching`, keeping only the `prev` and `curr` rows as
      the source does. Returns the final row. */
  method DtwSweep(q: seq<int>, r: seq<int>) returns (last: seq<Cost>)
    requires 0 < |q| && 0 < |r|
    ensures last == DtwRow(q, r, |q| - 1)
  {
    var prev: seq<Cost> := [];
    var j := 0;
    while j < |r|
      invariant 0 <= j <= |r| && |prev| == j
      invariant forall k :: 0 <= k < j ==> prev[k] == Cost(k, k, 0, q[0] - r[k])
    {
      prev := prev + [Cost(j, j, 0, q[0] - r[j])];
      j := j + 1;
    }
    var i := 1;
    while i < |q|
      invariant 1 <= i <= |q|
      invariant prev == DtwRow(q, r, i - 1)
    {
      var curr := DtwNextRow(prev, q[i], r);
      prev := curr;
      i := i + 1;
    }
    last := prev;
  }

  // ---------------------------------------------------------------------------
  // dp_matching: the grid

  /** Contour mismatch: 0 for equal tokens, 2 otherwise. */
  function Mismatch(x: int, y: int): int { if x == y then 0 else 2 }

  /** Column 0 of a later contour row: the cell above plus 4 for a mismatch. */
  function DpFirstColumn(up: Cost, x: int, y: int): (c: Cost)
    ensures c.ini == 0 && c.fin == 0 && c.height == 0
    ensures c.score >= up.score
    ensures c.score == up.score <==> x == y
  {
    Cost(0, 0, up.score + (if x == y then 0 else 4), 0)
  }

  /** One inner contour step at column `j` with mismatch `dist`: a mismatch
      costs 1 from the left, 2 from above and 3 along the diagonal, and
      `PosMin` chooses. */
  function DpStep(left: Cost, up: Cost, diag: Cost, dist: int, j: int): Cost {
    var m := PosMin(left.score + dist / 2, up.score + dist, diag.score + (3 * dist) / 2);
    if m == 1 then Cost(left.ini, j, left.score + dist / 2, 0)
    else if m == 2 then Cost(up.ini, j, up.score + dist, 0)
    else Cost(diag.ini, j, diag.score + (3 * dist) / 2, 0)
  }

  /** What one inner contour step does: it extends the left, upper or diagonal
      predecessor to column `j` at a cost of half, once or one and a half times
      the mismatch; the result never costs more than the diagonal extension, and
      an extension that is strictly the cheapest is the one taken. */
  lemma DpStepChoice(left: Cost, up: Cost, diag: Cost, dist: int, j: int)
    ensures var c := DpStep(left, up, diag, dist, j);
      c == Cost(left.ini, j, left.score + dist / 2, 0) || c == Cost(up.ini, j, up.score + dist, 0) ||
      c == Cost(diag.ini, j, diag.score + (3 * dist) / 2, 0)
    ensures DpStep(left, up, diag, dist, j).score <= diag.score + (3 * dist) / 2
    ensures left.score + dist / 2 < up.score + dist && left.score + dist / 2 < diag.score + (3 * dist) / 2 ==>
      DpStep(left, up, diag, dist, j).score == left.score + dist / 2
    ensures up.score + dist < left.score + dist / 2 && up.score + dist < diag.score + (3 * dist) / 2 ==>
      DpStep(left, up, diag, dist, j).score == up.score + dist
  {
  }

  /** The first `k` cells of the contour row that follows `prev` for query
      token `x`. */
  function DpRowPrefix(prev: seq<Cost>, x: int, r: seq<int>, k: nat): (row: seq<Cost>)
    requires 0 < k <= |r| && |prev| == |r|
    ensures |row| == k
    decreases k
  {
    if k == 1 then [DpFirstColumn(prev[0], x, r[0])]
    else
      var row := DpRowPrefix(prev, x, r, k - 1);
      row + [DpStep(row[k - 2], prev[k - 1], prev[k - 2], Mismatch(x, r[k - 1]), k - 1)]
  }

  /** Row `i` of `dp_matching`. Row 0 starts a run at every column, with score
      0 for a matching token and 4 otherwise. */
  function DpRow(q: seq<int>, r: seq<int>, i: nat): (row: seq<Cost>)
    requires i < |q| && 0 < |r|
    ensures |row| == |r|
  {
    if i == 0 then seq(|r|, j requires 0 <= j < |r| => Cost(j, j, if q[0] == r[j] then 0 else 4, 0))
    else DpRowPrefix(DpRow(q, r, i - 1), q[i], r, |r|)
  }

  /** The cell of row `i`, column `j`. */
  function DpCell(q: seq<int>, r: seq<int>, i: nat, j: nat): Cost
    requires i < |q| && j < |r|
  {
    DpRow(q, r, i)[j]
  }

  /** A cell of a row prefix does not depend on how long the prefix is. */
  lemma {:induction false} DpRowPrefixAt(prev: seq<Cost>, x: int, r: seq<int>, k: nat, j: nat)
    requires 0 < k <= |r| && |prev| == |r| && j < k
    ensures DpRowPrefix(prev, x, r, k)[j] == DpRowPrefix(prev, x, r, j + 1)[j]
    decreases k
  {
    if j + 1 < k {
      DpRowPrefixAt(prev, x, r, k - 1, j);
    }
  }

  /** Extending a row prefix by one inner cell. */
  lemma DpRowPrefixSnoc(prev: seq<Cost>, x: int, r: seq<int>, k: nat)
    requires 0 < k < |r| && |prev| == |r|
    ensures DpRowPrefix(prev, x, r, k + 1) ==
      DpRowPrefix(prev, x, r, k) + [DpStep(DpRowPrefix(prev, x, r, k)[k - 1], prev[k], prev[k - 1], Mismatch(x, r[k]), k)]
  {
  }

  /** The cell-by-cell recurrence that the two-row sweep computes. */
  lemma DpCellRecurrence(q: seq<int>, r: seq<int>, i: nat, j: nat)
    requires i < |q| && j < |r|
    ensures i == 0 ==> DpCell(q, r, i, j) == Cost(j, j, if q[0] == r[j] then 0 else 4, 0)
    ensures i > 0 && j == 0 ==> DpCell(q, r, i, j) == DpFirstColumn(DpCell(q, r, i - 1, 0), q[i], r[0])
    ensures i > 0 && j > 0 ==>
      DpCell(q, r, i, j) == DpStep(DpCell(q, r, i, j - 1), DpCell(q, r, i - 1, j), DpCell(q, r, i - 1, j - 1), Mismatch(q[i], r[j]), j)
  {
    if i > 0 {
      var prev := DpRow(q, r, i - 1);
      DpRowPrefixAt(prev, q[i], r, |r|, j);
      if j > 0 {
        DpRowPrefixAt(prev, q[i], r, |r|, j - 1);
      }
    }
  }

  /** Shape of a contour cell of row `i` at column `j`: it ends at its own
      column, starts at or before it, has height 0 and a score between 0 and
      `4 * (i + 1)`. */
  predicate DpShaped(c: Cost, i: nat, j: nat) {
    c.fin == j && 0 <= c.ini <= j && c.height == 0 && 0 <= c.score <= 4 * (i + 1)
  }

  /** An inner contour step of well-shaped predecessors is well shaped, and its
      score exceeds the diagonal predecessor's by at most 3, and not at all for
      matching tokens. */
  lemma DpStepShaped(left: Cost, up: Cost, diag: Cost, dist: int, i: nat, j: nat)
    requires 0 < i && 0 < j
    requires dist == 0 || dist == 2
    requires DpShaped(left, i, j - 1) && DpShaped(up, i - 1, j) && DpShaped(diag, i - 1, j - 1)
    ensures DpShaped(DpStep(left, up, diag, dist, j), i, j)
    ensures DpStep(left, up, diag, dist, j).score <= diag.score + (3 * dist) / 2
  {
    PosMinChoice(left.score + dist / 2, up.score + dist, diag.score + (3 * dist) / 2);
  }

  /** Every contour cell is well shaped; a cell's score never exceeds its
      diagonal predecessor's by more than 3, and not at all when the tokens
      match. */
  lemma {:induction false} DpCellShape(q: seq<int>, r: seq<int>, i: nat, j: nat)
    requires i < |q| && j < |r|
    ensures DpShaped(DpCell(q, r, i, j), i, j)
    ensures i == 0 ==> DpCell(q, r, i, j).ini == j
    ensures i > 0 && j > 0 ==>
      DpCell(q, r, i, j).score <= DpCell(q, r, i - 1, j - 1).score + (if q[i] == r[j] then 0 else 3)
    decreases i, j
  {
    DpCellRecurrence(q, r, i, j);
    if i > 0 {
      if j == 0 {
        DpCellShape(q, r, i - 1, 0);
      } else {
        DpCellShape(q, r, i, j - 1);
        DpCellShape(q, r, i - 1, j);
        DpCellShape(q, r, i - 1, j - 1);
        DpStepShaped(DpCell(q, r, i, j - 1), DpCell(q, r, i - 1, j), DpCell(q, r, i - 1, j - 1), Mismatch(q[i], r[j]), i, j);
      }
    }
  }

  /** A diagonal predecessor with score 0 and matching tokens is extended,
      keeping score 0. */
  lemma DpStepPerfect(left: Cost, up: Cost, diag: Cost, j: int)
    requires left.score >= 0 && up.score >= 0 && diag.score == 0
    ensures DpStep(left, up, diag, 0, j) == Cost(diag.ini, j, 0, 0)
  {
  }

  /** A query that occurs verbatim in the reference at column `a` is aligned
      exactly: cell (i, a+i) is the run from `a` with score 0. */
  lemma {:induction false} DpOccurrence(q: seq<int>, r: seq<int>, a: nat, i: nat)
    requires OccursTransposed(q, r, a, 0)
    requires i < |q|
    ensures DpCell(q, r, i, a + i) == Cost(a, a + i, 0, 0)
  {
    var j := a + i;
    assert q[i] == r[j];
    DpCellRecurrence(q, r, i, j);
    if i > 0 {
      DpOccurrence(q, r, a, i - 1);
      DpCellShape(q, r, i, j - 1);
      DpCellShape(q, r, i - 1, j);
      DpStepPerfect(DpCell(q, r, i, j - 1), DpCell(q, r, i - 1, j), DpCell(q, r, i - 1, j - 1), j);
    }
  }

  // ---------------------------------------------------------------------------
  // dp_matching: the sweep

  /** One row of `dp_matching`'s sweep: `curr` is computed from `prev` for
      query token `x`, column by column. */
  method DpNextRow(prev: seq<Cost>, x: int, r: seq<int>) returns (curr: seq<Cost>)
    requires 0 < |r| && |prev| == |r|
    ensures curr == DpRowPrefix(prev, x, r, |r|)
  {
    curr := [Cost(0, 0, prev[0].score + (if x == r[0] then 0 else 4), 0)];
    var j := 1;
    while j < |r|
      invariant 1 <= j <= |r|
      invariant curr == DpRowPrefix(prev, x, r, j)
    {
      var dist := if x == r[j] then 0 else 2;
      var m := PosMin(curr[j - 1].score + dist / 2, prev[j].score + dist, prev[j - 1].score + (3 * dist) / 2);
      var next: Cost;
      if m == 1 {
        next := Cost(curr[j - 1].ini, j, curr[j - 1].score + dist / 2, 0);
      } else if m == 2 {
        next := Cost(prev[j].ini, j, prev[j].score + dist, 0);
      } else {
        next := Cost(prev[j - 1].ini, j, prev[j - 1].score + (3 * dist) / 2, 0);
      }
      assert next == DpStep(curr[j - 1], prev[j], prev[j - 1], Mismatch(x, r[j]), j);
      DpRowPrefixSnoc(prev, x, r, j);
      curr := curr + [next];
      j := j + 1;
    }
  }

  /** The contour sweep of `dp_matching`, keeping only the `prev` and `curr`
      rows as the source does. Returns the final row. */
  method DpSweep(q: seq<int>, r: seq<int>) returns (last: seq<Cost>)
    requires 0 < |q| && 0 < |r|
    ensures last == DpRow(q, r, |q| - 1)
  {
    var prev: seq<Cost> := [];
    var j := 0;
    while j < |r|
      invariant 0 <= j <= |r| && |prev| == j
      invariant forall k :: 0 <= k < j ==> prev[k] == Cost(k, k, if q[0] == r[k] then 0 else 4, 0)
    {
      prev := prev + [Cost(j, j, if q[0] == r[j] then 0 else 4, 0)];
      j := j + 1;
    }
    var i := 1;
    while i < |q|
      invariant 1 <= i <= |q|
      invariant prev == DpRow(q, r, i - 1)
    {
      var curr := DpNextRow(prev, q[i], r);
      prev := curr;
      i := i + 1;
    }
    last := prev;
  }
}
