/** Fragment selection and score emission of `dtw_matching` and `dp_matching`,
    and the `matching` dispatcher of utils.h.

    After the sweep, the final row is sorted by normalised score; the source then
    walks the sorted cells and accepts the first one that does not overlap an
    accepted cell, has a plausible length and (DTW only) a normalised score below
    3, while fewer than one cell has been accepted. The accepted score is
    appended to the rank list only when it is nonzero. */
module Selection {
  import opened Encoders
  import opened Sorting
  import opened Alignment

  datatype Option<T> = None | Some(value: T)

  /** A `pair<int,double>` of the rank list: a song id and its score (lower is
      more similar). */
  datatype Entry = Entry(id: int, score: real)

  /** The length factor `p`: a fragment must be longer than `p * |seq|` and
      shorter than `(3 - p) * |seq|`. */
  const P: real := 0.6
  /** `curr.size() < 1`: at most one fragment is accepted. */
  const MaxFragments: nat := 1
  /** Normalised-score cap of `dtw_matching` (`norm_score < 3`). */
  const NormCap: real := 3.0
  /** Per-extra-fragment penalties of the two methods. */
  const DtwPenalty: real := 0.15
  const DpPenalty: real := 0.1

  // ---------------------------------------------------------------------------
  // The selection rule

  /** Cell `c` has an endpoint, its start or its end, inside the accepted run
      `a`. A run that lies
      wholly before or after `a` does not overlap it, and neither, as written,
      does a run that strictly contains `a`. */
  function Overlaps(c: Cost, a: Cost): (o: bool)
    ensures a.ini <= c.ini <= a.fin ==> o
    ensures a.ini <= c.fin <= a.fin ==> o
    ensures c.ini <= c.fin && (c.fin < a.ini || a.fin < c.ini) ==> !o
    ensures c.ini < a.ini && a.fin < c.fin ==> !o
  {
    (c.ini >= a.ini && c.ini <= a.fin) || (c.fin >= a.ini && c.fin <= a.fin)
  }

  /** The strict length window for a query of `n` tokens, `0.6n < L < 2.4n`:
      in integers `3n < 5L < 12n`. In particular a plausible run has positive
      length, so zero-length cells are never selected. */
  function Plausible(c: Cost, n: nat): (ok: bool)
    ensures ok <==> 3 * n < 5 * Len(c) && 5 * Len(c) < 12 * n
    ensures ok ==> Len(c) > 0
  {
    Len(c) as real > P * n as real && (Len(c) as real) < (3.0 - P) * n as real
  }

  /** The acceptance test of one sorted cell, overlap aside; `capped` selects the
      DTW variant with its normalised-score cap. */
  function Eligible(c: Cost, n: nat, capped: bool): (e: bool)
    ensures e ==> Plausible(c, n) && Len(c) > 0
    ensures capped && e ==> c.score < 3 * Len(c)
  {
    Plausible(c, n) && (capped ==> NormScore(c) < NormCap)
  }

  /** The cells of the final row whose run has positive length; only these are
      sorted (the others would have their normalised score divided by zero). */
  function Runs(row: seq<Cost>): (rs: seq<Cost>)
    ensures forall c :: c in rs <==> c in row && Len(c) > 0
  {
    if |row| == 0 then []
    else
      assert forall c :: c in row <==> c == row[0] || c in row[1..];
      (if Len(row[0]) > 0 then [row[0]] else []) + Runs(row[1..])
  }

  /** Index of the first eligible cell of `s`, or `|s|` when there is none. */
  function FirstEligible(s: seq<Cost>, n: nat, capped: bool): (k: nat)
    ensures k <= |s|
    ensures k < |s| ==> Eligible(s[k], n, capped)
    ensures forall i :: 0 <= i < k ==> !Eligible(s[i], n, capped)
  {
    if |s| == 0 then 0
    else
      var k := FirstEligible(s[..|s| - 1], n, capped);
      if k < |s| - 1 then k
      else if Eligible(s[|s| - 1], n, capped) then |s| - 1
      else |s|
  }

  /** The list of accepted cells after walking all of `s`. */
  function Accepted(s: seq<Cost>, n: nat, capped: bool): (a: seq<Cost>)
    ensures |a| <= MaxFragments
    ensures a != [] ==> a[0] in s && Eligible(a[0], n, capped)
    ensures a == [] <==> forall i :: 0 <= i < |s| ==> !Eligible(s[i], n, capped)
  {
    var k := FirstEligible(s, n, capped);
    if k < |s| then [s[k]] else []
  }

  /** The selection loop: every sorted cell is checked against the accepted
      ones, and accepted when it passes and the list is still below its cap.
      Returns the accepted list and the sum `s` of their normalised scores. */
  method SelectFragments(sorted: seq<Cost>, n: nat, capped: bool) returns (accepted: seq<Cost>, s: real)
    ensures accepted == Accepted(sorted, n, capped)
    ensures |accepted| <= MaxFragments
    ensures s == if |accepted| == 0 then 0.0 else NormScore(accepted[0])
  {
    accepted := [];
    s := 0.0;
    var i := 0;
    while i < |sorted|
      invariant 0 <= i <= |sorted|
      invariant accepted == Accepted(sorted[..i], n, capped)
      invariant s == if |accepted| == 0 then 0.0 else NormScore(accepted[0])
    {
      var c := sorted[i];
      var ok := true;
      var j := 0;
      while j < |accepted|
        invariant 0 <= j <= |accepted|
        invariant ok <==> forall t :: 0 <= t < j ==> !Overlaps(c, accepted[t])
      {
        if (c.ini >= accepted[j].ini && c.ini <= accepted[j].fin) ||
           (c.fin >= accepted[j].ini && c.fin <= accepted[j].fin) {
          ok := false;
        }
        j := j + 1;
      }
      var norm := NormScore(c);
      assert sorted[..i + 1][..i] == sorted[..i];
      if ok && (capped ==> norm < NormCap) && Len(c) as real > P * n as real && (Len(c) as real) < (3.0 - P) * n as real
        && |accepted| < MaxFragments {
        accepted := accepted + [c];
        s := s + norm;
      }
      i := i + 1;
    }
    assert sorted[..i] == sorted;
  }

  // ---------------------------------------------------------------------------
  // What one comparison contributes

  /** The cell the source accepts from a final row: the first eligible cell of
      the row's runs sorted by normalised score. */
  function BestFragment(row: seq<Cost>, n: nat, capped: bool): (b: Option<Cost>)
    ensures b.Some? ==> b.value in row && Eligible(b.value, n, capped)
  {
    var sorted := SortBy(Runs(row), NormScore);
    var k := FirstEligible(sorted, n, capped);
    if k < |sorted| then SortByMembers(Runs(row), NormScore, sorted[k]); Some(sorted[k]) else None
  }

  /** `if (s)`: the score that is emitted for an accepted cell, if any. */
  function Emitted(best: Option<Cost>): (e: Option<real>)
    ensures e.Some? ==> best.Some? && e.value == NormScore(best.value) && e.value != 0.0
    ensures best.Some? && NormScore(best.value) != 0.0 ==> e.Some?
  {
    if best.Some? && NormScore(best.value) != 0.0 then Some(NormScore(best.value)) else None
  }

  /** The score `dtw_matching` appends for query `q` against reference `r`. An
      empty query or reference, which the source indexes out of bounds, gives
      none. */
  function DtwScore(q: seq<int>, r: seq<int>): (s: Option<real>)
    ensures |q| == 0 || |r| == 0 ==> s == None
    ensures s.Some? ==> s.value != 0.0
  {
    if |q| == 0 || |r| == 0 then None
    else Emitted(BestFragment(DtwRow(q, r, |q| - 1), |q|, true))
  }

  /** The score `dp_matching` appends for query `q` against reference `r`. */
  function DpScore(q: seq<int>, r: seq<int>): (s: Option<real>)
    ensures |q| == 0 || |r| == 0 ==> s == None
    ensures s.Some? ==> s.value != 0.0
  {
    if |q| == 0 || |r| == 0 then None
    else Emitted(BestFragment(DpRow(q, r, |q| - 1), |q|, false))
  }

  /** The score `matching` appends for a method: "uds" runs the contour sweep,
      "dtw" the pitch sweep, and "default" nothing. */
  function MatchScore(m: MatchingMethod, q: seq<int>, r: seq<int>): (s: Option<real>)
    ensures m == Default ==> s == None
    ensures s.Some? ==> s.value != 0.0
  {
    match m
    case Default => None
    case Uds => DpScore(q, r)
    case Dtw => DtwScore(q, r)
  }

  /** The entries one comparison appends to the rank list. */
  function Appended(id: int, score: Option<real>): (e: seq<Entry>)
    ensures |e| <= 1
  {
    if score.Some? then [Entry(id, score.value)] else []
  }

  // ---------------------------------------------------------------------------
  // The three entry points

  /** The selection loop accepts the cell that `BestFragment` names, and its
      score is emitted when nonzero. */
  lemma SelectionEmits(row: seq<Cost>, n: nat, capped: bool, accepted: seq<Cost>, s: real)
    requires accepted == Accepted(SortBy(Runs(row), NormScore), n, capped)
    requires s == if |accepted| == 0 then 0.0 else NormScore(accepted[0])
    ensures Emitted(BestFragment(row, n, capped)) == if s != 0.0 then Some(s) else None
    ensures s != 0.0 ==> |accepted| == 1
  {
  }

  /** With one accepted fragment, the averaged and penalised score is the
      fragment's own normalised score. */
  lemma AveragePenalised(size: real, s: real, avg: real, score: real, penalty: real)
    requires size == 1.0 && avg == s / size && score == avg - (size - 1.0) * penalty
    ensures score == s
  {
  }

  /** `dtw_matching`: sweep, sort, select, and append the emitted score. */
  method DtwMatching(q: seq<int>, r: seq<int>, id: int, rank: seq<Entry>) returns (rank': seq<Entry>)
    ensures rank' == rank + Appended(id, DtwScore(q, r))
  {
    rank' := rank;
    if |q| == 0 || |r| == 0 {
      return;
    }
    var last := DtwSweep(q, r);
    var sorted := SortBy(Runs(last), NormScore);
    var accepted, s := SelectFragments(sorted, |q|, true);
    SelectionEmits(last, |q|, true, accepted, s);
    if s != 0.0 {
      var size := |accepted| as real;
      var avg := s / size;
      var score := avg - (size - 1.0) * DtwPenalty;
      AveragePenalised(size, s, avg, score, DtwPenalty);
      rank' := rank' + [Entry(id, score)];
    }
  }

  /** `dp_matching`: sweep, sort, select, and append the emitted score. */
  method DpMatching(q: seq<int>, r: seq<int>, id: int, rank: seq<Entry>) returns (rank': seq<Entry>)
    ensures rank' == rank + Appended(id, DpScore(q, r))
  {
    rank' := rank;
    if |q| == 0 || |r| == 0 {
      return;
    }
    var last := DpSweep(q, r);
    var sorted := SortBy(Runs(last), NormScore);
    var accepted, s := SelectFragments(sorted, |q|, false);
    SelectionEmits(last, |q|, false, accepted, s);
    if s != 0.0 {
      var size := |accepted| as real;
      var avg := s / size;
      var score := avg - (size - 1.0) * DpPenalty;
      AveragePenalised(size, s, avg, score, DpPenalty);
      rank' := rank' + [Entry(id, score)];
    }
  }

  /** `matching`: dispatch on the method; "default" leaves the rank untouched. */
  method Matching(m: MatchingMethod, q: seq<int>, r: seq<int>, id: int, rank: seq<Entry>) returns (rank': seq<Entry>)
    ensures rank' == rank + Appended(id, MatchScore(m, q, r))
    ensures m == Default ==> rank' == rank
  {
    rank' := rank;
    if m == Uds {
      rank' := DpMatching(q, r, id, rank);
    } else if m == Dtw {
      rank' := DtwMatching(q, r, id, rank);
    }
  }
  // ---------------------------------------------------------------------------
  // What the emitted score means

  /** Some cell of `row` passes the acceptance test. */
  predicate HasEligible(row: seq<Cost>, n: nat, capped: bool) {
    exists c :: c in row && Eligible(c, n, capped)
  }

  /** Every cell of `row` that passes the acceptance test has a positive score. */
  predicate AllEligiblePositive(row: seq<Cost>, n: nat, capped: bool) {
    forall c :: c in row && Eligible(c, n, capped) ==> c.score > 0
  }

  /** Some eligible cell of `row` has normalised score `v`. */
  predicate Attained(row: seq<Cost>, n: nat, capped: bool, v: real) {
    exists c :: c in row && Eligible(c, n, capped) && NormScore(c) == v
  }

  /** No eligible cell of `row` has a normalised score below `v`. */
  predicate LowerBound(row: seq<Cost>, n: nat, capped: bool, v: real) {
    forall c :: c in row && Eligible(c, n, capped) ==> v <= NormScore(c)
  }

  /** `v` is the smallest normalised score of an eligible cell of `row`. */
  predicate IsBestScore(row: seq<Cost>, n: nat, capped: bool, v: real) {
    Attained(row, n, capped, v) && LowerBound(row, n, capped, v)
  }

  /** The best score of a row is unique. */
  lemma BestScoreUnique(row: seq<Cost>, n: nat, capped: bool, v: real, w: real)
    requires IsBestScore(row, n, capped, v) && IsBestScore(row, n, capped, w)
    ensures v == w
  {
    var cv :| cv in row && Eligible(cv, n, capped) && NormScore(cv) == v;
    var cw :| cw in row && Eligible(cw, n, capped) && NormScore(cw) == w;
    assert v <= w && w <= v;
  }

  /** Sorting by normalised score is sorting by `operator<`: in a sorted list
      of runs no later run is `CostLess` than an earlier one. */
  lemma SortedNeverCostLess(s: seq<Cost>, i: nat, j: nat)
    requires SortedBy(s, NormScore) && i < j < |s|
    requires Len(s[i]) > 0 && Len(s[j]) > 0
    ensures !CostLess(s[j], s[i])
  {
    var a, b := s[i], s[j];
    assert NormScore(a) <= NormScore(b);
    CrossMultiply(b.score as real, Len(b) as real, a.score as real, Len(a) as real);
    assert (b.score * Len(a)) as real == b.score as real * Len(a) as real;
    assert (a.score * Len(b)) as real == a.score as real * Len(b) as real;
  }

  /** In a list sorted by normalised score, the first eligible cell exists as
      soon as any eligible cell does, and its score is no larger. */
  lemma FirstEligibleIsMin(s: seq<Cost>, n: nat, capped: bool, x: Cost)
    requires SortedBy(s, NormScore)
    requires x in s && Eligible(x, n, capped)
    ensures FirstEligible(s, n, capped) < |s|
    ensures NormScore(s[FirstEligible(s, n, capped)]) <= NormScore(x)
  {
    var k := FirstEligible(s, n, capped);
    var i :| 0 <= i < |s| && s[i] == x;
    assert k <= i;
  }

  /** The tie order of the sort does not matter: any two sorted permutations of
      the same cells select cells with the same normalised score, or none. */
  lemma SelectionIgnoresTieOrder(s1: seq<Cost>, s2: seq<Cost>, n: nat, capped: bool)
    requires SortedBy(s1, NormScore) && SortedBy(s2, NormScore)
    requires multiset(s1) == multiset(s2)
    ensures FirstEligible(s1, n, capped) < |s1| <==> FirstEligible(s2, n, capped) < |s2|
    ensures FirstEligible(s1, n, capped) < |s1| ==>
      NormScore(s1[FirstEligible(s1, n, capped)]) == NormScore(s2[FirstEligible(s2, n, capped)])
  {
    var k1, k2 := FirstEligible(s1, n, capped), FirstEligible(s2, n, capped);
    if k1 < |s1| {
      assert s1[k1] in multiset(s2);
      FirstEligibleIsMin(s2, n, capped, s1[k1]);
    }
    if k2 < |s2| {
      assert s2[k2] in multiset(s1);
      FirstEligibleIsMin(s1, n, capped, s2[k2]);
    }
  }

  /** The accepted cell of a row is an eligible cell of that row with the
      smallest normalised score. */
  lemma BestFragmentIsBest(row: seq<Cost>, n: nat, capped: bool)
    ensures BestFragment(row, n, capped).Some? <==> HasEligible(row, n, capped)
    ensures BestFragment(row, n, capped).Some? ==>
      BestFragment(row, n, capped).value in row && Eligible(BestFragment(row, n, capped).value, n, capped) &&
      IsBestScore(row, n, capped, NormScore(BestFragment(row, n, capped).value))
  {
    var sorted := SortBy(Runs(row), NormScore);
    var k := FirstEligible(sorted, n, capped);
    forall c | c in row && Eligible(c, n, capped)
      ensures k < |sorted| && NormScore(sorted[k]) <= NormScore(c)
    {
      SortByMembers(Runs(row), NormScore, c);
      FirstEligibleIsMin(sorted, n, capped, c);
    }
    if k < |sorted| {
      SortByMembers(Runs(row), NormScore, sorted[k]);
    }
  }

  /** A score is emitted exactly when some cell is eligible and every eligible
      cell has a positive score; it is then the smallest normalised score of an
      eligible cell, and positive. The cells of the sweeps have nonnegative
      scores, which is what makes `if (s)` drop exactly the perfect matches. */
  lemma EmittedIsBest(row: seq<Cost>, n: nat, capped: bool)
    requires forall c :: c in row ==> c.score >= 0
    ensures Emitted(BestFragment(row, n, capped)).Some? <==>
      HasEligible(row, n, capped) && AllEligiblePositive(row, n, capped)
    ensures Emitted(BestFragment(row, n, capped)).Some? ==>
      IsBestScore(row, n, capped, Emitted(BestFragment(row, n, capped)).value) &&
      Emitted(BestFragment(row, n, capped)).value > 0.0
  {
    BestFragmentIsBest(row, n, capped);
    var best := BestFragment(row, n, capped);
    if best.Some? {
      var b := best.value;
      NormScoreSign(b);
      forall c | c in row && Eligible(c, n, capped)
        ensures NormScore(c) == 0.0 <==> c.score == 0
      {
        NormScoreSign(c);
      }
    }
  }

  /** Every cell of a DTW row has a nonnegative score. */
  lemma DtwRowNonnegative(q: seq<int>, r: seq<int>, i: nat)
    requires i < |q| && 0 < |r|
    ensures forall c :: c in DtwRow(q, r, i) ==> c.score >= 0
  {
    forall j | 0 <= j < |r|
      ensures DtwRow(q, r, i)[j].score >= 0
    {
      DtwCellShape(q, r, i, j);
    }
  }

  /** Every cell of a contour row has a nonnegative score. */
  lemma DpRowNonnegative(q: seq<int>, r: seq<int>, i: nat)
    requires i < |q| && 0 < |r|
    ensures forall c :: c in DpRow(q, r, i) ==> c.score >= 0
  {
    forall j | 0 <= j < |r|
      ensures DpRow(q, r, i)[j].score >= 0
    {
      DpCellShape(q, r, i, j);
    }
  }

  /** `dtw_matching` ranks the reference exactly when its final row has an
      eligible cell and no eligible cell has score 0, and then with the best
      eligible normalised score, which is positive. */
  lemma DtwScoreIsBest(q: seq<int>, r: seq<int>)
    requires 0 < |q| && 0 < |r|
    ensures DtwScore(q, r).Some? <==>
      HasEligible(DtwRow(q, r, |q| - 1), |q|, true) && AllEligiblePositive(DtwRow(q, r, |q| - 1), |q|, true)
    ensures DtwScore(q, r).Some? ==>
      IsBestScore(DtwRow(q, r, |q| - 1), |q|, true, DtwScore(q, r).value) && DtwScore(q, r).value > 0.0
  {
    DtwRowNonnegative(q, r, |q| - 1);
    EmittedIsBest(DtwRow(q, r, |q| - 1), |q|, true);
  }

  /** `dp_matching` ranks the reference exactly when its final row has an
      eligible cell and no eligible cell has score 0, and then with the best
      eligible normalised score, which is positive. */
  lemma DpScoreIsBest(q: seq<int>, r: seq<int>)
    requires 0 < |q| && 0 < |r|
    ensures DpScore(q, r).Some? <==>
      HasEligible(DpRow(q, r, |q| - 1), |q|, false) && AllEligiblePositive(DpRow(q, r, |q| - 1), |q|, false)
    ensures DpScore(q, r).Some? ==>
      IsBestScore(DpRow(q, r, |q| - 1), |q|, false, DpScore(q, r).value) && DpScore(q, r).value > 0.0
  {
    DpRowNonnegative(q, r, |q| - 1);
    EmittedIsBest(DpRow(q, r, |q| - 1), |q|, false);
  }

  /** Every emitted score is positive. */
  lemma MatchScorePositive(m: MatchingMethod, q: seq<int>, r: seq<int>)
    ensures MatchScore(m, q, r).Some? ==> MatchScore(m, q, r).value > 0.0
  {
    if 0 < |q| && 0 < |r| {
      if m == Dtw {
        DtwScoreIsBest(q, r);
      } else if m == Uds {
        DpScoreIsBest(q, r);
      }
    }
  }

  // ---------------------------------------------------------------------------
  // Consequences

  /** A one-note query is never ranked: its final row is row 0, whose runs all
      have length 0. */
  lemma SingleNoteNeverRanked(m: MatchingMethod, q: seq<int>, r: seq<int>)
    requires |q| == 1
    ensures MatchScore(m, q, r) == None
  {
    if 0 < |r| {
      if m == Dtw {
        DtwScoreIsBest(q, r);
        forall c | c in DtwRow(q, r, 0)
          ensures !Eligible(c, 1, true)
        {
          assert !Plausible(c, 1);
        }
      } else if m == Uds {
        DpScoreIsBest(q, r);
        forall c | c in DpRow(q, r, 0)
          ensures !Eligible(c, 1, false)
        {
          assert !Plausible(c, 1);
        }
      }
    }
  }

  /** A run of `n - 1` steps for a query of at least 3 tokens lies inside the
      length window. */
  lemma FullRunPlausible(c: Cost, n: nat)
    requires n >= 3 && Len(c) == n - 1
    ensures Plausible(c, n)
  {
  }

  /** An eligible cell with score 0 in the final contour row blocks emission. */
  lemma DpPerfectCellBlocks(q: seq<int>, r: seq<int>, c: Cost)
    requires 0 < |q| && 0 < |r|
    requires c in DpRow(q, r, |q| - 1) && Eligible(c, |q|, false) && c.score == 0
    ensures DpScore(q, r) == None
  {
    DpScoreIsBest(q, r);
  }

  /** An eligible cell with score 0 in the final pitch row blocks emission. */
  lemma DtwPerfectCellBlocks(q: seq<int>, r: seq<int>, c: Cost)
    requires 0 < |q| && 0 < |r|
    requires c in DtwRow(q, r, |q| - 1) && Eligible(c, |q|, true) && c.score == 0
    ensures DtwScore(q, r) == None
  {
    DtwScoreIsBest(q, r);
  }

  /** A contour query of at least three tokens that occurs verbatim in the
      reference is NOT ranked: its occurrence is an eligible cell with score 0,
      so the selected score is 0 and `if (s)` drops it. */
  lemma DpExactOccurrenceNotRanked(q: seq<int>, r: seq<int>, a: nat)
    requires |q| >= 3 && OccursTransposed(q, r, a, 0)
    ensures DpScore(q, r) == None
  {
    var n := |q|;
    var i := n - 1;
    var j := a + i;
    DpOccurrence(q, r, a, i);
    var c := DpRow(q, r, i)[j];
    assert c == Cost(a, j, 0, 0);
    FullRunPlausible(c, n);
    DpPerfectCellBlocks(q, r, c);
  }

  /** A pitch query of at least three notes that occurs in the reference, in any
      transposition, is NOT ranked by `dtw_matching`, for the same reason. */
  lemma DtwExactOccurrenceNotRanked(q: seq<int>, r: seq<int>, a: nat, k: int)
    requires |q| >= 3 && OccursTransposed(q, r, a, k)
    ensures DtwScore(q, r) == None
  {
    var n := |q|;
    var i := n - 1;
    var j := a + i;
    DtwOccurrence(q, r, a, k, i);
    var c := DtwRow(q, r, i)[j];
    assert c == Cost(a, j, 0, k);
    FullRunPlausible(c, n);
    assert NormScore(c) == 0.0;
    DtwPerfectCellBlocks(q, r, c);
  }

  /** Raising a cell's height changes neither its run nor its scores. */
  lemma RaisedEligible(c: Cost, k: int, n: nat, capped: bool)
    ensures Eligible(Raise(c, k), n, capped) <==> Eligible(c, n, capped)
    ensures NormScore(Raise(c, k)) == NormScore(c) && Raise(c, k).score == c.score
  {
  }

  /** Lowering a raised row gives the row back. */
  lemma RaisedRowFlip(rt: seq<Cost>, rq: seq<Cost>, k: int)
    requires RaisedRow(rt, rq, k)
    ensures RaisedRow(rq, rt, -k)
  {
  }

  /** What holds of the eligible cells of a row carries over to the raised row. */
  lemma RaisedRowKeeps(rt: seq<Cost>, rq: seq<Cost>, k: int, n: nat, capped: bool, v: real)
    requires RaisedRow(rt, rq, k)
    ensures HasEligible(rq, n, capped) ==> HasEligible(rt, n, capped)
    ensures AllEligiblePositive(rt, n, capped) ==> AllEligiblePositive(rq, n, capped)
    ensures Attained(rq, n, capped, v) ==> Attained(rt, n, capped, v)
    ensures LowerBound(rt, n, capped, v) ==> LowerBound(rq, n, capped, v)
  {
    forall c | c in rq
      ensures Raise(c, k) in rt
      ensures Eligible(Raise(c, k), n, capped) <==> Eligible(c, n, capped)
      ensures NormScore(Raise(c, k)) == NormScore(c) && Raise(c, k).score == c.score
    {
      var i :| 0 <= i < |rq| && rq[i] == c;
      assert rt[i] == Raise(c, k);
      RaisedEligible(c, k, n, capped);
    }
  }

  /** Raising a row keeps its scores nonnegative. */
  lemma RaisedRowNonnegative(rt: seq<Cost>, rq: seq<Cost>, k: int)
    requires RaisedRow(rt, rq, k)
    requires forall c :: c in rq ==> c.score >= 0
    ensures forall c :: c in rt ==> c.score >= 0
  {
    forall c | c in rt
      ensures c.score >= 0
    {
      var i :| 0 <= i < |rt| && rt[i] == c;
      assert rq[i] in rq;
    }
  }

  /** A raised row emits the same score as the row it raises. */
  lemma RaisedRowSameEmission(rt: seq<Cost>, rq: seq<Cost>, k: int, n: nat)
    requires RaisedRow(rt, rq, k)
    requires forall c :: c in rq ==> c.score >= 0
    ensures Emitted(BestFragment(rt, n, true)) == Emitted(BestFragment(rq, n, true))
  {
    RaisedRowFlip(rt, rq, k);
    RaisedRowNonnegative(rt, rq, k);
    EmittedIsBest(rq, n, true);
    EmittedIsBest(rt, n, true);
    var eq, et := Emitted(BestFragment(rq, n, true)), Emitted(BestFragment(rt, n, true));
    var v := if eq.Some? then eq.value else 0.0;
    RaisedRowKeeps(rt, rq, k, n, true, v);
    RaisedRowKeeps(rq, rt, -k, n, true, v);
    if eq.Some? {
      BestScoreUnique(rt, n, true, v, et.value);
    }
  }

  /** `dtw_matching` is transposition invariant: singing the query in another
      key gives the same score against every reference. */
  lemma DtwScoreTransposition(q: seq<int>, t: seq<int>, r: seq<int>, k: int)
    requires Transposed(t, q, k)
    ensures DtwScore(t, r) == DtwScore(q, r)
  {
    if 0 < |q| && 0 < |r| {
      DtwTransposition(q, t, r, k, |q| - 1);
      DtwRowNonnegative(q, r, |q| - 1);
      RaisedRowSameEmission(DtwRow(t, r, |t| - 1), DtwRow(q, r, |q| - 1), k, |q|);
    }
  }
}
