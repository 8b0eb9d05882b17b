/** The pairwise scorer. For every pair of peptides drawn from two collections it sums the
    per-position table lookups over the positions both peptides have: no gaps, no alignment,
    the longer peptide is truncated to the length of the shorter one. The sum is defined once
    for any per-position lookup `f`; the two tables plug their lookups into it. */
module PairwiseScoring {
  import opened Alphabet
  import opened SubstitutionTables

  // ---------------------------------------------------------------------------------------
  // The positional sum, for any per-position lookup

  /** The first `n` positions exist in both peptides and `f` is defined on each of them. */
  ghost predicate ScorableUpTo(f: (char, char) --> int, s1: string, s2: string, n: nat) {
    n <= |s1| && n <= |s2| && forall k :: 0 <= k < n ==> f.requires(s1[k], s2[k])
  }

  /** The sum of the lookups at positions 0 .. n-1. */
  function PrefixScore(f: (char, char) --> int, s1: string, s2: string, n: nat): int
    requires ScorableUpTo(f, s1, s2, n)
  {
    if n == 0 then 0 else PrefixScore(f, s1, s2, n - 1) + f(s1[n - 1], s2[n - 1])
  }

  function Min(x: nat, y: nat): nat {
    if x <= y then x else y
  }

  /** `f` is defined at every position the two peptides share. */
  ghost predicate ScorablePair(f: (char, char) --> int, s1: string, s2: string) {
    ScorableUpTo(f, s1, s2, Min(|s1|, |s2|))
  }

  /** The positional score of a pair: the sum of the lookups over the shared positions. */
  function PairSum(f: (char, char) --> int, s1: string, s2: string): int
    requires ScorablePair(f, s1, s2)
  {
    PrefixScore(f, s1, s2, Min(|s1|, |s2|))
  }

  /** The sum over the first `n` positions depends only on those positions. */
  lemma {:induction false} PrefixScoreLocal(f: (char, char) --> int, s1: string, s2: string, u1: string, u2: string, n: nat)
    requires ScorableUpTo(f, s1, s2, n) && n <= |u1| && n <= |u2|
    requires s1[..n] == u1[..n] && s2[..n] == u2[..n]
    ensures ScorableUpTo(f, u1, u2, n)
    ensures PrefixScore(f, s1, s2, n) == PrefixScore(f, u1, u2, n)
  {
    forall k | 0 <= k < n
      ensures s1[k] == u1[k] && s2[k] == u2[k]
    {
      assert s1[k] == s1[..n][k] && u1[k] == u1[..n][k];
      assert s2[k] == s2[..n][k] && u2[k] == u2[..n][k];
    }
    if n > 0 {
      assert s1[..n - 1] == s1[..n][..n - 1] && u1[..n - 1] == u1[..n][..n - 1];
      assert s2[..n - 1] == s2[..n][..n - 1] && u2[..n - 1] == u2[..n][..n - 1];
      PrefixScoreLocal(f, s1, s2, u1, u2, n - 1);
    }
  }

  /** The sum up to `n` splits at a position `k` below `n` into the sum before `k`, the
      lookup at `k`, and the sum over the two suffixes after `k`. */
  lemma {:induction false} PrefixScoreSplit(f: (char, char) --> int, s1: string, s2: string, k: nat, n: nat)
    requires ScorableUpTo(f, s1, s2, n) && k < n
    ensures ScorableUpTo(f, s1[k + 1..], s2[k + 1..], n - k - 1)
    ensures PrefixScore(f, s1, s2, n)
         == PrefixScore(f, s1, s2, k) + f(s1[k], s2[k]) + PrefixScore(f, s1[k + 1..], s2[k + 1..], n - k - 1)
  {
    if n > k + 1 {
      PrefixScoreSplit(f, s1, s2, k, n - 1);
      assert s1[k + 1..][n - k - 2] == s1[n - 1] && s2[k + 1..][n - k - 2] == s2[n - 1];
    }
  }

  /** If every lookup at positions m .. n-1 lies in [lo, hi], the sum over those positions
      lies in [lo * (n - m), hi * (n - m)]. */
  lemma {:induction false} PrefixScoreRange(f: (char, char) --> int, s1: string, s2: string, m: nat, n: nat, lo: int, hi: int)
    requires ScorableUpTo(f, s1, s2, n) && m <= n
    requires forall k :: m <= k < n ==> lo <= f(s1[k], s2[k]) <= hi
    ensures PrefixScore(f, s1, s2, m) + lo * (n - m) <= PrefixScore(f, s1, s2, n)
    ensures PrefixScore(f, s1, s2, n) <= PrefixScore(f, s1, s2, m) + hi * (n - m)
  {
    if m < n {
      PrefixScoreRange(f, s1, s2, m, n - 1, lo, hi);
      assert lo * (n - m) == lo * (n - 1 - m) + lo;
      assert hi * (n - m) == hi * (n - 1 - m) + hi;
    }
  }

  /** Every value of `f` lies in [lo, hi]. */
  ghost predicate Bounded(f: (char, char) --> int, lo: int, hi: int) {
    forall a, b :: f.requires(a, b) ==> lo <= f(a, b) <= hi
  }

  lemma PrefixScoreBounded(f: (char, char) --> int, s1: string, s2: string, n: nat, lo: int, hi: int)
    requires ScorableUpTo(f, s1, s2, n) && Bounded(f, lo, hi)
    ensures lo * n <= PrefixScore(f, s1, s2, n) <= hi * n
  {
    PrefixScoreRange(f, s1, s2, 0, n, lo, hi);
  }

  /** `f` gives the same value, and is defined, whichever way round a pair is looked up. */
  ghost predicate Symmetric(f: (char, char) --> int) {
    forall a, b :: f.requires(a, b) ==> f.requires(b, a) && f(a, b) == f(b, a)
  }

  lemma {:induction false} PrefixScoreSymmetric(f: (char, char) --> int, s1: string, s2: string, n: nat)
    requires ScorableUpTo(f, s1, s2, n) && Symmetric(f)
    ensures ScorableUpTo(f, s2, s1, n) && PrefixScore(f, s1, s2, n) == PrefixScore(f, s2, s1, n)
  {
    if n > 0 {
      PrefixScoreSymmetric(f, s1, s2, n - 1);
    }
  }

  /** `f` is a distance: never negative, and zero exactly on equal symbols. */
  ghost predicate IsDistance(f: (char, char) --> int) {
    forall a, b :: f.requires(a, b) ==> 0 <= f(a, b) && (f(a, b) == 0 <==> a == b)
  }

  lemma {:induction false} PrefixDistanceZero(f: (char, char) --> int, s1: string, s2: string, n: nat)
    requires ScorableUpTo(f, s1, s2, n) && IsDistance(f)
    ensures 0 <= PrefixScore(f, s1, s2, n)
    ensures PrefixScore(f, s1, s2, n) == 0 <==> s1[..n] == s2[..n]
  {
    if n > 0 {
      PrefixDistanceZero(f, s1, s2, n - 1);
      assert s1[..n] == s1[..n - 1] + [s1[n - 1]] && s2[..n] == s2[..n - 1] + [s2[n - 1]];
      if s1[..n] == s2[..n] {
        assert s1[..n - 1] == s1[..n][..n - 1] && s2[..n - 1] == s2[..n][..n - 1];
        assert s1[n - 1] == s1[..n][n - 1] && s2[n - 1] == s2[..n][n - 1];
      }
    }
  }

  /** If at every position `s` scores strictly better against itself than against any other
      symbol, the sum of `s` against `u` is at most that of `s` against itself, and equal
      exactly when `u` agrees with `s` on the first `n` positions. */
  lemma {:induction false} PrefixSelfBest(f: (char, char) --> int, s: string, u: string, n: nat)
    requires ScorableUpTo(f, s, u, n) && ScorableUpTo(f, s, s, n)
    requires forall k :: 0 <= k < n && s[k] != u[k] ==> f(s[k], u[k]) < f(s[k], s[k])
    ensures PrefixScore(f, s, u, n) <= PrefixScore(f, s, s, n)
    ensures PrefixScore(f, s, u, n) == PrefixScore(f, s, s, n) <==> s[..n] == u[..n]
  {
    if n > 0 {
      PrefixSelfBest(f, s, u, n - 1);
      assert s[..n] == s[..n - 1] + [s[n - 1]] && u[..n] == u[..n - 1] + [u[n - 1]];
      if s[n - 1] != u[n - 1] {
        assert s[..n][n - 1] != u[..n][n - 1];
      } else if s[..n] == u[..n] {
        assert s[..n - 1] == s[..n][..n - 1] && u[..n - 1] == u[..n][..n - 1];
      }
    }
  }

  // ---------------------------------------------------------------------------------------
  // The two tables

  /** The substitution table a scoring run uses. */
  datatype Table = Grantham | Blosum62

  /** The per-position lookup of a table. The Grantham lookup is defined only on alphabet
      symbols (it indexes its table without a guard); the BLOSUM62 lookup on every pair. */
  function ScoreFn(t: Table): (char, char) --> int {
    match t
    case Grantham => GranthamPair
    case Blosum62 => Blosum62Pair
  }

  /** Every position the scorer reads for this pair can be looked up. */
  ghost predicate Scorable(t: Table, s1: string, s2: string) {
    ScorablePair(ScoreFn(t), s1, s2)
  }

  ghost predicate AllScorable(t: Table, peptides1: seq<string>, peptides2: seq<string>) {
    forall i, j :: 0 <= i < |peptides1| && 0 <= j < |peptides2| ==> Scorable(t, peptides1[i], peptides2[j])
  }

  /** Every position the two peptides share holds alphabet symbols. */
  predicate SharedAlphabet(s1: string, s2: string) {
    forall k :: 0 <= k < Min(|s1|, |s2|) ==> IsAminoAcid(s1[k]) && IsAminoAcid(s2[k])
  }

  /** The positional score of a pair under a table. */
  function PosScore(t: Table, s1: string, s2: string): int
    requires Scorable(t, s1, s2)
  {
    PairSum(ScoreFn(t), s1, s2)
  }

  // ---------------------------------------------------------------------------------------
  // Truncation and locality

  /** A pair in which either peptide is empty scores 0. */
  lemma EmptyPairScoresZero(t: Table, s1: string, s2: string)
    requires s1 == [] || s2 == []
    ensures Scorable(t, s1, s2) && PosScore(t, s1, s2) == 0
  {
  }

  /** Truncation: a pair scores the same as its two peptides cut to the shorter length. */
  lemma TruncationLaw(t: Table, s1: string, s2: string)
    requires Scorable(t, s1, s2)
    ensures var n := Min(|s1|, |s2|);
      Scorable(t, s1[..n], s2[..n]) && PosScore(t, s1, s2) == PosScore(t, s1[..n], s2[..n])
  {
    var n := Min(|s1|, |s2|);
    PrefixScoreLocal(ScoreFn(t), s1, s2, s1[..n], s2[..n], n);
  }

  /** Appending symbols to the longer peptide of a pair leaves its score unchanged. */
  lemma ExtendLongerUnchanged(t: Table, s1: string, s2: string, ext: string)
    requires Scorable(t, s1, s2)
    ensures |s1| <= |s2| ==> Scorable(t, s1, s2 + ext) && PosScore(t, s1, s2 + ext) == PosScore(t, s1, s2)
    ensures |s2| <= |s1| ==> Scorable(t, s1 + ext, s2) && PosScore(t, s1 + ext, s2) == PosScore(t, s1, s2)
  {
    var n := Min(|s1|, |s2|);
    if |s1| <= |s2| {
      assert (s2 + ext)[..n] == s2[..n];
      PrefixScoreLocal(ScoreFn(t), s1, s2, s1, s2 + ext, n);
    }
    if |s2| <= |s1| {
      assert (s1 + ext)[..n] == s1[..n];
      PrefixScoreLocal(ScoreFn(t), s1, s2, s1 + ext, s2, n);
    }
  }

  /** The Grantham lookup is a distance on the alphabet (non-negative, 0 exactly on equal
      symbols) bounded by 215. */
  lemma GranthamLookupFacts()
    ensures IsDistance(ScoreFn(Grantham)) && Bounded(ScoreFn(Grantham), 0, 215)
  {
    forall a, b | IsAminoAcid(a) && IsAminoAcid(b)
      ensures 0 <= GranthamPair(a, b) <= 215
      ensures GranthamPair(a, b) == 0 <==> a == b
    {
      GranthamPairRange(a, b);
    }
  }

  /** The BLOSUM62 lookup never exceeds 11 nor falls below the sentinel, and falls no lower
      than -4 on alphabet symbols. */
  lemma Blosum62LookupFacts()
    ensures Bounded(ScoreFn(Blosum62), Sentinel, 11)
    ensures forall a, b :: IsAminoAcid(a) && IsAminoAcid(b) ==> -4 <= ScoreFn(Blosum62)(a, b)
  {
    forall a, b
      ensures Sentinel <= Blosum62Pair(a, b) <= 11
      ensures IsAminoAcid(a) && IsAminoAcid(b) ==> -4 <= Blosum62Pair(a, b)
    {
      Blosum62PairRange(a, b);
    }
  }

  /** Both lookups are symmetric, as both tables are. */
  lemma TableSymmetric(t: Table)
    ensures Symmetric(ScoreFn(t))
  {
    forall a, b | ScoreFn(t).requires(a, b)
      ensures ScoreFn(t).requires(b, a) && ScoreFn(t)(a, b) == ScoreFn(t)(b, a)
    {
      match t
      case Grantham => GranthamSymmetric(a, b);
      case Blosum62 => Blosum62Symmetric(a, b);
    }
  }

  /** Swapping the two peptides of a pair does not change its score. */
  lemma PosScoreSymmetric(t: Table, s1: string, s2: string)
    requires Scorable(t, s1, s2)
    ensures Scorable(t, s2, s1) && PosScore(t, s1, s2) == PosScore(t, s2, s1)
  {
    TableSymmetric(t);
    PrefixScoreSymmetric(ScoreFn(t), s1, s2, Min(|s1|, |s2|));
  }

  // ---------------------------------------------------------------------------------------
  // Grantham distance of a pair

  /** A Grantham pair score lies in [0, 215 * L], L the shared length, and it is 0 exactly
      when the two peptides agree on every shared position. */
  lemma GranthamScoreBounds(s1: string, s2: string)
    requires Scorable(Grantham, s1, s2)
    ensures var n := Min(|s1|, |s2|);
      0 <= PosScore(Grantham, s1, s2) <= 215 * n &&
      (PosScore(Grantham, s1, s2) == 0 <==> s1[..n] == s2[..n])
  {
    var f, n := ScoreFn(Grantham), Min(|s1|, |s2|);
    GranthamLookupFacts();
    PrefixScoreBounded(f, s1, s2, n, 0, 215);
    PrefixDistanceZero(f, s1, s2, n);
  }

  /** A peptide of alphabet symbols is at Grantham distance 0 from itself. */
  lemma GranthamSelfDistanceZero(s: string)
    requires IsPeptide(s)
    ensures Scorable(Grantham, s, s) && PosScore(Grantham, s, s) == 0
  {
    GranthamScoreBounds(s, s);
  }

  // ---------------------------------------------------------------------------------------
  // BLOSUM62 similarity of a pair

  /** A BLOSUM62 pair score lies in [-999 * L, 11 * L], L the shared length, and in
      [-4 * L, 11 * L] when every shared position holds alphabet symbols. */
  lemma Blosum62ScoreBounds(s1: string, s2: string)
    ensures Scorable(Blosum62, s1, s2)
    ensures var n := Min(|s1|, |s2|);
      Sentinel * n <= PosScore(Blosum62, s1, s2) <= 11 * n &&
      (SharedAlphabet(s1, s2) ==> -4 * n <= PosScore(Blosum62, s1, s2))
  {
    var f, n := ScoreFn(Blosum62), Min(|s1|, |s2|);
    Blosum62LookupFacts();
    PrefixScoreBounded(f, s1, s2, n, Sentinel, 11);
    if SharedAlphabet(s1, s2) {
      PrefixScoreRange(f, s1, s2, 0, n, -4, 11);
    }
  }

  /** An unknown symbol at a shared position contributes exactly the sentinel -999 there;
      the rest of the sum is the score of the parts before and after that position. */
  lemma Blosum62UnknownSymbol(s1: string, s2: string, k: nat)
    requires k < |s1| && k < |s2|
    requires !IsAminoAcid(s1[k]) || !IsAminoAcid(s2[k])
    ensures Scorable(Blosum62, s1, s2)
    ensures PosScore(Blosum62, s1, s2)
         == PosScore(Blosum62, s1[..k], s2[..k]) + Sentinel + PosScore(Blosum62, s1[k + 1..], s2[k + 1..])
  {
    var f, n := ScoreFn(Blosum62), Min(|s1|, |s2|);
    PrefixScoreSplit(f, s1, s2, k, n);
    PrefixScoreLocal(f, s1, s2, s1[..k], s2[..k], k);
    assert Min(|s1[..k]|, |s2[..k]|) == k;
    assert Min(|s1[k + 1..]|, |s2[k + 1..]|) == n - k - 1;
    Blosum62PairRange(s1[k], s2[k]);
  }

  /** Self-similarity is maximal: a peptide of alphabet symbols scores at least as high
      against itself as against any peptide, and equally high exactly against the
      peptides it is a prefix of. */
  lemma Blosum62SelfMaximal(s: string, u: string)
    requires IsPeptide(s)
    ensures Scorable(Blosum62, s, u) && Scorable(Blosum62, s, s)
    ensures PosScore(Blosum62, s, u) <= PosScore(Blosum62, s, s)
    ensures PosScore(Blosum62, s, u) == PosScore(Blosum62, s, s) <==> s <= u
  {
    var f, n := ScoreFn(Blosum62), Min(|s|, |u|);
    forall k | 0 <= k < |s|
      ensures 4 <= f(s[k], s[k]) <= 11
      ensures k < |u| && s[k] != u[k] ==> f(s[k], u[k]) < f(s[k], s[k])
    {
      Blosum62SelfScore(s[k]);
      if k < |u| && s[k] != u[k] {
        Blosum62SelfBest(s[k], u[k]);
      }
    }
    PrefixSelfBest(f, s, u, n);
    if |u| < |s| {
      PrefixScoreRange(f, s, s, n, |s|, 4, 11);
    } else {
      assert s[..n] == s;
    }
  }

  // ---------------------------------------------------------------------------------------
  // Concrete values

  /** A and W are at Grantham distance 148; AC against itself is at distance 0. */
  lemma GranthamConcreteScores()
    ensures Scorable(Grantham, "A", "W") && PosScore(Grantham, "A", "W") == 148
    ensures Scorable(Grantham, "AC", "AC") && PosScore(Grantham, "AC", "AC") == 0
  {
    IndexOfAt(0);
    IndexOfAt(18);
    assert GranthamPair('A', 'W') == GranthamMatrix[0][18] == 148;
    GranthamSelfDistanceZero("AC");
  }

  /** A against W scores -3 under BLOSUM62; AC against AG scores 4 + (-3) = 1, the C-G
      entry of the table being -3. */
  lemma Blosum62ConcreteScores()
    ensures PosScore(Blosum62, "A", "W") == -3
    ensures PosScore(Blosum62, "AC", "AG") == 1
  {
    IndexOfAt(0);
    IndexOfAt(1);
    IndexOfAt(5);
    IndexOfAt(18);
    assert Blosum62Pair('A', 'W') == Blosum62Matrix[0][18] == -3;
    assert Blosum62Pair('A', 'A') == Blosum62Matrix[0][0] == 4;
    assert Blosum62Pair('C', 'G') == Blosum62Matrix[1][5] == -3;
    var f := ScoreFn(Blosum62);
    assert PrefixScore(f, "AC", "AG", 2) == PrefixScore(f, "AC", "AG", 1) + f('C', 'G');
  }

  // ---------------------------------------------------------------------------------------
  // The scorers

  /** The inner loop of both scorers: the running sum of the lookups over the positions
      shared by one pair of peptides, stopping at the end of the shorter one. */
  method PairScore(f: (char, char) --> int, seq1: string, seq2: string) returns (score: int)
    requires ScorablePair(f, seq1, seq2)
    ensures score == PairSum(f, seq1, seq2)
  {
    score := 0;
    var k := 0;
    while k < |seq1| && k < |seq2|
      invariant k <= Min(|seq1|, |seq2|)
      invariant score == PrefixScore(f, seq1, seq2, k)
    {
      score := score + f(seq1[k], seq2[k]);
      k := k + 1;
    }
  }

  /** The nested loops of both scorers: a fresh |peptides1| x |peptides2| matrix filled row
      by row, cell (i, j) receiving the pair score of peptides1[i] and peptides2[j]. */
  method ScoreMatrix(f: (char, char) --> int, peptides1: seq<string>, peptides2: seq<string>) returns (scores: array2<int>)
    requires forall i, j :: 0 <= i < |peptides1| && 0 <= j < |peptides2| ==> ScorablePair(f, peptides1[i], peptides2[j])
    ensures fresh(scores)
    ensures scores.Length0 == |peptides1| && scores.Length1 == |peptides2|
    ensures forall i, j :: 0 <= i < |peptides1| && 0 <= j < |peptides2| ==>
      scores[i, j] == PairSum(f, peptides1[i], peptides2[j])
  {
    scores := new int[|peptides1|, |peptides2|];
    for i := 0 to |peptides1|
      invariant forall i', j' :: 0 <= i' < i && 0 <= j' < |peptides2| ==>
        scores[i', j'] == PairSum(f, peptides1[i'], peptides2[j'])
    {
      for j := 0 to |peptides2|
        invariant forall i', j' :: 0 <= i' < i && 0 <= j' < |peptides2| ==>
          scores[i', j'] == PairSum(f, peptides1[i'], peptides2[j'])
        invariant forall j' :: 0 <= j' < j ==> scores[i, j'] == PairSum(f, peptides1[i], peptides2[j'])
      {
        scores[i, j] := PairScore(f, peptides1[i], peptides2[j]);
      }
    }
  }

  /** The Grantham distance matrix of two peptide collections. Every shared position must
      hold alphabet symbols, since the Grantham lookup has no guard for unknown ones. */
  method GranthamDistance(peptides1: seq<string>, peptides2: seq<string>) returns (distances: array2<int>)
    requires AllScorable(Grantham, peptides1, peptides2)
    ensures fresh(distances)
    ensures distances.Length0 == |peptides1| && distances.Length1 == |peptides2|
    ensures forall i, j :: 0 <= i < |peptides1| && 0 <= j < |peptides2| ==>
      distances[i, j] == PosScore(Grantham, peptides1[i], peptides2[j])
  {
    distances := ScoreMatrix(GranthamPair, peptides1, peptides2);
  }

  /** The BLOSUM62 similarity matrix of two peptide collections; any peptides are accepted,
      an unknown symbol contributing the sentinel at its position. */
  method Blosum62Sim(peptides1: seq<string>, peptides2: seq<string>) returns (similarities: array2<int>)
    ensures fresh(similarities)
    ensures similarities.Length0 == |peptides1| && similarities.Length1 == |peptides2|
    ensures forall i, j :: 0 <= i < |peptides1| && 0 <= j < |peptides2| ==>
      similarities[i, j] == PosScore(Blosum62, peptides1[i], peptides2[j])
  {
    similarities := ScoreMatrix(Blosum62Pair, peptides1, peptides2);
  }
}
