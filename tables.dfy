/** The two fixed 20x20 substitution tables and the per-symbol lookups into them. Rows and
    columns follow the canonical order of `Alphabet.AminoAcids`. */
module SubstitutionTables {
  import opened Alphabet

  /** Grantham (1974) physicochemical distance between amino acids. */
  const GranthamMatrix: seq<seq<int>> := [
    [  0, 195, 126, 107, 113,  60,  86,  94, 106,  96,  84, 111,  27,  91, 112,  99,  58,  64, 148, 112],
    [195,   0, 154, 170, 205, 159, 174, 198, 202, 198, 196, 139, 169, 154, 180, 112, 149, 192, 215, 194],
    [126, 154,   0,  45, 177,  94,  81, 168, 101, 172, 160,  23, 108,  61,  96,  65,  85, 152, 181, 160],
    [107, 170,  45,   0, 140,  98,  40, 134,  56, 138, 126,  42,  93,  29,  54,  80,  65, 121, 152, 122],
    [113, 205, 177, 140,   0, 153, 100,  21, 102,  22,  28, 158, 114, 116,  97, 155, 103,  50,  40,  22],
    [ 60, 159,  94,  98, 153,   0,  98, 135, 127, 138, 127,  80,  42,  87, 125,  56,  59, 109, 184, 147],
    [ 86, 174,  81,  40, 100,  98,   0,  94,  32,  99,  87,  68,  77,  24,  29,  89,  47,  84, 115,  83],
    [ 94, 198, 168, 134,  21, 135,  94,   0, 102,   5,  10, 149,  95, 109,  97, 142,  89,  29,  61,  33],
    [106, 202, 101,  56, 102, 127,  32, 102,   0, 107,  95,  94, 103,  53,  26, 121,  78,  97, 110,  85],
    [ 96, 198, 172, 138,  22, 138,  99,   5, 107,   0,  15, 153,  98, 113, 102, 145,  92,  32,  61,  36],
    [ 84, 196, 160, 126,  28, 127,  87,  10,  95,  15,   0, 142,  87, 101,  91, 135,  81,  21,  67,  36],
    [111, 139,  23,  42, 158,  80,  68, 149,  94, 153, 142,   0,  91,  46,  86,  46,  65, 133, 174, 143],
    [ 27, 169, 108,  93, 114,  42,  77,  95, 103,  98,  87,  91,   0,  76, 103,  74,  38,  68, 147, 110],
    [ 91, 154,  61,  29, 116,  87,  24, 109,  53, 113, 101,  46,  76,   0,  43,  68,  42,  96, 130,  99],
    [112, 180,  96,  54,  97, 125,  29,  97,  26, 102,  91,  86, 103,  43,   0, 110,  71,  96, 101,  77],
    [ 99, 112,  65,  80, 155,  56,  89, 142, 121, 145, 135,  46,  74,  68, 110,   0,  58, 124, 177, 144],
    [ 58, 149,  85,  65, 103,  59,  47,  89,  78,  92,  81,  65,  38,  42,  71,  58,   0,  69, 128,  92],
    [ 64, 192, 152, 121,  50, 109,  84,  29,  97,  32,  21, 133,  68,  96,  96, 124,  69,   0,  88,  55],
    [148, 215, 181, 152,  40, 184, 115,  61, 110,  61,  67, 174, 147, 130, 101, 177, 128,  88,   0,  37],
    [112, 194, 160, 122,  22, 147,  83,  33,  85,  36,  36, 143, 110,  99,  77, 144,  92,  55,  37,   0]
  ]

  /** Henikoff and Henikoff (1992) BLOSUM62 log-odds similarity. */
  const Blosum62Matrix: seq<seq<int>> := [
    [  4,   0,  -2,  -1,  -2,   0,  -2,  -1,  -1,  -1,  -1,  -2,  -1,  -1,  -1,   1,   0,   0,  -3,  -2],
    [  0,   9,  -3,  -4,  -2,  -3,  -3,  -1,  -3,  -1,  -1,  -3,  -3,  -3,  -3,  -1,  -1,  -1,  -2,  -2],
    [ -2,  -3,   6,   2,  -3,  -1,  -1,  -3,  -1,  -4,  -3,   1,  -1,   0,  -2,   0,  -1,  -3,  -4,  -3],
    [ -1,  -4,   2,   5,  -3,  -2,   0,  -3,   1,  -3,  -2,   0,  -1,   2,   0,   0,  -1,  -2,  -3,  -2],
    [ -2,  -2,  -3,  -3,   6,  -3,  -1,   0,  -3,   0,   0,  -3,  -4,  -3,  -3,  -2,  -2,  -1,   1,   3],
    [  0,  -3,  -1,  -2,  -3,   6,  -2,  -4,  -2,  -4,  -3,   0,  -2,  -2,  -2,   0,  -2,  -3,  -2,  -3],
    [ -2,  -3,  -1,   0,  -1,  -2,   8,  -3,  -1,  -3,  -2,   1,  -2,   0,   0,  -1,  -2,  -3,  -2,   2],
    [ -1,  -1,  -3,  -3,   0,  -4,  -3,   4,  -3,   2,   1,  -3,  -3,  -3,  -3,  -2,  -1,   3,  -3,  -1],
    [ -1,  -3,  -1,   1,  -3,  -2,  -1,  -3,   5,  -2,  -1,   0,  -1,   1,   2,   0,  -1,  -2,  -3,  -2],
    [ -1,  -1,  -4,  -3,   0,  -4,  -3,   2,  -2,   4,   2,  -3,  -3,  -2,  -2,  -2,  -1,   1,  -2,  -1],
    [ -1,  -1,  -3,  -2,   0,  -3,  -2,   1,  -1,   2,   5,  -2,  -2,   0,  -1,  -1,  -1,   1,  -1,  -1],
    [ -2,  -3,   1,   0,  -3,   0,   1,  -3,   0,  -3,  -2,   6,  -2,   0,   0,   1,   0,  -3,  -4,  -2],
    [ -1,  -3,  -1,  -1,  -4,  -2,  -2,  -3,  -1,  -3,  -2,  -2,   7,  -1,  -2,  -1,  -1,  -2,  -4,  -3],
    [ -1,  -3,   0,   2,  -3,  -2,   0,  -3,   1,  -2,   0,   0,  -1,   5,   1,   0,  -1,  -2,  -2,  -1],
    [ -1,  -3,  -2,   0,  -3,  -2,   0,  -3,   2,  -2,  -1,   0,  -2,   1,   5,  -1,  -1,  -3,  -3,  -2],
    [  1,  -1,   0,   0,  -2,   0,  -1,  -2,   0,  -2,  -1,   1,  -1,   0,  -1,   4,   1,  -2,  -3,  -2],
    [  0,  -1,  -1,  -1,  -2,  -2,  -2,  -1,  -1,  -1,  -1,   0,  -1,  -1,  -1,   1,   5,   0,  -2,  -2],
    [  0,  -1,  -3,  -2,  -1,  -3,  -3,   3,  -2,   1,   1,  -3,  -2,  -2,  -3,  -2,   0,   4,  -3,  -1],
    [ -3,  -2,  -4,  -3,   1,  -2,  -2,  -3,  -3,  -2,  -1,  -4,  -4,  -2,  -3,  -3,  -2,  -3,  11,   2],
    [ -2,  -2,  -3,  -2,   3,  -3,   2,  -1,  -2,  -1,  -1,  -2,  -3,  -1,  -2,  -2,  -2,  -1,   2,   7]
  ]

  /** The BLOSUM62 score reported for a pair with a symbol outside the alphabet. */
  const Sentinel: int := -999

  /** A 20x20 table indexed by alphabet positions. */
  predicate IsSquare(m: seq<seq<int>>) {
    |m| == |AminoAcids| && forall i :: 0 <= i < |m| ==> |m[i]| == |AminoAcids|
  }

  // The facts below enumerate table entries; each band of rows is a separate lemma so that
  // every proof stays small.

  lemma GranthamSymmetricRows0To4()
    ensures forall i, j :: 0 <= i < 5 && i < j < 20 ==> GranthamMatrix[i][j] == GranthamMatrix[j][i]
  {
  }

  lemma GranthamSymmetricRows5To9()
    ensures forall i, j :: 5 <= i < 10 && i < j < 20 ==> GranthamMatrix[i][j] == GranthamMatrix[j][i]
  {
  }

  lemma GranthamSymmetricRows10To14()
    ensures forall i, j :: 10 <= i < 15 && i < j < 20 ==> GranthamMatrix[i][j] == GranthamMatrix[j][i]
  {
  }

  lemma GranthamSymmetricRows15To19()
    ensures forall i, j :: 15 <= i < 20 && i < j < 20 ==> GranthamMatrix[i][j] == GranthamMatrix[j][i]
  {
  }

  lemma GranthamRangeRows0To4()
    ensures forall i, j :: 0 <= i < 5 && 0 <= j < 20 ==> 0 <= GranthamMatrix[i][j] <= 215 && (GranthamMatrix[i][j] == 0 <==> i == j)
  {
  }

  lemma GranthamRangeRows5To9()
    ensures forall i, j :: 5 <= i < 10 && 0 <= j < 20 ==> 0 <= GranthamMatrix[i][j] <= 215 && (GranthamMatrix[i][j] == 0 <==> i == j)
  {
  }

  lemma GranthamRangeRows10To14()
    ensures forall i, j :: 10 <= i < 15 && 0 <= j < 20 ==> 0 <= GranthamMatrix[i][j] <= 215 && (GranthamMatrix[i][j] == 0 <==> i == j)
  {
  }

  lemma GranthamRangeRows15To19()
    ensures forall i, j :: 15 <= i < 20 && 0 <= j < 20 ==> 0 <= GranthamMatrix[i][j] <= 215 && (GranthamMatrix[i][j] == 0 <==> i == j)
  {
  }

  lemma Blosum62SymmetricRows0To4()
    ensures forall i, j :: 0 <= i < 5 && i < j < 20 ==> Blosum62Matrix[i][j] == Blosum62Matrix[j][i]
  {
  }

  lemma Blosum62SymmetricRows5To9()
    ensures forall i, j :: 5 <= i < 10 && i < j < 20 ==> Blosum62Matrix[i][j] == Blosum62Matrix[j][i]
  {
  }

  lemma Blosum62SymmetricRows10To14()
    ensures forall i, j :: 10 <= i < 15 && i < j < 20 ==> Blosum62Matrix[i][j] == Blosum62Matrix[j][i]
  {
  }

  lemma Blosum62SymmetricRows15To19()
    ensures forall i, j :: 15 <= i < 20 && i < j < 20 ==> Blosum62Matrix[i][j] == Blosum62Matrix[j][i]
  {
  }

  lemma Blosum62RangeRows0To4()
    ensures forall i, j :: 0 <= i < 5 && 0 <= j < 20 ==>
      -4 <= Blosum62Matrix[i][j] <= 11 && 4 <= Blosum62Matrix[i][i] &&
      (j != i ==> Blosum62Matrix[i][j] < Blosum62Matrix[i][i])
  {
  }

  lemma Blosum62RangeRows5To9()
    ensures forall i, j :: 5 <= i < 10 && 0 <= j < 20 ==>
      -4 <= Blosum62Matrix[i][j] <= 11 && 4 <= Blosum62Matrix[i][i] &&
      (j != i ==> Blosum62Matrix[i][j] < Blosum62Matrix[i][i])
  {
  }

  lemma Blosum62RangeRows10To14()
    ensures forall i, j :: 10 <= i < 15 && 0 <= j < 20 ==>
      -4 <= Blosum62Matrix[i][j] <= 11 && 4 <= Blosum62Matrix[i][i] &&
      (j != i ==> Blosum62Matrix[i][j] < Blosum62Matrix[i][i])
  {
  }

  lemma Blosum62RangeRows15To19()
    ensures forall i, j :: 15 <= i < 20 && 0 <= j < 20 ==>
      -4 <= Blosum62Matrix[i][j] <= 11 && 4 <= Blosum62Matrix[i][i] &&
      (j != i ==> Blosum62Matrix[i][j] < Blosum62Matrix[i][i])
  {
  }

  /** The Grantham table is symmetric, zero exactly on its diagonal, and every entry lies in
      [0, 215]; the largest entry, 215, is the distance between C and W. */
  lemma GranthamMatrixFacts()
    ensures IsSquare(GranthamMatrix)
    ensures forall i, j :: 0 <= i < 20 && 0 <= j < 20 ==> GranthamMatrix[i][j] == GranthamMatrix[j][i]
    ensures forall i, j :: 0 <= i < 20 && 0 <= j < 20 ==> 0 <= GranthamMatrix[i][j] <= 215
    ensures forall i, j :: 0 <= i < 20 && 0 <= j < 20 ==> (GranthamMatrix[i][j] == 0 <==> i == j)
    ensures GranthamMatrix[1][18] == 215
  {
    GranthamSymmetricRows0To4();
    GranthamSymmetricRows5To9();
    GranthamSymmetricRows10To14();
    GranthamSymmetricRows15To19();
    GranthamRangeRows0To4();
    GranthamRangeRows5To9();
    GranthamRangeRows10To14();
    GranthamRangeRows15To19();
  }

  /** The BLOSUM62 table is symmetric, every entry lies in [-4, 11], and each diagonal entry
      is strictly greater than every other entry of its row (and at least 4). */
  lemma Blosum62MatrixFacts()
    ensures IsSquare(Blosum62Matrix)
    ensures forall i, j :: 0 <= i < 20 && 0 <= j < 20 ==> Blosum62Matrix[i][j] == Blosum62Matrix[j][i]
    ensures forall i, j :: 0 <= i < 20 && 0 <= j < 20 ==> -4 <= Blosum62Matrix[i][j] <= 11
    ensures forall i, j :: 0 <= i < 20 && 0 <= j < 20 && i != j ==> Blosum62Matrix[i][j] < Blosum62Matrix[i][i]
    ensures forall i :: 0 <= i < 20 ==> 4 <= Blosum62Matrix[i][i]
  {
    Blosum62SymmetricRows0To4();
    Blosum62SymmetricRows5To9();
    Blosum62SymmetricRows10To14();
    Blosum62SymmetricRows15To19();
    Blosum62RangeRows0To4();
    Blosum62RangeRows5To9();
    Blosum62RangeRows10To14();
    Blosum62RangeRows15To19();
  }

  /** Grantham distance between two alphabet symbols: the table entry at their positions.
      A symbol outside the alphabet would index the table at -1, so both must be in it. */
  function GranthamPair(a: char, b: char): int
    requires IsAminoAcid(a) && IsAminoAcid(b)
  {
    IndexOfSpec(a);
    IndexOfSpec(b);
    GranthamMatrix[IndexOf(a)][IndexOf(b)]
  }

  /** BLOSUM62 similarity of two symbols: the table entry at their positions, or `Sentinel`
      when either symbol is outside the alphabet. */
  function Blosum62Pair(a: char, b: char): int {
    IndexOfSpec(a);
    IndexOfSpec(b);
    var pos1 := IndexOf(a);
    var pos2 := IndexOf(b);
    if pos1 == NotFound || pos2 == NotFound then Sentinel else Blosum62Matrix[pos1][pos2]
  }

  /** Grantham distances lie between 0 and 215, and are 0 exactly between a symbol and
      itself. */
  lemma GranthamPairRange(a: char, b: char)
    requires IsAminoAcid(a) && IsAminoAcid(b)
    ensures 0 <= GranthamPair(a, b) <= 215
    ensures GranthamPair(a, b) == 0 <==> a == b
  {
    IndexOfSpec(a);
    IndexOfSpec(b);
    IndexOfInjective(a, b);
    GranthamMatrixFacts();
  }

  /** The sentinel marks exactly the pairs with a symbol outside the alphabet; every other
      pair scores between -4 and 11. */
  lemma Blosum62PairRange(a: char, b: char)
    ensures Blosum62Pair(a, b) == Sentinel <==> !(IsAminoAcid(a) && IsAminoAcid(b))
    ensures Blosum62Pair(a, b) != Sentinel ==> -4 <= Blosum62Pair(a, b) <= 11
  {
    IndexOfSpec(a);
    IndexOfSpec(b);
    Blosum62MatrixFacts();
  }

  lemma GranthamSymmetric(a: char, b: char)
    requires IsAminoAcid(a) && IsAminoAcid(b)
    ensures GranthamPair(a, b) == GranthamPair(b, a)
  {
    IndexOfSpec(a);
    IndexOfSpec(b);
    GranthamMatrixFacts();
  }

  /** No pair of symbols is further apart than C and W, at 215. */
  lemma GranthamMaximum(a: char, b: char)
    requires IsAminoAcid(a) && IsAminoAcid(b)
    ensures GranthamPair(a, b) <= GranthamPair('C', 'W') == 215
  {
    IndexOfAt(1);
    IndexOfAt(18);
    IndexOfSpec(a);
    IndexOfSpec(b);
    GranthamMatrixFacts();
  }

  lemma Blosum62Symmetric(a: char, b: char)
    ensures Blosum62Pair(a, b) == Blosum62Pair(b, a)
  {
    IndexOfSpec(a);
    IndexOfSpec(b);
    Blosum62MatrixFacts();
  }

  /** A symbol is more similar to itself than to any other symbol, known or unknown. */
  lemma Blosum62SelfBest(a: char, b: char)
    requires IsAminoAcid(a) && a != b
    ensures Blosum62Pair(a, b) < Blosum62Pair(a, a)
  {
    IndexOfSpec(a);
    IndexOfSpec(b);
    Blosum62MatrixFacts();
    if IsAminoAcid(b) {
      IndexOfInjective(a, b);
    }
  }

  /** Every symbol of the alphabet scores between 4 and 11 against itself. */
  lemma Blosum62SelfScore(a: char)
    requires IsAminoAcid(a)
    ensures 4 <= Blosum62Pair(a, a) <= 11
  {
    IndexOfSpec(a);
    Blosum62MatrixFacts();
  }

  /** The Grantham lookup as `grantham_distance` computes it: two alphabet scans, then the
      table. */
  method GranthamLookup(aa1: char, aa2: char) returns (d: int)
    requires IsAminoAcid(aa1) && IsAminoAcid(aa2)
    ensures d == GranthamPair(aa1, aa2)
  {
    GranthamMatrixFacts();
    var index1 := FindLetterPosition(aa1);
    var index2 := FindLetterPosition(aa2);
    d := GranthamMatrix[index1][index2];
  }

  /** The BLOSUM62 lookup as `blosum62_similarity` computes it: two alphabet scans, the
      sentinel guard, then the table. */
  method Blosum62Lookup(aa1: char, aa2: char) returns (s: int)
    ensures s == Blosum62Pair(aa1, aa2)
  {
    Blosum62MatrixFacts();
    var pos1 := FindLetterPosition(aa1);
    var pos2 := FindLetterPosition(aa2);
    if pos1 == NotFound || pos2 == NotFound {
      return Sentinel;
    }
    s := Blosum62Matrix[pos1][pos2];
  }
}
