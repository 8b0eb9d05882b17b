# Positional amino-acid scoring (SequenceDistances), modelled in Dafny

SequenceDistances scores peptides (strings over the 20-letter amino-acid alphabet
`ACDEFGHIKLMNPQRSTVWY`) against each other position by position. There are no gaps and no
alignment. For two collections of peptides it fills an n1 x n2 matrix. Cell (i, j) is the sum,
over the positions shared by peptide i of the first collection and peptide j of the second, of a
per-position lookup in one of two fixed 20 x 20 tables:

- the Grantham (1974) physicochemical distance, for `GranthamDistance`;
- the BLOSUM62 (Henikoff & Henikoff, 1992) log-odds similarity, for `BLOSUM62sim`.

The longer peptide of a pair is truncated to the length of the shorter one. The engine is
`src/functions.cpp`, and this project models all of it in three modules.

- `Alphabet` (`alphabet.dfy`) models `findLetterPosition`.
  - `IndexOf` gives each symbol's 0-based position in the canonical order, or -1.
  - `FindLetterPosition` is the source's linear scan with an early return. It is proved to
    compute `IndexOf`.
  - The result is 0-based, as the code returns it. The comment at line 16 says 1 is added for
    R's indexing, but no 1 is added, and the tables are indexed from 0.
- `SubstitutionTables` (`tables.dfy`) holds the two tables as `seq<seq<int>>` constants, with
  rows and columns in the canonical order.
  - The table facts are proved by the verifier over the literals: symmetry, ranges,
    zero or maximal diagonal, and the Grantham maximum at C-W.
  - `GranthamPair` and `Blosum62Pair` are the lookups as functions. `GranthamLookup` and
    `Blosum62Lookup` perform them as the source does (two alphabet scans, then the table).
    Each method is proved equal to its function.
  - An unknown symbol makes the BLOSUM62 lookup return the sentinel -999. The Grantham lookup
    would index its table at -1, so its callers must pass alphabet symbols (a precondition).
- `PairwiseScoring` (`scoring.dfy`) defines the running sum once, for any per-position lookup
  `f`.
  - `PrefixScore` sums the first n positions. `PairSum` sums every shared position, and
    `PosScore` is `PairSum` under one of the two tables.
  - The inner k loop is `PairScore`, and the nested i/j loops filling a fresh `array2<int>`
    are `ScoreMatrix`. Both are written once, because the two scorers of the source differ
    only in the lookup they call.
  - `GranthamDistance` and `Blosum62Sim` instantiate `ScoreMatrix` with the two lookups.
  - Generic lemmas prove locality, splitting, bounds, symmetry and the self-comparison facts of
    the sum from hypotheses about `f`. The table lemmas discharge those hypotheses.

C-G is -3 in the BLOSUM62 table literal (src/functions.cpp:94), so "AC" against "AG" scores
4 + (-3) = 1 (`Blosum62ConcreteScores`).

## Model

| member | source | states |
|---|---|---|
| Alphabet.IndexOfSpec | src/functions.cpp:8-22 | the position is -1 exactly for a symbol outside the alphabet; otherwise it is in [0, 20) and the alphabet holds the symbol there |
| Alphabet.AminoAcidsDistinct | src/functions.cpp:9 | no symbol occurs twice in the canonical alphabet string |
| Alphabet.IndexOfAt | src/functions.cpp:8-22 | looking up the symbol at position p of the alphabet gives p back |
| Alphabet.IndexOfInjective | src/functions.cpp:8-22 | two alphabet symbols share a position exactly when they are equal |
| Alphabet.FindLetterPosition | src/functions.cpp:8-22 | the scan with early return gives -1 exactly for symbols outside the alphabet and otherwise the 0-based position holding the symbol, equal to IndexOf |
| SubstitutionTables.GranthamMatrixFacts | src/functions.cpp:27-48 | the Grantham table is 20 x 20 and symmetric; every entry lies in [0, 215]; an entry is 0 exactly on the diagonal; the C-W entry is 215 |
| SubstitutionTables.Blosum62MatrixFacts | src/functions.cpp:93-112 | the BLOSUM62 table is 20 x 20 and symmetric; entries lie in [-4, 11]; each diagonal entry is at least 4 and strictly greater than every other entry of its row |
| SubstitutionTables.GranthamPairRange | src/functions.cpp:25-56 | the Grantham distance of two alphabet symbols lies in [0, 215] and is 0 exactly when the symbols are equal |
| SubstitutionTables.Blosum62PairRange | src/functions.cpp:113-116 | the lookup returns -999 exactly when either symbol is outside the alphabet; otherwise the result lies in [-4, 11] |
| SubstitutionTables.GranthamSymmetric | src/functions.cpp:25-56 | the Grantham distance does not depend on the order of the two symbols |
| SubstitutionTables.GranthamMaximum | src/functions.cpp:27-48 | no pair of symbols is further apart than C and W, at 215 |
| SubstitutionTables.Blosum62Symmetric | src/functions.cpp:92-117 | the BLOSUM62 lookup does not depend on the order of the two symbols, known or unknown |
| SubstitutionTables.Blosum62SelfBest | src/functions.cpp:92-117 | an alphabet symbol scores strictly higher against itself than against any other symbol, including unknown ones |
| SubstitutionTables.Blosum62SelfScore | src/functions.cpp:93-112 | an alphabet symbol scores between 4 and 11 against itself |
| SubstitutionTables.GranthamLookup | src/functions.cpp:25-56 | two alphabet scans followed by the table read compute the Grantham distance of the two symbols |
| SubstitutionTables.Blosum62Lookup | src/functions.cpp:92-117 | two alphabet scans, the sentinel guard and the table read compute the BLOSUM62 lookup, -999 for an unknown symbol |
| PairwiseScoring.GranthamLookupFacts | src/functions.cpp:25-56 | the Grantham lookup is a distance on the alphabet (non-negative, 0 exactly on equal symbols) bounded by 215 |
| PairwiseScoring.Blosum62LookupFacts | src/functions.cpp:113-116 | every BLOSUM62 lookup lies in [-999, 11], and in [-4, 11] on alphabet symbols |
| PairwiseScoring.TableSymmetric | src/functions.cpp:25-117 | both lookups are symmetric |
| PairwiseScoring.PairScore | src/functions.cpp:75-78 | the k loop accumulates, up to the end of the shorter peptide, exactly the pair's positional sum |
| PairwiseScoring.ScoreMatrix | src/functions.cpp:64-83 | the result is a fresh matrix of shape (number of peptides1, number of peptides2), and every cell (i, j) holds the positional sum of peptides1[i] and peptides2[j] |
| PairwiseScoring.GranthamDistance | src/functions.cpp:60-86 | for peptides whose shared positions hold alphabet symbols, the fresh matrix has one row per peptide of the first collection and one column per peptide of the second, and cell (i, j) is the Grantham positional score of the pair |
| PairwiseScoring.Blosum62Sim | src/functions.cpp:122-148 | for any peptides, the fresh matrix has that shape, and cell (i, j) is the BLOSUM62 positional score of the pair |
| PairwiseScoring.EmptyPairScoresZero | src/functions.cpp:75-78 | a pair in which either peptide is empty scores 0 under both tables |
| PairwiseScoring.TruncationLaw | src/functions.cpp:76 | a pair scores the same as its two peptides cut to the shorter length |
| PairwiseScoring.ExtendLongerUnchanged | src/functions.cpp:76-77 | appending symbols to the longer peptide of a pair leaves its score unchanged |
| PairwiseScoring.PosScoreSymmetric | src/functions.cpp:76-77 | swapping the two peptides of a pair leaves its score unchanged |
| PairwiseScoring.GranthamScoreBounds | src/functions.cpp:75-78 | the Grantham score of a pair with L shared positions lies in [0, 215 L], and is 0 exactly when the peptides agree on every shared position |
| PairwiseScoring.GranthamSelfDistanceZero | src/functions.cpp:75-78 | a peptide of alphabet symbols is at Grantham distance 0 from itself |
| PairwiseScoring.Blosum62ScoreBounds | src/functions.cpp:137-140 | the BLOSUM62 score of a pair with L shared positions lies in [-999 L, 11 L], and in [-4 L, 11 L] when every shared position holds alphabet symbols (`SharedAlphabet`) |
| PairwiseScoring.Blosum62UnknownSymbol | src/functions.cpp:113-140 | an unknown symbol at a shared position contributes exactly -999: the score is the score before that position, plus -999, plus the score after it |
| PairwiseScoring.Blosum62SelfMaximal | src/functions.cpp:137-140 | a peptide of alphabet symbols scores at least as high against itself as against any peptide, and equally high exactly against the peptides it is a prefix of |
| PairwiseScoring.GranthamConcreteScores | src/functions.cpp:27-48 | "A" against "W" scores 148, and "AC" against "AC" scores 0, under Grantham |
| PairwiseScoring.Blosum62ConcreteScores | src/functions.cpp:93-112 | "A" against "W" scores -3, and "AC" against "AG" scores 4 + (-3) = 1, under BLOSUM62 |

## Left out

- R interop is not modelled. This covers `StringVector`, `NumericMatrix` and the export glue. The
  collections are `seq<string>` and the result is an `array2<int>`. `NumericMatrix` stores the
  integer sums as doubles, which is exact for every sum these tables can produce on realistic
  lengths.
- RcppParallel is included by the source but never used. There is no concurrency to model.
- The per-pair `std::vector<char>` copies of the two peptides (src/functions.cpp:69-72 and
  131-134) are not modelled. The model indexes the strings directly, since the copies equal
  them.
- The repeated includes at src/functions.cpp:1-5 and 88-89 are not modelled.
- PairScore: the accumulator is a mathematical integer, so 32-bit overflow of the C++ `int` is
  not modelled. GranthamScoreBounds and Blosum62ScoreBounds bound the sum by 215 L and 999 L in
  magnitude, for L shared positions.
- GranthamDistance: reading the Grantham table at index -1 for a symbol outside the alphabet
  is undefined behaviour in the source. It is excluded by a precondition rather than modelled.
  The precondition covers only the shared positions, the only positions the source reads.
  GranthamLookup and GranthamPair carry the same precondition.
- The scorers call the lookups in their function form (`GranthamPair`, `Blosum62Pair`).
  `GranthamLookup` and `Blosum62Lookup`, the step-by-step form with the alphabet scans, are
  proved to compute the same values.
- Blosum62Sim and Blosum62UnknownSymbol: peptides are modelled as sequences of characters,
  while the source scores the bytes of the encoded R strings. A non-ASCII symbol therefore
  occupies one position in the model but several in the source, each byte contributing -999
  and shifting every later position. The model agrees with the source on ASCII input only.
  GranthamDistance is unaffected, since its precondition admits only alphabet symbols.
