/** The alphabet index: the 20 canonical amino-acid symbols and their 0-based positions,
    in the order shared by the index and both substitution tables. */
module Alphabet {

  /** The canonical order of the 20 amino-acid symbols. */
  const AminoAcids: string := "ACDEFGHIKLMNPQRSTVWY"

  /** The position reported for a symbol outside the alphabet. */
  const NotFound: int := -1

  predicate IsAminoAcid(c: char) {
    c in AminoAcids
  }

  /** A peptide whose every symbol is in the alphabet. */
  predicate IsPeptide(s: string) {
    forall k :: 0 <= k < |s| ==> IsAminoAcid(s[k])
  }

  /** The 0-based position of `c` in the canonical order, or `NotFound`, as a table of
      positions; `IndexOfSpec` states what it means. */
  function IndexOf(c: char): int {
    match c
    case 'A' => 0
    case 'C' => 1
    case 'D' => 2
    case 'E' => 3
    case 'F' => 4
    case 'G' => 5
    case 'H' => 6
    case 'I' => 7
    case 'K' => 8
    case 'L' => 9
    case 'M' => 10
    case 'N' => 11
    case 'P' => 12
    case 'Q' => 13
    case 'R' => 14
    case 'S' => 15
    case 'T' => 16
    case 'V' => 17
    case 'W' => 18
    case 'Y' => 19
    case _ => NotFound
  }

  /** `IndexOf` finds exactly the alphabet symbols, at their position in the canonical order. */
  lemma IndexOfSpec(c: char)
    ensures NotFound <= IndexOf(c) < |AminoAcids| == 20
    ensures IndexOf(c) == NotFound <==> !IsAminoAcid(c)
    ensures 0 <= IndexOf(c) ==> AminoAcids[IndexOf(c)] == c
  {
  }

  /** No symbol occurs twice in the canonical order. */
  lemma AminoAcidsDistinct()
    ensures forall i, j :: 0 <= i < j < |AminoAcids| ==> AminoAcids[i] != AminoAcids[j]
  {
  }

  /** Looking up the symbol at a position gives that position back. */
  lemma IndexOfAt(p: int)
    requires 0 <= p < |AminoAcids|
    ensures IndexOf(AminoAcids[p]) == p
  {
    AminoAcidsDistinct();
  }

  /** Two alphabet symbols share a position only when they are the same symbol. */
  lemma IndexOfInjective(a: char, b: char)
    requires IsAminoAcid(a) && IsAminoAcid(b)
    ensures IndexOf(a) == IndexOf(b) <==> a == b
  {
    IndexOfSpec(a);
    IndexOfSpec(b);
  }

  /** The linear scan of the alphabet with an early return on the first match. */
  method FindLetterPosition(target: char) returns (p: int)
    ensures NotFound <= p < |AminoAcids|
    ensures p == NotFound <==> !IsAminoAcid(target)
    ensures 0 <= p ==> AminoAcids[p] == target
    ensures p == IndexOf(target)
  {
    IndexOfSpec(target);
    var n := |AminoAcids|;
    for k := 0 to n
      invariant target !in AminoAcids[..k]
    {
      if AminoAcids[k] == target {
        IndexOfAt(k);
        return k;
      }
    }
    assert AminoAcids[..n] == AminoAcids;
    return NotFound;
  }
}
