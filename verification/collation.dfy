/** The string order behind `String.prototype.localeCompare`. Locale-aware
    collation is replaced by lexicographic order on code points; the sort
    proofs use only that it is a total preorder (reflexive, antisymmetric in
    sign, transitive), which every locale collation also is. */
module Collation {

  /** Negative, zero or positive as `a` sorts before, with, or after `b`. */
  function LocaleCompare(a: string, b: string): (r: int)
    ensures -1 <= r <= 1
  {
    if a == [] && b == [] then 0
    else if a == [] then -1
    else if b == [] then 1
    else if a[0] < b[0] then -1
    else if a[0] > b[0] then 1
    else LocaleCompare(a[1..], b[1..])
  }

  lemma {:induction false} CompareReflexive(a: string)
    ensures LocaleCompare(a, a) == 0
  {
    if a != [] {
      CompareReflexive(a[1..]);
    }
  }

  /** Swapping the operands flips the sign of the result. */
  lemma {:induction false} CompareAntisymmetric(a: string, b: string)
    ensures LocaleCompare(a, b) == -LocaleCompare(b, a)
  {
    if a != [] && b != [] && a[0] == b[0] {
      CompareAntisymmetric(a[1..], b[1..]);
    }
  }

  /** "Sorts no later than" is transitive. */
  lemma {:induction false} CompareTransitive(a: string, b: string, c: string)
    requires LocaleCompare(a, b) <= 0 && LocaleCompare(b, c) <= 0
    ensures LocaleCompare(a, c) <= 0
  {
    if a != [] && b != [] && c != [] && a[0] == b[0] && b[0] == c[0] {
      CompareTransitive(a[1..], b[1..], c[1..]);
    }
  }
}
