/** `toggleExplanation` of the chapter view: which explanation panels are
    open, as a record from panel index to flag where a missing index reads
    as closed. */
module ExplanationToggle {

  /** `!!prev[i]`: a panel is open only when its index is present and set. */
  predicate IsOpen(m: map<int, bool>, i: int) {
    i in m && m[i]
  }

  /** `{ ...prev, [i]: !prev[i] }`. */
  function Toggle(m: map<int, bool>, i: int): (m': map<int, bool>)
    ensures i in m' && (IsOpen(m', i) <==> !IsOpen(m, i))
    ensures m'.Keys == m.Keys + {i}
    ensures forall j :: j in m && j != i ==> m'[j] == m[j]
  {
    m[i := !IsOpen(m, i)]
  }

  /** Toggling the same panel twice restores every panel's openness. */
  lemma ToggleTwice(m: map<int, bool>, i: int, j: int)
    ensures IsOpen(Toggle(Toggle(m, i), i), j) == IsOpen(m, j)
  {
  }

  /** Toggles of different panels commute. */
  lemma ToggleCommutes(m: map<int, bool>, i: int, k: int)
    requires i != k
    ensures Toggle(Toggle(m, i), k) == Toggle(Toggle(m, k), i)
  {
  }

  /** A toggle changes the openness of its own panel and of no other. */
  lemma ToggleOnlyAffectsIndex(m: map<int, bool>, i: int, j: int)
    ensures IsOpen(Toggle(m, i), j) != IsOpen(m, j) <==> j == i
  {
  }
}
