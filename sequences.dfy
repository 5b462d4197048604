/** Positions in sequences, shared by the grouping proofs and the modifier pipeline. */
module Sequences {

  /** The position of the first occurrence of `x` in `s`, or `|s|` when `x` does not occur. */
  function FirstIndex<T(==)>(s: seq<T>, x: T): (i: nat)
    ensures i <= |s|
    ensures i < |s| ==> s[i] == x
    ensures forall j :: 0 <= j < i ==> s[j] != x
  {
    if s == [] then 0 else if s[0] == x then 0 else 1 + FirstIndex(s[1..], x)
  }

  /** Appending an element keeps every earlier first occurrence. */
  lemma {:induction false} FirstIndexAppend<T>(s: seq<T>, y: T, x: T)
    ensures FirstIndex(s + [y], x) ==
      if FirstIndex(s, x) < |s| then FirstIndex(s, x) else if y == x then |s| else |s| + 1
  {
    if s != [] {
      assert (s + [y])[1..] == s[1..] + [y];
      FirstIndexAppend(s[1..], y, x);
    }
  }
}
