/** Generic facts about sequences, used as reference definitions by the other modules. */
module Sequences {

  /** `a` is what is left of `b` after deleting some of its elements: the rest keep their order. */
  ghost predicate IsSubsequence<T>(a: seq<T>, b: seq<T>)
    decreases |b|
  {
    if a == [] then true
    else if b == [] then false
    else (a[0] == b[0] && IsSubsequence(a[1..], b[1..])) || IsSubsequence(a, b[1..])
  }

  function Min(a: int, b: int): int
  {
    if a <= b then a else b
  }
}
