/** What several modules need: values that may be absent (null pointers and unset variables of the source), runs of a
    step relation, and a few numbers. */
module Basics {
  datatype Option<+T> = None | Some(value: T)

  /** States and the steps between them; each protocol says what makes it a run of its own. */
  datatype Trace<S, T> = Trace(states: seq<S>, steps: seq<T>)

  const TWO_32 := 0x1_0000_0000
  const TWO_63 := 0x8000_0000_0000_0000
  const TWO_64 := 0x1_0000_0000_0000_0000

  function Max(a: int, b: int): int {
    if a < b then b else a
  }

  ghost predicate Increasing(s: seq<nat>) {
    forall i, j | 0 <= i < j < |s| :: s[i] < s[j]
  }
}
