/** Small vocabulary shared by every component model. */
module Prelude {
  datatype Option<+T> = None | Some(value: T)

  /** A trading pair; only its identity matters. */
  type Symbol(==, 0, !new)

  function Max(x: int, y: int): int {
    if x < y then y else x
  }

  function Min(x: int, y: int): int {
    if x < y then x else y
  }

  function MaxR(x: real, y: real): real {
    if x < y then y else x
  }

  function MinR(x: real, y: real): real {
    if x < y then x else y
  }

  /** An instant of a clock that never reads negative (`time.monotonic`, `time.time`). */
  type Instant = t: real | 0.0 <= t

  /** Some element of a non-empty set. */
  ghost function Pick<T>(s: set<T>): (x: T)
    requires s != {}
    ensures x in s
  {
    assert (forall x :: x !in s) ==> s == {};
    var x :| x in s;
    x
  }

  /** `s` read in order contains no element twice. */
  ghost predicate Distinct<T>(s: seq<T>) {
    forall i, j :: 0 <= i < j < |s| ==> s[i] != s[j]
  }

  /** The elements of `s` as a set. */
  function Elements<T>(s: seq<T>): set<T> {
    set x | x in s
  }

  lemma ConsSnoc<T>(x: T, s: seq<T>)
    requires s != []
    ensures [x] + s == ([x] + s[..|s| - 1]) + [s[|s| - 1]]
  {
  }

  lemma PrefixSnoc<T>(s: seq<T>, i: nat)
    requires i < |s|
    ensures s[..i + 1] == s[..i] + [s[i]]
  {
  }

  lemma ConsTail<T>(s: seq<T>)
    requires s != []
    ensures [s[0]] + s[1..] == s
  {
  }

  lemma AppendNothing<T>(x: T, none: seq<T>)
    requires none == []
    ensures [x] + none == none + [x]
  {
  }
}
