/** Vocabulary shared by the models. */
module Common {

  datatype Option<+T> = None | Some(value: T)

  function Max(a: int, b: int): int {
    if a < b then b else a
  }

  function Min(a: int, b: int): int {
    if a < b then a else b
  }

  function MaxReal(a: real, b: real): real {
    if a < b then b else a
  }

  function MinReal(a: real, b: real): real {
    if a < b then a else b
  }

  /** Products of reals under a name, so that proofs can treat them as units. */
  function Times(x: real, y: real): real {
    x * y
  }

  lemma TakeOneMore<T>(s: seq<T>, i: nat)
    requires i < |s|
    ensures s[..i + 1] == s[..i] + [s[i]] && s[..i + 1][..i] == s[..i]
  {
  }

  lemma LastApart<T>(s: seq<T>)
    requires s != []
    ensures s == s[..|s| - 1] + [s[|s| - 1]] && s[|s| - 1] in s
  {
  }

  lemma SplitAt<T>(s: seq<T>, i: nat)
    requires i < |s|
    ensures s == s[..i] + ([s[i]] + s[i + 1..])
  {
  }

  lemma ConcatFront<T>(a: seq<T>, b: seq<T>)
    requires b != []
    ensures (a + b)[..|a + b| - 1] == a + b[..|b| - 1] && (a + b)[|a + b| - 1] == b[|b| - 1]
  {
  }

  lemma ConsSnoc<T>(s: seq<T>, x: T)
    requires s != []
    ensures (s + [x])[0] == s[0] && (s + [x])[1..] == s[1..] + [x]
  {
  }

  lemma Regroup<T>(a: seq<T>, b: seq<T>, c: seq<T>)
    ensures a + (b + c) == (a + b) + c
  {
  }

  lemma TimesOrdered(x: real, y: real, z: real)
    requires x <= y && z >= 0.0
    ensures Times(x, z) <= Times(y, z)
  {
  }

  lemma TimesReversed(x: real, y: real, z: real)
    requires x <= y && z <= 0.0
    ensures Times(y, z) <= Times(x, z)
  {
  }
}
