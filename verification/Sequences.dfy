/** Facts about sequences read as a front and a last element, stated once so that proofs can cite them. */
module Sequences {

  lemma {:induction false} FrontLast<T>(s: seq<T>)
    requires s != []
    ensures s[..|s| - 1] + [s[|s| - 1]] == s
  {
  }

  lemma {:induction false} FrontOfMore<T>(s: seq<T>, x: T)
    ensures s + [x] != [] && (s + [x])[..|s + [x]| - 1] == s && (s + [x])[|s + [x]| - 1] == x
  {
  }

  lemma {:induction false} FrontOfJoin<T>(a: seq<T>, b: seq<T>)
    requires b != []
    ensures (a + b)[..|a + b| - 1] == a + b[..|b| - 1] && (a + b)[|a + b| - 1] == b[|b| - 1]
  {
  }

  lemma {:induction false} InFrontOrLast<T>(s: seq<T>, x: T)
    requires s != []
    ensures x in s <==> x in s[..|s| - 1] || x == s[|s| - 1]
  {
    FrontLast(s);
  }

  lemma {:induction false} FrontOfPrefix<T>(s: seq<T>, n: nat)
    requires n < |s|
    ensures s[..n + 1] != [] && s[..n + 1][..n] == s[..n] && s[..n + 1][n] == s[n]
  {
  }

  lemma {:induction false} JoinNothing<T>(s: seq<T>)
    ensures s + [] == s && [] + s == s
  {
  }

  lemma {:induction false} JoinAssociates<T>(a: seq<T>, b: seq<T>, c: seq<T>)
    ensures a + (b + c) == a + b + c
  {
  }
}
