// How long definitions are kept closed to the verifier, which would otherwise unfold
// them wherever they are mentioned.

module Closed {

  // A predicate P is closed by stating it as
  //   forall u: int {:trigger Opened(k, u)} :: Opened(k, u) ==> P
  // and `assert Opened(k, 0);` opens it. The number k tells apart what is opened
  // separately; where P speaks of an index, that index may stand for u.
  ghost predicate Opened(k: nat, u: int) {
    true
  }

  // A function f is closed by calling it as Behind(f, s, depth): behind `depth` calls
  // that do nothing. With a depth that is no literal the verifier does not look through
  // them; BehindIs does.
  function Behind<S, T>(f: S -> T, s: S, depth: nat): T {
    if depth == 0 then f(s) else Behind(f, s, depth - 1)
  }

  lemma {:induction false} BehindIs<S, T>(f: S -> T, s: S, depth: nat)
    ensures Behind(f, s, depth) == f(s)
  {
    if depth > 0 { BehindIs(f, s, depth - 1); }
  }
}
