/** The Option datatype, small arithmetic and the duplicate-free list shared by the component models. */
module Prelude {

  datatype Option<+T> = None | Some(value: T)

  /** JavaScript's `a ?? b` on an optional value. */
  function GetOr<T>(o: Option<T>, fallback: T): T {
    match o
    case None => fallback
    case Some(v) => v
  }

  /** The first of two optional values that is there. */
  function OrElse<T>(first: Option<T>, second: Option<T>): Option<T> {
    if first.Some? then first else second
  }

  function Min(a: int, b: int): int {
    if a < b then a else b
  }

  function Max(a: int, b: int): int {
    if a < b then b else a
  }

  function Pow2(n: nat): (p: nat)
    ensures p > 0
  {
    if n == 0 then 1 else 2 * Pow2(n - 1)
  }

  lemma Assoc<T>(a: seq<T>, b: seq<T>, c: seq<T>)
    ensures a + b + c == a + (b + c)
  {
  }

  predicate Distinct<T(==)>(xs: seq<T>) {
    forall i, j :: 0 <= i < j < |xs| ==> xs[i] != xs[j]
  }

  /** The members of a list, each once, where it first occurs: a JavaScript Set in insertion order. */
  function Once<T(==)>(xs: seq<T>): seq<T> {
    if xs == [] then []
    else
      var init, last := Once(xs[..|xs| - 1]), xs[|xs| - 1];
      if last in init then init else init + [last]
  }

  lemma {:induction false} OnceIsTheSet<T>(xs: seq<T>)
    ensures forall x :: x in Once(xs) <==> x in xs
    ensures Distinct(Once(xs))
  {
    if xs == [] {
    } else {
      OnceIsTheSet(xs[..|xs| - 1]);
      assert xs == xs[..|xs| - 1] + [xs[|xs| - 1]];
    }
  }
}
