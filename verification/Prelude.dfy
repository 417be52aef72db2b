/**
 What several modules share.
*/
module Prelude {

  datatype Option<T> = None | Some(value: T)

  function Max(a: int, b: int): (m: int)
    ensures a <= m && b <= m && (m == a || m == b)
  {
    if a < b then b else a
  }

  function One(b: bool): (r: int)
    ensures 0 <= r <= 1
  {
    if b then 1 else 0
  }

  lemma EmptySet<T(!new)>(A: set<T>)
    requires forall x :: x !in A
    ensures A == {}
  {
    var B: set<T> := {};
    assert forall x :: x in A <==> x in B;
  }

  lemma SomeElement<T(!new)>(A: set<T>)
    requires A != {}
    ensures exists x :: x in A
  {
    if forall x :: x !in A { EmptySet(A); }
  }

  lemma SomeInt(A: set<int>)
    requires A != {}
    ensures exists x: int :: x in A
  {
    if forall x: int :: x !in A { EmptySet(A); }
  }

  function Pow2(n: nat): (r: nat)
    ensures r >= 1
  {
    if n == 0 then 1 else 2 * Pow2(n - 1)
  }
}
