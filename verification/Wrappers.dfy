/** Optional values and fallible results, shared by every module. */
module Wrappers {

  datatype Option<+T> = None | Some(value: T)

  datatype Result<+T, +E> = Success(value: T) | Failure(error: E)

  type Byte = b: int | 0 <= b < 256

  /** Go's integer division: it truncates toward zero, Dafny's `/` does not. */
  function TruncDiv(a: int, b: int): int
    requires b > 0
  {
    if a >= 0 then a / b else -(-a / b)
  }

  /** Towards zero: what is left over has the sign of what is divided, and is less than the divisor. */
  lemma TruncDivLeaves(a: int, b: int)
    requires b > 0
    ensures
      var left := a - b * TruncDiv(a, b);
      (a >= 0 ==> 0 <= left < b) && (a <= 0 ==> -b < left <= 0)
  {
  }

  function Min(a: int, b: int): int {
    if a <= b then a else b
  }

  lemma {:induction false} SubsetSize<T>(a: set<T>, b: set<T>)
    requires a <= b
    ensures |a| <= |b|
    ensures a != b ==> |a| < |b|
  {
    if x :| x in a {
      SubsetSize(a - {x}, b - {x});
    }
  }

  // ----- Sums over a set --------------------------------------------------------------

  ghost function SumOver(ids: set<nat>, f: nat -> int): int {
    if ids == {} then 0
    else
      var id :| id in ids;
      f(id) + SumOver(ids - {id}, f)
  }

  lemma {:induction false} SumOverPick(ids: set<nat>, f: nat -> int, x: nat)
    requires x in ids
    ensures SumOver(ids, f) == f(x) + SumOver(ids - {x}, f)
  {
    var id :| id in ids && SumOver(ids, f) == f(id) + SumOver(ids - {id}, f);
    if id != x {
      SumOverPick(ids - {id}, f, x);
      SumOverPick(ids - {x}, f, id);
      assert ids - {id} - {x} == ids - {x} - {id};
    }
  }

  lemma {:induction false} SumOverSame(ids: set<nat>, f: nat -> int, g: nat -> int)
    requires forall id | id in ids :: f(id) == g(id)
    ensures SumOver(ids, f) == SumOver(ids, g)
  {
    if ids != {} {
      var id :| id in ids && SumOver(ids, f) == f(id) + SumOver(ids - {id}, f);
      SumOverSame(ids - {id}, f, g);
      SumOverPick(ids, g, id);
    }
  }

  lemma {:induction false} SumOverNonNegative(ids: set<nat>, f: nat -> int)
    requires forall id | id in ids :: f(id) >= 0
    ensures SumOver(ids, f) >= 0
  {
    if ids != {} {
      var id :| id in ids && SumOver(ids, f) == f(id) + SumOver(ids - {id}, f);
      SumOverNonNegative(ids - {id}, f);
    }
  }

  lemma {:induction false} SumOverAdds(ids: set<nat>, f: nat -> int, g: nat -> int, h: nat -> int)
    requires forall id | id in ids :: h(id) == f(id) + g(id)
    ensures SumOver(ids, h) == SumOver(ids, f) + SumOver(ids, g)
  {
    if ids != {} {
      var id :| id in ids && SumOver(ids, h) == h(id) + SumOver(ids - {id}, h);
      SumOverAdds(ids - {id}, f, g, h);
      SumOverPick(ids, f, id);
      SumOverPick(ids, g, id);
    }
  }
}
