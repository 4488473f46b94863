/** Small sequence vocabulary shared by the recommendation model. */
module Util {

  datatype Option<+T> = None | Some(value: T)

  datatype Result<+T, +E> = Success(value: T) | Failure(error: E)

  /** `a` is obtained from `b` by deleting elements, keeping the relative
      order of the rest (what a boolean-mask filter or a
      keep-first de-duplication of a table does to its rows). */
  predicate Subsequence<T(==)>(a: seq<T>, b: seq<T>)
    decreases |b|
  {
    if b == [] then a == []
    else (a != [] && a[0] == b[0] && Subsequence(a[1..], b[1..])) || Subsequence(a, b[1..])
  }

  lemma {:induction false} SubsequenceMembers<T>(a: seq<T>, b: seq<T>)
    requires Subsequence(a, b)
    ensures |a| <= |b|
    ensures forall x :: x in a ==> x in b
    decreases |b|
  {
    if b != [] {
      if a != [] && a[0] == b[0] && Subsequence(a[1..], b[1..]) {
        SubsequenceMembers(a[1..], b[1..]);
        assert a == [a[0]] + a[1..];
      } else {
        SubsequenceMembers(a, b[1..]);
      }
    }
  }

  /** Any relation that holds between every earlier and later element of `b`
      still holds in each of its subsequences: deleting rows never
      reorders the survivors. */
  lemma {:induction false} SubsequenceKeepsOrder<T>(a: seq<T>, b: seq<T>, before: (T, T) -> bool)
    requires Subsequence(a, b)
    requires forall i, j :: 0 <= i < j < |b| ==> before(b[i], b[j])
    ensures forall i, j :: 0 <= i < j < |a| ==> before(a[i], a[j])
    decreases |b|
  {
    if b != [] {
      if a != [] && a[0] == b[0] && Subsequence(a[1..], b[1..]) {
        SubsequenceKeepsOrder(a[1..], b[1..], before);
        SubsequenceMembers(a[1..], b[1..]);
        forall i, j | 0 <= i < j < |a|
          ensures before(a[i], a[j])
        {
          if i == 0 {
            assert a[j] in b[1..];
            var k :| 0 <= k < |b[1..]| && b[1..][k] == a[j];
            assert before(b[0], b[k + 1]);
          } else {
            assert before(a[1..][i - 1], a[1..][j - 1]);
          }
        }
      } else {
        SubsequenceKeepsOrder(a, b[1..], before);
      }
    }
  }

  predicate StrictlyIncreasing(x: seq<int>)
  {
    forall i, j :: 0 <= i < j < |x| ==> x[i] < x[j]
  }

  lemma HeadIsMember<T>(y: seq<T>)
    ensures y == [] || y[0] in y
  {
  }

  /** A finite set has only one strictly increasing enumeration. */
  lemma {:induction false} IncreasingEnumerationUnique(x: seq<int>, y: seq<int>)
    requires StrictlyIncreasing(x) && StrictlyIncreasing(y)
    requires forall v :: v in x <==> v in y
    ensures x == y
    decreases |x|
  {
    if x == [] {
      HeadIsMember(y);
    } else {
      assert x[0] in x;
      var k :| 0 <= k < |y| && y[k] == x[0];
      assert y[0] in y;
      var j :| 0 <= j < |x| && x[j] == y[0];
      assert y[0] <= y[k] && x[0] <= x[j];
      forall v
        ensures v in x[1..] <==> v in y[1..]
      {
        assert v in x[1..] <==> v in x && v != x[0];
        assert v in y[1..] <==> v in y && v != y[0];
      }
      IncreasingEnumerationUnique(x[1..], y[1..]);
      assert x == [x[0]] + x[1..] && y == [y[0]] + y[1..];
    }
  }
}
