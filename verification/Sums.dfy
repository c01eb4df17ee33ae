// Sums of a number over the elements of a list, as several of the programs keep them.

module Sums {
  function Sum<T>(value: T -> int, s: seq<T>): int {
    if s == [] then 0 else Sum(value, s[..|s| - 1]) + value(s[|s| - 1])
  }

  /** Replacing one element changes the sum by the difference. */
  lemma {:induction false} SumReplaced<T>(value: T -> int, s: seq<T>, i: nat, x: T)
    requires i < |s|
    ensures Sum(value, s[i := x]) + value(s[i]) == Sum(value, s) + value(x)
  {
    var n := |s| - 1;
    var changed := s[i := x];
    if i == n {
      assert changed[..n] == s[..n];
    } else {
      SumReplaced(value, s[..n], i, x);
      assert changed[..n] == s[..n][i := x] && changed[n] == s[n];
    }
  }

  /** A bound on every element bounds the sum, and is met exactly when every element meets it. */
  lemma {:induction false} SumAtMost<T>(value: T -> int, s: seq<T>, most: int)
    requires forall i :: 0 <= i < |s| ==> value(s[i]) <= most
    ensures Sum(value, s) <= |s| * most
    ensures Sum(value, s) == |s| * most <==> forall i :: 0 <= i < |s| ==> value(s[i]) == most
  {
    if s != [] {
      var n := |s| - 1;
      SumAtMost(value, s[..n], most);
      assert |s| * most == n * most + most;
      assert forall i :: 0 <= i < n ==> s[i] == s[..n][i];
    }
  }

  /** With no negative element, the sum is at least any one of them. */
  lemma {:induction false} SumAtLeast<T>(value: T -> int, s: seq<T>)
    requires forall i :: 0 <= i < |s| ==> value(s[i]) >= 0
    ensures Sum(value, s) >= 0
    ensures forall i :: 0 <= i < |s| ==> Sum(value, s) >= value(s[i])
  {
    if s != [] {
      var n := |s| - 1;
      SumAtLeast(value, s[..n]);
      assert forall i :: 0 <= i < n ==> s[i] == s[..n][i];
    }
  }
}
