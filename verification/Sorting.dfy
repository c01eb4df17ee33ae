// The final sort by descending price, as each language asks its library for it.

module Sorting {
  import opened Database

  /** What the three comparison arguments say: `sort.Slice`'s less function, `std::greater`
      on the price, and Python's pair key compared in reverse. */
  datatype Comparator = PriceThenAdsId | PriceOnly | PairKeyReversed

  predicate TupleLess(x: (int, int), y: (int, int)) {
    x.0 < y.0 || (x.0 == y.0 && x.1 < y.1)
  }

  predicate Less(c: Comparator, a: Ads, b: Ads) {
    match c
    case PriceThenAdsId => if a.price != b.price then a.price > b.price else a.adsId < b.adsId
    case PriceOnly => a.price > b.price
    case PairKeyReversed => TupleLess((b.price, 0 - b.adsId), (a.price, 0 - a.adsId))
  }

  predicate SortedBy(c: Comparator, s: seq<Ads>) {
    forall i, j :: 0 <= i < j < |s| ==> !Less(c, s[j], s[i])
  }

  predicate Permutation(s: seq<Ads>, t: seq<Ads>) {
    multiset(s) == multiset(t)
  }

  /** The elements that compare equal to `x`, in order. */
  function Ties(c: Comparator, x: Ads, s: seq<Ads>): seq<Ads> {
    if s == [] then []
    else
      var last := s[|s| - 1];
      Ties(c, x, s[..|s| - 1]) + if !Less(c, x, last) && !Less(c, last, x) then [last] else []
  }

  /** Elements that compare equal keep their order. */
  ghost predicate Stable(c: Comparator, s: seq<Ads>, t: seq<Ads>) {
    forall x :: Ties(c, x, s) == Ties(c, x, t)
  }

  lemma {:induction false} TiesConcat(c: Comparator, x: Ads, s: seq<Ads>, t: seq<Ads>)
    ensures Ties(c, x, s + t) == Ties(c, x, s) + Ties(c, x, t)
  {
    if t == [] {
      assert s + t == s;
    } else {
      var t' := t[..|t| - 1];
      TiesConcat(c, x, s, t');
      assert (s + t)[..|s + t| - 1] == s + t';
    }
  }

  /** Two elements of which one precedes the other are not both tied with a third. */
  lemma TiedApart(c: Comparator, x: Ads, y: Ads, z: Ads)
    requires Less(c, z, y)
    ensures Ties(c, x, [y]) + Ties(c, x, [z]) == Ties(c, x, [z]) + Ties(c, x, [y])
  {
    assert Ties(c, x, [y]) == [] || Ties(c, x, [z]) == [];
  }

  lemma Regroup<T>(a: seq<T>, b: seq<T>, c: seq<T>, d: seq<T>)
    ensures ((a + b) + c) + d == a + (b + c) + d
  {
  }

  lemma TiesSplit(c: Comparator, x: Ads, head: seq<Ads>, y: Ads, z: Ads, tail: seq<Ads>)
    ensures Ties(c, x, head + [y] + [z] + tail) ==
      Ties(c, x, head) + (Ties(c, x, [y]) + Ties(c, x, [z])) + Ties(c, x, tail)
  {
    calc {
      Ties(c, x, head + [y] + [z] + tail);
      { TiesConcat(c, x, head + [y] + [z], tail); }
      Ties(c, x, head + [y] + [z]) + Ties(c, x, tail);
      { TiesConcat(c, x, head + [y], [z]); }
      (Ties(c, x, head + [y]) + Ties(c, x, [z])) + Ties(c, x, tail);
      { TiesConcat(c, x, head, [y]); }
      ((Ties(c, x, head) + Ties(c, x, [y])) + Ties(c, x, [z])) + Ties(c, x, tail);
      { Regroup(Ties(c, x, head), Ties(c, x, [y]), Ties(c, x, [z]), Ties(c, x, tail)); }
      Ties(c, x, head) + (Ties(c, x, [y]) + Ties(c, x, [z])) + Ties(c, x, tail);
    }
  }

  /** Exchanging two neighbours that are strictly out of order changes no tie. */
  lemma SwapKeepsTies(c: Comparator, s: seq<Ads>, i: nat, t: seq<Ads>)
    requires i + 1 < |s| && Less(c, s[i + 1], s[i]) && t == s[i := s[i + 1]][i + 1 := s[i]]
    ensures Stable(c, s, t)
  {
    var head, tail := s[..i], s[i + 2..];
    assert s == head + [s[i]] + [s[i + 1]] + tail;
    assert t == head + [s[i + 1]] + [s[i]] + tail;
    forall x ensures Ties(c, x, s) == Ties(c, x, t) {
      TiesSplit(c, x, head, s[i], s[i + 1], tail);
      TiesSplit(c, x, head, s[i + 1], s[i], tail);
      TiedApart(c, x, s[i], s[i + 1]);
    }
  }

  method LeastFrom(a: array<Ads>, n: nat, c: Comparator) returns (least: nat)
    requires n < a.Length
    ensures n <= least < a.Length
    ensures forall j :: n <= j < a.Length ==> !Less(c, a[j], a[least])
  {
    least := n;
    for k := n + 1 to a.Length
      invariant n <= least < a.Length
      invariant forall j :: n <= j < k ==> !Less(c, a[j], a[least])
    {
      if Less(c, a[k], a[least]) {
        least := k;
      }
    }
  }

  /** A sort with `sort.Slice`'s contract: sorted and a permutation, and no more. */
  method UnstableSort(a: array<Ads>, c: Comparator)
    modifies a
    ensures SortedBy(c, a[..]) && Permutation(a[..], old(a[..]))
  {
    for n := 0 to a.Length
      invariant forall i, j :: 0 <= i < n && i < j < a.Length ==> !Less(c, a[j], a[i])
      invariant Permutation(a[..], old(a[..]))
    {
      var least := LeastFrom(a, n, c);
      a[n], a[least] := a[least], a[n];
    }
  }

  /** Nothing tells the last elements of two sorted permutations apart. */
  lemma LastIsLast(c: Comparator, t: seq<Ads>, u: seq<Ads>)
    requires t != [] && |t| == |u| && Permutation(t, u) && SortedBy(c, t) && SortedBy(c, u)
    ensures var a, b := t[|t| - 1], u[|u| - 1]; !Less(c, a, b) && !Less(c, b, a)
  {
    var a, b := t[|t| - 1], u[|u| - 1];
    assert a in multiset(u) && b in multiset(t);
    var i :| 0 <= i < |t| && t[i] == b;
    var j :| 0 <= j < |u| && u[j] == a;
  }

  lemma StableTransitive(c: Comparator, s: seq<Ads>, t: seq<Ads>, u: seq<Ads>)
    requires Stable(c, s, t) && Stable(c, t, u)
    ensures Stable(c, s, u)
  {
  }

  /** Sorted but for the element at `k`, which precedes everything after it. */
  predicate SortedExcept(c: Comparator, s: seq<Ads>, k: nat) {
    && (forall i, j :: 0 <= i < j < |s| && j != k && i != k ==> !Less(c, s[j], s[i]))
    && (forall j :: k < j < |s| ==> k < |s| && Less(c, s[k], s[j]))
  }

  lemma SinkStart(c: Comparator, s: seq<Ads>)
    requires s != [] && SortedBy(c, s[..|s| - 1])
    ensures SortedExcept(c, s, |s| - 1)
  {
    assert forall i :: 0 <= i < |s| - 1 ==> s[i] == s[..|s| - 1][i];
  }

  lemma SinkStep(c: Comparator, s: seq<Ads>, k: nat)
    requires 0 < k < |s| && SortedExcept(c, s, k) && Less(c, s[k], s[k - 1])
    ensures SortedExcept(c, s[k - 1 := s[k]][k := s[k - 1]], k - 1)
  {
  }

  lemma SinkDone(c: Comparator, s: seq<Ads>, k: nat)
    requires k < |s| && SortedExcept(c, s, k) && (k == 0 || !Less(c, s[k], s[k - 1]))
    ensures SortedBy(c, s)
  {
    forall i | 0 <= i < k ensures !Less(c, s[k], s[i]) {
      assert i == k - 1 || !Less(c, s[k - 1], s[i]);
    }
  }

  /** One exchange of the sinking element with the one before it. */
  method SwapDown(a: array<Ads>, k: nat, n: nat, c: Comparator)
    requires 0 < k <= n < a.Length && SortedExcept(c, a[..n + 1], k) && Less(c, a[k], a[k - 1])
    modifies a
    ensures SortedExcept(c, a[..n + 1], k - 1)
    ensures Permutation(a[..], old(a[..])) && Stable(c, old(a[..]), a[..])
  {
    SinkStep(c, a[..n + 1], k);
    a[k - 1], a[k] := a[k], a[k - 1];
    SwapKeepsTies(c, old(a[..]), k - 1, a[..]);
    assert a[..n + 1] == old(a[..n + 1])[k - 1 := old(a[k])][k := old(a[k - 1])];
  }

  /** Lets the element at `n` sink into the sorted elements before it. */
  method Sink(a: array<Ads>, n: nat, c: Comparator)
    requires n < a.Length && SortedBy(c, a[..n])
    modifies a
    ensures SortedBy(c, a[..n + 1])
    ensures Permutation(a[..], old(a[..])) && Stable(c, old(a[..]), a[..])
  {
    ghost var start := a[..];
    var k := n;
    assert a[..n + 1][..n] == a[..n];
    SinkStart(c, a[..n + 1]);
    while k > 0 && Less(c, a[k], a[k - 1])
      invariant 0 <= k <= n
      invariant SortedExcept(c, a[..n + 1], k)
      invariant Permutation(a[..], start) && Stable(c, start, a[..])
    {
      ghost var s := a[..];
      SwapDown(a, k, n, c);
      StableTransitive(c, start, s, a[..]);
      k := k - 1;
    }
    SinkDone(c, a[..n + 1], k);
  }

  lemma SameFront<T>(s: seq<T>, t: seq<T>, tail: seq<T>)
    requires s + tail == t + tail
    ensures s == t
  {
    assert |s + tail| == |t + tail|;
    assert s == (s + tail)[..|s|] && t == (t + tail)[..|t|];
  }

  lemma FrontSorted(c: Comparator, s: seq<Ads>)
    requires s != [] && SortedBy(c, s)
    ensures SortedBy(c, s[..|s| - 1])
  {
  }

  lemma FrontsPermuted(t: seq<Ads>, u: seq<Ads>)
    requires t != [] && |t| == |u| && t[|t| - 1] == u[|u| - 1] && Permutation(t, u)
    ensures Permutation(t[..|t| - 1], u[..|u| - 1])
  {
    assert t == t[..|t| - 1] + [t[|t| - 1]] && u == u[..|u| - 1] + [u[|u| - 1]];
    assert multiset(t[..|t| - 1]) == multiset(t) - multiset{t[|t| - 1]};
    assert multiset(u[..|u| - 1]) == multiset(u) - multiset{u[|u| - 1]};
  }

  lemma FrontsStable(c: Comparator, t: seq<Ads>, u: seq<Ads>)
    requires t != [] && |t| == |u| && t[|t| - 1] == u[|u| - 1] && Stable(c, t, u)
    ensures Stable(c, t[..|t| - 1], u[..|u| - 1])
  {
    var t', u', last := t[..|t| - 1], u[..|u| - 1], t[|t| - 1];
    forall x ensures Ties(c, x, t') == Ties(c, x, u') {
      assert Ties(c, x, t) == Ties(c, x, u);
      SameFront(Ties(c, x, t'), Ties(c, x, u'), if !Less(c, x, last) && !Less(c, last, x) then [last] else []);
    }
  }

  lemma SameStableLast(c: Comparator, t: seq<Ads>, u: seq<Ads>)
    requires t != [] && |t| == |u| && Permutation(t, u)
    requires SortedBy(c, t) && SortedBy(c, u) && Stable(c, t, u)
    ensures t[|t| - 1] == u[|u| - 1]
  {
    LastIsLast(c, t, u);
    var a := t[|t| - 1];
    assert Ties(c, a, t) == Ties(c, a, u);
    assert Ties(c, a, t)[|Ties(c, a, t)| - 1] == a;
    assert Ties(c, a, u)[|Ties(c, a, u)| - 1] == u[|u| - 1];
  }

  /** Its result is unique: what is sorted, has the same elements and keeps ties is one list. */
  lemma {:induction false} StableSortUnique(c: Comparator, t: seq<Ads>, u: seq<Ads>)
    requires Permutation(t, u) && SortedBy(c, t) && SortedBy(c, u) && Stable(c, t, u)
    ensures t == u
  {
    assert |u| == |multiset(u)| == |multiset(t)| == |t|;
    if t != [] {
      SameStableLast(c, t, u);
      FrontSorted(c, t);
      FrontSorted(c, u);
      FrontsPermuted(t, u);
      FrontsStable(c, t, u);
      StableSortUnique(c, t[..|t| - 1], u[..|u| - 1]);
      assert t == t[..|t| - 1] + [t[|t| - 1]] && u == u[..|u| - 1] + [u[|u| - 1]];
    }
  }

  lemma SameLast(t: seq<Ads>, u: seq<Ads>)
    requires t != [] && |t| == |u| && Permutation(t, u)
    requires SortedBy(PriceThenAdsId, t) && SortedBy(PriceThenAdsId, u)
    requires forall x, y :: x in t && y in t && x.adsId == y.adsId ==> x == y
    ensures t[|t| - 1] == u[|u| - 1]
  {
    LastIsLast(PriceThenAdsId, t, u);
    assert u[|u| - 1] in multiset(t);
  }

  /** Where every element differs from every other, the unstable sort's is unique too. */
  lemma {:induction false} SortUnique(t: seq<Ads>, u: seq<Ads>)
    requires Permutation(t, u) && SortedBy(PriceThenAdsId, t) && SortedBy(PriceThenAdsId, u)
    requires forall x, y :: x in t && y in t && x.adsId == y.adsId ==> x == y
    ensures t == u
  {
    assert |u| == |multiset(u)| == |multiset(t)| == |t|;
    if t != [] {
      SameLast(t, u);
      FrontSorted(PriceThenAdsId, t);
      FrontSorted(PriceThenAdsId, u);
      FrontsPermuted(t, u);
      assert forall x :: x in t[..|t| - 1] ==> x in t;
      SortUnique(t[..|t| - 1], u[..|u| - 1]);
      assert t == t[..|t| - 1] + [t[|t| - 1]] && u == u[..|u| - 1] + [u[|u| - 1]];
    }
  }

  /** A sort with `std::stable_sort`'s and `list.sort`'s contract. */
  method StableSort(a: array<Ads>, c: Comparator)
    modifies a
    ensures SortedBy(c, a[..]) && Permutation(a[..], old(a[..])) && Stable(c, old(a[..]), a[..])
  {
    ghost var start := a[..];
    for n := 0 to a.Length
      invariant SortedBy(c, a[..n])
      invariant Permutation(a[..], start) && Stable(c, start, a[..])
    {
      ghost var s := a[..];
      Sink(a, n, c);
      StableTransitive(c, start, s, a[..]);
    }
    assert a[..a.Length] == a[..];
  }

  /** Under a comparator that tells all elements apart, any sorted permutation starts with
      the element that precedes every other. */
  lemma SortedHead(c: Comparator, s: seq<Ads>, t: seq<Ads>)
    requires Permutation(s, t) && SortedBy(c, t) && s != []
    ensures t != [] && t[0] in s
    ensures forall x :: x in s ==> !Less(c, x, t[0])
  {
    assert t != [] by {
      assert s[0] in multiset(s);
    }
    assert t[0] in multiset(t);
    forall x | x in s ensures !Less(c, x, t[0]) {
      assert x in multiset(t);
      var i :| 0 <= i < |t| && t[i] == x;
    }
  }

  lemma {:induction false} NoTies(c: Comparator, x: Ads, s: seq<Ads>)
    requires forall j :: 0 <= j < |s| ==> Less(c, x, s[j])
    ensures Ties(c, x, s) == []
  {
    if s != [] {
      NoTies(c, x, s[..|s| - 1]);
    }
  }

  lemma {:induction false} TiesHead(c: Comparator, x: Ads, s: seq<Ads>, k: nat)
    requires k < |s| && !Less(c, x, s[k]) && !Less(c, s[k], x)
    requires forall j :: 0 <= j < k ==> Less(c, x, s[j])
    ensures Ties(c, x, s) != [] && Ties(c, x, s)[0] == s[k]
  {
    if |s| == k + 1 {
      NoTies(c, x, s[..k]);
    } else {
      TiesHead(c, x, s[..|s| - 1], k);
    }
  }

  /** A stable sort puts first, among the elements none precedes, the one that came first. */
  lemma StableHead(c: Comparator, s: seq<Ads>, t: seq<Ads>, k: nat)
    requires Permutation(s, t) && SortedBy(c, t) && Stable(c, s, t) && k < |s|
    requires forall x :: x in s ==> !Less(c, x, s[k])
    requires forall j :: 0 <= j < k ==> Less(c, s[k], s[j])
    ensures t != [] && t[0] == s[k]
  {
    SortedHead(c, s, t);
    assert !Less(c, s[k], t[0]) && !Less(c, t[0], s[k]);
    TiesHead(c, s[k], s, k);
    TiesHead(c, s[k], t, 0);
  }

  /** Python's pair key in reverse order is Go's comparator. */
  lemma PairKeyIsComparator(a: Ads, b: Ads)
    ensures Less(PairKeyReversed, a, b) == Less(PriceThenAdsId, a, b)
  {
  }
}
