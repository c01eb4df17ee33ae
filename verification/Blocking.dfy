// The allow/deny decision on categories, in its three forms.

module Blocking {
  import opened Database
  import opened AuctionSpec

  /** Go: an unknown blocking type blocks nothing. */
  method GoCategoryBlocking(blockingType: nat, categoryIds: seq<nat>, requested: seq<nat>) returns (blocked: bool)
    ensures blocked == CategoryBlocked(blockingType, categoryIds, requested)
  {
    var includeIds := false;
    for i := 0 to |categoryIds|
      invariant includeIds == Intersects(categoryIds[..i], requested)
    {
      assert categoryIds[..i + 1] == categoryIds[..i] + [categoryIds[i]];
      includeIds := includeIds || categoryIds[i] in requested;
    }
    assert categoryIds[..|categoryIds|] == categoryIds;
    if blockingType == ALLOW {
      return !includeIds;
    } else if blockingType == DENY {
      return includeIds;
    }
    return false;
  }

  datatype Decision = Decided(blocked: bool) | Terminated

  /** C++: an unknown blocking type ends the process. */
  function CppCategoryBlocking(blockingType: nat, categoryIds: seq<nat>, requested: seq<nat>): (d: Decision)
    ensures d.Terminated? <==> blockingType != ALLOW && blockingType != DENY
    ensures d.Decided? ==> d.blocked == CategoryBlocked(blockingType, categoryIds, requested)
  {
    var includingIds := exists c | c in categoryIds :: c in requested;
    if blockingType == ALLOW then Decided(!includingIds)
    else if blockingType == DENY then Decided(includingIds)
    else Terminated
  }

  /** Python: whatever is not ALLOW is treated as DENY; the enum admits no third value. */
  method PythonCategoryBlocking(blockingType: nat, categoryIds: seq<nat>, requested: seq<nat>) returns (blocked: bool)
    requires blockingType == ALLOW || blockingType == DENY
    ensures blocked == CategoryBlocked(blockingType, categoryIds, requested)
  {
    var includingAds := false;
    for i := 0 to |categoryIds|
      invariant includingAds == Intersects(categoryIds[..i], requested)
    {
      assert categoryIds[..i + 1] == categoryIds[..i] + [categoryIds[i]];
      includingAds := includingAds || categoryIds[i] in requested;
    }
    assert categoryIds[..|categoryIds|] == categoryIds;
    if blockingType == ALLOW {
      return !includingAds;
    } else {
      return includingAds;
    }
  }

  /** The decision is about sets: a non-empty intersection for DENY, an empty one for ALLOW. */
  lemma BlockingIsIntersection(categoryIds: seq<nat>, requested: seq<nat>)
    ensures CategoryBlocked(DENY, categoryIds, requested) <==>
      (set c | c in categoryIds) * (set c | c in requested) != {}
    ensures CategoryBlocked(ALLOW, categoryIds, requested) <==>
      (set c | c in categoryIds) * (set c | c in requested) == {}
    ensures forall blockingType: nat :: blockingType > 1 ==> !CategoryBlocked(blockingType, categoryIds, requested)
  {
    var both := (set c | c in categoryIds) * (set c | c in requested);
    if Intersects(categoryIds, requested) {
      var c :| c in categoryIds && c in requested;
      assert c in both;
    } else {
      assert forall c | c in both :: c in categoryIds && c in requested;
    }
  }
}
