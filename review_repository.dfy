/** The review repository's queries: the approved/pending split, the public
    list newest first, and the average rating of approved reviews. */
module ReviewRepository {
  import opened Common
  import opened Tables
  import opened ReviewModel

  function IsApproved(r: Review): bool { r.approved }
  function IsPending(r: Review): bool { !r.approved }

  /** `findByApprovedTrue`. */
  function FindByApprovedTrue(rs: seq<Review>): (r: seq<Review>)
    ensures forall x :: x in r <==> x in rs && x.approved
  {
    Filter(rs, IsApproved)
  }

  /** `findByApprovedFalse`. */
  function FindByApprovedFalse(rs: seq<Review>): (r: seq<Review>)
    ensures forall x :: x in r <==> x in rs && !x.approved
  {
    Filter(rs, IsPending)
  }

  /** Approved and pending reviews are disjoint and together are every review. */
  lemma ApprovedPendingPartition(rs: seq<Review>)
    ensures multiset(FindByApprovedTrue(rs)) + multiset(FindByApprovedFalse(rs)) == multiset(rs)
    ensures |FindByApprovedTrue(rs)| + |FindByApprovedFalse(rs)| == |rs|
    ensures forall x :: !(x in FindByApprovedTrue(rs) && x in FindByApprovedFalse(rs))
  {
    FilterSplit(rs, IsApproved, IsPending);
  }

  /** `findApprovedOrderByTarihDesc`: the approved reviews, newest first. */
  function FindApprovedOrderByTarihDesc(rs: seq<Review>): (r: seq<Review>)
    ensures multiset(r) == multiset(FindByApprovedTrue(rs))
    ensures SortedDesc(r, ReviewDate)
  {
    SortDesc(FindByApprovedTrue(rs), ReviewDate)
  }

  /** An average kept exact as a sum over a positive count. */
  datatype Ratio = Ratio(sum: int, count: nat)

  /** `SELECT AVG(rating) ... WHERE approved = true`; NULL without approved reviews. */
  function GetAverageRating(rs: seq<Review>): (r: Option<Ratio>)
    ensures r.None? <==> forall x :: x in rs ==> !x.approved
    ensures r.Some? ==> r.value.count == |FindByApprovedTrue(rs)| > 0
    ensures r.Some? ==> r.value.sum == Sum(FindByApprovedTrue(rs), ReviewRating)
  {
    var approved := FindByApprovedTrue(rs);
    if approved == [] then None
    else
      assert approved[0] in rs;
      Some(Ratio(Sum(approved, ReviewRating), |approved|))
  }

  /** Only approved ratings enter the average: adding an unapproved review
      leaves the average as it is. */
  lemma AverageIgnoresPending(rs: seq<Review>, x: Review)
    requires !x.approved
    ensures GetAverageRating(rs + [x]) == GetAverageRating(rs)
  {
    FilterAppend(rs, [x], IsApproved);
    assert Filter([x], IsApproved) == [];
    assert FindByApprovedTrue(rs + [x]) == FindByApprovedTrue(rs);
  }
}
