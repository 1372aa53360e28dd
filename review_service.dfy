/** The review service: creation (always pending), the field-restricted
    update, approval and rejection, deletion, and the public queries. */
module ReviewService {
  import opened Common
  import opened Tables
  import opened ReviewModel
  import opened ReviewRepository
  import opened Store

  /** What `createReview` stores: the posted review forced to pending.
      `save` keeps a stored id, merging over that review, and gives a null
      or unknown id the next identity. */
  function Created(rs: seq<Review>, next: nat, id: Option<nat>, review: Review): (r: Result<Review, Error>)
    ensures r.Ok? <==> ValidReview(review)
    ensures r.Err? ==> r.error == ConstraintViolation
    ensures r.Ok? ==> r.value == review.(id := SavedId(rs, ReviewId, next, id), approved := false)
  {
    var x := review.(id := SavedId(rs, ReviewId, next, id), approved := false);
    if !ValidReview(x) then Err(ConstraintViolation) else Ok(x)
  }

  /** Saving the created review, appended or merged, keeps the review table consistent. */
  lemma CreatedKeepsIntegrity(rs: seq<Review>, next: nat, id: Option<nat>, review: Review)
    requires ReviewsOk(rs, next)
    requires Created(rs, next, id, review).Ok?
    ensures var x := Created(rs, next, id, review).value;
            ReviewsOk(Upsert(rs, ReviewId, x), SavedNext(rs, ReviewId, next, x.id))
  {
    var x := Created(rs, next, id, review).value;
    UniqueByUpsert(rs, ReviewId, x);
    if HasKey(rs, ReviewId, x.id) {
      var y :| y in rs && y.id == x.id;
    }
  }

  /** `createReview`. The id argument is the id bound from the request body, null when absent. */
  method CreateReview(db: Database, id: Option<nat>, review: Review) returns (r: Result<Review, Error>)
    requires db.Valid()
    modifies db`reviews, db`nextReviewId
    ensures db.Valid()
    ensures r == Created(old(db.reviews), old(db.nextReviewId), id, review)
    ensures r.Ok? ==> db.reviews == Upsert(old(db.reviews), ReviewId, r.value)
                      && db.nextReviewId == SavedNext(old(db.reviews), ReviewId, old(db.nextReviewId), r.value.id)
    ensures r.Err? ==> db.reviews == old(db.reviews) && db.nextReviewId == old(db.nextReviewId)
  {
    r := Created(db.reviews, db.nextReviewId, id, review);
    if r.Ok? {
      CreatedKeepsIntegrity(db.reviews, db.nextReviewId, id, review);
      db.reviews, db.nextReviewId := Upsert(db.reviews, ReviewId, r.value), SavedNext(db.reviews, ReviewId, db.nextReviewId, r.value.id);
    }
  }

  /** A created review is pending whatever its flag said. Posted with a
      stored id it replaces that review, which so leaves the approved list;
      posted without one (such as a seeded review marked approved) it joins
      the pending list and leaves the approved list and the average as they were. */
  lemma CreatedStaysPending(rs: seq<Review>, next: nat, id: Option<nat>, review: Review)
    requires ReviewsOk(rs, next)
    requires Created(rs, next, id, review).Ok?
    ensures var x := Created(rs, next, id, review).value;
            var t := Upsert(rs, ReviewId, x);
            && x in FindByApprovedFalse(t)
            && (forall y :: y in FindByApprovedTrue(t) <==> y in FindByApprovedTrue(rs) && y.id != x.id)
            && (!(id.Some? && HasKey(rs, ReviewId, id.value)) ==>
                  && FindByApprovedTrue(t) == FindByApprovedTrue(rs)
                  && FindByApprovedFalse(t) == FindByApprovedFalse(rs) + [x]
                  && GetAverageRating(t) == GetAverageRating(rs))
  {
    var x := Created(rs, next, id, review).value;
    var t := Upsert(rs, ReviewId, x);
    match IndexOf(rs, ReviewId, x.id)
    case Some(k) =>
      forall y | y in t && y.approved ensures y in rs && y.id != x.id {
        var j :| 0 <= j < |t| && t[j] == y;
        assert j != k && rs[j] == y;
      }
    case None =>
      assert t == rs + [x];
      FilterAppend(rs, [x], IsApproved);
      FilterAppend(rs, [x], IsPending);
      assert Filter([x], IsApproved) == [];
      assert Filter([x], IsPending) == [x];
      AverageIgnoresPending(rs, x);
  }

  /** The table after review `id`'s flag is set to `approved` (`approveReview`, `rejectReview`). */
  function WithApproval(rs: seq<Review>, id: nat, approved: bool): (r: Result<seq<Review>, Error>)
    ensures r.Err? <==> forall x :: x in rs ==> x.id != id
    ensures r.Err? ==> r.error == ReviewNotFound
  {
    match IndexOf(rs, ReviewId, id)
    case None => Err(ReviewNotFound)
    case Some(k) => Ok(rs[k := rs[k].(approved := approved)])
  }

  /** Approval touches only the flag of the one review with that id. */
  lemma WithApprovalFrame(rs: seq<Review>, id: nat, approved: bool)
    requires UniqueBy(rs, ReviewId)
    ensures WithApproval(rs, id, approved).Ok? ==>
              var t := WithApproval(rs, id, approved).value;
              |t| == |rs| &&
              forall j :: 0 <= j < |t| ==> t[j] == if rs[j].id == id then rs[j].(approved := approved) else rs[j]
  {
  }

  /** Approving (or rejecting) twice is doing it once. */
  lemma WithApprovalIdempotent(rs: seq<Review>, id: nat, approved: bool)
    ensures WithApproval(rs, id, approved).Ok? ==>
              WithApproval(WithApproval(rs, id, approved).value, id, approved) == WithApproval(rs, id, approved)
  {
    var k := IndexOf(rs, ReviewId, id);
    if k.Some? {
      var t := rs[k.value := rs[k.value].(approved := approved)];
      IndexOfSameKeys(rs, t, ReviewId, id);
      assert t[k.value := t[k.value].(approved := approved)] == t;
    }
  }

  /** Rejecting an approved review undoes its approval. */
  lemma RejectUndoesApprove(rs: seq<Review>, id: nat)
    requires WithApproval(rs, id, true).Ok?
    requires !rs[IndexOf(rs, ReviewId, id).value].approved
    ensures WithApproval(WithApproval(rs, id, true).value, id, false) == Ok(rs)
  {
    var k := IndexOf(rs, ReviewId, id).value;
    var t := rs[k := rs[k].(approved := true)];
    IndexOfSameKeys(rs, t, ReviewId, id);
    assert t[k := t[k].(approved := false)] == rs;
  }

  /** Approving a pending review brings its rating into the average: the
      approved sum grows by its rating and the approved count by one. */
  lemma ApprovingAddsToAverage(rs: seq<Review>, id: nat)
    requires WithApproval(rs, id, true).Ok?
    requires !rs[IndexOf(rs, ReviewId, id).value].approved
    ensures var t := WithApproval(rs, id, true).value;
            var was := rs[IndexOf(rs, ReviewId, id).value];
            && Sum(FindByApprovedTrue(t), ReviewRating) == Sum(FindByApprovedTrue(rs), ReviewRating) + was.rating
            && |FindByApprovedTrue(t)| == |FindByApprovedTrue(rs)| + 1
  {
    var k := IndexOf(rs, ReviewId, id).value;
    var x := rs[k].(approved := true);
    SumFilterUpdate(rs, k, x, IsApproved, ReviewRating);
    SumFilterUpdate(rs, k, x, IsApproved, One);
    SumOneIsLength(Filter(rs, IsApproved));
    SumOneIsLength(Filter(rs[k := x], IsApproved));
  }

  lemma WithApprovalKeepsIntegrity(rs: seq<Review>, next: nat, id: nat, approved: bool)
    requires ReviewsOk(rs, next)
    requires WithApproval(rs, id, approved).Ok?
    ensures ReviewsOk(WithApproval(rs, id, approved).value, next)
  {
    var k := IndexOf(rs, ReviewId, id).value;
    UniqueByUpdate(rs, ReviewId, k, rs[k].(approved := approved));
    assert rs[k] in rs;
  }

  method SetApproval(db: Database, id: nat, approved: bool) returns (r: Result<Review, Error>)
    requires db.Valid()
    modifies db`reviews
    ensures db.Valid()
    ensures match WithApproval(old(db.reviews), id, approved)
            case Err(e) => r == Err(e) && db.reviews == old(db.reviews)
            case Ok(t) => db.reviews == t && r.Ok? && r.value in t && r.value.id == id && r.value.approved == approved
  {
    var t := WithApproval(db.reviews, id, approved);
    if t.Err? {
      return Err(t.error);
    }
    WithApprovalKeepsIntegrity(db.reviews, db.nextReviewId, id, approved);
    var k := IndexOf(db.reviews, ReviewId, id).value;
    db.reviews := t.value;
    r := Ok(t.value[k]);
  }

  /** `approveReview`. */
  method ApproveReview(db: Database, id: nat) returns (r: Result<Review, Error>)
    requires db.Valid()
    modifies db`reviews
    ensures db.Valid()
    ensures match WithApproval(old(db.reviews), id, true)
            case Err(e) => r == Err(e) && db.reviews == old(db.reviews)
            case Ok(t) => db.reviews == t && r.Ok? && r.value in t && r.value.id == id && r.value.approved
  {
    r := SetApproval(db, id, true);
  }

  /** `rejectReview`. */
  method RejectReview(db: Database, id: nat) returns (r: Result<Review, Error>)
    requires db.Valid()
    modifies db`reviews
    ensures db.Valid()
    ensures match WithApproval(old(db.reviews), id, false)
            case Err(e) => r == Err(e) && db.reviews == old(db.reviews)
            case Ok(t) => db.reviews == t && r.Ok? && r.value in t && r.value.id == id && !r.value.approved
  {
    r := SetApproval(db, id, false);
  }

  /** The table after `updateReview`: name, comment, rating and flag are
      copied; the id and the date stay. */
  function Updated(rs: seq<Review>, id: nat, details: Review): (r: Result<seq<Review>, Error>)
    ensures (forall x :: x in rs ==> x.id != id) ==> r == Err(ReviewNotFound)
    ensures !ValidReview(details) ==> r.Err?
  {
    match IndexOf(rs, ReviewId, id)
    case None => Err(ReviewNotFound)
    case Some(k) =>
      var x := rs[k].(hastaAd := details.hastaAd, yorum := details.yorum, rating := details.rating, approved := details.approved);
      if !ValidReview(x) then Err(ConstraintViolation) else Ok(rs[k := x])
  }

  /** An update changes exactly the four copied fields of the one review with that id. */
  lemma UpdatedFrame(rs: seq<Review>, id: nat, details: Review)
    requires UniqueBy(rs, ReviewId)
    ensures Updated(rs, id, details).Ok? ==>
              var t := Updated(rs, id, details).value;
              |t| == |rs| &&
              forall j :: 0 <= j < |t| ==>
                t[j] == if rs[j].id == id
                        then Review(id, details.hastaAd, details.yorum, rs[j].tarih, details.rating, details.approved)
                        else rs[j]
  {
  }

  lemma UpdatedKeepsIntegrity(rs: seq<Review>, next: nat, id: nat, details: Review)
    requires ReviewsOk(rs, next)
    requires Updated(rs, id, details).Ok?
    ensures ReviewsOk(Updated(rs, id, details).value, next)
  {
    var k := IndexOf(rs, ReviewId, id).value;
    UniqueByUpdate(rs, ReviewId, k, rs[k].(hastaAd := details.hastaAd, yorum := details.yorum, rating := details.rating, approved := details.approved));
    assert rs[k] in rs;
  }

  /** `updateReview`. */
  method UpdateReview(db: Database, id: nat, details: Review) returns (r: Result<Review, Error>)
    requires db.Valid()
    modifies db`reviews
    ensures db.Valid()
    ensures match Updated(old(db.reviews), id, details)
            case Err(e) => r == Err(e) && db.reviews == old(db.reviews)
            case Ok(t) => db.reviews == t && r.Ok? && r.value in t && r.value.id == id
  {
    var t := Updated(db.reviews, id, details);
    if t.Err? {
      return Err(t.error);
    }
    UpdatedKeepsIntegrity(db.reviews, db.nextReviewId, id, details);
    var k := IndexOf(db.reviews, ReviewId, id).value;
    db.reviews := t.value;
    r := Ok(t.value[k]);
  }

  /** The table after `deleteReview`. */
  function Deleted(rs: seq<Review>, id: nat): (r: Result<seq<Review>, Error>)
    ensures r.Err? <==> forall x :: x in rs ==> x.id != id
    ensures r.Err? ==> r.error == ReviewNotFound
    ensures r.Ok? ==> exists x :: x in rs && x.id == id && multiset(r.value) + multiset{x} == multiset(rs)
  {
    match IndexOf(rs, ReviewId, id)
    case None => Err(ReviewNotFound)
    case Some(k) =>
      assert rs[k] in rs;
      Ok(RemoveAt(rs, k))
  }

  /** `deleteReview`. */
  method DeleteReview(db: Database, id: nat) returns (r: Result<(), Error>)
    requires db.Valid()
    modifies db`reviews
    ensures db.Valid()
    ensures match Deleted(old(db.reviews), id)
            case Err(e) => r == Err(e) && db.reviews == old(db.reviews)
            case Ok(t) => r == Ok(()) && db.reviews == t
  {
    var t := Deleted(db.reviews, id);
    if t.Err? {
      return Err(t.error);
    }
    var k := IndexOf(db.reviews, ReviewId, id).value;
    UniqueByRemove(db.reviews, ReviewId, k);
    assert forall x :: x in t.value ==> x in db.reviews by {
      assert forall x :: x in multiset(t.value) ==> x in multiset(db.reviews);
    }
    db.reviews := t.value;
    r := Ok(());
  }

  /** `getPendingReviews`. */
  function GetPendingReviews(rs: seq<Review>): (r: seq<Review>)
    ensures forall x :: x in r <==> x in rs && !x.approved
  {
    FindByApprovedFalse(rs)
  }

  /** `getApprovedReviews`: the approved reviews, newest first. */
  function GetApprovedReviews(rs: seq<Review>): (r: seq<Review>)
    ensures forall x :: x in r <==> x in rs && x.approved
    ensures SortedDesc(r, ReviewDate)
  {
    var r := FindApprovedOrderByTarihDesc(rs);
    assert forall x :: x in r <==> x in multiset(FindByApprovedTrue(rs));
    r
  }

  /** `getAverageRating`: the mean rating of approved reviews, or 0 (as 0/1) without any. */
  function GetAverageRating(rs: seq<Review>): (r: Ratio)
    ensures r.count > 0
    ensures (forall x :: x in rs ==> !x.approved) ==> r == Ratio(0, 1)
    ensures (exists x :: x in rs && x.approved) ==>
              r == Ratio(Sum(FindByApprovedTrue(rs), ReviewRating), |FindByApprovedTrue(rs)|)
  {
    match ReviewRepository.GetAverageRating(rs)
    case None => Ratio(0, 1)
    case Some(v) => v
  }
}
