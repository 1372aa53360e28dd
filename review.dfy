/** The `Review` entity: a patient's comment with a rating, shown publicly
    only once an administrator approves it. */
module ReviewModel {
  import opened Common

  datatype Review = Review(
    id: nat,
    hastaAd: string,
    yorum: string,
    tarih: DateTime,
    rating: int,
    approved: bool)

  /** `@NotBlank hastaAd`, `@NotBlank @Size(min = 10, max = 500) yorum`, where
      `@Size` counts the UTF-16 code units of `String.length()`.
      The rating carries no constraint: its 1-5 range is only a comment. */
  predicate ValidReview(r: Review)
  {
    && NotBlank(r.hastaAd)
    && NotBlank(r.yorum)
    && 10 <= Utf16Length(r.yorum) <= 500
  }

  /** `new Review()` at time `now`: the initialisers give rating 5 and not approved. */
  function DefaultReview(now: DateTime): Review
  {
    Review(0, "", "", now, 5, false)
  }

  /** `new Review(hastaAd, yorum, rating)` at time `now`. */
  function NewReview(hastaAd: string, yorum: string, rating: int, now: DateTime): Review
  {
    Review(0, hastaAd, yorum, now, rating, false)
  }

  /** Both constructors give an unapproved review dated at its creation;
      the no-argument one rates it 5 and, its text fields being empty, is
      not valid until they are set. */
  lemma NewReviewDefaults(hastaAd: string, yorum: string, rating: int, now: DateTime)
    ensures !DefaultReview(now).approved && DefaultReview(now).rating == 5 && DefaultReview(now).tarih == now
    ensures !ValidReview(DefaultReview(now))
    ensures !NewReview(hastaAd, yorum, rating, now).approved && NewReview(hastaAd, yorum, rating, now).tarih == now
    ensures ValidReview(NewReview(hastaAd, yorum, rating, now)) <==> NotBlank(hastaAd) && NotBlank(yorum) && 10 <= Utf16Length(yorum) <= 500
  {
  }

  /** A comment of nine characters, two of them beyond U+FFFF, has eleven
      code units, so `@Size(min = 10)` accepts it. */
  lemma SizeCountsCodeUnits(now: DateTime)
    ensures |"Çok iyi😀😀"| == 9
    ensures ValidReview(NewReview("Ayşe", "Çok iyi😀😀", 5, now))
  {
    var y := "Çok iyi😀😀";
    SampleCodeUnits();
    assert !IsWhitespace(y[0]);
    assert !IsWhitespace("Ayşe"[0]);
  }

  /** The two emoji of the sample take two code units each. */
  lemma SampleCodeUnits()
    ensures Utf16Length("Çok iyi😀😀") == 11
  {
    Utf16LengthAppend("Çok iyi", "😀😀");
    Utf16LengthBasic("Çok iyi");
    assert Utf16Length("😀😀") == 4 by {
      assert "😀😀"[1..] == "😀";
      assert "😀"[1..] == "";
    }
    assert "Çok iyi" + "😀😀" == "Çok iyi😀😀";
  }

  /** A comment of more than 250 characters beyond U+FFFF (emoji, say) is
      over 500 code units, so `@Size(max = 500)` refuses it. */
  lemma SupplementaryCommentTooLong(r: Review)
    requires forall i :: 0 <= i < |r.yorum| ==> IsSupplementary(r.yorum[i])
    requires |r.yorum| > 250
    ensures !ValidReview(r)
  {
    Utf16LengthSupplementary(r.yorum);
  }

  function ReviewId(r: Review): nat { r.id }
  function ReviewDate(r: Review): int { r.tarih }
  function ReviewRating(r: Review): int { r.rating }
}
