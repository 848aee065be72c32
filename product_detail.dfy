/**
 * The product page: the product's price, stars and stock as on the card, and
 * a review form whose accepted submissions are appended to the review list
 * with the next id, after which the form goes back to its defaults.
 */
module ProductDetail {
  import opened Wrappers
  import opened Forms
  import opened Catalogue
  import Card

  datatype Review = Review(id: int, user: string, rating: int, comment: string, date: string)

  const CurrentUser := "Current User"

  const InitialReviews := [
    Review(1, "John Doe", 5, "Amazing phone, super fast!", "2024-04-01"),
    Review(2, "Jane Smith", 4, "Great value, camera could be better.", "2024-03-28")
  ]

  /** The form's values; rating 0 means no star has been picked. */
  datatype ReviewForm = ReviewForm(rating: int, comment: string)

  const DefaultForm := ReviewForm(0, "")

  const RatingRequired := "Please select a rating"
  const CommentRules := FieldRules("Review is required", [MinLength(10, "Review must be at least 10 characters")])

  datatype ReviewErrors = ReviewErrors(rating: Option<string>, comment: Option<string>)

  function Errors(form: ReviewForm): (e: ReviewErrors)
    ensures e.rating.None? <==> form.rating != 0
    ensures e.rating.Some? ==> e.rating.value == RatingRequired
    ensures e.comment.None? <==> |form.comment| >= 10
    ensures form.comment == "" ==> e.comment == Some("Review is required")
    ensures 0 < |form.comment| < 10 ==> e.comment == Some("Review must be at least 10 characters")
  {
    ReviewErrors(if form.rating == 0 then Some(RatingRequired) else None, Validate(CommentRules, form.comment))
  }

  predicate Accepted(form: ReviewForm) {
    Errors(form).rating.None? && Errors(form).comment.None?
  }

  /** `[...reviews, newReview]`. */
  function AddReview(reviews: seq<Review>, form: ReviewForm, today: string): seq<Review> {
    reviews + [Review(|reviews| + 1, CurrentUser, form.rating, form.comment, today)]
  }

  /** The review list numbers its entries 1, 2, … in order. */
  predicate IdsAreOneToN(reviews: seq<Review>) {
    forall i | 0 <= i < |reviews| :: reviews[i].id == i + 1
  }

  /**
   * Adding a review keeps every earlier one and puts the new one last, by
   * "Current User" with the form's rating and comment; numbered lists stay numbered.
   */
  lemma AddReviewAppends(reviews: seq<Review>, form: ReviewForm, today: string)
    ensures var r := AddReview(reviews, form, today);
      && |r| == |reviews| + 1
      && r[..|reviews|] == reviews
      && r[|reviews|].user == CurrentUser && r[|reviews|].id == |reviews| + 1
      && r[|reviews|].rating == form.rating && r[|reviews|].comment == form.comment
      && (IdsAreOneToN(reviews) ==> IdsAreOneToN(r))
  {
  }

  /** The review section's state. */
  datatype Reviews = Reviews(list: seq<Review>, form: ReviewForm)

  const InitialSection := Reviews(InitialReviews, DefaultForm)

  /** Submit Review: a rejected form changes nothing; an accepted one is appended and the form reset. */
  function Submit(s: Reviews, today: string): (r: Reviews)
    ensures !Accepted(s.form) ==> r == s
    ensures Accepted(s.form) ==> r.list == AddReview(s.list, s.form, today) && r.form == DefaultForm
  {
    if Accepted(s.form) then Reviews(AddReview(s.list, s.form, today), DefaultForm) else s
  }

  /** Submitting keeps the list numbered and never drops a review; the reset form cannot be submitted again. */
  lemma SubmitKeepsNumbering(s: Reviews, today: string)
    requires IdsAreOneToN(s.list)
    ensures IdsAreOneToN(Submit(s, today).list)
    ensures s.list <= Submit(s, today).list
    ensures Accepted(s.form) ==> !Accepted(Submit(s, today).form)
  {
    AddReviewAppends(s.list, s.form, today);
  }

  lemma InitialReviewsNumbered()
    ensures IdsAreOneToN(InitialReviews)
    ensures !Accepted(DefaultForm)
  {
  }

  /** The product block uses the card's rules: badge and struck price when discounted, button disabled when out of stock. */
  function ProductView(p: Product): (v: Card.CardView)
    ensures v.badge <==> p.originalPrice > p.price
    ensures v.struckOriginal <==> p.originalPrice > p.price
    ensures v.addToCartDisabled <==> !p.inStock
    ensures v.stars == Card.Stars(Card.RoundTenths(p.rating))
  {
    Card.View(p)
  }
}
