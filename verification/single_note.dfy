/** The note page's rating widgets (`components/SingleNote.jsx`): the average of the
    submitted ratings, the five-star rendering and the lookup of the visitor's own rating.
    The page defines `calculateAverageRating` and `renderStars` but never calls them; they
    are modelled for what they would compute, not for anything the page displays. */
module SingleNote {
  import opened Wrappers
  import opened Entities
  import opened Text

  /** One submitted rating; "" stands for a missing comment. */
  datatype Rating = Rating(userId: string, value: int, comment: string)

  function Sum(ratings: seq<Rating>): int
    decreases |ratings|
  {
    if ratings == [] then 0 else ratings[0].value + Sum(ratings[1..])
  }

  /** `calculateAverageRating(ratings)` before `toFixed(1)` formats it. */
  function AverageRating(ratings: Option<seq<Rating>>): (avg: real)
    ensures ratings.None? || ratings.value == [] ==> avg == 0.0
    ensures ratings.Some? && ratings.value != [] ==> avg * (|ratings.value| as real) == Sum(ratings.value) as real
  {
    if ratings.None? || ratings.value == [] then 0.0
    else Sum(ratings.value) as real / (|ratings.value| as real)
  }

  /** A sum of values that each lie between `lo` and `hi` lies between `n * lo` and `n * hi`. */
  lemma {:induction false} SumBounds(ratings: seq<Rating>, lo: int, hi: int)
    requires forall i :: 0 <= i < |ratings| ==> lo <= ratings[i].value <= hi
    ensures |ratings| * lo <= Sum(ratings) <= |ratings| * hi
    decreases |ratings|
  {
    if ratings != [] {
      SumBounds(ratings[1..], lo, hi);
    }
  }

  /** The average of ratings between `lo` and `hi` is itself between them; in particular
      ratings of one to five stars average one to five stars. */
  lemma AverageWithinRange(ratings: seq<Rating>, lo: int, hi: int)
    requires ratings != []
    requires forall i :: 0 <= i < |ratings| ==> lo <= ratings[i].value <= hi
    ensures lo as real <= AverageRating(Some(ratings)) <= hi as real
  {
    SumBounds(ratings, lo, hi);
    var n := |ratings|;
    var s := Sum(ratings);
    assert (n * lo) as real <= s as real <= (n * hi) as real;
    QuotientBounds(s as real, n as real, lo as real, hi as real);
  }

  lemma QuotientBounds(s: real, n: real, lo: real, hi: real)
    requires n >= 1.0 && n * lo <= s <= n * hi
    ensures lo <= s / n <= hi
  {
    assert s == n * (s / n);
  }

  // ---------------------------------------------------------------------------
  // Stars

  datatype Star = Full | Half | Empty

  /** The icon at 1-based position `i` for `rating`. */
  function StarAt(rating: real, i: int): Star {
    var full := rating.Floor;
    if i <= full then Full
    else if i == full + 1 && rating - full as real >= 0.5 then Half
    else Empty
  }

  /** `renderStars(rating)`: five icons, full up to the whole part of the rating, then one
      half icon when the fraction is at least one half, then empty ones. */
  function RenderStars(rating: real): (stars: seq<Star>)
    ensures |stars| == 5
    ensures forall i :: 0 <= i < 5 ==> (stars[i] == Full <==> i + 1 <= rating.Floor)
    ensures forall i :: 0 <= i < 5 ==> (stars[i] == Half <==> i == rating.Floor && rating - rating.Floor as real >= 0.5)
    ensures forall i, j :: 0 <= i < j < 5 && stars[j] == Full ==> stars[i] == Full
  {
    seq(5, i requires 0 <= i < 5 => StarAt(rating, i + 1))
  }

  /** At most one half icon is drawn, and never before a full one. */
  lemma AtMostOneHalfStar(rating: real)
    ensures forall i, j :: 0 <= i < 5 && 0 <= j < 5 && RenderStars(rating)[i] == Half && RenderStars(rating)[j] == Half ==> i == j
    ensures forall i, j :: 0 <= i < j < 5 && RenderStars(rating)[i] == Half ==> RenderStars(rating)[j] == Empty
  {
  }

  /** A whole number of stars between 0 and 5 draws exactly that many full icons and no half. */
  lemma WholeRatingStars(rating: real, k: nat)
    requires k <= 5 && rating == k as real
    ensures forall i :: 0 <= i < 5 ==> RenderStars(rating)[i] == (if i < k then Full else Empty)
  {
    assert rating.Floor == k;
  }

  // ---------------------------------------------------------------------------
  // The visitor's own rating

  datatype RatingForm = RatingForm(userRating: int, comment: string)

  /** `ratings.find(r => r.userId === uid)`. */
  function FindByUser(ratings: seq<Rating>, uid: string): (r: Option<nat>)
    ensures r.Some? ==> r.value < |ratings| && ratings[r.value].userId == uid
    ensures r.Some? ==> forall j :: 0 <= j < r.value ==> ratings[j].userId != uid
    ensures r.None? ==> forall j :: 0 <= j < |ratings| ==> ratings[j].userId != uid
    decreases |ratings|
  {
    if ratings == [] then None
    else if ratings[0].userId == uid then Some(0)
    else
      match FindByUser(ratings[1..], uid)
      case None => None
      case Some(k) => Some(k + 1)
  }

  /** The effect that preloads the form with the visitor's earlier rating, if any. */
  function LoadOwnRating(form: RatingForm, user: Option<User>, ratings: Option<seq<Rating>>): (r: RatingForm)
    ensures user.None? || ratings.None? ==> r == form
    ensures user.Some? && ratings.Some? && FindByUser(ratings.value, user.value.uid).None? ==> r == form
    ensures user.Some? && ratings.Some? && FindByUser(ratings.value, user.value.uid).Some? ==>
      var found := ratings.value[FindByUser(ratings.value, user.value.uid).value];
      r == RatingForm(found.value, found.comment)
  {
    if user.None? || ratings.None? then form
    else match FindByUser(ratings.value, user.value.uid)
      case None => form
      case Some(k) => RatingForm(ratings.value[k].value, OrElse(ratings.value[k].comment, ""))
  }

  /** A visitor who has rated sees their first rating; one who has not keeps the form as it was. */
  lemma LoadOwnRatingIff(form: RatingForm, u: User, ratings: seq<Rating>)
    ensures LoadOwnRating(form, Some(u), Some(ratings)) != form ==>
      exists j :: 0 <= j < |ratings| && ratings[j].userId == u.uid
    ensures (forall j :: 0 <= j < |ratings| ==> ratings[j].userId != u.uid) ==>
      LoadOwnRating(form, Some(u), Some(ratings)) == form
  {
    var k := FindByUser(ratings, u.uid);
    if k.Some? {
      assert ratings[k.value].userId == u.uid;
    }
  }
}
