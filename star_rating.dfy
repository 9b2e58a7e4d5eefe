/** The five-star rating widget: a chosen rating, a hover rating that takes
    over the display while the mouse is over a star, and a read-only mode in
    which the widget ignores the mouse. */
module StarRating {
  import opened Types

  const StarCount: nat := 5

  /** `hoverRating || rating`: the hover rating unless it is 0. */
  function DisplayedRating(rating: int, hoverRating: int): int {
    if hoverRating != 0 then hoverRating else rating
  }

  /** Star `star` (1 to 5) is drawn filled. */
  predicate StarFilled(rating: int, hoverRating: int, star: int) {
    DisplayedRating(rating, hoverRating) >= star
  }

  /** The fill of the five stars, left to right. */
  function FilledStars(rating: int, hoverRating: int): (r: seq<bool>)
    ensures |r| == StarCount
  {
    seq(StarCount, i requires 0 <= i < StarCount => StarFilled(rating, hoverRating, i + 1))
  }

  function CountFilled(stars: seq<bool>): nat {
    if stars == [] then 0 else CountFilled(stars[..|stars| - 1]) + (if stars[|stars| - 1] then 1 else 0)
  }

  lemma {:induction false} CountFilledPrefix(stars: seq<bool>, k: int)
    requires 0 <= k <= |stars|
    requires forall i :: 0 <= i < |stars| ==> (stars[i] <==> i < k)
    ensures CountFilled(stars) == k
  {
    if stars != [] {
      var front := stars[..|stars| - 1];
      if k == |stars| {
        CountFilledPrefix(front, k - 1);
      } else {
        CountFilledPrefix(front, k);
      }
    }
  }

  /** The filled stars are the leftmost ones, and there are as many as the
      displayed rating, cut to the range 0 to 5. */
  lemma FilledStarsAreALeftRun(rating: int, hoverRating: int)
    ensures var f := FilledStars(rating, hoverRating);
            forall i, j :: 0 <= i < j < |f| && f[j] ==> f[i]
    ensures var d := DisplayedRating(rating, hoverRating);
            CountFilled(FilledStars(rating, hoverRating))
              == if d < 0 then 0 else if d > StarCount then StarCount else d
  {
    var d := DisplayedRating(rating, hoverRating);
    var k := if d < 0 then 0 else if d > StarCount then StarCount else d;
    CountFilledPrefix(FilledStars(rating, hoverRating), k);
  }

  class StarWidget {
    var rating: int
    var hoverRating: int
    const readOnly: bool
    /** An `onRatingChange` callback was given. */
    const hasCallback: bool

    /** The rating starts at the given one, 0 when none is given. */
    constructor (initialRating: Option<int>, readOnly: bool, hasCallback: bool)
      ensures rating == (if initialRating.Some? then initialRating.value else 0)
      ensures hoverRating == 0
      ensures this.readOnly == readOnly && this.hasCallback == hasCallback
    {
      rating := if initialRating.Some? then initialRating.value else 0;
      hoverRating := 0;
      this.readOnly := readOnly;
      this.hasCallback := hasCallback;
    }

    /** Sets the rating to the clicked star and reports it to the callback,
        if there is one; a read-only widget ignores the click. */
    method HandleClick(selected: int) returns (reported: Option<int>)
      modifies this
      ensures hoverRating == old(hoverRating)
      ensures readOnly ==> rating == old(rating) && reported == None
      ensures !readOnly ==> rating == selected && reported == (if hasCallback then Some(selected) else None)
    {
      if readOnly {
        return None;
      }
      rating := selected;
      reported := if hasCallback then Some(selected) else None;
    }

    method HandleMouseEnter(hovered: int)
      modifies this
      ensures rating == old(rating)
      ensures hoverRating == if readOnly then old(hoverRating) else hovered
    {
      if !readOnly {
        hoverRating := hovered;
      }
    }

    /** Leaving the stars ends the hover, so the display shows the rating again. */
    method HandleMouseLeave()
      modifies this
      ensures rating == old(rating)
      ensures hoverRating == if readOnly then old(hoverRating) else 0
      ensures !readOnly ==> FilledStars(rating, hoverRating) == FilledStars(rating, 0)
    {
      if !readOnly {
        hoverRating := 0;
      }
    }
  }
}
