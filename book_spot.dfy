/**
 * `book_spot(user, competition, spots_requested)`, the booking rule the unit
 * tests import from the server: it validates the request in a fixed order and,
 * only when every rule passes, deducts the spots from both the user's points
 * and the competition's available spots, changing the two records in place.
 * This is separate from the `purchasePlaces` route, which checks only places.
 */
module SpotBooking {
  import opened Wrappers
  import opened IntText

  /** The most spots one booking may request. */
  const MaxSpotsPerBooking: int := 12

  /** The value passed as `spots_requested`: an integer, or text such as "abc". */
  datatype SpotsRequested = IntValue(n: int) | TextValue(text: string)

  datatype Verdict =
    | BookingSuccessful
    | InvalidInput
    | NotPositive
    | OverLimit
    | NotEnoughSpots
    | NotEnoughPoints

  /** The string `book_spot` returns for each verdict. */
  function Message(v: Verdict): (m: string)
    ensures v == BookingSuccessful <==> m == "Booking successful"
    ensures v == InvalidInput <==> m == "Invalid input for spots requested"
    ensures v == NotPositive <==> m == "Number of spots requested must be greater than zero"
    ensures v == OverLimit <==> m == "Cannot book more than 12 spots"
    ensures v == NotEnoughPoints <==> m == "Not enough points"
  {
    match v
    case BookingSuccessful => "Booking successful"
    case InvalidInput => "Invalid input for spots requested"
    case NotPositive => "Number of spots requested must be greater than zero"
    case OverLimit => "Cannot book more than 12 spots"
    case NotEnoughSpots => "Not enough spots available"
    case NotEnoughPoints => "Not enough points"
  }

  /** The requested number of spots, or `None` when the value is not an integer. */
  function Requested(spots: SpotsRequested): (r: Option<int>)
    ensures spots.IntValue? ==> r == Some(spots.n)
    ensures spots.TextValue? ==> (r.Some? <==> IsIntText(spots.text))
  {
    match spots
    case IntValue(n) => Some(n)
    case TextValue(text) => ParseInt(text)
  }

  /** The rules in the order they are checked; the first that fails decides the verdict. */
  function Decide(points: int, availableSpots: int, spots: SpotsRequested): (v: Verdict)
    ensures v == InvalidInput <==> Requested(spots).None?
    ensures v == NotPositive <==> Requested(spots).Some? && Requested(spots).value <= 0
    ensures v == OverLimit <==> Requested(spots).Some? && Requested(spots).value > MaxSpotsPerBooking
    ensures v == NotEnoughSpots <==>
      Requested(spots).Some? && 0 < Requested(spots).value <= MaxSpotsPerBooking &&
      Requested(spots).value > availableSpots
    ensures v == NotEnoughPoints <==>
      Requested(spots).Some? && 0 < Requested(spots).value <= MaxSpotsPerBooking &&
      Requested(spots).value <= availableSpots && Requested(spots).value > points
    ensures v == BookingSuccessful <==>
      Requested(spots).Some? && 0 < Requested(spots).value <= MaxSpotsPerBooking &&
      Requested(spots).value <= availableSpots && Requested(spots).value <= points
  {
    match Requested(spots)
    case None => InvalidInput
    case Some(n) =>
      if n <= 0 then NotPositive
      else if n > MaxSpotsPerBooking then OverLimit
      else if n > availableSpots then NotEnoughSpots
      else if n > points then NotEnoughPoints
      else BookingSuccessful
  }

  /** The user's points and the competition's available spots after the call. */
  function After(points: int, availableSpots: int, spots: SpotsRequested): (r: (int, int))
    ensures points - r.0 == availableSpots - r.1
    ensures 0 <= points - r.0 <= MaxSpotsPerBooking
    ensures r.0 != points <==> Decide(points, availableSpots, spots) == BookingSuccessful
    ensures r.0 != points ==> r.0 >= 0 && r.1 >= 0
  {
    if Decide(points, availableSpots, spots) == BookingSuccessful then
      var n := Requested(spots).value;
      (points - n, availableSpots - n)
    else
      (points, availableSpots)
  }

  /** The `user` dictionary: only its "points" entry is read or written. */
  class User {
    var points: int

    constructor (points: int)
      ensures this.points == points
    {
      this.points := points;
    }
  }

  /** The `competition` dictionary: only its "available_spots" entry is read or written. */
  class CompetitionSpots {
    var availableSpots: int

    constructor (availableSpots: int)
      ensures this.availableSpots == availableSpots
    {
      this.availableSpots := availableSpots;
    }
  }

  method BookSpot(user: User, competition: CompetitionSpots, spots: SpotsRequested) returns (result: string)
    modifies user, competition
    ensures result == Message(Decide(old(user.points), old(competition.availableSpots), spots))
    ensures (user.points, competition.availableSpots) ==
      After(old(user.points), old(competition.availableSpots), spots)
  {
    var requested := Requested(spots);
    if requested.None? {
      return Message(InvalidInput);
    }
    var n := requested.value;
    if n <= 0 {
      return Message(NotPositive);
    }
    if n > MaxSpotsPerBooking {
      return Message(OverLimit);
    }
    if n > competition.availableSpots {
      return Message(NotEnoughSpots);
    }
    if n > user.points {
      return Message(NotEnoughPoints);
    }
    user.points := user.points - n;
    competition.availableSpots := competition.availableSpots - n;
    result := Message(BookingSuccessful);
  }

  // ---------------------------------------------------------------------------
  // Properties

  /** Every rejection leaves both the points and the available spots as they were. */
  lemma RejectionKeepsState(points: int, availableSpots: int, spots: SpotsRequested)
    requires Decide(points, availableSpots, spots) != BookingSuccessful
    ensures After(points, availableSpots, spots) == (points, availableSpots)
  {
  }

  /**
   * A successful booking takes the same number of spots, between 1 and 12,
   * from both counts, and neither count goes below zero.
   */
  lemma SuccessDeductsFromBoth(points: int, availableSpots: int, spots: SpotsRequested)
    requires Decide(points, availableSpots, spots) == BookingSuccessful
    ensures var n := Requested(spots).value;
      && 0 < n <= MaxSpotsPerBooking
      && After(points, availableSpots, spots) == (points - n, availableSpots - n)
      && After(points, availableSpots, spots).0 >= 0
      && After(points, availableSpots, spots).1 >= 0
  {
  }

  /** A request above the limit is reported as such, whatever the points and spots. */
  lemma OverLimitWins(points: int, availableSpots: int, spots: SpotsRequested)
    requires Requested(spots).Some? && Requested(spots).value > MaxSpotsPerBooking
    ensures Message(Decide(points, availableSpots, spots)) == "Cannot book more than 12 spots"
  {
  }

  /** Each verdict has its own message, so the returned string tells the verdict. */
  lemma MessagesDistinct(v: Verdict, w: Verdict)
    requires v != w
    ensures Message(v) != Message(w)
  {
  }

  /** The seven unit-test cases, with the results and counts they assert. */
  lemma UnitTestCases()
    ensures Message(Decide(5, 12, IntValue(3))) == "Booking successful" && After(5, 12, IntValue(3)) == (2, 9)
    ensures Message(Decide(2, 10, IntValue(3))) == "Not enough points" && After(2, 10, IntValue(3)) == (2, 10)
    ensures Message(Decide(10, 10, IntValue(13))) == "Cannot book more than 12 spots"
    ensures After(10, 10, IntValue(13)) == (10, 10)
    ensures Message(Decide(10, 10, IntValue(0))) == "Number of spots requested must be greater than zero"
    ensures After(10, 10, IntValue(0)) == (10, 10)
    ensures Message(Decide(10, 10, IntValue(-3))) == "Number of spots requested must be greater than zero"
    ensures After(10, 10, IntValue(-3)) == (10, 10)
    ensures Message(Decide(10, 10, TextValue("abc"))) == "Invalid input for spots requested"
    ensures After(10, 10, TextValue("abc")) == (10, 10)
    ensures Message(Decide(5, 10, IntValue(6))) == "Not enough points" && After(5, 10, IntValue(6)) == (5, 10)
  {
  }
}
