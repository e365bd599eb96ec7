/**
 * The booking web application: the club and competition records it keeps in
 * memory, the login lookup by email, the booking page lookup by names taken
 * from the URL, and the place purchase that updates a competition in place.
 */
module Server {
  import opened Wrappers
  import opened IntText
  import opened Search

  /** A club as loaded from the clubs ledger; `points` is never changed by the server. */
  datatype Club = Club(name: string, email: string, points: int)

  /** A competition as loaded from the competitions ledger; `numberOfPlaces` is what remains bookable. */
  datatype Competition = Competition(name: string, date: string, numberOfPlaces: int)

  /** What the booking page is rendered with. */
  datatype BookingPage = BookingPage(club: Club, competition: Competition)

  /**
   * The result of one purchase request. `Booked` and `NotEnoughPlaces` are the
   * two flashed messages; the other three stand for the exceptions the route
   * lets escape: an `IndexError` for an unknown competition or club name and a
   * `ValueError` for places that are not an integer.
   */
  datatype Purchase =
    | Booked(index: nat, places: int)
    | NotEnoughPlaces(index: nat, places: int)
    | CompetitionNotFound
    | ClubNotFound
    | InvalidPlaces

  /** The message flashed on the welcome page; the exception outcomes flash nothing. */
  function Flash(p: Purchase): (r: Option<string>)
    ensures r.Some? <==> p.Booked? || p.NotEnoughPlaces?
    ensures r.Some? ==> (r.value == "Great - booking complete!" <==> p.Booked?)
  {
    match p
    case Booked(_, _) => Some("Great - booking complete!")
    case NotEnoughPlaces(_, _) => Some("Not enough places available.")
    case _ => None
  }

  /** No competition has a negative number of places left. */
  predicate PlacesNonNegative(competitions: seq<Competition>) {
    forall k :: 0 <= k < |competitions| ==> competitions[k].numberOfPlaces >= 0
  }

  // ---------------------------------------------------------------------------
  // Lookups

  predicate IsFirstClubWithEmail(clubs: seq<Club>, email: string, i: int) {
    0 <= i < |clubs| && clubs[i].email == email &&
    forall j :: 0 <= j < i ==> clubs[j].email != email
  }

  predicate IsFirstClubNamed(clubs: seq<Club>, name: string, i: int) {
    0 <= i < |clubs| && clubs[i].name == name &&
    forall j :: 0 <= j < i ==> clubs[j].name != name
  }

  predicate IsFirstCompetitionNamed(competitions: seq<Competition>, name: string, i: int) {
    0 <= i < |competitions| && competitions[i].name == name &&
    forall j :: 0 <= j < i ==> competitions[j].name != name
  }

  function ClubWithEmail(clubs: seq<Club>, email: string): (r: Option<nat>)
    ensures r.Some? ==> IsFirstClubWithEmail(clubs, email, r.value)
    ensures r.None? <==> forall i :: 0 <= i < |clubs| ==> clubs[i].email != email
  {
    FirstIndex(clubs, (c: Club) => c.email == email)
  }

  function ClubNamed(clubs: seq<Club>, name: string): (r: Option<nat>)
    ensures r.Some? ==> IsFirstClubNamed(clubs, name, r.value)
    ensures r.None? <==> forall i :: 0 <= i < |clubs| ==> clubs[i].name != name
  {
    FirstIndex(clubs, (c: Club) => c.name == name)
  }

  function CompetitionNamed(competitions: seq<Competition>, name: string): (r: Option<nat>)
    ensures r.Some? ==> IsFirstCompetitionNamed(competitions, name, r.value)
    ensures r.None? <==> forall k :: 0 <= k < |competitions| ==> competitions[k].name != name
  {
    FirstIndex(competitions, (c: Competition) => c.name == name)
  }

  /**
   * The `showSummary` route: element 0 of the clubs whose email matches the
   * form's, or `None` where the route flashes "Email not found".
   */
  function ShowSummary(clubs: seq<Club>, email: string): (r: Option<Club>)
    ensures r.None? <==> forall i :: 0 <= i < |clubs| ==> clubs[i].email != email
    ensures r.Some? ==> exists i :: IsFirstClubWithEmail(clubs, email, i) && clubs[i] == r.value
    ensures r.Some? <==> ClubWithEmail(clubs, email).Some?
    ensures r.Some? ==> r.value == clubs[ClubWithEmail(clubs, email).value]
  {
    var hasEmail := (c: Club) => c.email == email;
    var matching := Filter(clubs, hasEmail);
    FilterHeadIsFirst(clubs, hasEmail);
    if |matching| == 0 then None else Some(matching[0])
  }

  /** The `book` route turns the underscores of a URL segment back into spaces. */
  function UrlToName(segment: string): (name: string)
    ensures |name| == |segment| && '_' !in name
    ensures forall i :: 0 <= i < |segment| && segment[i] != '_' ==> name[i] == segment[i]
    ensures forall i :: 0 <= i < |segment| && segment[i] == '_' ==> name[i] == ' '
  {
    ReplaceChar(segment, '_', ' ')
  }

  lemma UrlToNameIdempotent(segment: string)
    ensures UrlToName(UrlToName(segment)) == UrlToName(segment)
  {
  }

  /**
   * The `book` route: the first club and the first competition whose names
   * equal the URL segments with underscores read as spaces; the page is shown
   * only when both are found, otherwise the route flashes "Club or competition
   * not found".
   */
  function Book(clubs: seq<Club>, competitions: seq<Competition>, competitionSegment: string, clubSegment: string)
    : (r: Option<BookingPage>)
    ensures r.Some? <==>
      (exists i :: 0 <= i < |clubs| && clubs[i].name == UrlToName(clubSegment)) &&
      (exists k :: 0 <= k < |competitions| && competitions[k].name == UrlToName(competitionSegment))
    ensures r.Some? ==>
      (exists i :: IsFirstClubNamed(clubs, UrlToName(clubSegment), i) && clubs[i] == r.value.club) &&
      (exists k :: IsFirstCompetitionNamed(competitions, UrlToName(competitionSegment), k) &&
                   competitions[k] == r.value.competition)
  {
    var competitionName := UrlToName(competitionSegment);
    var clubName := UrlToName(clubSegment);
    var foundClub := ClubNamed(clubs, clubName);
    var foundCompetition := CompetitionNamed(competitions, competitionName);
    if foundClub.Some? && foundCompetition.Some? then
      Some(BookingPage(clubs[foundClub.value], competitions[foundCompetition.value]))
    else
      None
  }

  // ---------------------------------------------------------------------------
  // Purchasing places

  /**
   * The decision `purchasePlaces` takes: the competition is looked up first,
   * then the club, then the places are parsed, and the booking goes ahead
   * when the request is at most the competition's remaining places.
   */
  function Decide(clubs: seq<Club>, competitions: seq<Competition>, competitionName: string,
                  clubName: string, places: string): (r: Purchase)
    ensures r.CompetitionNotFound? <==>
      forall k :: 0 <= k < |competitions| ==> competitions[k].name != competitionName
    ensures r.ClubNotFound? <==>
      (exists k :: 0 <= k < |competitions| && competitions[k].name == competitionName) &&
      (forall i :: 0 <= i < |clubs| ==> clubs[i].name != clubName)
    ensures r.InvalidPlaces? <==>
      (exists k :: 0 <= k < |competitions| && competitions[k].name == competitionName) &&
      (exists i :: 0 <= i < |clubs| && clubs[i].name == clubName) &&
      ParseInt(places).None?
    ensures r.Booked? ==>
      IsFirstCompetitionNamed(competitions, competitionName, r.index) &&
      ParseInt(places) == Some(r.places) &&
      r.places <= competitions[r.index].numberOfPlaces
    ensures r.NotEnoughPlaces? ==>
      IsFirstCompetitionNamed(competitions, competitionName, r.index) &&
      ParseInt(places) == Some(r.places) &&
      r.places > competitions[r.index].numberOfPlaces
  {
    match CompetitionNamed(competitions, competitionName)
    case None => CompetitionNotFound
    case Some(k) =>
      if ClubNamed(clubs, clubName).None? then ClubNotFound
      else match ParseInt(places)
        case None => InvalidPlaces
        case Some(n) =>
          if n <= competitions[k].numberOfPlaces then Booked(k, n) else NotEnoughPlaces(k, n)
  }

  /** The competitions after a purchase: a booking lowers one record's places; nothing else changes. */
  function Settle(competitions: seq<Competition>, p: Purchase): (after: seq<Competition>)
    requires p.Booked? ==> p.index < |competitions|
    ensures |after| == |competitions|
    ensures forall k :: 0 <= k < |after| && !(p.Booked? && k == p.index) ==> after[k] == competitions[k]
    ensures p.Booked? ==>
      after[p.index].name == competitions[p.index].name &&
      after[p.index].date == competitions[p.index].date &&
      after[p.index].numberOfPlaces + p.places == competitions[p.index].numberOfPlaces
  {
    if p.Booked? then
      var c := competitions[p.index];
      competitions[p.index := c.(numberOfPlaces := c.numberOfPlaces - p.places)]
    else
      competitions
  }

  /** The server's module-level state: the two ledgers loaded at start-up. */
  class App {
    var clubs: seq<Club>
    var competitions: array<Competition>

    constructor (clubs: seq<Club>, competitions: seq<Competition>)
      ensures this.clubs == clubs && this.competitions[..] == competitions
      ensures fresh(this.competitions)
    {
      this.clubs := clubs;
      this.competitions := new Competition[|competitions|](i requires 0 <= i < |competitions| => competitions[i]);
    }

    /**
     * The `purchasePlaces` route. Only the matched competition record is
     * written, in place; the clubs, and so every club's points, are untouched.
     */
    method PurchasePlaces(competitionName: string, clubName: string, places: string) returns (outcome: Purchase)
      modifies competitions
      ensures outcome == Decide(clubs, old(competitions[..]), competitionName, clubName, places)
      ensures competitions[..] == Settle(old(competitions[..]), outcome)
      ensures clubs == old(clubs)
    {
      var found := CompetitionNamed(competitions[..], competitionName);
      if found.None? {
        return CompetitionNotFound;
      }
      if ClubNamed(clubs, clubName).None? {
        return ClubNotFound;
      }
      var placesRequired := ParseInt(places);
      if placesRequired.None? {
        return InvalidPlaces;
      }
      var k, n := found.value, placesRequired.value;
      if n <= competitions[k].numberOfPlaces {
        competitions[k] := competitions[k].(numberOfPlaces := competitions[k].numberOfPlaces - n);
        outcome := Booked(k, n);
      } else {
        outcome := NotEnoughPlaces(k, n);
      }
    }
  }

  // ---------------------------------------------------------------------------
  // Properties of a purchase

  /** A booking takes exactly the requested places from the matched competition, never more than it had. */
  lemma BookingTakesRequestedPlaces(clubs: seq<Club>, competitions: seq<Competition>, competitionName: string,
                                    clubName: string, places: string)
    requires Decide(clubs, competitions, competitionName, clubName, places).Booked?
    ensures var p := Decide(clubs, competitions, competitionName, clubName, places);
      var after := Settle(competitions, p);
      && competitions[p.index].name == competitionName
      && ParseInt(places) == Some(p.places)
      && p.places <= competitions[p.index].numberOfPlaces
      && after[p.index].numberOfPlaces == competitions[p.index].numberOfPlaces - p.places
      && Flash(p) == Some("Great - booking complete!")
  {
  }

  /** Every outcome other than a booking leaves all competitions as they were. */
  lemma RejectionChangesNothing(clubs: seq<Club>, competitions: seq<Competition>, competitionName: string,
                                clubName: string, places: string)
    requires !Decide(clubs, competitions, competitionName, clubName, places).Booked?
    ensures Settle(competitions, Decide(clubs, competitions, competitionName, clubName, places)) == competitions
  {
  }

  /** A request above the remaining places is refused with "Not enough places available." */
  lemma TooManyPlacesRefused(clubs: seq<Club>, competitions: seq<Competition>, competitionName: string,
                             clubName: string, places: string, k: nat, n: int)
    requires IsFirstCompetitionNamed(competitions, competitionName, k)
    requires exists i :: 0 <= i < |clubs| && clubs[i].name == clubName
    requires ParseInt(places) == Some(n) && n > competitions[k].numberOfPlaces
    ensures Decide(clubs, competitions, competitionName, clubName, places) == NotEnoughPlaces(k, n)
    ensures Flash(Decide(clubs, competitions, competitionName, clubName, places)) == Some("Not enough places available.")
  {
  }

  /** With a non-negative request and non-negative counts, no count becomes negative. */
  lemma PlacesStayNonNegative(clubs: seq<Club>, competitions: seq<Competition>, competitionName: string,
                              clubName: string, places: string)
    requires PlacesNonNegative(competitions)
    requires ParseInt(places).Some? ==> ParseInt(places).value >= 0
    ensures PlacesNonNegative(Settle(competitions, Decide(clubs, competitions, competitionName, clubName, places)))
  {
  }

  /**
   * As written, the route does not refuse a negative request: it passes the
   * `<=` test and raises the competition's remaining places.
   */
  lemma NegativeRequestAddsPlaces(clubs: seq<Club>, competitions: seq<Competition>, competitionName: string,
                                  clubName: string, places: string)
    requires exists k :: 0 <= k < |competitions| && competitions[k].name == competitionName
    requires exists i :: 0 <= i < |clubs| && clubs[i].name == clubName
    requires PlacesNonNegative(competitions)
    requires ParseInt(places).Some? && ParseInt(places).value < 0
    ensures var p := Decide(clubs, competitions, competitionName, clubName, places);
      p.Booked? && Settle(competitions, p)[p.index].numberOfPlaces > competitions[p.index].numberOfPlaces
  {
  }

  /** A purchase renames nothing and moves nothing: names, dates and order of competitions are kept. */
  lemma PurchaseKeepsNamesAndDates(clubs: seq<Club>, competitions: seq<Competition>, competitionName: string,
                                   clubName: string, places: string)
    ensures var after := Settle(competitions, Decide(clubs, competitions, competitionName, clubName, places));
      |after| == |competitions| &&
      forall k :: 0 <= k < |after| ==>
        after[k].name == competitions[k].name && after[k].date == competitions[k].date
  {
  }

  // ---------------------------------------------------------------------------
  // Purchases served one after another

  /** The form fields of one `purchasePlaces` request. */
  datatype PurchaseRequest = PurchaseRequest(competition: string, club: string, places: string)

  /** The remaining places of all competitions together. */
  function TotalPlaces(competitions: seq<Competition>): int {
    if |competitions| == 0 then 0
    else TotalPlaces(competitions[..|competitions| - 1]) + competitions[|competitions| - 1].numberOfPlaces
  }

  /** The places taken by the bookings among `outcomes`. */
  function BookedPlaces(outcomes: seq<Purchase>): int {
    if |outcomes| == 0 then 0
    else
      var last := outcomes[|outcomes| - 1];
      BookedPlaces(outcomes[..|outcomes| - 1]) + if last.Booked? then last.places else 0
  }

  /**
   * The competitions after serving `requests` in order against the same
   * in-memory ledger, with the outcome of each request.
   */
  function Serve(clubs: seq<Club>, competitions: seq<Competition>, requests: seq<PurchaseRequest>)
    : (r: (seq<Competition>, seq<Purchase>))
    ensures |r.0| == |competitions| && |r.1| == |requests|
  {
    if |requests| == 0 then (competitions, [])
    else
      var (before, outcomes) := Serve(clubs, competitions, requests[..|requests| - 1]);
      var q := requests[|requests| - 1];
      var p := Decide(clubs, before, q.competition, q.club, q.places);
      (Settle(before, p), outcomes + [p])
  }

  lemma {:induction false} TotalAfterUpdate(competitions: seq<Competition>, k: nat, c: Competition)
    requires k < |competitions|
    ensures TotalPlaces(competitions[k := c]) ==
      TotalPlaces(competitions) - competitions[k].numberOfPlaces + c.numberOfPlaces
  {
    var n := |competitions|;
    var updated := competitions[k := c];
    assert updated[..n - 1] == if k < n - 1 then competitions[..n - 1][k := c] else competitions[..n - 1];
    if k < n - 1 {
      TotalAfterUpdate(competitions[..n - 1], k, c);
    }
  }

  /** One purchase moves exactly the places it books out of the competitions. */
  lemma {:induction false} SettleConservesPlaces(competitions: seq<Competition>, p: Purchase)
    requires p.Booked? ==> p.index < |competitions|
    ensures TotalPlaces(Settle(competitions, p)) + (if p.Booked? then p.places else 0) == TotalPlaces(competitions)
  {
    if p.Booked? {
      var c := competitions[p.index];
      var c' := c.(numberOfPlaces := c.numberOfPlaces - p.places);
      assert Settle(competitions, p) == competitions[p.index := c'];
      TotalAfterUpdate(competitions, p.index, c');
    }
  }

  /**
   * Over any run of requests, the places left plus the places booked equal
   * the places there were at start-up: nothing is lost or created.
   */
  lemma {:induction false} ServeConservesPlaces(clubs: seq<Club>, competitions: seq<Competition>,
                                                requests: seq<PurchaseRequest>)
    ensures var (after, outcomes) := Serve(clubs, competitions, requests);
      TotalPlaces(after) + BookedPlaces(outcomes) == TotalPlaces(competitions)
  {
    if |requests| > 0 {
      var (before, outcomes) := Serve(clubs, competitions, requests[..|requests| - 1]);
      ServeConservesPlaces(clubs, competitions, requests[..|requests| - 1]);
      var q := requests[|requests| - 1];
      var p := Decide(clubs, before, q.competition, q.club, q.places);
      SettleConservesPlaces(before, p);
      assert (outcomes + [p])[..|outcomes|] == outcomes;
    }
  }

  /** Requests that are never negative cannot drive any competition below zero places. */
  lemma {:induction false} ServeKeepsPlacesNonNegative(clubs: seq<Club>, competitions: seq<Competition>,
                                                       requests: seq<PurchaseRequest>)
    requires PlacesNonNegative(competitions)
    requires forall j :: 0 <= j < |requests| ==> ParseInt(requests[j].places).Some? ==> ParseInt(requests[j].places).value >= 0
    ensures PlacesNonNegative(Serve(clubs, competitions, requests).0)
  {
    if |requests| > 0 {
      var earlier := requests[..|requests| - 1];
      var before := Serve(clubs, competitions, earlier).0;
      ServeKeepsPlacesNonNegative(clubs, competitions, earlier);
      var q := requests[|requests| - 1];
      PlacesStayNonNegative(clubs, before, q.competition, q.club, q.places);
    }
  }
}
