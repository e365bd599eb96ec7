# GUDLFT club booking — a Dafny model of the booking server

The server (`server.py`) lets secretaries of member clubs log in by email and
reserve places at competitions. It keeps two lists in memory for the life of
the process: the clubs (name, email, points) and the competitions (name,
date, number of places left). This project models the logic under its routes:

- **Login** (`showSummary`): the first club whose email matches, or "Email
  not found". The route takes element 0 of a filtered list; the model proves
  that this is the first match of a linear search (`Search.FilterHeadIsFirst`).
- **Booking page** (`book`): the URL segments have every `_` turned into a
  space, then the first club and the first competition with those names are
  looked up; the page is shown only when both are found.
- **Purchase** (`purchasePlaces`): the competition is looked up, then the
  club, then the places text is parsed with `int()`; the booking goes ahead
  when the request is at most the competition's places left, and then that
  one competition record is lowered in place. The club's points are never
  read or changed. `Server.App` holds the two lists, with the competitions in
  an array that `PurchasePlaces` updates in place; `Server.Decide` and
  `Server.Settle` are the pure specification it is proved against. The
  exceptions the route lets escape (`IndexError` for an unknown name,
  `ValueError` from `int()`) are explicit outcomes, in the order Python
  raises them. A negative request is modelled as written: it passes the
  `<=` test and raises the count (`Server.NegativeRequestAddsPlaces`).
  Requests served one after another (`Server.Serve`) conserve places: what
  is left plus what was booked equals what there was at start-up.
- **`book_spot`** (module `SpotBooking`): the unit tests in
  `tests/test_Units.py` import a `book_spot(user, competition,
  spots_requested)` from the server that the server file does not define.
  It is modelled separately, as the contract those tests assert: non-integer
  input, a request of zero or less, a request above 12 (reported even when
  points and spots are also short), and a request above the points are each
  refused with their own message and leave both counts unchanged; a success
  lowers points and available spots by the request. The tests leave open
  whether available spots are checked at all; the model checks them after
  the 12-spot limit and before the points, with the message "Not enough
  spots available", so that a booking can never leave a negative count. No
  test case reaches that rule, and `SpotBooking.UnitTestCases` proves that
  all seven test cases get exactly the results and counts they assert.

Places are unbounded integers. The competitions ledger stores them as text
and the purchase route reads them with `int()`, so the model works on
integers; the places text of the form is read with `int()` too, modelled as
`IntText.ParseInt`. Its value is pinned down by a reference rendering,
`IntText.FormatInt`, which it is proved to invert, together with lemmas for
leading zeros and signs. The server itself never formats a count as text,
and never reads a club's points.

Files: `wrappers.dfy` (Option), `int_text.dfy` (integer text),
`search.dfy` (first-match search, filtering, character substitution),
`server.dfy` (records, routes, purchase), `book_spot.dfy` (the tested
booking rule).

## Model

| member | source | states |
|---|---|---|
| `Search.FirstIndex` | server.py:50-51 | `next(...)` over a list: the position returned satisfies the predicate and no earlier element does; `None` exactly when no element does |
| `Search.Filter` | server.py:31 | the list comprehension keeps only matching elements, each from the list, at most as many as the list; every matching element appears exactly as many times as in the list, and no other |
| `Search.FilterAppend` | server.py:31 | the comprehension keeps the list's order: filtering a concatenation gives the concatenation of the filtered parts |
| `Search.FilterHeadIsFirst` | server.py:31 | element 0 of the filtered list exists exactly when the first-match search succeeds, and is the element it finds |
| `Search.ReplaceChar` | server.py:47-48 | `str.replace` of one character: same length, each occurrence replaced, every other character kept, and the replaced character no longer occurs |
| `Search.ReplaceCharIdempotent` | server.py:47-48 | replacing a second time changes nothing |
| `IntText.ParseInt` | server.py:65 | `int()` succeeds exactly on an optional sign followed by at least one digit; a leading `-` gives a value at most 0, otherwise at least 0 |
| `IntText.FormatNat` | server.py:65 | reference rendering for the value `int()` gives: the canonical decimal text of a natural number is non-empty, all digits, without a leading zero |
| `IntText.FormatInt` | server.py:65 | reference rendering for the value `int()` gives: the canonical text of an integer is text `int()` accepts, beginning with `-` exactly for negative values |
| `IntText.ParseIntLeadingZero` | server.py:65 | a leading zero before digits does not change the value `int()` gives |
| `IntText.ParseIntPlusSign` | server.py:65 | a `+` before digits does not change the value `int()` gives |
| `IntText.ParseIntMinusSign` | server.py:65 | a `-` before digits gives the negated value of the digits |
| `IntText.ParseFormatRoundTrip` | server.py:65 | parsing the text of any integer gives the integer back |
| `Server.ClubWithEmail` | server.py:31 | the index found is the first club with that email; none found exactly when no club has it |
| `Server.ClubNamed` | server.py:50 | the index found is the first club with that name; none found exactly when no club has it |
| `Server.CompetitionNamed` | server.py:51 | the index found is the first competition with that name; none found exactly when no competition has it |
| `Server.ShowSummary` | server.py:29-35 | login fails exactly when no club has the email; otherwise it yields the first club with that email, the one `ClubWithEmail` finds |
| `Server.Flash` | server.py:67-71 | a message is flashed exactly for a booking or a refusal for lack of places, and it is "Great - booking complete!" exactly for a booking |
| `Server.UrlToName` | server.py:47-48 | a name from the URL has the segment's length, no `_`, a space wherever the segment had `_`, and the segment's other characters |
| `Server.UrlToNameIdempotent` | server.py:47-48 | turning underscores into spaces twice is the same as once |
| `Server.Book` | server.py:47-57 | the booking page is shown exactly when both a club and a competition carry the names from the URL; it shows the first of each |
| `Server.Decide` | server.py:62-71 | unknown competition first, then unknown club, then non-integer places are errors exactly when they occur; a booking is decided exactly when the request is at most the first matching competition's places, otherwise "not enough places" |
| `Server.Settle` | server.py:67-68 | a booking lowers the matched competition's places by the request and keeps its name and date; every other record, and every record on a refusal, is unchanged |
| `Server.App.constructor` | server.py:19-20 | the server starts with the loaded clubs and competitions |
| `Server.App.PurchasePlaces` | server.py:62-73 | the outcome is the decision on the state before the call; the competitions afterwards are that state settled by the outcome; the clubs, so every club's points, are unchanged |
| `Server.BookingTakesRequestedPlaces` | server.py:67-69 | on a booking the request is at most the old places, the matched competition is left with exactly the old places minus the request, and "Great - booking complete!" is flashed |
| `Server.RejectionChangesNothing` | server.py:63-71 | every outcome other than a booking leaves all competitions as they were |
| `Server.TooManyPlacesRefused` | server.py:67-71 | a request above the places left, for a known competition and club, is refused with "Not enough places available." |
| `Server.PlacesStayNonNegative` | server.py:65-68 | with no negative counts and no negative request, no count becomes negative |
| `Server.NegativeRequestAddsPlaces` | server.py:65-68 | as written, a negative request for a known competition and club is booked and raises the competition's places |
| `Server.PurchaseKeepsNamesAndDates` | server.py:68 | a purchase keeps the number, order, names and dates of the competitions |
| `Server.Serve` | server.py:62-73 | serving requests one after another yields one outcome per request and keeps the number of competitions |
| `Server.TotalAfterUpdate` | server.py:68 | replacing one record changes the total of places by the difference of the two records' places |
| `Server.SettleConservesPlaces` | server.py:68 | one purchase removes from the total of places exactly the places it books |
| `Server.ServeConservesPlaces` | server.py:67-68 | over any run of requests, places left plus places booked equal the places at start-up |
| `Server.ServeKeepsPlacesNonNegative` | server.py:65-68 | a run of non-negative requests never leaves a competition with negative places |
| `SpotBooking.Message` | tests/test_Units.py:18-89 | each verdict the tests reach returns exactly the string they assert for it, and no other verdict returns that string |
| `SpotBooking.After` | tests/test_Units.py:11-91 | the same number of spots, 0 to 12, is taken from points and from available spots; something is taken exactly on a success, and then neither count is negative |
| `SpotBooking.Requested` | tests/test_Units.py:69-79 | an integer argument is taken as it is; a text argument is an integer exactly when it is integer text |
| `SpotBooking.Decide` | tests/test_Units.py:11-91 | invalid input exactly when not an integer; not positive exactly when at most 0; over the limit exactly when above 12; short of spots or of points, in that order, otherwise; success exactly when every rule passes |
| `SpotBooking.BookSpot` | tests/test_Units.py:11-91 | returns the message of the verdict on the counts before the call, and leaves points and available spots as `After` gives them |
| `SpotBooking.RejectionKeepsState` | tests/test_Units.py:22-91 | every rejection leaves points and available spots unchanged |
| `SpotBooking.SuccessDeductsFromBoth` | tests/test_Units.py:11-20 | a success takes the same 1 to 12 spots from points and from available spots, and neither goes below zero |
| `SpotBooking.OverLimitWins` | tests/test_Units.py:34-43 | a request above 12 is reported as "Cannot book more than 12 spots" whatever the points and spots |
| `SpotBooking.MessagesDistinct` | tests/test_Units.py:18-77 | different verdicts return different strings |
| `SpotBooking.UnitTestCases` | tests/test_Units.py:11-91 | each of the seven test cases gets the returned string and the counts it asserts |

## Left out

- Loading the ledgers (`loadClubs`, `loadCompetitions`, server.py:5-13): file reading and JSON decoding; the two lists are given to `Server.App.constructor`.
- Flask plumbing: templates, `flash`, `redirect`, `url_for`, the `index` and `logout` routes, `app.run`; `Server.Flash` only names the flashed strings.
- The login check at the top of `book` (server.py:43-45): a session concern. Because `session` is not imported by the server file, that line raises `NameError` on every call as written, so the lookups of lines 47-57 that `Server.Book` models are not reached in the file as it stands; the model describes them as the route intends them.
- A form field missing from the request (a `KeyError` in Flask) is not modelled; every route is given its fields.
- `IntText.ParseInt`: does not accept the surrounding whitespace, `_` digit separators or non-ASCII digits that Python's `int()` also accepts.
- The ledgers store counts as text and the server writes an integer back (server.py:68); the model uses integers throughout.
- Concurrent requests: the server takes no lock, so the model only covers requests served one after another (`Server.Serve`).
- Saving the ledgers back to disk: the server never does it.
- `SpotBooking.Decide`: adds a rule the tests do not state, refusing a request above the available spots (after the 12-spot limit, before the points), with the message "Not enough spots available", which no source text gives; no test case reaches it.
- `SpotBooking.Decide`: the 12-spot limit applies to one request, as the tests assert it, not to a club's cumulative bookings for a competition; no bookings record exists in the server.
- The HTTP-level tests and the load-test script: they expect messages and a `/points` page that the server file does not produce.
