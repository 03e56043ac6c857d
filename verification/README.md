# Hotel booking rules, modelled in Dafny

This project models the booking rules of a small hotel REST API built on Django:

- **Room catalogue.** A sequence of `Room` rows: name, price, capacity, type, description and popularity flag.
- **Booking ledger.** A sequence of `Booking` rows. Each links one room and one user to a closed range of days and carries a nullable status (`booked`, `cancelled` or `confirmed`).
- **Reservation** (`Bookings.Create`). The checks run in a fixed order: the date range, then the room lookup, then the overlap query. Only a request that passes all three appends a `booked` row.
- **Cancellation** (`Bookings.Cancel`). A superuser can look up any booking. Anyone else sees only their own, so another user's booking gets the same "not found" answer as a missing id. `cancelled` and `confirmed` bookings are refused. Every other status, null included, becomes `cancelled`.
- **Own bookings** (`Bookings.UserBookings`). Lists the caller's bookings in the ledger's default order: by room, meaning by the room's name and then its price.
- **Room listing** (`Listing.ListRoomsAsWritten`, corrected as `Listing.ListRooms`). First the filter set applies:
  - price and capacity filters (`exact`, `gte`, `lte`), combined as a conjunction. An exact `capacity` outside the choices 1..7 makes the whole request invalid;
  - the two single-date booking filters;
  - the `ordering` parameter. Its accepted values are the parameter names the filter set gives the two columns: `Стоимость` (price), `-Стоимость`, `Вместимость` (capacity) and `-Вместимость`. The model field names `price` and `capacity` are refused like any unknown value.

  When both `start_date` and `end_date` are given, that result is replaced by the rooms the view's exclusion query does not exclude, in the default room order (name, then price). As written, that query can exclude a room whose overlapping booking is cancelled while another, non-overlapping booking of it is active (see Findings). `ListRooms` is the corrected listing: every room that no single `booked` or `confirmed` booking occupies on any day of the window.
- **Model helpers.** Field domains, defaults, cascading deletes and the preview upload path.

Every operation is a pure function. It takes the tables and returns a result tag together with the ledger after the request. A refused request returns the ledger it was given.

How values are represented:
- Days are integers (day numbers). Zero-padded ISO `YYYY-MM-DD` text compares in the same order as the day it names, so for such input the reservation view's comparison of the raw request text is integer comparison here.
- Prices are integer cents.
- Ids are the tables' integer keys.
- The id the database gives a new booking is a parameter of `Create`.

Layout:
- `text.dfy`: module `Text`. Decimal rendering and parsing, and code-point string order.
- `ordering.dfy`: modules `Seqs` and `Ordering`.
  - `Seqs` has `Filter`.
  - `Ordering` has sort keys and insertion sort. A query set's order is stated as "a permutation of the matching rows, sorted by the `ORDER BY` keys", because rows with equal keys come back in no promised order.
- `models.dfy`: module `Models`. Entities, field domains, defaults, cascading deletes and the preview path.
- `availability.dfy`: module `Availability`. The overlap and occupancy predicates.
- `bookings.dfy`: module `Bookings`. Reserve, cancel, own bookings, and the invariants these keep.
- `listing.dfy`: module `Listing`. The filter set, the list view and the finding below.
- `scenarios.dfy`: module `Scenarios`. Concrete request sequences.

Behaviours of the code that a reader might not expect, and that the model keeps:
- Cancellation is not limited to `booked` bookings. Every status other than `cancelled` and `confirmed` is cancelled, a null status included.
- With both dates given, the listing is not the filter set's result narrowed to the free rooms. The price, capacity and single-date filters and the requested ordering are discarded; only a refusal of the query survives.
- The default room order is the room model's `Meta.ordering` (name, then price). The view's own `ordering = 'price'` attribute is read only by a framework ordering backend, which is not part of this model (see Left out). There is no free-text search.
- The price field has no lower bound. Any price within the digit limit, negative ones included, is in the declared domain.

## Model

| member | source | states |
|---|---|---|
| `Models.PreviewPathRoundTrip` | mysite/my_hotel/models.py:5-9 | The upload path is `rooms/room_<pk>/preview/<filename>`. Parsing it gives back exactly the key (or `None` for an unsaved room) and the file name. |
| `Models.PreviewPathInjective` | mysite/my_hotel/models.py:5-9 | Two preview paths are equal exactly when both the keys and the file names are equal. |
| `Models.NewRoom` | mysite/my_hotel/models.py:12-29 | A room created without a popularity flag gets `false`. It keeps every given field. It lies in the declared domain whenever name length ≤ 100, \|price\| < 10^8 cents and capacity is 1..7. |
| `Models.ValidPriceRange` | mysite/my_hotel/models.py:14 | "At most 8 digits, 2 of them decimals" holds exactly when the price in cents lies strictly between -10^8 and 10^8. |
| `Models.CapacityChoicesRange` | mysite/my_hotel/models.py:15-17 | A capacity is one of the choices `range(1, 8)` exactly when it is an integer from 1 to 7. |
| `Models.RoomTypeNameRoundTrip` | mysite/my_hotel/models.py:18-26 | The room type column stores exactly the three texts `luxe`, `economy`, `standard`, one per type. |
| `Models.StatusNameRoundTrip` | mysite/my_hotel/models.py:44-54 | The status column stores exactly the three texts `booked`, `cancelled`, `confirmed`, one per status, each within the 20-character limit. |
| `Models.DefaultRoomOrderMeaning` | mysite/my_hotel/models.py:31-32 | In the default room order, a room comes first when its name sorts first, or when the names are equal and its price is not higher. |
| `Models.DeleteRoom` | mysite/my_hotel/models.py:39 | Deleting a room leaves every other room. It removes exactly the bookings of that room, keeping every other booking with its multiplicity. Afterwards no room has that id. |
| `Models.DeleteUser` | mysite/my_hotel/models.py:40 | Deleting a user removes exactly that user's bookings and keeps every other booking with its multiplicity. |
| `Models.DeleteRoomKeepsRefsValid` | mysite/my_hotel/models.py:39 | After a room's cascade, every booking still refers to a room of the catalogue. |
| `Models.FirstRoomIndex` | mysite/my_hotel/views.py:225 | The room lookup by id finds a room with that id exactly when one exists. It returns the first such room. |
| `Availability.HasConflict` | mysite/my_hotel/views.py:226-234 | The conflict query is true exactly when some booking of that room has status `booked` or `confirmed` and its start ≤ the requested end and its end ≥ the requested start. |
| `Availability.OverlapsIffCommonDay` | mysite/my_hotel/views.py:228-229 | For non-empty ranges, the query's two comparisons hold exactly when the two stays share at least one day. |
| `Availability.SharedBoundaryDayBlocks` | mysite/my_hotel/views.py:226-233 | Ranges are closed: an active booking ending on day D blocks a new stay starting on D. |
| `Availability.InactiveNeverBlocks` | mysite/my_hotel/views.py:231-233 | Inserting a cancelled or null-status booking anywhere in a ledger leaves every room's occupancy for every window exactly as it was. |
| `Bookings.Create` | mysite/my_hotel/views.py:208-267 | Start after end is refused with the ledger unchanged, whatever the room. Otherwise an unknown room is refused, then a room with a blocking booking is refused, each with the ledger unchanged. A success happens exactly when all three checks pass. It appends exactly one `booked` row with the given room, user and dates, and every earlier row stays as it was. |
| `Bookings.CreateKeepsNoDoubleBooking` | mysite/my_hotel/views.py:224-258 | When requests are handled one after another, no two active bookings of a room ever share a day. |
| `Bookings.CreateTwiceRefused` | mysite/my_hotel/views.py:224-258 | Once a reservation succeeds, the same room and days requested again, by anyone, are refused as unavailable with the ledger unchanged. |
| `Bookings.CreateKeepsUniqueIds` | mysite/my_hotel/views.py:253-258 | With a fresh id from the database, booking ids stay distinct. |
| `Bookings.CreateKeepsRefsValid` | mysite/my_hotel/views.py:224-258 | A created booking refers to a room of the catalogue. |
| `Bookings.Lookup` | mysite/my_hotel/views.py:143-167 | A superuser finds any booking with the id. Anyone else finds only a booking with the id that they own. Nothing is found exactly when no such booking exists. |
| `Bookings.Cancel` | mysite/my_hotel/views.py:142-198 | "Not found" exactly when no visible booking has the id. A `cancelled` booking gives "already cancelled" and a `confirmed` one gives "cannot change", both with the ledger unchanged. Any other status, null included, is set to `cancelled` in that one row. |
| `Bookings.CancelFrame` | mysite/my_hotel/views.py:188-189 | A successful cancel changes only the status of the booking with the given id. Every other row, and the ledger's length, stay the same. |
| `Bookings.CancelTwiceRefused` | mysite/my_hotel/views.py:169-177 | Cancelling the same booking again right after a successful cancel returns "already cancelled" and changes nothing. |
| `Bookings.CancelPrivacy` | mysite/my_hotel/views.py:144-167 | An ordinary user asking for another user's booking gets the same "not found" answer, and the same unchanged ledger, as for a missing id. A superuser reaches that booking. |
| `Bookings.ConfirmedIsImmutable` | mysite/my_hotel/views.py:178-186 | A confirmed booking visible to the caller is always refused with "cannot change", superuser or not. |
| `Bookings.CancelKeepsInvariants` | mysite/my_hotel/views.py:188-189 | A cancel keeps ids distinct and room references valid, and never creates a double booking. |
| `Bookings.CreateThenCancel` | mysite/my_hotel/views.py:253-258 | The owner can cancel the booking they have just created. |
| `Bookings.UserBookings` | mysite/my_hotel/views.py:130-132 | The caller's list holds exactly the ledger's bookings whose user is the caller, each as often as in the ledger. It is ordered by room name and then room price (the booking order by room). |
| `Listing.ParseOrdering` | mysite/my_hotel/filters.py:17-22 | An `ordering` value is accepted exactly when every term parses. The result has one term per value, in the order given, and each is the term that value names. |
| `Listing.OrderingRoundTrip` | mysite/my_hotel/filters.py:17-22 | Over the parameter names `Стоимость`, `-Стоимость`, `Вместимость` and `-Вместимость`, parsing and naming ordering terms are mutually inverse. |
| `Listing.FieldNamesRefused` | mysite/my_hotel/filters.py:18-21 | The model field names `price`, `-price`, `capacity` and `-capacity` are not accepted as ordering values. |
| `Listing.PriceOrderMeaning` | mysite/my_hotel/filters.py:17-22 | `Стоимость` puts cheaper rooms first. `-Стоимость` puts dearer rooms first. |
| `Listing.FilterRooms` | mysite/my_hotel/filters.py:6-29 | The request is refused exactly when an ordering value is unknown or an exact capacity is not one of the choices 1..7. Otherwise the result holds exactly the rooms that satisfy every given filter, each as often as in the catalogue. The filters are: equal to, at least, or at most the given price or capacity; for `start_date`, a booking of the room ending on or before it; for `end_date`, a booking starting on or after it. The result is sorted by the requested ordering, or by name then price when none is requested. |
| `Listing.ListRoomsAsWritten` | mysite/my_hotel/views.py:279-296 | The filter set's refusals are kept. With both dates, the result is exactly the catalogue rooms that the exclusion query as written does not exclude, each as often as in the catalogue, in the default order, whatever the other filters say. Otherwise it is the filter set's result. |
| `Listing.ListRooms` | mysite/my_hotel/views.py:279-296 | The corrected listing. The filter set's refusals are kept. With both dates, the result is exactly the rooms that no single active booking occupies on any day of the window, in the default order, whatever the other filters say. Otherwise it is the filter set's result. |
| `Listing.AsWrittenListsNoTakenRoom` | mysite/my_hotel/views.py:286-294 | The listing as written and the corrected listing refuse the same queries. Every room the listing as written shows is also shown by the corrected one, so the defect only ever hides rooms. |
| `Listing.WindowIgnoresFieldFilters` | mysite/my_hotel/views.py:284-294 | With both dates given, the listing does not depend on the price, capacity, single-date or ordering parameters, as long as both queries are valid. |
| `Listing.PartialWindowIsFilterSet` | mysite/my_hotel/views.py:280-284 | With only one date given, the listing is the filter set's result unchanged. |
| `Listing.ListingAgreesWithCreate` | mysite/my_hotel/views.py:284-294 | For a window with start ≤ end, a catalogue room is listed exactly when reserving it for that window would succeed. |
| `Listing.OccupiedIsExcludedAsWritten` | mysite/my_hotel/views.py:286-294 | The exclusion query as written excludes every occupied room, so it never lists a taken room. |
| `Listing.AsWrittenHidesBookableRoom` | mysite/my_hotel/views.py:286-292 | A concrete ledger where the listing as written hides a room for a window, while the corrected listing shows it and a reservation for the same window succeeds. |
| `Scenarios.OverlappingRequestRefused` | mysite/my_hotel/views.py:224-251 | With room 1 booked June 1–5, a request for June 3–4 or June 5–10 is refused, and one for June 6–10 succeeds. |
| `Scenarios.ReversedDatesRefusedFirst` | mysite/my_hotel/views.py:214-251 | Reversed dates for an unknown room give the date error. Equal dates pass the date check and reach the room lookup. |
| `Scenarios.WindowListsFreeRoomsOnly` | mysite/my_hotel/views.py:284-294 | Listing June 3–4 returns room 2 alone. |
| `Scenarios.StartDateAloneDropsUnbookedRooms` | mysite/my_hotel/filters.py:6-10 | `start_date` alone drops a room that has no bookings. |
| `Scenarios.InvalidQueriesRefused` | mysite/my_hotel/filters.py:17-29 | `capacity=8` and `ordering=price` are refused; `ordering=-Стоимость` is accepted; `capacity__gte=8` only empties the list. |
| `Scenarios.CancelOnceThenRefused` | mysite/my_hotel/views.py:142-198 | The owner cancels once, the second attempt gets "already cancelled", and a stranger gets "not found". |

## Findings

| source | as written | input that shows it | evidently intended | confidence | as-written member | corrected member |
|---|---|---|---|---|---|---|
| mysite/my_hotel/views.py:286-292 | `booked_rooms` applies the overlap test and the status test in two chained `filter()` calls across the room→booking relation. The database then joins the booking table once per call, so the two tests may match different bookings of the room. | A room with a `cancelled` booking on days 1–5 and a `booked` one on days 10–12, listed for days 2–3: the room is hidden, yet reserving it for days 2–3 succeeds. | Exclude a room only when one booking both overlaps the window and is active, as the reservation check at views.py:226-233 does. | not executed; follows from Django's documented semantics for chained filters on multi-valued relations | `Listing.ListRoomsAsWritten`, with `Listing.AsWrittenHidesBookableRoom` (the exclusion as written is `Listing.ExcludedAsWritten`) | `Listing.ListRooms`, with `Listing.ListingAgreesWithCreate` |

## Left out

- Registration, login, logout, password validation and hashing: these are calls into the framework's authentication.
- The API root's URL reversal, URL routing and the admin configuration: framework wiring with no logic.
- Serializer field lists, JSON envelopes, human-readable messages and HTTP status codes: results are tags (`CreateOutcome`, `CancelOutcome`, `Listing`) instead.
- The race between the overlap query and the insert in the reservation view: each operation is modelled as atomic.
- `created_at` timestamps: they come from the clock.
- Duplicate rows that the reverse-relation joins of the single-date filters can produce: listings are filtered sequences with each catalogue row's own multiplicity.
- Pagination, the view-level `ordering = 'price'` and the framework's default filter backends: they depend on settings that are not part of this model. The room filter set is assumed to be installed as the view's filter backend.
- A reservation request without `start_date` or `end_date`: the view fails on the comparison rather than answering. `Create` takes both dates.
- Bookings.Create: the reservation view compares the raw `start_date` and `end_date` texts, and the model compares day numbers. The two agree for zero-padded `YYYY-MM-DD` input only. For `2024-6-10` and `2024-6-9` the source compares the texts, finds the start not after the end and goes on to the database, while the model returns `InvalidRange`.
- Request values that do not parse: malformed dates, or a non-numeric price or capacity bound. The model takes typed values. Its `ordering` is the already-split list of terms.
- A cancel request without an `id`: it finds nothing, which is the same as passing an id no booking has.
- `Room.__str__` and `Booking.__str__`: display text only.
- Database collation: room names compare by code point.
- The field choices and the digit limit are checked by forms, not on save. `Models.ValidRoom` states the declared domain. Reservation does not check it, just as the view does not.
