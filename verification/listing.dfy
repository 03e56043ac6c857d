/**
 The room listing: the room filter set (price and capacity bounds, the two
 single-date booking filters, the ordering choices) followed by the
 date-window replacement the list view applies when both dates are given.
 */
module Listing {
  import opened Models
  import opened Availability
  import Bookings
  import Seqs
  import Ordering

  // ---------------------------------------------------------------------
  // Ordering choices
  // ---------------------------------------------------------------------

  datatype Field = PriceField | CapacityField

  /** One `ordering` value: a column, ascending or (with `-`) descending. */
  datatype OrderTerm = OrderTerm(field: Field, descending: bool)

  /**
   The public name of a column in the `ordering` parameter. The filter set
   pairs each model field with a parameter name, and the parameter name is
   what a request must spell: `price` and `capacity` themselves are refused.
   */
  function FieldName(f: Field): string {
    match f
    case PriceField => "Стоимость"
    case CapacityField => "Вместимость"
  }

  function OrderTermName(t: OrderTerm): string {
    (if t.descending then "-" else "") + FieldName(t.field)
  }

  /** Only `Стоимость`, `-Стоимость`, `Вместимость` and `-Вместимость` are accepted. */
  function ParseOrderTerm(text: string): Option<OrderTerm> {
    if text == "Стоимость" then Some(OrderTerm(PriceField, false))
    else if text == "-Стоимость" then Some(OrderTerm(PriceField, true))
    else if text == "Вместимость" then Some(OrderTerm(CapacityField, false))
    else if text == "-Вместимость" then Some(OrderTerm(CapacityField, true))
    else None
  }

  /** The model field names are not ordering values. */
  lemma FieldNamesRefused()
    ensures ParseOrderTerm("price").None? && ParseOrderTerm("-price").None?
    ensures ParseOrderTerm("capacity").None? && ParseOrderTerm("-capacity").None?
  {
  }

  /** The comma-separated `ordering` parameter; one unknown value invalidates all. */
  function ParseOrdering(texts: seq<string>): (r: Option<seq<OrderTerm>>)
    ensures r.Some? <==> forall i | 0 <= i < |texts| :: ParseOrderTerm(texts[i]).Some?
    ensures r.Some? ==> (|r.value| == |texts|
                         && forall i | 0 <= i < |texts| :: ParseOrderTerm(texts[i]) == Some(r.value[i]))
    decreases |texts|
  {
    if |texts| == 0 then Some([])
    else
      var rest := ParseOrdering(texts[1..]);
      assert forall i | 1 <= i < |texts| :: texts[i] == texts[1..][i - 1];
      match ParseOrderTerm(texts[0])
      case None => None
      case Some(t) =>
        match rest
        case None => None
        case Some(ts) => Some([t] + ts)
  }

  function OrderingNames(terms: seq<OrderTerm>): (r: seq<string>)
    ensures |r| == |terms|
    ensures forall i | 0 <= i < |terms| :: r[i] == OrderTermName(terms[i])
  {
    seq(|terms|, i requires 0 <= i < |terms| => OrderTermName(terms[i]))
  }

  /** Every accepted ordering value names exactly one term, and back. */
  lemma OrderTermRoundTrip(t: OrderTerm, text: string)
    ensures ParseOrderTerm(OrderTermName(t)) == Some(t)
    ensures ParseOrderTerm(text) == Some(t) ==> OrderTermName(t) == text
  {
  }

  /** Parsing and naming an ordering are inverse to each other. */
  lemma OrderingRoundTrip(terms: seq<OrderTerm>, texts: seq<string>)
    ensures ParseOrdering(OrderingNames(terms)) == Some(terms)
    ensures ParseOrdering(texts) == Some(terms) ==> OrderingNames(terms) == texts
  {
    var names := OrderingNames(terms);
    forall i | 0 <= i < |terms|
      ensures ParseOrderTerm(names[i]) == Some(terms[i])
    {
      OrderTermRoundTrip(terms[i], names[i]);
    }
    assert forall i | 0 <= i < |names| :: ParseOrderTerm(names[i]).Some?;
    var parsed := ParseOrdering(names).value;
    assert |parsed| == |terms|;
    assert forall i | 0 <= i < |terms| :: parsed[i] == terms[i];
    assert parsed == terms;
    if ParseOrdering(texts) == Some(terms) {
      forall i | 0 <= i < |terms|
        ensures names[i] == texts[i]
      {
        OrderTermRoundTrip(terms[i], texts[i]);
      }
    }
  }

  function TermAtom(t: OrderTerm, r: Room): Ordering.Atom {
    var v := match t.field
      case PriceField => r.priceCents
      case CapacityField => r.capacity;
    Ordering.Num(if t.descending then -v else v)
  }

  /** The sort key a list of ordering terms gives a room; none means the default order. */
  function RoomKey(terms: seq<OrderTerm>, r: Room): Ordering.SortKey {
    if |terms| == 0 then DefaultRoomKey(r)
    else seq(|terms|, i requires 0 <= i < |terms| => TermAtom(terms[i], r))
  }

  function RoomOrder(terms: seq<OrderTerm>): Room -> Ordering.SortKey {
    (r: Room) => RoomKey(terms, r)
  }

  /** Ordering by `-Стоимость` lists dearer rooms first; by `Стоимость`, cheaper first. */
  lemma PriceOrderMeaning(a: Room, b: Room)
    ensures Ordering.KeyLe(RoomKey([OrderTerm(PriceField, false)], a), RoomKey([OrderTerm(PriceField, false)], b))
            <==> a.priceCents <= b.priceCents
    ensures Ordering.KeyLe(RoomKey([OrderTerm(PriceField, true)], a), RoomKey([OrderTerm(PriceField, true)], b))
            <==> a.priceCents >= b.priceCents
  {
    var asc, desc := [OrderTerm(PriceField, false)], [OrderTerm(PriceField, true)];
    var ka, kb := RoomKey(asc, a), RoomKey(asc, b);
    assert ka == [Ordering.Num(a.priceCents)] && kb == [Ordering.Num(b.priceCents)];
    assert Ordering.KeyLe(ka[1..], kb[1..]);
    var da, db := RoomKey(desc, a), RoomKey(desc, b);
    assert da == [Ordering.Num(-a.priceCents)] && db == [Ordering.Num(-b.priceCents)];
    assert Ordering.KeyLe(da[1..], db[1..]);
  }

  // ---------------------------------------------------------------------
  // The filter set
  // ---------------------------------------------------------------------

  /** Query parameters of the room listing; an absent or empty parameter is `None`. */
  datatype RoomQuery = RoomQuery(
    price: Option<int>,
    priceGte: Option<int>,
    priceLte: Option<int>,
    capacity: Option<int>,
    capacityGte: Option<int>,
    capacityLte: Option<int>,
    startDate: Option<Day>,
    endDate: Option<Day>,
    ordering: seq<string>
  )

  /** The six column filters, combined as a conjunction. */
  predicate MatchesFields(q: RoomQuery, r: Room) {
    && (q.price.None? || r.priceCents == q.price.value)
    && (q.priceGte.None? || r.priceCents >= q.priceGte.value)
    && (q.priceLte.None? || r.priceCents <= q.priceLte.value)
    && (q.capacity.None? || r.capacity == q.capacity.value)
    && (q.capacityGte.None? || r.capacity >= q.capacityGte.value)
    && (q.capacityLte.None? || r.capacity <= q.capacityLte.value)
  }

  /** Room `id` has a booking, of any status, ending on or before day `d`. */
  predicate HasBookingEndingBy(ledger: seq<Booking>, id: RoomId, d: Day) {
    exists i | 0 <= i < |ledger| :: ledger[i].room == id && ledger[i].end <= d
  }

  /** Room `id` has a booking, of any status, starting on or after day `d`. */
  predicate HasBookingStartingFrom(ledger: seq<Booking>, id: RoomId, d: Day) {
    exists i | 0 <= i < |ledger| :: ledger[i].room == id && ledger[i].start >= d
  }

  /** The single-date filters, each a separate condition on the room's bookings. */
  predicate MatchesDates(q: RoomQuery, ledger: seq<Booking>, r: Room) {
    && (q.startDate.None? || HasBookingEndingBy(ledger, r.id, q.startDate.value))
    && (q.endDate.None? || HasBookingStartingFrom(ledger, r.id, q.endDate.value))
  }

  function MatchesFilterSet(q: RoomQuery, ledger: seq<Booking>): Room -> bool {
    (r: Room) => MatchesFields(q, r) && MatchesDates(q, ledger, r)
  }

  /**
   The filter set accepts a request when every `ordering` value is known and
   an exact `capacity` is one of the declared choices; the range filters take
   any number.
   */
  predicate ValidQuery(q: RoomQuery) {
    ParseOrdering(q.ordering).Some? && (q.capacity.None? || ValidCapacity(q.capacity.value))
  }

  /** Result of a listing request: the rooms, or a refusal of the query parameters. */
  datatype Listing = Listed(rooms: seq<Room>) | Refused

  /** The filter set alone: matching rooms, in the requested or the default order. */
  function FilterRooms(rooms: seq<Room>, ledger: seq<Booking>, q: RoomQuery): (r: Listing)
    ensures r.Refused? <==> ParseOrdering(q.ordering).None? || (q.capacity.Some? && q.capacity.value !in CapacityChoices)
    ensures r.Listed? ==>
              && (forall x :: x in r.rooms <==> x in rooms && MatchesFields(q, x) && MatchesDates(q, ledger, x))
              && (forall x :: multiset(r.rooms)[x]
                               == if MatchesFields(q, x) && MatchesDates(q, ledger, x) then multiset(rooms)[x] else 0)
              && Ordering.SortedBy(r.rooms, RoomOrder(ParseOrdering(q.ordering).value))
  {
    if !ValidQuery(q) then Refused
    else
      var terms := ParseOrdering(q.ordering).value;
      var kept := Seqs.Filter(rooms, MatchesFilterSet(q, ledger));
      var sorted := Ordering.SortBy(kept, RoomOrder(terms));
      assert forall x :: x in sorted <==> x in multiset(kept);
      Listed(sorted)
  }

  // ---------------------------------------------------------------------
  // The list view
  // ---------------------------------------------------------------------

  function Free(ledger: seq<Booking>, s: Day, e: Day): Room -> bool {
    (r: Room) => !HasConflict(ledger, r.id, s, e)
  }

  /** The rooms of the catalogue that `keep` accepts, in the default order. */
  function DefaultOrdered(rooms: seq<Room>, keep: Room -> bool): (r: seq<Room>)
    ensures forall x :: x in r <==> x in rooms && keep(x)
    ensures forall x :: multiset(r)[x] == if keep(x) then multiset(rooms)[x] else 0
    ensures Ordering.SortedBy(r, DefaultRoomOrder())
  {
    var kept := Seqs.Filter(rooms, keep);
    var sorted := Ordering.SortBy(kept, DefaultRoomOrder());
    assert forall x :: x in sorted <==> x in multiset(kept);
    sorted
  }

  /**
   The listing, with the exclusion query read as intended. The filter set
   runs first, so an invalid query is refused; when both dates are given its
   result is replaced by every room that no single booked or confirmed
   booking occupies during `[start, end]`, in the default order.
   */
  function ListRooms(rooms: seq<Room>, ledger: seq<Booking>, q: RoomQuery): (r: Listing)
    ensures r.Refused? <==> ParseOrdering(q.ordering).None? || (q.capacity.Some? && q.capacity.value !in CapacityChoices)
    ensures r.Listed? && q.startDate.Some? && q.endDate.Some? ==>
              var s, e := q.startDate.value, q.endDate.value;
              && (forall x :: x in r.rooms <==> x in rooms && !Occupied(ledger, x.id, s, e))
              && (forall x :: multiset(r.rooms)[x] == if Occupied(ledger, x.id, s, e) then 0 else multiset(rooms)[x])
              && Ordering.SortedBy(r.rooms, DefaultRoomOrder())
    ensures r.Listed? && !(q.startDate.Some? && q.endDate.Some?) ==>
              && (forall x :: x in r.rooms <==> x in rooms && MatchesFields(q, x) && MatchesDates(q, ledger, x))
              && (forall x :: multiset(r.rooms)[x]
                               == if MatchesFields(q, x) && MatchesDates(q, ledger, x) then multiset(rooms)[x] else 0)
              && Ordering.SortedBy(r.rooms, RoomOrder(ParseOrdering(q.ordering).value))
  {
    var filtered := FilterRooms(rooms, ledger, q);
    if filtered.Refused? then Refused
    else if q.startDate.Some? && q.endDate.Some? then
      Listed(DefaultOrdered(rooms, Free(ledger, q.startDate.value, q.endDate.value)))
    else filtered
  }

  /** With both dates given, the price, capacity and ordering filters make no difference. */
  lemma WindowIgnoresFieldFilters(rooms: seq<Room>, ledger: seq<Booking>, q1: RoomQuery, q2: RoomQuery)
    requires q1.startDate.Some? && q1.endDate.Some?
    requires q2.startDate == q1.startDate && q2.endDate == q1.endDate
    requires ValidQuery(q1) && ValidQuery(q2)
    ensures ListRooms(rooms, ledger, q1) == ListRooms(rooms, ledger, q2)
  {
  }

  /** Only one of the two dates leaves the date window out. */
  lemma PartialWindowIsFilterSet(rooms: seq<Room>, ledger: seq<Booking>, q: RoomQuery)
    requires q.startDate.None? || q.endDate.None?
    ensures ListRooms(rooms, ledger, q) == FilterRooms(rooms, ledger, q)
  {
  }

  /**
   A room is listed for a window exactly when reserving it for that window
   would not be refused as unavailable.
   */
  lemma ListingAgreesWithCreate(rooms: seq<Room>, ledger: seq<Booking>, q: RoomQuery,
                                x: Room, user: UserId, newId: BookingId)
    requires q.startDate.Some? && q.endDate.Some? && q.startDate.value <= q.endDate.value
    requires ValidQuery(q)
    requires x in rooms
    ensures x in ListRooms(rooms, ledger, q).rooms
            <==> Bookings.Create(ledger, rooms, user, x.id, q.startDate.value, q.endDate.value, newId).outcome.Created?
  {
    var k :| 0 <= k < |rooms| && rooms[k] == x;
    assert HasRoom(rooms, x.id);
  }

  // ---------------------------------------------------------------------
  // The exclusion query as written
  // ---------------------------------------------------------------------

  /**
   The rooms the list view excludes, as its query reads: the overlap test
   and the status test are two successive filters across the reverse
   relation from room to booking, and the database evaluates each against
   any booking of the room, not necessarily the same one.
   */
  predicate ExcludedAsWritten(ledger: seq<Booking>, id: RoomId, s: Day, e: Day) {
    && (exists i | 0 <= i < |ledger| :: ledger[i].room == id && Overlaps(ledger[i].start, ledger[i].end, s, e))
    && (exists j | 0 <= j < |ledger| :: ledger[j].room == id && IsActive(ledger[j].status))
  }

  /** Every occupied room is excluded as written, so the defect never lists a taken room. */
  lemma OccupiedIsExcludedAsWritten(ledger: seq<Booking>, id: RoomId, s: Day, e: Day)
    requires Occupied(ledger, id, s, e)
    ensures ExcludedAsWritten(ledger, id, s, e)
  {
    var i :| 0 <= i < |ledger| && Blocks(ledger[i], id, s, e);
  }

  function NotExcludedAsWritten(ledger: seq<Booking>, s: Day, e: Day): Room -> bool {
    (r: Room) => !ExcludedAsWritten(ledger, r.id, s, e)
  }

  /**
   The listing as the list view computes it: the same as `ListRooms` except
   that, with both dates given, the rooms kept are those the exclusion query
   as written does not exclude.
   */
  function ListRoomsAsWritten(rooms: seq<Room>, ledger: seq<Booking>, q: RoomQuery): (r: Listing)
    ensures r.Refused? <==> ParseOrdering(q.ordering).None? || (q.capacity.Some? && q.capacity.value !in CapacityChoices)
    ensures r.Listed? && q.startDate.Some? && q.endDate.Some? ==>
              var s, e := q.startDate.value, q.endDate.value;
              && (forall x :: x in r.rooms <==> x in rooms && !ExcludedAsWritten(ledger, x.id, s, e))
              && (forall x :: multiset(r.rooms)[x]
                               == if ExcludedAsWritten(ledger, x.id, s, e) then 0 else multiset(rooms)[x])
              && Ordering.SortedBy(r.rooms, DefaultRoomOrder())
    ensures !(q.startDate.Some? && q.endDate.Some?) ==> r == ListRooms(rooms, ledger, q)
  {
    var filtered := FilterRooms(rooms, ledger, q);
    if filtered.Refused? then Refused
    else if q.startDate.Some? && q.endDate.Some? then
      Listed(DefaultOrdered(rooms, NotExcludedAsWritten(ledger, q.startDate.value, q.endDate.value)))
    else filtered
  }

  /**
   The two listings refuse the same queries, and the query as written never
   lists a room the corrected query would hide.
   */
  lemma AsWrittenListsNoTakenRoom(rooms: seq<Room>, ledger: seq<Booking>, q: RoomQuery)
    ensures var w, c := ListRoomsAsWritten(rooms, ledger, q), ListRooms(rooms, ledger, q);
            && (w.Refused? <==> c.Refused?)
            && (w.Listed? ==> forall x | x in w.rooms :: x in c.rooms)
  {
    var w, c := ListRoomsAsWritten(rooms, ledger, q), ListRooms(rooms, ledger, q);
    if w.Listed? && q.startDate.Some? && q.endDate.Some? {
      var s, e := q.startDate.value, q.endDate.value;
      forall x | x in w.rooms
        ensures x in c.rooms
      {
        if Occupied(ledger, x.id, s, e) {
          OccupiedIsExcludedAsWritten(ledger, x.id, s, e);
        }
      }
    }
  }

  /**
   A room with a cancelled booking over the window and an active booking
   outside it: the query as written hides the room, yet reserving it for
   that window succeeds.
   */
  lemma AsWrittenHidesBookableRoom()
    ensures var ledger := [Booking(1, 7, 1, 1, 5, Some(Cancelled)), Booking(2, 7, 1, 10, 12, Some(Booked))];
            var rooms := [NewRoom(7, "Sea view", 10000, 2, Some(Standard), "")];
            var q := RoomQuery(None, None, None, None, None, None, Some(2), Some(3), []);
            && ExcludedAsWritten(ledger, 7, 2, 3)
            && !Occupied(ledger, 7, 2, 3)
            && Bookings.Create(ledger, rooms, 2, 7, 2, 3, 3).outcome.Created?
            && rooms[0] !in ListRoomsAsWritten(rooms, ledger, q).rooms
            && rooms[0] in ListRooms(rooms, ledger, q).rooms
  {
    var ledger := [Booking(1, 7, 1, 1, 5, Some(Cancelled)), Booking(2, 7, 1, 10, 12, Some(Booked))];
    var rooms := [NewRoom(7, "Sea view", 10000, 2, Some(Standard), "")];
    assert ledger[0].room == 7 && Overlaps(ledger[0].start, ledger[0].end, 2, 3);
    assert ledger[1].room == 7 && IsActive(ledger[1].status);
    assert rooms[0].id == 7;
  }
}
