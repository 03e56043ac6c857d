/**
 Concrete request sequences against a two-room hotel. Days are counted from
 1970-01-01, so 2024-06-01 is day 19875.
 */
module Scenarios {
  import opened Models
  import opened Availability
  import opened Bookings
  import opened Listing

  const June1: Day := 19875
  const June3: Day := 19877
  const June4: Day := 19878
  const June5: Day := 19879
  const June6: Day := 19880
  const June10: Day := 19884

  function Catalogue(): seq<Room> {
    [NewRoom(1, "Garden", 9900, 2, Some(Economy), ""), NewRoom(2, "Sea", 15000, 3, Some(Luxe), "")]
  }

  /** Room 1 is booked from June 1 through June 5. */
  function JuneLedger(): seq<Booking> {
    [Booking(10, 1, 100, June1, June5, Some(Booked))]
  }

  function NoFilters(): RoomQuery {
    RoomQuery(None, None, None, None, None, None, None, None, [])
  }

  /** A stay inside the booked days is refused; the days after are free. */
  lemma OverlappingRequestRefused()
    ensures Create(JuneLedger(), Catalogue(), 200, 1, June3, June4, 11) == Step(RoomUnavailable, JuneLedger())
    ensures Create(JuneLedger(), Catalogue(), 200, 1, June6, June10, 11).outcome.Created?
    ensures Create(JuneLedger(), Catalogue(), 200, 1, June5, June10, 11) == Step(RoomUnavailable, JuneLedger())
  {
    assert Blocks(JuneLedger()[0], 1, June3, June4);
    assert Blocks(JuneLedger()[0], 1, June5, June10);
    assert Catalogue()[0].id == 1;
  }

  /** Reversed dates are refused before the room is looked up, even for an unknown room. */
  lemma ReversedDatesRefusedFirst()
    ensures Create(JuneLedger(), Catalogue(), 200, 99, June4, June3, 11) == Step(InvalidRange, JuneLedger())
    ensures Create(JuneLedger(), Catalogue(), 200, 99, June4, June4, 11) == Step(RoomNotFound, JuneLedger())
  {
    assert forall i | 0 <= i < |Catalogue()| :: Catalogue()[i].id != 99;
  }

  /** The window June 3 to June 4 lists room 2 only. */
  lemma WindowListsFreeRoomsOnly()
    ensures ListRooms(Catalogue(), JuneLedger(), NoFilters().(startDate := Some(June3), endDate := Some(June4)))
            == Listed([Catalogue()[1]])
  {
    var q := NoFilters().(startDate := Some(June3), endDate := Some(June4));
    assert ParseOrdering(q.ordering) == Some([]);
    assert ListRooms(Catalogue(), JuneLedger(), q).Listed?;
    var r := ListRooms(Catalogue(), JuneLedger(), q).rooms;
    assert Blocks(JuneLedger()[0], 1, June3, June4);
    assert !Occupied(JuneLedger(), 2, June3, June4);
    assert Catalogue()[0] != Catalogue()[1];
    assert multiset(r)[Catalogue()[1]] == 1;
    assert forall x | x != Catalogue()[1] :: multiset(r)[x] == 0;
    assert multiset(r) == multiset{Catalogue()[1]};
    assert |r| == 1;
    assert r[0] in multiset(r);
  }

  /** `start_date` alone keeps only rooms with a booking ending by that day. */
  lemma StartDateAloneDropsUnbookedRooms()
    ensures ListRooms(Catalogue(), JuneLedger(), NoFilters().(startDate := Some(June6)))
            == Listed([Catalogue()[0]])
  {
    var q := NoFilters().(startDate := Some(June6));
    assert ParseOrdering(q.ordering) == Some([]);
    assert ListRooms(Catalogue(), JuneLedger(), q).Listed?;
    var r := ListRooms(Catalogue(), JuneLedger(), q).rooms;
    assert HasBookingEndingBy(JuneLedger(), 1, June6) by {
      assert JuneLedger()[0].room == 1 && JuneLedger()[0].end <= June6;
    }
    assert !MatchesDates(q, JuneLedger(), Catalogue()[1]);
    assert MatchesFields(q, Catalogue()[0]) && MatchesDates(q, JuneLedger(), Catalogue()[0]);
    assert multiset(Catalogue())[Catalogue()[0]] == 1;
    assert multiset(r)[Catalogue()[0]] == 1;
    assert Catalogue()[1] !in r;
    assert forall x | x in r :: x == Catalogue()[0];
    assert multiset(r) == multiset{Catalogue()[0]};
    assert |r| == 1;
    assert r[0] in multiset(r);
  }

  /**
   An exact capacity outside the choices and a model field name as ordering
   are refused; a capacity bound past every room only empties the list.
   */
  lemma InvalidQueriesRefused()
    ensures ListRooms(Catalogue(), JuneLedger(), NoFilters().(capacity := Some(8))) == Refused
    ensures ListRooms(Catalogue(), JuneLedger(), NoFilters().(ordering := ["price"])) == Refused
    ensures ListRooms(Catalogue(), JuneLedger(), NoFilters().(ordering := ["-Стоимость"])).Listed?
    ensures ListRooms(Catalogue(), JuneLedger(), NoFilters().(capacityGte := Some(8))) == Listed([])
  {
    assert 8 !in CapacityChoices;
    assert ParseOrderTerm("price").None?;
    assert ParseOrdering(["price"]).None?;
    assert ParseOrderTerm("-Стоимость") == Some(OrderTerm(PriceField, true));
    assert ParseOrdering(["-Стоимость"]).Some?;
    assert ParseOrdering([]) == Some([]);
    var unfit := ListRooms(Catalogue(), JuneLedger(), NoFilters().(capacityGte := Some(8))).rooms;
    assert forall x | x in Catalogue() :: x.capacity < 8;
  }

  /** The owner cancels once; the second attempt is refused; a stranger sees nothing. */
  lemma CancelOnceThenRefused()
    ensures Cancel(JuneLedger(), 100, false, 10).outcome == CancelDone
    ensures Cancel(Cancel(JuneLedger(), 100, false, 10).ledger, 100, false, 10).outcome == AlreadyCancelled
    ensures Cancel(JuneLedger(), 200, false, 10) == Step(NotFound, JuneLedger())
  {
    assert IsTarget(JuneLedger(), 100, false, 10, 0);
    CancelTwiceRefused(JuneLedger(), 100, false, 10);
  }
}
