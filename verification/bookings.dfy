/**
 The booking rules: reserving a room, cancelling a booking and listing the
 caller's bookings. Every operation takes the current ledger and returns a
 result tag together with the ledger after the request; a refused request
 returns the ledger it was given.
 */
module Bookings {
  import opened Models
  import opened Availability
  import Seqs
  import Ordering

  /** A request's result and the ledger it leaves behind. */
  datatype Step<O> = Step(outcome: O, ledger: seq<Booking>)

  datatype CreateOutcome =
    | Created(booking: Booking)
    | InvalidRange       // start date after end date
    | RoomNotFound
    | RoomUnavailable    // an active booking overlaps the requested days

  datatype CancelOutcome =
    | CancelDone
    | NotFound           // no such booking, or not the caller's
    | AlreadyCancelled
    | Immutable          // confirmed bookings cannot change

  // ---------------------------------------------------------------------
  // Reserving a room
  // ---------------------------------------------------------------------

  /**
   Reserves room `roomId` for `user` on days `[s, e]`. The checks run in
   order: the date range, then the room lookup, then the overlap query.
   `newId` is the id the database assigns to the inserted row.
   */
  function Create(ledger: seq<Booking>, rooms: seq<Room>, user: UserId, roomId: RoomId,
                  s: Day, e: Day, newId: BookingId): (r: Step<CreateOutcome>)
    ensures s > e ==> r == Step(InvalidRange, ledger)
    ensures s <= e && !HasRoom(rooms, roomId) ==> r == Step(RoomNotFound, ledger)
    ensures s <= e && HasRoom(rooms, roomId) && Occupied(ledger, roomId, s, e)
            ==> r == Step(RoomUnavailable, ledger)
    ensures r.outcome.Created? <==> s <= e && HasRoom(rooms, roomId) && !Occupied(ledger, roomId, s, e)
    ensures r.outcome.Created? ==>
              && r.outcome.booking == Booking(newId, roomId, user, s, e, Some(Booked))
              && r.ledger == ledger + [r.outcome.booking]
    ensures !r.outcome.Created? ==> r.ledger == ledger
  {
    if s > e then Step(InvalidRange, ledger)
    else if FirstRoomIndex(rooms, roomId) == |rooms| then Step(RoomNotFound, ledger)
    else if HasConflict(ledger, roomId, s, e) then Step(RoomUnavailable, ledger)
    else
      var b := NewBooking(newId, roomId, user, s, e);
      Step(Created(b), ledger + [b])
  }

  /** No two active bookings of the same room share a day. */
  predicate NoDoubleBooking(ledger: seq<Booking>) {
    forall i, j | 0 <= i < j < |ledger| ::
      !(ledger[i].room == ledger[j].room && IsActive(ledger[i].status) && IsActive(ledger[j].status)
        && Overlaps(ledger[i].start, ledger[i].end, ledger[j].start, ledger[j].end))
  }

  /** Requests handled one after another never double-book a room. */
  lemma CreateKeepsNoDoubleBooking(ledger: seq<Booking>, rooms: seq<Room>, user: UserId,
                                   roomId: RoomId, s: Day, e: Day, newId: BookingId)
    requires NoDoubleBooking(ledger)
    ensures NoDoubleBooking(Create(ledger, rooms, user, roomId, s, e, newId).ledger)
  {
    var r := Create(ledger, rooms, user, roomId, s, e, newId);
    if r.outcome.Created? {
      var l := r.ledger;
      var b := r.outcome.booking;
      forall i, j | 0 <= i < j < |l|
        ensures !(l[i].room == l[j].room && IsActive(l[i].status) && IsActive(l[j].status)
                  && Overlaps(l[i].start, l[i].end, l[j].start, l[j].end))
      {
        if j == |ledger| {
          assert l[i] == ledger[i] && l[j] == b;
          assert !Blocks(ledger[i], roomId, s, e);
        } else {
          assert l[i] == ledger[i] && l[j] == ledger[j];
        }
      }
    }
  }

  /** Once a reservation succeeds, the same request again is refused as unavailable. */
  lemma CreateTwiceRefused(ledger: seq<Booking>, rooms: seq<Room>, u1: UserId, u2: UserId,
                           roomId: RoomId, s: Day, e: Day, id1: BookingId, id2: BookingId)
    requires Create(ledger, rooms, u1, roomId, s, e, id1).outcome.Created?
    ensures var l := Create(ledger, rooms, u1, roomId, s, e, id1).ledger;
            Create(l, rooms, u2, roomId, s, e, id2) == Step(RoomUnavailable, l)
  {
    var r := Create(ledger, rooms, u1, roomId, s, e, id1);
    OccupiedAppend(ledger, r.outcome.booking, roomId, s, e);
  }

  /** With a fresh id from the database, booking ids stay unique. */
  lemma CreateKeepsUniqueIds(ledger: seq<Booking>, rooms: seq<Room>, user: UserId,
                             roomId: RoomId, s: Day, e: Day, newId: BookingId)
    requires UniqueBookingIds(ledger)
    requires forall i | 0 <= i < |ledger| :: ledger[i].id != newId
    ensures UniqueBookingIds(Create(ledger, rooms, user, roomId, s, e, newId).ledger)
  {
  }

  /** A created booking names a room of the catalogue. */
  lemma CreateKeepsRefsValid(ledger: seq<Booking>, rooms: seq<Room>, user: UserId,
                             roomId: RoomId, s: Day, e: Day, newId: BookingId)
    requires RoomRefsValid(rooms, ledger)
    ensures RoomRefsValid(rooms, Create(ledger, rooms, user, roomId, s, e, newId).ledger)
  {
    var l := Create(ledger, rooms, user, roomId, s, e, newId).ledger;
    forall i | 0 <= i < |l|
      ensures HasRoom(rooms, l[i].room)
    {
      if i < |ledger| {
        assert l[i] == ledger[i];
      }
    }
  }

  // ---------------------------------------------------------------------
  // Cancelling a booking
  // ---------------------------------------------------------------------

  /** A superuser sees every booking; anyone else only their own. */
  predicate Visible(b: Booking, actor: UserId, isSuperuser: bool) {
    isSuperuser || b.user == actor
  }

  predicate Matches(b: Booking, actor: UserId, isSuperuser: bool, id: BookingId) {
    b.id == id && Visible(b, actor, isSuperuser)
  }

  /** Index `i` holds the booking the lookup returns. */
  predicate IsTarget(ledger: seq<Booking>, actor: UserId, isSuperuser: bool, id: BookingId, i: int) {
    && 0 <= i < |ledger|
    && Matches(ledger[i], actor, isSuperuser, id)
    && forall j | 0 <= j < i :: !Matches(ledger[j], actor, isSuperuser, id)
  }

  /** The privilege-dependent lookup of booking `id`. */
  function Lookup(ledger: seq<Booking>, actor: UserId, isSuperuser: bool, id: BookingId): (r: Option<nat>)
    ensures r.None? <==> forall i | 0 <= i < |ledger| :: !Matches(ledger[i], actor, isSuperuser, id)
    ensures r.Some? ==> IsTarget(ledger, actor, isSuperuser, id, r.value)
    decreases |ledger|
  {
    if |ledger| == 0 then None
    else if Matches(ledger[0], actor, isSuperuser, id) then Some(0)
    else
      var rest := Lookup(ledger[1..], actor, isSuperuser, id);
      assert forall i | 1 <= i < |ledger| :: ledger[i] == ledger[1..][i - 1];
      match rest
      case None => None
      case Some(k) => Some(k + 1)
  }

  /** The ledger with booking `i` marked cancelled. */
  function MarkCancelled(ledger: seq<Booking>, i: nat): seq<Booking>
    requires i < |ledger|
  {
    ledger[i := ledger[i].(status := Some(Cancelled))]
  }

  /**
   Cancels booking `id` on behalf of `actor`. A booking the actor may not
   see is reported exactly like a missing one.
   */
  function Cancel(ledger: seq<Booking>, actor: UserId, isSuperuser: bool, id: BookingId): (r: Step<CancelOutcome>)
    ensures (r.outcome == NotFound) <==> forall i | 0 <= i < |ledger| :: !Matches(ledger[i], actor, isSuperuser, id)
    ensures r.outcome != CancelDone ==> r.ledger == ledger
    ensures forall i | IsTarget(ledger, actor, isSuperuser, id, i) ::
              && (ledger[i].status == Some(Cancelled) ==> r.outcome == AlreadyCancelled)
              && (ledger[i].status == Some(Confirmed) ==> r.outcome == Immutable)
              && (ledger[i].status != Some(Cancelled) && ledger[i].status != Some(Confirmed)
                  ==> r.outcome == CancelDone && r.ledger == MarkCancelled(ledger, i))
  {
    match Lookup(ledger, actor, isSuperuser, id)
    case None => Step(NotFound, ledger)
    case Some(i) =>
      if ledger[i].status == Some(Cancelled) then Step(AlreadyCancelled, ledger)
      else if ledger[i].status == Some(Confirmed) then Step(Immutable, ledger)
      else Step(CancelDone, MarkCancelled(ledger, i))
  }

  /** At most one index is the lookup's target. */
  lemma TargetUnique(ledger: seq<Booking>, actor: UserId, isSuperuser: bool, id: BookingId, i: int, j: int)
    requires IsTarget(ledger, actor, isSuperuser, id, i) && IsTarget(ledger, actor, isSuperuser, id, j)
    ensures i == j
  {
  }

  /** A successful cancel changes the status of that one booking and nothing else. */
  lemma CancelFrame(ledger: seq<Booking>, actor: UserId, isSuperuser: bool, id: BookingId)
    requires Cancel(ledger, actor, isSuperuser, id).outcome == CancelDone
    ensures var l := Cancel(ledger, actor, isSuperuser, id).ledger;
            && |l| == |ledger|
            && exists i | 0 <= i < |ledger| ::
                 && ledger[i].id == id
                 && l[i] == ledger[i].(status := Some(Cancelled))
                 && forall j | 0 <= j < |ledger| && j != i :: l[j] == ledger[j]
  {
    var i := Lookup(ledger, actor, isSuperuser, id).value;
    assert IsTarget(ledger, actor, isSuperuser, id, i);
  }

  /** The lookup depends only on ids and owners, which a cancel leaves alone. */
  lemma LookupIgnoresStatus(ledger: seq<Booking>, ledger': seq<Booking>, actor: UserId, isSuperuser: bool, id: BookingId)
    requires |ledger| == |ledger'|
    requires forall k | 0 <= k < |ledger| :: ledger'[k].id == ledger[k].id && ledger'[k].user == ledger[k].user
    ensures Lookup(ledger', actor, isSuperuser, id) == Lookup(ledger, actor, isSuperuser, id)
  {
    var a, b := Lookup(ledger, actor, isSuperuser, id), Lookup(ledger', actor, isSuperuser, id);
    if a.Some? && b.Some? {
      TargetUnique(ledger, actor, isSuperuser, id, a.value, b.value);
    }
  }

  /** Cancelling the same booking a second time is refused as already cancelled. */
  lemma CancelTwiceRefused(ledger: seq<Booking>, actor: UserId, isSuperuser: bool, id: BookingId)
    requires Cancel(ledger, actor, isSuperuser, id).outcome == CancelDone
    ensures Cancel(Cancel(ledger, actor, isSuperuser, id).ledger, actor, isSuperuser, id)
            == Step(AlreadyCancelled, Cancel(ledger, actor, isSuperuser, id).ledger)
  {
    var l := Cancel(ledger, actor, isSuperuser, id).ledger;
    var i := Lookup(ledger, actor, isSuperuser, id).value;
    assert l == MarkCancelled(ledger, i);
    LookupIgnoresStatus(ledger, l, actor, isSuperuser, id);
  }

  /**
   With unique ids, another user's booking is invisible to an ordinary user,
   who gets the same answer as for a missing id, while a superuser reaches it.
   */
  lemma CancelPrivacy(ledger: seq<Booking>, k: nat, actor: UserId, missing: BookingId)
    requires UniqueBookingIds(ledger)
    requires k < |ledger| && ledger[k].user != actor
    requires forall i | 0 <= i < |ledger| :: ledger[i].id != missing
    ensures Cancel(ledger, actor, false, ledger[k].id) == Step(NotFound, ledger)
    ensures Cancel(ledger, actor, false, missing) == Step(NotFound, ledger)
    ensures Cancel(ledger, actor, true, ledger[k].id).outcome != NotFound
  {
    assert Matches(ledger[k], actor, true, ledger[k].id);
  }

  /** A confirmed booking is never cancelled, whoever asks. */
  lemma ConfirmedIsImmutable(ledger: seq<Booking>, k: nat, actor: UserId, isSuperuser: bool)
    requires UniqueBookingIds(ledger)
    requires k < |ledger| && ledger[k].status == Some(Confirmed)
    requires Visible(ledger[k], actor, isSuperuser)
    ensures Cancel(ledger, actor, isSuperuser, ledger[k].id) == Step(Immutable, ledger)
  {
    assert IsTarget(ledger, actor, isSuperuser, ledger[k].id, k);
  }

  /** A cancel only releases rooms, so it cannot create a double booking. */
  lemma CancelKeepsInvariants(ledger: seq<Booking>, rooms: seq<Room>, actor: UserId, isSuperuser: bool, id: BookingId)
    requires NoDoubleBooking(ledger) && UniqueBookingIds(ledger) && RoomRefsValid(rooms, ledger)
    ensures var l := Cancel(ledger, actor, isSuperuser, id).ledger;
            NoDoubleBooking(l) && UniqueBookingIds(l) && RoomRefsValid(rooms, l)
  {
    var r := Cancel(ledger, actor, isSuperuser, id);
    if r.outcome == CancelDone {
      var i := Lookup(ledger, actor, isSuperuser, id).value;
      var l := r.ledger;
      assert l == MarkCancelled(ledger, i);
      assert forall k | 0 <= k < |l| :: l[k].id == ledger[k].id && l[k].room == ledger[k].room;
      forall a, b | 0 <= a < b < |l|
        ensures !(l[a].room == l[b].room && IsActive(l[a].status) && IsActive(l[b].status)
                  && Overlaps(l[a].start, l[a].end, l[b].start, l[b].end))
      {
        assert a != i && b != i ==> l[a] == ledger[a] && l[b] == ledger[b];
      }
      forall k | 0 <= k < |l|
        ensures HasRoom(rooms, l[k].room)
      {
        assert HasRoom(rooms, ledger[k].room);
      }
    }
  }

  /** A user can cancel the booking they have just made. */
  lemma CreateThenCancel(ledger: seq<Booking>, rooms: seq<Room>, user: UserId,
                         roomId: RoomId, s: Day, e: Day, newId: BookingId)
    requires forall i | 0 <= i < |ledger| :: ledger[i].id != newId
    requires Create(ledger, rooms, user, roomId, s, e, newId).outcome.Created?
    ensures Cancel(Create(ledger, rooms, user, roomId, s, e, newId).ledger, user, false, newId).outcome == CancelDone
  {
    var l := Create(ledger, rooms, user, roomId, s, e, newId).ledger;
    assert IsTarget(l, user, false, newId, |ledger|);
  }

  // ---------------------------------------------------------------------
  // The caller's bookings
  // ---------------------------------------------------------------------

  function OwnedBy(user: UserId): Booking -> bool {
    (b: Booking) => b.user == user
  }

  /**
   The caller's bookings, in the ledger's default order: by room, which
   orders by the room's name and then its price.
   */
  function UserBookings(ledger: seq<Booking>, rooms: seq<Room>, user: UserId): (r: seq<Booking>)
    ensures forall b :: b in r <==> b in ledger && b.user == user
    ensures forall b :: multiset(r)[b] == if b.user == user then multiset(ledger)[b] else 0
    ensures Ordering.SortedBy(r, BookingOrder(rooms))
  {
    var mine := Seqs.Filter(ledger, OwnedBy(user));
    var r := Ordering.SortBy(mine, BookingOrder(rooms));
    assert forall b :: b in r <==> b in multiset(mine);
    r
  }
}
