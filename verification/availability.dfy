/**
 Whether a room is taken for a closed range of days. A booking occupies its
 room from its start day through its end day, both included, while its
 status is `booked` or `confirmed`; a cancelled booking, or one whose status
 is null, never occupies anything.
 */
module Availability {
  import opened Models

  /** The statuses that hold a room. */
  predicate IsActive(status: Option<Status>) {
    status == Some(Booked) || status == Some(Confirmed)
  }

  /** Closed ranges `[s1, e1]` and `[s2, e2]` overlap. */
  predicate Overlaps(s1: Day, e1: Day, s2: Day, e2: Day) {
    s1 <= e2 && e1 >= s2
  }

  predicate InRange(d: Day, s: Day, e: Day) {
    s <= d <= e
  }

  /** Booking `b` holds room `roomId` on some day of `[s, e]`. */
  predicate Blocks(b: Booking, roomId: RoomId, s: Day, e: Day) {
    b.room == roomId && IsActive(b.status) && Overlaps(b.start, b.end, s, e)
  }

  /** Some booking of the ledger holds room `roomId` during `[s, e]`. */
  predicate Occupied(ledger: seq<Booking>, roomId: RoomId, s: Day, e: Day) {
    exists i | 0 <= i < |ledger| :: Blocks(ledger[i], roomId, s, e)
  }

  /** The conflict query: a scan of the ledger for a blocking booking. */
  function HasConflict(ledger: seq<Booking>, roomId: RoomId, s: Day, e: Day): (r: bool)
    ensures r <==> Occupied(ledger, roomId, s, e)
    decreases |ledger|
  {
    if |ledger| == 0 then false
    else if Blocks(ledger[0], roomId, s, e) then true
    else
      var rest := HasConflict(ledger[1..], roomId, s, e);
      assert forall i | 1 <= i < |ledger| :: ledger[i] == ledger[1..][i - 1];
      rest
  }

  /** Two non-empty closed ranges overlap exactly when they share a day. */
  lemma OverlapsIffCommonDay(s1: Day, e1: Day, s2: Day, e2: Day)
    requires s1 <= e1 && s2 <= e2
    ensures Overlaps(s1, e1, s2, e2) <==> exists d :: InRange(d, s1, e1) && InRange(d, s2, e2)
  {
    if Overlaps(s1, e1, s2, e2) {
      var d := if s1 < s2 then s2 else s1;
      assert InRange(d, s1, e1) && InRange(d, s2, e2);
    }
  }

  /** Ranges are closed: a stay ending on day `d` blocks one starting on `d`. */
  lemma SharedBoundaryDayBlocks(b: Booking, e: Day)
    requires IsActive(b.status) && b.start <= b.end <= e
    ensures Blocks(b, b.room, b.end, e)
    ensures Occupied([b], b.room, b.end, e)
  {
    assert Blocks([b][0], b.room, b.end, e);
  }

  /**
   A cancelled or null-status booking never blocks: inserting it anywhere in
   a ledger changes no room's occupancy.
   */
  lemma {:induction false} InactiveNeverBlocks(l1: seq<Booking>, b: Booking, l2: seq<Booking>,
                                               roomId: RoomId, s: Day, e: Day)
    requires !IsActive(b.status)
    ensures Occupied(l1 + [b] + l2, roomId, s, e) <==> Occupied(l1 + l2, roomId, s, e)
  {
    var with, without := l1 + [b] + l2, l1 + l2;
    if Occupied(with, roomId, s, e) {
      var i :| 0 <= i < |with| && Blocks(with[i], roomId, s, e);
      var j := if i < |l1| then i else i - 1;
      assert i != |l1|;
      assert without[j] == with[i];
    }
    if Occupied(without, roomId, s, e) {
      var j :| 0 <= j < |without| && Blocks(without[j], roomId, s, e);
      var i := if j < |l1| then j else j + 1;
      assert with[i] == without[j];
    }
  }

  /** Appending a booking can only make more rooms occupied. */
  lemma OccupiedAppend(ledger: seq<Booking>, b: Booking, roomId: RoomId, s: Day, e: Day)
    ensures Occupied(ledger + [b], roomId, s, e) <==> Occupied(ledger, roomId, s, e) || Blocks(b, roomId, s, e)
  {
    var l := ledger + [b];
    if Occupied(ledger, roomId, s, e) {
      var i :| 0 <= i < |ledger| && Blocks(ledger[i], roomId, s, e);
      assert l[i] == ledger[i];
    }
    if Blocks(b, roomId, s, e) {
      assert l[|ledger|] == b;
    }
  }
}
