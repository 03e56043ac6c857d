/**
 The two tables of the hotel: the room catalogue and the booking ledger.
 Field domains, defaults, default orderings, cascading deletes and the
 preview-path helper of `models.py`.

 Prices are integer cents; dates are day numbers (ISO `YYYY-MM-DD` text
 compares in the same order as the day it names); ids are the tables'
 integer primary keys.
 */
module Models {
  import Text
  import Seqs
  import Ordering

  datatype Option<T> = None | Some(value: T)

  type RoomId = int
  type UserId = int
  type BookingId = int
  type Day = int

  datatype RoomType = Luxe | Economy | Standard

  datatype Status = Booked | Cancelled | Confirmed

  /** A row of the room catalogue. `roomType` and `isPopular` are nullable. */
  datatype Room = Room(
    id: RoomId,
    name: string,
    priceCents: int,
    capacity: int,
    roomType: Option<RoomType>,
    description: string,
    isPopular: Option<bool>
  )

  /** A row of the booking ledger: one room, one user, a closed date range. */
  datatype Booking = Booking(
    id: BookingId,
    room: RoomId,
    user: UserId,
    start: Day,
    end: Day,
    status: Option<Status>
  )

  const MaxNameLength: nat := 100
  const MaxPriceDigits: nat := 8
  const PriceDecimalPlaces: nat := 2
  const MaxStatusLength: nat := 20

  /** The capacity choices, `range(1, 8)`. */
  const CapacityChoices: seq<int> := [1, 2, 3, 4, 5, 6, 7]

  const DefaultStatus: Option<Status> := Some(Booked)
  const DefaultIsPopular: Option<bool> := Some(false)

  // ---------------------------------------------------------------------
  // Field domains
  // ---------------------------------------------------------------------

  function Pow10(k: nat): (p: nat)
    ensures p >= 1
  {
    if k == 0 then 1 else 10 * Pow10(k - 1)
  }

  /** Number of decimal digits needed to write `n` (at least one). */
  function DigitCount(n: nat): (d: nat)
    ensures d >= 1
    decreases n
  {
    if n < 10 then 1 else 1 + DigitCount(n / 10)
  }

  /** Writing `n` takes at most `k` digits exactly when `n < 10^k`. */
  lemma {:induction false} DigitCountBound(n: nat, k: nat)
    requires k >= 1
    ensures DigitCount(n) <= k <==> n < Pow10(k)
    decreases n
  {
    if n >= 10 {
      if k == 1 {
        assert DigitCount(n) >= 2;
      } else {
        DigitCountBound(n / 10, k - 1);
      }
    }
  }

  /** A price of at most eight digits, two of them after the decimal point. */
  predicate ValidPrice(cents: int) {
    DigitCount(if cents < 0 then -cents else cents) <= MaxPriceDigits
  }

  /** The digit limit is the bound |price| < 1,000,000.00, i.e. 10^8 cents. */
  lemma ValidPriceRange(cents: int)
    ensures ValidPrice(cents) <==> -100_000_000 < cents < 100_000_000
  {
    DigitCountBound(if cents < 0 then -cents else cents, MaxPriceDigits);
    assert Pow10(MaxPriceDigits) == 100_000_000;
  }

  predicate ValidCapacity(c: int) {
    c in CapacityChoices
  }

  /** The capacity choices are exactly the integers 1 to 7. */
  lemma CapacityChoicesRange(c: int)
    ensures ValidCapacity(c) <==> 1 <= c <= 7
  {
    if 1 <= c <= 7 {
      assert CapacityChoices[c - 1] == c;
    }
  }

  /** The declared domain of a room row. */
  predicate ValidRoom(r: Room) {
    && |r.name| <= MaxNameLength
    && ValidPrice(r.priceCents)
    && ValidCapacity(r.capacity)
  }

  /** The stored text of a status choice. */
  function StatusName(s: Status): string {
    match s
    case Booked => "booked"
    case Cancelled => "cancelled"
    case Confirmed => "confirmed"
  }

  function ParseStatus(text: string): Option<Status> {
    if text == "booked" then Some(Booked)
    else if text == "cancelled" then Some(Cancelled)
    else if text == "confirmed" then Some(Confirmed)
    else None
  }

  /** The status column stores exactly the three choice texts, each within 20 characters. */
  lemma StatusNameRoundTrip(s: Status, text: string)
    ensures ParseStatus(StatusName(s)) == Some(s)
    ensures ParseStatus(text) == Some(s) ==> StatusName(s) == text
    ensures |StatusName(s)| <= MaxStatusLength
  {
  }

  function RoomTypeName(t: RoomType): string {
    match t
    case Luxe => "luxe"
    case Economy => "economy"
    case Standard => "standard"
  }

  function ParseRoomType(text: string): Option<RoomType> {
    if text == "luxe" then Some(Luxe)
    else if text == "economy" then Some(Economy)
    else if text == "standard" then Some(Standard)
    else None
  }

  /** The type column stores exactly the three choice texts. */
  lemma RoomTypeNameRoundTrip(t: RoomType, text: string)
    ensures ParseRoomType(RoomTypeName(t)) == Some(t)
    ensures ParseRoomType(text) == Some(t) ==> RoomTypeName(t) == text
  {
  }

  // ---------------------------------------------------------------------
  // Creating rows with their defaults
  // ---------------------------------------------------------------------

  /** A room created without an explicit popularity flag. */
  function NewRoom(id: RoomId, name: string, priceCents: int, capacity: int,
                   roomType: Option<RoomType>, description: string): (r: Room)
    ensures r.isPopular == Some(false)
    ensures r.id == id && r.name == name && r.priceCents == priceCents
    ensures r.capacity == capacity && r.roomType == roomType && r.description == description
    ensures (|name| <= MaxNameLength && -100_000_000 < priceCents < 100_000_000 && 1 <= capacity <= 7)
            ==> ValidRoom(r)
  {
    ValidPriceRange(priceCents);
    CapacityChoicesRange(capacity);
    Room(id, name, priceCents, capacity, roomType, description, DefaultIsPopular)
  }

  /** A booking created without an explicit status. */
  function NewBooking(id: BookingId, room: RoomId, user: UserId, start: Day, end: Day): Booking {
    Booking(id, room, user, start, end, DefaultStatus)
  }

  // ---------------------------------------------------------------------
  // Keys, references and cascading deletes
  // ---------------------------------------------------------------------

  predicate HasRoom(rooms: seq<Room>, id: RoomId) {
    exists i | 0 <= i < |rooms| :: rooms[i].id == id
  }

  predicate UniqueRoomIds(rooms: seq<Room>) {
    forall i, j | 0 <= i < j < |rooms| :: rooms[i].id != rooms[j].id
  }

  predicate UniqueBookingIds(ledger: seq<Booking>) {
    forall i, j | 0 <= i < j < |ledger| :: ledger[i].id != ledger[j].id
  }

  /** Every booking's room foreign key names a room of the catalogue. */
  predicate RoomRefsValid(rooms: seq<Room>, ledger: seq<Booking>) {
    forall i | 0 <= i < |ledger| :: HasRoom(rooms, ledger[i].room)
  }

  function RoomIdIsNot(id: RoomId): Room -> bool {
    (r: Room) => r.id != id
  }

  function BookingRoomIsNot(id: RoomId): Booking -> bool {
    (b: Booking) => b.room != id
  }

  function BookingUserIsNot(id: UserId): Booking -> bool {
    (b: Booking) => b.user != id
  }

  /** Deleting a room deletes every booking of that room and nothing else. */
  function DeleteRoom(rooms: seq<Room>, ledger: seq<Booking>, id: RoomId): (r: (seq<Room>, seq<Booking>))
    ensures forall x :: x in r.0 <==> x in rooms && x.id != id
    ensures forall b :: b in r.1 <==> b in ledger && b.room != id
    ensures forall b :: multiset(r.1)[b] == if b.room != id then multiset(ledger)[b] else 0
    ensures !HasRoom(r.0, id)
  {
    (Seqs.Filter(rooms, RoomIdIsNot(id)), Seqs.Filter(ledger, BookingRoomIsNot(id)))
  }

  /** Deleting a user deletes every booking of that user and nothing else. */
  function DeleteUser(ledger: seq<Booking>, id: UserId): (r: seq<Booking>)
    ensures forall b :: b in r <==> b in ledger && b.user != id
    ensures forall b :: multiset(r)[b] == if b.user != id then multiset(ledger)[b] else 0
  {
    Seqs.Filter(ledger, BookingUserIsNot(id))
  }

  /** After a room's cascade no booking refers to a missing room. */
  lemma DeleteRoomKeepsRefsValid(rooms: seq<Room>, ledger: seq<Booking>, id: RoomId)
    requires RoomRefsValid(rooms, ledger)
    ensures RoomRefsValid(DeleteRoom(rooms, ledger, id).0, DeleteRoom(rooms, ledger, id).1)
  {
    var (rooms', ledger') := DeleteRoom(rooms, ledger, id);
    forall i | 0 <= i < |ledger'|
      ensures HasRoom(rooms', ledger'[i].room)
    {
      var b := ledger'[i];
      assert b in ledger;
      var k :| 0 <= k < |ledger| && ledger[k] == b;
      var j :| 0 <= j < |rooms| && rooms[j].id == b.room;
      assert rooms[j] in rooms';
      var m :| 0 <= m < |rooms'| && rooms'[m] == rooms[j];
    }
  }

  /** The default room ordering: by name, then by price. */
  function DefaultRoomKey(r: Room): (k: Ordering.SortKey)
    ensures |k| == 2 && k[0] == Ordering.Txt(r.name) && k[1] == Ordering.Num(r.priceCents)
  {
    [Ordering.Txt(r.name), Ordering.Num(r.priceCents)]
  }

  function DefaultRoomOrder(): Room -> Ordering.SortKey {
    DefaultRoomKey
  }

  /** Two rooms in default order: names ascending, equal names by price ascending. */
  lemma DefaultRoomOrderMeaning(a: Room, b: Room)
    ensures Ordering.KeyLe(DefaultRoomKey(a), DefaultRoomKey(b))
            <==> (a.name != b.name && Text.TextLe(a.name, b.name))
                 || (a.name == b.name && a.priceCents <= b.priceCents)
  {
    var ka, kb := DefaultRoomKey(a), DefaultRoomKey(b);
    var pa, pb := ka[1..], kb[1..];
    assert pa == [Ordering.Num(a.priceCents)] && pb == [Ordering.Num(b.priceCents)];
    assert Ordering.KeyLe(pa, pb) <==> a.priceCents <= b.priceCents by {
      assert Ordering.KeyLe(pa[1..], pb[1..]);
    }
    assert Ordering.AtomLe(ka[0], kb[0]) <==> Text.TextLe(a.name, b.name);
  }

  /** Bookings are ordered by their room, which orders by the room's own default key. */
  function BookingKey(rooms: seq<Room>, b: Booking): Ordering.SortKey {
    var i := FirstRoomIndex(rooms, b.room);
    if i < |rooms| then DefaultRoomKey(rooms[i]) else []
  }

  function BookingOrder(rooms: seq<Room>): Booking -> Ordering.SortKey {
    (b: Booking) => BookingKey(rooms, b)
  }

  /** Index of the first room with the given id, or `|rooms|` when none has it. */
  function FirstRoomIndex(rooms: seq<Room>, id: RoomId): (k: nat)
    ensures k <= |rooms|
    ensures k < |rooms| ==> rooms[k].id == id
    ensures k == |rooms| <==> !HasRoom(rooms, id)
    ensures forall j | 0 <= j < k :: rooms[j].id != id
    decreases |rooms|
  {
    if |rooms| == 0 then 0
    else if rooms[0].id == id then 0
    else 1 + FirstRoomIndex(rooms[1..], id)
  }

  // ---------------------------------------------------------------------
  // Upload path of a room preview
  // ---------------------------------------------------------------------

  const PreviewPrefix: string := "rooms/room_"
  const PreviewInfix: string := "/preview/"

  /** Python's rendering of a primary key; an unsaved instance has `None`. */
  function PkText(pk: Option<nat>): (t: string)
    ensures '/' !in t
  {
    match pk
    case None => "None"
    case Some(n) => Text.NatToString(n)
  }

  /** `rooms/room_<pk>/preview/<filename>` */
  function PreviewPath(pk: Option<nat>, filename: string): string {
    PreviewPrefix + PkText(pk) + PreviewInfix + filename
  }

  /** Recovers the key and file name from a preview path. */
  function ParsePreviewPath(path: string): Option<(Option<nat>, string)> {
    if |path| < |PreviewPrefix| || path[..|PreviewPrefix|] != PreviewPrefix then None
    else
      var rest := path[|PreviewPrefix|..];
      var k := Text.IndexOf(rest, '/');
      var pkText := rest[..k];
      var tail := rest[k..];
      if |tail| < |PreviewInfix| || tail[..|PreviewInfix|] != PreviewInfix then None
      else
        var filename := tail[|PreviewInfix|..];
        if pkText == "None" then Some((None, filename))
        else if |pkText| > 0 && Text.AllDigits(pkText) then Some((Some(Text.ParseNat(pkText)), filename))
        else None
  }

  /** The key and the file name can be read back from every preview path. */
  lemma PreviewPathRoundTrip(pk: Option<nat>, filename: string)
    ensures ParsePreviewPath(PreviewPath(pk, filename)) == Some((pk, filename))
  {
    var t := PkText(pk);
    var path := PreviewPath(pk, filename);
    assert path[..|PreviewPrefix|] == PreviewPrefix;
    var rest := path[|PreviewPrefix|..];
    assert rest == t + PreviewInfix + filename;
    var k := Text.IndexOf(rest, '/');
    assert rest[|t|] == '/';
    assert forall i | 0 <= i < |t| :: rest[i] == t[i];
    assert k == |t|;
    assert rest[..k] == t;
    assert rest[k..] == PreviewInfix + filename;
    match pk
    case None =>
    case Some(n) =>
      assert t != "None" by {
        assert Text.IsDigit(t[0]);
        assert !Text.IsDigit("None"[0]);
      }
      Text.ParseNatToString(n);
  }

  /** Rooms with different keys, or files with different names, never share a preview path. */
  lemma PreviewPathInjective(pk1: Option<nat>, f1: string, pk2: Option<nat>, f2: string)
    ensures PreviewPath(pk1, f1) == PreviewPath(pk2, f2) <==> pk1 == pk2 && f1 == f2
  {
    PreviewPathRoundTrip(pk1, f1);
    PreviewPathRoundTrip(pk2, f2);
  }
}
