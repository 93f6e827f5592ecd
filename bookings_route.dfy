/** `/api/bookings` (app/api/bookings/route.ts): creating a booking request
    (POST), guarded by the approved-overlap conflict check, and listing the
    table with optional filters (GET). */
module BookingsRoute {
  import opened Bookings
  import opened Query

  // ---------------------------------------------------------------------------
  // The conflict engine

  /** Closed-interval overlap of an existing booking with a candidate interval:
      touching endpoints overlap. The order of start and end is not checked. */
  predicate Overlaps(existingStart: int, existingEnd: int, newStart: int, newEnd: int)
  {
    existingStart <= newEnd && existingEnd >= newStart
  }

  /** The overlap test does not care which interval is the stored one. */
  lemma OverlapsSymmetric(aStart: int, aEnd: int, bStart: int, bEnd: int)
    ensures Overlaps(aStart, aEnd, bStart, bEnd) <==> Overlaps(bStart, bEnd, aStart, aEnd)
  {
  }

  /** A stored row blocks the candidate `(name, start, end)`: same `item_name`,
      status approved, and overlapping times. Nothing else is compared. */
  predicate Blocks(b: Booking, name: string, start: int, end: int)
  {
    b.item_name == name && b.status == Approved && Overlaps(b.start_datetime, b.end_datetime, start, end)
  }

  /** The rows the conflict query returns, in table order. */
  function ConflictSet(table: seq<Booking>, name: string, start: int, end: int): (r: seq<Booking>)
    ensures forall b :: b in r <==>
      && b in table
      && b.item_name == name
      && b.status == Approved
      && b.start_datetime <= end
      && b.end_datetime >= start
    ensures SubsequenceOf(r, table)
  {
    FilterIsSubsequence(table, Blocking(name, start, end));
    Filter(table, Blocking(name, start, end))
  }

  /** `Blocks` as the condition handed to the store's filter. */
  function Blocking(name: string, start: int, end: int): (keep: Booking -> bool)
  {
    b => Blocks(b, name, start, end)
  }

  /** Pending and rejected rows never enter the conflict set, whatever their times. */
  lemma OnlyApprovedConflict(table: seq<Booking>, name: string, start: int, end: int, b: Booking)
    requires b in ConflictSet(table, name, start, end)
    ensures b.status == Approved && b.status != Pending && b.status != Rejected
  {
  }

  /** Adding or removing a row that is not approved leaves every conflict set as it was. */
  lemma NonApprovedRowIsInvisible(before: seq<Booking>, after: seq<Booking>, b: Booking,
                                  name: string, start: int, end: int)
    requires b.status != Approved
    ensures ConflictSet(before + [b] + after, name, start, end)
         == ConflictSet(before + after, name, start, end)
  {
    var keep := Blocking(name, start, end);
    assert Filter([b], keep) == [] by {
      assert !keep(b);
      assert [b][1..] == [];
    }
    calc {
      Filter(before + [b] + after, keep);
      { FilterAppend(before + [b], after, keep); }
      Filter(before + [b], keep) + Filter(after, keep);
      { FilterAppend(before, [b], keep); }
      Filter(before, keep) + [] + Filter(after, keep);
      { assert Filter(before, keep) + [] == Filter(before, keep); }
      Filter(before, keep) + Filter(after, keep);
      { FilterAppend(before, after, keep); }
      Filter(before + after, keep);
    }
  }

  /** An approved booking ending exactly when the candidate starts is a conflict. */
  lemma TouchingEndpointsConflict(table: seq<Booking>, b: Booking, start: int, end: int)
    requires b in table && b.status == Approved
    requires b.end_datetime == start && b.start_datetime <= start <= end
    ensures b in ConflictSet(table, b.item_name, start, end)
  {
  }

  /** An approved booking that ends before the candidate starts is no conflict. */
  lemma DisjointIsNoConflict(table: seq<Booking>, b: Booking, name: string, start: int, end: int)
    requires b.end_datetime < start
    ensures b !in ConflictSet(table, name, start, end)
  {
  }

  /** The conflict key is the item name alone: a request's `item_type` and its
      `vehicle_id` never change whether POST finds it blocked, nor what it reports. */
  lemma ConflictKeyIgnoresItemType(table: seq<Booking>, req: BookingRequest, t: string, v: Option<string>)
    requires HasRequiredFields(req) && t != ""
    ensures var other := req.(item_type := t, vehicle_id := v);
      && HasRequiredFields(other)
      && RequestBlocked(table, req) == RequestBlocked(table, other)
      && ConflictSet(table, req.item_name, req.start_datetime.value, req.end_datetime.value)
         == ConflictSet(table, other.item_name, other.start_datetime.value, other.end_datetime.value)
  {
  }

  // ---------------------------------------------------------------------------
  // POST /api/bookings

  /** The JSON body of a POST. A string field that is absent or empty is "";
      an absent datetime or duration is None. `vehicle_id` is sent by the vehicle
      form but the handler never reads it. */
  datatype BookingRequest = BookingRequest(
    item_type: string,
    item_name: string,
    requester_name: string,
    division: string,
    purpose: string,
    destination: string,
    start_datetime: Option<int>,
    end_datetime: Option<int>,
    duration_type: Option<Duration>,
    vehicle_id: Option<string>)

  /** All eight required fields are present and non-empty; `destination` is optional. */
  predicate HasRequiredFields(req: BookingRequest)
  {
    && req.item_type != ""
    && req.item_name != ""
    && req.requester_name != ""
    && req.division != ""
    && req.purpose != ""
    && req.start_datetime.Some?
    && req.end_datetime.Some?
    && req.duration_type.Some?
  }

  /** A complete request that the conflict query finds blocked in `table`. */
  predicate RequestBlocked(table: seq<Booking>, req: BookingRequest)
    requires HasRequiredFields(req)
  {
    ConflictSet(table, req.item_name, req.start_datetime.value, req.end_datetime.value) != []
  }

  datatype CreateResponse =
    | BadRequest                          // 400, "Semua field wajib diisi"
    | Conflict(conflicts: seq<Booking>)   // 409
    | Created(booking: Booking)           // 201
    | ServerError                         // 500, the insert failed

  /** The HTTP status the handler sends with each response. */
  function CreateStatusCode(r: CreateResponse): int
  {
    match r
    case BadRequest => 400
    case Conflict(_) => 409
    case Created(_) => 201
    case ServerError => 500
  }

  /** The `bookings` table as the POST handler sees it. Ids come from `nextId`. */
  class BookingStore {
    var rows: seq<Booking>
    var nextId: nat

    /** Ids are distinct, and all below the next id to hand out. */
    ghost predicate Valid()
      reads this
    {
      && (forall i :: 0 <= i < |rows| ==> rows[i].id < nextId)
      && (forall i, j :: 0 <= i < j < |rows| ==> rows[i].id != rows[j].id)
    }

    constructor ()
      ensures Valid() && rows == []
    {
      rows := [];
      nextId := 0;
    }

    /** POST /api/bookings. Checks the required fields, then asks the store for
        the conflicting rows, and answers 409 when there are any; otherwise it
        inserts one pending row. The conflict lookup's error is not read: when
        `lookup` is anything but NoFault the conflicts are null and the insert
        goes ahead. `insertFails` is the store refusing the insert; `now` is the
        store's clock for `created_at` and `updated_at`. */
    method Create(req: BookingRequest, now: int, lookup: Fault, insertFails: bool) returns (resp: CreateResponse)
      requires Valid()
      modifies this
      ensures Valid()
      ensures resp.BadRequest? <==> !HasRequiredFields(req)
      ensures resp.Conflict? <==> HasRequiredFields(req) && lookup == NoFault && RequestBlocked(old(rows), req)
      ensures resp.Conflict? ==>
        resp.conflicts == ConflictSet(old(rows), req.item_name, req.start_datetime.value, req.end_datetime.value)
      ensures resp.ServerError? <==> HasRequiredFields(req) && !resp.Conflict? && insertFails
      ensures CreateStatusCode(resp) == 400 <==> !HasRequiredFields(req)
      ensures CreateStatusCode(resp) == 409 <==>
        HasRequiredFields(req) && lookup == NoFault && RequestBlocked(old(rows), req)
      ensures CreateStatusCode(resp) == 500 <==>
        HasRequiredFields(req) && !(lookup == NoFault && RequestBlocked(old(rows), req)) && insertFails
      ensures CreateStatusCode(resp) == 201 <==>
        HasRequiredFields(req) && !(lookup == NoFault && RequestBlocked(old(rows), req)) && !insertFails
      ensures !resp.Created? ==> rows == old(rows) && nextId == old(nextId)
      ensures resp.Created? ==>
        && rows == old(rows) + [resp.booking]
        && nextId == old(nextId) + 1
        && resp.booking.id == old(nextId)
        && resp.booking.status == Pending
        && resp.booking.item_type == req.item_type
        && resp.booking.item_name == req.item_name
        && resp.booking.requester_name == req.requester_name
        && resp.booking.division == req.division
        && resp.booking.purpose == req.purpose
        && (resp.booking.destination == if req.destination == "" then None else Some(req.destination))
        && Some(resp.booking.start_datetime) == req.start_datetime
        && Some(resp.booking.end_datetime) == req.end_datetime
        && Some(resp.booking.duration_type) == req.duration_type
        && resp.booking.created_at == now
        && resp.booking.updated_at == now
    {
      if !HasRequiredFields(req) {
        return BadRequest;
      }
      var start, end := req.start_datetime.value, req.end_datetime.value;

      var conflicts: Option<seq<Booking>> := None;
      if lookup == NoFault {
        conflicts := Some(ConflictSet(rows, req.item_name, start, end));
      }
      if conflicts.Some? && |conflicts.value| > 0 {
        return Conflict(conflicts.value);
      }

      if insertFails {
        return ServerError;
      }
      var destination := if req.destination == "" then None else Some(req.destination);
      var booking := Booking(nextId, req.item_type, req.item_name, req.requester_name,
                             req.division, req.purpose, destination, start, end,
                             req.duration_type.value, Pending, now, now);
      rows := rows + [booking];
      nextId := nextId + 1;
      resp := Created(booking);
    }
  }

  // ---------------------------------------------------------------------------
  // GET /api/bookings

  /** The query-string filters; "" stands for a parameter that is absent or empty,
      which does not filter. */
  datatype ListQuery = ListQuery(status: string, item_type: string, requester_name: string)

  predicate MatchesQuery(b: Booking, q: ListQuery)
  {
    && (q.status == "" || StatusName(b.status) == q.status)
    && (q.item_type == "" || b.item_type == q.item_type)
    && (q.requester_name == "" || ILikeContains(b.requester_name, q.requester_name))
  }

  /** `{ bookings: data }`, where `data` may be null; or 500 on a store error. */
  datatype ListResponse = ListError | Listed(bookings: Option<seq<Booking>>)

  function ListBookings(table: seq<Booking>, q: ListQuery, fault: Fault): (r: ListResponse)
    ensures r.ListError? <==> fault == StoreError
    ensures r.Listed? && r.bookings.None? <==> fault == NullData
    ensures r.Listed? && r.bookings.Some? ==>
      && SortedByCreatedDesc(r.bookings.value)
      && (forall b :: b in r.bookings.value <==> b in table && MatchesQuery(b, q))
      && (forall b :: multiset(r.bookings.value)[b] == if MatchesQuery(b, q) then multiset(table)[b] else 0)
  {
    match fault
    case StoreError => ListError
    case NullData => Listed(None)
    case NoFault =>
      var keep := (b: Booking) => MatchesQuery(b, q);
      FilterCounts(table, keep);
      var matching := Filter(table, keep);
      SortKeepsRows(matching);
      Listed(Some(SortByCreatedDesc(matching)))
  }

  /** Without filters the listing holds every row of the table, as often as it is stored. */
  lemma UnfilteredListingIsWholeTable(table: seq<Booking>)
    ensures ListBookings(table, ListQuery("", "", ""), NoFault).bookings.Some?
    ensures multiset(ListBookings(table, ListQuery("", "", ""), NoFault).bookings.value) == multiset(table)
  {
    var r := ListBookings(table, ListQuery("", "", ""), NoFault).bookings.value;
    assert forall b :: multiset(r)[b] == multiset(table)[b];
  }

  /** A status filter given as a status's own text keeps exactly the rows with that status. */
  lemma StatusFilterExact(table: seq<Booking>, s: Status, itemType: string, name: string, b: Booking)
    ensures var r := ListBookings(table, ListQuery(StatusName(s), itemType, name), NoFault);
      b in r.bookings.value ==> b.status == s
  {
    var r := ListBookings(table, ListQuery(StatusName(s), itemType, name), NoFault);
    if b in r.bookings.value {
      StatusNameInjective(b.status, s);
    }
  }
}
