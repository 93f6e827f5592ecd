/** `GET /api/availability` (app/api/availability/route.ts): a read-only run of
    the conflict query, usable before submitting a booking. */
module AvailabilityRoute {
  import opened Bookings
  import opened Query
  import opened BookingsRoute

  datatype AvailabilityResponse =
    | MissingParams                                       // 400
    | AvailabilityError                                   // 500, the query failed
    | Checked(available: bool, conflicts: seq<Booking>)   // 200

  /** `itemName` is "" when the parameter is absent or empty; a datetime is None
      when absent. Nothing is written: the answer is a function of the table. */
  function CheckAvailability(table: seq<Booking>, itemName: string, start: Option<int>, end: Option<int>,
                             fault: Fault): (r: AvailabilityResponse)
    ensures r.MissingParams? <==> itemName == "" || start.None? || end.None?
    ensures r.AvailabilityError? <==> !r.MissingParams? && fault == StoreError
    ensures r.Checked? ==> (r.available <==> r.conflicts == [])
    ensures r.Checked? ==> forall b :: b in r.conflicts <==>
      && fault == NoFault
      && b in table
      && b.item_name == itemName
      && b.status == Approved
      && b.start_datetime <= end.value
      && b.end_datetime >= start.value
  {
    if itemName == "" || start.None? || end.None? then MissingParams
    else
      match fault
      case StoreError => AvailabilityError
      case NullData =>
        // data null: available, and `conflicts || []` is []
        Checked(true, [])
      case NoFault =>
        var conflicts := ConflictSet(table, itemName, start.value, end.value);
        Checked(conflicts == [], conflicts)
  }

  /** The availability check and creation run the same query: for a complete
      request, the item is reported available exactly when POST would not answer
      409, and the conflicts listed are the ones POST would return. */
  lemma AvailableIffCreateNotBlocked(table: seq<Booking>, req: BookingRequest)
    requires HasRequiredFields(req)
    ensures var r := CheckAvailability(table, req.item_name, req.start_datetime, req.end_datetime, NoFault);
      && r.Checked?
      && (r.available <==> !RequestBlocked(table, req))
      && r.conflicts == ConflictSet(table, req.item_name, req.start_datetime.value, req.end_datetime.value)
  {
  }

  /** Pending and rejected rows never make an item unavailable. */
  lemma OnlyApprovedMakeUnavailable(table: seq<Booking>, itemName: string, start: int, end: int)
    requires itemName != ""
    requires forall b :: b in table ==> b.status != Approved
    ensures CheckAvailability(table, itemName, Some(start), Some(end), NoFault) == Checked(true, [])
  {
    FilterNoneKept(table, Blocking(itemName, start, end));
  }
}
