/** The month calendar's day lookups (components/BookingCalendar.tsx): for a day
    of the month, the first approved booking that covers it, the first pending
    one, and which of the two the cell shows. */
module BookingCalendar {
  import opened Bookings

  /** A booking as handed to the calendar; the status is the stored text. */
  datatype CalendarEntry = CalendarEntry(start: int, end: int, item_type: string, item_name: string, status: string)

  const SecondsPerDay: int := 86400

  /** The calendar date of a moment: the time of day is dropped. */
  function DayOf(t: int): (day: int)
    ensures day * SecondsPerDay <= t < (day + 1) * SecondsPerDay
  {
    t / SecondsPerDay
  }

  /** Later moments never fall on earlier dates. */
  lemma DayOfMonotone(a: int, b: int)
    requires a <= b
    ensures DayOf(a) <= DayOf(b)
  {
  }

  /** Every moment of a day has that day as its date. */
  lemma TimeOfDayIgnored(day: int, secondOfDay: int)
    requires 0 <= secondOfDay < SecondsPerDay
    ensures DayOf(day * SecondsPerDay + secondOfDay) == day
  {
  }

  /** The entry's date range, inclusive at both ends, holds the date of `date`. */
  predicate CoversDay(e: CalendarEntry, date: int)
  {
    DayOf(e.start) <= DayOf(date) <= DayOf(e.end)
  }

  /** A booking covers the date of every moment between its start and its end,
      and also the rest of its first and last days. */
  lemma CoveredMomentCoversDay(e: CalendarEntry, date: int)
    requires e.start <= date <= e.end
    ensures CoversDay(e, date)
  {
    DayOfMonotone(e.start, date);
    DayOfMonotone(date, e.end);
  }

  predicate MatchesDay(e: CalendarEntry, date: int, status: string)
  {
    e.status == status && CoversDay(e, date)
  }

  /** `entries[i]` is the first entry with `status` whose range covers `date`. */
  predicate FirstMatchAt(entries: seq<CalendarEntry>, date: int, status: string, i: int)
  {
    && 0 <= i < |entries|
    && MatchesDay(entries[i], date, status)
    && forall j :: 0 <= j < i ==> !MatchesDay(entries[j], date, status)
  }

  /** The scan shared by `isDateBooked` and `isDatePending`: walk the entries in
      order and return the first with the wanted status whose range covers the day. */
  method FindCovering(entries: seq<CalendarEntry>, date: int, status: string) returns (found: Option<CalendarEntry>)
    ensures found.None? <==> forall e :: e in entries ==> !MatchesDay(e, date, status)
    ensures found.Some? ==> found.value.status == status && CoversDay(found.value, date)
    ensures found.Some? ==> exists i :: FirstMatchAt(entries, date, status, i) && entries[i] == found.value
  {
    for i := 0 to |entries|
      invariant forall j :: 0 <= j < i ==> !MatchesDay(entries[j], date, status)
    {
      var booking := entries[i];
      if booking.status == status {
        var dateOnly, startOnly, endOnly := DayOf(date), DayOf(booking.start), DayOf(booking.end);
        if dateOnly >= startOnly && dateOnly <= endOnly {
          assert FirstMatchAt(entries, date, status, i);
          return Some(booking);
        }
      }
    }
    return None;
  }

  /** `isDateBooked`: the first approved entry covering the day, or null. */
  method IsDateBooked(entries: seq<CalendarEntry>, date: int) returns (booked: Option<CalendarEntry>)
    ensures booked.None? <==> forall e :: e in entries ==> !MatchesDay(e, date, "approved")
    ensures booked.Some? ==> booked.value.status == "approved" && CoversDay(booked.value, date)
    ensures booked.Some? ==> exists i :: FirstMatchAt(entries, date, "approved", i) && entries[i] == booked.value
  {
    booked := FindCovering(entries, date, "approved");
  }

  /** `isDatePending`: the first pending entry covering the day, or null. */
  method IsDatePending(entries: seq<CalendarEntry>, date: int) returns (pending: Option<CalendarEntry>)
    ensures pending.None? <==> forall e :: e in entries ==> !MatchesDay(e, date, "pending")
    ensures pending.Some? ==> pending.value.status == "pending" && CoversDay(pending.value, date)
    ensures pending.Some? ==> exists i :: FirstMatchAt(entries, date, "pending", i) && entries[i] == pending.value
  {
    pending := FindCovering(entries, date, "pending");
  }

  /** What one day cell shows. */
  datatype DayHighlight =
    | BookedDay(booking: CalendarEntry)    // approved colour
    | PendingDay(booking: CalendarEntry)   // amber, only when nothing is booked
    | FreeDay

  /** `activeBooking = booked || pending`: a booked day wins over a pending one. */
  function Highlight(booked: Option<CalendarEntry>, pending: Option<CalendarEntry>): (cell: DayHighlight)
  {
    if booked.Some? then BookedDay(booked.value)
    else if pending.Some? then PendingDay(pending.value)
    else FreeDay
  }

  /** The cell for one day. Only approved and pending entries are ever shown,
      and an approved entry takes precedence over a pending one. The entry shown
      is the first approved entry covering the day in list order, or else the
      first pending one. */
  method DayCell(entries: seq<CalendarEntry>, date: int) returns (cell: DayHighlight)
    ensures cell.BookedDay? <==> exists e :: e in entries && MatchesDay(e, date, "approved")
    ensures cell.BookedDay? ==> cell.booking.status == "approved" && CoversDay(cell.booking, date)
    ensures cell.PendingDay? ==> cell.booking.status == "pending" && CoversDay(cell.booking, date)
    ensures cell.BookedDay? ==> exists i :: FirstMatchAt(entries, date, "approved", i) && entries[i] == cell.booking
    ensures cell.PendingDay? ==> exists i :: FirstMatchAt(entries, date, "pending", i) && entries[i] == cell.booking
    ensures cell.FreeDay? <==> forall e :: e in entries ==>
      !MatchesDay(e, date, "approved") && !MatchesDay(e, date, "pending")
    ensures !cell.FreeDay? ==> cell.booking in entries && cell.booking.status != "rejected"
  {
    var booked := IsDateBooked(entries, date);
    var pending := IsDatePending(entries, date);
    cell := Highlight(booked, pending);
  }
}
