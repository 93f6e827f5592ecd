/** The admin dashboard's booking list (app/admin/dashboard/page.tsx): the
    status tabs that filter the fetched bookings, and the approve / reject
    buttons offered on a booking. */
module AdminDashboard {
  import opened Bookings
  import opened Query

  /** The tab chosen: `'all'` or one status. */
  datatype StatusFilter = All | Only(status: Status)

  /** The dashboard opens on the pending tab. */
  const InitialFilter: StatusFilter := Only(Pending)

  /** `filteredBookings`: everything under `'all'`, otherwise the bookings with
      the chosen status, in their fetched order, none dropped. */
  function FilteredBookings(bookings: seq<Booking>, filter: StatusFilter): (shown: seq<Booking>)
    ensures filter.All? ==> shown == bookings
    ensures filter.Only? ==> forall b :: b in shown <==> b in bookings && b.status == filter.status
    ensures filter.Only? ==> forall b ::
      multiset(shown)[b] == if b.status == filter.status then multiset(bookings)[b] else 0
    ensures SubsequenceOf(shown, bookings)
  {
    match filter
    case All =>
      SubsequenceOfSelf(bookings);
      bookings
    case Only(s) =>
      FilterIsSubsequence(bookings, HasStatus(s));
      FilterCounts(bookings, HasStatus(s));
      Filter(bookings, HasStatus(s))
  }

  lemma {:induction false} SubsequenceOfSelf(s: seq<Booking>)
    ensures SubsequenceOf(s, s)
  {
    if s != [] {
      SubsequenceOfSelf(s[1..]);
    }
  }

  /** On first load the dashboard lists exactly the pending bookings. */
  lemma InitialViewIsPending(bookings: seq<Booking>, b: Booking)
    ensures b in FilteredBookings(bookings, InitialFilter) <==> b in bookings && b.status == Pending
  {
  }

  /** The statuses an admin can send from a booking's card with `handleAction`:
      approve and reject, and only while the booking is pending. */
  function OfferedActions(b: Booking): (actions: seq<Status>)
    ensures actions != [] <==> b.status == Pending
    ensures forall s :: s in actions ==> s != Pending
    ensures actions != [] ==> Approved in actions && Rejected in actions
  {
    if b.status == Pending then [Approved, Rejected] else []
  }
}
