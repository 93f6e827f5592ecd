/** The row type of the `bookings` table and the closed enumerations it uses
    (lib/supabase.ts). Datetimes are integers (seconds on one local clock). */
module Bookings {

  datatype Option<+T> = None | Some(value: T)

  datatype Status = Pending | Approved | Rejected

  datatype Duration = Hours | Days

  /** One row of the `bookings` table. `id`, `created_at` and `updated_at` are
      filled in by the store; `destination` is null unless a requester gave one. */
  datatype Booking = Booking(
    id: nat,
    item_type: string,
    item_name: string,
    requester_name: string,
    division: string,
    purpose: string,
    destination: Option<string>,
    start_datetime: int,
    end_datetime: int,
    duration_type: Duration,
    status: Status,
    created_at: int,
    updated_at: int)

  /** The text the store keeps in the `status` column. */
  function StatusName(s: Status): (name: string)
    ensures name != ""
  {
    match s
    case Pending => "pending"
    case Approved => "approved"
    case Rejected => "rejected"
  }

  /** Distinct statuses are stored as distinct texts, so comparing the column with
      a status's text selects exactly the rows with that status. */
  lemma StatusNameInjective(s: Status, t: Status)
    ensures StatusName(s) == StatusName(t) <==> s == t
  {
  }

  /** The condition `b.status === s`, as handed to a filter. */
  function HasStatus(s: Status): (keep: Booking -> bool)
  {
    (b: Booking) => b.status == s
  }

  /** How a query against the store can go wrong: it fails (`error` is set) or it
      answers with `data` null. */
  datatype Fault = NoFault | StoreError | NullData
}
