# Booking table logic of the internal booking system

This project is a Dafny model of the booking logic of a company booking app. In that app, requesters reserve shared items such as vehicles and the training center, and an admin approves or rejects each request.

The state is the `bookings` table, modelled as a sequence of rows. Datetimes are integers. The parts of the app that are modelled are:

- **Conflict engine.** A candidate `(item_name, start, end)` conflicts with every *approved* row that has the same `item_name` and whose closed interval overlaps the candidate.
  - The key is the name alone. Neither `item_type` nor the `vehicle_id` that the vehicle form sends is compared, and there is no lookup by a resource id.
  - Nothing checks that `start < end`.
- **POST /api/bookings.** This is a method on the `BookingStore` class. It checks the eight required fields (400), then computes the conflict set. If the set is not empty it answers 409 and leaves the table as it was. Otherwise it appends exactly one `pending` row (201). A failed insert is a 500.
  - The handler never reads the conflict lookup's error. So a failed lookup counts as "no conflicts" and the insert goes ahead.
- **GET /api/bookings.** Optional filters on status, item type and requester name (ilike). The rows come back newest first.
- **GET /api/availability.** The same conflict query, read-only, answering `available` and `conflicts`.
- **GET /api/admin/stats** and the status page's summary cards. They give the total and the per-status counts.
- **GET /api/status.** A case-insensitive search on the requester's name, newest first.
- **The calendar's day lookups.** These are first-match scans for an approved booking or a pending booking whose day range contains a given day. An approved booking takes precedence over a pending one.
- **The admin dashboard.** Its status tabs (the default is `pending`), and approve/reject buttons that appear only on pending bookings.
- **The status page's search guard.** It trims the name and searches only when the result is non-empty. The initial search from the URL is not trimmed.

Store failures are modelled as a `Fault` parameter. `StoreError` stands for a query that returns `error`. `NullData` stands for a query that returns `data: null`.

The module layout follows the source:

| module | source file |
|---|---|
| `Bookings` | `lib/supabase.ts` |
| `Query` | the store's filter, ilike and ordering primitives |
| `BookingsRoute` | `app/api/bookings/route.ts` |
| `AvailabilityRoute` | `app/api/availability/route.ts` |
| `StatsRoute` | `app/api/admin/stats/route.ts` |
| `StatusRoute` | `app/api/status/route.ts` |
| `BookingCalendar` | `components/BookingCalendar.tsx` |
| `AdminDashboard` | `app/admin/dashboard/page.tsx` |
| `StatusPage` | `app/status/page.tsx` |

## Model

| member | source | states |
|---|---|---|
| Bookings.StatusNameInjective | lib/supabase.ts:20 | The three statuses are stored as three different texts. So comparing the column with a status's text selects exactly that status. |
| Query.Contains | app/api/status/route.ts:17 | The substring search answers true exactly when the pattern occurs at some position of the value. |
| Query.ILikeIgnoresCase | app/api/status/route.ts:17 | `ilike '%p%'` gives the same answer when the value is case-folded, when the pattern is, and when both are. |
| Query.ILikeReflexive | app/api/bookings/route.ts:23-25 | Every value matches the empty pattern and matches itself. |
| Query.SortByCreatedDesc | app/api/status/route.ts:18 | The ordering step returns the same rows, with the same multiplicities, sorted by `created_at` descending. |
| BookingsRoute.OverlapsSymmetric | app/api/bookings/route.ts:69 | The closed-interval overlap test is symmetric in the stored interval and the candidate interval. |
| BookingsRoute.ConflictSet | app/api/bookings/route.ts:64-69 | A row is in the conflict set exactly when it is stored, has the candidate's `item_name`, is approved, and has `start <= new end` and `end >= new start`. The set keeps table order. |
| BookingsRoute.OnlyApprovedConflict | app/api/bookings/route.ts:68 | Every conflicting row is approved. Pending and rejected rows never conflict. |
| BookingsRoute.NonApprovedRowIsInvisible | app/api/bookings/route.ts:68 | Inserting or deleting a pending or rejected row anywhere in the table leaves every conflict set unchanged. |
| BookingsRoute.TouchingEndpointsConflict | app/api/bookings/route.ts:69 | An approved booking that ends exactly when the candidate starts is a conflict. |
| BookingsRoute.DisjointIsNoConflict | app/api/bookings/route.ts:69 | A booking that ends strictly before the candidate starts is never a conflict. |
| BookingsRoute.ConflictKeyIgnoresItemType | app/api/bookings/route.ts:45-69 | For a complete request, changing its `item_type` (to any non-empty text) or its `vehicle_id` changes neither whether POST finds it blocked nor the conflicts it reports. The key is the item name alone. |
| BookingsRoute.BookingStore.Create | app/api/bookings/route.ts:42-106 | 400 exactly when a required field is missing or empty, and the table is unchanged. 409 exactly when the fields are complete, the lookup answered, and the conflict set is non-empty; the response carries that set and the table is unchanged. Among well-formed JSON bodies, 500 exactly when the insert fails, and the table is unchanged. A body that makes the handler throw is listed under Left out. Otherwise 201: exactly one row is appended, with a fresh id and status pending; `destination` is null when empty and the other fields are copied. Ids stay distinct. The HTTP status sent (`CreateStatusCode`: 400, 409, 500 or 201) is tied to the same four conditions. |
| BookingsRoute.ListBookings | app/api/bookings/route.ts:5-39 | A store error gives 500, and null data is passed on as null. Otherwise the result is sorted by `created_at` descending and holds exactly the rows that match every given filter, each as often as it is stored. The filters are status text equal, item type equal, and requester name ilike. |
| BookingsRoute.UnfilteredListingIsWholeTable | app/api/bookings/route.ts:17-25 | With no filters, the listing is a permutation of the whole table. |
| BookingsRoute.StatusFilterExact | app/api/bookings/route.ts:17-19 | Filtering on a status's text returns only rows with that status. |
| AvailabilityRoute.CheckAvailability | app/api/availability/route.ts:12-37 | 400 exactly when the name, start or end is missing. 500 exactly on a store error. Otherwise `available` holds exactly when `conflicts` is empty, and `conflicts` is the approved, same-name, overlapping rows, or `[]` on null data. |
| AvailabilityRoute.AvailableIffCreateNotBlocked | app/api/availability/route.ts:19-31 | For a complete request, the availability check reports available exactly when POST would not answer 409, and it lists the conflicts POST would return. |
| AvailabilityRoute.OnlyApprovedMakeUnavailable | app/api/availability/route.ts:19-31 | A table without approved rows reports every item available, with no conflicts. |
| StatsRoute.CountStatus | app/api/admin/stats/route.ts:18-20 | A status count is at most the number of bookings. It is 0 exactly when no booking has that status, and it equals the total exactly when all bookings have it. |
| StatsRoute.CountsPartitionTotal | app/api/admin/stats/route.ts:16-21 | The pending, approved and rejected counts add up to the number of bookings. |
| StatsRoute.Tally | app/api/admin/stats/route.ts:16-21 | `total` is the length of the list. Each status field is that status's count, and the three add up to `total`. |
| StatsRoute.AdminStats | app/api/admin/stats/route.ts:4-28 | A store error gives 500 and no stats. Null data gives all zeros. Otherwise the result is the counts of the table; each is at most `total` and their sum is `total`. |
| StatusRoute.SearchByName | app/api/status/route.ts:5-30 | An empty name gives 400, and a store error gives 500. Otherwise the result is sorted by `created_at` descending and holds exactly the rows whose requester name contains the name, ignoring case, each as often as stored. Null data gives `[]`. |
| StatusRoute.SearchIgnoresCase | app/api/status/route.ts:17 | Searching the case-folded name finds the same bookings. |
| StatusRoute.OwnBookingsFound | app/api/status/route.ts:17 | A booking is found by searching its requester's full name. |
| BookingCalendar.DayOf | components/BookingCalendar.tsx:56-58 | The date of a moment is the day whose 86400-second span contains it. |
| BookingCalendar.DayOfMonotone | components/BookingCalendar.tsx:56-60 | A later moment never has an earlier date. |
| BookingCalendar.TimeOfDayIgnored | components/BookingCalendar.tsx:56-58 | Every second of a day has that day as its date. |
| BookingCalendar.CoveredMomentCoversDay | components/BookingCalendar.tsx:56-60 | A booking's day range covers every moment between its start and its end. |
| BookingCalendar.FindCovering | components/BookingCalendar.tsx:52-66 | The scan returns null exactly when no entry with the wanted status covers the day. Otherwise it returns the first such entry in list order, and that entry covers the day inclusively. |
| BookingCalendar.IsDateBooked | components/BookingCalendar.tsx:52-66 | The result is null exactly when no approved entry covers the day. Otherwise it is the first approved entry covering it. |
| BookingCalendar.IsDatePending | components/BookingCalendar.tsx:68-82 | The result is null exactly when no pending entry covers the day. Otherwise it is the first pending entry covering it. |
| BookingCalendar.DayCell | components/BookingCalendar.tsx:143-157 | A day is shown as booked exactly when an approved entry covers it, and then the entry shown is approved. It is shown as pending only with a covering pending entry, and free exactly when neither kind covers it. A rejected entry is never shown. The entry shown is the first approved entry covering the day in list order, or, when there is none, the first pending one. |
| AdminDashboard.FilteredBookings | app/admin/dashboard/page.tsx:92-94 | Under `'all'` the list is exactly what was fetched. Under a status, it holds exactly the fetched bookings with that status, as often as fetched. In both cases the list is a subsequence of the fetched list. |
| AdminDashboard.InitialViewIsPending | app/admin/dashboard/page.tsx:25 | On first load the dashboard lists exactly the pending bookings. |
| AdminDashboard.OfferedActions | app/admin/dashboard/page.tsx:236-262 | Actions are offered exactly when the booking is pending. They are approve and reject, never pending. |
| StatusPage.PageStats | app/status/page.tsx:23-28 | `total` is the number of fetched bookings, and each status field is its count. The three add up to `total`. |
| StatusPage.Trim | app/status/page.tsx:54-56 | The trimmed name is a slice of the input. Only whitespace lies outside the slice, the slice neither starts nor ends with whitespace, and it is empty exactly when the input is all whitespace. |
| StatusPage.TrimIdempotent | app/status/page.tsx:54-56 | Trimming twice gives what trimming once gives. |
| StatusPage.SearchTerm | app/status/page.tsx:52-58 | A search is issued exactly when the typed name is not all whitespace. The term searched is the trimmed name, which is non-empty. |
| StatusPage.SearchTermIgnoresPadding | app/status/page.tsx:52-58 | For any whitespace before and after a name that neither starts nor ends with whitespace, the term searched is exactly the name. Typed padding never reaches the server. |
| StatusPage.InitialSearch | app/status/page.tsx:15-34 | An initial fetch happens exactly when the `name` URL parameter is present and non-empty. It fetches that parameter untrimmed. |
| StatusPage.WhitespaceNameOnlyFetchedFromUrl | app/status/page.tsx:15-57 | Every non-empty, whitespace-only name is fetched, untrimmed, when it comes from the URL, and is never searched when it is typed into the form. |

## Left out

- `app/api/bookings/[id]/route.ts` (status update, single fetch and delete) is not part of this model. Transitions appear only as the dashboard's gating of approve and reject on pending bookings.
- The Supabase client and the network. The table is an in-memory sequence. A query's failure and its null answer are a `Fault` parameter, and a failed insert is a boolean parameter.
- Pattern wildcards in `.ilike` filters (app/api/bookings/route.ts:24, app/api/status/route.ts:17). Postgres treats `%` and `_` inside the search term as wildcards, and the store's query layer also reads `*` as `%`. The backslash is ILIKE's escape character, so a term `a\b` matches `ab` and not `a\b`, and a trailing `\` escapes the closing `%`. The model takes all four characters literally. Case folding covers ASCII letters only.
- StatsRoute.AdminStats: holds only below the store's row cap. The store returns at most its configured maximum number of rows per read (1000 by default), and the select asks for no range and no count. Above the cap, `total` and the per-status counts cover only the rows returned. The model has no row cap.
- BookingsRoute.ListBookings: holds only below the same row cap. Above it, the listing returns only the first rows of the ordered result.
- BookingsRoute.BookingStore.Create: the conflict list of a 409 is the capped result of the conflict query, so it is cut at the row cap. This needs more approved, overlapping bookings of one item than the cap. The 409 decision itself is unaffected.
- AvailabilityRoute.CheckAvailability: runs the same select with no range (app/api/availability/route.ts:19-24), so above the row cap its `conflicts` list is cut the same way. The model has no cap. `available` is unaffected.
- StatusRoute.SearchByName: holds only below the same row cap. Above it, the search returns only the first rows of the ordered result.
- Thrown exceptions. Every handler wraps its work in a `catch` that answers 500 "Internal server error":
  - app/api/bookings/route.ts:35-38 (GET) and :102-105 (POST);
  - app/api/availability/route.ts:38-41;
  - app/api/status/route.ts:26-29;
  - app/api/admin/stats/route.ts:24-27.

  The model has no input that throws. A POST body that is not JSON, or is the JSON `null`, fails at `request.json()` or at the destructuring (app/api/bookings/route.ts:44 and :46-56) and gets this 500. `BookingRequest` cannot represent such a body.
- BookingsRoute.BookingStore.Create: its 500 answer covers only a failed insert. The 500 that a thrown exception causes has no counterpart, because `BookingRequest` holds only well-formed bodies.
- Timestamp strings and time zones. Datetimes are integers. The calendar's local-date truncation is `t / 86400` on a local-time clock.
- BookingsRoute.BookingStore.Create: the check and the insert form one atomic step, so the race between concurrent requests is not modelled.
- BookingsRoute.BookingStore.Create: ids are a counter, and `created_at` and `updated_at` are a `now` parameter. The store's uuid generation and column defaults are not shown in the source.
- JavaScript truthiness of non-string JSON values (`0`, `false`) in the required-field check. Fields are strings, or optional datetimes and durations.
- BookingsRoute.ListBookings: rows with equal `created_at` come out in table order. Postgres leaves their order unspecified, so the contract states only "sorted and a permutation of the matching rows".
- BookingsRoute.ConflictSet: the conflict query has no `ORDER BY`, and the model returns table order.
- StatsRoute.AdminStats: a status outside the three-value enum cannot be stored in the model. So the counts always add up to `total`, while the source only guarantees "at most `total`" for such rows.
- Admin login, session cookies and `localStorage` checks. Vehicle and service-log CRUD. The booking forms. All rendering, month navigation and date formatting. The environment-variable debug route.
- The dashboard's and status page's loading flags, fetch error handling, and `searched`/`searchName` display state.
