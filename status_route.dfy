/** `GET /api/status?name=` (app/api/status/route.ts): a requester looks up their
    own bookings by a part of their name, newest first. */
module StatusRoute {
  import opened Bookings
  import opened Query

  datatype SearchResponse =
    | NameMissing                       // 400, "Nama pemohon wajib diisi"
    | SearchError                       // 500
    | Found(bookings: seq<Booking>)     // 200, `data || []`

  function RequesterMatches(name: string): (keep: Booking -> bool)
  {
    (b: Booking) => ILikeContains(b.requester_name, name)
  }

  /** `name` is "" when the parameter is absent or empty. */
  function SearchByName(table: seq<Booking>, name: string, fault: Fault): (r: SearchResponse)
    ensures r.NameMissing? <==> name == ""
    ensures r.SearchError? <==> name != "" && fault == StoreError
    ensures r.Found? ==> SortedByCreatedDesc(r.bookings)
    ensures r.Found? ==> forall b :: b in r.bookings <==>
      fault == NoFault && b in table && ILikeContains(b.requester_name, name)
    ensures r.Found? && fault == NoFault ==> forall b ::
      multiset(r.bookings)[b] == if ILikeContains(b.requester_name, name) then multiset(table)[b] else 0
  {
    if name == "" then NameMissing
    else
      match fault
      case StoreError => SearchError
      case NullData => Found([])
      case NoFault =>
        FilterCounts(table, RequesterMatches(name));
        var matching := Filter(table, RequesterMatches(name));
        SortKeepsRows(matching);
        Found(SortByCreatedDesc(matching))
  }

  /** The lookup ignores case: searching "ANI" or "ani" finds the same bookings. */
  lemma SearchIgnoresCase(table: seq<Booking>, name: string, b: Booking)
    requires name != ""
    ensures FoldCase(name) != ""
    ensures b in SearchByName(table, FoldCase(name), NoFault).bookings
        <==> b in SearchByName(table, name, NoFault).bookings
  {
    FoldCaseIdempotent(name);
    assert |FoldCase(name)| == |name|;
  }

  /** A requester's bookings are found when searching their full name. */
  lemma OwnBookingsFound(table: seq<Booking>, b: Booking)
    requires b in table && b.requester_name != ""
    ensures b in SearchByName(table, b.requester_name, NoFault).bookings
  {
    ILikeReflexive(b.requester_name);
  }
}
