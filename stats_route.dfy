/** `GET /api/admin/stats` (app/api/admin/stats/route.ts): how many bookings
    there are in all and per status. */
module StatsRoute {
  import opened Bookings
  import opened Query

  datatype Stats = Stats(total: nat, pending: nat, approved: nat, rejected: nat)

  /** `bookings.filter(b => b.status === s).length` */
  function CountStatus(bookings: seq<Booking>, s: Status): (n: nat)
    ensures n <= |bookings|
    ensures n == 0 <==> forall b :: b in bookings ==> b.status != s
    ensures n == |bookings| <==> forall b :: b in bookings ==> b.status == s
  {
    var kept := Filter(bookings, HasStatus(s));
    if |kept| == |bookings| then
      FilterFullKeepsAll(bookings, HasStatus(s));
      |kept|
    else
      FilterShortDropsOne(bookings, HasStatus(s));
      assert kept != [] ==> kept[0] in kept;
      |kept|
  }

  /** A filter that drops nothing accepted every element. */
  lemma {:induction false} FilterFullKeepsAll(s: seq<Booking>, keep: Booking -> bool)
    requires |Filter(s, keep)| == |s|
    ensures forall x :: x in s ==> keep(x)
  {
    if s != [] {
      assert |Filter(s[1..], keep)| <= |s[1..]|;
      assert keep(s[0]);
      FilterFullKeepsAll(s[1..], keep);
      assert s == [s[0]] + s[1..];
    }
  }

  /** A filter that drops something rejected some element. */
  lemma {:induction false} FilterShortDropsOne(s: seq<Booking>, keep: Booking -> bool)
    requires |Filter(s, keep)| < |s|
    ensures exists x :: x in s && !keep(x)
  {
    if keep(s[0]) {
      FilterShortDropsOne(s[1..], keep);
      var x :| x in s[1..] && !keep(x);
      assert x in s;
    }
  }

  /** The three per-status counts of one list. */
  function Tally(bookings: seq<Booking>): (st: Stats)
    ensures st.total == |bookings|
    ensures st.pending == CountStatus(bookings, Pending)
    ensures st.approved == CountStatus(bookings, Approved)
    ensures st.rejected == CountStatus(bookings, Rejected)
    ensures st.pending + st.approved + st.rejected == st.total
  {
    CountsPartitionTotal(bookings);
    Stats(|bookings|, CountStatus(bookings, Pending), CountStatus(bookings, Approved),
          CountStatus(bookings, Rejected))
  }

  /** Every booking has exactly one of the three statuses, so the per-status
      counts add up to the number of bookings. */
  lemma {:induction false} CountsPartitionTotal(bookings: seq<Booking>)
    ensures CountStatus(bookings, Pending) + CountStatus(bookings, Approved)
          + CountStatus(bookings, Rejected) == |bookings|
  {
    if bookings != [] {
      CountsPartitionTotal(bookings[1..]);
      CountStatusStep(bookings, Pending);
      CountStatusStep(bookings, Approved);
      CountStatusStep(bookings, Rejected);
    }
  }

  /** Counting one status: the head counts once if it has it, then the tail is counted. */
  lemma CountStatusStep(bookings: seq<Booking>, s: Status)
    requires bookings != []
    ensures CountStatus(bookings, s)
         == (if bookings[0].status == s then 1 else 0) + CountStatus(bookings[1..], s)
  {
    assert bookings == [bookings[0]] + bookings[1..];
    FilterCons(bookings[0], bookings[1..], HasStatus(s));
  }

  datatype StatsResponse = StatsError | StatsOk(stats: Stats)

  /** The handler selects the `status` column of every row; a null answer counts
      as no rows (`?.length || 0`), a store error is a 500. */
  function AdminStats(table: seq<Booking>, fault: Fault): (r: StatsResponse)
    ensures r.StatsError? <==> fault == StoreError
    ensures fault == NullData ==> r == StatsOk(Stats(0, 0, 0, 0))
    ensures fault == NoFault ==>
      && r.StatsOk?
      && r.stats.total == |table|
      && r.stats.pending == CountStatus(table, Pending)
      && r.stats.approved == CountStatus(table, Approved)
      && r.stats.rejected == CountStatus(table, Rejected)
    ensures r.StatsOk? ==>
      && r.stats.pending <= r.stats.total
      && r.stats.approved <= r.stats.total
      && r.stats.rejected <= r.stats.total
      && r.stats.pending + r.stats.approved + r.stats.rejected == r.stats.total
  {
    match fault
    case StoreError => StatsError
    case NullData => StatsOk(Tally([]))
    case NoFault => StatsOk(Tally(table))
  }
}
