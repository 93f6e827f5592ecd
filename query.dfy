/** The query primitives the route handlers ask of the store: keeping the rows
    that satisfy a condition (`.eq`, `.or(and(lte, gte))`, JavaScript's
    `Array.filter`), case-insensitive substring matching (`.ilike` with the
    pattern `%name%`), and ordering by `created_at` descending. */
module Query {
  import opened Bookings

  /** `sub` is `s` with some elements left out and the rest in their order. */
  predicate SubsequenceOf<T(==)>(sub: seq<T>, s: seq<T>)
    decreases |s|
  {
    if sub == [] then true
    else if s == [] then false
    else (sub[0] == s[0] && SubsequenceOf(sub[1..], s[1..])) || SubsequenceOf(sub, s[1..])
  }

  /** The elements of `s` that `keep` accepts, in their order in `s`; no other
      element is there. */
  function Filter<T(==,!new)>(s: seq<T>, keep: T -> bool): (r: seq<T>)
    ensures forall x :: x in r <==> x in s && keep(x)
    ensures |r| <= |s|
  {
    if s == [] then []
    else
      var rest := Filter(s[1..], keep);
      assert s == [s[0]] + s[1..];
      if keep(s[0]) then [s[0]] + rest else rest
  }

  /** Every element the filter keeps is there as often as in `s`; the others are not. */
  lemma {:induction false} FilterCounts<T(!new)>(s: seq<T>, keep: T -> bool)
    ensures forall x :: multiset(Filter(s, keep))[x] == if keep(x) then multiset(s)[x] else 0
  {
    if s != [] {
      FilterCounts(s[1..], keep);
      assert s == [s[0]] + s[1..];
    }
  }

  /** A filter that accepts no element of `s` returns nothing. */
  lemma {:induction false} FilterNoneKept<T(!new)>(s: seq<T>, keep: T -> bool)
    requires forall x :: x in s ==> !keep(x)
    ensures Filter(s, keep) == []
  {
    if s != [] {
      assert s[0] in s;
      FilterNoneKept(s[1..], keep);
    }
  }

  /** The filter only leaves elements out: what it keeps stays in its order. */
  lemma {:induction false} FilterIsSubsequence<T(!new)>(s: seq<T>, keep: T -> bool)
    ensures SubsequenceOf(Filter(s, keep), s)
  {
    if s != [] {
      var rest := Filter(s[1..], keep);
      FilterIsSubsequence(s[1..], keep);
      assert s == [s[0]] + s[1..];
      if keep(s[0]) {
        assert Filter(s, keep) == [s[0]] + rest;
        assert ([s[0]] + rest)[1..] == rest;
      } else {
        assert Filter(s, keep) == rest;
      }
    }
  }

  /** One step of the filter: the head is kept or not, then the tail is filtered. */
  lemma FilterCons<T(!new)>(x: T, s: seq<T>, keep: T -> bool)
    ensures Filter([x] + s, keep) == (if keep(x) then [x] else []) + Filter(s, keep)
  {
    assert ([x] + s)[0] == x;
    assert ([x] + s)[1..] == s;
  }

  /** Filtering distributes over concatenation. */
  lemma {:induction false} FilterAppend<T(!new)>(s: seq<T>, t: seq<T>, keep: T -> bool)
    ensures Filter(s + t, keep) == Filter(s, keep) + Filter(t, keep)
  {
    if s == [] {
      assert s + t == t;
    } else {
      var head := if keep(s[0]) then [s[0]] else [];
      calc {
        Filter(s + t, keep);
        { assert s + t == [s[0]] + (s[1..] + t); FilterCons(s[0], s[1..] + t, keep); }
        head + Filter(s[1..] + t, keep);
        { FilterAppend(s[1..], t, keep); }
        head + (Filter(s[1..], keep) + Filter(t, keep));
        (head + Filter(s[1..], keep)) + Filter(t, keep);
        { assert s == [s[0]] + s[1..]; FilterCons(s[0], s[1..], keep); }
        Filter(s, keep) + Filter(t, keep);
      }
    }
  }

  // ---------------------------------------------------------------------------
  // ilike '%pattern%': case-insensitive substring

  /** ASCII case folding: upper-case Latin letters map to lower case. */
  function FoldChar(c: char): (d: char)
    ensures 'A' <= c <= 'Z' ==> d as int == c as int + 32
    ensures !('A' <= c <= 'Z') ==> d == c
    ensures !('A' <= d <= 'Z')
  {
    if 'A' <= c <= 'Z' then (c as int + 32) as char else c
  }

  function FoldCase(s: string): (r: string)
    ensures |r| == |s|
    ensures forall i :: 0 <= i < |s| ==> r[i] == FoldChar(s[i])
  {
    if s == [] then [] else [FoldChar(s[0])] + FoldCase(s[1..])
  }

  /** `needle` occurs in `hay` starting at position `i`. */
  predicate OccursAt(needle: string, hay: string, i: int)
  {
    0 <= i && i + |needle| <= |hay| && hay[i..i + |needle|] == needle
  }

  lemma OccursAtStart(needle: string, hay: string)
    ensures OccursAt(needle, hay, 0) <==> needle <= hay
  {
    if |needle| <= |hay| {
      assert hay[0..|needle|] == hay[..|needle|];
    }
  }

  /** An occurrence in the tail is an occurrence one position further on. */
  lemma OccursInTail(needle: string, hay: string, i: int)
    requires hay != [] && 0 <= i
    ensures OccursAt(needle, hay[1..], i) <==> OccursAt(needle, hay, i + 1)
  {
    if i + |needle| <= |hay| - 1 {
      assert hay[1..][i..i + |needle|] == hay[i + 1..i + 1 + |needle|];
    }
  }

  /** Substring search, decided by trying each start position in turn. */
  function Contains(hay: string, needle: string): (found: bool)
    ensures found <==> exists i :: OccursAt(needle, hay, i)
    decreases |hay|
  {
    OccursAtStart(needle, hay);
    if needle <= hay then
      true
    else if hay == [] then
      false
    else
      var found := Contains(hay[1..], needle);
      assert found <==> exists i :: OccursAt(needle, hay, i) by {
        forall i | 0 <= i
          ensures OccursAt(needle, hay[1..], i) <==> OccursAt(needle, hay, i + 1)
        {
          OccursInTail(needle, hay, i);
        }
        if found {
          var i :| OccursAt(needle, hay[1..], i);
          assert OccursAt(needle, hay, i + 1);
        } else {
          assert forall i :: OccursAt(needle, hay, i) ==> i >= 1 && OccursAt(needle, hay[1..], i - 1);
        }
      }
      found
  }

  /** `value ILIKE '%pattern%'` without wildcards inside `pattern`. */
  predicate ILikeContains(value: string, pattern: string)
  {
    Contains(FoldCase(value), FoldCase(pattern))
  }

  /** The match ignores case on either side. */
  lemma ILikeIgnoresCase(value: string, pattern: string)
    ensures ILikeContains(value, pattern) <==> ILikeContains(FoldCase(value), FoldCase(pattern))
    ensures ILikeContains(value, pattern) <==> ILikeContains(FoldCase(value), pattern)
    ensures ILikeContains(value, pattern) <==> ILikeContains(value, FoldCase(pattern))
  {
    FoldCaseIdempotent(value);
    FoldCaseIdempotent(pattern);
  }

  lemma FoldCaseIdempotent(s: string)
    ensures FoldCase(FoldCase(s)) == FoldCase(s)
  {
  }

  /** Every value contains the empty pattern and itself. */
  lemma ILikeReflexive(value: string)
    ensures ILikeContains(value, "")
    ensures ILikeContains(value, value)
  {
    assert OccursAt(FoldCase(""), FoldCase(value), 0);
    assert OccursAt(FoldCase(value), FoldCase(value), 0);
  }

  // ---------------------------------------------------------------------------
  // order('created_at', { ascending: false })

  predicate SortedByCreatedDesc(s: seq<Booking>)
  {
    forall i, j :: 0 <= i < j < |s| ==> s[i].created_at >= s[j].created_at
  }

  function InsertByCreatedDesc(b: Booking, s: seq<Booking>): (r: seq<Booking>)
    requires SortedByCreatedDesc(s)
    ensures SortedByCreatedDesc(r)
    ensures multiset(r) == multiset(s) + multiset{b}
    ensures |r| == |s| + 1
    ensures r[0] == b || (s != [] && r[0] == s[0])
  {
    if s == [] || b.created_at >= s[0].created_at then
      SortedCons(b, s);
      [b] + s
    else
      SortedTail(s);
      var rest := InsertByCreatedDesc(b, s[1..]);
      InsertBehindHead(b, s, rest);
      [s[0]] + rest
  }

  /** The insertion step that keeps the head: the younger `b` went into the tail. */
  lemma InsertBehindHead(b: Booking, s: seq<Booking>, rest: seq<Booking>)
    requires s != [] && SortedByCreatedDesc(s) && b.created_at < s[0].created_at
    requires SortedByCreatedDesc(rest) && |rest| == |s|
    requires multiset(rest) == multiset(s[1..]) + multiset{b}
    requires rest[0] == b || (s[1..] != [] && rest[0] == s[1..][0])
    ensures SortedByCreatedDesc([s[0]] + rest)
    ensures multiset([s[0]] + rest) == multiset(s) + multiset{b}
  {
    assert rest[0].created_at <= s[0].created_at by {
      if rest[0] != b {
        assert rest[0] == s[1];
      }
    }
    SortedCons(s[0], rest);
    assert s == [s[0]] + s[1..];
  }

  /** Dropping the head of a sorted list leaves it sorted. */
  lemma SortedTail(s: seq<Booking>)
    requires s != [] && SortedByCreatedDesc(s)
    ensures SortedByCreatedDesc(s[1..])
  {
    var t := s[1..];
    forall i, j | 0 <= i < j < |t| ensures t[i].created_at >= t[j].created_at {
      assert t[i] == s[i + 1] && t[j] == s[j + 1];
    }
  }

  /** A row no younger than the head of a sorted list can go in front of it. */
  lemma SortedCons(x: Booking, s: seq<Booking>)
    requires SortedByCreatedDesc(s)
    requires s != [] ==> x.created_at >= s[0].created_at
    ensures SortedByCreatedDesc([x] + s)
  {
    var r := [x] + s;
    forall i, j | 0 <= i < j < |r| ensures r[i].created_at >= r[j].created_at {
      assert r[j] == s[j - 1];
      if i > 0 {
        assert r[i] == s[i - 1];
      }
    }
  }

  /** The rows of `s`, newest first; rows with equal `created_at` keep their order. */
  function SortByCreatedDesc(s: seq<Booking>): (r: seq<Booking>)
    ensures SortedByCreatedDesc(r)
    ensures multiset(r) == multiset(s)
    ensures |r| == |s|
  {
    if s == [] then []
    else
      assert s == [s[0]] + s[1..];
      InsertByCreatedDesc(s[0], SortByCreatedDesc(s[1..]))
  }

  /** Ordering keeps exactly the rows it was given. */
  lemma SortKeepsRows(s: seq<Booking>)
    ensures forall b :: b in SortByCreatedDesc(s) <==> b in s
  {
    var r := SortByCreatedDesc(s);
    forall b ensures b in r <==> b in s {
      assert b in r <==> b in multiset(r);
      assert b in s <==> b in multiset(s);
    }
  }
}
