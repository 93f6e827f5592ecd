/** The requester's status page (app/status/page.tsx): the summary counts over
    the bookings found, and when a search is sent to `/api/status`. */
module StatusPage {
  import opened Bookings
  import opened StatsRoute

  /** The summary cards: total and per-status counts of the bookings on screen. */
  function PageStats(bookings: seq<Booking>): (st: Stats)
    ensures st.total == |bookings|
    ensures st.pending == CountStatus(bookings, Pending)
    ensures st.approved == CountStatus(bookings, Approved)
    ensures st.rejected == CountStatus(bookings, Rejected)
    ensures st.pending + st.approved + st.rejected == st.total
  {
    Tally(bookings)
  }

  // ---------------------------------------------------------------------------
  // String.prototype.trim

  /** ECMAScript WhiteSpace and LineTerminator code points, the ones `trim` strips. */
  predicate IsJsWhitespace(c: char)
  {
    || c == '\t' || c == '\n' || c == '\U{B}' || c == '\U{C}' || c == '\r' || c == ' '
    || c == '\U{A0}' || c == '\U{1680}' || ('\U{2000}' <= c <= '\U{200A}')
    || c == '\U{2028}' || c == '\U{2029}' || c == '\U{202F}' || c == '\U{205F}'
    || c == '\U{3000}' || c == '\U{FEFF}'
  }

  predicate AllWhitespace(s: string)
  {
    forall i :: 0 <= i < |s| ==> IsJsWhitespace(s[i])
  }

  /** Whitespace throughout `s[lo..hi]`. */
  predicate WhitespaceBetween(s: string, lo: int, hi: int)
    requires 0 <= lo <= hi <= |s|
  {
    forall k :: lo <= k < hi ==> IsJsWhitespace(s[k])
  }

  /** The first index at or after `i` that holds no whitespace, or `|s|`. */
  function SkipWhitespace(s: string, i: nat): (j: nat)
    requires i <= |s|
    ensures i <= j <= |s|
    ensures WhitespaceBetween(s, i, j)
    ensures j < |s| ==> !IsJsWhitespace(s[j])
    decreases |s| - i
  {
    if i == |s| || !IsJsWhitespace(s[i]) then i else SkipWhitespace(s, i + 1)
  }

  /** The end of `s[lo..e]` once the whitespace it ends with is dropped. */
  function DropTrailingWhitespace(s: string, lo: nat, e: nat): (j: nat)
    requires lo <= e <= |s|
    ensures lo <= j <= e
    ensures WhitespaceBetween(s, j, e)
    ensures j > lo ==> !IsJsWhitespace(s[j - 1])
  {
    if e == lo || !IsJsWhitespace(s[e - 1]) then e else DropTrailingWhitespace(s, lo, e - 1)
  }

  /** `t` is `s[i..]` up to a whitespace suffix, and `s[..i]` is whitespace. */
  predicate TrimmedAt(s: string, t: string, i: int)
  {
    && 0 <= i && i + |t| <= |s|
    && s[i..i + |t|] == t
    && WhitespaceBetween(s, 0, i)
    && WhitespaceBetween(s, i + |t|, |s|)
  }

  /** `s.trim()`: the middle of `s` between its leading and trailing whitespace. */
  function Trim(s: string): (t: string)
    ensures exists i :: TrimmedAt(s, t, i)
    ensures t != [] ==> !IsJsWhitespace(t[0]) && !IsJsWhitespace(t[|t| - 1])
    ensures t == [] <==> AllWhitespace(s)
  {
    var lo := SkipWhitespace(s, 0);
    var hi := DropTrailingWhitespace(s, lo, |s|);
    assert TrimmedAt(s, s[lo..hi], lo);
    s[lo..hi]
  }

  /** Trimming twice changes nothing more. */
  lemma TrimIdempotent(s: string)
    ensures Trim(Trim(s)) == Trim(s)
  {
    var t := Trim(s);
    if t != [] {
      assert SkipWhitespace(t, 0) == 0;
      assert DropTrailingWhitespace(t, 0, |t|) == |t|;
      assert t[0..|t|] == t;
    }
  }

  /** Skipping from `i` stops at the first non-whitespace index `n`. */
  lemma {:induction false} SkipPadding(s: string, i: nat, n: nat)
    requires i <= n < |s| && WhitespaceBetween(s, i, n) && !IsJsWhitespace(s[n])
    ensures SkipWhitespace(s, i) == n
    decreases n - i
  {
    if i < n {
      SkipPadding(s, i + 1, n);
    }
  }

  /** Dropping back from `e` stops just after the last non-whitespace index `n - 1`. */
  lemma {:induction false} DropPadding(s: string, lo: nat, n: nat, e: nat)
    requires lo < n <= e <= |s| && WhitespaceBetween(s, n, e) && !IsJsWhitespace(s[n - 1])
    ensures DropTrailingWhitespace(s, lo, e) == n
    decreases e - n
  {
    if n < e {
      DropPadding(s, lo, n, e - 1);
    }
  }

  // ---------------------------------------------------------------------------
  // When the page asks /api/status

  /** `handleSearch`: a search is sent only when the typed name has something
      besides whitespace, and it is the trimmed name that is sent. */
  function SearchTerm(typed: string): (term: Option<string>)
    ensures term.Some? <==> !AllWhitespace(typed)
    ensures term.Some? ==> term.value == Trim(typed) && term.value != ""
    ensures term.Some? ==> !IsJsWhitespace(term.value[0]) && !IsJsWhitespace(term.value[|term.value| - 1])
  {
    var trimmed := Trim(typed);
    if trimmed != "" then Some(trimmed) else None
  }

  /** On load, `initialName` is the `name` URL parameter or "", and it is fetched
      as it is, untrimmed, exactly when it is not empty. */
  function InitialSearch(nameParam: Option<string>): (term: Option<string>)
    ensures term.Some? <==> nameParam.Some? && nameParam.value != ""
    ensures term.Some? ==> term.value == nameParam.value
  {
    var initialName := if nameParam.Some? then nameParam.value else "";
    if initialName != "" then Some(initialName) else None
  }

  /** The two entry points disagree on a whitespace-only name: from the URL it is
      sent to the server, typed into the form it is not. */
  lemma WhitespaceNameOnlyFetchedFromUrl(s: string)
    requires s != "" && AllWhitespace(s)
    ensures InitialSearch(Some(s)) == Some(s)
    ensures SearchTerm(s) == None
  {
  }

  /** Whitespace typed around a name never reaches the server: the name alone is sent. */
  lemma SearchTermIgnoresPadding(pre: string, name: string, post: string)
    requires AllWhitespace(pre) && AllWhitespace(post)
    requires name != [] && !IsJsWhitespace(name[0]) && !IsJsWhitespace(name[|name| - 1])
    ensures SearchTerm(pre + name + post) == Some(name)
  {
    var s := pre + name + post;
    var lo, hi := |pre|, |pre| + |name|;
    assert s[lo] == name[0] && s[hi - 1] == name[|name| - 1];
    assert WhitespaceBetween(s, 0, lo) by {
      forall k | 0 <= k < lo ensures IsJsWhitespace(s[k]) {
        assert s[k] == pre[k];
      }
    }
    assert WhitespaceBetween(s, hi, |s|) by {
      forall k | hi <= k < |s| ensures IsJsWhitespace(s[k]) {
        assert s[k] == post[k - hi];
      }
    }
    SkipPadding(s, 0, lo);
    DropPadding(s, lo, hi, |s|);
    assert s[lo..hi] == name;
  }
}
