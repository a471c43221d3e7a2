/**
 * The logic of the reviews page: reading a numeric App Store id out of what the user typed, the
 * guard that refuses to fetch without one, and the search and rating filter over the reviews.
 */
module LiveReviewsList {
  import opened Wrappers
  import opened JsRuntime
  import opened ReviewTypes

  // ---------------------------------------------------------------------------------------------
  // extractNumericId

  /** `input.replace(/^id/i, '')`: drop a leading `id` in any letter case, once. */
  function StripIdPrefix(s: string): (r: string)
    ensures r != s <==> |s| >= 2 && LowerChar(s[0]) == 'i' && LowerChar(s[1]) == 'd'
    ensures r == s || (|s| >= 2 && r == s[2..] && !IsDigit(s[0]) && !IsDigit(s[1]))
  {
    if |s| >= 2 && LowerChar(s[0]) == 'i' && LowerChar(s[1]) == 'd' then s[2..] else s
  }

  predicate NoDigit(s: string) {
    forall i :: 0 <= i < |s| ==> !IsDigit(s[i])
  }

  /** `s.match(/\d+/)?.[0] || ''`: the leftmost maximal run of digits, or the empty string. */
  function FirstDigitRun(s: string): (r: string)
    ensures forall i :: 0 <= i < |r| ==> IsDigit(r[i])
    ensures r == [] <==> NoDigit(s)
  {
    if s == [] then []
    else if IsDigit(s[0]) then s[..DigitRunLength(s, false)]
    else FirstDigitRun(s[1..])
  }

  /** `extractNumericId`: digits only, and empty exactly when the input holds no digit at all. */
  function ExtractNumericId(s: string): (r: string)
    ensures r == FirstDigitRun(s)
    ensures forall i :: 0 <= i < |r| ==> IsDigit(r[i])
    ensures r == [] <==> NoDigit(s)
  {
    ExtractIgnoresPrefix(s);
    FirstDigitRun(StripIdPrefix(s))
  }

  /** Two leading non-digits never change which run of digits is found first. */
  lemma SkipNonDigits(s: string)
    requires |s| >= 2 && !IsDigit(s[0]) && !IsDigit(s[1])
    ensures FirstDigitRun(s[2..]) == FirstDigitRun(s)
  {
    assert s[1..][1..] == s[2..];
  }

  /** Stripping the `id` prefix never changes the digits found: the prefix holds no digit. */
  lemma ExtractIgnoresPrefix(s: string)
    ensures FirstDigitRun(StripIdPrefix(s)) == FirstDigitRun(s)
  {
    if StripIdPrefix(s) != s {
      SkipNonDigits(s);
    }
  }

  /**
   * `s[i..i + n]` is the leftmost maximal run of digits of `s`: no digit before `i`, digits up
   * to `i + n`, and no digit right after it.
   */
  predicate IsFirstDigitRun(s: string, i: nat, n: nat) {
    n >= 1 && i + n <= |s|
    && NoDigit(s[..i])
    && (forall j :: i <= j < i + n ==> IsDigit(s[j]))
    && (i + n == |s| || !IsDigit(s[i + n]))
  }

  /** The run found is the leftmost maximal one, a contiguous piece of the input. */
  lemma {:induction false} FirstDigitRunIsLeftmost(s: string, i: nat, n: nat)
    requires IsFirstDigitRun(s, i, n)
    ensures FirstDigitRun(s) == s[i..i + n]
  {
    if i == 0 {
      assert DigitRunLength(s, false) == n;
    } else {
      FirstDigitRunShift(s, i, n);
      FirstDigitRunIsLeftmost(s[1..], i - 1, n);
      assert s[1..][i - 1..i - 1 + n] == s[i..i + n];
    }
  }

  /** A leftmost run that does not start the text is the leftmost run of the text's tail. */
  lemma FirstDigitRunShift(s: string, i: nat, n: nat)
    requires IsFirstDigitRun(s, i, n) && i > 0
    ensures IsFirstDigitRun(s[1..], i - 1, n)
    ensures FirstDigitRun(s) == FirstDigitRun(s[1..])
  {
    assert s[0] == s[..i][0];
    assert s[1..][..i - 1] == s[..i][1..];
  }

  /** The run found is a contiguous piece of the input. */
  lemma {:induction false} FirstDigitRunOccurs(s: string)
    ensures exists i :: OccursAt(s, FirstDigitRun(s), i)
  {
    var r := FirstDigitRun(s);
    if s == [] {
      assert OccursAt(s, r, 0);
    } else if IsDigit(s[0]) {
      assert r == s[..DigitRunLength(s, false)];
      assert OccursAt(s, r, 0);
    } else {
      assert r == FirstDigitRun(s[1..]);
      FirstDigitRunOccurs(s[1..]);
      var i :| OccursAt(s[1..], r, i);
      assert s[1..][i..i + |r|] == s[i + 1..i + 1 + |r|];
      assert OccursAt(s, r, i + 1);
    }
  }

  /** A prefixed id in either letter case yields the same digits. */
  lemma ExtractPrefixedId(s: string)
    requires s == "id123" || s == "ID123"
    ensures ExtractNumericId(s) == "123"
  {
    assert StripIdPrefix(s) == s[2..] == "123";
    FirstDigitRunIsLeftmost(s[2..], 0, 3);
  }

  /** Typed text with two runs of digits yields the first run only. */
  lemma ExtractFirstRunOnly(s: string)
    requires s == "ab45cd67"
    ensures ExtractNumericId(s) == "45"
  {
    ExtractIgnoresPrefix(s);
    assert NoDigit(s[..2]) by {
      assert s[..2] == "ab";
    }
    FirstDigitRunIsLeftmost(s, 2, 2);
    assert s[2..4] == "45";
  }

  // ---------------------------------------------------------------------------------------------
  // The guard of fetchReviews

  const INVALID_ID_MESSAGE := "Please enter a valid App Store ID"

  /**
   * What `fetchReviews` does before awaiting anything: the loading flag and error text it leaves
   * behind, and the request it sends, if any.
   */
  datatype FetchStart = FetchStart(loading: bool, error: string, request: Option<string>)

  /** `fetchReviews` up to the request: refuse an id with no digit, otherwise ask the reviews route. */
  function StartFetch(appId: string, country: string): (r: FetchStart)
    ensures r.request.None? <==> NoDigit(appId)
    ensures r.request.None? ==> !r.loading && r.error == INVALID_ID_MESSAGE
    ensures r.request.Some? ==> (
              var id := ExtractNumericId(appId);
              r.loading && r.error == "" && id != []
              && r.request.value == "/api/?appId=" + id + "&country=" + country)
  {
    var numericId := ExtractNumericId(appId);
    if numericId == [] then FetchStart(false, INVALID_ID_MESSAGE, None)
    else FetchStart(true, "", Some("/api/?appId=" + numericId + "&country=" + country))
  }

  /** The query never carries anything but digits as the app id. */
  lemma RequestCarriesDigitsOnly(appId: string, country: string)
    requires StartFetch(appId, country).request.Some?
    ensures exists id :: id != [] && (forall i :: 0 <= i < |id| ==> IsDigit(id[i]))
                         && StartFetch(appId, country).request.value == "/api/?appId=" + id + "&country=" + country
  {
    var id := ExtractNumericId(appId);
    assert id != [] && (forall i :: 0 <= i < |id| ==> IsDigit(id[i]));
  }

  // ---------------------------------------------------------------------------------------------
  // filteredReviews

  /** The search term is found, case-insensitively, in the review's text (`null` read as `''`) or its title. */
  predicate MatchesSearch(r: Review, term: string)
    ensures MatchesSearch(r, term) <==> (exists i :: OccursAt(ToLower(r.content.text.GetOr("")), ToLower(term), i))
                                        || (exists i :: OccursAt(ToLower(r.title), ToLower(term), i))
  {
    var needle := ToLower(term);
    IncludesIffOccurs(ToLower(r.content.text.GetOr("")), needle);
    IncludesIffOccurs(ToLower(r.title), needle);
    Includes(ToLower(r.content.text.GetOr("")), needle) || Includes(ToLower(r.title), needle)
  }

  /** `selectedRating === 0 || review.rating === selectedRating`; a NaN rating equals nothing. */
  predicate MatchesRating(r: Review, selected: int)
    ensures r.rating.None? ==> (MatchesRating(r, selected) <==> selected == 0)
  {
    selected == 0 || r.rating == Some(selected)
  }

  predicate Kept(r: Review, term: string, selected: int) {
    MatchesSearch(r, term) && MatchesRating(r, selected)
  }

  /** `reviews.filter(...)`: the reviews that pass both tests, in their original order. */
  function FilteredReviews(reviews: seq<Review>, term: string, selected: int): (out: seq<Review>)
    ensures |out| <= |reviews|
    ensures forall r :: r in out <==> r in reviews && Kept(r, term, selected)
  {
    if reviews == [] then []
    else (if Kept(reviews[0], term, selected) then [reviews[0]] else [])
         + FilteredReviews(reviews[1..], term, selected)
  }

  /** `a` is `b` with some elements left out and the rest in the same order. */
  predicate IsSubsequence(a: seq<Review>, b: seq<Review>)
    decreases |b|
  {
    a == [] || (b != [] && ((a[0] == b[0] && IsSubsequence(a[1..], b[1..])) || IsSubsequence(a, b[1..])))
  }

  /** The filtered list is an order-preserving subsequence of the reviews. */
  lemma {:induction false} FilteredIsSubsequence(reviews: seq<Review>, term: string, selected: int)
    ensures IsSubsequence(FilteredReviews(reviews, term, selected), reviews)
  {
    if reviews != [] {
      var out := FilteredReviews(reviews, term, selected);
      var rest := FilteredReviews(reviews[1..], term, selected);
      FilteredIsSubsequence(reviews[1..], term, selected);
      if Kept(reviews[0], term, selected) {
        assert out[0] == reviews[0] && out[1..] == rest;
      } else {
        assert out == rest;
      }
    }
  }

  /** Filtering two lists one after the other is filtering their concatenation. */
  lemma {:induction false} FilteredAppend(a: seq<Review>, b: seq<Review>, term: string, selected: int)
    ensures FilteredReviews(a + b, term, selected) == FilteredReviews(a, term, selected) + FilteredReviews(b, term, selected)
  {
    if a == [] {
      assert a + b == b;
    } else {
      assert (a + b)[1..] == a[1..] + b;
      FilteredAppend(a[1..], b, term, selected);
    }
  }

  lemma ToLowerEmpty()
    ensures ToLower("") == ""
  {
  }

  /** An empty search box matches every review. */
  lemma EmptySearchMatches(r: Review)
    ensures MatchesSearch(r, "")
  {
    ToLowerEmpty();
    IncludesEmpty(ToLower(r.title));
  }

  /** With an empty search box and no star filter, every review is shown, in order. */
  lemma {:induction false} FilteredAllWhenUnfiltered(reviews: seq<Review>)
    ensures FilteredReviews(reviews, "", 0) == reviews
  {
    if reviews != [] {
      EmptySearchMatches(reviews[0]);
      FilteredAllWhenUnfiltered(reviews[1..]);
      assert [reviews[0]] + reviews[1..] == reviews;
    }
  }

  /** A star filter other than 0 keeps exactly the reviews with that rating, and a NaN rating never. */
  lemma RatingFilterExact(reviews: seq<Review>, selected: int)
    requires selected != 0
    ensures forall r :: r in FilteredReviews(reviews, "", selected) <==> r in reviews && r.rating == Some(selected)
  {
    forall r | r in reviews {
      EmptySearchMatches(r);
    }
  }

  /** Lower-casing twice is lower-casing once. */
  lemma ToLowerIdempotent(s: string)
    ensures ToLower(ToLower(s)) == ToLower(s)
  {
  }

  /** The search ignores the letter case of the term: typing it in capitals finds the same reviews. */
  lemma SearchIgnoresTermCase(r: Review, term: string)
    ensures MatchesSearch(r, ToLower(term)) == MatchesSearch(r, term)
  {
    ToLowerIdempotent(term);
  }

  /** Filtering again with the same settings changes nothing. */
  lemma {:induction false} FilteredIdempotent(reviews: seq<Review>, term: string, selected: int)
    ensures FilteredReviews(FilteredReviews(reviews, term, selected), term, selected)
            == FilteredReviews(reviews, term, selected)
  {
    if reviews != [] {
      var head := if Kept(reviews[0], term, selected) then [reviews[0]] else [];
      var rest := FilteredReviews(reviews[1..], term, selected);
      FilteredAppend(head, rest, term, selected);
      FilteredIdempotent(reviews[1..], term, selected);
      if head != [] {
        assert FilteredReviews(head, term, selected) == head + FilteredReviews([], term, selected);
        assert head + [] == head;
      }
    }
  }
}
