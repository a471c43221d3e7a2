/**
 * The review scraper: classifying page fetches, processing a slice of pages, the slice-by-slice
 * scheduler that stops at the first empty slice, the app lookup, and the join of the two.
 *
 * The feed service and the XML parser are oracles (`Upstream`); the lookup service's answer is a
 * value. The scheduler returns, next to the reviews, the log of its side effects: one `Request`
 * per page fetched and one `Pause` per 500 ms sleep.
 */
module ReviewScraper {
  import opened Wrappers
  import opened ReviewTypes
  import opened FeedParsing

  /** The page bound and the slice width, fixed in the scraper. */
  const MAX_PAGES: nat := 20
  const CONCURRENT_REQUESTS: nat := 3

  function Min(a: int, b: int): int {
    if a <= b then a else b
  }

  // ---------------------------------------------------------------------------------------------
  // One page

  /** What a GET of one feed page came back with. */
  datatype HttpOutcome = Response(body: string) | HttpError(status: int) | NetworkError

  /**
   * `fetchPage`: the body, or `null` for every failure. The two kinds of `null` differ only in
   * the line they log, and are kept apart here for that reason.
   */
  datatype PageFetch = Payload(body: string) | EndOfPages | FetchFailed

  function FetchPage(o: HttpOutcome): (r: PageFetch)
    ensures r.Payload? <==> o.Response?
    ensures r.Payload? ==> r.body == o.body
    ensures r.EndOfPages? <==> o == HttpError(400)
  {
    match o
    case Response(body) => Payload(body)
    case HttpError(status) => if status == 400 then EndOfPages else FetchFailed
    case NetworkError => FetchFailed
  }

  /** What the XML parser made of a payload; `feed` is `None` when the document has no `feed` root. */
  datatype XmlParse = XmlError | Parsed(feed: Option<Feed>)

  /** The remote feed service (by page number) and the XML parser, as oracles. */
  datatype Upstream = Upstream(feedPage: int -> HttpOutcome, parseXml: string -> XmlParse)

  /**
   * One page's reviews, as the callback inside `processBatch` computes them. A failed fetch,
   * whatever its kind, contributes nothing and is not retried; a parse failure or a missing
   * `feed` root aborts.
   */
  function PageReviews(up: Upstream, page: int): (r: Result<seq<Review>, Failure>)
    ensures !up.feedPage(page).Response? ==> r == Ok([])
    ensures up.feedPage(page) == Response("") ==> r == Ok([])
    ensures r == Err(XmlRejected) <==> up.feedPage(page).Response? && up.feedPage(page).body != ""
                                       && up.parseXml(up.feedPage(page).body).XmlError?
    ensures up.feedPage(page).Response? && up.feedPage(page).body != "" ==> (
              match up.parseXml(up.feedPage(page).body)
              case XmlError => true
              case Parsed(None) => r == Err(TypeError)
              case Parsed(Some(feed)) => r == FeedReviews(feed))
  {
    match FetchPage(up.feedPage(page))
    case Payload(body) =>
      if body == "" then Ok([])
      else (
        match up.parseXml(body)
        case XmlError => Err(XmlRejected)
        case Parsed(None) => Err(TypeError)
        case Parsed(Some(feed)) => FeedReviews(feed))
    case _ => Ok([])
  }

  // ---------------------------------------------------------------------------------------------
  // One slice of pages

  /** Two results one after the other: the first failure wins, otherwise the reviews are concatenated. */
  function Chain(x: Result<seq<Review>, Failure>, y: Result<seq<Review>, Failure>): Result<seq<Review>, Failure> {
    match x
    case Err(e) => Err(e)
    case Ok(a) => (
      match y
      case Err(e) => Err(e)
      case Ok(b) => Ok(a + b))
  }

  /** What the per-page callback of `processBatch` yields for each page number. */
  type PageResults = int -> Result<seq<Review>, Failure>

  /** The callback bound to the network and the parser. */
  function PageCallback(up: Upstream): PageResults {
    page => PageReviews(up, page)
  }

  /**
   * `processBatch`: the pages' results joined in the order of the pages (not the order in which
   * the requests complete) and flattened; any page that aborts makes the whole slice abort.
   */
  function ProcessBatch(pr: PageResults, pages: seq<int>): (r: Result<seq<Review>, Failure>)
    ensures pages == [] ==> r == Ok([])
    ensures |pages| == 1 ==> r == pr(pages[0])
  {
    if pages == [] then Ok([])
    else
      var first := pr(pages[0]);
      assert first.Ok? ==> first.value + [] == first.value;
      Chain(first, ProcessBatch(pr, pages[1..]))
  }

  /** A slice succeeds exactly when every one of its pages does. */
  lemma {:induction false} ProcessBatchOk(pr: PageResults, pages: seq<int>)
    ensures ProcessBatch(pr, pages).Ok? <==> forall i :: 0 <= i < |pages| ==> pr(pages[i]).Ok?
  {
    if pages != [] {
      ProcessBatchOk(pr, pages[1..]);
      assert forall i :: 1 <= i < |pages| ==> pages[i] == pages[1..][i - 1];
    }
  }

  lemma ChainAssociative(x: Result<seq<Review>, Failure>, y: Result<seq<Review>, Failure>, z: Result<seq<Review>, Failure>)
    ensures Chain(Chain(x, y), z) == Chain(x, Chain(y, z))
  {
    if x.Ok? && y.Ok? && z.Ok? {
      assert (x.value + y.value) + z.value == x.value + (y.value + z.value);
    }
  }

  /** Processing two runs of pages one after the other is processing their concatenation. */
  lemma {:induction false} ProcessBatchAppend(pr: PageResults, a: seq<int>, b: seq<int>)
    ensures ProcessBatch(pr, a + b) == Chain(ProcessBatch(pr, a), ProcessBatch(pr, b))
  {
    if a == [] {
      assert a + b == b;
      var y := ProcessBatch(pr, b);
      if y.Ok? {
        assert [] + y.value == y.value;
      }
    } else {
      assert (a + b)[1..] == a[1..] + b;
      ProcessBatchAppend(pr, a[1..], b);
      ChainAssociative(pr(a[0]), ProcessBatch(pr, a[1..]), ProcessBatch(pr, b));
    }
  }

  // ---------------------------------------------------------------------------------------------
  // The page range and its slices

  /** `Array.from({ length: n }, (_, i) => i + 1)`. */
  function Pages(n: nat): (ps: seq<int>)
    ensures |ps| == n
    ensures forall i :: 0 <= i < n ==> ps[i] == i + 1
  {
    seq(n, i => i + 1)
  }

  /** The slices the loop takes, starting at index `i`: `pages.slice(i, i + k)`, then `i += k`. */
  function SlicesFrom(pages: seq<int>, k: nat, i: nat): seq<seq<int>>
    requires k >= 1
    decreases |pages| - i
  {
    if i >= |pages| then [] else [pages[i..Min(i + k, |pages|)]] + SlicesFrom(pages, k, i + k)
  }

  /** The slices of the scraper's own run. */
  function SourceSlices(): seq<seq<int>> {
    SlicesFrom(Pages(MAX_PAGES), CONCURRENT_REQUESTS, 0)
  }

  function Flatten(ss: seq<seq<int>>): seq<int> {
    if ss == [] then [] else ss[0] + Flatten(ss[1..])
  }

  lemma {:induction false} FlattenSnoc(ss: seq<seq<int>>, g: nat)
    requires g < |ss|
    ensures Flatten(ss[..g + 1]) == Flatten(ss[..g]) + ss[g]
  {
    if g == 0 {
      assert ss[..1] == [ss[0]];
      assert Flatten(ss[..1]) == ss[0] + Flatten([]);
    } else {
      FlattenSnoc(ss[1..], g - 1);
      assert ss[..g + 1][1..] == ss[1..][..g];
      assert ss[..g][1..] == ss[1..][..g - 1];
    }
  }

  /** ceil(x / k), counted the way the loop counts its turns. */
  function SliceCount(x: int, k: nat): nat
    requires k >= 1
    decreases x
  {
    if x <= 0 then 0 else 1 + SliceCount(x - k, k)
  }

  /**
   * The slices partition the remaining pages: there are ceil((n - i) / k) of them, each holds
   * between 1 and k pages, and read in order they give back the pages from index `i` on.
   */
  lemma {:induction false} SlicesPartition(pages: seq<int>, k: nat, i: nat)
    requires k >= 1 && i <= |pages|
    ensures |SlicesFrom(pages, k, i)| == SliceCount(|pages| - i, k)
    ensures Flatten(SlicesFrom(pages, k, i)) == pages[i..]
    ensures forall j :: 0 <= j < |SlicesFrom(pages, k, i)| ==> 1 <= |SlicesFrom(pages, k, i)[j]| <= k
    decreases |pages| - i
  {
    var ss := SlicesFrom(pages, k, i);
    if i == |pages| {
      assert pages[i..] == [];
    } else {
      var rest := SlicesFrom(pages, k, i + k);
      var here := pages[i..Min(i + k, |pages|)];
      assert ss == [here] + rest;
      if i + k >= |pages| {
        assert rest == [];
        assert here == pages[i..];
        assert Flatten(ss) == here + Flatten([]);
        assert SliceCount(|pages| - i - k, k) == 0;
      } else {
        SlicesPartition(pages, k, i + k);
        assert ss[1..] == rest;
        assert pages[i..] == here + pages[i + k..];
      }
    }
  }

  /** `SliceCount` is the ceiling of the quotient: k times it covers x, and one slice fewer does not. */
  lemma {:induction false} SliceCountIsCeiling(x: nat, k: nat)
    requires k >= 1
    ensures SliceCount(x, k) * k >= x
    ensures x > 0 ==> (SliceCount(x, k) - 1) * k < x
    decreases x
  {
    if x > 0 {
      var c := SliceCount(x - k, k);
      if x - k > 0 {
        SliceCountIsCeiling(x - k, k);
      }
      assert (c + 1) * k == c * k + k;
      assert c > 0 ==> (c - 1) * k + k == c * k;
    }
  }

  /** The first `m` slices hold the pages from index `i` up to `i + m * k`, cut at the end. */
  lemma {:induction false} SlicesPrefix(pages: seq<int>, k: nat, i: nat, m: nat)
    requires k >= 1 && i <= |pages| && m <= |SlicesFrom(pages, k, i)|
    ensures Flatten(SlicesFrom(pages, k, i)[..m]) == pages[i..Min(i + m * k, |pages|)]
    decreases |pages| - i
  {
    var ss := SlicesFrom(pages, k, i);
    if m == 0 {
      assert ss[..0] == [];
    } else {
      SlicesFromStep(pages, k, i);
      var rest := SlicesFrom(pages, k, i + k);
      TakeCons(ss, m - 1);
      assert ss[1..] == rest;
      FlattenCons(ss[0], rest[..m - 1]);
      if i + k <= |pages| {
        SlicesPrefix(pages, k, i + k, m - 1);
        MulStep(m, k);
        var end := Min(i + m * k, |pages|);
        SplitSlice(pages, i, i + k, end);
      } else {
        assert rest[..m - 1] == [];
      }
    }
  }

  lemma MulStep(m: nat, k: nat)
    requires m >= 1
    ensures (m - 1) * k + k == m * k && k <= m * k
  {
  }

  lemma SplitSlice(s: seq<int>, i: nat, j: nat, e: nat)
    requires i <= j <= e <= |s|
    ensures s[i..e] == s[i..j] + s[j..e]
  {
  }


  /** The scraper's run: pages 1..20 in the seven slices {1,2,3}, {4,5,6}, ..., {16,17,18}, {19,20}. */
  lemma SourceSlicesAreSeven()
    ensures SourceSlices() == [[1, 2, 3], [4, 5, 6], [7, 8, 9], [10, 11, 12], [13, 14, 15], [16, 17, 18], [19, 20]]
  {
    var ps := Pages(20);
    var s6 := SlicesFrom(ps, 3, 18);
    assert s6 == [[19, 20]] by {
      SlicesFromStep(ps, 3, 18);
      assert ps[18..20] == [19, 20];
    }
    var s5 := SlicesFrom(ps, 3, 15);
    assert s5 == [[16, 17, 18]] + s6 by {
      SlicesFromStep(ps, 3, 15);
      assert ps[15..18] == [16, 17, 18];
    }
    var s4 := SlicesFrom(ps, 3, 12);
    assert s4 == [[13, 14, 15]] + s5 by {
      SlicesFromStep(ps, 3, 12);
      assert ps[12..15] == [13, 14, 15];
    }
    var s3 := SlicesFrom(ps, 3, 9);
    assert s3 == [[10, 11, 12]] + s4 by {
      SlicesFromStep(ps, 3, 9);
      assert ps[9..12] == [10, 11, 12];
    }
    var s2 := SlicesFrom(ps, 3, 6);
    assert s2 == [[7, 8, 9]] + s3 by {
      SlicesFromStep(ps, 3, 6);
      assert ps[6..9] == [7, 8, 9];
    }
    var s1 := SlicesFrom(ps, 3, 3);
    assert s1 == [[4, 5, 6]] + s2 by {
      SlicesFromStep(ps, 3, 3);
      assert ps[3..6] == [4, 5, 6];
    }
    assert SlicesFrom(ps, 3, 0) == [[1, 2, 3]] + s1 by {
      SlicesFromStep(ps, 3, 0);
      assert ps[0..3] == [1, 2, 3];
    }
  }


  // ---------------------------------------------------------------------------------------------
  // The scheduler

  /** The scraper's observable side effects: a page request, or the pause between two slices. */
  datatype Event = Request(page: int) | Pause

  datatype RunOutcome = RunOutcome(reviews: Result<seq<Review>, Failure>, log: seq<Event>)

  function Requests(pages: seq<int>): seq<Event> {
    seq(|pages|, i requires 0 <= i < |pages| => Request(pages[i]))
  }

  /** A slice that yields at least one review. */
  predicate Productive(pr: PageResults, slice: seq<int>) {
    ProcessBatch(pr, slice).Ok? && ProcessBatch(pr, slice).value != []
  }

  /**
   * The specification of `getAllReviews` over a list of slices: fetch a slice; abort if it
   * aborts; stop with what was gathered if it is empty; otherwise keep its reviews, pause when
   * another slice follows, and go on.
   */
  function Run(pr: PageResults, ss: seq<seq<int>>): RunOutcome
    decreases |ss|
  {
    if ss == [] then RunOutcome(Ok([]), [])
    else
      var fetched := Requests(ss[0]);
      match ProcessBatch(pr, ss[0])
      case Err(e) => RunOutcome(Err(e), fetched)
      case Ok(rs) =>
        if rs == [] then RunOutcome(Ok([]), fetched)
        else
          var rest := Run(pr, ss[1..]);
          RunOutcome(Chain(Ok(rs), rest.reviews), fetched + (if |ss| > 1 then [Pause] else []) + rest.log)
  }

  /** Whatever the slices yield, a run starts by requesting every page of the first slice, in order. */
  lemma RunFetchesFirstSlice(pr: PageResults, ss: seq<seq<int>>)
    requires ss != []
    ensures |ss[0]| <= |Run(pr, ss).log| && Run(pr, ss).log[..|ss[0]|] == Requests(ss[0])
  {
    var o := Run(pr, ss);
    var fetched := Requests(ss[0]);
    assert o.log == fetched + o.log[|fetched|..];
  }

  /** How many slices a run fetches: up to and including the first slice that is not productive. */
  function Attempted(pr: PageResults, ss: seq<seq<int>>): (m: nat)
    ensures m <= |ss| && (ss != [] ==> m >= 1)
    ensures forall j :: 0 <= j < m - 1 ==> Productive(pr, ss[j])
    ensures 0 < m < |ss| ==> !Productive(pr, ss[m - 1])
  {
    if ss == [] then 0
    else if !Productive(pr, ss[0]) then 1
    else 1 + Attempted(pr, ss[1..])
  }

  /** The requests of the given slices, one slice after the other, with one pause between two slices. */
  function Joined(ss: seq<seq<int>>): seq<Event> {
    if ss == [] then []
    else if |ss| == 1 then Requests(ss[0])
    else Requests(ss[0]) + [Pause] + Joined(ss[1..])
  }

  /** The pages a log requests, in the order it requests them. */
  function Requested(log: seq<Event>): seq<int> {
    if log == [] then []
    else (if log[0].Request? then [log[0].page] else []) + Requested(log[1..])
  }

  function PauseCount(log: seq<Event>): nat {
    if log == [] then 0
    else (if log[0].Pause? then 1 else 0) + PauseCount(log[1..])
  }

  /** One productive slice, then the rest of the run. */
  lemma RunProductive(pr: PageResults, ss: seq<seq<int>>)
    requires ss != [] && Productive(pr, ss[0])
    ensures Run(pr, ss) == RunOutcome(Chain(ProcessBatch(pr, ss[0]), Run(pr, ss[1..]).reviews),
                                      Requests(ss[0]) + (if |ss| > 1 then [Pause] else []) + Run(pr, ss[1..]).log)
  {
  }

  lemma JoinedCons(x: seq<int>, t: seq<seq<int>>)
    ensures Joined([x] + t) == Requests(x) + (if t != [] then [Pause] else []) + Joined(t)
  {
    assert ([x] + t)[1..] == t;
    if t == [] {
      assert Requests(x) + [] + [] == Requests(x);
    }
  }

  lemma FlattenCons(x: seq<int>, t: seq<seq<int>>)
    ensures Flatten([x] + t) == x + Flatten(t)
  {
    assert ([x] + t)[1..] == t;
  }

  /**
   * The whole behaviour of a run in closed form: with `m` the number of slices it attempts, its
   * log is the requests of those `m` slices with a pause between consecutive ones, and its result
   * is what processing all their pages in order gives.
   */
  lemma {:induction false} RunShape(pr: PageResults, ss: seq<seq<int>>)
    ensures Run(pr, ss) == RunOutcome(ProcessBatch(pr, Flatten(ss[..Attempted(pr, ss)])), Joined(ss[..Attempted(pr, ss)]))
  {
    if ss == [] {
      assert ss[..0] == [];
    } else if !Productive(pr, ss[0]) {
      RunShapeStops(pr, ss);
    } else {
      RunShape(pr, ss[1..]);
      RunShapeContinues(pr, ss);
    }
  }

  /** The closed form when the first slice is not productive: that slice alone is attempted. */
  lemma RunShapeStops(pr: PageResults, ss: seq<seq<int>>)
    requires ss != [] && !Productive(pr, ss[0])
    ensures Run(pr, ss) == RunOutcome(ProcessBatch(pr, Flatten(ss[..Attempted(pr, ss)])), Joined(ss[..Attempted(pr, ss)]))
  {
    assert ss[..1] == [ss[0]];
    FlattenCons(ss[0], []);
    assert ss[0] + [] == ss[0];
  }

  lemma AttemptedProductive(pr: PageResults, ss: seq<seq<int>>)
    requires ss != [] && Productive(pr, ss[0])
    ensures Attempted(pr, ss) == 1 + Attempted(pr, ss[1..])
  {
  }

  lemma TakeCons(ss: seq<seq<int>>, n: nat)
    requires n < |ss|
    ensures ss[..n + 1] == [ss[0]] + ss[1..][..n]
  {
  }

  /** The closed form carries over from the remaining slices to a run that starts with a productive one. */
  lemma RunShapeContinues(pr: PageResults, ss: seq<seq<int>>)
    requires ss != [] && Productive(pr, ss[0])
    requires Run(pr, ss[1..]) == RunOutcome(ProcessBatch(pr, Flatten(ss[1..][..Attempted(pr, ss[1..])])),
                                            Joined(ss[1..][..Attempted(pr, ss[1..])]))
    ensures Run(pr, ss) == RunOutcome(ProcessBatch(pr, Flatten(ss[..Attempted(pr, ss)])), Joined(ss[..Attempted(pr, ss)]))
  {
    var rest := ss[1..];
    var taken := rest[..Attempted(pr, rest)];
    AttemptedProductive(pr, ss);
    TakeCons(ss, Attempted(pr, rest));
    RunProductive(pr, ss);
    FlattenBatchCons(pr, ss[0], taken);
    JoinedCons(ss[0], taken);
    assert taken != [] <==> |ss| > 1;
  }

  lemma FlattenBatchCons(pr: PageResults, x: seq<int>, t: seq<seq<int>>)
    ensures ProcessBatch(pr, Flatten([x] + t)) == Chain(ProcessBatch(pr, x), ProcessBatch(pr, Flatten(t)))
  {
    FlattenCons(x, t);
    ProcessBatchAppend(pr, x, Flatten(t));
  }


  lemma {:induction false} RequestedAppend(a: seq<Event>, b: seq<Event>)
    ensures Requested(a + b) == Requested(a) + Requested(b)
  {
    if a == [] {
      assert a + b == b;
    } else {
      var ab := a + b;
      var head := if a[0].Request? then [a[0].page] else [];
      assert ab[0] == a[0] && ab[1..] == a[1..] + b;
      RequestedAppend(a[1..], b);
      calc {
        Requested(ab);
        head + Requested(a[1..] + b);
        head + (Requested(a[1..]) + Requested(b));
        (head + Requested(a[1..])) + Requested(b);
        Requested(a) + Requested(b);
      }
    }
  }

  lemma {:induction false} PauseCountAppend(a: seq<Event>, b: seq<Event>)
    ensures PauseCount(a + b) == PauseCount(a) + PauseCount(b)
  {
    if a == [] {
      assert a + b == b;
    } else {
      assert (a + b)[1..] == a[1..] + b;
      PauseCountAppend(a[1..], b);
    }
  }

  lemma {:induction false} RequestsOfPages(ps: seq<int>)
    ensures Requested(Requests(ps)) == ps
    ensures PauseCount(Requests(ps)) == 0
  {
    if ps != [] {
      assert Requests(ps)[1..] == Requests(ps[1..]);
      RequestsOfPages(ps[1..]);
    }
  }

  /** A joined log requests exactly the slices' pages, in order. */
  lemma {:induction false} JoinedRequested(ss: seq<seq<int>>)
    ensures Requested(Joined(ss)) == Flatten(ss)
  {
    if ss != [] {
      RequestsOfPages(ss[0]);
      if |ss| == 1 {
        assert Flatten(ss) == ss[0] + Flatten([]);
        assert ss[0] + [] == ss[0];
      } else {
        JoinedRequested(ss[1..]);
        RequestedAppend(Requests(ss[0]) + [Pause], Joined(ss[1..]));
        RequestedAppend(Requests(ss[0]), [Pause]);
        assert Requested([Pause]) == [];
        assert ss[0] + [] == ss[0];
      }
    }
  }

  /** A joined log pauses exactly once between two consecutive slices. */
  lemma {:induction false} JoinedPauses(ss: seq<seq<int>>)
    requires ss != []
    ensures PauseCount(Joined(ss)) == |ss| - 1
  {
    RequestsOfPages(ss[0]);
    if |ss| > 1 {
      JoinedPauses(ss[1..]);
      PauseCountAppend(Requests(ss[0]) + [Pause], Joined(ss[1..]));
      PauseCountAppend(Requests(ss[0]), [Pause]);
      assert PauseCount([Pause]) == 1;
    }
  }

  /**
   * The reviews of any run are the per-page reviews of exactly the pages it requested,
   * concatenated in the order it requested them; nothing depends on completion order.
   */
  lemma RunReviewsFollowRequests(pr: PageResults, ss: seq<seq<int>>)
    ensures Run(pr, ss).reviews == ProcessBatch(pr, Requested(Run(pr, ss).log))
  {
    RunShape(pr, ss);
    JoinedRequested(ss[..Attempted(pr, ss)]);
  }

  lemma AttemptedStopsAt(pr: PageResults, ss: seq<seq<int>>, g: nat)
    requires g < |ss| && !Productive(pr, ss[g])
    requires forall j :: 0 <= j < g ==> Productive(pr, ss[j])
    ensures Attempted(pr, ss) == g + 1
  {
  }

  /**
   * If slice `g` is the first to yield no review, the run returns exactly the reviews of the
   * slices before it, fetches no page of a later slice, and pauses `g` times.
   */
  lemma FirstEmptySliceStops(pr: PageResults, ss: seq<seq<int>>, g: nat)
    requires g < |ss|
    requires forall j :: 0 <= j < g ==> Productive(pr, ss[j])
    requires ProcessBatch(pr, ss[g]) == Ok([])
    ensures Run(pr, ss).reviews == ProcessBatch(pr, Flatten(ss[..g]))
    ensures Requested(Run(pr, ss).log) == Flatten(ss[..g + 1])
    ensures PauseCount(Run(pr, ss).log) == g
  {
    AttemptedStopsAt(pr, ss, g);
    RunShape(pr, ss);
    EmptySliceAdds(pr, ss, g);
  }

  /** Processing the first `g + 1` slices, the last of them empty, is processing the first `g`. */
  lemma EmptySliceAdds(pr: PageResults, ss: seq<seq<int>>, g: nat)
    requires g < |ss| && ProcessBatch(pr, ss[g]) == Ok([])
    ensures ProcessBatch(pr, Flatten(ss[..g + 1])) == ProcessBatch(pr, Flatten(ss[..g]))
    ensures Requested(Joined(ss[..g + 1])) == Flatten(ss[..g + 1])
    ensures PauseCount(Joined(ss[..g + 1])) == g
  {
    JoinedRequested(ss[..g + 1]);
    JoinedPauses(ss[..g + 1]);
    FlattenSnoc(ss, g);
    ProcessBatchAppend(pr, Flatten(ss[..g]), ss[g]);
    var before := ProcessBatch(pr, Flatten(ss[..g]));
    if before.Ok? {
      assert before.value + [] == before.value;
    }
  }

  /**
   * If slice `g` is the first to abort, the run aborts with its error after fetching the pages
   * up to that slice and no later one.
   */
  lemma FailingSliceAborts(pr: PageResults, ss: seq<seq<int>>, g: nat)
    requires g < |ss|
    requires forall j :: 0 <= j < g ==> Productive(pr, ss[j])
    requires ProcessBatch(pr, ss[g]).Err?
    ensures Run(pr, ss).reviews == ProcessBatch(pr, ss[g])
    ensures Requested(Run(pr, ss).log) == Flatten(ss[..g + 1])
  {
    AttemptedStopsAt(pr, ss, g);
    RunShape(pr, ss);
    JoinedRequested(ss[..g + 1]);
    FlattenSnoc(ss, g);
    ProcessBatchAppend(pr, Flatten(ss[..g]), ss[g]);
    FlattenProductive(pr, ss, g);
  }

  /** The pages of productive slices are processed without failure. */
  lemma {:induction false} FlattenProductive(pr: PageResults, ss: seq<seq<int>>, g: nat)
    requires g <= |ss|
    requires forall j :: 0 <= j < g ==> Productive(pr, ss[j])
    ensures ProcessBatch(pr, Flatten(ss[..g])).Ok?
  {
    if g == 0 {
      assert ss[..0] == [];
    } else {
      FlattenProductive(pr, ss, g - 1);
      FlattenSnoc(ss, g - 1);
      ProcessBatchAppend(pr, Flatten(ss[..g - 1]), ss[g - 1]);
    }
  }

  /** If no slice comes back empty or aborts, every page is fetched and every review is kept. */
  lemma AllSlicesProductive(pr: PageResults, ss: seq<seq<int>>)
    requires forall j :: 0 <= j < |ss| ==> Productive(pr, ss[j])
    ensures Run(pr, ss).reviews == ProcessBatch(pr, Flatten(ss))
    ensures Requested(Run(pr, ss).log) == Flatten(ss)
    ensures ss != [] ==> PauseCount(Run(pr, ss).log) == |ss| - 1
  {
    AttemptedAll(pr, ss);
    RunShape(pr, ss);
    assert ss[..|ss|] == ss;
    JoinedRequested(ss);
    if ss != [] {
      JoinedPauses(ss);
    }
  }

  lemma {:induction false} AttemptedAll(pr: PageResults, ss: seq<seq<int>>)
    requires forall j :: 0 <= j < |ss| ==> Productive(pr, ss[j])
    ensures Attempted(pr, ss) == |ss|
  {
    if ss != [] {
      assert Productive(pr, ss[0]);
      assert forall j :: 0 <= j < |ss[1..]| ==> ss[1..][j] == ss[j + 1];
      AttemptedAll(pr, ss[1..]);
    }
  }

  /**
   * The scraper's own run: it attempts between one and seven slices, requests a prefix of the
   * pages 1..20 made of whole slices (so in ascending order, none twice), and pauses once fewer
   * times than it attempts slices.
   */
  lemma SourceRunShape(pr: PageResults)
    ensures 1 <= Attempted(pr, SourceSlices()) <= 7
    ensures Requested(Run(pr, SourceSlices()).log)
            == Pages(MAX_PAGES)[..Min(3 * Attempted(pr, SourceSlices()), MAX_PAGES)]
    ensures PauseCount(Run(pr, SourceSlices()).log) == Attempted(pr, SourceSlices()) - 1
    ensures forall a, b :: 0 <= a < b < |Requested(Run(pr, SourceSlices()).log)| ==>
              Requested(Run(pr, SourceSlices()).log)[a] < Requested(Run(pr, SourceSlices()).log)[b]
  {
    var ss := SourceSlices();
    var m := Attempted(pr, ss);
    SourceSlicesAreSeven();
    RunShape(pr, ss);
    SourcePrefixLog(m);
    PagesPrefixIncreasing(MAX_PAGES, Min(3 * m, MAX_PAGES));
  }

  /** The log of the scraper's first `m` slices, joined: pages 1..3m (at most 20), `m - 1` pauses. */
  lemma SourcePrefixLog(m: nat)
    requires 1 <= m <= |SourceSlices()|
    ensures Requested(Joined(SourceSlices()[..m])) == Pages(MAX_PAGES)[..Min(3 * m, MAX_PAGES)]
    ensures PauseCount(Joined(SourceSlices()[..m])) == m - 1
  {
    var ss := SourceSlices();
    JoinedRequested(ss[..m]);
    JoinedPauses(ss[..m]);
    SlicesPrefix(Pages(MAX_PAGES), CONCURRENT_REQUESTS, 0, m);
    assert Pages(MAX_PAGES)[0..Min(0 + m * 3, 20)] == Pages(MAX_PAGES)[..Min(3 * m, MAX_PAGES)];
  }

  /** Any prefix of the page range lists its pages in strictly ascending order. */
  lemma PagesPrefixIncreasing(n: nat, c: nat)
    requires c <= n
    ensures forall a, b :: 0 <= a < b < c ==> Pages(n)[..c][a] < Pages(n)[..c][b]
  {
  }

  /**
   * `n = 5` pages in slices of `k = 3`, where the first slice yields twelve reviews and the
   * second none: the run keeps those twelve, fetches pages 1 to 5 and nothing more, and pauses once.
   */
  lemma FivePageScenario(pr: PageResults, n: nat, k: nat)
    requires n == 5 && k == 3
    requires ProcessBatch(pr, Pages(n)[..k]).Ok? && |ProcessBatch(pr, Pages(n)[..k]).value| == 12
    requires ProcessBatch(pr, Pages(n)[k..]) == Ok([])
    ensures Run(pr, SlicesFrom(Pages(n), k, 0)).reviews == ProcessBatch(pr, Pages(n)[..k])
    ensures Requested(Run(pr, SlicesFrom(Pages(n), k, 0)).log) == Pages(n) == [1, 2, 3, 4, 5]
    ensures PauseCount(Run(pr, SlicesFrom(Pages(n), k, 0)).log) == 1
  {
    var ss := SlicesFrom(Pages(n), k, 0);
    FivePagesFlattened(n, k);
    assert Productive(pr, ss[0]);
    FirstEmptySliceStops(pr, ss, 1);
  }

  lemma FivePagesFlattened(n: nat, k: nat)
    requires n == 5 && k == 3
    ensures var ss := SlicesFrom(Pages(n), k, 0);
            |ss| == 2 && ss[0] == Pages(n)[..k] && ss[1] == Pages(n)[k..]
            && Flatten(ss[..1]) == Pages(n)[..k] && Flatten(ss[..2]) == Pages(n) == [1, 2, 3, 4, 5]
  {
    var ps := Pages(n);
    var ss := SlicesFrom(ps, k, 0);
    TwoSlices(ps, k);
    assert ss[..1] == [ps[..k]] && ss[..2] == ss;
    assert Flatten(ss[..1]) == ps[..k] by {
      FlattenCons(ps[..k], []);
      assert [ps[..k]] + [] == [ps[..k]];
      assert ps[..k] + [] == ps[..k];
    }
    assert Flatten(ss) == ps by {
      FlattenCons(ps[k..], []);
      assert [ps[k..]] + [] == [ps[k..]];
      FlattenCons(ps[..k], [ps[k..]]);
      assert [ps[..k]] + [ps[k..]] == ss;
      assert ps[k..] + [] == ps[k..];
      assert ps[..k] + ps[k..] == ps;
    }
    assert ps == [1, 2, 3, 4, 5];
  }

  /** A range longer than one slice and at most two slices long is cut into exactly two. */
  lemma TwoSlices(pages: seq<int>, k: nat)
    requires 1 <= k < |pages| <= 2 * k
    ensures SlicesFrom(pages, k, 0) == [pages[..k], pages[k..]]
  {
    SlicesFromStep(pages, k, 0);
    SlicesFromStep(pages, k, k);
    assert Batch(pages, k, 0) == pages[..k];
    assert Batch(pages, k, k) == pages[k..];
    assert SlicesFrom(pages, k, k) == [pages[k..]] + [];
  }

  /** The state of the loop after some slices, followed by the rest of the run. */
  function Resume(acc: seq<Review>, log: seq<Event>, rest: RunOutcome): RunOutcome {
    RunOutcome(Chain(Ok(acc), rest.reviews), log + rest.log)
  }

  /** The slice the loop takes at index `i`. */
  function Batch(pages: seq<int>, k: nat, i: nat): seq<int>
    requires i < |pages|
  {
    pages[i..Min(i + k, |pages|)]
  }

  lemma SlicesFromStep(pages: seq<int>, k: nat, i: nat)
    requires k >= 1 && i < |pages|
    ensures SlicesFrom(pages, k, i) == [Batch(pages, k, i)] + SlicesFrom(pages, k, i + k)
    ensures SlicesFrom(pages, k, i + k) != [] <==> i + k < |pages|
  {
  }

  lemma ResumeStart(o: RunOutcome)
    ensures Resume([], [], o) == o
  {
    if o.reviews.Ok? {
      assert [] + o.reviews.value == o.reviews.value;
    }
    assert [] + o.log == o.log;
  }

  /** Past the last page nothing remains to run. */
  lemma ResumeEnd(pr: PageResults, pages: seq<int>, k: nat, i: nat, acc: seq<Review>, log: seq<Event>)
    requires k >= 1 && i >= |pages|
    ensures Resume(acc, log, Run(pr, SlicesFrom(pages, k, i))) == RunOutcome(Ok(acc), log)
  {
    assert acc + [] == acc && log + [] == log;
  }

  /** A turn whose slice aborts ends the run with that slice's error. */
  lemma StepAborts(pr: PageResults, pages: seq<int>, k: nat, i: nat, acc: seq<Review>, log: seq<Event>)
    requires k >= 1 && i < |pages|
    requires ProcessBatch(pr, Batch(pages, k, i)).Err?
    ensures Resume(acc, log, Run(pr, SlicesFrom(pages, k, i)))
            == RunOutcome(ProcessBatch(pr, Batch(pages, k, i)), log + Requests(Batch(pages, k, i)))
  {
    SlicesFromStep(pages, k, i);
  }

  /** A turn whose slice is empty ends the run with what was gathered before it. */
  lemma StepStops(pr: PageResults, pages: seq<int>, k: nat, i: nat, acc: seq<Review>, log: seq<Event>)
    requires k >= 1 && i < |pages|
    requires ProcessBatch(pr, Batch(pages, k, i)) == Ok([])
    ensures Resume(acc, log, Run(pr, SlicesFrom(pages, k, i)))
            == RunOutcome(Ok(acc), log + Requests(Batch(pages, k, i)))
  {
    SlicesFromStep(pages, k, i);
    assert acc + [] == acc;
  }

  /** A turn whose slice yields reviews keeps them, pauses when another slice follows, and goes on. */
  lemma StepContinues(pr: PageResults, pages: seq<int>, k: nat, i: nat, acc: seq<Review>, log: seq<Event>)
    requires k >= 1 && i < |pages|
    requires Productive(pr, Batch(pages, k, i))
    ensures Resume(acc, log, Run(pr, SlicesFrom(pages, k, i)))
            == Resume(acc + ProcessBatch(pr, Batch(pages, k, i)).value,
                      log + Requests(Batch(pages, k, i)) + (if i + k < |pages| then [Pause] else []),
                      Run(pr, SlicesFrom(pages, k, i + k)))
  {
    var ss := SlicesFrom(pages, k, i);
    SlicesFromStep(pages, k, i);
    assert ss[1..] == SlicesFrom(pages, k, i + k);
    RunProductive(pr, ss);
    var next := Run(pr, SlicesFrom(pages, k, i + k));
    ResumeStep(acc, log, ProcessBatch(pr, Batch(pages, k, i)).value,
               Requests(Batch(pages, k, i)) + (if i + k < |pages| then [Pause] else []), next);
  }

  lemma ResumeStep(acc: seq<Review>, log: seq<Event>, rs: seq<Review>, events: seq<Event>, next: RunOutcome)
    ensures Resume(acc, log, RunOutcome(Chain(Ok(rs), next.reviews), events + next.log))
            == Resume(acc + rs, log + events, next)
  {
    ChainAssociative(Ok(acc), Ok(rs), next.reviews);
    assert log + (events + next.log) == (log + events) + next.log;
  }

  /**
   * `getAllReviews`: walk the pages 1..`maxPages` in slices of `batchSize`, append each slice's
   * reviews, stop at the first empty slice, and pause between slices while another follows. The
   * scraper runs it with `MAX_PAGES` and `CONCURRENT_REQUESTS`.
   */
  method GetAllReviews(pr: PageResults, maxPages: nat, batchSize: nat)
    returns (reviews: Result<seq<Review>, Failure>, log: seq<Event>)
    requires batchSize >= 1
    ensures RunOutcome(reviews, log) == Run(pr, SlicesFrom(Pages(maxPages), batchSize, 0))
  {
    var allReviews: seq<Review> := [];
    var pages := Pages(maxPages);
    log := [];
    var i := 0;
    ghost var whole := Run(pr, SlicesFrom(pages, batchSize, 0));
    ghost var stopped := false;
    ResumeStart(whole);
    while i < |pages|
      invariant !stopped
      invariant whole == Resume(allReviews, log, Run(pr, SlicesFrom(pages, batchSize, i)))
      decreases |pages| - i
    {
      var batch := pages[i..Min(i + batchSize, |pages|)];
      var batchResults := ProcessBatch(pr, batch);
      if batchResults.Err? {
        StepAborts(pr, pages, batchSize, i, allReviews, log);
        reviews, log := Err(batchResults.error), log + Requests(batch);
        return;
      }
      if |batchResults.value| == 0 {
        StepStops(pr, pages, batchSize, i, allReviews, log);
        log := log + Requests(batch);
        stopped := true;
        break;
      }
      StepContinues(pr, pages, batchSize, i, allReviews, log);
      log := log + Requests(batch);
      allReviews := allReviews + batchResults.value;
      if i + batchSize < |pages| {
        log := log + [Pause];
      }
      i := i + batchSize;
    }
    if !stopped {
      ResumeEnd(pr, pages, batchSize, i, allReviews, log);
    }
    reviews := Ok(allReviews);
  }

  // ---------------------------------------------------------------------------------------------
  // App metadata

  /** One result of the lookup service; every field may be missing. */
  datatype AppRecord = AppRecord(
    trackName: Option<string>,
    artworkUrl512: Option<string>,
    artworkUrl100: Option<string>,
    screenshotUrls: Option<seq<string>>,
    description: Option<string>,
    artistName: Option<string>,
    version: Option<string>,
    averageUserRating: Option<real>)

  /** The lookup service's JSON body: `resultCount` and `results`, each possibly missing. */
  datatype LookupBody = LookupBody(resultCount: Option<int>, results: Option<seq<AppRecord>>)

  /** The lookup request: a response whose `data` may be missing, or a thrown error. */
  datatype LookupOutcome = LookupResponse(data: Option<LookupBody>) | LookupFailed

  datatype AppMetadata = AppMetadata(
    name: string,
    icon: string,
    screenshots: seq<string>,
    description: string,
    developer: string,
    version: string,
    rating: real)

  /** `s || fallback` for a string that may be missing. */
  function Or(s: Option<string>, fallback: string): string {
    if s.Some? && s.value != "" then s.value else fallback
  }

  /**
   * `getAppMetadata`: `null` when the request throws, when there is no data, when `resultCount`
   * is 0, and when reading `results[0]` throws; otherwise the first result with defaults.
   */
  function GetAppMetadata(o: LookupOutcome): (r: Option<AppMetadata>)
    ensures r.None? <==> (o.LookupFailed? || o.data.None? || o.data.value.resultCount == Some(0)
                          || o.data.value.results.None? || o.data.value.results.value == [])
    ensures r.Some? ==> (
              var app := o.data.value.results.value[0];
              r.value.name == app.trackName.GetOr("")
              && r.value.description == app.description.GetOr("")
              && r.value.developer == app.artistName.GetOr("")
              && r.value.version == app.version.GetOr("")
              && r.value.screenshots == app.screenshotUrls.GetOr([])
              && r.value.rating == app.averageUserRating.GetOr(0.0))
  {
    match o
    case LookupFailed => None
    case LookupResponse(data) =>
      if data.None? || data.value.resultCount == Some(0) then None
      else if data.value.results.None? || data.value.results.value == [] then None
      else
        var app := data.value.results.value[0];
        Some(AppMetadata(
          Or(app.trackName, ""),
          Or(app.artworkUrl512, Or(app.artworkUrl100, "")),
          app.screenshotUrls.GetOr([]),
          Or(app.description, ""),
          Or(app.artistName, ""),
          Or(app.version, ""),
          app.averageUserRating.GetOr(0.0)))
  }

  /**
   * The icon is the 512-pixel artwork when it is a non-empty string, else the 100-pixel one
   * when that is, else empty.
   */
  lemma IconPreference(o: LookupOutcome)
    requires GetAppMetadata(o).Some?
    ensures var app := o.data.value.results.value[0];
            var icon := GetAppMetadata(o).value.icon;
            (app.artworkUrl512.Some? && app.artworkUrl512.value != "" ==> icon == app.artworkUrl512.value)
            && (app.artworkUrl512.GetOr("") == "" && app.artworkUrl100.Some? ==> icon == app.artworkUrl100.value)
            && (icon == "" <==> app.artworkUrl512.GetOr("") == "" && app.artworkUrl100.GetOr("") == "")
  {
  }

  // ---------------------------------------------------------------------------------------------
  // The join

  datatype Combined = Combined(reviews: seq<Review>, metadata: Option<AppMetadata>)

  /**
   * `getAllReviewsAndMetadata`: run the scheduler and the lookup and pair their results. The
   * lookup never fails the call; an aborted scheduler does, with its error.
   */
  method GetAllReviewsAndMetadata(up: Upstream, lookup: LookupOutcome)
    returns (r: Result<Combined, Failure>, log: seq<Event>)
    ensures log == Run(PageCallback(up), SourceSlices()).log
    ensures r.Ok? <==> Run(PageCallback(up), SourceSlices()).reviews.Ok?
    ensures r.Ok? ==> r.value == Combined(Run(PageCallback(up), SourceSlices()).reviews.value, GetAppMetadata(lookup))
    ensures r.Err? ==> r.error == Run(PageCallback(up), SourceSlices()).reviews.error
  {
    var reviews;
    reviews, log := GetAllReviews(PageCallback(up), MAX_PAGES, CONCURRENT_REQUESTS);
    var metadata := GetAppMetadata(lookup);
    match reviews
    case Err(e) => r := Err(e);
    case Ok(rs) => r := Ok(Combined(rs, metadata));
  }
}
