# App Store review scraper — a Dafny model

This project models the core of an App Store review tool:

- **The review scraper** (`src/lib/ITunesReviewScraper.ts`). It pages through the public
  customer-review feed of one app, in slices of pages. It stops at the first slice that yields no
  review, and pauses between slices. It turns every feed entry into a canonical `Review`. It also
  looks up the app's catalog metadata and pairs the two.
- **The logic of the reviews page** (`src/components/LiveReviewsList.tsx`):
  - it reads a numeric App Store id out of what the user typed;
  - it refuses to send a request without one;
  - it filters the reviews by a search term and a star rating.

The Dafny modules follow that structure:

| module | file | models |
|---|---|---|
| `Wrappers` | `wrappers.dfy` | `Option` and `Result` |
| `JsRuntime` | `js_runtime.dfy` | what the code relies on from JavaScript: `parseInt` without a radix, ASCII `toLowerCase`, `String.prototype.includes` |
| `ReviewTypes` | `review_types.dfy` | the `Review`, `ReviewContent` and `Author` records of `src/types/review.ts` |
| `FeedParsing` | `feed_parsing.dfy` | the feed document as the XML parser produces it, the normalisation of its entry list, and `transformEntry` |
| `ReviewScraper` | `review_scraper.dfy` | `fetchPage`, the per-page callback and `processBatch`, the scheduler `getAllReviews`, `getAppMetadata`, and `getAllReviewsAndMetadata` |
| `LiveReviewsList` | `live_reviews_list.dfy` | `extractNumericId`, the guard at the start of `fetchReviews`, and `filteredReviews` |

**Outside services are inputs.** The feed service (page number → HTTP outcome) and the XML parser
(text → parsed document) form the `Upstream` value. The lookup service's answer is one
`LookupOutcome` value.

**Side effects are a log.** The scheduler returns, next to its result, a log of what it did: one
`Request(page)` per page fetched and one `Pause` per 500 ms sleep. Which pages are fetched, in what
order, and how many pauses happen are therefore stated and proved.

**The scheduler is a method proved against a function.** `GetAllReviews` is imperative, like the
source. It walks the pages slice by slice, and its postcondition ties its result and log to `Run`, a
recursive function over the list of slices. The lemmas then prove the properties of `Run`:

- the closed form `RunShape`;
- stopping at the first empty slice;
- aborting at the first failing slice;
- the run in which every slice is productive;
- the shape of the scraper's own run over pages 1..20 in slices of 3.

**The model follows the code, including its crashes.** `processBatch` awaits `Promise.all`, so a
page whose callback throws rejects the whole slice, and with it `getAllReviews` and
`getAllReviewsAndMetadata`. Two kinds of failure do that:

- the XML parser's rejection;
- a TypeError from reading a property of a value that is not there:
  - a feed without a `feed` root;
  - an entry whose `content` is a single element rather than an array, since `find` is not a
    function on an object;
  - a content item without attributes, met before the item being searched for;
  - a link element without attributes;
  - repeated link elements.

`Failure` models both, and they propagate as `Err`.

## Model

| member | source | states |
|---|---|---|
| `ReviewScraper.FetchPage` | src/lib/ITunesReviewScraper.ts:55-67 | the body is returned exactly for a successful response; status 400 alone is classified as the end of the pages; every other failure is a plain failed fetch (both failures are `null` to the caller) |
| `ReviewScraper.PageReviews` | src/lib/ITunesReviewScraper.ts:108-120 | a page whose fetch fails, or whose body is empty, contributes no review and does not abort; a non-empty body the parser refuses aborts with `XmlRejected`, and exactly then; a document without a `feed` root aborts with a TypeError; a parsed feed yields exactly `FeedReviews` of that feed |
| `ReviewScraper.ProcessBatch` | src/lib/ITunesReviewScraper.ts:106-124 | no pages give no review, one page gives that page's result; with `ProcessBatchAppend` this fixes the result of any list of pages, and `ProcessBatchOk` says when it succeeds |
| `ReviewScraper.ProcessBatchOk` | src/lib/ITunesReviewScraper.ts:106-124 | a slice succeeds exactly when the callback succeeds on every one of its pages (`Promise.all` rejects on any rejection) |
| `ReviewScraper.ProcessBatchAppend` | src/lib/ITunesReviewScraper.ts:119-123 | processing two runs of pages one after the other is processing their concatenation: results are flattened in page order, not completion order |
| `ReviewScraper.Pages` | src/lib/ITunesReviewScraper.ts:128 | `Array.from({ length: n }, (_, i) => i + 1)`: n pages, page i + 1 at index i |
| `ReviewScraper.SlicesFrom` | src/lib/ITunesReviewScraper.ts:130-131 | the slices the loop takes, `pages.slice(i, i + k)` then `i += k`; how many there are, their sizes, their order and their prefixes are `SlicesPartition`, `SliceCountIsCeiling` and `SlicesPrefix` |
| `ReviewScraper.SourceSlicesAreSeven` | src/lib/ITunesReviewScraper.ts:128-131 | the scraper's own pages 1..20 in slices of 3 are exactly {1,2,3}, {4,5,6}, {7,8,9}, {10,11,12}, {13,14,15}, {16,17,18}, {19,20} |
| `ReviewScraper.SlicesPartition` | src/lib/ITunesReviewScraper.ts:128-131 | the slices `pages.slice(i, i + k)` partition the pages: ceil(n/k) slices of 1..k pages each that, read in order, give back every page |
| `ReviewScraper.SliceCountIsCeiling` | src/lib/ITunesReviewScraper.ts:130 | the loop takes ceil(x/k) turns: k times that covers x, and one turn fewer does not |
| `ReviewScraper.SlicesPrefix` | src/lib/ITunesReviewScraper.ts:130-131 | the first m slices hold exactly the pages from index i to i + m·k, cut at the end |
| `ReviewScraper.Run` | src/lib/ITunesReviewScraper.ts:126-148 | the specification of `getAllReviews` over a list of slices, which `GetAllReviews` is proved equal to; its properties are `RunFetchesFirstSlice`, `RunShape`, `RunReviewsFollowRequests`, `FirstEmptySliceStops`, `FailingSliceAborts`, `AllSlicesProductive` and `SourceRunShape` |
| `ReviewScraper.RunFetchesFirstSlice` | src/lib/ITunesReviewScraper.ts:130-134 | whatever the pages yield, a run starts by requesting every page of the first slice, in order |
| `ReviewScraper.Attempted` | src/lib/ITunesReviewScraper.ts:130-138 | the number of slices a run fetches: every slice before the last one attempted is productive, and the last one attempted, when slices remain, is not |
| `ReviewScraper.RunShape` | src/lib/ITunesReviewScraper.ts:126-148 | closed form of a run: its result is what processing all pages of the attempted slices in order gives, and its log is their requests with one pause between consecutive slices |
| `ReviewScraper.RunReviewsFollowRequests` | src/lib/ITunesReviewScraper.ts:134-140 | the reviews returned are the per-page reviews of exactly the pages requested, concatenated in request order |
| `ReviewScraper.FirstEmptySliceStops` | src/lib/ITunesReviewScraper.ts:135-138 | when slice g is the first to yield no review, the run returns the reviews of slices 0..g-1, requests no page after slice g, and pauses g times |
| `ReviewScraper.FailingSliceAborts` | src/lib/ITunesReviewScraper.ts:107-121 | when slice g is the first to abort, the run aborts with that slice's error after requesting the pages up to slice g and none later |
| `ReviewScraper.AllSlicesProductive` | src/lib/ITunesReviewScraper.ts:130-147 | when every slice yields reviews, every page is requested, every review is kept in page order, and the run pauses once fewer times than there are slices (no pause after the last) |
| `ReviewScraper.SourceRunShape` | src/lib/ITunesReviewScraper.ts:126-145 | with 20 pages in slices of 3, a run attempts 1 to 7 slices, requests pages 1..min(3m, 20) in strictly ascending order with none twice, and pauses m - 1 times |
| `ReviewScraper.FivePageScenario` | src/lib/ITunesReviewScraper.ts:130-147 | 5 pages in slices of 3, where the first slice yields 12 reviews and the second none: those 12 reviews are returned, pages 1 to 5 are requested, and the run pauses once |
| `ReviewScraper.GetAllReviews` | src/lib/ITunesReviewScraper.ts:126-148 | the loop's reviews and its log of requests and pauses are exactly those of `Run` over the slices of pages 1..maxPages |
| `ReviewScraper.GetAppMetadata` | src/lib/ITunesReviewScraper.ts:29-53 | absent exactly when the request throws, there is no data, the result count is 0, or there is no first result; otherwise name, screenshots, description, developer, version and rating are the first result's field or its default (`''`, `[]`, `0`); the icon is `IconPreference` |
| `ReviewScraper.IconPreference` | src/lib/ITunesReviewScraper.ts:42 | the icon is the 512-pixel artwork when non-empty, else the 100-pixel one, and empty exactly when both are missing or empty |
| `ReviewScraper.GetAllReviewsAndMetadata` | src/lib/ITunesReviewScraper.ts:150-163 | the join succeeds exactly when the scraper's own run does, pairs its reviews with the metadata whatever the lookup gave, and otherwise fails with the run's error |
| `FeedParsing.Elements` | src/lib/ITunesReviewScraper.ts:116 | `.filter(Boolean)` keeps exactly the non-blank entries and never adds any |
| `FeedParsing.ElementsAppend` | src/lib/ITunesReviewScraper.ts:116 | filtering distributes over concatenation, so the kept entries stay in feed order |
| `FeedParsing.NormaliseEntries` | src/lib/ITunesReviewScraper.ts:115-117 | a feed without entries has none; a lone entry is wrapped into a list of one, or dropped when blank |
| `FeedParsing.ShapeTolerance` | src/lib/ITunesReviewScraper.ts:115-117 | a lone entry and a one-element list of the same entry normalise alike |
| `FeedParsing.FindStop` | src/lib/ITunesReviewScraper.ts:82-83 | `find` stops at the first item that carries the tag or has no attributes, having passed only untagged items with attributes |
| `FeedParsing.FindTagged` | src/lib/ITunesReviewScraper.ts:82-83 | `find` throws a TypeError exactly when its scan meets an item without attributes before a tagged one; an item found is a tagged item of the list; `undefined` only when no item carries the tag |
| `FeedParsing.ContentText` | src/lib/ITunesReviewScraper.ts:82-91 | no content gives `null`; a single (non-array) content element throws a TypeError; a content array throws exactly when the scan meets an item without attributes before a tagged one; an empty text becomes `null` |
| `FeedParsing.FirstTaggedText` | src/lib/ITunesReviewScraper.ts:82-83 | the `text` (or `html`) variant is the text of the first item with that tag, or `null` when that text is empty, never that of a later item |
| `FeedParsing.UntaggedContentIsNull` | src/lib/ITunesReviewScraper.ts:82-91 | content items that all carry attributes but none the tag give `null` for that variant |
| `FeedParsing.LinkHref` | src/lib/ITunesReviewScraper.ts:102 | reading the link throws a TypeError exactly for a link without attributes or repeated links; no link gives `''` |
| `FeedParsing.AuthorField` | src/lib/ITunesReviewScraper.ts:96-97 | no author block gives `''`; a non-empty name or uri is the block's own value |
| `FeedParsing.TransformEntry` | src/lib/ITunesReviewScraper.ts:81-104 | fails only with a TypeError, and does so for a single content element, a link without attributes, or repeated links; a review's text and html are what `ContentText` reads for the tags `text` and `html`, `cleanHtml` equals `html`, and id, title, version and updated pass through |
| `FeedParsing.WellShapedEntryTransforms` | src/lib/ITunesReviewScraper.ts:81-104 | an entry whose content and link can be read always yields a review; a missing rating or vote field becomes NaN instead of dropping the entry |
| `FeedParsing.ReadableEntryTransforms` | src/lib/ITunesReviewScraper.ts:93-100 | once content and link are readable, rating, vote sum and vote count are `parseInt` of the raw fields |
| `FeedParsing.TransformedFields` | src/lib/ITunesReviewScraper.ts:95-102 | author name and uri default to empty when missing; the link is the single link's `href`, or empty |
| `FeedParsing.MapAll` | src/lib/ITunesReviewScraper.ts:119 | `entries.map` with a callback that may throw: one value per entry, or the failure of some entry's callback |
| `FeedParsing.MapAllPointwise` | src/lib/ITunesReviewScraper.ts:119 | a map whose callback may throw succeeds exactly when the callback succeeds on every entry, and then keeps value i at place i |
| `FeedParsing.TransformAll` | src/lib/ITunesReviewScraper.ts:119 | a page fails only with a TypeError, and otherwise yields one review per entry |
| `FeedParsing.TransformAllPointwise` | src/lib/ITunesReviewScraper.ts:119 | a page succeeds exactly when every entry transforms, and then review i is entry i transformed |
| `FeedParsing.FeedReviews` | src/lib/ITunesReviewScraper.ts:113-119 | one review per kept entry; a feed without entries gives no review and no error |
| `JsRuntime.ParseInt` | src/lib/ITunesReviewScraper.ts:93-100 | a number is only ever read from text that holds a decimal digit; `ParseIntOfDecimal`, `ParseIntTrailing`, `ParseIntPlusSign`, `ParseIntSkipsWhitespace` and `ParseIntNaN` fix its value on decimal renderings with whitespace before, a sign, or other text after, and say when it is NaN |
| `JsRuntime.ParseIntTrailing` | src/lib/ITunesReviewScraper.ts:93-100 | text after the number is ignored: a decimal rendering followed by anything that does not continue it reads as that number ("5 stars" gives 5) |
| `JsRuntime.ParseIntPlusSign` | src/lib/ITunesReviewScraper.ts:93-100 | a `+` in front of digits changes nothing |
| `JsRuntime.ParseIntNaN` | src/lib/ITunesReviewScraper.ts:93-100 | NaN exactly when, after whitespace, the sign and a `0x` prefix, the text does not go on with a digit of the radix |
| `JsRuntime.TrimStart` | src/lib/ITunesReviewScraper.ts:93 | `parseInt` first drops exactly the leading whitespace: what remains is a suffix that does not start with whitespace |
| `JsRuntime.DigitRunLength` | src/lib/ITunesReviewScraper.ts:93 | `parseInt` reads the longest run of digits of the radix and stops at the first other character |
| `JsRuntime.ParseIntOfDecimal` | src/lib/ITunesReviewScraper.ts:93 | reading back the decimal rendering of n, with or without a minus sign, gives n or -n |
| `JsRuntime.ParseIntSkipsWhitespace` | src/lib/ITunesReviewScraper.ts:99-100 | whitespace in front of a field never changes what `parseInt` reads |
| `JsRuntime.ParseIntUndefined` | src/lib/ITunesReviewScraper.ts:93 | a missing field reaches `parseInt` as "undefined" and gives NaN |
| `JsRuntime.IncludesIffOccurs` | src/components/LiveReviewsList.tsx:63-64 | `includes` holds exactly when the term occurs at some position of the text |
| `JsRuntime.IncludesEmpty` | src/components/LiveReviewsList.tsx:63-64 | the empty term is included in every text |
| `LiveReviewsList.StripIdPrefix` | src/components/LiveReviewsList.tsx:35 | something is removed exactly when the text starts with `id` in any letter case, and then exactly those two characters |
| `LiveReviewsList.FirstDigitRun` | src/components/LiveReviewsList.tsx:35 | the match holds only digits, and is empty exactly when the text has no digit |
| `LiveReviewsList.ExtractNumericId` | src/components/LiveReviewsList.tsx:33-36 | the id is the first run of digits of the input as typed (the prefix never matters), holds only digits, and is empty exactly when the input has no digit |
| `LiveReviewsList.ExtractIgnoresPrefix` | src/components/LiveReviewsList.tsx:35 | removing the `id` prefix never changes which digits are found |
| `LiveReviewsList.FirstDigitRunIsLeftmost` | src/components/LiveReviewsList.tsx:35 | the match is the leftmost maximal run of digits: the digits from the first digit up to the next non-digit |
| `LiveReviewsList.FirstDigitRunOccurs` | src/components/LiveReviewsList.tsx:35 | the match is a contiguous piece of the input |
| `LiveReviewsList.ExtractPrefixedId` | src/components/LiveReviewsList.tsx:33-36 | `id123` and `ID123` both give `123` |
| `LiveReviewsList.ExtractFirstRunOnly` | src/components/LiveReviewsList.tsx:33-36 | `ab45cd67` gives `45`, the first run only |
| `LiveReviewsList.StartFetch` | src/components/LiveReviewsList.tsx:38-49 | no request is sent exactly when the typed id has no digit, and then loading stops with the invalid-id message; otherwise loading is on, the error is cleared, and the request carries the extracted digits and the country |
| `LiveReviewsList.RequestCarriesDigitsOnly` | src/components/LiveReviewsList.tsx:42-49 | every request sent carries a non-empty, all-digit app id |
| `LiveReviewsList.MatchesSearch` | src/components/LiveReviewsList.tsx:63-64 | a review matches exactly when the lower-cased term occurs somewhere in its lower-cased text (a missing text read as `''`) or title |
| `LiveReviewsList.MatchesRating` | src/components/LiveReviewsList.tsx:65 | a review whose rating is NaN passes the star filter only when no star is selected |
| `LiveReviewsList.FilteredReviews` | src/components/LiveReviewsList.tsx:62-67 | a review is shown exactly when it is among the reviews and matches both the search and the rating; the list never grows |
| `LiveReviewsList.FilteredIsSubsequence` | src/components/LiveReviewsList.tsx:62 | the shown reviews keep their original order |
| `LiveReviewsList.FilteredAppend` | src/components/LiveReviewsList.tsx:62 | filtering a concatenation is concatenating the filtered parts |
| `LiveReviewsList.EmptySearchMatches` | src/components/LiveReviewsList.tsx:63-64 | an empty search box matches every review |
| `LiveReviewsList.FilteredAllWhenUnfiltered` | src/components/LiveReviewsList.tsx:62-67 | with no search term and rating 0, every review is shown, in order |
| `LiveReviewsList.RatingFilterExact` | src/components/LiveReviewsList.tsx:65 | a star filter other than 0 keeps exactly the reviews with that rating, and never one whose rating is NaN |
| `LiveReviewsList.SearchIgnoresTermCase` | src/components/LiveReviewsList.tsx:63-64 | the search ignores the letter case of the term |
| `LiveReviewsList.FilteredIdempotent` | src/components/LiveReviewsList.tsx:62-67 | filtering again with the same settings changes nothing |

## Failures and the end of a run

- **A run can fail.** A page whose processing throws rejects `Promise.all`, and with it the whole
  run. The causes are an XML parse error and the TypeErrors listed above.
- **The empty-slice rule.** A slice ends the run when it yields no review, whatever the reason: a
  400, another failed fetch, an empty body, or a feed with no entries.

## Left out

- HTTP, the XML parser and the lookup request are inputs, not models. The feed and lookup URLs are
  not built; only the page number reaches the feed oracle.
- `console.log` / `console.error` lines are left out. The split of a failed fetch into `EndOfPages`
  and `FetchFailed` keeps the distinction those lines draw.
- Timing of `setTimeout` is left out: a pause is an event in the log.
- `Promise.all` concurrency is left out. The model evaluates a slice's pages in page order, and
  when several pages of a slice fail it reports the error of the lowest one, where the code
  reports the first to fail in time. Only which of the failures is reported can differ.
- `getAllReviewsAndMetadata` runs the lookup concurrently with the scraper. The model runs them
  one after the other, which is equivalent because they share no state.
- `GetAllReviews` takes the per-page callback, the page bound and the slice width as parameters.
  `GetAllReviewsAndMetadata` calls it with the scraper's own callback and constants 20 and 3.
- `FivePageScenario` takes the page count and slice width as parameters fixed by its precondition
  (5 and 3) instead of literals.
- JsRuntime.ParseInt: its value lemmas cover decimal renderings (with leading whitespace, a `+` sign and trailing text); text with leading zeros or a `0x` prefix is modelled by the function but has no value lemma.
- `parseInt` results are unbounded integers. The model ignores the loss of precision beyond 2^53.
- `averageUserRating` is a `real`, which ignores floating point and NaN.
- `GetAppMetadata`: a `resultCount` other than 0 is not compared with the results, as in the code.
  A result that is not an object is not modelled.
- The entry fields `id`, `title`, `im:version` and `updated` are assumed to be strings. The code
  passes through whatever the parser produced.
- Entries and numeric fields of other shapes are not represented. A non-empty `<entry>` holding
  only text is a truthy string: it passes `.filter(Boolean)` and becomes a review whose fields are
  `undefined`. A numeric field with attributes or children is an object, which `parseInt` reads as
  "[object Object]", giving NaN.
- `toLowerCase` lowers the ASCII letters only. Unicode case mapping is not modelled.
- The response handling of `fetchReviews` after the request (src/components/LiveReviewsList.tsx:50-60)
  is left out: parsing the JSON, setting reviews, metadata or the error, and the final
  `setLoading(false)`. It depends only on the server route, which is not part of this model.
- The React rendering, the country table, the keyword tool and its route, the settings store and
  the date formatting are not part of this model.
