/** The record shapes of `src/types/review.ts`: the canonical review the scraper produces. */
module ReviewTypes {
  import opened Wrappers

  datatype Author = Author(name: string, uri: string)

  /** The three content variants; `None` is the source's `null`. */
  datatype ReviewContent = ReviewContent(text: Option<string>, html: Option<string>, cleanHtml: Option<string>)

  /** One normalised feed entry. The numeric fields come from `parseInt`: `None` stands for NaN. */
  datatype Review = Review(
    id: string,
    title: string,
    content: ReviewContent,
    rating: Option<int>,
    version: string,
    author: Author,
    voteSum: Option<int>,
    voteCount: Option<int>,
    updated: string,
    link: string)
}
