/**
 * The headline record the resolver returns (the `TLDR` type of
 * app/page.tsx) and the outcome of one `fetch` as the resolver sees it.
 */
module Tldr {
  import opened Js

  /** Which strategy produced a headline. */
  datatype Source = Api | Rss | HtmlScrape | Fallback

  /** The text written into the record's `source` field. */
  function Tag(src: Source): string
  {
    match src
    case Api => "api"
    case Rss => "rss"
    case HtmlScrape => "html-scrape"
    case Fallback => "fallback"
  }

  /**
   * The `TLDR` record. `summary` is the JavaScript value stored there:
   * `JNull` for `null`, otherwise whatever value the strategy picked.
   */
  datatype Headline = Headline(title: string, url: string, summary: Json, source: Source)

  /**
   * One request: the promise rejected (a network error, or the body could
   * not be read or parsed), the response status was not ok, or the body.
   */
  datatype Response<T> = Threw | NotOk | Ok(body: T)

  /** The home page, used as the scrape placeholder title and the fallback title. */
  const PlaceholderTitle: string := "Latest from TLDR Tech"

  /** The headline returned when every strategy fails. */
  const FallbackHeadline: Headline :=
    Headline(PlaceholderTitle, "https://tldr.tech/",
             JString("Visit TLDR for today\U{2019}s top startup/tech stories."), Fallback)
}
