/**
 * `getTLDRTop`: the three strategies tried in order, the first success
 * returned, and the constant fallback when all of them fail. Each strategy
 * catches its own errors, so the resolver as a whole never fails.
 */
module Resolver {
  import opened Wrappers
  import opened Js
  import opened Tldr
  import Api
  import Feed
  import Scrape

  /**
   * First success wins: the value of the first attempt that succeeded, or
   * `otherwise` when none did. Attempts after the first success do not
   * affect the result.
   */
  function FirstSuccess<T>(attempts: seq<Option<T>>, otherwise: T): (r: T)
    ensures (forall i :: 0 <= i < |attempts| ==> attempts[i].None?) ==> r == otherwise
    ensures forall i :: (0 <= i < |attempts| && attempts[i].Some? &&
                         (forall j :: 0 <= j < i ==> attempts[j].None?)) ==> r == attempts[i].value
  {
    if |attempts| == 0 then otherwise
    else if attempts[0].Some? then attempts[0].value
    else
      var r := FirstSuccess(attempts[1..], otherwise);
      assert forall i :: 1 <= i < |attempts| ==> attempts[1..][i - 1] == attempts[i];
      r
  }

  /**
   * The headline of the page. `api`, `feed` and `page` are the outcomes of
   * the three requests (to the JSON endpoint, the RSS feed and the home
   * page); `showNumber` is JavaScript's number-to-text conversion. The
   * result comes from the first strategy that succeeds, in the order api,
   * rss, html-scrape, and is the fallback record exactly when all three
   * fail. Every result other than an `api` one has a non-empty title and url.
   */
  function GetTLDRTop(api: Response<Json>, feed: Response<string>, page: Response<string>,
                      showNumber: real -> string): (r: Headline)
    ensures Api.Attempt(api, showNumber).Some? ==> r == Api.Attempt(api, showNumber).value
    ensures Api.Attempt(api, showNumber).None? && Feed.Attempt(feed).Some? ==> r == Feed.Attempt(feed).value
    ensures Api.Attempt(api, showNumber).None? && Feed.Attempt(feed).None? && Scrape.Attempt(page).Some? ==>
              r == Scrape.Attempt(page).value
    ensures Api.Attempt(api, showNumber).None? && Feed.Attempt(feed).None? && Scrape.Attempt(page).None? ==>
              r == FallbackHeadline
    ensures r.source != Api ==> r.title != [] && r.url != []
  {
    var a, b, c := Api.Attempt(api, showNumber), Feed.Attempt(feed), Scrape.Attempt(page);
    FirstOfThree(a, b, c, FallbackHeadline);
    FirstSuccess([a, b, c], FallbackHeadline)
  }

  /** With three attempts, `FirstSuccess` is the chain of the three tries and the default. */
  lemma FirstOfThree<T>(a: Option<T>, b: Option<T>, c: Option<T>, otherwise: T)
    ensures FirstSuccess([a, b, c], otherwise) ==
            if a.Some? then a.value else if b.Some? then b.value else if c.Some? then c.value else otherwise
  {
    var attempts := [a, b, c];
    assert attempts[0] == a && attempts[1] == b && attempts[2] == c;
    if a.None? && b.None? && c.None? {
      assert forall i :: 0 <= i < |attempts| ==> attempts[i].None?;
    }
  }

  /**
   * The source tag tells which strategy was used, and each tag is given
   * exactly when all earlier strategies failed and that one succeeded.
   */
  lemma SourceTellsTheStrategy(api: Response<Json>, feed: Response<string>, page: Response<string>,
                               showNumber: real -> string)
    ensures GetTLDRTop(api, feed, page, showNumber).source == Tldr.Api <==>
              Api.Attempt(api, showNumber).Some?
    ensures GetTLDRTop(api, feed, page, showNumber).source == Rss <==>
              Api.Attempt(api, showNumber).None? && Feed.Attempt(feed).Some?
    ensures GetTLDRTop(api, feed, page, showNumber).source == HtmlScrape <==>
              Api.Attempt(api, showNumber).None? && Feed.Attempt(feed).None? && Scrape.Attempt(page).Some?
    ensures GetTLDRTop(api, feed, page, showNumber).source == Fallback <==>
              Api.Attempt(api, showNumber).None? && Feed.Attempt(feed).None? && Scrape.Attempt(page).None?
  {
  }

  /**
   * A later strategy is never consulted once an earlier one succeeds: the
   * result does not depend on the outcomes of the later requests.
   */
  lemma LaterOutcomesAreIgnored(api: Response<Json>, feed: Response<string>, page: Response<string>,
                                feed': Response<string>, page': Response<string>, showNumber: real -> string)
    ensures Api.Attempt(api, showNumber).Some? ==>
              GetTLDRTop(api, feed, page, showNumber) == GetTLDRTop(api, feed', page', showNumber)
    ensures Feed.Attempt(feed).Some? ==>
              GetTLDRTop(api, feed, page, showNumber) == GetTLDRTop(api, feed, page', showNumber)
  {
  }

  /**
   * Failing is failing: a rejected request and a non-ok status are treated
   * alike by every strategy, so when every request fails the result is the
   * fallback record whichever way each one failed.
   */
  lemma FailuresGiveTheFallback(api: Response<Json>, feed: Response<string>, page: Response<string>,
                                showNumber: real -> string)
    requires !api.Ok? && !feed.Ok? && !page.Ok?
    ensures GetTLDRTop(api, feed, page, showNumber) == FallbackHeadline
    ensures GetTLDRTop(api, feed, page, showNumber).title == "Latest from TLDR Tech"
    ensures GetTLDRTop(api, feed, page, showNumber).url == "https://tldr.tech/"
    ensures Tag(GetTLDRTop(api, feed, page, showNumber).source) == "fallback"
  {
  }
}
