/**
 * Strategy A of `getTLDRTop`: the JSON endpoint. The first item is probed in
 * several nested places, title, url and summary are read through alias
 * chains of `||`, and the strategy succeeds only when title and url are both
 * truthy.
 */
module Api {
  import opened Wrappers
  import opened Js
  import opened Tldr

  /** `data?.items?.[0]` */
  function ItemsHead(data: Json): Value
  {
    Head(Get(Some(data), "items"))
  }

  /** `data?.stories?.[0]` */
  function StoriesHead(data: Json): Value
  {
    Head(Get(Some(data), "stories"))
  }

  /** `data?.sections?.[0]?.items?.[0]` */
  function SectionsHead(data: Json): Value
  {
    Head(Get(Head(Get(Some(data), "sections")), "items"))
  }

  /**
   * `first`: the first truthy candidate among `items[0]`, `stories[0]` and
   * `sections[0].items[0]`, in that order, and the document itself when
   * none of them is truthy.
   */
  function FirstItem(data: Json): (first: Value)
    ensures Truthy(ItemsHead(data)) ==> first == ItemsHead(data)
    ensures !Truthy(ItemsHead(data)) && Truthy(StoriesHead(data)) ==> first == StoriesHead(data)
    ensures !Truthy(ItemsHead(data)) && !Truthy(StoriesHead(data)) && Truthy(SectionsHead(data)) ==>
              first == SectionsHead(data)
    ensures !Truthy(ItemsHead(data)) && !Truthy(StoriesHead(data)) && !Truthy(SectionsHead(data)) ==>
              first == Some(data)
  {
    Or(Or(Or(ItemsHead(data), StoriesHead(data)), SectionsHead(data)), Some(data))
  }

  /** `first?.title || data?.title` */
  function TitleValue(data: Json): Value
  {
    Or(Get(FirstItem(data), "title"), Get(Some(data), "title"))
  }

  /** `first?.url || first?.link || data?.link` */
  function UrlValue(data: Json): Value
  {
    var first := FirstItem(data);
    Or(Or(Get(first, "url"), Get(first, "link")), Get(Some(data), "link"))
  }

  /**
   * `first?.summary || first?.tldr || data?.summary || null`: the first
   * truthy one of the item's `summary`, the item's `tldr` and the
   * document's `summary`, and `null` when none is truthy.
   */
  function SummaryValue(data: Json): (summary: Json)
    ensures Truthy(Get(FirstItem(data), "summary")) ==> summary == Get(FirstItem(data), "summary").value
    ensures !Truthy(Get(FirstItem(data), "summary")) && Truthy(Get(FirstItem(data), "tldr")) ==>
              summary == Get(FirstItem(data), "tldr").value
    ensures (!Truthy(Get(FirstItem(data), "summary")) && !Truthy(Get(FirstItem(data), "tldr")) &&
             Truthy(Get(Some(data), "summary"))) ==> summary == Get(Some(data), "summary").value
    ensures (!Truthy(Get(FirstItem(data), "summary")) && !Truthy(Get(FirstItem(data), "tldr")) &&
             !Truthy(Get(Some(data), "summary"))) ==> summary == JNull
    ensures summary == JNull || Truthy(Some(summary))
  {
    var first := FirstItem(data);
    Or(Or(Or(Get(first, "summary"), Get(first, "tldr")), Get(Some(data), "summary")), Some(JNull)).value
  }

  /**
   * The strategy: a rejected request or a non-ok status fails; otherwise it
   * succeeds exactly when the title and url values are both truthy and
   * `String()` throws for neither, and then the record holds their texts,
   * the summary value and the tag `api`. A throwing `String()` is caught,
   * so the strategy fails.
   */
  function Attempt(res: Response<Json>, showNumber: real -> string): (r: Option<Headline>)
    ensures r.Some? <==> res.Ok? && Truthy(TitleValue(res.body)) && Truthy(UrlValue(res.body)) &&
                         !Unprintable(TitleValue(res.body).value) && !Unprintable(UrlValue(res.body).value)
    ensures r.Some? ==> r.value.source == Api
    ensures r.Some? ==> Some(r.value.title) == ToText(TitleValue(res.body).value, showNumber)
    ensures r.Some? ==> Some(r.value.url) == ToText(UrlValue(res.body).value, showNumber)
    ensures r.Some? ==> r.value.summary == SummaryValue(res.body)
  {
    match res
    case Ok(data) =>
      var title := TitleValue(data);
      var url := UrlValue(data);
      if Truthy(title) && Truthy(url) then
        match (ToText(title.value, showNumber), ToText(url.value, showNumber))
        case (Some(t), Some(u)) => Some(Headline(t, u, SummaryValue(data), Api))
        case _ => None
      else None
    case _ => None
  }

  /**
   * The title is the first item's own `title` when that is truthy and the
   * document's `title` otherwise; the url prefers the item's `url`, then
   * the item's `link`, then the document's `link`.
   */
  lemma AliasOrder(data: Json)
    ensures Truthy(Get(FirstItem(data), "title")) ==> TitleValue(data) == Get(FirstItem(data), "title")
    ensures !Truthy(Get(FirstItem(data), "title")) ==> TitleValue(data) == Get(Some(data), "title")
    ensures Truthy(Get(FirstItem(data), "url")) ==> UrlValue(data) == Get(FirstItem(data), "url")
    ensures !Truthy(Get(FirstItem(data), "url")) && Truthy(Get(FirstItem(data), "link")) ==>
              UrlValue(data) == Get(FirstItem(data), "link")
    ensures !Truthy(Get(FirstItem(data), "url")) && !Truthy(Get(FirstItem(data), "link")) ==>
              UrlValue(data) == Get(Some(data), "link")
  {
  }

  /**
   * When the title and url values are strings, as a well-behaved endpoint
   * sends them, the record's title and url are non-empty.
   */
  lemma StringFieldsGiveNonEmptyHeadline(res: Response<Json>, showNumber: real -> string)
    requires Attempt(res, showNumber).Some?
    requires TitleValue(res.body).value.JString? && UrlValue(res.body).value.JString?
    ensures Attempt(res, showNumber).value.title != []
    ensures Attempt(res, showNumber).value.url != []
  {
  }

  /**
   * `String()` of an object holding its own `toString` key throws, and the
   * strategy fails: `{"title": {"toString": 1}, "url": "u"}` gives no
   * headline although its title and url are truthy.
   */
  lemma OwnToStringFails(showNumber: real -> string)
    ensures Attempt(Ok(JObject(map["title" := JObject(map["toString" := JNumber(1.0)]), "url" := JString("u")])),
                    showNumber) == None
  {
    var data := JObject(map["title" := JObject(map["toString" := JNumber(1.0)]), "url" := JString("u")]);
    assert FirstItem(data) == Some(data);
    assert Unprintable(TitleValue(data).value);
  }

  /**
   * Truthiness is tested before `String()`: an empty array is truthy but
   * converts to the empty string, so `{"title": [], "url": "u"}` yields a
   * headline with an empty title.
   */
  lemma EmptyArrayTitle(showNumber: real -> string)
    ensures Attempt(Ok(JObject(map["title" := JArray([]), "url" := JString("u")])), showNumber)
            == Some(Headline("", "u", JNull, Api))
  {
    var data := JObject(map["title" := JArray([]), "url" := JString("u")]);
    assert FirstItem(data) == Some(data);
  }

  /**
   * A document whose `items` array starts with an object carrying non-empty
   * string `title` and `url` gives a headline with exactly that title and
   * url, tagged `api`, whatever else the document holds.
   */
  lemma ItemsHeadIsUsed(data: Json, item: Json, title: string, url: string, showNumber: real -> string)
    requires data.JObject? && "items" in data.fields
    requires data.fields["items"].JArray? && |data.fields["items"].elems| > 0
    requires data.fields["items"].elems[0] == item
    requires item.JObject? && "title" in item.fields && "url" in item.fields
    requires item.fields["title"] == JString(title) && title != []
    requires item.fields["url"] == JString(url) && url != []
    ensures Attempt(Ok(data), showNumber).Some?
    ensures Attempt(Ok(data), showNumber).value.title == title
    ensures Attempt(Ok(data), showNumber).value.url == url
    ensures Attempt(Ok(data), showNumber).value.source == Api
  {
    assert ItemsHead(data) == Some(item);
  }
}
