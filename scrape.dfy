/**
 * Strategy C of `getTLDRTop`: the home page read as text. The first anchor
 * matching
 * `/<a[^>]+href="(https?:\/\/tldr\.tech\/|\/)news[^"]*"[^>]*>(.*?)<\/a>/i`
 * supplies the headline: its `href` (found again in the whole match with
 * `/href="([^"]+)"/`, made absolute when it does not start with `http`) and
 * its inner text with tags removed and trimmed.
 */
module Scrape {
  import opened Wrappers
  import opened Scan
  import opened Text
  import opened Js
  import opened Tldr

  /**
   * A match of the anchor pattern: `m[0]` is `s[start..end]`, `m[2]` is
   * `s[textStart..textEnd]`; `href="` starts at `href` and the `"` closing
   * the attribute value is at `quote`.
   */
  datatype Anchor = Anchor(start: nat, href: nat, quote: nat, textStart: nat, textEnd: nat, end: nat)

  /** The origin prefixed to a site-relative link. */
  const Origin: string := "https://tldr.tech"

  /** `(https?:\/\/tldr\.tech\/|\/)` at `v`, ignoring case: how many characters it takes. */
  function NewsRootAt(s: string, v: nat): Option<nat>
  {
    if OccursAtIgnoringCase(s, "https://tldr.tech/", v) then Some(18)
    else if OccursAtIgnoringCase(s, "http://tldr.tech/", v) then Some(17)
    else if OccursAtIgnoringCase(s, "/", v) then Some(1)
    else None
  }

  /**
   * The pieces of `href="(…)news[^"]*"[^>]*>(.*?)<\/a>` as the match `a`
   * with `href="` at `x` lays them out: `href="`, the news root and `news`;
   * the first `"` after them at `quote`; the first `>` after that just
   * before `textStart`; and the first `</a>` at `textEnd`, with no line
   * terminator before it.
   */
  predicate RestMatch(s: string, x: nat, a: Anchor)
  {
    a.href == x && OccursAtIgnoringCase(s, "href=\"", x) && NewsRootAt(s, x + 6).Some? &&
    var n := NewsRootAt(s, x + 6).value;
    OccursAtIgnoringCase(s, "news", x + 6 + n) &&
    x + 10 + n <= a.quote < |s| && s[a.quote] == '"' &&
    (forall k :: x + 10 + n <= k < a.quote ==> s[k] != '"') &&
    a.quote < a.textStart <= |s| && s[a.textStart - 1] == '>' &&
    (forall k :: a.quote < k < a.textStart - 1 ==> s[k] != '>') &&
    a.textStart <= a.textEnd && a.end == a.textEnd + 4 <= |s| &&
    OccursAtIgnoringCase(s, "</a>", a.textEnd) && PlainRun(s, a.textStart, a.textEnd, "</a>", true)
  }

  /**
   * The rest of the pattern after `<a[^>]+`, with `href="` at `x`:
   * `href="(…)news[^"]*"[^>]*>(.*?)<\/a>`. The greedy `[^"]*` and `[^>]*`
   * end at the first `"` and the first `>` after them, and the lazy
   * `(.*?)` at the first `</a>` on the same line.
   */
  function RestAt(s: string, p: nat, x: nat): (r: Option<Anchor>)
    ensures r.Some? ==> r.value.start == p && RestMatch(s, x, r.value)
  {
    if !OccursAtIgnoringCase(s, "href=\"", x) then None
    else match NewsRootAt(s, x + 6)
      case None => None
      case Some(n) => QuoteAt(s, p, x, n)
  }

  /** After the news root, `n` characters long: `news[^"]*"`, then the rest from the first `"`. */
  function QuoteAt(s: string, p: nat, x: nat, n: nat): Option<Anchor>
  {
    if !OccursAtIgnoringCase(s, "news", x + 6 + n) then None
    else match IndexOf(s, '"', x + 10 + n)
      case None => None
      case Some(c) => TextAt(s, p, x, c)
  }

  /** After the `"` at `c`: `[^>]*>(.*?)<\/a>`, the first `>` and then the lazy text up to `</a>`. */
  function TextAt(s: string, p: nat, x: nat, c: nat): Option<Anchor>
  {
    match IndexOf(s, '>', c + 1)
    case None => None
    case Some(e) =>
      match LazyUntil(s, e + 1, "</a>", true)
      case None => None
      case Some(q) => Some(Anchor(p, x, c, e + 1, q, q + 4))
  }

  /** `TextAt` gives the match whose `>` and `</a>` are the first ones. */
  lemma TextAtIs(s: string, p: nat, x: nat, a: Anchor)
    requires a.start == p && a.href == x && a.quote < a.textStart <= |s|
    requires s[a.quote] == '"' && s[a.textStart - 1] == '>'
    requires forall k :: a.quote < k < a.textStart - 1 ==> s[k] != '>'
    requires a.textStart <= a.textEnd && a.end == a.textEnd + 4 <= |s|
    requires OccursAtIgnoringCase(s, "</a>", a.textEnd) && PlainRun(s, a.textStart, a.textEnd, "</a>", true)
    ensures TextAt(s, p, x, a.quote) == Some(a)
  {
    IndexOfIs(s, '>', a.quote + 1, a.textStart - 1);
    LazyUntilIs(s, a.textStart, "</a>", true, a.textEnd);
    TextAtOf(s, p, x, a.quote, a.textStart - 1, a.textEnd);
  }

  /** `TextAt` from where its `>` and its `</a>` are found. */
  lemma TextAtOf(s: string, p: nat, x: nat, c: nat, e: nat, q: nat)
    requires IndexOf(s, '>', c + 1) == Some(e) && LazyUntil(s, e + 1, "</a>", true) == Some(q)
    ensures TextAt(s, p, x, c) == Some(Anchor(p, x, c, e + 1, q, q + 4))
  {
  }

  /**
   * `RestAt` finds precisely the match whose pieces are there: with its
   * ensures, `RestAt(s, p, x) == Some(a)` exactly when `a` starts at `p`
   * and lays out a `RestMatch`.
   */
  lemma RestAtIs(s: string, p: nat, x: nat, a: Anchor)
    requires a.start == p && RestMatch(s, x, a)
    ensures RestAt(s, p, x) == Some(a)
  {
    var n := NewsRootAt(s, x + 6).value;
    QuoteAtIs(s, p, x, n, a);
    RestAtOf(s, p, x, n, a);
  }

  /** `RestAt` after `href="` and a news root of length `n` is what `QuoteAt` gives. */
  lemma RestAtOf(s: string, p: nat, x: nat, n: nat, a: Anchor)
    requires OccursAtIgnoringCase(s, "href=\"", x) && NewsRootAt(s, x + 6) == Some(n)
    requires QuoteAt(s, p, x, n) == Some(a)
    ensures RestAt(s, p, x) == Some(a)
  {
  }

  /** `QuoteAt` gives the match whose `"` is the first one after `news`. */
  lemma QuoteAtIs(s: string, p: nat, x: nat, n: nat, a: Anchor)
    requires a.start == p && a.href == x && OccursAtIgnoringCase(s, "news", x + 6 + n)
    requires x + 10 + n <= a.quote < a.textStart <= |s| && s[a.quote] == '"'
    requires forall k :: x + 10 + n <= k < a.quote ==> s[k] != '"'
    requires s[a.textStart - 1] == '>'
    requires forall k :: a.quote < k < a.textStart - 1 ==> s[k] != '>'
    requires a.textStart <= a.textEnd && a.end == a.textEnd + 4 <= |s|
    requires OccursAtIgnoringCase(s, "</a>", a.textEnd) && PlainRun(s, a.textStart, a.textEnd, "</a>", true)
    ensures QuoteAt(s, p, x, n) == Some(a)
  {
    IndexOfIs(s, '"', x + 10 + n, a.quote);
    TextAtIs(s, p, x, a);
  }

  /** The rest of the pattern tried at each position of `href="`, for an anchor starting at `p`. */
  function RestsFrom(s: string, p: nat): nat -> Option<Anchor>
  {
    (x: nat) => RestAt(s, p, x)
  }

  /** Where `[^>]+` after `<a` at `p` must stop: the first `>` after `<a`, or the end of the text. */
  function TagEnd(s: string, p: nat): (t: nat)
    ensures t <= |s|
    ensures forall k :: p + 2 <= k < t ==> s[k] != '>'
    ensures t < |s| ==> p + 2 <= t && s[t] == '>'
  {
    match IndexOf(s, '>', p + 2)
    case Some(g) => g
    case None => |s|
  }

  /**
   * The anchor pattern at `p`: `<a`, then `[^>]+`, which cannot pass the
   * first `>` and, being greedy, is given back one character at a time,
   * so the last `href="` before that `>` from which the rest matches is
   * the one used.
   */
  function AnchorAt(s: string, p: nat): (r: Option<Anchor>)
    ensures r.Some? ==> OccursAtIgnoringCase(s, "<a", p) && p + 3 <= r.value.href <= TagEnd(s, p)
    ensures r.Some? ==> forall k :: p + 2 <= k < r.value.href ==> s[k] != '>'
    ensures r.Some? ==> RestAt(s, p, r.value.href) == r
    ensures r.Some? ==> forall y :: r.value.href < y <= TagEnd(s, p) ==> RestAt(s, p, y).None?
    ensures r.None? ==> !OccursAtIgnoringCase(s, "<a", p) ||
                        forall y :: p + 3 <= y <= TagEnd(s, p) ==> RestAt(s, p, y).None?
  {
    if !OccursAtIgnoringCase(s, "<a", p) then None
    else
      var g := TagEnd(s, p);
      var at := RestsFrom(s, p);
      var m := Last(p + 3, g, at);
      assert forall y :: (if m.Some? then m.value.pos + 1 else p + 3) <= y <= g ==> RestAt(s, p, y).None? by {
        forall y | (if m.Some? then m.value.pos + 1 else p + 3) <= y <= g ensures RestAt(s, p, y).None? {
          assert at(y).None?;
        }
      }
      if m.Some? then assert at(m.value.pos) == RestAt(s, p, m.value.pos); Some(m.value.value) else None
  }

  /** `AnchorAt` uses precisely the last `href="` before the tag ends from which the rest matches. */
  lemma AnchorAtIs(s: string, p: nat, x: nat)
    requires OccursAtIgnoringCase(s, "<a", p) && p + 3 <= x <= TagEnd(s, p)
    requires RestAt(s, p, x).Some?
    requires forall y :: x < y <= TagEnd(s, p) ==> RestAt(s, p, y).None?
    ensures AnchorAt(s, p) == RestAt(s, p, x)
  {
    var r := AnchorAt(s, p);
    assert r.Some?;
    assert r.value.href == x;
  }

  /** The anchor pattern tried at each position of the page. */
  function AnchorsIn(html: string): nat -> Option<Anchor>
  {
    (p: nat) => AnchorAt(html, p)
  }

  /** `html.match(linkRegex)`: the leftmost position at which the anchor pattern matches. */
  function FindAnchor(html: string): (r: Option<Anchor>)
    ensures r.Some? ==> AnchorAt(html, r.value.start) == r
    ensures r.Some? ==> forall k :: 0 <= k < r.value.start ==> AnchorAt(html, k).None?
    ensures r.None? ==> forall k :: 0 <= k <= |html| ==> AnchorAt(html, k).None?
  {
    var at := AnchorsIn(html);
    var m := First(0, |html|, at);
    assert forall k :: 0 <= k <= (if m.Some? then m.value.pos - 1 else |html|) ==> AnchorAt(html, k).None? by {
      forall k | 0 <= k <= (if m.Some? then m.value.pos - 1 else |html|) ensures AnchorAt(html, k).None? {
        assert at(k).None?;
      }
    }
    if m.Some? then Some(m.value.value) else None
  }

  /** `FindAnchor` finds precisely the leftmost position where the anchor pattern matches. */
  lemma FindAnchorIs(html: string, p: nat)
    requires p <= |html| && AnchorAt(html, p).Some?
    requires forall k :: 0 <= k < p ==> AnchorAt(html, k).None?
    ensures FindAnchor(html) == AnchorAt(html, p)
  {
    var at := AnchorsIn(html);
    forall k | 0 <= k < p ensures at(k).None? {
    }
    FirstIs(0, |html|, at, p);
  }

  /**
   * `href="([^"]+)"` at `y` (case matters here): the non-empty text up to
   * the next `"`, which is there exactly when `href="`, a value without `"`
   * and the closing `"` follow `y`.
   */
  function HrefValueAt(m: string, y: nat): (r: Option<string>)
    ensures r.Some? ==> r.value != [] && '"' !in r.value && OccursAt(m, "href=\"" + r.value + "\"", y)
  {
    if !OccursAt(m, "href=\"", y) then None
    else match IndexOf(m, '"', y + 6)
      case Some(c) =>
        if c > y + 6 then
          var h := m[y + 6..c];
          assert m[y..][..|"href=\"" + h + "\""|] == "href=\"" + h + "\"" by {
            assert m[y..][..6] == "href=\"";
            assert m[y..][6..c - y] == h;
            assert m[y..][c - y] == '"';
          }
          Some(h)
        else None
      case None => None
  }

  /** Where `href="`, a non-empty value without `"` and its closing `"` occur, `HrefValueAt` takes that value. */
  lemma HrefValueAtIs(m: string, y: nat, h: string)
    requires h != [] && '"' !in h && OccursAt(m, "href=\"" + h + "\"", y)
    ensures HrefValueAt(m, y) == Some(h)
  {
    var w := "href=\"" + h + "\"";
    assert m[y..][..|w|] == w;
    OccursPrefix(m, "href=\"", h + "\"", y);
    assert w == "href=\"" + (h + "\"");
    forall k | y + 6 <= k < y + 6 + |h| ensures m[k] != '"' {
      assert m[k] == w[k - y] == h[k - y - 6];
    }
    assert m[y + 6 + |h|] == w[6 + |h|];
    IndexOfIs(m, '"', y + 6, y + 6 + |h|);
    assert m[y + 6..y + 6 + |h|] == w[6..6 + |h|];
  }

  /** `rawHref = m[0].match(/href="([^"]+)"/)?.[1]`: the value at the leftmost place where it matches. */
  function RawHref(m: string): (r: Option<string>)
    ensures r.Some? ==> exists y :: 0 <= y <= |m| && HrefValueAt(m, y) == r &&
                                    forall k :: 0 <= k < y ==> HrefValueAt(m, k).None?
    ensures r.None? ==> forall y :: 0 <= y <= |m| ==> HrefValueAt(m, y).None?
  {
    var at := (y: nat) => HrefValueAt(m, y);
    var hit := First(0, |m|, at);
    assert forall k :: 0 <= k <= (if hit.Some? then hit.value.pos - 1 else |m|) ==> HrefValueAt(m, k).None? by {
      forall k | 0 <= k <= (if hit.Some? then hit.value.pos - 1 else |m|) ensures HrefValueAt(m, k).None? {
        assert at(k).None?;
      }
    }
    match hit
    case None => None
    case Some(hit) =>
      assert at(hit.pos) == HrefValueAt(m, hit.pos);
      Some(hit.value)
  }

  /** `RawHref` takes the value at the leftmost place where the href pattern matches. */
  lemma RawHrefIs(m: string, y: nat, h: string)
    requires h != [] && '"' !in h && OccursAt(m, "href=\"" + h + "\"", y)
    requires forall k :: 0 <= k < y ==> HrefValueAt(m, k).None?
    ensures RawHref(m) == Some(h)
  {
    HrefValueAtIs(m, y, h);
    var at := (k: nat) => HrefValueAt(m, k);
    forall k | 0 <= k < y ensures at(k).None? {
    }
    FirstIs(0, |m|, at, y);
  }

  /**
   * `rawHref?.startsWith("http") ? rawHref : `https://tldr.tech${rawHref}``:
   * a link starting with `http` is kept, any other is prefixed with the
   * origin, and a missing one is spliced in as the text `undefined`. The
   * result always starts with `http`.
   */
  function AbsoluteHref(raw: Option<string>): (url: string)
    ensures raw.Some? && "http" <= raw.value ==> url == raw.value
    ensures raw.Some? && !("http" <= raw.value) ==> url == Origin + raw.value
    ensures raw.None? ==> url == Origin + "undefined"
    ensures "http" <= url
  {
    match raw
    case Some(h) => if "http" <= h then h else Origin + h
    case None => Origin + "undefined"
  }

  /** Normalizing an already normalized link changes nothing. */
  lemma AbsoluteHrefIdempotent(raw: Option<string>)
    ensures AbsoluteHref(Some(AbsoluteHref(raw))) == AbsoluteHref(raw)
  {
  }

  /** A site-relative `/news…` link becomes the absolute `https://tldr.tech/news…`. */
  lemma RelativeNewsLinkIsAbsolute(h: string)
    requires "/news" <= h
    ensures AbsoluteHref(Some(h)) == Origin + h
    ensures "https://tldr.tech/news" <= AbsoluteHref(Some(h))
  {
    assert h[0] == '/';
  }

  /** `m[2]?.replace(/<[^>]+>/g, "").trim() || "Latest from TLDR Tech"` */
  function AnchorTitle(inner: string): (title: string)
    ensures title != [] && NoTags(title)
    ensures Trim(StripTags(inner)) != [] ==> title == Trim(StripTags(inner))
    ensures Trim(StripTags(inner)) == [] ==> title == PlaceholderTitle
  {
    var text := Trim(StripTags(inner));
    StripTagsLeavesNoTags(inner);
    NoTagsSlice(StripTags(inner), LeadingSpace(StripTags(inner)), LeadingSpace(StripTags(inner)) + |text|);
    assert '<' !in PlaceholderTitle;
    if text != [] then text else PlaceholderTitle
  }

  /**
   * The strategy: it succeeds exactly when the page was fetched and holds a
   * matching anchor; the record then has a non-empty, tag-free title taken
   * from the first anchor's inner text, a url starting with `http` made
   * from that anchor's `href`, a null summary and the tag `html-scrape`.
   */
  function Attempt(res: Response<string>): (r: Option<Headline>)
    ensures r.Some? <==> res.Ok? && FindAnchor(res.body).Some?
    ensures r.Some? ==> r.value.title != [] && NoTags(r.value.title) && "http" <= r.value.url
    ensures r.Some? ==> r.value.summary == JNull && r.value.source == HtmlScrape
    ensures r.Some? ==>
              var m := FindAnchor(res.body).value;
              r.value.title == AnchorTitle(res.body[m.textStart..m.textEnd]) &&
              r.value.url == AbsoluteHref(RawHref(res.body[m.start..m.end]))
  {
    match res
    case Ok(html) =>
      (match FindAnchor(html)
       case None => None
       case Some(m) =>
         Some(Headline(AnchorTitle(html[m.textStart..m.textEnd]),
                       AbsoluteHref(RawHref(html[m.start..m.end])), JNull, HtmlScrape)))
    case _ => None
  }

  /** `<a href="h">x</a>`: the plainest anchor the pattern can match. */
  function SimpleAnchor(h: string, x: string): string
  {
    "<a href=\"" + h + "\">" + x + "</a>"
  }

  /** Where the plain anchor `<a href="h">x</a>` occurs at `p`, its pieces are in place. */
  lemma SimpleAnchorLayout(s: string, p: nat, h: string, x: string)
    requires OccursAt(s, SimpleAnchor(h, x), p)
    ensures p + 15 + |h| + |x| <= |s|
    ensures OccursAt(s, "<a", p) && s[p + 2] == ' ' && OccursAt(s, "href=\"", p + 3)
    ensures OccursAt(s, h, p + 9)
    ensures s[p + 9 + |h|] == '"' && s[p + 10 + |h|] == '>'
    ensures OccursAt(s, x + "</a>", p + 11 + |h|)
  {
    var rest := x + "</a>";
    assert SimpleAnchor(h, x) == "<a href=\"" + (h + ("\">" + rest));
    OccursPrefix(s, "<a href=\"", h + ("\">" + rest), p);
    OccursSuffix(s, "<a href=\"", h + ("\">" + rest), p);
    assert "<a href=\"" == "<a" + " href=\"";
    OccursPrefix(s, "<a", " href=\"", p);
    OccursAtChar(s, "<a href=\"", p, 2);
    assert "<a href=\"" == "<a " + "href=\"";
    OccursSuffix(s, "<a ", "href=\"", p);
    OccursPrefix(s, h, "\">" + rest, p + 9);
    OccursSuffix(s, h, "\">" + rest, p + 9);
    OccursAtChar(s, "\">" + rest, p + 9 + |h|, 0);
    OccursAtChar(s, "\">" + rest, p + 9 + |h|, 1);
    OccursSuffix(s, "\">", rest, p + 9 + |h|);
  }

  /**
   * No `href="` after the first one of `<a href="h">` can start a match of
   * the rest of the pattern: the only `"` in reach is the one closing `h`,
   * and a `>` follows it.
   */
  lemma NoLaterHref(s: string, p: nat, h: string, y: nat)
    requires OccursAt(s, h, p + 9) && '"' !in h
    requires p + 10 + |h| < |s| && s[p + 9 + |h|] == '"' && s[p + 10 + |h|] == '>'
    requires p + 3 < y <= p + 10 + |h|
    ensures RestAt(s, p, y).None?
  {
    var q := p + 9 + |h|;
    if y + 5 < q {
      OccursAtChar(s, h, p + 9, y + 5 - (p + 9));
      assert Upper(s[y + 5]) != Upper("href=\""[5]);
    } else if y + 5 == q {
      assert Upper(s[y + 6]) != Upper("https://tldr.tech/"[0]);
      assert Upper(s[y + 6]) != Upper("http://tldr.tech/"[0]);
      assert Upper(s[y + 6]) != Upper("/"[0]);
      assert NewsRootAt(s, y + 6) == None;
    } else if y == q + 1 {
      assert Upper(s[y]) != Upper("href=\""[0]);
    } else {
      assert Upper(s[y + (q - y)]) != Upper("href=\""[q - y]);
    }
  }

  /** A news link that starts `/news` or `https://tldr.tech/news` passes the root and `news`. */
  lemma NewsRootOfLink(s: string, v: nat, h: string)
    requires OccursAt(s, h, v)
    requires "/news" <= h || "https://tldr.tech/news" <= h
    ensures NewsRootAt(s, v).Some? && NewsRootAt(s, v).value + 4 <= |h|
    ensures OccursAtIgnoringCase(s, "news", v + NewsRootAt(s, v).value)
  {
    if "/news" <= h {
      OccursPrefix(s, "/news", h[5..], v);
      assert Upper(s[v]) != Upper("https://tldr.tech/"[0]) by { OccursAtChar(s, "/news", v, 0); }
      assert Upper(s[v]) != Upper("http://tldr.tech/"[0]);
      assert "/news" == "/" + "news";
      OccursPrefix(s, "/", "news", v);
      OccursIgnoringCase(s, "/", v);
      OccursSuffix(s, "/", "news", v);
      OccursIgnoringCase(s, "news", v + 1);
    } else {
      OccursPrefix(s, "https://tldr.tech/news", h[22..], v);
      assert "https://tldr.tech/news" == "https://tldr.tech/" + "news";
      OccursPrefix(s, "https://tldr.tech/", "news", v);
      OccursIgnoringCase(s, "https://tldr.tech/", v);
      OccursSuffix(s, "https://tldr.tech/", "news", v);
      OccursIgnoringCase(s, "news", v + 18);
    }
  }

  /**
   * Inner text `x` on one line with no `</a>` in it, followed by `</a>` at
   * `t`: the lazy capture from `t` stops right after `x`.
   */
  lemma InnerText(s: string, t: nat, x: string)
    requires OccursAt(s, x + "</a>", t)
    requires forall k :: 0 <= k < |x| ==> !IsLineTerminator(x[k])
    requires forall k :: 0 <= k < |x| ==> !OccursAtIgnoringCase(x + "</a>", "</a>", k)
    ensures t + |x| + 4 <= |s| && OccursAtIgnoringCase(s, "</a>", t + |x|)
    ensures PlainRun(s, t, t + |x|, "</a>", true)
    ensures s[t..t + |x|] == x
  {
    OccursSuffix(s, x, "</a>", t);
    OccursIgnoringCase(s, "</a>", t + |x|);
    forall k | t <= k < t + |x|
      ensures !DelimiterAt(s, "</a>", true, k) && !IsLineTerminator(s[k])
    {
      IgnoringCaseInside(s, x + "</a>", t, "</a>", k - t);
      OccursAtChar(s, x + "</a>", t, k - t);
    }
    OccursPrefix(s, x, "</a>", t);
  }

  /** The match that the plain anchor `<a href="h">x</a>` at `p` lays out. */
  function SimpleMatch(p: nat, h: string, x: string): Anchor
  {
    Anchor(p, p + 3, p + 9 + |h|, p + 11 + |h|, p + 11 + |h| + |x|, p + 15 + |h| + |x|)
  }

  /** `RestMatch` from its pieces, with the news root's length `n` named. */
  lemma RestMatchIntro(s: string, x: nat, a: Anchor, n: nat)
    requires a.href == x && OccursAtIgnoringCase(s, "href=\"", x) && NewsRootAt(s, x + 6) == Some(n)
    requires OccursAtIgnoringCase(s, "news", x + 6 + n)
    requires x + 10 + n <= a.quote < |s| && s[a.quote] == '"'
    requires forall k :: x + 10 + n <= k < a.quote ==> s[k] != '"'
    requires a.textStart == a.quote + 2 <= |s| && s[a.quote + 1] == '>'
    requires a.textStart <= a.textEnd && a.end == a.textEnd + 4 <= |s|
    requires OccursAtIgnoringCase(s, "</a>", a.textEnd) && PlainRun(s, a.textStart, a.textEnd, "</a>", true)
    ensures RestMatch(s, x, a)
  {
  }

  /** A link `h` free of `"` at `v` has no `"` anywhere inside it. */
  lemma NoQuoteInLink(s: string, v: nat, h: string, from: nat, to: nat)
    requires OccursAt(s, h, v) && '"' !in h
    requires v <= from && to <= v + |h|
    ensures forall k :: from <= k < to ==> s[k] != '"'
  {
    forall k | from <= k < to ensures s[k] != '"' {
      OccursAtChar(s, h, v, k - v);
    }
  }

  /** The plain news anchor at `p` has the pieces of the rest of the pattern after `href="`. */
  lemma SimpleRestMatch(s: string, p: nat, h: string, x: string, n: nat)
    requires p + 15 + |h| + |x| <= |s| && OccursAt(s, "href=\"", p + 3)
    requires s[p + 9 + |h|] == '"' && s[p + 10 + |h|] == '>'
    requires NewsRootAt(s, p + 9) == Some(n) && n + 4 <= |h| && OccursAtIgnoringCase(s, "news", p + 9 + n)
    requires forall k :: p + 13 + n <= k < p + 9 + |h| ==> s[k] != '"'
    requires OccursAtIgnoringCase(s, "</a>", p + 11 + |h| + |x|)
    requires PlainRun(s, p + 11 + |h|, p + 11 + |h| + |x|, "</a>", true)
    ensures RestMatch(s, p + 3, SimpleMatch(p, h, x))
  {
    OccursIgnoringCase(s, "href=\"", p + 3);
    RestMatchIntro(s, p + 3, SimpleMatch(p, h, x), n);
  }

  /** `[^>]+` after the `<a ` of the plain anchor stops at a `>` no later than the one after `h`. */
  lemma SimpleTagEnd(s: string, p: nat, h: string)
    requires p + 10 + |h| < |s| && s[p + 2] == ' ' && s[p + 10 + |h|] == '>'
    ensures p + 3 <= TagEnd(s, p) <= p + 10 + |h|
  {
  }

  /** No later `href="` inside the plain anchor's tag starts a match. */
  lemma SimpleNoLaterHref(s: string, p: nat, h: string)
    requires OccursAt(s, h, p + 9) && '"' !in h
    requires p + 10 + |h| < |s| && s[p + 9 + |h|] == '"' && s[p + 10 + |h|] == '>'
    requires TagEnd(s, p) <= p + 10 + |h|
    ensures forall y :: p + 3 < y <= TagEnd(s, p) ==> RestAt(s, p, y).None?
  {
    forall y | p + 3 < y <= TagEnd(s, p) ensures RestAt(s, p, y).None? {
      NoLaterHref(s, p, h, y);
    }
  }

  /** The plain news anchor at `p` is matched by the anchor pattern there, with spans as laid out. */
  lemma SimpleAnchorAt(s: string, p: nat, h: string, x: string)
    requires OccursAt(s, SimpleAnchor(h, x), p)
    requires "/news" <= h || "https://tldr.tech/news" <= h
    requires '"' !in h
    requires forall k :: 0 <= k < |x| ==> !IsLineTerminator(x[k])
    requires forall k :: 0 <= k < |x| ==> !OccursAtIgnoringCase(x + "</a>", "</a>", k)
    ensures AnchorAt(s, p) == Some(SimpleMatch(p, h, x))
  {
    SimpleAnchorLayout(s, p, h, x);
    InnerText(s, p + 11 + |h|, x);
    NewsRootOfLink(s, p + 9, h);
    var n := NewsRootAt(s, p + 9).value;
    NoQuoteInLink(s, p + 9, h, p + 13 + n, p + 9 + |h|);
    SimpleRestMatch(s, p, h, x, n);
    RestAtIs(s, p, p + 3, SimpleMatch(p, h, x));
    SimpleTagEnd(s, p, h);
    SimpleNoLaterHref(s, p, h);
    OccursIgnoringCase(s, "<a", p);
    AnchorAtIs(s, p, p + 3);
  }

  /** Within the plain anchor itself, `rawHref` is `h`. */
  lemma SimpleAnchorHref(h: string, x: string)
    requires h != [] && '"' !in h
    ensures RawHref(SimpleAnchor(h, x)) == Some(h)
  {
    var w := SimpleAnchor(h, x);
    assert w == "<a " + ("href=\"" + h + "\"") + (">" + x + "</a>");
    assert OccursAt(w, "href=\"" + h + "\"", 3) by {
      assert w[3..][..|"href=\"" + h + "\""|] == "href=\"" + h + "\"";
    }
    forall k | 0 <= k < 3 ensures HrefValueAt(w, k).None? {
      assert w[k] != 'h';
    }
    RawHrefIs(w, 3, h);
  }

  /**
   * When the first `<a` of the page, ignoring case, opens the plain anchor
   * `<a href="h">x</a>` with a news link `h` and inner text `x` on one line
   * holding no `</a>`, strategy C gives exactly that anchor's title and
   * absolute url.
   */
  lemma NewsAnchorIsTaken(page: string, p: nat, h: string, x: string)
    requires OccursAt(page, SimpleAnchor(h, x), p)
    requires forall k :: 0 <= k < p ==> !OccursAtIgnoringCase(page, "<a", k)
    requires "/news" <= h || "https://tldr.tech/news" <= h
    requires '"' !in h
    requires forall k :: 0 <= k < |x| ==> !IsLineTerminator(x[k])
    requires forall k :: 0 <= k < |x| ==> !OccursAtIgnoringCase(x + "</a>", "</a>", k)
    ensures Attempt(Ok(page)) == Some(Headline(AnchorTitle(x), AbsoluteHref(Some(h)), JNull, HtmlScrape))
  {
    SimpleAnchorFound(page, p, h, x);
    SimpleAnchorSlices(page, p, h, x);
    SimpleAnchorHref(h, x);
    AttemptOfFound(page, SimpleMatch(p, h, x), x, h);
  }

  /** The spans laid out for the plain anchor at `p` cut out the anchor itself and its text `x`. */
  lemma SimpleAnchorSlices(page: string, p: nat, h: string, x: string)
    requires OccursAt(page, SimpleAnchor(h, x), p)
    ensures var m := SimpleMatch(p, h, x);
            m.end <= |page| && page[m.start..m.end] == SimpleAnchor(h, x) && page[m.textStart..m.textEnd] == x
  {
    SimpleAnchorLayout(page, p, h, x);
    var t := p + 11 + |h|;
    OccursPrefix(page, x, "</a>", t);
    assert page[t..t + |x|] == page[t..][..|x|];
    assert page[p..p + 15 + |h| + |x|] == SimpleAnchor(h, x);
  }

  /** Strategy C's headline from the anchor found, its inner text `x` and its raw link `h`. */
  lemma AttemptOfFound(page: string, m: Anchor, x: string, h: string)
    requires FindAnchor(page) == Some(m)
    requires m.textStart <= m.textEnd <= |page| && page[m.textStart..m.textEnd] == x
    requires m.start <= m.end <= |page| && RawHref(page[m.start..m.end]) == Some(h)
    ensures Attempt(Ok(page)) == Some(Headline(AnchorTitle(x), AbsoluteHref(Some(h)), JNull, HtmlScrape))
  {
  }

  /** With no `<a` before it, the plain news anchor at `p` is the one the page's pattern finds. */
  lemma SimpleAnchorFound(page: string, p: nat, h: string, x: string)
    requires OccursAt(page, SimpleAnchor(h, x), p)
    requires forall k :: 0 <= k < p ==> !OccursAtIgnoringCase(page, "<a", k)
    requires "/news" <= h || "https://tldr.tech/news" <= h
    requires '"' !in h
    requires forall k :: 0 <= k < |x| ==> !IsLineTerminator(x[k])
    requires forall k :: 0 <= k < |x| ==> !OccursAtIgnoringCase(x + "</a>", "</a>", k)
    ensures FindAnchor(page) == Some(SimpleMatch(p, h, x))
  {
    SimpleAnchorAt(page, p, h, x);
    forall k | 0 <= k < p ensures AnchorAt(page, k).None? {
    }
    FindAnchorIs(page, p);
  }
}
