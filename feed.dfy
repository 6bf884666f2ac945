/**
 * Strategy B of `getTLDRTop`: the RSS feed read as text. The first
 * `<item>…</item>` block is cut out with `/<item>[\s\S]*?<\/item>/`; inside
 * it the title comes from
 * `/<title><!\[CDATA\[(.*?)\]\]><\/title>|<title>(.*?)<\/title>/` and the
 * link from `/<link>(.*?)<\/link>/`.
 */
module Feed {
  import opened Wrappers
  import opened Scan
  import opened Js
  import opened Tldr

  /** `/<item>[\s\S]*?<\/item>/` matches from `k` with its closing tag at `j`. */
  predicate ItemMatch(xml: string, k: nat, j: nat)
  {
    OccursAt(xml, "<item>", k) && k + 6 <= j && OccursAt(xml, "</item>", j)
  }

  /**
   * Where the item pattern matches: the first `<item>` and the nearest
   * `</item>` after it. This is the leftmost match with the shortest body,
   * and there is none exactly when no `<item>` is followed by `</item>`.
   */
  function ItemSpan(xml: string): (r: Option<(nat, nat)>)
    ensures r.Some? ==> ItemMatch(xml, r.value.0, r.value.1) && r.value.1 + 7 <= |xml|
    ensures r.Some? ==> forall k, j :: ItemMatch(xml, k, j) ==>
                          r.value.0 < k || (r.value.0 == k && r.value.1 <= j)
    ensures r.None? ==> forall k, j :: !ItemMatch(xml, k, j)
  {
    match Find(xml, "<item>", 0)
    case None => None
    case Some(i) =>
      match Find(xml, "</item>", i + 6)
      case None => None
      case Some(j) => Some((i, j))
  }

  /** `xml.match(/<item>[\s\S]*?<\/item>/)?.[0]` */
  function ItemBlock(xml: string): Option<string>
  {
    match ItemSpan(xml)
    case None => None
    case Some((i, j)) => Some(xml[i..j + 7])
  }

  /** Which alternative of the title pattern matched, with its capture. */
  datatype TitleGroups = Cdata(text: string) | Plain(text: string)

  /** The first alternative, `<title><![CDATA[(.*?)]]></title>`, at `p`. */
  function CdataTitleAt(b: string, p: nat): Option<string>
  {
    if !OccursAt(b, "<title><![CDATA[", p) then None
    else match LazyUntil(b, p + 16, "]]></title>", false)
      case Some(q) => Some(b[p + 16..q])
      case None => None
  }

  /** The second alternative, `<title>(.*?)</title>`, at `p`. */
  function PlainTitleAt(b: string, p: nat): Option<string>
  {
    if !OccursAt(b, "<title>", p) then None
    else match LazyUntil(b, p + 7, "</title>", false)
      case Some(q) => Some(b[p + 7..q])
      case None => None
  }

  /** The title pattern at `p`: the CDATA alternative is tried first. */
  function TitleAt(b: string, p: nat): Option<TitleGroups>
  {
    match CdataTitleAt(b, p)
    case Some(t) => Some(Cdata(t))
    case None =>
      match PlainTitleAt(b, p)
      case Some(t) => Some(Plain(t))
      case None => None
  }

  /**
   * `t = titleMatch?.[1] || titleMatch?.[2]` as a string or `undefined`: an
   * empty CDATA capture leaves the undefined second group.
   */
  function TitleText(b: string): Option<string>
  {
    var m: Option<Hit<TitleGroups>> := First(0, |b|, p => TitleAt(b, p));
    match m
    case None => None
    case Some(Hit(_, Cdata(t))) => if t != [] then Some(t) else None
    case Some(Hit(_, Plain(t))) => Some(t)
  }

  /** `<link>(.*?)</link>` at `p`, with its capture. */
  function LinkAt(b: string, p: nat): Option<string>
  {
    if !OccursAt(b, "<link>", p) then None
    else match LazyUntil(b, p + 6, "</link>", false)
      case Some(q) => Some(b[p + 6..q])
      case None => None
  }

  /** `u = linkMatch?.[1]` */
  function LinkText(b: string): Option<string>
  {
    match First(0, |b|, p => LinkAt(b, p))
    case None => None
    case Some(hit) => Some(hit.value)
  }

  /** The strategy once the item block is known: `if (t && u)`. */
  function FromBlock(b: string): Option<Headline>
  {
    var t := TitleText(b);
    var u := LinkText(b);
    if t.Some? && t.value != [] && u.Some? && u.value != [] then Some(Headline(t.value, u.value, JNull, Rss))
    else None
  }

  /**
   * The strategy: it succeeds exactly when the feed was fetched, holds an
   * item block and that block yields a non-empty title and a non-empty
   * link; the record then has those, a null summary and the tag `rss`.
   */
  function Attempt(res: Response<string>): (r: Option<Headline>)
    ensures r.Some? <==> res.Ok? && ItemBlock(res.body).Some? &&
                         TitleText(ItemBlock(res.body).value).Some? && TitleText(ItemBlock(res.body).value).value != [] &&
                         LinkText(ItemBlock(res.body).value).Some? && LinkText(ItemBlock(res.body).value).value != []
    ensures r.Some? ==> r.value.title == TitleText(ItemBlock(res.body).value).value && r.value.title != []
    ensures r.Some? ==> r.value.url == LinkText(ItemBlock(res.body).value).value && r.value.url != []
    ensures r.Some? ==> r.value.summary == JNull && r.value.source == Rss
  {
    match res
    case Ok(xml) =>
      (match ItemBlock(xml)
       case Some(b) => FromBlock(b)
       case None => None)
    case _ => None
  }

  /** `ItemSpan` is determined by the two searches it makes. */
  lemma ItemSpanIs(xml: string, i: nat, j: nat)
    requires Find(xml, "<item>", 0) == Some(i) && Find(xml, "</item>", i + 6) == Some(j)
    ensures ItemSpan(xml) == Some((i, j))
  {
  }

  /** Inside the block of the span `(i, j)` its opening tag is the first one. */
  lemma OpenInBlock(xml: string, i: nat, j: nat)
    requires Find(xml, "<item>", 0) == Some(i) && Find(xml, "</item>", i + 6) == Some(j)
    ensures Find(xml[i..j + 7], "<item>", 0) == Some(0)
  {
    OccursInSlice(xml, i, j + 7, "<item>", 0);
    FindIs(xml[i..j + 7], "<item>", 0, 0);
  }

  /** Inside the block of the span `(i, j)` the nearest closing tag after the opening one is its own. */
  lemma CloseInBlock(xml: string, i: nat, j: nat)
    requires Find(xml, "<item>", 0) == Some(i) && Find(xml, "</item>", i + 6) == Some(j)
    ensures Find(xml[i..j + 7], "</item>", 0 + 6) == Some(j - i)
  {
    var b := xml[i..j + 7];
    forall k | 6 <= k <= j - i ensures OccursAt(b, "</item>", k) <==> OccursAt(xml, "</item>", i + k) {
      OccursInSlice(xml, i, j + 7, "</item>", k);
    }
    FindIs(b, "</item>", 6, j - i);
  }

  /** The span of the block of the span `(i, j)` is the whole block. */
  lemma BlockSpan(xml: string, i: nat, j: nat)
    requires Find(xml, "<item>", 0) == Some(i) && Find(xml, "</item>", i + 6) == Some(j)
    ensures ItemSpan(xml[i..j + 7]) == Some((0, j - i))
  {
    OpenInBlock(xml, i, j);
    CloseInBlock(xml, i, j);
    ItemSpanIs(xml[i..j + 7], 0, j - i);
  }

  /** The item block, taken as a feed on its own, is its own item block. */
  lemma BlockIsItsOwnBlock(xml: string)
    requires ItemBlock(xml).Some?
    ensures ItemBlock(ItemBlock(xml).value) == ItemBlock(xml)
  {
    var span := ItemSpan(xml).value;
    var i, j := span.0, span.1;
    var b := xml[i..j + 7];
    assert ItemBlock(xml) == Some(b);
    assert Find(xml, "<item>", 0) == Some(i) && Find(xml, "</item>", i + 6) == Some(j);
    BlockSpan(xml, i, j);
    assert b[0..j - i + 7] == b;
    assert ItemBlock(b) == Some(b[0..j - i + 7]);
  }

  /**
   * The strategy's result on the whole feed is its result on the item block
   * alone: no text outside the block is ever used.
   */
  lemma OnlyTheBlockMatters(xml: string)
    requires ItemBlock(xml).Some?
    ensures Attempt(Ok(xml)) == Attempt(Ok(ItemBlock(xml).value))
  {
    BlockIsItsOwnBlock(xml);
  }

  /** Neither alternative of the title pattern can match where no `<title>` starts. */
  lemma NoTitleWithoutTag(b: string, k: nat)
    requires !OccursAt(b, "<title>", k)
    ensures TitleAt(b, k).None?
  {
    if OccursAt(b, "<title><![CDATA[", k) {
      OccursPrefix(b, "<title>", "<![CDATA[", k);
    }
  }

  /** Where `open + x + close` occurs at `p`, the piece of `b` it covers is that text. */
  lemma Covered(b: string, p: nat, open: string, x: string, close: string)
    requires OccursAt(b, open + x + close, p)
    ensures p + |open| + |x| + |close| <= |b|
    ensures b[p..p + |open| + |x| + |close|] == open + x + close
  {
    assert b[p..][..|open + x + close|] == b[p..p + |open| + |x| + |close|];
  }

  /** The parts of `open + x + close` occurring at `p`: `open` at `p`, `x` after it, `close` after `x`. */
  lemma PartsInOrder(b: string, p: nat, open: string, x: string, close: string)
    requires OccursAt(b, open + x + close, p)
    ensures OccursAt(b, open, p)
    ensures p + |open| + |x| <= |b| && b[p + |open|..p + |open| + |x|] == x
    ensures OccursAt(b, close, p + |open| + |x|)
  {
    Parts(b, p, open, x, close);
  }

  /** The closing text of `open + x + close` occurring at `p` follows `x`. */
  lemma CloseAfter(b: string, p: nat, open: string, x: string, close: string)
    requires OccursAt(b, open + x + close, p)
    ensures p + |open| + |x| <= |b| && DelimiterAt(b, close, false, p + |open| + |x|)
  {
    Parts(b, p, open, x, close);
  }

  /**
   * The parts of `open + x + close` occurring at `p`: `open` at `p`, `x`
   * after it, `close` after `x`, and a `close` starting inside `x` in `b`
   * exactly where one starts inside `x` in `x + close`.
   */
  lemma Parts(b: string, p: nat, open: string, x: string, close: string)
    requires OccursAt(b, open + x + close, p)
    ensures OccursAt(b, open, p)
    ensures p + |open| + |x| <= |b| && b[p + |open|..p + |open| + |x|] == x
    ensures OccursAt(b, close, p + |open| + |x|)
    ensures forall k :: 0 <= k < |x| ==> (OccursAt(b, close, p + |open| + k) <==> OccursAt(x + close, close, k))
  {
    var w := open + x + close;
    var e := p + |w|;
    Covered(b, p, open, x, close);
    var rest := x + close;
    assert w == open + rest;
    assert w[|open|..] == rest;
    assert b[p + |open|..e] == rest by {
      assert b[p + |open|..e] == b[p..e][|open|..];
    }
    OccursInSlice(b, p, e, open, 0);
    assert OccursAt(w, open, 0) by { assert w[0..][..|open|] == open; }
    assert b[p + |open|..p + |open| + |x|] == x by {
      assert b[p + |open|..p + |open| + |x|] == b[p + |open|..e][..|x|];
      assert rest[..|x|] == x;
    }
    OccursInSlice(b, p + |open|, e, close, |x|);
    assert OccursAt(rest, close, |x|) by { assert rest[|x|..] == close; }
    forall k | 0 <= k < |x|
      ensures OccursAt(b, close, p + |open| + k) <==> OccursAt(x + close, close, k)
    {
      OccursInSlice(b, p + |open|, e, close, k);
    }
  }

  /**
   * `open(.*?)close` where `open + x + close` occurs at `p`, with `x` on
   * one line and no `close` starting inside it: the opening text is there,
   * the lazy capture stops after `x`, and it captures `x`.
   */
  lemma Enclosed(b: string, p: nat, open: string, x: string, close: string)
    requires OccursAt(b, open + x + close, p)
    requires forall k :: 0 <= k < |x| ==> !Scan.IsLineTerminator(x[k])
    requires forall k :: 0 <= k < |x| ==> !OccursAt(x + close, close, k)
    ensures LazyUntil(b, p + |open|, close, false) == Some(p + |open| + |x|)
  {
    CloseAfter(b, p, open, x, close);
    CleanCapture(b, p, open, x, close);
    LazyUntilIs(b, p + |open|, close, false, p + |open| + |x|);
  }

  /** Between `open` and `close`, `x` holds neither a line terminator nor the start of a `close`. */
  lemma CleanCapture(b: string, p: nat, open: string, x: string, close: string)
    requires OccursAt(b, open + x + close, p)
    requires forall k :: 0 <= k < |x| ==> !Scan.IsLineTerminator(x[k])
    requires forall k :: 0 <= k < |x| ==> !OccursAt(x + close, close, k)
    ensures p + |open| + |x| <= |b|
    ensures PlainRun(b, p + |open|, p + |open| + |x|, close, false)
  {
    var from := p + |open|;
    Parts(b, p, open, x, close);
    forall k | from <= k < from + |x|
      ensures !DelimiterAt(b, close, false, k) && !Scan.IsLineTerminator(b[k])
    {
      assert b[k] == b[from..from + |x|][k - from];
      assert !OccursAt(x + close, close, k - from);
      assert !OccursAt(b, close, p + |open| + (k - from));
    }
  }

  /** The CDATA alternative at `p` where `<title><![CDATA[x]]></title>` occurs. */
  lemma CdataTitleAtIs(b: string, p: nat, x: string)
    requires OccursAt(b, "<title><![CDATA[" + x + "]]></title>", p)
    requires forall k :: 0 <= k < |x| ==> !Scan.IsLineTerminator(x[k])
    requires forall k :: 0 <= k < |x| ==> !OccursAt(x + "]]></title>", "]]></title>", k)
    ensures TitleAt(b, p) == Some(Cdata(x))
  {
    PartsInOrder(b, p, "<title><![CDATA[", x, "]]></title>");
    Enclosed(b, p, "<title><![CDATA[", x, "]]></title>");
    assert CdataTitleAt(b, p) == Some(x);
  }

  /** The plain alternative at `p` where `<title>x</title>` occurs and no CDATA opens. */
  lemma PlainTitleAtIs(b: string, p: nat, x: string)
    requires OccursAt(b, "<title>" + x + "</title>", p)
    requires !OccursAt(b, "<title><![CDATA[", p)
    requires forall k :: 0 <= k < |x| ==> !Scan.IsLineTerminator(x[k])
    requires forall k :: 0 <= k < |x| ==> !OccursAt(x + "</title>", "</title>", k)
    ensures TitleAt(b, p) == Some(Plain(x))
  {
    PartsInOrder(b, p, "<title>", x, "</title>");
    Enclosed(b, p, "<title>", x, "</title>");
    assert PlainTitleAt(b, p) == Some(x);
  }

  /** The title search stops at `p` when no `<title>` starts before it. */
  lemma FirstTitleAt(b: string, p: nat, g: TitleGroups)
    requires p <= |b| && TitleAt(b, p) == Some(g)
    requires forall k :: 0 <= k < p ==> !OccursAt(b, "<title>", k)
    ensures First(0, |b|, (q: nat) => TitleAt(b, q)) == Some(Hit(p, g))
  {
    var at := (q: nat) => TitleAt(b, q);
    forall k | 0 <= k < p ensures at(k).None? {
      NoTitleWithoutTag(b, k);
    }
    FirstIs(0, |b|, at, p);
  }

  /**
   * A CDATA-wrapped title is unwrapped: when the first `<title>` of the
   * block is `<title><![CDATA[x]]></title>`, with `x` on one line and not
   * containing the closing `]]></title>`, the title is `x` itself rather
   * than the `<![CDATA[x]]>` that the plain alternative would capture (and
   * `undefined` when `x` is empty).
   */
  lemma CdataTitleIsUnwrapped(b: string, p: nat, x: string)
    requires OccursAt(b, "<title><![CDATA[" + x + "]]></title>", p)
    requires forall k :: 0 <= k < p ==> !OccursAt(b, "<title>", k)
    requires forall k :: 0 <= k < |x| ==> !Scan.IsLineTerminator(x[k])
    requires forall k :: 0 <= k < |x| ==> !OccursAt(x + "]]></title>", "]]></title>", k)
    ensures TitleText(b) == if x != [] then Some(x) else None
  {
    CdataTitleAtIs(b, p, x);
    FirstTitleAt(b, p, Cdata(x));
  }

  /**
   * A title that is not CDATA-wrapped is taken as written: when the first
   * `<title>` of the block is `<title>x</title>`, with `x` on one line and
   * not containing `</title>`, the title is `x`.
   */
  lemma PlainTitleIsTaken(b: string, p: nat, x: string)
    requires OccursAt(b, "<title>" + x + "</title>", p)
    requires !OccursAt(b, "<title><![CDATA[", p)
    requires forall k :: 0 <= k < p ==> !OccursAt(b, "<title>", k)
    requires forall k :: 0 <= k < |x| ==> !Scan.IsLineTerminator(x[k])
    requires forall k :: 0 <= k < |x| ==> !OccursAt(x + "</title>", "</title>", k)
    ensures TitleText(b) == Some(x)
  {
    PlainTitleAtIs(b, p, x);
    FirstTitleAt(b, p, Plain(x));
  }

  /** `<link>(.*?)</link>` at `p` where `<link>x</link>` occurs. */
  lemma LinkAtIs(b: string, p: nat, x: string)
    requires OccursAt(b, "<link>" + x + "</link>", p)
    requires forall k :: 0 <= k < |x| ==> !Scan.IsLineTerminator(x[k])
    requires forall k :: 0 <= k < |x| ==> !OccursAt(x + "</link>", "</link>", k)
    ensures LinkAt(b, p) == Some(x)
  {
    PartsInOrder(b, p, "<link>", x, "</link>");
    Enclosed(b, p, "<link>", x, "</link>");
  }

  /**
   * The link is the content of the block's first `<link>x</link>`, with `x`
   * on one line and not containing `</link>`.
   */
  lemma LinkIsTaken(b: string, p: nat, x: string)
    requires OccursAt(b, "<link>" + x + "</link>", p)
    requires forall k :: 0 <= k < p ==> !OccursAt(b, "<link>", k)
    requires forall k :: 0 <= k < |x| ==> !Scan.IsLineTerminator(x[k])
    requires forall k :: 0 <= k < |x| ==> !OccursAt(x + "</link>", "</link>", k)
    ensures LinkText(b) == Some(x)
  {
    LinkAtIs(b, p, x);
    var at := (q: nat) => LinkAt(b, q);
    forall k | 0 <= k < p ensures at(k).None? {
    }
    FirstIs(0, |b|, at, p);
  }
}
