/** The English stock-news crawler: it lists finviz.com's news, extracts a
    time and a body excerpt for every item with a strategy chosen by the
    item's link, falls back to finviz's own copy of the article when the
    strategy found no body, and writes one digest. */
module StockNews {
  import opened Text

  // ---------------------------------------------------------------------
  // The finviz listing (`crawl_finviz_news`)

  /** The first anchor of a row's badge container: the URL that its onclick
      handler opens when the `trackAndOpenNews(...)` pattern matches, its
      `href`, and its text. */
  datatype Anchor = Anchor(onclickUrl: Option<string>, href: Option<string>, text: string)

  /** A `news-badges-container`: its anchors and the texts of its
      `stock-news-label` elements. */
  datatype Badges = Badges(anchors: seq<Anchor>, labels: seq<string>)

  /** A `news_link-cell`: its badge container and `news_date-cell` text. */
  datatype LinkCell = LinkCell(badges: Option<Badges>, dateCell: Option<string>)

  /** A table row, with its link cell when it has one. */
  datatype Row = Row(linkCell: Option<LinkCell>)

  /** A `news` block: the rows of its table, or None without a table. */
  datatype NewsTable = NewsTable(rows: Option<seq<Row>>)

  datatype NewsItem = NewsItem(title: string, url: string, finvizUrl: string, labels: seq<string>,
                               press: string, time: string, body: string)

  const FinvizOrigin := "https://finviz.com"

  /** The finviz split of a listing link into (`url`, `finviz_url`): a
      non-empty link that does not start with "http" is finviz-relative, so
      both become the absolute finviz link; otherwise the link is kept and
      there is no finviz copy. */
  function SplitListingUrl(newsUrl: string): (r: (string, string))
    ensures r.1 != "" ==> r.0 == r.1 && StartsWith(r.1, FinvizOrigin) && r.1[|FinvizOrigin|..] == newsUrl
    ensures r.1 == "" ==> r.0 == newsUrl
    ensures r.1 != "" <==> newsUrl != "" && !StartsWith(newsUrl, "http")
    ensures r.0 == "" || StartsWith(r.0, "http")
  {
    if newsUrl != "" && !StartsWith(newsUrl, "http") then
      assert (FinvizOrigin + newsUrl)[..|FinvizOrigin|] == FinvizOrigin;
      (FinvizOrigin + newsUrl, FinvizOrigin + newsUrl)
    else (newsUrl, "")
  }

  /** The link a badge anchor gives: the URL of its onclick handler, else
      its `href`, else "". */
  function RawLink(a: Anchor): (r: string)
    ensures a.onclickUrl.Some? ==> r == a.onclickUrl.value
    ensures a.onclickUrl.None? && a.href.Some? ==> r == a.href.value
    ensures a.onclickUrl.None? && a.href.None? ==> r == ""
  {
    if a.onclickUrl.Some? then a.onclickUrl.value
    else if a.href.Some? then a.href.value else ""
  }

  /** The item a row yields: none when the link cell, the badge container or
      its anchors are missing; otherwise the first anchor's text and link,
      the badge labels and the date cell's text, with no time or body yet. */
  function RowItem(row: Row): (r: Option<NewsItem>)
    ensures r.Some? <==> row.linkCell.Some? && row.linkCell.value.badges.Some?
                         && row.linkCell.value.badges.value.anchors != []
    ensures r.Some? ==> var cell := row.linkCell.value;
                        var badges := cell.badges.value;
                        && r.value.title == badges.anchors[0].text
                        && (r.value.url, r.value.finvizUrl) == SplitListingUrl(RawLink(badges.anchors[0]))
                        && r.value.labels == badges.labels
                        && r.value.press == (if cell.dateCell.Some? then cell.dateCell.value else "")
                        && r.value.time == "" && r.value.body == ""
    ensures r.Some? ==> r.value.finvizUrl == "" || r.value.url == r.value.finvizUrl
  {
    match row.linkCell
    case None => None
    case Some(cell) =>
      match cell.badges
      case None => None
      case Some(badges) =>
        if badges.anchors == [] then None
        else
          var a := badges.anchors[0];
          var (url, finvizUrl) := SplitListingUrl(RawLink(a));
          var press := if cell.dateCell.Some? then cell.dateCell.value else "";
          Some(NewsItem(a.text, url, finvizUrl, badges.labels, press, "", ""))
  }

  /** Number of rows that yield an item. */
  function ItemRows(rows: seq<Row>): nat
  {
    if rows == [] then 0
    else ItemRows(rows[..|rows| - 1]) + (if RowItem(rows[|rows| - 1]).Some? then 1 else 0)
  }

  /** The items of a table's rows, in order. */
  function RowsItems(rows: seq<Row>): (r: seq<NewsItem>)
    ensures |r| == ItemRows(rows) <= |rows|
  {
    if rows == [] then []
    else
      var init := RowsItems(rows[..|rows| - 1]);
      match RowItem(rows[|rows| - 1])
      case None => init
      case Some(item) => init + [item]
  }

  /** Every row with the expected cells yields its item, in order: the row
      at `k` gives its item at the position that counts the item rows
      before it. */
  lemma RowsItemsAt(rows: seq<Row>)
    ensures forall k :: 0 <= k < |rows| && RowItem(rows[k]).Some? ==>
              ItemRows(rows[..k]) < |RowsItems(rows)| && RowsItems(rows)[ItemRows(rows[..k])] == RowItem(rows[k]).value
  {
    forall k | 0 <= k < |rows| && RowItem(rows[k]).Some?
      ensures ItemRows(rows[..k]) < |RowsItems(rows)| && RowsItems(rows)[ItemRows(rows[..k])] == RowItem(rows[k]).value
    {
      RowItemAt(rows, k);
    }
  }

  /** `RowsItemsAt` for one row. */
  lemma {:induction false} RowItemAt(rows: seq<Row>, k: nat)
    requires k < |rows| && RowItem(rows[k]).Some?
    ensures ItemRows(rows[..k]) < |RowsItems(rows)| && RowsItems(rows)[ItemRows(rows[..k])] == RowItem(rows[k]).value
  {
    var n := |rows| - 1;
    var init := rows[..n];
    assert rows[..n] == init;
    var r0 := RowsItems(init);
    if k < n {
      assert RowsItems(rows)[..|r0|] == r0;
      RowItemAt(init, k);
      assert ItemRows(rows[..k]) == ItemRows(init[..k]) && rows[k] == init[k] by {
        assert rows[..k] == init[..k];
      }
    } else {
      assert rows[..k] == init;
    }
  }

  function TableRows(t: NewsTable): seq<Row>
  {
    if t.rows.Some? then t.rows.value else []
  }

  function TablesItems(tables: seq<NewsTable>): seq<NewsItem>
  {
    if tables == [] then []
    else TablesItems(tables[..|tables| - 1]) + RowsItems(TableRows(tables[|tables| - 1]))
  }

  /** The loop over one table's rows; a row without the expected cells is
      skipped. */
  method ReadRows(rows: seq<Row>) returns (items: seq<NewsItem>)
    ensures items == RowsItems(rows)
  {
    items := [];
    var i := 0;
    while i < |rows|
      invariant i <= |rows|
      invariant items == RowsItems(rows[..i])
    {
      assert rows[..i + 1][..i] == rows[..i];
      var cell := rows[i].linkCell;
      if cell.Some? && cell.value.badges.Some? && cell.value.badges.value.anchors != [] {
        var badges := cell.value.badges.value;
        var anchor := badges.anchors[0];
        var newsUrl := if anchor.onclickUrl.Some? then anchor.onclickUrl.value
                       else if anchor.href.Some? then anchor.href.value else "";
        var finvizUrl := "";
        if newsUrl != "" && !StartsWith(newsUrl, "http") {
          finvizUrl := FinvizOrigin + newsUrl;
          newsUrl := finvizUrl;
        }
        var press := if cell.value.dateCell.Some? then cell.value.dateCell.value else "";
        items := items + [NewsItem(anchor.text, newsUrl, finvizUrl, badges.labels, press, "", "")];
      }
      i := i + 1;
    }
    assert rows[..i] == rows;
  }

  /** `crawl_finviz_news`: `listing` is the page's `news` blocks, or None
      when the page failed or has no `news` element. */
  method CrawlFinvizNews(listing: Option<seq<NewsTable>>) returns (news: seq<NewsItem>)
    ensures news == if listing.None? then [] else TablesItems(listing.value)
  {
    news := [];
    if listing.None? {
      return;
    }
    var tables := listing.value;
    var k := 0;
    while k < |tables|
      invariant k <= |tables|
      invariant news == TablesItems(tables[..k])
    {
      assert tables[..k + 1][..k] == tables[..k];
      var found := ReadRows(TableRows(tables[k]));
      news := news + found;
      k := k + 1;
    }
    assert tables[..k] == tables;
  }

  // ---------------------------------------------------------------------
  // Body excerpts

  const BodyCap: nat := 300
  const LongParagraph: nat := 80

  /** A body excerpt as every strategy produces it: at most 300 characters,
      or exactly 300 characters followed by "...". */
  predicate Excerpt(b: string)
  {
    |b| <= BodyCap || (|b| == BodyCap + 3 && b[BodyCap..] == "...")
  }

  lemma TruncateIsExcerpt(s: string)
    ensures Excerpt(Truncate(s, BodyCap))
  {
  }

  /** Index of the first paragraph longer than 80 characters. */
  function FirstLong(ps: seq<string>): (r: Option<nat>)
    ensures r.Some? ==> r.value < |ps| && |ps[r.value]| > LongParagraph
    ensures r.Some? ==> forall j :: 0 <= j < r.value ==> |ps[j]| <= LongParagraph
    ensures r.None? ==> forall j :: 0 <= j < |ps| ==> |ps[j]| <= LongParagraph
  {
    if ps == [] then None
    else if |ps[0]| > LongParagraph then Some(0)
    else match FirstLong(ps[1..])
      case None => None
      case Some(i) => Some(i + 1)
  }

  /** The body of a finviz news page: the first paragraph longer than 80
      characters, else the first three paragraphs joined by spaces, cut to an
      excerpt. */
  function FinvizBody(ps: seq<string>): string
  {
    match FirstLong(ps)
    case Some(i) => Truncate(ps[i], BodyCap)
    case None =>
      if ps == [] then ""
      else
        var combined := Join(Take(ps, 3), " ");
        if combined != "" then Truncate(combined, BodyCap) else ""
  }

  /** The body scan of `_fetch_from_finviz_page`, with its `break`. */
  method ScanFinvizBody(ps: seq<string>) returns (body: string)
    ensures body == FinvizBody(ps)
  {
    body := "";
    var i := 0;
    while i < |ps|
      invariant i <= |ps|
      invariant body == ""
      invariant forall j :: 0 <= j < i ==> |ps[j]| <= LongParagraph
    {
      var text := ps[i];
      if |text| > LongParagraph {
        body := if |text| > BodyCap then text[..BodyCap] + "..." else text;
        break;
      }
      i := i + 1;
    }
    if body == "" {
      if ps != [] {
        var combined := Join(Take(ps, 3), " ");
        if combined != "" {
          body := if |combined| > BodyCap then combined[..BodyCap] + "..." else combined;
        }
      }
    }
  }

  /** The finviz body heuristic: a paragraph longer than 80 characters wins,
      the earliest one; without one, the first (up to) three are joined. */
  lemma FinvizBodyChoice(ps: seq<string>)
    ensures forall i :: (0 <= i < |ps| && |ps[i]| > LongParagraph
              && (forall j :: 0 <= j < i ==> |ps[j]| <= LongParagraph))
              ==> FinvizBody(ps) == Truncate(ps[i], BodyCap)
    ensures ((forall j :: 0 <= j < |ps| ==> |ps[j]| <= LongParagraph) && ps != [])
              ==> FinvizBody(ps) == Truncate(Join(Take(ps, 3), " "), BodyCap)
    ensures Excerpt(FinvizBody(ps))
  {
    forall i | 0 <= i < |ps| && |ps[i]| > LongParagraph && (forall j :: 0 <= j < i ==> |ps[j]| <= LongParagraph)
      ensures FirstLong(ps) == Some(i)
    {
    }
  }

  /** The part of a finviz news page that `_fetch_from_finviz_page` reads:
      the first div of `news-content` (None when either is missing) with the
      long date found in its text and its paragraphs. */
  datatype FinvizWrapper = FinvizWrapper(dateMatch: Option<string>, paragraphs: seq<string>)
  datatype FinvizPage = FinvizPage(wrapper: Option<FinvizWrapper>)

  /** `_fetch_from_finviz_page`: None for `(None, None)` (failed fetch or
      missing elements), else the time (empty without a date) and body. */
  function FinvizPageDetail(page: Option<FinvizPage>): (r: Option<(string, string)>)
    ensures r.None? <==> page.None? || page.value.wrapper.None?
    ensures r.Some? ==> var w := page.value.wrapper.value;
                        && r.value.0 == (if w.dateMatch.Some? then w.dateMatch.value else "")
                        && r.value.1 == FinvizBody(w.paragraphs)
    ensures r.Some? ==> Excerpt(r.value.1)
  {
    if page.None? || page.value.wrapper.None? then None
    else
      var w := page.value.wrapper.value;
      FinvizBodyChoice(w.paragraphs);
      Some((if w.dateMatch.Some? then w.dateMatch.value else "", FinvizBody(w.paragraphs)))
  }

  // ---------------------------------------------------------------------
  // Source strategies (`fetch_article_detail`)

  /** A `p` element of a NewsFileCorp page: its text and its `style`
      attribute ("" when absent). */
  datatype StyledParagraph = StyledParagraph(text: string, style: string)

  /** What the strategies read from a fetched article page. Each field is
      one locator's result; a nested lookup that fails at any level is
      None. */
  datatype DetailDoc = DetailDoc(
    yahooTime: Option<string>,              // byline-attr-meta-time
    yahooParagraphs: Option<seq<string>>,   // p of article > body-wrap > body
    prnTime: Option<string>,                // mb-no
    prnFirstParagraph: Option<string>,      // first p of release-body > row
    bwAligned: Option<string>,              // bwalignc of bw-release-story
    gnwTime: Option<string>,                // article-published-source
    gnwFirstParagraph: Option<string>,      // first p of article-body
    invTime: Option<string>,                // mntl-attribution__item-date
    invBlocks: Option<seq<string>>,         // finance-sc-block-html of article-body-content
    nfcRelease: Option<string>,             // element with id "release"
    nfcParagraphs: seq<StyledParagraph>)    // every p of the page

  datatype Source = FinvizNews | Yahoo | PrNewswire | BusinessWire | GlobeNewswire
                  | Investopedia | NewsFileCorp | Unmatched

  /** The URL substrings that select each strategy, in the order they are
      tried. */
  const Registry: seq<(seq<string>, Source)> := [
    (["finviz.com/news/"], FinvizNews),
    (["finance.yahoo.com"], Yahoo),
    (["www.prnewswire.co.uk", "www.prnewswire.com"], PrNewswire),
    (["www.businesswire.com"], BusinessWire),
    (["www.globenewswire.com"], GlobeNewswire),
    (["www.investopedia.com"], Investopedia),
    (["www.newsfilecorp.com"], NewsFileCorp)
  ]

  predicate MatchesAny(url: string, patterns: seq<string>)
  {
    exists p :: p in patterns && Contains(url, p)
  }

  /** Index of the first registry entry whose substring occurs in `url`. */
  function FirstMatch(url: string, reg: seq<(seq<string>, Source)>): (r: Option<nat>)
    ensures r.Some? ==> r.value < |reg| && MatchesAny(url, reg[r.value].0)
    ensures r.Some? ==> forall j :: 0 <= j < r.value ==> !MatchesAny(url, reg[j].0)
    ensures r.None? ==> forall j :: 0 <= j < |reg| ==> !MatchesAny(url, reg[j].0)
  {
    if reg == [] then None
    else if MatchesAny(url, reg[0].0) then Some(0)
    else match FirstMatch(url, reg[1..])
      case None => None
      case Some(i) => Some(i + 1)
  }

  /** The strategy chosen for `url`: the first registry entry that
      matches, or none. */
  function Dispatch(url: string): Source
  {
    match FirstMatch(url, Registry)
    case None => Unmatched
    case Some(i) => Registry[i].1
  }

  /** First match wins: `url` is handled by entry `k` exactly when one of
      entry `k`'s substrings occurs in it and none of an earlier entry's. */
  lemma DispatchFirstMatch(url: string, k: nat)
    requires k < |Registry|
    ensures Dispatch(url) == Registry[k].1
      <==> MatchesAny(url, Registry[k].0) && forall j :: 0 <= j < k ==> !MatchesAny(url, Registry[j].0)
    ensures Dispatch(url) == Unmatched <==> forall j :: 0 <= j < |Registry| ==> !MatchesAny(url, Registry[j].0)
  {
    var r := FirstMatch(url, Registry);
    if r.Some? && r.value != k {
      assert Registry[r.value].1 != Registry[k].1;
      if r.value > k {
        assert !MatchesAny(url, Registry[k].0);
      }
    }
  }

  /** A link naming both Yahoo and PR Newswire goes to Yahoo, the earlier
      entry. */
  lemma YahooBeforePrNewswire(url: string)
    requires Contains(url, "finance.yahoo.com") && Contains(url, "www.prnewswire.com")
    requires !Contains(url, "finviz.com/news/")
    ensures Dispatch(url) == Yahoo
  {
    assert MatchesAny(url, Registry[1].0);
    assert !MatchesAny(url, Registry[0].0);
    DispatchFirstMatch(url, 1);
  }

  /** Yahoo: the first paragraph, unless it starts with "By" (a by-line) or
      is shorter than 50 characters and a second paragraph exists. */
  function YahooParagraph(ps: seq<string>): (r: string)
    requires ps != []
    ensures (StartsWith(ps[0], "By") || |ps[0]| < 50) && |ps| > 1 ==> r == ps[1]
    ensures !StartsWith(ps[0], "By") && |ps[0]| >= 50 ==> r == ps[0]
    ensures |ps| == 1 ==> r == ps[0]
  {
    if (StartsWith(ps[0], "By") || |ps[0]| < 50) && |ps| > 1 then ps[1] else ps[0]
  }

  /** Number of paragraphs without a style. */
  function UnstyledCount(ps: seq<StyledParagraph>): nat
  {
    if ps == [] then 0
    else UnstyledCount(ps[..|ps| - 1]) + (if ps[|ps| - 1].style == "" then 1 else 0)
  }

  /** The texts of the paragraphs without a (non-empty) `style`, in order. */
  function Unstyled(ps: seq<StyledParagraph>): (r: seq<string>)
    ensures |r| == UnstyledCount(ps)
  {
    if ps == [] then []
    else Unstyled(ps[..|ps| - 1]) + (if ps[|ps| - 1].style == "" then [ps[|ps| - 1].text] else [])
  }

  /** The style filter keeps exactly the unstyled paragraphs, in order: the
      paragraph at `k` without a style gives the text at the position that
      counts the unstyled paragraphs before it; styled ones give nothing. */
  lemma {:induction false} UnstyledTexts(ps: seq<StyledParagraph>)
    ensures forall k :: 0 <= k < |ps| && ps[k].style == "" ==>
              UnstyledCount(ps[..k]) < |Unstyled(ps)| && Unstyled(ps)[UnstyledCount(ps[..k])] == ps[k].text
  {
    if ps != [] {
      var n := |ps| - 1;
      var init := ps[..n];
      UnstyledTexts(init);
      assert ps[..n] == init;
      forall k | 0 <= k < |ps| && ps[k].style == ""
        ensures UnstyledCount(ps[..k]) < |Unstyled(ps)| && Unstyled(ps)[UnstyledCount(ps[..k])] == ps[k].text
      {
        if k < n {
          assert ps[..k] == init[..k] && ps[k] == init[k];
        }
      }
    }
  }

  /** The (time, body) a strategy extracts from a fetched page. */
  function Strategy(src: Source, doc: DetailDoc): (r: (string, string))
    requires src != FinvizNews
    ensures Excerpt(r.1)
    ensures src == Yahoo ==> r.0 == TextOrEmpty(doc.yahooTime)
    ensures src == Yahoo ==> r.1 == if doc.yahooParagraphs.Some? && doc.yahooParagraphs.value != []
                                    then Truncate(YahooParagraph(doc.yahooParagraphs.value), BodyCap) else ""
    ensures src == NewsFileCorp ==> r.0 == if doc.nfcRelease.Some? then Prefix(doc.nfcRelease.value, 100) else ""
    ensures src == NewsFileCorp ==> |r.0| <= 100
    ensures src == NewsFileCorp ==> r.1 == if doc.nfcParagraphs != []
                                           then Truncate(Join(Unstyled(doc.nfcParagraphs), " "), BodyCap) else ""
    ensures src == Unmatched ==> r == ("", "")
  {
    match src
    case Yahoo =>
      var body := if doc.yahooParagraphs.Some? && doc.yahooParagraphs.value != []
                  then Truncate(YahooParagraph(doc.yahooParagraphs.value), BodyCap) else "";
      (TextOrEmpty(doc.yahooTime), body)
    case PrNewswire =>
      (TextOrEmpty(doc.prnTime),
       if doc.prnFirstParagraph.Some? then Truncate(doc.prnFirstParagraph.value, BodyCap) else "")
    case BusinessWire =>
      ("", if doc.bwAligned.Some? then Truncate(doc.bwAligned.value, BodyCap) else "")
    case GlobeNewswire =>
      (TextOrEmpty(doc.gnwTime),
       if doc.gnwFirstParagraph.Some? then Truncate(doc.gnwFirstParagraph.value, BodyCap) else "")
    case Investopedia =>
      (TextOrEmpty(doc.invTime),
       if doc.invBlocks.Some? && doc.invBlocks.value != []
       then Truncate(Join(doc.invBlocks.value, " "), BodyCap) else "")
    case NewsFileCorp =>
      (if doc.nfcRelease.Some? then Prefix(doc.nfcRelease.value, 100) else "",
       if doc.nfcParagraphs != [] then Truncate(Join(Unstyled(doc.nfcParagraphs), " "), BodyCap) else "")
    case Unmatched => ("", "")
  }

  /** The primary extraction: the finviz page itself for a finviz link,
      else the chosen strategy on the fetched page; a failed fetch (page
      missing from the map) leaves both fields empty. */
  function Primary(url: string, docs: map<string, DetailDoc>, finvizPages: map<string, FinvizPage>): (r: (string, string))
    ensures Excerpt(r.1)
  {
    var src := Dispatch(url);
    if src == FinvizNews then
      match FinvizPageDetail(Lookup(finvizPages, url))
      case None => ("", "")
      case Some(tb) => tb
    else if src == Unmatched then ("", "")
    else match Lookup(docs, url)
      case None => ("", "")
      case Some(doc) => Strategy(src, doc)
  }

  /** The fallback merge: the finviz time only when no time was found, the
      finviz body only when it is non-empty. */
  function Merge(primary: (string, string), fallback: Option<(string, string)>): (string, string)
  {
    match fallback
    case None => primary
    case Some((t, b)) => (if t != "" && primary.0 == "" then t else primary.0, if b != "" then b else primary.1)
  }

  /** `fetch_article_detail`: a finviz link returns its own page's result;
      otherwise an empty body is completed from the item's finviz copy when
      it has one. */
  function Detail(item: NewsItem, docs: map<string, DetailDoc>, finvizPages: map<string, FinvizPage>): (string, string)
  {
    var p := Primary(item.url, docs, finvizPages);
    if Dispatch(item.url) == FinvizNews then p
    else if p.1 == "" && item.finvizUrl != "" then Merge(p, FinvizPageDetail(Lookup(finvizPages, item.finvizUrl)))
    else p
  }

  /** Whichever way it was found, a body is an excerpt. */
  lemma DetailBodyIsExcerpt(item: NewsItem, docs: map<string, DetailDoc>, finvizPages: map<string, FinvizPage>)
    ensures Excerpt(Detail(item, docs, finvizPages).1)
  {
  }

  /** The fallback never overwrites what the primary extraction found: it
      runs only without a body and with a finviz copy, keeps a primary time,
      and replaces the body only with a non-empty one from the copy. When it
      runs and the copy was read, it adopts the copy's body when non-empty
      and its time when none was found. */
  lemma FallbackNonDestructive(item: NewsItem, docs: map<string, DetailDoc>, finvizPages: map<string, FinvizPage>)
    ensures var p := Primary(item.url, docs, finvizPages);
            var d := Detail(item, docs, finvizPages);
            && (p.1 != "" || item.finvizUrl == "" || Dispatch(item.url) == FinvizNews ==> d == p)
            && (p.0 != "" ==> d.0 == p.0)
            && (d.1 != p.1 ==> var f := FinvizPageDetail(Lookup(finvizPages, item.finvizUrl));
                                 d.1 != "" && f.Some? && d.1 == f.value.1)
    ensures var p := Primary(item.url, docs, finvizPages);
            var f := FinvizPageDetail(Lookup(finvizPages, item.finvizUrl));
            var d := Detail(item, docs, finvizPages);
            Dispatch(item.url) != FinvizNews && p.1 == "" && item.finvizUrl != "" && f.Some? ==>
              && d.1 == (if f.value.1 != "" then f.value.1 else p.1)
              && d.0 == (if p.0 == "" && f.value.0 != "" then f.value.0 else p.0)
  {
  }

  /** A link no strategy knows and no finviz copy: no time and no body. */
  lemma UnmatchedIsEmpty(item: NewsItem, docs: map<string, DetailDoc>, finvizPages: map<string, FinvizPage>)
    requires Dispatch(item.url) == Unmatched && item.finvizUrl == ""
    ensures Detail(item, docs, finvizPages) == ("", "")
  {
  }

  /** `fetch_article_detail` as written: the chain of substring tests, each
      branch setting the time and then the body, then the fallback. */
  method FetchArticleDetail(item: NewsItem, docs: map<string, DetailDoc>, finvizPages: map<string, FinvizPage>)
    returns (articleTime: string, articleBody: string)
    ensures (articleTime, articleBody) == Detail(item, docs, finvizPages)
  {
    var url := item.url;
    articleTime := "";
    articleBody := "";
    DispatchChain(url);
    if Contains(url, "finviz.com/news/") {
      var r := FinvizPageDetail(Lookup(finvizPages, url));
      if r.Some? {
        if r.value.0 != "" {
          articleTime := r.value.0;
        }
        if r.value.1 != "" {
          articleBody := r.value.1;
        }
      }
      return;
    }
    if url in docs {
      var doc := docs[url];
      if Contains(url, "finance.yahoo.com") {
        articleTime, articleBody := YahooDetail(doc);
      } else if Contains(url, "www.prnewswire.co.uk") || Contains(url, "www.prnewswire.com") {
        articleTime, articleBody := ReleaseDetail(doc.prnTime, doc.prnFirstParagraph);
      } else if Contains(url, "www.businesswire.com") {
        articleTime, articleBody := ReleaseDetail(None, doc.bwAligned);
      } else if Contains(url, "www.globenewswire.com") {
        articleTime, articleBody := ReleaseDetail(doc.gnwTime, doc.gnwFirstParagraph);
      } else if Contains(url, "www.investopedia.com") {
        articleTime, articleBody := InvestopediaDetail(doc);
      } else if Contains(url, "www.newsfilecorp.com") {
        articleTime, articleBody := NewsFileCorpDetail(doc);
      }
    }
    assert (articleTime, articleBody) == Primary(url, docs, finvizPages);
    if articleBody == "" {
      var finvizUrl := item.finvizUrl;
      if finvizUrl != "" {
        var r := FinvizPageDetail(Lookup(finvizPages, finvizUrl));
        if r.Some? {
          if r.value.0 != "" && articleTime == "" {
            articleTime := r.value.0;
          }
          if r.value.1 != "" {
            articleBody := r.value.1;
          }
        }
      }
    }
  }

  /** The Yahoo branch: time, then the body from the article's paragraphs. */
  method YahooDetail(doc: DetailDoc) returns (articleTime: string, articleBody: string)
    ensures (articleTime, articleBody) == Strategy(Yahoo, doc)
  {
    articleTime := "";
    articleBody := "";
    if doc.yahooTime.Some? {
      articleTime := doc.yahooTime.value;
    }
    if doc.yahooParagraphs.Some? {
      var paragraphs := doc.yahooParagraphs.value;
      if paragraphs != [] {
        var firstP := paragraphs[0];
        if StartsWith(firstP, "By") || |firstP| < 50 {
          firstP := if |paragraphs| > 1 then paragraphs[1] else firstP;
        }
        articleBody := if |firstP| > BodyCap then firstP[..BodyCap] + "..." else firstP;
      }
    }
  }

  /** The PR Newswire, BusinessWire and GlobeNewswire branches: an optional
      time element and one body element, cut to an excerpt. */
  method ReleaseDetail(timeEl: Option<string>, bodyEl: Option<string>) returns (articleTime: string, articleBody: string)
    ensures articleTime == TextOrEmpty(timeEl)
    ensures articleBody == if bodyEl.Some? then Truncate(bodyEl.value, BodyCap) else ""
  {
    articleTime := "";
    articleBody := "";
    if timeEl.Some? {
      articleTime := timeEl.value;
    }
    if bodyEl.Some? {
      var text := bodyEl.value;
      articleBody := if |text| > BodyCap then text[..BodyCap] + "..." else text;
    }
  }

  /** The Investopedia branch: all content blocks joined by spaces. */
  method InvestopediaDetail(doc: DetailDoc) returns (articleTime: string, articleBody: string)
    ensures (articleTime, articleBody) == Strategy(Investopedia, doc)
  {
    articleTime := "";
    articleBody := "";
    if doc.invTime.Some? {
      articleTime := doc.invTime.value;
    }
    if doc.invBlocks.Some? && doc.invBlocks.value != [] {
      var text := Join(doc.invBlocks.value, " ");
      articleBody := if |text| > BodyCap then text[..BodyCap] + "..." else text;
    }
  }

  /** The NewsFileCorp branch: the release element's text cut to 100
      characters without an ellipsis, and the unstyled paragraphs joined. */
  method NewsFileCorpDetail(doc: DetailDoc) returns (articleTime: string, articleBody: string)
    ensures (articleTime, articleBody) == Strategy(NewsFileCorp, doc)
  {
    articleTime := "";
    articleBody := "";
    if doc.nfcRelease.Some? {
      articleTime := Prefix(doc.nfcRelease.value, 100);
    }
    if doc.nfcParagraphs != [] {
      var text := Join(Unstyled(doc.nfcParagraphs), " ");
      articleBody := if |text| > BodyCap then text[..BodyCap] + "..." else text;
    }
  }

  lemma MatchesOne(url: string, p: string)
    ensures MatchesAny(url, [p]) <==> Contains(url, p)
  {
    if Contains(url, p) {
      assert p in [p];
    }
  }

  lemma MatchesTwo(url: string, p: string, q: string)
    ensures MatchesAny(url, [p, q]) <==> Contains(url, p) || Contains(url, q)
  {
    if Contains(url, p) {
      assert p in [p, q];
    }
    if Contains(url, q) {
      assert q in [p, q];
    }
  }

  /** Each registry entry's test as the source writes it. */
  lemma RegistryTests(url: string)
    ensures MatchesAny(url, Registry[0].0) <==> Contains(url, "finviz.com/news/")
    ensures MatchesAny(url, Registry[1].0) <==> Contains(url, "finance.yahoo.com")
    ensures MatchesAny(url, Registry[2].0) <==> Contains(url, "www.prnewswire.co.uk") || Contains(url, "www.prnewswire.com")
    ensures MatchesAny(url, Registry[3].0) <==> Contains(url, "www.businesswire.com")
    ensures MatchesAny(url, Registry[4].0) <==> Contains(url, "www.globenewswire.com")
    ensures MatchesAny(url, Registry[5].0) <==> Contains(url, "www.investopedia.com")
    ensures MatchesAny(url, Registry[6].0) <==> Contains(url, "www.newsfilecorp.com")
  {
    MatchesOne(url, "finviz.com/news/");
    MatchesOne(url, "finance.yahoo.com");
    MatchesTwo(url, "www.prnewswire.co.uk", "www.prnewswire.com");
    MatchesOne(url, "www.businesswire.com");
    MatchesOne(url, "www.globenewswire.com");
    MatchesOne(url, "www.investopedia.com");
    MatchesOne(url, "www.newsfilecorp.com");
  }

  /** Entry `k` is chosen when it matches and no earlier entry does. */
  lemma DispatchAt(url: string, k: nat)
    requires k < |Registry| && MatchesAny(url, Registry[k].0)
    requires forall j :: 0 <= j < k ==> !MatchesAny(url, Registry[j].0)
    ensures Dispatch(url) == Registry[k].1
  {
    DispatchFirstMatch(url, k);
  }

  /** The registry read as the source's chain of `in` tests. */
  lemma DispatchChain(url: string)
    ensures Dispatch(url) ==
      if Contains(url, "finviz.com/news/") then FinvizNews
      else if Contains(url, "finance.yahoo.com") then Yahoo
      else if Contains(url, "www.prnewswire.co.uk") || Contains(url, "www.prnewswire.com") then PrNewswire
      else if Contains(url, "www.businesswire.com") then BusinessWire
      else if Contains(url, "www.globenewswire.com") then GlobeNewswire
      else if Contains(url, "www.investopedia.com") then Investopedia
      else if Contains(url, "www.newsfilecorp.com") then NewsFileCorp
      else Unmatched
  {
    RegistryTests(url);
    var k := if Contains(url, "finviz.com/news/") then 0
             else if Contains(url, "finance.yahoo.com") then 1
             else if Contains(url, "www.prnewswire.co.uk") || Contains(url, "www.prnewswire.com") then 2
             else if Contains(url, "www.businesswire.com") then 3
             else if Contains(url, "www.globenewswire.com") then 4
             else if Contains(url, "www.investopedia.com") then 5
             else if Contains(url, "www.newsfilecorp.com") then 6
             else 7;
    forall j | 0 <= j < k ensures !MatchesAny(url, Registry[j].0) {
      if j == 0 {
      } else if j == 1 {
      } else if j == 2 {
      } else if j == 3 {
      } else if j == 4 {
      } else if j == 5 {
      } else {
        assert j == 6;
      }
    }
    if k < 7 {
      DispatchAt(url, k);
    } else {
      DispatchFirstMatch(url, 0);
    }
  }

  // ---------------------------------------------------------------------
  // The run (`main`)

  /** Every item with the time and body found for it. */
  function Enriched(news: seq<NewsItem>, docs: map<string, DetailDoc>, finvizPages: map<string, FinvizPage>): (r: seq<NewsItem>)
    ensures |r| == |news|
  {
    seq(|news|, i requires 0 <= i < |news| =>
      news[i].(time := Detail(news[i], docs, finvizPages).0, body := Detail(news[i], docs, finvizPages).1))
  }

  /** The detail loop of `main`: each item's time and body are filled in
      place, nothing else changes. */
  method EnrichInPlace(items: array<NewsItem>, docs: map<string, DetailDoc>, finvizPages: map<string, FinvizPage>)
    modifies items
    ensures items[..] == Enriched(old(items[..]), docs, finvizPages)
  {
    var i := 0;
    while i < items.Length
      invariant i <= items.Length
      invariant forall j :: 0 <= j < i ==> items[j] == Enriched(old(items[..]), docs, finvizPages)[j]
      invariant forall j :: i <= j < items.Length ==> items[j] == old(items[j])
    {
      var t, b := FetchArticleDetail(items[i], docs, finvizPages);
      items[i] := items[i].(time := t, body := b);
      i := i + 1;
    }
  }

  function Headline(today: string): string
  {
    "=== " + today + " Latest 30 Stock News ==="
  }

  function ItemChunks(d: NewsItem): seq<string>
  {
    ["Title: " + d.title + "\n", "Press: " + d.press + "\n", "Labels: " + Join(d.labels, ", ") + "\n",
     "Date: " + d.time + "\n", "Content: " + d.body + "\n", "Link: " + d.url + "\n\n", Rule + "\n\n"]
  }

  function ItemsChunks(items: seq<NewsItem>): seq<string>
  {
    if items == [] then [] else ItemsChunks(items[..|items| - 1]) + ItemChunks(items[|items| - 1])
  }

  /** The item loop of the writer. */
  method WriteItems(items: seq<NewsItem>) returns (doc: seq<string>)
    ensures doc == ItemsChunks(items)
  {
    doc := [];
    var i := 0;
    while i < |items|
      invariant i <= |items|
      invariant doc == ItemsChunks(items[..i])
    {
      assert items[..i + 1][..i] == items[..i];
      doc := doc + ItemChunks(items[i]);
      i := i + 1;
    }
    assert items[..i] == items;
  }

  const NoNews := "수집된 뉴스가 없습니다."

  /** The digest: an explicit "no news collected" document when the listing
      is empty, else the title line and seven lines per item. */
  function StockDigest(today: string, news: seq<NewsItem>, docs: map<string, DetailDoc>,
                       finvizPages: map<string, FinvizPage>): seq<string>
  {
    if news == [] then [Headline(today) + "\n\n" + NoNews + "\n"]
    else [Headline(today) + "\n\n\n"] + ItemsChunks(Enriched(news, docs, finvizPages))
  }

  /** `main`: list, enrich every item in place, write the digest; the result
      is the number of items, 0 for an empty listing. */
  method RunStockNews(today: string, listing: Option<seq<NewsTable>>, docs: map<string, DetailDoc>,
                      finvizPages: map<string, FinvizPage>) returns (count: nat, doc: seq<string>)
    ensures var news := if listing.None? then [] else TablesItems(listing.value);
            count == |news| && doc == StockDigest(today, news, docs, finvizPages)
  {
    var news := CrawlFinvizNews(listing);
    if |news| == 0 {
      doc := [Headline(today) + "\n\n" + NoNews + "\n"];
      count := 0;
      return;
    }
    var items := new NewsItem[|news|](i requires 0 <= i < |news| => news[i]);
    assert items[..] == news;
    EnrichInPlace(items, docs, finvizPages);
    var body := WriteItems(items[..]);
    doc := [Headline(today) + "\n\n\n"] + body;
    count := |news|;
  }
}
