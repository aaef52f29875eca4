/** The editorial crawler: it lists today's editorials of five newspapers on
    Naver, removes repeated links keeping the first, reads each editorial's
    title, dates and body, and writes one digest. */
module Opinions {
  import opened Text
  import opened Naver

  // ---------------------------------------------------------------------
  // The editorial lists (`fetch_editorial_list`)

  /** The newspapers read, in order: name and Naver office id. */
  const TargetPress: seq<(string, string)> := [
    ("한국경제", "015"),
    ("서울경제", "011"),
    ("파이낸셜뉴스", "014"),
    ("디지털타임스", "029"),
    ("코리아중앙데일리", "640")
  ]

  /** The editorial list page of one newspaper for one day (`date` written
      as YYYYMMDD). */
  function ListUrl(officeId: string, date: string): string
  {
    "https://news.naver.com/opinion/editorial?officeId=" + officeId + "&date=" + date
  }

  /** One `opinion_editorial_item`: the `href` of its first link that has
      one, or None when it has no such link. */
  datatype EditorialItem = EditorialItem(href: Option<string>)

  /** A list page: the items of its `opinion_editorial_list`, or None when
      the page has none. */
  datatype ListPage = ListPage(items: Option<seq<EditorialItem>>)

  /** A collected editorial: its (absolute) link and newspaper. */
  datatype Listed = Listed(url: string, press: string)

  /** The editorials of one list: every item with a link, in order, its link
      made absolute. */
  function ItemsListed(press: string, items: seq<EditorialItem>): (r: seq<Listed>)
    ensures |r| <= |items|
    ensures forall k :: 0 <= k < |r| ==> r[k].press == press && (r[k].url == "" || StartsWith(r[k].url, "http"))
  {
    if items == [] then []
    else
      var init := ItemsListed(press, items[..|items| - 1]);
      match items[|items| - 1].href
      case None => init
      case Some(h) => init + [Listed(AbsoluteHref(h), press)]
  }

  /** Items with a link are exactly the ones counted. */
  function Linked(items: seq<EditorialItem>): nat
  {
    if items == [] then 0 else Linked(items[..|items| - 1]) + (if items[|items| - 1].href.Some? then 1 else 0)
  }

  lemma {:induction false} ListedCount(press: string, items: seq<EditorialItem>)
    ensures |ItemsListed(press, items)| == Linked(items)
  {
    if items != [] {
      ListedCount(press, items[..|items| - 1]);
    }
  }

  /** Every item with a link is listed, in order, with its link made
      absolute: the item at `k` gives its editorial at the position that
      counts the linked items before it. */
  lemma ListedItems(press: string, items: seq<EditorialItem>)
    ensures forall k :: 0 <= k < |items| && items[k].href.Some? ==>
              Linked(items[..k]) < |ItemsListed(press, items)|
              && ItemsListed(press, items)[Linked(items[..k])] == Listed(AbsoluteHref(items[k].href.value), press)
  {
    forall k | 0 <= k < |items| && items[k].href.Some?
      ensures Linked(items[..k]) < |ItemsListed(press, items)|
              && ItemsListed(press, items)[Linked(items[..k])] == Listed(AbsoluteHref(items[k].href.value), press)
    {
      ListedItem(press, items, k);
    }
  }

  /** `ListedItems` for one item. */
  lemma {:induction false} ListedItem(press: string, items: seq<EditorialItem>, k: nat)
    requires k < |items| && items[k].href.Some?
    ensures Linked(items[..k]) < |ItemsListed(press, items)|
            && ItemsListed(press, items)[Linked(items[..k])] == Listed(AbsoluteHref(items[k].href.value), press)
  {
    var n := |items| - 1;
    var init := items[..n];
    assert items[..n] == init;
    var r0 := ItemsListed(press, init);
    ListedCount(press, init);
    if k < n {
      assert ItemsListed(press, items)[..|r0|] == r0;
      ListedItem(press, init, k);
      assert Linked(items[..k]) == Linked(init[..k]) && items[k] == init[k] by {
        assert items[..k] == init[..k];
      }
    } else {
      assert items[..k] == init;
    }
  }

  /** The editorials of one newspaper; a failed fetch (page missing from the
      map) or a page without a list gives none. */
  function PressListed(press: (string, string), date: string, pages: map<string, ListPage>): seq<Listed>
  {
    match Lookup(pages, ListUrl(press.1, date))
    case None => []
    case Some(p) => if p.items.None? then [] else ItemsListed(press.0, p.items.value)
  }

  function AllListed(presses: seq<(string, string)>, date: string, pages: map<string, ListPage>): seq<Listed>
  {
    if presses == [] then []
    else AllListed(presses[..|presses| - 1], date, pages) + PressListed(presses[|presses| - 1], date, pages)
  }

  /** The item loop of one newspaper, with its `count`. */
  method ReadEditorialItems(press: string, items: seq<EditorialItem>) returns (found: seq<Listed>, count: nat)
    ensures found == ItemsListed(press, items)
    ensures count == |found|
  {
    found := [];
    count := 0;
    var i := 0;
    while i < |items|
      invariant i <= |items|
      invariant found == ItemsListed(press, items[..i])
      invariant count == |found|
    {
      assert items[..i + 1][..i] == items[..i];
      var link := items[i].href;
      if link.Some? {
        var href := link.value;
        if href != "" && !StartsWith(href, "http") {
          href := Origin + href;
        }
        found := found + [Listed(href, press)];
        count := count + 1;
      }
      i := i + 1;
    }
    assert items[..i] == items;
  }

  /** `fetch_editorial_list`. */
  method FetchEditorialList(date: string, pages: map<string, ListPage>) returns (editorials: seq<Listed>)
    ensures editorials == AllListed(TargetPress, date, pages)
  {
    editorials := [];
    var k := 0;
    while k < |TargetPress|
      invariant k <= |TargetPress|
      invariant editorials == AllListed(TargetPress[..k], date, pages)
    {
      assert TargetPress[..k + 1][..k] == TargetPress[..k];
      var press := TargetPress[k];
      var page := Lookup(pages, ListUrl(press.1, date));
      if page.Some? && page.value.items.Some? {
        var found, count := ReadEditorialItems(press.0, page.value.items.value);
        editorials := editorials + found;
      }
      k := k + 1;
    }
    assert TargetPress[..k] == TargetPress;
  }

  // ---------------------------------------------------------------------
  // First-wins de-duplication (`main`, lines with `seen_urls`)

  function UrlsOf(xs: seq<Listed>): set<string>
  {
    set e | e in xs :: e.url
  }

  /** No link occurs twice. */
  predicate NoRepeat(xs: seq<Listed>)
  {
    forall i, j :: 0 <= i < j < |xs| ==> xs[i].url != xs[j].url
  }

  /** The entries of `xs` whose link is not in `seen` and not earlier in
      `xs`, in order. */
  function DedupFrom(xs: seq<Listed>, seen: set<string>): seq<Listed>
  {
    if xs == [] then []
    else if xs[0].url in seen then DedupFrom(xs[1..], seen)
    else [xs[0]] + DedupFrom(xs[1..], seen + {xs[0].url})
  }

  function Dedup(xs: seq<Listed>): seq<Listed>
  {
    DedupFrom(xs, {})
  }

  /** The de-duplication loop: `seen_urls` and `unique_urls`. */
  method DedupEditorials(editorials: seq<Listed>) returns (unique: seq<Listed>)
    ensures unique == Dedup(editorials)
  {
    var seen: set<string> := {};
    unique := [];
    var i := 0;
    while i < |editorials|
      invariant i <= |editorials|
      invariant unique + DedupFrom(editorials[i..], seen) == Dedup(editorials)
    {
      assert editorials[i..][1..] == editorials[i + 1..];
      var e := editorials[i];
      if e.url !in seen {
        unique := unique + [e];
        seen := seen + {e.url};
      }
      i := i + 1;
    }
  }

  /** Exactly the links of the input not already seen survive, none twice,
      none of `seen`. */
  lemma {:induction false} DedupFromSound(xs: seq<Listed>, seen: set<string>)
    ensures UrlsOf(DedupFrom(xs, seen)) == UrlsOf(xs) - seen
    ensures NoRepeat(DedupFrom(xs, seen))
  {
    if xs != [] {
      var x := xs[0];
      assert UrlsOf(xs) == {x.url} + UrlsOf(xs[1..]) by {
        assert xs == [x] + xs[1..];
      }
      if x.url in seen {
        DedupFromSound(xs[1..], seen);
      } else {
        var rest := DedupFrom(xs[1..], seen + {x.url});
        DedupFromSound(xs[1..], seen + {x.url});
        assert UrlsOf([x] + rest) == {x.url} + UrlsOf(rest) by {
          assert forall e :: e in [x] + rest <==> e == x || e in rest;
        }
        forall i, j | 0 <= i < j < |[x] + rest| ensures ([x] + rest)[i].url != ([x] + rest)[j].url {
          if i == 0 {
            assert rest[j - 1] in rest;
          }
        }
      }
    }
  }

  /** Order is kept: the result is the input with entries left out. */
  lemma {:induction false} DedupFromSubseq(xs: seq<Listed>, seen: set<string>)
    ensures IsSubseq(DedupFrom(xs, seen), xs)
  {
    if xs != [] {
      if xs[0].url in seen {
        DedupFromSubseq(xs[1..], seen);
        SubseqOfTail(DedupFrom(xs[1..], seen), xs);
      } else {
        DedupFromSubseq(xs[1..], seen + {xs[0].url});
        assert ([xs[0]] + DedupFrom(xs[1..], seen + {xs[0].url}))[1..] == DedupFrom(xs[1..], seen + {xs[0].url});
      }
    }
  }

  lemma SubseqOfTail<T>(a: seq<T>, b: seq<T>)
    requires b != [] && IsSubseq(a, b[1..])
    ensures IsSubseq(a, b)
  {
  }

  /** First wins: the first entry of every link not in `seen` is kept, with
      its newspaper. */
  lemma {:induction false} DedupFromFirstWins(xs: seq<Listed>, seen: set<string>, i: nat)
    requires i < |xs| && xs[i].url !in seen
    requires forall j :: 0 <= j < i ==> xs[j].url != xs[i].url
    ensures xs[i] in DedupFrom(xs, seen)
  {
    if i == 0 {
    } else if xs[0].url in seen {
      DedupFromFirstWins(xs[1..], seen, i - 1);
    } else {
      DedupFromFirstWins(xs[1..], seen + {xs[0].url}, i - 1);
    }
  }

  /** A list without repeated links, none of them seen, is left unchanged. */
  lemma {:induction false} DedupFromDistinct(xs: seq<Listed>, seen: set<string>)
    requires NoRepeat(xs)
    requires forall e :: e in xs ==> e.url !in seen
    ensures DedupFrom(xs, seen) == xs
  {
    if xs != [] {
      forall e | e in xs[1..] ensures e.url !in seen + {xs[0].url} {
        var k :| 0 <= k < |xs[1..]| && xs[1..][k] == e;
        assert xs[k + 1] == e;
      }
      DedupFromDistinct(xs[1..], seen + {xs[0].url});
    }
  }

  /** The properties of `Dedup`: same links as the input, no link twice,
      input order, first entry of each link kept. */
  lemma DedupSound(xs: seq<Listed>)
    ensures UrlsOf(Dedup(xs)) == UrlsOf(xs)
    ensures NoRepeat(Dedup(xs))
    ensures IsSubseq(Dedup(xs), xs)
    ensures forall i :: 0 <= i < |xs| && (forall j :: 0 <= j < i ==> xs[j].url != xs[i].url) ==> xs[i] in Dedup(xs)
  {
    DedupFromSound(xs, {});
    DedupFromSubseq(xs, {});
    forall i | 0 <= i < |xs| && (forall j :: 0 <= j < i ==> xs[j].url != xs[i].url)
      ensures xs[i] in Dedup(xs)
    {
      DedupFromFirstWins(xs, {}, i);
    }
  }

  /** De-duplicating twice is de-duplicating once. */
  lemma DedupIdempotent(xs: seq<Listed>)
    ensures Dedup(Dedup(xs)) == Dedup(xs)
  {
    DedupFromSound(xs, {});
    DedupFromDistinct(Dedup(xs), {});
  }

  /** Without repeats, the length is the number of distinct links. */
  lemma {:induction false} DistinctCount(xs: seq<Listed>)
    requires NoRepeat(xs)
    ensures |UrlsOf(xs)| == |xs|
  {
    if xs != [] {
      var rest := xs[1..];
      assert NoRepeat(rest) by {
        forall i, j | 0 <= i < j < |rest| ensures rest[i].url != rest[j].url {
          assert rest[i] == xs[i + 1] && rest[j] == xs[j + 1];
        }
      }
      DistinctCount(rest);
      assert xs == [xs[0]] + rest;
      assert UrlsOf(xs) == {xs[0].url} + UrlsOf(rest);
    }
  }

  /** The number of editorials written is the number of distinct links
      collected. */
  lemma DedupCount(xs: seq<Listed>)
    ensures |Dedup(xs)| == |UrlsOf(xs)|
  {
    DedupFromSound(xs, {});
    DistinctCount(Dedup(xs));
  }

  // ---------------------------------------------------------------------
  // One editorial (`fetch_editorial_content`)

  /** An editorial page: its `media_end_head_headline` text, its date
      stamps, and the texts of the three body locators — class
      `_article_body`, id `newsct_article`, class `newsct_article`. */
  datatype EditorialPage = EditorialPage(headline: Option<string>, dates: ArticlePage,
                                         bodyByClass: Option<string>, bodyById: Option<string>,
                                         bodyByNewsctClass: Option<string>)

  datatype Editorial = Editorial(title: string, published: Option<string>, modified: Option<string>, body: string)

  /** The body: the first locator that finds an element, else "". */
  function BodyOf(p: EditorialPage): (r: string)
    ensures p.bodyByClass.Some? ==> r == p.bodyByClass.value
    ensures p.bodyByClass.None? && p.bodyById.Some? ==> r == p.bodyById.value
    ensures p.bodyByClass.None? && p.bodyById.None? && p.bodyByNewsctClass.Some? ==> r == p.bodyByNewsctClass.value
    ensures p.bodyByClass.None? && p.bodyById.None? && p.bodyByNewsctClass.None? ==> r == ""
  {
    var el := if p.bodyByClass.Some? then p.bodyByClass
              else if p.bodyById.Some? then p.bodyById
              else p.bodyByNewsctClass;
    if el.Some? then el.value else ""
  }

  /** `fetch_editorial_content`: None exactly when the fetch failed. */
  function EditorialContent(page: Option<EditorialPage>): (r: Option<Editorial>)
    ensures r.None? <==> page.None?
    ensures r.Some? ==> r.value.title == (if page.value.headline.Some? then page.value.headline.value else "")
    ensures r.Some? ==> (r.value.published, r.value.modified) == ArticleDates(Some(page.value.dates))
    ensures r.Some? ==> r.value.body == BodyOf(page.value)
  {
    match page
    case None => None
    case Some(p) =>
      var title := if p.headline.Some? then p.headline.value else "";
      var (published, modified) := ArticleDates(Some(p.dates));
      Some(Editorial(title, published, modified, BodyOf(p)))
  }

  // ---------------------------------------------------------------------
  // The run (`main`)

  function NoEditorials(today: string): string
  {
    "=== " + today + " 사설 모음 ===\n\n수집된 사설이 없습니다.\n"
  }

  function Header(today: string): string
  {
    "=== " + today + " 사설 모음 ===\n\n\n"
  }

  /** The chunks for one editorial: one failure line when its page could not
      be read, else its block. */
  function EditorialChunks(e: Listed, content: Option<Editorial>): seq<string>
  {
    match content
    case None => ["사설 수집 실패: " + e.url + "\n\n"]
    case Some(c) =>
      ["언론사: " + e.press + "\n", "사설 제목: " + c.title + "\n"]
      + (if Truthy(c.published) then ["작성일: " + c.published.value + "\n"] else [])
      + (if Truthy(c.modified) then ["수정일: " + c.modified.value + "\n"] else [])
      + ["링크: " + e.url + "\n\n", "내용:\n" + c.body + "\n\n", Rule + "\n\n"]
  }

  /** A failed editorial is one line naming its link; a read one is a block
      of five to seven chunks that opens with its newspaper and names its
      link. */
  lemma EditorialChunksShape(e: Listed, content: Option<Editorial>)
    ensures content.None? ==> EditorialChunks(e, content) == ["사설 수집 실패: " + e.url + "\n\n"]
    ensures content.Some? ==> (5 <= |EditorialChunks(e, content)| <= 7
      && EditorialChunks(e, content)[0] == "언론사: " + e.press + "\n"
      && EditorialChunks(e, content)[|EditorialChunks(e, content)| - 3] == "링크: " + e.url + "\n\n")
  {
  }

  function EditorialsChunks(es: seq<Listed>, pages: map<string, EditorialPage>): seq<string>
  {
    if es == [] then []
    else
      var last := es[|es| - 1];
      EditorialsChunks(es[..|es| - 1], pages) + EditorialChunks(last, EditorialContent(Fetched(pages, last.url)))
  }

  /** The file written for the de-duplicated list. */
  function OpinionDigest(today: string, unique: seq<Listed>, pages: map<string, EditorialPage>): seq<string>
  {
    if unique == [] then [NoEditorials(today)]
    else [Header(today)] + EditorialsChunks(unique, pages)
  }

  /** The writing loop: one editorial at a time, continuing past failures. */
  method WriteEditorials(es: seq<Listed>, pages: map<string, EditorialPage>) returns (doc: seq<string>)
    ensures doc == EditorialsChunks(es, pages)
  {
    doc := [];
    var i := 0;
    while i < |es|
      invariant i <= |es|
      invariant doc == EditorialsChunks(es[..i], pages)
    {
      assert es[..i + 1][..i] == es[..i];
      var content := EditorialContent(Fetched(pages, es[i].url));
      doc := doc + EditorialChunks(es[i], content);
      i := i + 1;
    }
    assert es[..i] == es;
  }

  /** `main`: `today` is the date written (YYYY-MM-DD), `date` the one in the
      list URLs (YYYYMMDD). The result is the number of distinct links. */
  method RunOpinions(today: string, date: string, listPages: map<string, ListPage>,
                     pages: map<string, EditorialPage>) returns (count: nat, doc: seq<string>)
    ensures var unique := Dedup(AllListed(TargetPress, date, listPages));
            count == |unique| && doc == OpinionDigest(today, unique, pages)
    ensures count == |UrlsOf(AllListed(TargetPress, date, listPages))|
  {
    var editorials := FetchEditorialList(date, listPages);
    var unique := DedupEditorials(editorials);
    DedupCount(editorials);
    if |unique| == 0 {
      doc := [NoEditorials(today)];
      count := 0;
      return;
    }
    var body := WriteEditorials(unique, pages);
    doc := [Header(today)] + body;
    count := |unique|;
  }
}
