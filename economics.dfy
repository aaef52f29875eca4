/** The economics crawler: it reads the sub-section navigation of Naver's
    economy section, collects the latest articles of every sub-section,
    drops near-duplicates across sub-sections and writes one digest. */
module Economics {
  import opened Text
  import opened Naver

  // ---------------------------------------------------------------------
  // Sub-section navigation (`get_economics_subsections`)

  /** The `ct_snb_nav_item_link` element of a navigation item: its text and
      its `href` attribute, if any. */
  datatype NavLink = NavLink(text: string, href: Option<string>)

  /** One `ct_snb_nav_item`, with its link element when it has one. */
  datatype NavItem = NavItem(link: Option<NavLink>)

  datatype Subsection = Subsection(name: string, url: string)

  /** Number of navigation items that have a link element. */
  function Linked(items: seq<NavItem>): nat
  {
    if items == [] then 0
    else Linked(items[..|items| - 1]) + (if items[|items| - 1].link.Some? then 1 else 0)
  }

  /** A link that is empty or absolute. */
  predicate Absolute(url: string)
  {
    url == "" || StartsWith(url, "http")
  }

  /** The sub-section a link element names: its text, its link made
      absolute. */
  function SubsectionOf(l: NavLink): (r: Subsection)
    ensures Absolute(r.url)
  {
    Subsection(l.text, AbsoluteHref(TextOrEmpty(l.href)))
  }

  /** The sub-sections named by the navigation items that have a link, in
      order, each link made absolute. */
  function SubsectionsOf(items: seq<NavItem>): (r: seq<Subsection>)
    ensures |r| == Linked(items)
    ensures forall k :: 0 <= k < |r| ==> Absolute(r[k].url)
  {
    if items == [] then []
    else
      var init := SubsectionsOf(items[..|items| - 1]);
      match items[|items| - 1].link
      case None => init
      case Some(l) => init + [SubsectionOf(l)]
  }

  /** One sub-section per linked item, in navigation order: the item at `k`
      gives the sub-section at the position that counts the linked items
      before it, and items without a link give nothing. */
  lemma SubsectionsOfItems(items: seq<NavItem>)
    ensures forall k :: 0 <= k < |items| && items[k].link.Some? ==>
              Linked(items[..k]) < |SubsectionsOf(items)|
              && SubsectionsOf(items)[Linked(items[..k])] == SubsectionOf(items[k].link.value)
  {
    forall k | 0 <= k < |items| && items[k].link.Some?
      ensures Linked(items[..k]) < |SubsectionsOf(items)|
              && SubsectionsOf(items)[Linked(items[..k])] == SubsectionOf(items[k].link.value)
    {
      SubsectionOfItem(items, k);
    }
  }

  /** `SubsectionsOfItems` for one item. */
  lemma {:induction false} SubsectionOfItem(items: seq<NavItem>, k: nat)
    requires k < |items| && items[k].link.Some?
    ensures Linked(items[..k]) < |SubsectionsOf(items)|
            && SubsectionsOf(items)[Linked(items[..k])] == SubsectionOf(items[k].link.value)
  {
    var n := |items| - 1;
    var init := items[..n];
    assert items[..n] == init;
    var r0 := SubsectionsOf(init);
    if k < n {
      assert SubsectionsOf(items)[..|r0|] == r0;
      SubsectionOfItem(init, k);
      assert Linked(items[..k]) == Linked(init[..k]) && items[k] == init[k] by {
        assert items[..k] == init[..k];
      }
    } else {
      assert items[..k] == init;
    }
  }

  /** `get_economics_subsections`: `nav` is the navigation's items, or None
      when the page failed or has no `ct_snb_nav` element. */
  method GetSubsections(nav: Option<seq<NavItem>>) returns (subs: seq<Subsection>)
    ensures subs == if nav.None? then [] else SubsectionsOf(nav.value)
  {
    subs := [];
    if nav.None? {
      return;
    }
    var items := nav.value;
    var i := 0;
    while i < |items|
      invariant i <= |items|
      invariant subs == SubsectionsOf(items[..i])
    {
      assert items[..i + 1][..i] == items[..i];
      var link := items[i].link;
      if link.Some? {
        var href := TextOrEmpty(link.value.href);
        if href != "" && !StartsWith(href, "http") {
          href := Origin + href;
        }
        subs := subs + [Subsection(link.value.text, href)];
      }
      i := i + 1;
    }
    assert items[..i] == items;
  }

  // ---------------------------------------------------------------------
  // Listing extraction (`crawl_subsection_articles`)

  /** The `sa_text_title` element of an item: its text and `href`. */
  datatype TitleLink = TitleLink(text: string, href: Option<string>)

  /** One `sa_item`: its title element, and the texts of its lede and press
      elements when present. */
  datatype SaItem = SaItem(title: Option<TitleLink>, lede: Option<string>, press: Option<string>)

  /** One `section_article` container: the items of its `sa_list`, or None
      when it has no list. */
  datatype SectionArticle = SectionArticle(saList: Option<seq<SaItem>>)

  /** A sub-section page: the containers under the element whose class is
      exactly `section_latest`, and under the first element whose class merely
      contains that word. */
  datatype ListingPage = ListingPage(latest: Option<seq<SectionArticle>>,
                                     latestByPart: Option<seq<SectionArticle>>)

  const SummaryCap: nat := 70
  const MaxContainers: nat := 4

  /** The article an item yields: none without a title element; otherwise
      the title, its link verbatim, the lede cut to 70 characters plus "...",
      and the press name. */
  function ItemArticle(name: string, item: SaItem): (r: Option<Entry>)
    ensures r.Some? <==> item.title.Some?
    ensures r.Some? ==> (r.value.section == name && r.value.title == item.title.value.text
      && r.value.url == TextOrEmpty(item.title.value.href)
      && r.value.summary == Truncate(TextOrEmpty(item.lede), SummaryCap)
      && |r.value.summary| <= SummaryCap + 3
      && r.value.press == TextOrEmpty(item.press))
  {
    match item.title
    case None => None
    case Some(t) =>
      Some(Entry(name, t.text, Truncate(TextOrEmpty(item.lede), SummaryCap), TextOrEmpty(item.press), TextOrEmpty(t.href)))
  }

  /** Number of items that have a title element. */
  function Titled(items: seq<SaItem>): nat
  {
    if items == [] then 0
    else Titled(items[..|items| - 1]) + (if items[|items| - 1].title.Some? then 1 else 0)
  }

  /** The articles of a list of items: one per titled item, in order. */
  function ItemsArticles(name: string, items: seq<SaItem>): (r: seq<Entry>)
    ensures |r| == Titled(items)
    ensures forall e :: e in r ==> e.section == name && |e.summary| <= SummaryCap + 3
  {
    if items == [] then []
    else
      var init := ItemsArticles(name, items[..|items| - 1]);
      match ItemArticle(name, items[|items| - 1])
      case None => init
      case Some(e) => init + [e]
  }

  function ListItems(c: SectionArticle): seq<SaItem>
  {
    if c.saList.Some? then c.saList.value else []
  }

  /** The articles of a run of containers, container by container. */
  function ContainersArticles(name: string, cs: seq<SectionArticle>): seq<Entry>
  {
    if cs == [] then []
    else ContainersArticles(name, cs[..|cs| - 1]) + ItemsArticles(name, ListItems(cs[|cs| - 1]))
  }

  /** The exact `section_latest` element, else the partial class match. */
  function LocateLatest(p: ListingPage): Option<seq<SectionArticle>>
  {
    if p.latest.Some? then p.latest else p.latestByPart
  }

  /** What `crawl_subsection_articles` returns: nothing when the page failed
      (the empty link of an item without `href` always fails) or has no
      latest-articles element, else the articles of the first four
      containers. */
  function ListingArticles(sub: Subsection, pages: map<string, ListingPage>): seq<Entry>
  {
    match Fetched(pages, sub.url)
    case None => []
    case Some(p) =>
      match LocateLatest(p)
      case None => []
      case Some(cs) => ContainersArticles(sub.name, Take(cs, MaxContainers))
  }

  /** `crawl_subsection_articles`, with the page of `sub.url` looked up in
      `pages` (missing, or the empty link: the fetch failed). */
  method CrawlSubsectionArticles(sub: Subsection, pages: map<string, ListingPage>)
    returns (articles: seq<Entry>)
    ensures articles == ListingArticles(sub, pages)
  {
    articles := [];
    if sub.url == "" || sub.url !in pages {
      return;
    }
    var page := pages[sub.url];
    var latest := page.latest;
    if latest.None? {
      latest := page.latestByPart;
    }
    if latest.None? {
      return;
    }
    var containers := Take(latest.value, MaxContainers);
    var c := 0;
    while c < |containers|
      invariant c <= |containers|
      invariant articles == ContainersArticles(sub.name, containers[..c])
    {
      assert containers[..c + 1][..c] == containers[..c];
      var found := ReadItems(sub.name, ListItems(containers[c]));
      articles := articles + found;
      c := c + 1;
    }
    assert containers[..c] == containers;
  }

  /** The per-item loop of `crawl_subsection_articles` over one `sa_list`:
      an item without a title element is skipped and the loop goes on. */
  method ReadItems(name: string, items: seq<SaItem>) returns (found: seq<Entry>)
    ensures found == ItemsArticles(name, items)
  {
    found := [];
    var j := 0;
    while j < |items|
      invariant j <= |items|
      invariant found == ItemsArticles(name, items[..j])
    {
      assert items[..j + 1][..j] == items[..j];
      var item := items[j];
      if item.title.Some? {
        var title := item.title.value.text;
        var url := TextOrEmpty(item.title.value.href);
        var summary := TextOrEmpty(item.lede);
        if |summary| > SummaryCap {
          summary := summary[..SummaryCap] + "...";
        }
        var press := TextOrEmpty(item.press);
        found := found + [Entry(name, title, summary, press, url)];
      }
      j := j + 1;
    }
    assert items[..j] == items;
  }

  /** Item lists concatenate. */
  lemma {:induction false} ItemsArticlesAppend(name: string, xs: seq<SaItem>, ys: seq<SaItem>)
    ensures ItemsArticles(name, xs + ys) == ItemsArticles(name, xs) + ItemsArticles(name, ys)
    decreases |ys|
  {
    if ys != [] {
      var n := |ys| - 1;
      assert (xs + ys)[..|xs + ys| - 1] == xs + ys[..n];
      ItemsArticlesAppend(name, xs, ys[..n]);
    } else {
      assert xs + ys == xs;
    }
  }

  /** An item without a title element is skipped and the items after it are
      still read. */
  lemma UntitledItemSkipped(name: string, xs: seq<SaItem>, u: SaItem, ys: seq<SaItem>)
    requires u.title.None?
    ensures ItemsArticles(name, xs + [u] + ys) == ItemsArticles(name, xs + ys)
  {
    ItemsArticlesAppend(name, xs + [u], ys);
    ItemsArticlesAppend(name, xs, [u]);
    ItemsArticlesAppend(name, xs, ys);
    assert [u][..0] == [];
  }

  /** Containers past the fourth are never read: adding any after four
      containers does not change the sub-section's articles. */
  lemma ContainersBeyondFourIgnored(sub: Subsection, pages: map<string, ListingPage>,
                                    cs: seq<SectionArticle>, extra: seq<SectionArticle>)
    requires sub.url != "" && sub.url in pages && LocateLatest(pages[sub.url]) == Some(cs + extra)
    requires |cs| == MaxContainers
    ensures ListingArticles(sub, pages) == ContainersArticles(sub.name, cs)
  {
    assert Take(cs + extra, MaxContainers) == cs;
  }

  // ---------------------------------------------------------------------
  // Near-duplicate detection (`are_similar` and the loop in `main`)

  /** The similarity threshold 0.8 as the fraction 4/5. */
  const ThresholdNum: nat := 4
  const ThresholdDen: nat := 5

  /** `are_similar(a, b)` with `m` the number of characters difflib's
      SequenceMatcher matches between `a` and `b`: its ratio is 2m/T with T
      the total length, or 1 when both strings are empty, and the titles are
      similar when the ratio is strictly greater than the threshold. */
  predicate AreSimilar(a: string, b: string, m: nat)
  {
    var total := |a| + |b|;
    var num := if total == 0 then 1 else 2 * m;
    var den := if total == 0 then 1 else total;
    num * ThresholdDen > ThresholdNum * den
  }

  /** The comparison is strict: a ratio of exactly 0.8 is not similar, any
      higher ratio is; two empty titles (ratio 1) are similar. */
  lemma SimilarityBoundary(a: string, b: string, m: nat)
    ensures |a| + |b| > 0 && 10 * m == 4 * (|a| + |b|) ==> !AreSimilar(a, b, m)
    ensures |a| + |b| > 0 && 10 * m > 4 * (|a| + |b|) ==> AreSimilar(a, b, m)
    ensures |a| + |b| == 0 ==> AreSimilar(a, b, m)
  {
  }

  /** The duplicate test of `main` between an accepted article `e` and a
      candidate `a`: similar titles (in that argument order) or equal links,
      empty links included. */
  predicate Clash(e: Entry, a: Entry, matches: (string, string) -> nat)
  {
    AreSimilar(e.title, a.title, matches(e.title, a.title)) || e.url == a.url
  }

  predicate IsDuplicate(accepted: seq<Entry>, a: Entry, matches: (string, string) -> nat)
  {
    exists i :: 0 <= i < |accepted| && Clash(accepted[i], a, matches)
  }

  /** The accepted list after offering `cands` in order to `acc`. */
  function Accept(acc: seq<Entry>, cands: seq<Entry>, matches: (string, string) -> nat): seq<Entry>
    decreases |cands|
  {
    if cands == [] then acc
    else Accept(if IsDuplicate(acc, cands[0], matches) then acc else acc + [cands[0]], cands[1..], matches)
  }

  /** The accepted list after offering every sub-section's articles, one
      sub-section after the other. */
  function AcceptSections(acc: seq<Entry>, sections: seq<seq<Entry>>, matches: (string, string) -> nat): seq<Entry>
    decreases |sections|
  {
    if sections == [] then acc else AcceptSections(Accept(acc, sections[0], matches), sections[1..], matches)
  }

  /** The articles of each sub-section, in configuration order. */
  function Listings(subs: seq<Subsection>, pages: map<string, ListingPage>): (r: seq<seq<Entry>>)
    ensures |r| == |subs|
    ensures forall k :: 0 <= k < |subs| ==> r[k] == ListingArticles(subs[k], pages)
  {
    seq(|subs|, k requires 0 <= k < |subs| => ListingArticles(subs[k], pages))
  }

  /** The collection and deduplication loops of `main`: each sub-section's
      articles are compared with every article accepted so far and kept only
      when none clashes. */
  method CollectArticles(subs: seq<Subsection>, pages: map<string, ListingPage>,
                         matches: (string, string) -> nat) returns (all: seq<Entry>)
    ensures all == AcceptSections([], Listings(subs, pages), matches)
  {
    all := [];
    ghost var lists := Listings(subs, pages);
    var k := 0;
    while k < |subs|
      invariant k <= |subs|
      invariant AcceptSections(all, lists[k..], matches) == AcceptSections([], lists, matches)
    {
      var articles := CrawlSubsectionArticles(subs[k], pages);
      assert lists[k..][0] == articles && lists[k..][1..] == lists[k + 1..];
      all := AcceptArticles(all, articles, matches);
      k := k + 1;
    }
  }

  /** The article loop of `main` for one sub-section. */
  method AcceptArticles(accepted: seq<Entry>, articles: seq<Entry>, matches: (string, string) -> nat)
    returns (all: seq<Entry>)
    ensures all == Accept(accepted, articles, matches)
  {
    all := accepted;
    var j := 0;
    while j < |articles|
      invariant j <= |articles|
      invariant Accept(all, articles[j..], matches) == Accept(accepted, articles, matches)
    {
      var article := articles[j];
      var duplicate := FindDuplicate(all, article, matches);
      assert articles[j..][1..] == articles[j + 1..];
      if !duplicate {
        all := all + [article];
      }
      j := j + 1;
    }
  }

  /** The innermost loop of `main`: compare with every accepted article,
      stopping at the first clash. */
  method FindDuplicate(all: seq<Entry>, article: Entry, matches: (string, string) -> nat)
    returns (duplicate: bool)
    ensures duplicate == IsDuplicate(all, article, matches)
  {
    duplicate := false;
    var e := 0;
    while e < |all|
      invariant e <= |all|
      invariant forall i :: 0 <= i < e ==> !Clash(all[i], article, matches)
    {
      if AreSimilar(all[e].title, article.title, matches(all[e].title, article.title)) || all[e].url == article.url {
        duplicate := true;
        break;
      }
      e := e + 1;
    }
  }

  /** No accepted article clashes with an earlier accepted one: distinct
      links (the empty link included) and no title similar to an earlier
      title. */
  predicate NoClash(s: seq<Entry>, matches: (string, string) -> nat)
  {
    forall i, j :: 0 <= i < j < |s| ==> !Clash(s[i], s[j], matches)
  }

  /** Deduplication keeps `NoClash`, extends the accepted list, and adds only
      candidates, in their order. */
  lemma {:induction false} AcceptKeepsNoClash(acc: seq<Entry>, cands: seq<Entry>, matches: (string, string) -> nat)
    requires NoClash(acc, matches)
    ensures NoClash(Accept(acc, cands, matches), matches)
    decreases |cands|
  {
    if cands != [] {
      var a := cands[0];
      if !IsDuplicate(acc, a, matches) {
        var acc' := acc + [a];
        forall i, j | 0 <= i < j < |acc'| ensures !Clash(acc'[i], acc'[j], matches) {
          if j == |acc| {
            assert acc'[i] == acc[i];
          }
        }
      }
      AcceptKeepsNoClash(if IsDuplicate(acc, a, matches) then acc else acc + [a], cands[1..], matches);
    }
  }

  /** The accepted list starts with what was already accepted, and what is
      added is a subsequence of the candidates: order is kept and nothing is
      invented. */
  lemma {:induction false} AcceptIsSubsequence(acc: seq<Entry>, cands: seq<Entry>, matches: (string, string) -> nat)
    ensures acc <= Accept(acc, cands, matches)
    ensures IsSubseq(Accept(acc, cands, matches)[|acc|..], cands)
    decreases |cands|
  {
    var r := Accept(acc, cands, matches);
    if cands == [] {
      assert r[|acc|..] == [];
    } else {
      var a := cands[0];
      if IsDuplicate(acc, a, matches) {
        AcceptIsSubsequence(acc, cands[1..], matches);
      } else {
        AcceptIsSubsequence(acc + [a], cands[1..], matches);
        var added := r[|acc|..];
        assert added[0] == a && added[1..] == r[|acc| + 1..];
      }
    }
  }

  /** Every offered candidate, and everything accepted before, clashes with
      some accepted article: a rejected candidate was rejected because of an
      article that is kept. */
  lemma {:induction false} AcceptCovers(acc: seq<Entry>, cands: seq<Entry>, matches: (string, string) -> nat)
    ensures forall x :: x in acc ==> IsDuplicate(Accept(acc, cands, matches), x, matches)
    ensures forall x :: x in cands ==> IsDuplicate(Accept(acc, cands, matches), x, matches)
    decreases |cands|
  {
    var r := Accept(acc, cands, matches);
    AcceptIsSubsequence(acc, cands, matches);
    forall x | x in acc ensures IsDuplicate(r, x, matches) {
      var i :| 0 <= i < |acc| && acc[i] == x;
      assert r[i] == x && Clash(r[i], x, matches);
    }
    if cands != [] {
      var a := cands[0];
      var acc' := if IsDuplicate(acc, a, matches) then acc else acc + [a];
      AcceptCovers(acc', cands[1..], matches);
      if IsDuplicate(acc, a, matches) {
        var i :| 0 <= i < |acc| && Clash(acc[i], a, matches);
        AcceptIsSubsequence(acc, cands[1..], matches);
        assert r[i] == acc[i];
      } else {
        assert a in acc';
      }
      forall x | x in cands ensures IsDuplicate(r, x, matches) {
        if x != a {
          assert x in cands[1..];
        }
      }
    }
  }

  /** Offering candidates that all clash with accepted articles accepts
      nothing. */
  lemma {:induction false} AcceptNothingNew(acc: seq<Entry>, cands: seq<Entry>, matches: (string, string) -> nat)
    requires forall x :: x in cands ==> IsDuplicate(acc, x, matches)
    ensures Accept(acc, cands, matches) == acc
    decreases |cands|
  {
    if cands != [] {
      assert cands[0] in cands;
      AcceptNothingNew(acc, cands[1..], matches);
    }
  }

  /** Deduplicating again against the result, with the same candidates,
      accepts nothing new. */
  lemma AcceptIdempotent(acc: seq<Entry>, cands: seq<Entry>, matches: (string, string) -> nat)
    ensures Accept(Accept(acc, cands, matches), cands, matches) == Accept(acc, cands, matches)
  {
    AcceptCovers(acc, cands, matches);
    AcceptNothingNew(Accept(acc, cands, matches), cands, matches);
  }

  /** Offering two lists one after the other is offering their concatenation. */
  lemma {:induction false} AcceptAppend(acc: seq<Entry>, xs: seq<Entry>, ys: seq<Entry>, matches: (string, string) -> nat)
    ensures Accept(acc, xs + ys, matches) == Accept(Accept(acc, xs, matches), ys, matches)
    decreases |xs|
  {
    if xs == [] {
      assert xs + ys == ys;
    } else {
      assert (xs + ys)[0] == xs[0] && (xs + ys)[1..] == xs[1..] + ys;
      AcceptAppend(if IsDuplicate(acc, xs[0], matches) then acc else acc + [xs[0]], xs[1..], ys, matches);
    }
  }

  /** The loop, candidate by candidate: what is accepted after the first `p`
      candidates is a prefix of the final list, and candidate `p` is
      appended exactly when no article accepted before it clashes with it.
      So the first of two clashing candidates wins. */
  lemma AcceptStep(acc: seq<Entry>, cands: seq<Entry>, matches: (string, string) -> nat)
    ensures forall p :: 0 <= p <= |cands| ==> Accept(acc, cands[..p], matches) <= Accept(acc, cands, matches)
    ensures forall p :: 0 <= p < |cands| ==>
              Accept(acc, cands[..p + 1], matches)
              == if IsDuplicate(Accept(acc, cands[..p], matches), cands[p], matches)
                 then Accept(acc, cands[..p], matches)
                 else Accept(acc, cands[..p], matches) + [cands[p]]
  {
    forall p | 0 <= p <= |cands|
      ensures Accept(acc, cands[..p], matches) <= Accept(acc, cands, matches)
    {
      AcceptAppend(acc, cands[..p], cands[p..], matches);
      assert cands[..p] + cands[p..] == cands;
      AcceptIsSubsequence(Accept(acc, cands[..p], matches), cands[p..], matches);
    }
    forall p | 0 <= p < |cands|
      ensures Accept(acc, cands[..p + 1], matches)
              == if IsDuplicate(Accept(acc, cands[..p], matches), cands[p], matches)
                 then Accept(acc, cands[..p], matches)
                 else Accept(acc, cands[..p], matches) + [cands[p]]
    {
      AcceptAppend(acc, cands[..p], [cands[p]], matches);
      assert cands[..p] + [cands[p]] == cands[..p + 1];
      assert [cands[p]][1..] == [];
    }
  }

  /** Deduplicating sub-section by sub-section is deduplicating the
      concatenation of all sub-sections' articles: the comparison crosses
      sub-sections. */
  lemma {:induction false} AcceptSectionsIsFlat(acc: seq<Entry>, sections: seq<seq<Entry>>, matches: (string, string) -> nat)
    ensures AcceptSections(acc, sections, matches) == Accept(acc, Flatten(sections), matches)
    decreases |sections|
  {
    if sections != [] {
      AcceptSectionsIsFlat(Accept(acc, sections[0], matches), sections[1..], matches);
      AcceptAppend(acc, sections[0], Flatten(sections[1..]), matches);
    }
  }

  /** The economics run: the accepted articles have no clash, they are an
      order-preserving subsequence of all sub-sections' articles, every
      collected article clashes with an accepted one, and, in the order the
      articles were collected, the first of two clashing articles is the one
      kept: an article is dropped exactly when it clashes with one accepted
      before it. */
  lemma CollectedArticlesSound(subs: seq<Subsection>, pages: map<string, ListingPage>,
                               matches: (string, string) -> nat)
    ensures NoClash(AcceptSections([], Listings(subs, pages), matches), matches)
    ensures IsSubseq(AcceptSections([], Listings(subs, pages), matches), Flatten(Listings(subs, pages)))
    ensures forall x :: x in Flatten(Listings(subs, pages)) ==>
              IsDuplicate(AcceptSections([], Listings(subs, pages), matches), x, matches)
    ensures var all := Flatten(Listings(subs, pages));
            forall p :: 0 <= p < |all| ==>
              Accept([], all[..p], matches) <= AcceptSections([], Listings(subs, pages), matches)
              && Accept([], all[..p + 1], matches)
                 == if IsDuplicate(Accept([], all[..p], matches), all[p], matches)
                    then Accept([], all[..p], matches)
                    else Accept([], all[..p], matches) + [all[p]]
  {
    var all := Flatten(Listings(subs, pages));
    AcceptSectionsIsFlat([], Listings(subs, pages), matches);
    AcceptKeepsNoClash([], all, matches);
    AcceptIsSubsequence([], all, matches);
    AcceptCovers([], all, matches);
    AcceptStep([], all, matches);
    assert Accept([], all, matches)[0..] == Accept([], all, matches);
  }

  // ---------------------------------------------------------------------
  // The run (`main`)

  const DigestTitle := "경제 영역별 뉴스 모음"

  function Names(subs: seq<Subsection>): (r: seq<string>)
    ensures |r| == |subs| && forall k :: 0 <= k < |subs| ==> r[k] == subs[k].name
  {
    seq(|subs|, k requires 0 <= k < |subs| => subs[k].name)
  }

  /** `main`: the sub-sections from the navigation, the deduplicated
      articles, and the digest whose table of contents lists every
      configured sub-section, empty ones included. Returns the number of
      articles written. */
  method RunEconomics(today: string, nav: Option<seq<NavItem>>, listingPages: map<string, ListingPage>,
                      articlePages: map<string, ArticlePage>, matches: (string, string) -> nat)
    returns (count: nat, doc: seq<string>)
    ensures var subs := if nav.None? then [] else SubsectionsOf(nav.value);
            var all := AcceptSections([], Listings(subs, listingPages), matches);
            count == |all| && doc == Digest(today, DigestTitle, Names(subs), all, articlePages)
  {
    var subs := GetSubsections(nav);
    var all := CollectArticles(subs, listingPages, matches);
    doc := WriteDigest(today, DigestTitle, Names(subs), all, articlePages);
    count := |all|;
  }
}
