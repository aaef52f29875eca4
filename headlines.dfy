/** The headline crawler: it reads the headline block of six Naver news
    sections, keeps every item that has a headline, and writes one digest
    whose table of contents lists the sections that produced headlines. */
module Headlines {
  import opened Text
  import opened Naver

  // ---------------------------------------------------------------------
  // One section (`crawl_section_headlines`)

  /** A link element of an item: its `data-imp-url` and `href` attributes. */
  datatype LinkEl = LinkEl(impUrl: Option<string>, href: Option<string>)

  /** One `sa_item`: the texts of its `sa_text_strong`, `sa_text_press` and
      `sa_text_lede` elements, its `a.sa_text_title` link, and its first
      `a` with an `href`. */
  datatype HeadlineItem = HeadlineItem(strong: Option<string>, press: Option<string>, lede: Option<string>,
                                       titleLink: Option<LinkEl>, anyLink: Option<LinkEl>)

  /** A headline block: its `div.sa_item` and `li.sa_item` elements. */
  datatype HeadlineBlock = HeadlineBlock(divItems: seq<HeadlineItem>, liItems: seq<HeadlineItem>)

  /** A section page: the `div` whose class is exactly
      `section_component as_section_headline`, and the first `div` whose
      class mentions `as_section_headline`. */
  datatype SectionPage = SectionPage(exact: Option<HeadlineBlock>, loose: Option<HeadlineBlock>)

  const SummaryCap: nat := 70

  /** `link_el.get("data-imp-url") or link_el.get("href", "")`, with the
      title link preferred to any other link, and "" without a link. */
  function ItemUrl(item: HeadlineItem): (r: string)
    ensures item.titleLink.None? && item.anyLink.None? ==> r == ""
    ensures item.titleLink.Some? && Truthy(item.titleLink.value.impUrl) ==> r == item.titleLink.value.impUrl.value
    ensures item.titleLink.Some? && !Truthy(item.titleLink.value.impUrl) ==> r == TextOrEmpty(item.titleLink.value.href)
    ensures item.titleLink.None? && item.anyLink.Some? ==>
              r == if Truthy(item.anyLink.value.impUrl) then item.anyLink.value.impUrl.value
                   else TextOrEmpty(item.anyLink.value.href)
  {
    var link := if item.titleLink.Some? then item.titleLink else item.anyLink;
    match link
    case None => ""
    case Some(l) => if Truthy(l.impUrl) then l.impUrl.value else TextOrEmpty(l.href)
  }

  /** The entry an item yields: only an item with a non-empty headline is
      recorded, with its summary cut to 70 characters plus "...". */
  function ItemHeadline(name: string, item: HeadlineItem): (r: Option<Entry>)
    ensures r.Some? <==> Truthy(item.strong)
    ensures r.Some? ==> r.value.section == name && r.value.title == item.strong.value
    ensures r.Some? ==> r.value.summary == Truncate(TextOrEmpty(item.lede), SummaryCap)
    ensures r.Some? ==> |r.value.summary| <= SummaryCap + 3
    ensures r.Some? ==> r.value.url == ItemUrl(item) && r.value.press == TextOrEmpty(item.press)
  {
    var headline := TextOrEmpty(item.strong);
    if headline == "" then None
    else Some(Entry(name, headline, Truncate(TextOrEmpty(item.lede), SummaryCap), TextOrEmpty(item.press), ItemUrl(item)))
  }

  /** Number of items with a non-empty headline. */
  function Headlined(items: seq<HeadlineItem>): nat
  {
    if items == [] then 0
    else Headlined(items[..|items| - 1]) + (if Truthy(items[|items| - 1].strong) then 1 else 0)
  }

  /** The headlines of a list of items, in order. */
  function ItemsHeadlines(name: string, items: seq<HeadlineItem>): (r: seq<Entry>)
    ensures |r| == Headlined(items) <= |items|
    ensures forall e :: e in r ==> e.section == name && e.title != ""
  {
    if items == [] then []
    else
      var init := ItemsHeadlines(name, items[..|items| - 1]);
      match ItemHeadline(name, items[|items| - 1])
      case None => init
      case Some(e) => init + [e]
  }

  /** Every item with a non-empty headline is recorded, in order: the item
      at `k` gives its entry at the position that counts the headlined
      items before it. */
  lemma ItemsHeadlinesAt(name: string, items: seq<HeadlineItem>)
    ensures forall k :: 0 <= k < |items| && Truthy(items[k].strong) ==>
              Headlined(items[..k]) < |ItemsHeadlines(name, items)|
              && ItemsHeadlines(name, items)[Headlined(items[..k])] == ItemHeadline(name, items[k]).value
  {
    forall k | 0 <= k < |items| && Truthy(items[k].strong)
      ensures Headlined(items[..k]) < |ItemsHeadlines(name, items)|
              && ItemsHeadlines(name, items)[Headlined(items[..k])] == ItemHeadline(name, items[k]).value
    {
      ItemHeadlineAt(name, items, k);
    }
  }

  /** `ItemsHeadlinesAt` for one item. */
  lemma {:induction false} ItemHeadlineAt(name: string, items: seq<HeadlineItem>, k: nat)
    requires k < |items| && Truthy(items[k].strong)
    ensures Headlined(items[..k]) < |ItemsHeadlines(name, items)|
            && ItemsHeadlines(name, items)[Headlined(items[..k])] == ItemHeadline(name, items[k]).value
  {
    var n := |items| - 1;
    var init := items[..n];
    assert items[..n] == init;
    var r0 := ItemsHeadlines(name, init);
    if k < n {
      assert ItemsHeadlines(name, items)[..|r0|] == r0;
      ItemHeadlineAt(name, init, k);
      assert Headlined(items[..k]) == Headlined(init[..k]) && items[k] == init[k] by {
        assert items[..k] == init[..k];
      }
    } else {
      assert items[..k] == init;
    }
  }

  /** The block read: the exact class match, else the looser one. */
  function HeadlineBlockOf(page: SectionPage): Option<HeadlineBlock>
  {
    if page.exact.Some? then page.exact else page.loose
  }

  /** The items read: the `div` items, or the `li` items when there is no
      `div` item. */
  function BlockItems(b: HeadlineBlock): seq<HeadlineItem>
  {
    if b.divItems != [] then b.divItems else b.liItems
  }

  /** The headlines of a section; a failed fetch (None) or a page without a
      headline block gives none. */
  function SectionHeadlines(name: string, page: Option<SectionPage>): (r: seq<Entry>)
    ensures forall e :: e in r ==> e.section == name && e.title != ""
  {
    if page.None? then []
    else match HeadlineBlockOf(page.value)
      case None => []
      case Some(b) => ItemsHeadlines(name, BlockItems(b))
  }

  /** `crawl_section_headlines`. */
  method CrawlSectionHeadlines(name: string, page: Option<SectionPage>) returns (results: seq<Entry>)
    ensures results == SectionHeadlines(name, page)
  {
    results := [];
    if page.None? {
      return;
    }
    var block := page.value.exact;
    if block.None? {
      block := page.value.loose;
    }
    if block.None? {
      return;
    }
    var items := block.value.divItems;
    if items == [] {
      items := block.value.liItems;
    }
    var i := 0;
    while i < |items|
      invariant i <= |items|
      invariant results == ItemsHeadlines(name, items[..i])
    {
      assert items[..i + 1][..i] == items[..i];
      var item := items[i];
      var headline := TextOrEmpty(item.strong);
      var press := TextOrEmpty(item.press);
      var summary := TextOrEmpty(item.lede);
      if |summary| > SummaryCap {
        summary := summary[..SummaryCap] + "...";
      }
      var link := item.titleLink;
      if link.None? {
        link := item.anyLink;
      }
      var url := "";
      if link.Some? {
        url := if Truthy(link.value.impUrl) then link.value.impUrl.value else TextOrEmpty(link.value.href);
      }
      if headline != "" {
        results := results + [Entry(name, headline, summary, press, url)];
      }
      i := i + 1;
    }
    assert items[..i] == items;
  }

  // ---------------------------------------------------------------------
  // The run (`main`)

  /** The sections in the order they are crawled: name and URL. */
  const Sections: seq<(string, string)> := [
    ("경제", "https://news.naver.com/section/101"),
    ("IT/과학", "https://news.naver.com/section/105"),
    ("세계", "https://news.naver.com/section/104"),
    ("정치", "https://news.naver.com/section/100"),
    ("사회", "https://news.naver.com/section/102"),
    ("생활/문화", "https://news.naver.com/section/103")
  ]

  const DigestTitle := "헤드라인 모음"

  function Crawled(sec: (string, string), pages: map<string, SectionPage>): seq<Entry>
  {
    SectionHeadlines(sec.0, Lookup(pages, sec.1))
  }

  /** `section_names`: the sections that produced at least one headline. */
  function SectionNames(secs: seq<(string, string)>, pages: map<string, SectionPage>): seq<string>
  {
    if secs == [] then []
    else
      var init := SectionNames(secs[..|secs| - 1], pages);
      if Crawled(secs[|secs| - 1], pages) != [] then init + [secs[|secs| - 1].0] else init
  }

  /** The non-empty headline lists, one per name of `SectionNames`;
      `all_headlines` is their concatenation. */
  function SectionGroups(secs: seq<(string, string)>, pages: map<string, SectionPage>): seq<seq<Entry>>
  {
    if secs == [] then []
    else
      var init := SectionGroups(secs[..|secs| - 1], pages);
      var hs := Crawled(secs[|secs| - 1], pages);
      if hs != [] then init + [hs] else init
  }

  /** The crawl loop of `main`. */
  method CollectHeadlines(secs: seq<(string, string)>, pages: map<string, SectionPage>)
    returns (sectionNames: seq<string>, allHeadlines: seq<Entry>)
    ensures sectionNames == SectionNames(secs, pages)
    ensures allHeadlines == Flatten(SectionGroups(secs, pages))
  {
    sectionNames := [];
    allHeadlines := [];
    var i := 0;
    while i < |secs|
      invariant i <= |secs|
      invariant sectionNames == SectionNames(secs[..i], pages)
      invariant allHeadlines == Flatten(SectionGroups(secs[..i], pages))
    {
      assert secs[..i + 1][..i] == secs[..i];
      var headlines := CrawlSectionHeadlines(secs[i].0, Lookup(pages, secs[i].1));
      if headlines != [] {
        sectionNames := sectionNames + [secs[i].0];
        FlattenSnoc(SectionGroups(secs[..i], pages), headlines);
        allHeadlines := allHeadlines + headlines;
      }
      i := i + 1;
    }
    assert secs[..i] == secs;
  }

  /** Section names that are pairwise different. */
  predicate DistinctNames(secs: seq<(string, string)>)
  {
    forall i, j :: 0 <= i < j < |secs| ==> secs[i].0 != secs[j].0
  }

  /** The table of contents and the groups agree: one non-empty group per
      listed section, all of that section; a section is listed exactly when
      it produced a headline; and listed names are as distinct as the
      crawled ones. */
  lemma GroupsMatchNames(secs: seq<(string, string)>, pages: map<string, SectionPage>)
    requires DistinctNames(secs)
    ensures var names, groups := SectionNames(secs, pages), SectionGroups(secs, pages);
            && |groups| == |names|
            && (forall k :: 0 <= k < |groups| ==> groups[k] != [] && AllIn(groups[k], names[k]))
            && (forall k, l :: 0 <= k < l < |names| ==> names[k] != names[l])
            && (forall name :: name in names <==>
                  exists i :: 0 <= i < |secs| && secs[i].0 == name && Crawled(secs[i], pages) != [])
  {
    GroupsOfNames(secs, pages);
    NamesListed(secs, pages);
    NamesDistinct(secs, pages);
  }

  /** One non-empty group per listed name, all of that section. */
  lemma {:induction false} GroupsOfNames(secs: seq<(string, string)>, pages: map<string, SectionPage>)
    ensures var names, groups := SectionNames(secs, pages), SectionGroups(secs, pages);
            && |groups| == |names|
            && (forall k :: 0 <= k < |groups| ==> groups[k] != [] && AllIn(groups[k], names[k]))
  {
    if secs != [] {
      GroupsOfNames(secs[..|secs| - 1], pages);
    }
  }

  /** A section is listed exactly when it produced a headline. */
  lemma {:induction false} NamesListed(secs: seq<(string, string)>, pages: map<string, SectionPage>)
    ensures forall name :: name in SectionNames(secs, pages) <==>
              exists i :: 0 <= i < |secs| && secs[i].0 == name && Crawled(secs[i], pages) != []
  {
    if secs != [] {
      var n := |secs| - 1;
      var init := secs[..n];
      NamesListed(init, pages);
      var names0 := SectionNames(init, pages);
      var c := Crawled(secs[n], pages) != [];
      assert SectionNames(secs, pages) == if c then names0 + [secs[n].0] else names0 by {
        assert secs[..n] == init;
      }
      forall name ensures name in SectionNames(secs, pages) <==>
          exists i :: 0 <= i < |secs| && secs[i].0 == name && Crawled(secs[i], pages) != []
      {
        if name in names0 {
          var i :| 0 <= i < |init| && init[i].0 == name && Crawled(init[i], pages) != [];
          assert secs[i] == init[i];
        } else if c && name == secs[n].0 {
          assert Crawled(secs[n], pages) != [];
        } else {
          forall i | 0 <= i < |secs| && secs[i].0 == name ensures Crawled(secs[i], pages) == [] {
            if i < n {
              assert init[i] == secs[i];
            }
          }
        }
      }
    }
  }

  /** Listed names are as distinct as the crawled ones. */
  lemma {:induction false} NamesDistinct(secs: seq<(string, string)>, pages: map<string, SectionPage>)
    requires DistinctNames(secs)
    ensures forall k, l :: 0 <= k < l < |SectionNames(secs, pages)| ==>
              SectionNames(secs, pages)[k] != SectionNames(secs, pages)[l]
  {
    if secs != [] {
      var n := |secs| - 1;
      var init := secs[..n];
      assert DistinctNames(init) by {
        forall i, j | 0 <= i < j < |init| ensures init[i].0 != init[j].0 {
          assert init[i] == secs[i] && init[j] == secs[j];
        }
      }
      NamesDistinct(init, pages);
      NamesListed(init, pages);
      var names0 := SectionNames(init, pages);
      assert secs[..n] == init;
      if Crawled(secs[n], pages) != [] {
        forall k | 0 <= k < |names0| ensures names0[k] != secs[n].0 {
          assert names0[k] in names0;
          var i :| 0 <= i < |init| && init[i].0 == names0[k] && Crawled(init[i], pages) != [];
          assert init[i] == secs[i];
        }
        var names := SectionNames(secs, pages);
        assert names == names0 + [secs[n].0];
        forall k, l | 0 <= k < l < |names| ensures names[k] != names[l] {
          if l < |names0| {
            assert names[k] == names0[k] && names[l] == names0[l];
            assert names0[k] != names0[l];
          } else {
            assert names[k] == names0[k] && names[l] == secs[n].0;
          }
        }
      } else {
        assert SectionNames(secs, pages) == names0;
      }
    }
  }

  /** Every section header written in the body is the one its table of
      contents line announces, in the same order: the headers written are
      exactly `section_names`. */
  lemma HeadersMatchToc(pages: map<string, SectionPage>)
    ensures var entries := Flatten(SectionGroups(Sections, pages));
            Headers(entries, |entries|) == SectionNames(Sections, pages)
  {
    GroupsMatchNames(Sections, pages);
    HeadersOfGroups(SectionGroups(Sections, pages), SectionNames(Sections, pages));
  }

  /** `main`: crawl the six sections and write the digest (the source's
      `main` returns nothing; `doc` is the file written). */
  method RunHeadlines(today: string, pages: map<string, SectionPage>, articlePages: map<string, ArticlePage>)
    returns (doc: seq<string>)
    ensures doc == Digest(today, DigestTitle, SectionNames(Sections, pages),
                          Flatten(SectionGroups(Sections, pages)), articlePages)
  {
    var sectionNames, allHeadlines := CollectHeadlines(Sections, pages);
    doc := WriteDigest(today, DigestTitle, sectionNames, allHeadlines, articlePages);
  }
}
