/** What the Naver crawlers (economics, headlines, editorials) share: making
    a site-relative link absolute, reading the two date stamps of an article
    page, and the layout of the sectioned digest file that the economics and
    headline crawlers both write. */
module Naver {
  import opened Text

  const Origin := "https://news.naver.com"

  /** `href = "https://news.naver.com" + href` when the link is non-empty and
      does not already start with "http"; otherwise the link is kept. */
  function AbsoluteHref(href: string): (r: string)
    ensures r == "" <==> href == ""
    ensures r != "" ==> StartsWith(r, "http")
    ensures r == href || r == Origin + href
    ensures StartsWith(href, "http") ==> r == href
    ensures href != "" && !StartsWith(href, "http") ==> r == Origin + href
  {
    if href != "" && !StartsWith(href, "http") then Origin + href else href
  }

  /** The normalised link ends with the link it was made from. */
  lemma AbsoluteHrefEndsWith(href: string)
    ensures EndsWith(AbsoluteHref(href), href)
  {
    var r := AbsoluteHref(href);
    if r != href {
      assert r == Origin + href;
      assert r[|Origin|..] == href;
    }
  }

  /** Normalising twice changes nothing more: the prefixed link starts with
      "http" itself. */
  lemma AbsoluteHrefIdempotent(href: string)
    ensures AbsoluteHref(AbsoluteHref(href)) == AbsoluteHref(href)
  {
    var r := AbsoluteHref(href);
    if href != "" && !StartsWith(href, "http") {
      assert r[..4] == Origin[..4] == "http";
    }
  }

  /** An article page as the date reader sees it: the texts of every
      `media_end_head_info_datestamp_time` element in document order and the
      text of the `_ARTICLE_MODIFY_DATE_TIME` element when there is one. */
  datatype ArticlePage = ArticlePage(stamps: seq<string>, modifyStamp: Option<string>)

  /** `fetch_article_dates`: the published date is the first stamp; the
      modified date needs a second stamp and the modify element. A page that
      could not be fetched gives neither. */
  function ArticleDates(page: Option<ArticlePage>): (r: (Option<string>, Option<string>))
    ensures page.None? ==> r == (None, None)
    ensures r.0.Some? <==> page.Some? && |page.value.stamps| >= 1
    ensures r.0.Some? ==> r.0.value == page.value.stamps[0]
    ensures r.1.Some? <==> page.Some? && |page.value.stamps| >= 2 && page.value.modifyStamp.Some?
    ensures r.1.Some? ==> r.1.value == page.value.modifyStamp.value
  {
    match page
    case None => (None, None)
    case Some(p) =>
      var published := if |p.stamps| >= 1 then Some(p.stamps[0]) else None;
      var modified := if |p.stamps| >= 2 then p.modifyStamp else None;
      (published, modified)
  }

  /** A listing entry of a sectioned digest (an economics article or a
      headline): its section (sub-section or tab), title, summary, press and
      link. */
  datatype Entry = Entry(section: string, title: string, summary: string, press: string, url: string)

  /** The dates written for an entry: only an entry with a link has its page
      fetched; a page missing from `pages` is a failed fetch. */
  function EntryDates(e: Entry, pages: map<string, ArticlePage>): (Option<string>, Option<string>)
  {
    if e.url != "" then ArticleDates(Lookup(pages, e.url)) else (None, None)
  }

  /** The chunks written for one entry: the date lines only when the date is
      present and non-empty, the other four lines always. */
  function Block(e: Entry, dates: (Option<string>, Option<string>)): seq<string>
  {
    ["제목: " + e.title + "\n", "내용: " + e.summary + "\n", "언론사: " + e.press + "\n"]
    + (if Truthy(dates.0) then ["작성일: " + dates.0.value + "\n"] else [])
    + (if Truthy(dates.1) then ["수정일: " + dates.1.value + "\n"] else [])
    + ["링크: " + e.url + "\n\n", Rule + "\n\n"]
  }

  /** The block of an entry line by line: title, summary and press first,
      then the published and modified dates each only when present and
      non-empty, then the link and the closing rule. */
  lemma BlockShape(e: Entry, dates: (Option<string>, Option<string>))
    ensures var b := Block(e, dates);
            && |b| == 5 + (if Truthy(dates.0) then 1 else 0) + (if Truthy(dates.1) then 1 else 0)
            && b[0] == "제목: " + e.title + "\n"
            && b[1] == "내용: " + e.summary + "\n"
            && b[2] == "언론사: " + e.press + "\n"
            && (Truthy(dates.0) ==> b[3] == "작성일: " + dates.0.value + "\n")
            && (Truthy(dates.1) ==> b[|b| - 3] == "수정일: " + dates.1.value + "\n")
            && b[|b| - 2] == "링크: " + e.url + "\n\n"
            && b[|b| - 1] == Rule + "\n\n"
  {
  }

  function TitleLine(today: string, title: string): string
  {
    "=== " + today + " " + title + " ===\n\n\n"
  }

  function TocLine(idx: nat, name: string): string
  {
    NatToString(idx) + ". === " + name + " ===\n"
  }

  function SectionHeader(name: string): string
  {
    "=== " + name + " ===\n\n"
  }

  /** The table of contents, numbered from 1 in the given order. */
  function Toc(names: seq<string>): seq<string>
  {
    if names == [] then [] else Toc(names[..|names| - 1]) + [TocLine(|names|, names[|names| - 1])]
  }

  /** Line `i` of the table of contents names `names[i]` with number `i + 1`:
      one numbered line per name, none skipped. */
  lemma {:induction false} TocNumbering(names: seq<string>)
    ensures |Toc(names)| == |names|
    ensures forall i :: 0 <= i < |names| ==> Toc(names)[i] == TocLine(i + 1, names[i])
  {
    if names != [] {
      var init := names[..|names| - 1];
      TocNumbering(init);
      forall i | 0 <= i < |names|
        ensures Toc(names)[i] == TocLine(i + 1, names[i])
      {
        if i < |init| {
          assert Toc(names)[i] == Toc(init)[i];
        }
      }
    }
  }

  /** The writer's `current != data[section]` test: a header precedes the
      entry at `i` exactly when it is the first or its section differs from
      the previous entry's. */
  predicate HeaderAt(entries: seq<Entry>, i: nat)
    requires i < |entries|
  {
    i == 0 || entries[i - 1].section != entries[i].section
  }

  /** The chunks for the entry at `i`: the section header if one is due, then
      the entry's block. */
  function EntryChunks(entries: seq<Entry>, i: nat, pages: map<string, ArticlePage>): seq<string>
    requires i < |entries|
  {
    (if HeaderAt(entries, i) then [SectionHeader(entries[i].section)] else [])
    + Block(entries[i], EntryDates(entries[i], pages))
  }

  /** The chunks for the first `n` entries. */
  function Body(entries: seq<Entry>, n: nat, pages: map<string, ArticlePage>): seq<string>
    requires n <= |entries|
  {
    if n == 0 then [] else Body(entries, n - 1, pages) + EntryChunks(entries, n - 1, pages)
  }

  /** The whole digest file. */
  function Digest(today: string, title: string, toc: seq<string>, entries: seq<Entry>,
                  pages: map<string, ArticlePage>): seq<string>
  {
    [TitleLine(today, title), "목차:\n"] + Toc(toc) + ["\n\n"] + Body(entries, |entries|, pages)
  }

  /** The digest writer of the economics and headline crawlers: title line,
      numbered table of contents, then every entry with a header whenever the
      section changes. */
  method WriteDigest(today: string, title: string, toc: seq<string>, entries: seq<Entry>,
                     pages: map<string, ArticlePage>) returns (doc: seq<string>)
    ensures doc == Digest(today, title, toc, entries, pages)
  {
    doc := [TitleLine(today, title)];
    doc := doc + ["목차:\n"];
    var idx := 0;
    while idx < |toc|
      invariant idx <= |toc|
      invariant doc == [TitleLine(today, title), "목차:\n"] + Toc(toc[..idx])
    {
      assert toc[..idx + 1][..idx] == toc[..idx];
      doc := doc + [TocLine(idx + 1, toc[idx])];
      idx := idx + 1;
    }
    assert toc[..idx] == toc;
    doc := doc + ["\n\n"];
    var body := WriteEntries(entries, pages);
    doc := doc + body;
  }

  /** The entry loop of the digest writer: `current` remembers the previous
      entry's section so that a header is written each time it changes. */
  method WriteEntries(entries: seq<Entry>, pages: map<string, ArticlePage>) returns (doc: seq<string>)
    ensures doc == Body(entries, |entries|, pages)
  {
    doc := [];
    var current: Option<string> := None;
    var i := 0;
    while i < |entries|
      invariant i <= |entries|
      invariant doc == Body(entries, i, pages)
      invariant i == 0 ==> current == None
      invariant i > 0 ==> current == Some(entries[i - 1].section)
    {
      var data := entries[i];
      var chunk: seq<string> := [];
      if current != Some(data.section) {
        current := Some(data.section);
        chunk := [SectionHeader(data.section)];
      }
      var dates := (None, None);
      if data.url != "" {
        dates := ArticleDates(Lookup(pages, data.url));
      }
      chunk := chunk + Block(data, dates);
      doc := doc + chunk;
      i := i + 1;
    }
  }

  /** The sections whose header is written, in the order written. */
  function Headers(entries: seq<Entry>, n: nat): seq<string>
    requires n <= |entries|
  {
    if n == 0 then []
    else Headers(entries, n - 1) + (if HeaderAt(entries, n - 1) then [entries[n - 1].section] else [])
  }

  /** Entries that all belong to section `name`. */
  predicate AllIn(g: seq<Entry>, name: string)
  {
    forall e :: e in g ==> e.section == name
  }

  /** Appending a non-empty run of one section, after a run of a different
      section, writes that section's header exactly once. */
  lemma {:induction false} HeadersOfRun(pre: seq<Entry>, g: seq<Entry>, name: string, k: nat)
    requires 1 <= k <= |g| && AllIn(g, name)
    requires pre == [] || pre[|pre| - 1].section != name
    ensures Headers(pre + g, |pre| + k) == Headers(pre + g, |pre|) + [name]
  {
    var e := pre + g;
    assert e[|pre| + k - 1] == g[k - 1];
    if k == 1 {
      assert HeaderAt(e, |pre|);
    } else {
      HeadersOfRun(pre, g, name, k - 1);
      assert e[|pre| + k - 2] == g[k - 2];
      assert !HeaderAt(e, |pre| + k - 1);
    }
  }

  /** Headers of a prefix do not depend on what follows it. */
  lemma {:induction false} HeadersPrefix(pre: seq<Entry>, post: seq<Entry>, n: nat)
    requires n <= |pre|
    ensures Headers(pre + post, n) == Headers(pre, n)
  {
    if n > 0 {
      HeadersPrefix(pre, post, n - 1);
      assert (pre + post)[n - 1] == pre[n - 1];
      if n > 1 {
        assert (pre + post)[n - 2] == pre[n - 2];
      }
    }
  }

  /** When the entries come as consecutive non-empty groups, group `k` all of
      section `names[k]` and neighbouring names different, every section
      header is written exactly once, before the group's first entry: the
      headers are exactly `names`, in order. */
  lemma {:induction false} HeadersOfGroups(groups: seq<seq<Entry>>, names: seq<string>)
    requires |groups| == |names|
    requires forall k :: 0 <= k < |groups| ==> groups[k] != [] && AllIn(groups[k], names[k])
    requires forall k :: 0 < k < |names| ==> names[k - 1] != names[k]
    ensures Headers(Flatten(groups), |Flatten(groups)|) == names
  {
    if groups != [] {
      var n := |groups| - 1;
      var init, last := groups[..n], groups[n];
      assert groups == init + [last];
      FlattenSnoc(init, last);
      var pre := Flatten(init);
      HeadersOfGroups(init, names[..n]);
      if pre != [] {
        LastOfFlatten(init, names[..n]);
      }
      HeadersOfRun(pre, last, names[n], |last|);
      HeadersPrefix(pre, last, |pre|);
      assert names == names[..n] + [names[n]];
    }
  }

  /** The last entry of non-empty groups belongs to the last group's section. */
  lemma {:induction false} LastOfFlatten(groups: seq<seq<Entry>>, names: seq<string>)
    requires |groups| == |names|
    requires forall k :: 0 <= k < |groups| ==> groups[k] != [] && AllIn(groups[k], names[k])
    requires Flatten(groups) != []
    ensures Flatten(groups)[|Flatten(groups)| - 1].section == names[|names| - 1]
  {
    var n := |groups| - 1;
    assert groups == groups[..n] + [groups[n]];
    FlattenSnoc(groups[..n], groups[n]);
    var last := groups[n];
    assert Flatten(groups)[|Flatten(groups)| - 1] == last[|last| - 1];
    assert last[|last| - 1] in last;
  }
}
