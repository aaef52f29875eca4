# news_crawling — a verified model of the crawlers' core

This project models, in Dafny, the five crawler scripts of the news_crawling
repository and proves properties of them:

- the **economics** crawler (`run_economics_crawling.py`) reads the
  sub-section navigation of Naver's economy section, collects the latest
  articles of each sub-section, drops near-duplicates across sub-sections
  (similar title or equal link, first one wins) and writes a sectioned
  digest;
- the **stock-news** crawler (`run_eng_stock_check.py`) lists finviz.com's
  news, picks an extraction strategy for every item by the substrings of its
  link (first match wins), falls back to finviz's own copy of the article
  when no body was found, fills each item in place and writes a digest;
- the **headline** crawler (`run_headline_crawling.py`) reads the headline
  block of six Naver sections and writes a digest whose table of contents
  lists the sections that produced headlines;
- the **editorial** crawler (`run_opinions_crawling.py`) lists today's
  editorials of five newspapers, removes repeated links keeping the first,
  and writes one block per editorial or a failure line;
- the **English-saying** crawler (`crawling_english_saying.py`) finds a
  date, an English quote and its Korean translation in the page text and
  inserts them into the year's quote file unless the date is already there.

Modules: `Text` (Python string operations: `in`, `startswith`, slicing with
an ellipsis, `join`, `strip`, `split()`, `str(n)`), `Naver` (what the Naver
crawlers share: link normalisation, the two article dates, the sectioned
digest writer), and one module per script: `Economics`, `StockNews`,
`Headlines`, `Opinions`, `Quotes`.

Conventions of the model:

- A parsed page is a record holding what the script's locators find: an
  `Option` for a `find`, a sequence for a `find_all`, the text for
  `get_text(strip=True)`.
- Fetching is a lookup in a `map` from URL to page. A URL missing from the
  map is a failed request, and so is the empty URL: `requests.get("")`
  raises, so a navigation item without a link yields no articles.
- A written file is the sequence of the strings passed to `file.write`, in
  order.
- The date, the year and the similarity matcher are parameters.
- Loops of the scripts are methods with loop invariants, each proved equal
  to a specification function. The properties are lemmas about those
  functions.
- `StockNews.EnrichInPlace` updates an array of items in place, as `main`
  updates its dictionaries.

Where the code's evident intent and its behaviour differ, the model follows
the code:

- The economics duplicate test compares links with plain equality, so two
  articles with no link (empty URL) clash and only the first is kept.
- The economics table of contents lists every sub-section from the
  navigation, including those whose articles were all empty or duplicates.
  The headline table of contents lists only sections that produced a
  headline.
- The stock digest always writes the `Date:` and `Content:` lines, empty or
  not.
- The Yahoo body rule takes the first paragraph unless it starts with "By"
  or is shorter than 50 characters; it does not scan for a long paragraph.
- Article links read from the economics listing are written as found. Only
  the navigation links are made absolute.

## Model

| member | source | states |
|---|---|---|
| Text.Truncate | run_economics_crawling.py:90-91 | a text over the cap becomes its first `cap` characters plus "..." (length cap+3); a text within the cap is unchanged |
| Text.Prefix | run_eng_stock_check.py:265 | the slice `s[:n]` has length min(len s, n) and is a prefix of `s` |
| Text.Take | run_economics_crawling.py:74 | the list slice `xs[:n]` has length min(len xs, n) and is a prefix of `xs` |
| Text.Join | run_eng_stock_check.py:332 | joining no parts gives "", one part gives that part, and the first part starts the result |
| Text.Fetched | run_economics_crawling.py:63 | a request for the empty URL fails; any other URL gives the page held for it, or fails when there is none |
| Text.ContainsIff | crawling_english_saying.py:142 | `t in s` holds exactly when `t` occurs in `s` at some index |
| Text.StripLeft | crawling_english_saying.py:60 | `lstrip` drops exactly a leading run of whitespace and leaves a non-space first character |
| Text.StripRight | crawling_english_saying.py:60 | `rstrip` drops exactly a trailing run of whitespace and leaves a non-space last character |
| Text.StripEmptyIff | crawling_english_saying.py:149 | `line.strip() == ""` exactly when every character is whitespace |
| Text.WordsNotEmpty | crawling_english_saying.py:74 | a line with a word (`len(line.split()) > 0`) is non-empty and has a non-space character |
| Text.NatToString | run_economics_crawling.py:180-181 | `str(idx)` is the decimal numeral of `idx`: non-empty, digits only, spelling the number, with no leading zero except for 0 itself |
| Naver.AbsoluteHref | run_opinions_crawling.py:58-59 | a non-empty href not starting with "http" becomes "https://news.naver.com" + href; an empty or http link is kept as it is |
| Naver.AbsoluteHrefEndsWith | run_opinions_crawling.py:58-59 | the normalised link ends with the original link: prefixing only ever adds the site origin in front |
| Naver.AbsoluteHrefIdempotent | run_economics_crawling.py:44-45 | normalising an already normalised link changes nothing |
| Naver.ArticleDates | run_headline_crawling.py:97-120 | no dates for a failed fetch; the published date is the first stamp when there is one; the modified date needs two stamps and the modify element |
| Naver.BlockShape | run_headline_crawling.py:169-177 | an entry block is, line by line, the title, summary and press lines, the 작성일 and 수정일 lines each only for a present, non-empty date, then the link line and the closing rule |
| Naver.TocNumbering | run_economics_crawling.py:179-182 | the table of contents has one line per name, line i numbered i+1 with the i-th name |
| Naver.WriteDigest | run_headline_crawling.py:148-177 | the writer produces exactly the digest: title line, numbered contents, then the entries |
| Naver.WriteEntries | run_economics_crawling.py:184-202 | the entry loop writes a section header exactly when the section differs from the previous entry's, and each entry's block with dates fetched only for a non-empty link |
| Naver.HeadersOfRun | run_headline_crawling.py:158-162 | a run of entries of one section after a different section writes that section's header once |
| Naver.HeadersPrefix | run_headline_crawling.py:158-162 | the headers written for a prefix do not depend on later entries |
| Naver.HeadersOfGroups | run_headline_crawling.py:158-162 | for consecutive non-empty groups with neighbouring names different, the headers written are exactly the group names in order |
| Naver.LastOfFlatten | run_headline_crawling.py:144 | the last entry of non-empty concatenated groups belongs to the last group's section |
| Economics.SubsectionsOf | run_economics_crawling.py:38-46 | one sub-section per navigation item with a link element, each link empty or starting with "http" |
| Economics.SubsectionsOfItems | run_economics_crawling.py:38-46 | the sub-sections are exactly the linked navigation items in order: the item at k gives, at the position counting the linked items before it, its link text and its href made absolute |
| Economics.GetSubsections | run_economics_crawling.py:22-51 | the navigation loop returns exactly the sub-sections of the items, none when the page or navigation is missing |
| Economics.ItemArticle | run_economics_crawling.py:82-102 | an item yields an article exactly when it has a title element, with the sub-section, the title, the verbatim link, the lede cut to 70 plus "..." and the press text (or "") |
| Economics.ItemsArticles | run_economics_crawling.py:80-104 | one article per titled item, all of the sub-section, every summary at most 73 characters |
| Economics.CrawlSubsectionArticles | run_economics_crawling.py:54-109 | the listing loop reads only the first four containers of the latest block (exact class, else partial match) and returns their articles |
| Economics.ReadItems | run_economics_crawling.py:79-104 | the item loop returns the articles of the titled items of one list |
| Economics.ItemsArticlesAppend | run_economics_crawling.py:80-104 | the articles of two item lists are the concatenation of their articles |
| Economics.UntitledItemSkipped | run_economics_crawling.py:82-84 | an item without a title is skipped and the items after it are still read |
| Economics.ContainersBeyondFourIgnored | run_economics_crawling.py:74 | containers after the fourth never change a sub-section's articles |
| Economics.SimilarityBoundary | run_economics_crawling.py:17-19 | a ratio of exactly 0.8 is not similar, a higher ratio is, and two empty titles (ratio 1) are similar |
| Economics.CollectArticles | run_economics_crawling.py:159-171 | the collection loops produce exactly the deduplicated articles of all sub-sections in configuration order |
| Economics.AcceptArticles | run_economics_crawling.py:163-170 | the article loop of one sub-section accepts exactly the candidates that clash with no accepted article |
| Economics.FindDuplicate | run_economics_crawling.py:164-168 | the innermost loop reports a duplicate exactly when some accepted article has a similar title or the same link |
| Economics.AcceptKeepsNoClash | run_economics_crawling.py:163-170 | no accepted article clashes with an earlier accepted one |
| Economics.AcceptIsSubsequence | run_economics_crawling.py:169-170 | accepting only appends, and what is appended is an order-preserving subsequence of the candidates |
| Economics.AcceptStep | run_economics_crawling.py:163-170 | first seen wins: what is kept after the first p candidates is a prefix of the result, and candidate p is appended exactly when it clashes with no article kept before it |
| Economics.AcceptCovers | run_economics_crawling.py:164-168 | every accepted and every offered article clashes with some accepted article, so each rejection is explained by a kept article |
| Economics.AcceptNothingNew | run_economics_crawling.py:164-170 | candidates that all clash with the accepted list add nothing |
| Economics.AcceptIdempotent | run_economics_crawling.py:159-171 | deduplicating the same candidates again against the result accepts nothing new |
| Economics.AcceptAppend | run_economics_crawling.py:160-170 | offering two lists in turn is offering their concatenation |
| Economics.AcceptSectionsIsFlat | run_economics_crawling.py:159-171 | deduplicating sub-section by sub-section is deduplicating the concatenation: comparisons cross sub-sections |
| Economics.CollectedArticlesSound | run_economics_crawling.py:159-171 | the kept articles have no clash and keep the listing order; every collected article clashes with a kept one; and first seen wins: each article is appended exactly when it clashes with no article kept before it, and later articles never change what was kept |
| Economics.Names | run_economics_crawling.py:180-181 | the contents list one name per configured sub-section, in order |
| Economics.RunEconomics | run_economics_crawling.py:138-205 | `main` returns the number of kept articles and writes the digest of all sub-section names and the kept articles |
| StockNews.SplitListingUrl | run_eng_stock_check.py:73-76 | a non-empty relative link becomes the finviz link, which is also the finviz copy; any other link is kept and has no copy |
| StockNews.RawLink | run_eng_stock_check.py:65-70 | the listing link is the onclick handler's URL, else the anchor's `href`, else "" |
| StockNews.RowItem | run_eng_stock_check.py:52-98 | a row yields an item exactly when it has the link cell, the badge container and an anchor; the item has the first anchor's text, its onclick URL or href split into link and finviz copy, the badge labels, the date cell's text as press, and no time or body |
| StockNews.RowsItems | run_eng_stock_check.py:50-101 | a table yields exactly one item per row that makes one, and none for any other row |
| StockNews.RowsItemsAt | run_eng_stock_check.py:50-101 | the items are the rows' items in row order: a row that makes an item puts it at the position counting the item-making rows before it |
| StockNews.ReadRows | run_eng_stock_check.py:50-101 | the row loop returns exactly the items of the rows that have the expected cells |
| StockNews.CrawlFinvizNews | run_eng_stock_check.py:21-108 | the listing returns the items of every news table in order, none when the page or its news block is missing |
| StockNews.TruncateIsExcerpt | run_eng_stock_check.py:142 | a body cut at 300 characters is an excerpt: at most 300 characters or 300 plus "..." |
| StockNews.FirstLong | run_eng_stock_check.py:139-143 | the index found is the first paragraph longer than 80 characters, or none exists |
| StockNews.ScanFinvizBody | run_eng_stock_check.py:137-152 | the scan with its `break` returns the finviz body: first long paragraph, else the first three joined |
| StockNews.FinvizBodyChoice | run_eng_stock_check.py:137-152 | the earliest paragraph over 80 characters wins; without one the first three are joined; the body is an excerpt |
| StockNews.FinvizPageDetail | run_eng_stock_check.py:111-155 | no result exactly when the page or its news wrapper is missing; otherwise the long date (or "") and the finviz body rule's body, an excerpt |
| StockNews.FirstMatch | run_eng_stock_check.py:177-260 | the entry found is the first whose substrings occur in the link, or none does |
| StockNews.DispatchFirstMatch | run_eng_stock_check.py:177-260 | a link goes to strategy k exactly when k matches and no earlier entry does; it goes to no strategy exactly when none matches |
| StockNews.YahooBeforePrNewswire | run_eng_stock_check.py:186-206 | a link naming both Yahoo and PR Newswire is handled by Yahoo |
| StockNews.Strategy | run_eng_stock_check.py:186-274 | every strategy's body is an excerpt; Yahoo gives its time element and the by-line rule's paragraph cut to 300; NewsFileCorp gives the release text's first 100 characters and the unstyled paragraphs joined by spaces, cut to 300; an unknown source gives nothing |
| StockNews.Primary | run_eng_stock_check.py:177-276 | the primary extraction's body is an excerpt |
| StockNews.DetailBodyIsExcerpt | run_eng_stock_check.py:158-291 | whichever path found it, the body is an excerpt |
| StockNews.FallbackNonDestructive | run_eng_stock_check.py:281-289 | the fallback runs only without a body and with a finviz copy and never replaces a found time; when it runs and the copy was read it adopts the copy's non-empty body, and its non-empty time when none was found |
| StockNews.UnmatchedIsEmpty | run_eng_stock_check.py:276-291 | a link no strategy knows and without finviz copy gets no time and no body |
| StockNews.FetchArticleDetail | run_eng_stock_check.py:158-291 | the chain of substring tests, the branches and the fallback compute exactly the specified detail |
| StockNews.YahooDetail | run_eng_stock_check.py:186-204 | the Yahoo branch computes the Yahoo strategy: the time element's text and the by-line rule's paragraph cut to an excerpt |
| StockNews.ReleaseDetail | run_eng_stock_check.py:206-244 | the PR Newswire, BusinessWire and GlobeNewswire branches give the time element's text and the body element cut to an excerpt |
| StockNews.InvestopediaDetail | run_eng_stock_check.py:246-258 | the Investopedia branch computes the Investopedia strategy |
| StockNews.NewsFileCorpDetail | run_eng_stock_check.py:260-274 | the NewsFileCorp branch computes the NewsFileCorp strategy: the release text's first 100 characters and the unstyled paragraphs joined, cut to an excerpt |
| StockNews.MatchesOne | run_eng_stock_check.py:178 | a one-substring entry matches exactly when the substring occurs |
| StockNews.MatchesTwo | run_eng_stock_check.py:206 | the PR Newswire entry matches exactly when either of its substrings occurs |
| StockNews.DispatchChain | run_eng_stock_check.py:177-260 | the registry picks the same strategy as the script's if/elif chain |
| StockNews.RegistryTests | run_eng_stock_check.py:177-260 | each registry entry's patterns match a link exactly when the chain's test for that site does |
| StockNews.DispatchAt | run_eng_stock_check.py:177-260 | a link that entry k matches and no earlier entry matches goes to strategy k |
| StockNews.YahooParagraph | run_eng_stock_check.py:200-203 | a first paragraph that starts with "By" or is shorter than 50 characters gives way to the second when there is one; otherwise the first is taken |
| StockNews.Unstyled | run_eng_stock_check.py:268-273 | the style filter keeps one text per paragraph without a style |
| StockNews.UnstyledTexts | run_eng_stock_check.py:268-273 | the style filter keeps exactly the unstyled paragraphs' texts, in order: the unstyled paragraph at k is at the position counting the unstyled paragraphs before it |
| StockNews.Enriched | run_eng_stock_check.py:321-324 | enrichment keeps the number of items |
| StockNews.EnrichInPlace | run_eng_stock_check.py:321-324 | each item's time and body are replaced in place by its detail, nothing else changes |
| StockNews.WriteItems | run_eng_stock_check.py:329-336 | the writer loop writes seven lines per item, in order |
| StockNews.RunStockNews | run_eng_stock_check.py:294-339 | an empty listing writes the "no news" document and returns 0; otherwise every item is enriched, the digest written and the item count returned |
| Headlines.ItemUrl | run_headline_crawling.py:71-76 | the title link is preferred to the first other link; of the chosen link a truthy `data-imp-url` wins, else its `href` (or ""); no link gives "" |
| Headlines.ItemHeadline | run_headline_crawling.py:56-85 | an item is recorded exactly when its headline is non-empty, with the section, the lede cut to 70 plus "..." as summary, the preferred link and the press |
| Headlines.ItemsHeadlines | run_headline_crawling.py:54-87 | one headline per item with a non-empty headline text and none for any other item, all of the section and non-empty |
| Headlines.ItemsHeadlinesAt | run_headline_crawling.py:54-87 | the headlines follow the items in order: an item with a headline text puts its headline at the position counting such items before it |
| Headlines.SectionHeadlines | run_headline_crawling.py:27-94 | every headline of a section carries that section's name and a non-empty title |
| Headlines.CrawlSectionHeadlines | run_headline_crawling.py:27-94 | the item loop over the `div` items, else the `li` items, of the exact or loosely matched block returns exactly the section's headlines |
| Headlines.CollectHeadlines | run_headline_crawling.py:140-145 | the section loop returns the names of sections with headlines and the concatenation of their headlines |
| Headlines.GroupsMatchNames | run_headline_crawling.py:140-144 | one non-empty group per listed name, all of that section; names distinct; a section is listed exactly when it produced a headline |
| Headlines.GroupsOfNames | run_headline_crawling.py:140-144 | one group per listed name, non-empty and all of that section |
| Headlines.NamesListed | run_headline_crawling.py:140-144 | a name is listed exactly when some section of that name produced a headline |
| Headlines.NamesDistinct | run_headline_crawling.py:140-144 | sections with distinct names give distinct listed names |
| Headlines.HeadersMatchToc | run_headline_crawling.py:151-162 | the section headers written in the body are exactly the table of contents, in order |
| Headlines.RunHeadlines | run_headline_crawling.py:123-179 | `main` writes the digest of the listed sections and their headlines |
| Opinions.ItemsListed | run_opinions_crawling.py:53-63 | one editorial per item with a link, of that newspaper, its link empty or starting with "http" |
| Opinions.ListedItems | run_opinions_crawling.py:53-63 | the editorials follow the items in order: an item with a link puts its absolute link, with the newspaper, at the position counting the linked items before it |
| Opinions.ListedCount | run_opinions_crawling.py:55-61 | the editorials appended are exactly the items with a link that are counted |
| Opinions.ReadEditorialItems | run_opinions_crawling.py:51-63 | the item loop returns the editorials of the items and `count` equals their number |
| Opinions.FetchEditorialList | run_opinions_crawling.py:28-71 | the newspaper loop returns the editorials of the five newspapers in order, none for a failed page or missing list |
| Opinions.DedupEditorials | run_opinions_crawling.py:137-144 | the `seen_urls` loop returns exactly the first-wins de-duplication |
| Opinions.DedupFromSound | run_opinions_crawling.py:140-143 | the links kept are the input's links not seen before, none twice |
| Opinions.DedupFromSubseq | run_opinions_crawling.py:140-143 | the kept entries are the input with entries left out, order kept |
| Opinions.DedupFromFirstWins | run_opinions_crawling.py:140-143 | the first entry of every unseen link is kept, with its newspaper |
| Opinions.DedupFromDistinct | run_opinions_crawling.py:140-143 | a list without repeated, unseen links is left unchanged |
| Opinions.DedupSound | run_opinions_crawling.py:137-144 | de-duplication keeps every link of the input, none twice, in input order, each with its first entry |
| Opinions.DedupIdempotent | run_opinions_crawling.py:137-144 | de-duplicating twice is de-duplicating once |
| Opinions.DistinctCount | run_opinions_crawling.py:173 | a list without repeated links has as many entries as distinct links |
| Opinions.DedupCount | run_opinions_crawling.py:144-173 | the de-duplicated list has one entry per distinct link collected |
| Opinions.BodyOf | run_opinions_crawling.py:98-103 | the body comes from class `_article_body`, else id `newsct_article`, else class `newsct_article`, else "" |
| Opinions.EditorialContent | run_opinions_crawling.py:74-114 | no content exactly for a failed fetch; otherwise the headline (or ""), the shared dates and the located body |
| Opinions.EditorialChunksShape | run_opinions_crawling.py:157-170 | a failed editorial is one line naming its link; a read one is 5 to 7 chunks opening with its newspaper and naming its link |
| Opinions.WriteEditorials | run_opinions_crawling.py:156-170 | the writing loop writes a block or a failure line for every editorial and continues past failures |
| Opinions.RunOpinions | run_opinions_crawling.py:117-173 | `main` returns the number of distinct links; no editorial writes the "no editorials" document and returns 0 |
| Quotes.ContainsHangul | crawling_english_saying.py:24-26 | the text contains Hangul exactly when some character lies in U+AC00..U+D7A3 |
| Quotes.Split | crawling_english_saying.py:60 | `split("\n")` gives at least one piece and no piece contains a newline |
| Quotes.SplitJoin | crawling_english_saying.py:60 | joining the pieces with the separator gives the text back |
| Quotes.NonBlank | crawling_english_saying.py:60 | the kept lines are non-empty, start and end with a non-space, and are no more than the parts |
| Quotes.StripAll | crawling_english_saying.py:60 | every line is stripped, one result per line, a non-empty one without space at either end |
| Quotes.NonEmpty | crawling_english_saying.py:60 | the filter keeps one line per non-empty line, each non-empty and from the input |
| Quotes.NonBlankLines | crawling_english_saying.py:60 | the comprehension keeps exactly the non-blank lines, stripped, in order: a non-blank line at k is, stripped, at the position counting the non-blank lines before it |
| Quotes.StripEnds | crawling_english_saying.py:60 | a non-empty stripped line starts and ends with a non-space |
| Quotes.DateIndex | crawling_english_saying.py:62-69 | the index found is the leftmost at which `\d{4}-\d{2}-\d{2}` matches, or none matches |
| Quotes.FindDate | crawling_english_saying.py:69-71 | a match exists exactly when the pattern occurs; the match is the ten characters of the line at the leftmost date index |
| Quotes.FirstFrom | crawling_english_saying.py:67-80 | each phase takes the first accepted line at or after its start, or there is none |
| Quotes.QuoteOrder | crawling_english_saying.py:67-87 | a returned quote comes from lines i < j < k, the date from the first line with a date, and no part is empty |
| Quotes.ScanQuote | crawling_english_saying.py:67-87 | the line loop with its `continue`s, `break` and final test returns exactly the specified quote |
| Quotes.FetchLatestQuote | crawling_english_saying.py:29-87 | a failed request gives no quote; otherwise the quote of the page's stripped non-blank lines |
| Quotes.BreakIndex | crawling_english_saying.py:146 | the index found is the first line boundary from the start, or the end |
| Quotes.SplitLines | crawling_english_saying.py:146 | `splitlines` gives no line exactly for "", and lines without boundary characters |
| Quotes.SplitLinesJoin | crawling_english_saying.py:146 | for text whose only boundary is "\n", joining the lines with "\n" gives the text back, less a final "\n" |
| Quotes.FirstBlank | crawling_english_saying.py:148-151 | the index found is the first blank line, or there is none |
| Quotes.InsertIndex | crawling_english_saying.py:147-151 | the insert index never exceeds the number of lines |
| Quotes.FindInsertIndex | crawling_english_saying.py:146-151 | the scan returns one past the first blank line, or 0 |
| Quotes.WithEntryShape | crawling_english_saying.py:153-154 | the new lines are the old ones with exactly six lines inserted at the index, the old ones in order |
| Quotes.InsertResult | crawling_english_saying.py:112-160 | no quote fails and changes nothing; a date already present succeeds without change; a missing file without desktop fails; success leaves a file that contains the quote's date |
| Quotes.InsertLatestQuote | crawling_english_saying.py:112-160 | the insertion computes exactly the specified result |
| Quotes.ContainsAfterPrefix | crawling_english_saying.py:142 | a text containing the date still contains it with anything before it |
| Quotes.JoinContainsPart | crawling_english_saying.py:157 | every line joined into the file occurs in it |
| Quotes.InsertIdempotent | crawling_english_saying.py:142-160 | inserting the same quote again succeeds and changes nothing |
| Quotes.RunQuotes | crawling_english_saying.py:163-164 | the run inserts the fetched quote |

## Left out

- HTTP requests, timeouts, politeness sleeps, logging and console output are left out. Pages are inputs, and a failed request is the empty URL or a URL missing from the page map.
- `http_utils.py`, `daily_runner.py` and `run_combined.py` are not part of this model. They are fetch, retry, scheduling and shortcut plumbing.
- BeautifulSoup's `find`, `find_all` and `get_text` are left out. A page is a record of what each locator finds.
- The headline block's loose class match, the economics `section_latest` partial match and the finviz `news-content` lookup are each one optional field. Their matching is not modelled.
- Economics.AreSimilar: difflib's matching-block count is a parameter (`matches`). The model fixes the ratio as 2M/T (1 when both titles are empty) and the strict comparison with 0.8; it does not compute M.
- The finviz onclick regex and the long-date regex are extractors whose results are page fields (`Anchor.onclickUrl`, `FinvizWrapper.dateMatch`).
- Quotes.FindDate: matches ASCII digits only, while Python's `\d` also matches other Unicode decimal digits.
- The regex tag-stripping path of `fetch_latest_quote`, used when BeautifulSoup is missing, is left out. The page text is an input either way.
- Exceptions other than a failed fetch are left out: a parse error inside one item, one strategy or one page. Locator queries are total in the model, so the `except: continue` paths never fire.
- Paths, directory creation, `datetime.today()` and the file encoding are left out. The date strings and the year are parameters, and a written file is its sequence of `write` chunks.
- Quotes.SplitLinesJoin: the join-back round trip is stated only for text whose line boundaries are all "\n". With "\r", "\r\n" or the other boundaries `splitlines` knows, joining with "\n" does not give the text back, in Python either.
- Quotes.InsertResult: creating the file is modelled only as "succeeds when the desktop folder exists". A write that fails for another reason is not modelled.
- Headlines.RunHeadlines: the script's `main` returns nothing, so the model returns only the document.
