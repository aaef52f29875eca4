/** The daily English-saying crawler: it finds the date, the English quote
    and its Korean translation in the text of the Hackers page, and inserts
    them after the first blank line of the year's quote file unless that
    date is already there. */
module Quotes {
  import opened Text

  // ---------------------------------------------------------------------
  // Text of the page

  /** A precomposed Hangul syllable, U+AC00 to U+D7A3. */
  predicate IsHangul(c: char)
  {
    '\U{AC00}' <= c <= '\U{D7A3}'
  }

  /** `contains_hangul`: the `any(...)` scan over the characters. */
  predicate ContainsHangul(s: string)
    ensures ContainsHangul(s) <==> exists i :: 0 <= i < |s| && IsHangul(s[i])
  {
    |s| > 0 && (IsHangul(s[0]) || ContainsHangul(s[1..]))
  }

  /** Python `s.split(sep)` for a one-character separator: the pieces
      between separators, so one more piece than separators. */
  function Split(s: string, sep: char): (r: seq<string>)
    ensures |r| >= 1
    ensures forall k :: 0 <= k < |r| ==> sep !in r[k]
  {
    if s == [] then [""]
    else
      var rest := Split(s[1..], sep);
      if s[0] == sep then [""] + rest
      else [[s[0]] + rest[0]] + rest[1..]
  }

  /** Splitting and joining back with the same separator gives the text
      back. */
  lemma {:induction false} SplitJoin(s: string, sep: char)
    ensures Join(Split(s, sep), [sep]) == s
  {
    if s != [] {
      var rest := Split(s[1..], sep);
      SplitJoin(s[1..], sep);
      if s[0] == sep {
        assert ([""] + rest)[1..] == rest;
      } else if |rest| > 1 {
        var parts := [[s[0]] + rest[0]] + rest[1..];
        assert parts[1..] == rest[1..];
        assert Join(rest, [sep]) == rest[0] + [sep] + Join(rest[1..], [sep]);
      }
    }
  }

  /** Every part stripped: `line.strip()` for each line. */
  function StripAll(parts: seq<string>): (r: seq<string>)
    ensures |r| == |parts|
    ensures forall k :: 0 <= k < |r| ==> r[k] == Strip(parts[k])
    ensures forall k :: 0 <= k < |r| && r[k] != "" ==> !IsSpace(r[k][0]) && !IsSpace(r[k][|r[k]| - 1])
  {
    forall k | 0 <= k < |parts| {
      StripEnds(parts[k]);
    }
    seq(|parts|, k requires 0 <= k < |parts| => Strip(parts[k]))
  }

  /** Number of non-empty lines. */
  function NonEmptyCount(ls: seq<string>): nat
  {
    if ls == [] then 0
    else NonEmptyCount(ls[..|ls| - 1]) + (if ls[|ls| - 1] != "" then 1 else 0)
  }

  /** The non-empty lines, in order. */
  function NonEmpty(ls: seq<string>): (r: seq<string>)
    ensures |r| == NonEmptyCount(ls) <= |ls|
    ensures forall k :: 0 <= k < |r| ==> r[k] != "" && r[k] in ls
  {
    if ls == [] then []
    else
      var init := NonEmpty(ls[..|ls| - 1]);
      assert forall x :: x in ls[..|ls| - 1] ==> x in ls;
      if ls[|ls| - 1] != "" then init + [ls[|ls| - 1]] else init
  }

  /** The filter keeps exactly the non-empty lines, in order: the line at
      `k`, when non-empty, is at the position that counts the non-empty
      lines before it. */
  lemma {:induction false} NonEmptyLine(ls: seq<string>, k: nat)
    requires k < |ls| && ls[k] != ""
    ensures NonEmptyCount(ls[..k]) < |NonEmpty(ls)| && NonEmpty(ls)[NonEmptyCount(ls[..k])] == ls[k]
  {
    var n := |ls| - 1;
    var init := ls[..n];
    assert ls[..n] == init;
    var r0 := NonEmpty(init);
    assert NonEmpty(ls) == if ls[n] != "" then r0 + [ls[n]] else r0;
    if k < n {
      NonEmptyLine(init, k);
      assert ls[..k] == init[..k] && ls[k] == init[k];
    } else {
      assert ls[..k] == init;
    }
  }

  /** `[line.strip() for line in parts if line.strip()]`. */
  function NonBlank(parts: seq<string>): (r: seq<string>)
    ensures |r| <= |parts|
    ensures forall k :: 0 <= k < |r| ==> r[k] != "" && !IsSpace(r[k][0]) && !IsSpace(r[k][|r[k]| - 1])
  {
    NonEmpty(StripAll(parts))
  }

  /** The comprehension keeps exactly the non-blank parts, stripped, in
      order: the part at `k` that is not blank gives the line at the
      position that counts the non-blank parts before it; blank parts give
      nothing. */
  lemma NonBlankLines(parts: seq<string>)
    ensures forall k :: 0 <= k < |parts| && Strip(parts[k]) != "" ==>
              var before := NonEmptyCount(StripAll(parts[..k]));
              before < |NonBlank(parts)| && NonBlank(parts)[before] == Strip(parts[k])
  {
    var ls := StripAll(parts);
    forall k | 0 <= k < |parts| && Strip(parts[k]) != ""
      ensures var before := NonEmptyCount(StripAll(parts[..k]));
              before < |NonBlank(parts)| && NonBlank(parts)[before] == Strip(parts[k])
    {
      assert StripAll(parts[..k]) == ls[..k];
      NonEmptyLine(ls, k);
    }
  }

  /** A non-empty stripped text starts and ends with a non-space. */
  lemma StripEnds(s: string)
    ensures Strip(s) != "" ==> !IsSpace(Strip(s)[0]) && !IsSpace(Strip(s)[|Strip(s)| - 1])
  {
    var l := StripLeft(s);
    if Strip(s) != "" {
      assert Strip(s)[0] == l[0];
    }
  }

  /** The lines the scan reads: the page text split at newlines, each
      stripped, blank ones dropped. */
  function PageLines(pageText: string): seq<string>
  {
    NonBlank(Split(pageText, '\n'))
  }

  // ---------------------------------------------------------------------
  // The date pattern `\d{4}-\d{2}-\d{2}`

  /** A date of the pattern starts at index `i` of `s`. */
  predicate DateAt(s: string, i: nat)
  {
    i + 10 <= |s|
    && IsDigit(s[i]) && IsDigit(s[i + 1]) && IsDigit(s[i + 2]) && IsDigit(s[i + 3]) && s[i + 4] == '-'
    && IsDigit(s[i + 5]) && IsDigit(s[i + 6]) && s[i + 7] == '-'
    && IsDigit(s[i + 8]) && IsDigit(s[i + 9])
  }

  /** The leftmost index from `from` at which a date starts. */
  function DateIndex(s: string, from: nat): (r: Option<nat>)
    ensures r.Some? ==> from <= r.value && DateAt(s, r.value)
    ensures r.Some? ==> forall j :: from <= j < r.value ==> !DateAt(s, j)
    ensures r.None? ==> forall j :: from <= j < |s| ==> !DateAt(s, j)
    decreases |s| - from
  {
    if from + 10 > |s| then None
    else if DateAt(s, from) then Some(from)
    else DateIndex(s, from + 1)
  }

  /** `date_pattern.search(line)`: the leftmost match, ten characters. */
  function FindDate(s: string): (r: Option<string>)
    ensures r.Some? ==> |r.value| == 10 && DateAt(r.value, 0)
    ensures r.Some? <==> exists i: nat :: DateAt(s, i)
    ensures r.Some? ==> DateIndex(s, 0).Some? && r.value == s[DateIndex(s, 0).value..DateIndex(s, 0).value + 10]
  {
    match DateIndex(s, 0)
    case None => None
    case Some(i) => Some(s[i..i + 10])
  }

  // ---------------------------------------------------------------------
  // The scan (`fetch_latest_quote`)

  datatype LineKind = DateLine | EnglishLine | KoreanLine

  /** What each phase of the scan accepts: a line with a date; a line
      without Hangul and with at least five words; a line with Hangul and
      at least ten characters. */
  predicate Accepts(kind: LineKind, line: string)
  {
    match kind
    case DateLine => FindDate(line).Some?
    case EnglishLine => !ContainsHangul(line) && WordCount(line) >= 5
    case KoreanLine => ContainsHangul(line) && |line| >= 10
  }

  /** The first line from `from` that `kind` accepts. */
  function FirstFrom(lines: seq<string>, from: nat, kind: LineKind): (r: Option<nat>)
    ensures r.Some? ==> from <= r.value < |lines| && Accepts(kind, lines[r.value])
    ensures r.Some? ==> forall j :: from <= j < r.value ==> !Accepts(kind, lines[j])
    ensures r.None? ==> forall j :: from <= j < |lines| ==> !Accepts(kind, lines[j])
    decreases |lines| - from
  {
    if from >= |lines| then None
    else if Accepts(kind, lines[from]) then Some(from)
    else FirstFrom(lines, from + 1, kind)
  }

  datatype Quote = Quote(date: string, english: string, korean: string)

  /** The quote the page gives: the date of the first line with a date,
      the first English line after it, the first Korean line after that;
      None unless all three exist. */
  function QuoteOf(lines: seq<string>): Option<Quote>
  {
    match FirstFrom(lines, 0, DateLine)
    case None => None
    case Some(i) =>
      match FirstFrom(lines, i + 1, EnglishLine)
      case None => None
      case Some(j) =>
        match FirstFrom(lines, j + 1, KoreanLine)
        case None => None
        case Some(k) => Some(Quote(FindDate(lines[i]).value, lines[j], lines[k]))
  }

  /** The three lines of a quote come in page order, each the first of its
      kind after the previous one, and none of the three parts is empty. */
  lemma QuoteOrder(lines: seq<string>)
    requires QuoteOf(lines).Some?
    ensures exists i, j, k :: 0 <= i < j < k < |lines|
              && FindDate(lines[i]) == Some(QuoteOf(lines).value.date)
              && lines[j] == QuoteOf(lines).value.english
              && lines[k] == QuoteOf(lines).value.korean
              && (forall l :: 0 <= l < i ==> FindDate(lines[l]).None?)
    ensures QuoteOf(lines).value.date != "" && QuoteOf(lines).value.english != ""
    ensures |QuoteOf(lines).value.korean| >= 10
  {
    var i := FirstFrom(lines, 0, DateLine).value;
    var j := FirstFrom(lines, i + 1, EnglishLine).value;
    var k := FirstFrom(lines, j + 1, KoreanLine).value;
    var q := QuoteOf(lines).value;
    assert q == Quote(FindDate(lines[i]).value, lines[j], lines[k]);
    assert FindDate(lines[i]) == Some(q.date);
    WordsNotEmpty(lines[j]);
    forall l | 0 <= l < i
      ensures FindDate(lines[l]).None?
    {
      assert !Accepts(DateLine, lines[l]);
    }
    assert 0 <= i < j < k < |lines| && FindDate(lines[i]) == Some(q.date) && lines[j] == q.english && lines[k] == q.korean;
  }

  /** The line loop of `fetch_latest_quote`, with its `continue`s and its
      `break`, and the final truthiness test. */
  method ScanQuote(lines: seq<string>) returns (r: Option<Quote>)
    ensures r == QuoteOf(lines)
  {
    var date: Option<string> := None;
    var english: Option<string> := None;
    var korean: Option<string> := None;
    ghost var d := FirstFrom(lines, 0, DateLine);
    ghost var e := if d.Some? then FirstFrom(lines, d.value + 1, EnglishLine) else None;
    var i := 0;
    while i < |lines|
      invariant i <= |lines|
      invariant date.Some? <==> d.Some? && d.value < i
      invariant date.Some? ==> date.value == FindDate(lines[d.value]).value
      invariant english.Some? <==> e.Some? && e.value < i
      invariant english.Some? ==> english.value == lines[e.value]
      invariant english.Some? ==> forall l :: e.value < l < i ==> !Accepts(KoreanLine, lines[l])
      invariant korean.None?
    {
      var line := lines[i];
      if date.None? {
        var m := FindDate(line);
        if m.Some? {
          date := m;
          i := i + 1;
          continue;
        }
      }
      if date.Some? && english.None? {
        if !ContainsHangul(line) && WordCount(line) >= 5 {
          english := Some(line);
          i := i + 1;
          continue;
        }
      }
      if english.Some? && korean.None? {
        if ContainsHangul(line) && |line| >= 10 {
          korean := Some(line);
          break;
        }
      }
      i := i + 1;
    }
    if date.Some? && english.Some? && korean.Some? {
      WordsNotEmpty(english.value);
    }
    if Truthy(date) && Truthy(english) && Truthy(korean) {
      r := Some(Quote(date.value, english.value, korean.value));
    } else {
      r := None;
    }
  }

  /** `fetch_latest_quote`: `pageText` is the page's text, or None when the
      request failed. */
  method FetchLatestQuote(pageText: Option<string>) returns (r: Option<Quote>)
    ensures pageText.None? ==> r.None?
    ensures pageText.Some? ==> r == QuoteOf(PageLines(pageText.value))
  {
    if pageText.None? {
      return None;
    }
    var lines := PageLines(pageText.value);
    r := ScanQuote(lines);
  }

  // ---------------------------------------------------------------------
  // The quote file (`insert_latest_quote`)

  /** Python's line boundaries for `str.splitlines`. */
  predicate IsLineBreak(c: char)
  {
    c == '\n' || c == '\r' || c == '\U{0B}' || c == '\U{0C}' || ('\U{1C}' <= c <= '\U{1E}')
    || c == '\U{85}' || c == '\U{2028}' || c == '\U{2029}'
  }

  /** The first line boundary at or after `from`, or `|s|`. */
  function BreakIndex(s: string, from: nat): (r: nat)
    requires from <= |s|
    ensures from <= r <= |s|
    ensures r < |s| ==> IsLineBreak(s[r])
    ensures forall j :: from <= j < r ==> !IsLineBreak(s[j])
    decreases |s| - from
  {
    if from == |s| || IsLineBreak(s[from]) then from else BreakIndex(s, from + 1)
  }

  /** Python `s.splitlines()`: the lines without their boundaries, "\r\n"
      counting as one boundary, and no empty line after a final boundary. */
  function SplitLines(s: string): (r: seq<string>)
    ensures forall k, j :: 0 <= k < |r| && 0 <= j < |r[k]| ==> !IsLineBreak(r[k][j])
    ensures s == "" <==> r == []
    decreases |s|
  {
    if s == "" then []
    else
      var b := BreakIndex(s, 0);
      if b == |s| then [s]
      else if s[b] == '\r' && b + 1 < |s| && s[b + 1] == '\n' then [s[..b]] + SplitLines(s[b + 2..])
      else [s[..b]] + SplitLines(s[b + 1..])
  }

  /** Text whose only line boundary is "\n". */
  predicate OnlyNewlines(s: string)
  {
    forall j :: 0 <= j < |s| && IsLineBreak(s[j]) ==> s[j] == '\n'
  }

  /** The "\n" that ends a text, if one does. */
  function FinalNewline(s: string): string
  {
    if s != "" && s[|s| - 1] == '\n' then "\n" else ""
  }

  /** For text whose only line boundary is "\n", joining the lines with
      "\n" gives the text back, less a final "\n". */
  lemma {:induction false} SplitLinesJoin(s: string)
    requires OnlyNewlines(s)
    ensures Join(SplitLines(s), "\n") + FinalNewline(s) == s
    decreases |s|
  {
    if s != "" {
      var b := BreakIndex(s, 0);
      if b < |s| {
        SplitLinesAtNewline(s, b);
        OnlyNewlinesSuffix(s, b + 1);
        SplitLinesJoin(s[b + 1..]);
        JoinAfterNewline(s, b, SplitLines(s[b + 1..]));
      }
    }
  }

  /** The inductive step of `SplitLinesJoin`: a first line, "\n", and lines
      that join back to the rest, join back to the whole. */
  lemma JoinAfterNewline(s: string, b: nat, ls: seq<string>)
    requires b < |s| && s[b] == '\n'
    requires ls == [] <==> s[b + 1..] == ""
    requires Join(ls, "\n") + FinalNewline(s[b + 1..]) == s[b + 1..]
    ensures Join([s[..b]] + ls, "\n") + FinalNewline(s) == s
  {
    var rest := s[b + 1..];
    assert s == s[..b] + "\n" + rest;
    if ls != [] {
      JoinCons(s[..b], ls, "\n");
      assert s[|s| - 1] == rest[|rest| - 1];
    }
  }

  /** A suffix of text with only "\n" boundaries has only those too. */
  lemma OnlyNewlinesSuffix(s: string, i: nat)
    requires OnlyNewlines(s) && i <= |s|
    ensures OnlyNewlines(s[i..])
  {
    forall j | 0 <= j < |s[i..]| && IsLineBreak(s[i..][j]) ensures s[i..][j] == '\n' {
      assert s[i..][j] == s[i + j];
    }
  }

  /** Splitting at a "\n" boundary: the first line, then the lines of the
      rest. */
  lemma SplitLinesAtNewline(s: string, b: nat)
    requires s != "" && b < |s| && b == BreakIndex(s, 0) && s[b] == '\n'
    ensures SplitLines(s) == [s[..b]] + SplitLines(s[b + 1..])
  {
    var rest := SplitLines(s[b + 1..]);
    assert s[b] != '\r';
    assert SplitLines(s) == [s[..b]] + rest;
  }

  /** Joining a line in front of a non-empty list of lines. */
  lemma JoinCons(x: string, xs: seq<string>, sep: string)
    requires xs != []
    ensures Join([x] + xs, sep) == x + sep + Join(xs, sep)
  {
    assert ([x] + xs)[1..] == xs;
  }

  /** A line that is all whitespace, so empty once stripped. */
  predicate Blank(line: string)
  {
    forall i :: 0 <= i < |line| ==> IsSpace(line[i])
  }

  /** Index of the first blank line from `from`. */
  function FirstBlank(lines: seq<string>, from: nat): (r: Option<nat>)
    ensures r.Some? ==> from <= r.value < |lines| && Blank(lines[r.value])
    ensures r.Some? ==> forall j :: from <= j < r.value ==> !Blank(lines[j])
    ensures r.None? ==> forall j :: from <= j < |lines| ==> !Blank(lines[j])
    decreases |lines| - from
  {
    if from >= |lines| then None
    else if Blank(lines[from]) then Some(from)
    else FirstBlank(lines, from + 1)
  }

  /** Where the quote goes: just after the first blank line, or at the top
      when there is none. */
  function InsertIndex(lines: seq<string>): (r: nat)
    ensures r <= |lines|
  {
    match FirstBlank(lines, 0)
    case None => 0
    case Some(i) => i + 1
  }

  /** The `insert_index` scan, with its `break`. */
  method FindInsertIndex(lines: seq<string>) returns (insertIndex: nat)
    ensures insertIndex == InsertIndex(lines)
  {
    insertIndex := 0;
    var i := 0;
    while i < |lines|
      invariant i <= |lines|
      invariant forall j :: 0 <= j < i ==> !Blank(lines[j])
    {
      StripEmptyIff(lines[i]);
      if Strip(lines[i]) == "" {
        insertIndex := i + 1;
        break;
      }
      i := i + 1;
    }
  }

  /** The six lines written for a quote: date, English, blank, Korean, two
      blanks. */
  function Entry(q: Quote): seq<string>
  {
    [q.date, q.english, "", q.korean, "", ""]
  }

  function WithEntry(lines: seq<string>, q: Quote): seq<string>
  {
    var idx := InsertIndex(lines);
    lines[..idx] + Entry(q) + lines[idx..]
  }

  /** The insertion adds exactly the six lines at the insert index: the
      lines before it and after it are the file's own lines in their
      order. */
  lemma WithEntryShape(lines: seq<string>, q: Quote)
    ensures var idx, r := InsertIndex(lines), WithEntry(lines, q);
            && |r| == |lines| + 6
            && r[..idx] == lines[..idx]
            && r[idx..idx + 6] == Entry(q)
            && r[idx + 6..] == lines[idx..]
  {
  }

  /** The header of a new year's file. */
  function FileHeader(year: nat): string
  {
    NatToString(year) + "년 영어 명언 모음\n\n"
  }

  /** The outcome of `insert_latest_quote`: success and the file afterwards
      (None while it does not exist). A missing file is created with its
      header when the desktop folder exists; a date already in the file
      leaves it as it is and still succeeds. */
  function InsertResult(quote: Option<Quote>, file: Option<string>, desktopExists: bool, year: nat): (r: (bool, Option<string>))
    ensures quote.None? ==> r == (false, file)
    ensures quote.Some? && file.Some? && Contains(file.value, quote.value.date) ==> r == (true, file)
    ensures quote.Some? && file.None? && !desktopExists ==> r == (false, None)
    ensures r.0 ==> r.1.Some?
    ensures r.0 ==> quote.Some? && Contains(r.1.value, quote.value.date)
  {
    if quote.None? then (false, file)
    else if file.None? && !desktopExists then (false, None)
    else
      var content := if file.Some? then file.value else FileHeader(year);
      if Contains(content, quote.value.date) then (true, Some(content))
      else
        var lines := SplitLines(content);
        var newLines := WithEntry(lines, quote.value);
        assert newLines[InsertIndex(lines)] == quote.value.date;
        JoinContainsPart(newLines, "\n", InsertIndex(lines));
        (true, Some(Join(newLines, "\n")))
  }

  /** `insert_latest_quote`, given the fetched quote, the file (None when
      missing), whether the desktop folder exists, and the current year. */
  method InsertLatestQuote(quote: Option<Quote>, file: Option<string>, desktopExists: bool, year: nat)
    returns (ok: bool, newFile: Option<string>)
    ensures (ok, newFile) == InsertResult(quote, file, desktopExists, year)
  {
    newFile := file;
    if quote.None? {
      return false, newFile;
    }
    var q := quote.value;
    if newFile.None? {
      if desktopExists {
        newFile := Some(FileHeader(year));
      }
      if newFile.None? {
        return false, newFile;
      }
    }
    var content := newFile.value;
    if Contains(content, q.date) {
      return true, newFile;
    }
    var lines := SplitLines(content);
    var insertIndex := FindInsertIndex(lines);
    var newLines := lines[..insertIndex] + [q.date, q.english, "", q.korean, "", ""] + lines[insertIndex..];
    newFile := Some(Join(newLines, "\n"));
    ok := true;
  }

  /** Text containing `t` keeps containing it with anything put before. */
  lemma {:induction false} ContainsAfterPrefix(pre: string, s: string, t: string)
    requires Contains(s, t)
    ensures Contains(pre + s, t)
  {
    if pre != [] {
      ContainsAfterPrefix(pre[1..], s, t);
      assert (pre + s)[1..] == pre[1..] + s;
    } else {
      assert pre + s == s;
    }
  }

  /** Every part of a join occurs in it. */
  lemma {:induction false} JoinContainsPart(parts: seq<string>, sep: string, k: nat)
    requires k < |parts|
    ensures Contains(Join(parts, sep), parts[k])
  {
    if k == 0 {
      assert StartsWith(Join(parts, sep), parts[0]);
    } else {
      JoinContainsPart(parts[1..], sep, k - 1);
      ContainsAfterPrefix(parts[0] + sep, Join(parts[1..], sep), parts[k]);
    }
  }

  /** Running the insertion again with the same quote changes nothing and
      succeeds: the first run left the date in the file. */
  lemma InsertIdempotent(q: Quote, file: Option<string>, desktopExists: bool, year: nat)
    requires InsertResult(Some(q), file, desktopExists, year).0
    ensures var after := InsertResult(Some(q), file, desktopExists, year).1;
            InsertResult(Some(q), after, desktopExists, year) == (true, after)
  {
  }

  /** The run: fetch the quote, then insert it. */
  method RunQuotes(pageText: Option<string>, file: Option<string>, desktopExists: bool, year: nat)
    returns (ok: bool, newFile: Option<string>)
    ensures var q := if pageText.None? then None else QuoteOf(PageLines(pageText.value));
            (ok, newFile) == InsertResult(q, file, desktopExists, year)
  {
    var quote := FetchLatestQuote(pageText);
    ok, newFile := InsertLatestQuote(quote, file, desktopExists, year);
  }
}
