/** String helpers shared by every crawler: Python's `startswith`, `in`,
    slicing with an ellipsis, `join`, `strip`, `split()` and `str(n)`. */
module Text {

  datatype Option<T> = None | Some(value: T)

  /** A dictionary lookup that may miss: `Some(m[k])` or `None`. */
  function Lookup<K, V>(m: map<K, V>, k: K): (r: Option<V>)
    ensures r.Some? <==> k in m
    ensures r.Some? ==> r.value == m[k]
  {
    if k in m then Some(m[k]) else None
  }

  /** Python's truthiness of an optional string: present and non-empty. */
  predicate Truthy(s: Option<string>)
  {
    s.Some? && s.value != ""
  }

  /** The text of an optional element or attribute, "" when it is absent. */
  function TextOrEmpty(t: Option<string>): string
  {
    if t.Some? then t.value else ""
  }

  /** The rule line that closes every digest entry. */
  const Rule := "=================================================="

  /** Concatenation of a list of lists, in order. */
  function Flatten<T>(xss: seq<seq<T>>): (r: seq<T>)
    ensures xss == [] ==> r == []
  {
    if xss == [] then [] else xss[0] + Flatten(xss[1..])
  }

  lemma {:induction false} FlattenSnoc<T>(xss: seq<seq<T>>, xs: seq<T>)
    ensures Flatten(xss + [xs]) == Flatten(xss) + xs
  {
    if xss != [] {
      assert (xss + [xs])[1..] == xss[1..] + [xs];
      FlattenSnoc(xss[1..], xs);
    }
  }

  /** `a` is `b` with some elements left out, order kept. */
  predicate IsSubseq<T(==)>(a: seq<T>, b: seq<T>)
    decreases |b|
  {
    a == [] || (b != [] && ((a[0] == b[0] && IsSubseq(a[1..], b[1..])) || IsSubseq(a, b[1..])))
  }

  /** Python slice `xs[:n]` for a list. */
  function Take<T>(xs: seq<T>, n: nat): (r: seq<T>)
    ensures |r| == if |xs| <= n then |xs| else n
    ensures r == xs[..|r|]
  {
    if |xs| <= n then xs else xs[..n]
  }

  /** Python `s.startswith(p)`. */
  predicate StartsWith(s: string, p: string)
  {
    |p| <= |s| && s[..|p|] == p
  }

  /** `s` ends with `p`. */
  predicate EndsWith(s: string, p: string)
  {
    |p| <= |s| && s[|s| - |p|..] == p
  }

  /** `t` occurs in `s` starting at index `i`. */
  predicate OccursAt(s: string, t: string, i: nat)
  {
    i + |t| <= |s| && s[i..i + |t|] == t
  }

  /** Python `t in s` for strings. */
  predicate Contains(s: string, t: string)
    decreases |s|
  {
    StartsWith(s, t) || (|s| > 0 && Contains(s[1..], t))
  }

  lemma {:induction false} ContainsIff(s: string, t: string)
    ensures Contains(s, t) <==> exists i: nat :: OccursAt(s, t, i)
    decreases |s|
  {
    if StartsWith(s, t) {
      assert OccursAt(s, t, 0);
    } else if |s| == 0 {
    } else {
      ContainsIff(s[1..], t);
      if Contains(s[1..], t) {
        var i: nat :| OccursAt(s[1..], t, i);
        assert s[1..][i..i + |t|] == s[i + 1..i + 1 + |t|];
        assert OccursAt(s, t, i + 1);
      }
      assert !OccursAt(s, t, 0) by {
        if |t| <= |s| {
          assert s[0..|t|] == s[..|t|];
        }
      }
      if i: nat :| OccursAt(s, t, i) {
        assert s[i..i + |t|] == s[1..][i - 1..i - 1 + |t|];
        assert OccursAt(s[1..], t, i - 1);
      }
    }
  }

  /** An occurrence at any index makes `t in s` true. */
  lemma {:induction false} ContainsOccurrence(s: string, t: string, i: nat)
    requires OccursAt(s, t, i)
    ensures Contains(s, t)
  {
    ContainsIff(s, t);
  }

  /** A page request: `Some(page)` when the fetch of `url` succeeded, None
      when it raised. `pages` holds the pages that could be fetched; a
      request for the empty URL always fails, as `requests.get("")`
      raises. */
  function Fetched<V>(pages: map<string, V>, url: string): (r: Option<V>)
    ensures url == "" ==> r.None?
    ensures url != "" ==> r == Lookup(pages, url)
  {
    if url == "" then None else Lookup(pages, url)
  }

  /** `s[:n] + "..."` when `s` is longer than `cap`, else `s` unchanged. */
  function Truncate(s: string, cap: nat): (r: string)
    ensures |s| <= cap ==> r == s
    ensures |s| > cap ==> |r| == cap + 3 && r[..cap] == s[..cap] && r[cap..] == "..."
  {
    if |s| > cap then s[..cap] + "..." else s
  }

  /** Python slice `s[:n]`: never longer than `n`, never past the end. */
  function Prefix(s: string, n: nat): (r: string)
    ensures |r| == if |s| <= n then |s| else n
    ensures r <= s
  {
    if |s| <= n then s else s[..n]
  }

  /** Python `sep.join(parts)`. */
  function Join(parts: seq<string>, sep: string): (r: string)
    ensures parts == [] ==> r == ""
    ensures |parts| == 1 ==> r == parts[0]
    ensures |parts| >= 1 ==> parts[0] <= r
  {
    if |parts| == 0 then ""
    else if |parts| == 1 then parts[0]
    else parts[0] + sep + Join(parts[1..], sep)
  }

  /** Python's `str.isspace()` for one character. */
  predicate IsSpace(c: char)
  {
    c == ' ' || ('\t' <= c <= '\r') || ('\U{1C}' <= c <= '\U{1F}')
    || c == '\U{85}' || c == '\U{A0}' || c == '\U{1680}'
    || ('\U{2000}' <= c <= '\U{200A}') || c == '\U{2028}' || c == '\U{2029}'
    || c == '\U{202F}' || c == '\U{205F}' || c == '\U{3000}'
  }

  /** Python `s.lstrip()`. */
  function StripLeft(s: string): (r: string)
    ensures |r| <= |s| && r == s[|s| - |r|..]
    ensures r == [] || !IsSpace(r[0])
    ensures forall i :: 0 <= i < |s| - |r| ==> IsSpace(s[i])
  {
    if |s| > 0 && IsSpace(s[0]) then StripLeft(s[1..]) else s
  }

  /** Python `s.rstrip()`. */
  function StripRight(s: string): (r: string)
    ensures |r| <= |s| && r == s[..|r|]
    ensures r == [] || !IsSpace(r[|r| - 1])
    ensures forall i :: |r| <= i < |s| ==> IsSpace(s[i])
  {
    if |s| > 0 && IsSpace(s[|s| - 1]) then StripRight(s[..|s| - 1]) else s
  }

  /** Python `s.strip()`. */
  function Strip(s: string): string
  {
    StripRight(StripLeft(s))
  }

  /** `s.strip()` is empty exactly when every character is whitespace. */
  lemma StripEmptyIff(s: string)
    ensures Strip(s) == "" <==> forall i :: 0 <= i < |s| ==> IsSpace(s[i])
  {
    var l := StripLeft(s);
    if Strip(s) == "" {
      forall i | 0 <= i < |s| ensures IsSpace(s[i]) {
        if i >= |s| - |l| {
          assert s[i] == l[i - (|s| - |l|)];
        }
      }
    } else {
      assert l != [] && !IsSpace(l[0]);
      assert !IsSpace(s[|s| - |l|]);
    }
  }

  /** Number of words `len(s.split())`: the maximal runs of non-whitespace
      characters, counted left to right; `inWord` says whether the character
      before `s` was part of a word. */
  function WordsAfter(s: string, inWord: bool): nat
  {
    if |s| == 0 then 0
    else if IsSpace(s[0]) then WordsAfter(s[1..], false)
    else (if inWord then 0 else 1) + WordsAfter(s[1..], true)
  }

  function WordCount(s: string): nat
  {
    WordsAfter(s, false)
  }

  /** A string that is all whitespace has no words. */
  lemma {:induction false} NoWordsInSpace(s: string, inWord: bool)
    requires forall i :: 0 <= i < |s| ==> IsSpace(s[i])
    ensures WordsAfter(s, inWord) == 0
  {
    if |s| > 0 {
      NoWordsInSpace(s[1..], false);
    }
  }

  /** A text with a word is not all whitespace, so it is not empty. */
  lemma WordsNotEmpty(s: string)
    requires WordCount(s) > 0
    ensures s != ""
    ensures exists i :: 0 <= i < |s| && !IsSpace(s[i])
  {
    if forall i :: 0 <= i < |s| ==> IsSpace(s[i]) {
      NoWordsInSpace(s, false);
    }
  }

  function DigitChar(d: nat): (c: char)
    requires d < 10
    ensures '0' <= c <= '9' && c as int - '0' as int == d
  {
    ('0' as int + d) as char
  }

  /** The number a string of decimal digits spells, most significant digit
      first. */
  function DecimalValue(s: string): nat
  {
    if s == [] then 0
    else
      var d := s[|s| - 1] as int - '0' as int;
      DecimalValue(s[..|s| - 1]) * 10 + (if 0 <= d then d else 0)
  }

  /** Python `str(n)` for a natural number: the decimal digits that spell
      `n`, with no leading zero except for `n == 0` itself. */
  function NatToString(n: nat): (r: string)
    ensures |r| >= 1
    ensures forall i :: 0 <= i < |r| ==> '0' <= r[i] <= '9'
    ensures DecimalValue(r) == n
    ensures n == 0 ==> r == "0"
    ensures n > 0 ==> r[0] != '0'
  {
    if n < 10 then [DigitChar(n)]
    else
      var init := NatToString(n / 10);
      var r := init + [DigitChar(n % 10)];
      assert r[..|r| - 1] == init;
      r
  }

  /** Python `str.isdigit` restricted to the ASCII digits. */
  predicate IsDigit(c: char)
  {
    '0' <= c <= '9'
  }
}
