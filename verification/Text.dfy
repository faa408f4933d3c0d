/** The handful of Python `str` operations the clinic code relies on: `isspace`,
    `strip`, `split()`, `split(',')[0]`, `startswith`, `replace`, `upper`, `title`
    and the `<=` comparison that orders names. Strings are sequences of Unicode
    scalar values, as Python's `str` is a sequence of code points. Case mapping is
    modelled for ASCII letters only. */
module Text {

  /** `str.isspace()` for one character: the code points Python's `split()` and
      `strip()` treat as whitespace. */
  predicate IsSpace(c: char) {
    c == ' ' || ('\t' <= c <= '\r') || ('\U{1C}' <= c <= '\U{1F}')
    || c == '\U{85}' || c == '\U{A0}' || c == '\U{1680}'
    || ('\U{2000}' <= c <= '\U{200A}') || c == '\U{2028}' || c == '\U{2029}'
    || c == '\U{202F}' || c == '\U{205F}' || c == '\U{3000}'
  }

  predicate IsLowerAscii(c: char) {
    'a' <= c <= 'z'
  }

  predicate IsUpperAscii(c: char) {
    'A' <= c <= 'Z'
  }

  predicate IsAsciiLetter(c: char) {
    IsLowerAscii(c) || IsUpperAscii(c)
  }

  function ToUpper(c: char): (u: char)
    ensures !IsLowerAscii(u)
    ensures IsAsciiLetter(c) <==> IsAsciiLetter(u)
  {
    if IsLowerAscii(c) then (c as int - 32) as char else c
  }

  function ToLower(c: char): (l: char)
    ensures !IsUpperAscii(l)
    ensures IsAsciiLetter(c) <==> IsAsciiLetter(l)
  {
    if IsUpperAscii(c) then (c as int + 32) as char else c
  }

  /** `s.upper()`, restricted to ASCII case mapping: same length, no lower-case
      ASCII letter left. */
  function Upper(s: string): (r: string)
    ensures |r| == |s|
    ensures forall i :: 0 <= i < |s| ==> r[i] == ToUpper(s[i])
  {
    if s == [] then [] else [ToUpper(s[0])] + Upper(s[1..])
  }

  /** `s.title()` for ASCII text: a letter is upper-cased when it starts a run of
      letters and lower-cased inside one; other characters are kept. */
  function Title(s: string): (r: string)
    ensures |r| == |s|
    ensures forall i :: 0 <= i < |s| ==> r[i] == TitleChar(s, i)
  {
    TitleFrom(s, 0)
  }

  /** What `title()` makes of the character at index `i` of `s`. */
  function TitleChar(s: string, i: nat): char
    requires i < |s|
  {
    if !IsAsciiLetter(s[i]) then s[i]
    else if i == 0 || !IsAsciiLetter(s[i - 1]) then ToUpper(s[i])
    else ToLower(s[i])
  }

  /** The title-cased rendering of `s[k..]`, scanning left to right. */
  function TitleFrom(s: string, k: nat): (r: string)
    requires k <= |s|
    ensures |r| == |s| - k
    ensures forall i :: k <= i < |s| ==> r[i - k] == TitleChar(s, i)
    decreases |s| - k
  {
    if k == |s| then []
    else
      var c := s[k];
      var afterLetter := k > 0 && IsAsciiLetter(s[k - 1]);
      var t := if !IsAsciiLetter(c) then c else if afterLetter then ToLower(c) else ToUpper(c);
      [t] + TitleFrom(s, k + 1)
  }

  /** `s.replace(old, new)` for single characters. */
  function ReplaceChar(s: string, from: char, to: char): (r: string)
    ensures |r| == |s|
    ensures forall i :: 0 <= i < |s| ==> r[i] == (if s[i] == from then to else s[i])
  {
    if s == [] then [] else [if s[0] == from then to else s[0]] + ReplaceChar(s[1..], from, to)
  }

  predicate StartsWith(s: string, prefix: string) {
    |prefix| <= |s| && s[..|prefix|] == prefix
  }

  /** Number of whitespace characters `s` starts with (what `lstrip()` drops). */
  function LeadingBlanks(s: string): (n: nat)
    ensures n <= |s|
    ensures forall i :: 0 <= i < n ==> IsSpace(s[i])
    ensures n < |s| ==> !IsSpace(s[n])
  {
    if s == [] || !IsSpace(s[0]) then 0 else 1 + LeadingBlanks(s[1..])
  }

  /** Index where the trailing whitespace of `s` starts (what `rstrip()` keeps). */
  function TrailingStart(s: string): (j: nat)
    ensures j <= |s|
    ensures forall i :: j <= i < |s| ==> IsSpace(s[i])
    ensures j > 0 ==> !IsSpace(s[j - 1])
  {
    if s == [] || !IsSpace(s[|s| - 1]) then |s| else TrailingStart(s[..|s| - 1])
  }

  /** `s.strip()`: the slice of `s` between its leading and its trailing
      whitespace. */
  function Strip(s: string): (r: string)
    ensures var k := LeadingBlanks(s);
            k + |r| <= |s| && r == s[k..k + |r|]
            && (forall i :: 0 <= i < k ==> IsSpace(s[i]))
            && (forall i :: k + |r| <= i < |s| ==> IsSpace(s[i]))
    ensures r == [] || (!IsSpace(r[0]) && !IsSpace(r[|r| - 1]))
  {
    var k := LeadingBlanks(s);
    if k == |s| then [] else s[k..TrailingStart(s)]
  }

  /** `s.split(sep)[0]`: everything before the first `sep`, or all of `s`. */
  function BeforeFirst(s: string, sep: char): (r: string)
    ensures |r| <= |s| && r == s[..|r|]
    ensures sep !in r
    ensures |r| < |s| ==> s[|r|] == sep
  {
    if s == [] || s[0] == sep then [] else [s[0]] + BeforeFirst(s[1..], sep)
  }

  /** The non-whitespace characters of `s`, in order. */
  function NonSpace(s: string): string {
    if s == [] then [] else (if IsSpace(s[0]) then [] else [s[0]]) + NonSpace(s[1..])
  }

  function Concat(ws: seq<string>): string {
    if ws == [] then [] else ws[0] + Concat(ws[1..])
  }

  predicate IsWord(w: string) {
    |w| > 0 && forall i :: 0 <= i < |w| ==> !IsSpace(w[i])
  }

  /** Length of the longest whitespace-free prefix of `s`. */
  function WordLength(s: string): (n: nat)
    ensures n <= |s|
    ensures forall i :: 0 <= i < n ==> !IsSpace(s[i])
    ensures n < |s| ==> IsSpace(s[n])
  {
    if s == [] || IsSpace(s[0]) then 0 else 1 + WordLength(s[1..])
  }

  lemma {:induction false} NonSpaceAppend(a: string, b: string)
    ensures NonSpace(a + b) == NonSpace(a) + NonSpace(b)
    decreases |a|
  {
    if a == [] {
      assert a + b == b;
    } else {
      assert (a + b)[1..] == a[1..] + b;
      NonSpaceAppend(a[1..], b);
    }
  }

  lemma {:induction false} NonSpaceOfBlank(s: string)
    requires forall i :: 0 <= i < |s| ==> IsSpace(s[i])
    ensures NonSpace(s) == []
    decreases |s|
  {
    if s != [] {
      NonSpaceOfBlank(s[1..]);
    }
  }

  lemma {:induction false} NonSpaceOfWord(s: string)
    requires forall i :: 0 <= i < |s| ==> !IsSpace(s[i])
    ensures NonSpace(s) == s
    decreases |s|
  {
    if s != [] {
      NonSpaceOfWord(s[1..]);
    }
  }

  /** `s.split()`: the maximal runs of non-whitespace characters. Every part is a
      non-empty word, and the parts, concatenated, give back exactly the
      non-whitespace characters of `s`. */
  function Words(s: string): (r: seq<string>)
    ensures forall i :: 0 <= i < |r| ==> IsWord(r[i])
    ensures Concat(r) == NonSpace(s)
    decreases |s|
  {
    if s == [] then []
    else if IsSpace(s[0]) then Words(s[1..])
    else
      var n := WordLength(s);
      var rest := Words(s[n..]);
      NonSpaceWordThen(s, n);
      var r := [s[..n]] + rest;
      assert r[0] == s[..n] && r[1..] == rest;
      r
  }

  /** `k` is where the last maximal run of non-blank characters of `s` starts:
      `s[k]` is not blank, the character before it (if any) is, and after `k`
      no blank character is followed by a non-blank one. */
  predicate LastRunStart(s: string, k: nat) {
    && k < |s| && !IsSpace(s[k])
    && (k > 0 ==> IsSpace(s[k - 1]))
    && forall j :: k <= j < |s| - 1 && IsSpace(s[j]) ==> IsSpace(s[j + 1])
  }

  /** A string without words is all blanks. */
  lemma {:induction false} NoWordsAllBlank(s: string)
    requires Words(s) == []
    ensures forall i :: 0 <= i < |s| ==> IsSpace(s[i])
    decreases |s|
  {
    if s != [] {
      assert IsSpace(s[0]);
      NoWordsAllBlank(s[1..]);
      forall i | 0 < i < |s|
        ensures IsSpace(s[i])
      {
        assert s[i] == s[1..][i - 1];
      }
    }
  }

  /** A last-run start in the suffix `s[d..]` is one in `s`, provided the run
      does not continue backwards across the cut. */
  lemma ShiftRunStart(s: string, d: nat, k: nat)
    requires d <= |s| && LastRunStart(s[d..], k)
    requires k == 0 && d > 0 ==> IsSpace(s[d - 1])
    ensures LastRunStart(s, d + k)
  {
    var t := s[d..];
    assert s[d + k] == t[k];
    if k > 0 {
      assert s[d + k - 1] == t[k - 1];
    }
    forall j | d + k <= j < |s| - 1 && IsSpace(s[j])
      ensures IsSpace(s[j + 1])
    {
      assert s[j] == t[j - d] && s[j + 1] == t[j - d + 1];
    }
  }

  /** A word followed only by blanks makes `s` one run starting at 0. */
  lemma WordThenBlanks(s: string, n: nat)
    requires 0 < n <= |s|
    requires forall i :: 0 <= i < n ==> !IsSpace(s[i])
    requires forall i :: 0 <= i < |s[n..]| ==> IsSpace(s[n..][i])
    ensures LastRunStart(s, 0)
  {
    forall j | 0 <= j < |s| - 1 && IsSpace(s[j])
      ensures IsSpace(s[j + 1])
    {
      assert s[j + 1] == s[n..][j + 1 - n];
    }
  }

  /** The last word `split()` yields starts at the beginning of the last
      non-blank run of `s`; with two or more words that run is not at the
      start of `s`. */
  lemma {:induction false} LastWordStart(s: string)
    requires |Words(s)| >= 1
    ensures exists k: nat :: LastRunStart(s, k) && Words(s)[|Words(s)| - 1][0] == s[k]
                             && (|Words(s)| >= 2 ==> k > 0)
    decreases |s|, 1
  {
    if IsSpace(s[0]) {
      LastWordAfterBlank(s);
    } else {
      LastWordAfterWord(s);
    }
  }

  /** `LastWordStart` when `s` starts with a blank: the words are those of `s[1..]`. */
  lemma {:induction false} LastWordAfterBlank(s: string)
    requires |Words(s)| >= 1 && IsSpace(s[0])
    ensures exists k: nat :: LastRunStart(s, k) && Words(s)[|Words(s)| - 1][0] == s[k]
                             && (|Words(s)| >= 2 ==> k > 0)
    decreases |s|, 0
  {
    var t := s[1..];
    WordsSkipBlank(s);
    LastWordStart(t);
    var k: nat :| LastRunStart(t, k) && Words(t)[|Words(t)| - 1][0] == t[k];
    ShiftRunStart(s, 1, k);
    assert s[1 + k] == t[k];
  }

  /** A leading blank contributes no word. */
  lemma WordsSkipBlank(s: string)
    requires s != [] && IsSpace(s[0])
    ensures Words(s) == Words(s[1..])
  {
  }

  /** `LastWordStart` when `s` starts with a word: the last word is that one
      when only blanks follow it, and otherwise the last word of the rest. */
  lemma {:induction false} LastWordAfterWord(s: string)
    requires |Words(s)| >= 1 && !IsSpace(s[0])
    ensures exists k: nat :: LastRunStart(s, k) && Words(s)[|Words(s)| - 1][0] == s[k]
                             && (|Words(s)| >= 2 ==> k > 0)
    decreases |s|, 0
  {
    var ws := Words(s);
    var n := WordLength(s);
    var rest := Words(s[n..]);
    assert ws == [s[..n]] + rest;
    if rest == [] {
      NoWordsAllBlank(s[n..]);
      WordThenBlanks(s, n);
      assert ws[|ws| - 1] == s[..n];
    } else {
      LastWordStart(s[n..]);
      var k: nat :| LastRunStart(s[n..], k) && rest[|rest| - 1][0] == s[n..][k];
      assert s[n..][0] == s[n];
      ShiftRunStart(s, n, k);
      assert s[n + k] == s[n..][k];
      assert ws[|ws| - 1] == rest[|rest| - 1];
    }
  }

  /** `NonSpace` distributes over cutting `s` at `k`. */
  lemma NonSpaceCut(s: string, k: nat)
    requires k <= |s|
    ensures NonSpace(s) == NonSpace(s[..k]) + NonSpace(s[k..])
  {
    assert s == s[..k] + s[k..];
    NonSpaceAppend(s[..k], s[k..]);
  }

  /** A whitespace-free prefix of length `n` survives `NonSpace` intact. */
  lemma NonSpaceWordThen(u: string, n: nat)
    requires n <= |u|
    requires forall i :: 0 <= i < n ==> !IsSpace(u[i])
    ensures NonSpace(u) == u[..n] + NonSpace(u[n..])
  {
    NonSpaceCut(u, n);
    NonSpaceOfWord(u[..n]);
  }

  /** Python's `a <= b` on strings: code-point lexicographic order. */
  predicate LexLe(a: string, b: string)
    decreases |a|
  {
    if a == [] then true
    else if b == [] then false
    else if a[0] < b[0] then true
    else if b[0] < a[0] then false
    else LexLe(a[1..], b[1..])
  }

  lemma {:induction false} LexLeTotal(a: string, b: string)
    ensures LexLe(a, b) || LexLe(b, a)
    decreases |a|
  {
    if a != [] && b != [] && a[0] == b[0] {
      LexLeTotal(a[1..], b[1..]);
    }
  }

  lemma {:induction false} LexLeTransitive(a: string, b: string, c: string)
    requires LexLe(a, b) && LexLe(b, c)
    ensures LexLe(a, c)
    decreases |a|
  {
    if a != [] && b != [] && c != [] && a[0] == b[0] && b[0] == c[0] {
      LexLeTransitive(a[1..], b[1..], c[1..]);
    }
  }

  lemma {:induction false} LexLeAntisymmetric(a: string, b: string)
    requires LexLe(a, b) && LexLe(b, a)
    ensures a == b
    decreases |a|
  {
    if a != [] && b != [] {
      LexLeAntisymmetric(a[1..], b[1..]);
      assert a == [a[0]] + a[1..] && b == [b[0]] + b[1..];
    }
  }
}
