/**
 * The JavaScript string operations the orchestrator relies on: the `\s`
 * class of a regular expression, the case folding of its `i` flag,
 * `String.prototype.split` on one character and on runs of whitespace,
 * `Array.prototype.join`, trimming, and the decimal form of an integer.
 */
module JsText {

  /** The characters `\s` matches in an ECMAScript regular expression:
      WhiteSpace and LineTerminator. */
  predicate IsSpace(c: char) {
    || c == '\t' || c == '\n' || c == '\U{000B}' || c == '\U{000C}' || c == '\r' || c == ' '
    || c == '\U{00A0}' || c == '\U{1680}' || ('\U{2000}' <= c <= '\U{200A}')
    || c == '\U{2028}' || c == '\U{2029}' || c == '\U{202F}' || c == '\U{205F}'
    || c == '\U{3000}' || c == '\U{FEFF}'
  }

  predicate NoSpace(s: string) {
    forall i :: 0 <= i < |s| ==> !IsSpace(s[i])
  }

  predicate AllSpace(s: string) {
    forall i :: 0 <= i < |s| ==> IsSpace(s[i])
  }

  /** The non-whitespace characters of `s`, in order. */
  function NonSpace(s: string): string {
    if s == [] then [] else (if IsSpace(s[0]) then [] else [s[0]]) + NonSpace(s[1..])
  }

  lemma {:induction false} NonSpaceAppend(a: string, b: string)
    ensures NonSpace(a + b) == NonSpace(a) + NonSpace(b)
  {
    if a == [] {
      assert a + b == b;
    } else {
      assert (a + b)[1..] == a[1..] + b;
      NonSpaceAppend(a[1..], b);
    }
  }

  lemma {:induction false} NonSpaceOfSpaces(s: string)
    requires AllSpace(s)
    ensures NonSpace(s) == []
  {
    if s != [] {
      NonSpaceOfSpaces(s[1..]);
    }
  }

  lemma {:induction false} NonSpaceOfWord(s: string)
    requires NoSpace(s)
    ensures NonSpace(s) == s
  {
    if s != [] {
      NonSpaceOfWord(s[1..]);
    }
  }

  /** Length of the whitespace run that starts `s`. */
  function SpaceRun(s: string): (n: nat)
    ensures n <= |s| && AllSpace(s[..n])
    ensures n == |s| || !IsSpace(s[n])
  {
    if s == [] || !IsSpace(s[0]) then 0 else 1 + SpaceRun(s[1..])
  }

  /** Length of the non-whitespace run that starts `s`. */
  function WordRun(s: string): (n: nat)
    ensures n <= |s| && NoSpace(s[..n])
    ensures n == |s| || IsSpace(s[n])
  {
    if s == [] || IsSpace(s[0]) then 0 else 1 + WordRun(s[1..])
  }

  /** Length of the whitespace run that ends `s`. */
  function TrailingSpaceRun(s: string): (n: nat)
    ensures n <= |s| && AllSpace(s[|s| - n..])
    ensures n == |s| || !IsSpace(s[|s| - n - 1])
  {
    if s == [] || !IsSpace(s[|s| - 1]) then 0 else 1 + TrailingSpaceRun(s[..|s| - 1])
  }

  /** A whitespace prefix never reaches past the leading run. */
  lemma {:induction false} SpaceRunCovers(s: string, k: nat)
    requires k <= |s| && AllSpace(s[..k])
    ensures k <= SpaceRun(s)
  {
    if k > 0 {
      assert s[..k][0] == s[0];
      assert s[1..][..k - 1] == s[..k][1..];
      SpaceRunCovers(s[1..], k - 1);
    }
  }

  /** The leading run stops at the first non-whitespace character. */
  lemma {:induction false} SpaceRunStops(s: string, k: nat)
    requires k < |s| && !IsSpace(s[k])
    ensures SpaceRun(s) <= k
  {
    if k > 0 && IsSpace(s[0]) {
      assert s[1..][k - 1] == s[k];
      SpaceRunStops(s[1..], k - 1);
    }
  }

  /** `s` without the whitespace it starts with. */
  function TrimStart(s: string): string {
    s[SpaceRun(s)..]
  }

  /** `s` without the whitespace it ends with. */
  function TrimEnd(s: string): string {
    s[..|s| - TrailingSpaceRun(s)]
  }

  /** Trimming removes exactly the leading whitespace and nothing else. */
  lemma {:induction false} TrimStartOf(w: string, x: string)
    requires AllSpace(w)
    requires x == [] || !IsSpace(x[0])
    ensures TrimStart(w + x) == x
  {
    if w != [] {
      assert (w + x)[1..] == w[1..] + x;
      TrimStartOf(w[1..], x);
    } else {
      assert w + x == x;
    }
  }

  /** Trimming removes exactly the trailing whitespace and nothing else. */
  lemma {:induction false} TrimEndOf(x: string, w: string)
    requires AllSpace(w)
    requires x == [] || !IsSpace(x[|x| - 1])
    ensures TrimEnd(x + w) == x
  {
    if w != [] {
      assert (x + w)[..|x + w| - 1] == x + w[..|w| - 1];
      TrimEndOf(x, w[..|w| - 1]);
    } else {
      assert x + w == x;
    }
  }

  /** Case folding of a regular expression with the `i` flag and without
      `u`: a character folds to its upper case, and no non-ASCII character
      folds onto an ASCII one, so for the ASCII patterns used here ASCII
      upper-casing decides every comparison. */
  function FoldCase(c: char): char {
    if 'a' <= c <= 'z' then (c as int - 32) as char else c
  }

  predicate EqualIgnoringCase(a: string, b: string) {
    |a| == |b| && forall i :: 0 <= i < |a| ==> FoldCase(a[i]) == FoldCase(b[i])
  }

  predicate StartsWithIgnoringCase(s: string, prefix: string) {
    |prefix| <= |s| && EqualIgnoringCase(s[..|prefix|], prefix)
  }

  predicate EndsWithIgnoringCase(s: string, suffix: string) {
    |suffix| <= |s| && EqualIgnoringCase(s[|s| - |suffix|..], suffix)
  }

  /** `parts.join(sep)` for a one-character separator. */
  function JoinWith(parts: seq<string>, sep: char): string {
    if |parts| == 0 then ""
    else if |parts| == 1 then parts[0]
    else parts[0] + [sep] + JoinWith(parts[1..], sep)
  }

  /** `s.split(sep)` for a one-character separator: the pieces between the
      separators, with empty pieces kept. */
  function SplitOn(s: string, sep: char): (parts: seq<string>)
    ensures |parts| >= 1
    ensures forall i :: 0 <= i < |parts| ==> sep !in parts[i]
    ensures JoinWith(parts, sep) == s
  {
    if s == [] then [""]
    else
      var rest := SplitOn(s[1..], sep);
      if s[0] == sep then
        assert JoinWith([""] + rest, sep) == [sep] + JoinWith(rest, sep);
        [""] + rest
      else
        var parts := [[s[0]] + rest[0]] + rest[1..];
        assert |rest| > 1 ==> JoinWith(parts, sep) == [s[0]] + rest[0] + [sep] + JoinWith(rest[1..], sep);
        parts
  }

  /** `s.split(/\s+/)`: the pieces between maximal whitespace runs; a run
      at either end leaves an empty piece there. */
  function SplitOnSpaces(s: string): (parts: seq<string>)
    ensures |parts| >= 1
    ensures forall i :: 0 <= i < |parts| ==> NoSpace(parts[i])
    decreases |s|
  {
    var n := WordRun(s);
    if n == |s| then [s]
    else [s[..n]] + SplitOnSpaces(s[n + SpaceRun(s[n..])..])
  }

  /** The whitespace runs `split(/\s+/)` cuts at, in order. */
  function SpaceGaps(s: string): seq<string>
    decreases |s|
  {
    var n := WordRun(s);
    if n == |s| then []
    else
      var k := SpaceRun(s[n..]);
      [s[n..n + k]] + SpaceGaps(s[n + k..])
  }

  /** `parts[0] + gaps[0] + parts[1] + ... + parts[|parts| - 1]`. */
  function Interleave(parts: seq<string>, gaps: seq<string>): string
    requires |gaps| + 1 == |parts|
    decreases |gaps|
  {
    if gaps == [] then parts[0] else parts[0] + gaps[0] + Interleave(parts[1..], gaps[1..])
  }

  /** Each gap is a non-empty run of whitespace. */
  predicate SpaceRuns(gaps: seq<string>) {
    forall i :: 0 <= i < |gaps| ==> gaps[i] != "" && AllSpace(gaps[i])
  }

  /** Only the first and the last part may be empty. */
  predicate InnerPartsNonEmpty(parts: seq<string>) {
    forall i :: 0 < i < |parts| - 1 ==> parts[i] != ""
  }

  /** Where `split(/\s+/)` cuts: the string is its parts with one non-empty
      whitespace run between each two, the parts hold no whitespace, and
      only the first and the last part may be empty.  These facts fix the
      parts, so they characterise the split. */
  lemma {:induction false} SplitOnSpacesCuts(s: string)
    ensures var parts, gaps := SplitOnSpaces(s), SpaceGaps(s);
      && |gaps| + 1 == |parts|
      && SpaceRuns(gaps)
      && InnerPartsNonEmpty(parts)
      && Interleave(parts, gaps) == s
    decreases |s|
  {
    var n := WordRun(s);
    if n == |s| {
      assert s[..n] == s;
    } else {
      var k := SpaceRun(s[n..]);
      var rest := s[n + k..];
      SplitOnSpacesCuts(rest);
      CutsStep(s, n, k);
    }
  }

  /** One word and the whitespace run after it are cut off the front. */
  lemma CutsStep(s: string, n: nat, k: nat)
    requires n == WordRun(s) < |s| && k == SpaceRun(s[n..])
    requires var parts, gaps := SplitOnSpaces(s[n + k..]), SpaceGaps(s[n + k..]);
      |gaps| + 1 == |parts| && SpaceRuns(gaps) && InnerPartsNonEmpty(parts) && Interleave(parts, gaps) == s[n + k..]
    ensures var parts, gaps := SplitOnSpaces(s), SpaceGaps(s);
      |gaps| + 1 == |parts| && SpaceRuns(gaps) && InnerPartsNonEmpty(parts) && Interleave(parts, gaps) == s
  {
    var rest := s[n + k..];
    var parts, gaps := SplitOnSpaces(rest), SpaceGaps(rest);
    var gap := s[n..n + k];
    GapIsRun(s, n, k);
    SplitOnSpacesUnfold(s, n, k);
    SpaceGapsUnfold(s, n, k);
    SpaceRunsCons(gap, gaps);
    RestStartsWord(s, n, k);
    InnerPartsCons(s[..n], parts);
    InterleaveCons(s[..n], gap, parts, gaps);
    assert s == s[..n] + gap + rest;
  }

  lemma GapIsRun(s: string, n: nat, k: nat)
    requires n == WordRun(s) < |s| && k == SpaceRun(s[n..])
    ensures n + k <= |s| && s[n..n + k] != "" && AllSpace(s[n..n + k])
    ensures n + k == |s| || !IsSpace(s[n + k])
  {
    assert IsSpace(s[n..][0]);
    assert s[n..][..k] == s[n..n + k];
    assert n + k == |s| || s[n..][k] == s[n + k];
  }

  lemma SpaceGapsUnfold(s: string, n: nat, k: nat)
    requires n == WordRun(s) < |s| && k == SpaceRun(s[n..])
    ensures SpaceGaps(s) == [s[n..n + k]] + SpaceGaps(s[n + k..])
  {
  }

  lemma SpaceRunsCons(gap: string, gaps: seq<string>)
    requires gap != "" && AllSpace(gap) && SpaceRuns(gaps)
    ensures SpaceRuns([gap] + gaps)
  {
    forall i | 0 <= i < |gaps| + 1
      ensures ([gap] + gaps)[i] != "" && AllSpace(([gap] + gaps)[i])
    {
      if i > 0 { assert ([gap] + gaps)[i] == gaps[i - 1]; }
    }
  }

  /** What follows a gap starts a word, so a part that is not the last is not empty. */
  lemma RestStartsWord(s: string, n: nat, k: nat)
    requires n + k <= |s| && (n + k == |s| || !IsSpace(s[n + k]))
    ensures |SplitOnSpaces(s[n + k..])| > 1 ==> SplitOnSpaces(s[n + k..])[0] != ""
  {
    var rest := s[n + k..];
    if rest != [] {
      assert rest[0] == s[n + k];
    }
  }

  lemma InnerPartsCons(first: string, parts: seq<string>)
    requires InnerPartsNonEmpty(parts) && (|parts| > 1 ==> parts[0] != "")
    ensures InnerPartsNonEmpty([first] + parts)
  {
    forall i | 0 < i < |parts|
      ensures ([first] + parts)[i] != ""
    {
      assert ([first] + parts)[i] == parts[i - 1];
    }
  }

  lemma InterleaveCons(first: string, gap: string, parts: seq<string>, gaps: seq<string>)
    requires |gaps| + 1 == |parts|
    ensures Interleave([first] + parts, [gap] + gaps) == first + gap + Interleave(parts, gaps)
  {
    assert ([first] + parts)[1..] == parts;
    assert ([gap] + gaps)[1..] == gaps;
  }

  function Flatten(parts: seq<string>): string {
    if parts == [] then "" else parts[0] + Flatten(parts[1..])
  }

  /** Splitting on whitespace loses only the whitespace. */
  lemma {:induction false} SplitOnSpacesKeepsText(s: string)
    ensures Flatten(SplitOnSpaces(s)) == NonSpace(s)
    decreases |s|
  {
    var n := WordRun(s);
    if n == |s| {
      assert s[..n] == s;
      NonSpaceOfWord(s);
    } else {
      var k := SpaceRun(s[n..]);
      SplitOnSpacesStep(s, n, k);
      GapStep(s, n, k);
      SplitOnSpacesKeepsText(s[n + k..]);
    }
  }

  /** One word and the whitespace after it are split off the front. */
  lemma SplitOnSpacesStep(s: string, n: nat, k: nat)
    requires n == WordRun(s) < |s| && k == SpaceRun(s[n..])
    ensures Flatten(SplitOnSpaces(s)) == s[..n] + Flatten(SplitOnSpaces(s[n + k..]))
  {
    SplitOnSpacesUnfold(s, n, k);
    FlattenCons(s[..n], SplitOnSpaces(s[n + k..]));
  }

  lemma FlattenCons(first: string, rest: seq<string>)
    ensures Flatten([first] + rest) == first + Flatten(rest)
  {
    assert ([first] + rest)[1..] == rest;
  }

  lemma GapStep(s: string, n: nat, k: nat)
    requires n <= |s| && k <= |s| - n && NoSpace(s[..n]) && AllSpace(s[n..][..k])
    ensures NonSpace(s) == s[..n] + NonSpace(s[n + k..])
  {
    assert s[n..][..k] == s[n..n + k];
    WordGapRest(s, n, k);
  }

  lemma SplitOnSpacesUnfold(s: string, n: nat, k: nat)
    requires n == WordRun(s) < |s| && k == SpaceRun(s[n..])
    ensures SplitOnSpaces(s) == [s[..n]] + SplitOnSpaces(s[n + k..])
  {
  }

  lemma WordGapRest(s: string, n: nat, k: nat)
    requires n + k <= |s|
    requires NoSpace(s[..n]) && AllSpace(s[n..n + k])
    ensures NonSpace(s) == s[..n] + NonSpace(s[n + k..])
  {
    var word, gap, rest := s[..n], s[n..n + k], s[n + k..];
    assert s == word + (gap + rest);
    NonSpaceAppend(word, gap + rest);
    NonSpaceAppend(gap, rest);
    NonSpaceOfWord(word);
    NonSpaceOfSpaces(gap);
  }

  /** Joining words with single spaces and splitting on whitespace gives
      the words back. */
  lemma {:induction false} SplitOnSpacesJoin(words: seq<string>)
    requires |words| >= 1
    requires forall i :: 0 <= i < |words| ==> words[i] != "" && NoSpace(words[i])
    ensures SplitOnSpaces(JoinWith(words, ' ')) == words
  {
    var s := JoinWith(words, ' ');
    if |words| == 1 {
      assert WordRun(s) == |s| by { WordRunOfWord(s, ""); }
    } else {
      var tail := JoinWith(words[1..], ' ');
      var n := |words[0]|;
      SplitOnSpacesJoin(words[1..]);
      JoinStartsWith(words[1..], ' ');
      JoinGap(words[0], tail, words[1]);
      assert s == words[0] + ([' '] + tail);
      SplitOnSpacesUnfold(s, n, 1);
      assert words == [words[0]] + words[1..];
    }
  }

  /** A word, one space and text starting with a word: the word is the
      first run and the single space the gap after it. */
  lemma JoinGap(w: string, tail: string, next: string)
    requires w != "" && NoSpace(w) && next != "" && NoSpace(next)
    requires tail != [] && tail[0] == next[0]
    ensures var s := w + ([' '] + tail);
      WordRun(s) == |w| < |s| && s[..|w|] == w && SpaceRun(s[|w|..]) == 1 && s[|w| + 1..] == tail
  {
    var s := w + ([' '] + tail);
    WordRunOfWord(w, [' '] + tail);
    assert s[|w|..] == [' '] + tail;
    assert ([' '] + tail)[1..] == tail;
    assert !IsSpace(next[0]);
    assert SpaceRun(tail) == 0;
  }

  lemma {:induction false} WordRunOfWord(w: string, x: string)
    requires NoSpace(w)
    requires x == [] || IsSpace(x[0])
    ensures WordRun(w + x) == |w|
  {
    if w != [] {
      assert (w + x)[1..] == w[1..] + x;
      WordRunOfWord(w[1..], x);
    } else {
      assert w + x == x;
    }
  }

  lemma {:induction false} JoinStartsWith(parts: seq<string>, sep: char)
    requires |parts| >= 1 && parts[0] != ""
    ensures JoinWith(parts, sep) != [] && JoinWith(parts, sep)[0] == parts[0][0]
  {
  }

  function DigitChar(d: int): char
    requires 0 <= d < 10
  {
    ('0' as int + d) as char
  }

  /** `String(n)` for a non-negative integer. */
  function NatToString(n: nat): (r: string)
    ensures |r| >= 1
    ensures forall i :: 0 <= i < |r| ==> '0' <= r[i] <= '9'
    ensures r[0] == '0' <==> n == 0
  {
    if n < 10 then [DigitChar(n)] else NatToString(n / 10) + [DigitChar(n % 10)]
  }

  /** `String(n)` for an integer. */
  function IntToString(n: int): string {
    if n < 0 then "-" + NatToString(-n) else NatToString(n)
  }

  /** The value of a string of decimal digits. */
  function DigitsValue(s: string): nat
    requires forall i :: 0 <= i < |s| ==> '0' <= s[i] <= '9'
  {
    if s == [] then 0 else DigitsValue(s[..|s| - 1]) * 10 + (s[|s| - 1] as int - '0' as int)
  }

  /** The decimal form of a number reads back as that number. */
  lemma {:induction false} NatToStringValue(n: nat)
    ensures DigitsValue(NatToString(n)) == n
  {
    if n >= 10 {
      var s := NatToString(n);
      assert s[..|s| - 1] == NatToString(n / 10);
      NatToStringValue(n / 10);
    }
  }
}
