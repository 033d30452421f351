/**
 * The check a rendered page must pass before it is accepted: an opening
 * `<html` or `<!doctype` after leading whitespace, and a closing `/html>`
 * before trailing whitespace, both without regard to letter case.
 *
 * The two regular expressions are stated as they match (`MatchesOpenPattern`,
 * `MatchesClosePattern`: some position splits the text as the pattern
 * requires) and decided by trimming (`HasOpenMarker`, `HasCloseMarker`);
 * the lemmas show each pair agrees on every string.
 */
module Validation {
  import opened Wrappers
  import opened JsText

  const NoOpenTagMessage: string := "Could not found html tag or doctype info"
  const NoCloseTagMessage: string := "Could not found close html tag"

  /** `/^\s*(<html|<!doctype)/i` matches `s`. */
  ghost predicate MatchesOpenPattern(s: string) {
    exists k :: 0 <= k <= |s| && AllSpace(s[..k]) && OpensDocument(s[k..])
  }

  predicate OpensDocument(s: string) {
    StartsWithIgnoringCase(s, "<html") || StartsWithIgnoringCase(s, "<!doctype")
  }

  /** `/\/html\s*>\s*$/i` matches `s`: `/html` at `i`, whitespace up to a
      `>` at `j`, and whitespace from there to the end. */
  ghost predicate MatchesClosePattern(s: string) {
    exists i, j :: 0 <= i && i + 5 <= j < |s| && ClosesAt(s, i, j)
  }

  ghost predicate ClosesAt(s: string, i: int, j: int)
    requires 0 <= i && i + 5 <= j < |s|
  {
    EqualIgnoringCase(s[i..i + 5], "/html") && AllSpace(s[i + 5..j]) && s[j] == '>' && AllSpace(s[j + 1..])
  }

  predicate HasOpenMarker(s: string) {
    OpensDocument(TrimStart(s))
  }

  predicate HasCloseMarker(s: string) {
    var t := TrimEnd(s);
    t != [] && t[|t| - 1] == '>' && EndsWithIgnoringCase(TrimEnd(t[..|t| - 1]), "/html")
  }

  lemma FoldsToAngle(c: char)
    requires FoldCase(c) == '<'
    ensures c == '<'
  {
  }

  lemma FoldsToLetter(c: char)
    requires FoldCase(c) == 'L'
    ensures !IsSpace(c)
  {
  }

  lemma OpensWithAngle(t: string)
    requires OpensDocument(t)
    ensures t != [] && t[0] == '<'
  {
    if StartsWithIgnoringCase(t, "<html") {
      assert t[..5][0] == t[0];
      assert FoldCase(t[0]) == FoldCase("<html"[0]);
    } else {
      assert t[..9][0] == t[0];
      assert FoldCase(t[0]) == FoldCase("<!doctype"[0]);
    }
    FoldsToAngle(t[0]);
  }

  lemma OpenPatternAtSpaceRun(s: string, k: int)
    requires 0 <= k <= |s| && AllSpace(s[..k]) && OpensDocument(s[k..])
    ensures k == SpaceRun(s)
  {
    OpensWithAngle(s[k..]);
    assert s[k..][0] == s[k];
    SpaceRunCovers(s, k);
    SpaceRunStops(s, k);
  }

  lemma OpenMarkerMatches(s: string)
    ensures HasOpenMarker(s) <==> MatchesOpenPattern(s)
  {
    var n := SpaceRun(s);
    if HasOpenMarker(s) {
      assert AllSpace(s[..n]) && OpensDocument(s[n..]);
    }
    if MatchesOpenPattern(s) {
      var k :| 0 <= k <= |s| && AllSpace(s[..k]) && OpensDocument(s[k..]);
      OpenPatternAtSpaceRun(s, k);
    }
  }

  /** The text ends, before trailing whitespace, with `/html`, whitespace and
      `>` when and only when it has the `a + w1 + ">" + w2` shape below. */
  lemma CloseMarkerFromPattern(s: string, i: int, j: int)
    requires 0 <= i && i + 5 <= j < |s| && ClosesAt(s, i, j)
    ensures HasCloseMarker(s)
  {
    assert s == s[..j + 1] + s[j + 1..];
    TrimEndOf(s[..j + 1], s[j + 1..]);
    var t := TrimEnd(s);
    assert t[..|t| - 1] == s[..j];
    assert s[..j] == s[..i + 5] + s[i + 5..j];
    assert s[..i + 5][i + 4] == s[i..i + 5][4];
    FoldsToLetter(s[i + 4]);
    TrimEndOf(s[..i + 5], s[i + 5..j]);
    assert s[..i + 5][i..] == s[i..i + 5];
  }

  lemma PatternFromCloseMarker(s: string)
    requires HasCloseMarker(s)
    ensures MatchesClosePattern(s)
  {
    var t := TrimEnd(s);
    var j := |t| - 1;
    var u := TrimEnd(t[..j]);
    var i := |u| - 5;
    assert s[..j] == t[..j];
    assert s[j + 1..] == s[|s| - TrailingSpaceRun(s)..];
    assert s[i + 5..j] == t[..j][|t[..j]| - TrailingSpaceRun(t[..j])..];
    assert s[i..i + 5] == u[|u| - 5..];
    assert ClosesAt(s, i, j);
  }

  lemma CloseMarkerMatches(s: string)
    ensures HasCloseMarker(s) <==> MatchesClosePattern(s)
  {
    if HasCloseMarker(s) {
      PatternFromCloseMarker(s);
    }
    if MatchesClosePattern(s) {
      var i, j :| 0 <= i && i + 5 <= j < |s| && ClosesAt(s, i, j);
      CloseMarkerFromPattern(s, i, j);
    }
  }

  /** `_validateContentAndGetValidationError`: `None` is `null`.  The
      opening check comes first. */
  function ValidationError(content: string): Option<string> {
    if !HasOpenMarker(content) then Some(NoOpenTagMessage)
    else if !HasCloseMarker(content) then Some(NoCloseTagMessage)
    else None
  }

  /** The error names the first of the two patterns that does not match,
      and there is none exactly when both match. */
  lemma ValidationErrorMeaning(content: string)
    ensures ValidationError(content) == Some(NoOpenTagMessage) <==> !MatchesOpenPattern(content)
    ensures ValidationError(content) == Some(NoCloseTagMessage) <==>
      MatchesOpenPattern(content) && !MatchesClosePattern(content)
    ensures ValidationError(content).None? <==> MatchesOpenPattern(content) && MatchesClosePattern(content)
  {
    OpenMarkerMatches(content);
    CloseMarkerMatches(content);
  }
}
