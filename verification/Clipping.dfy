/** Provider text made to fit: one line, single spaces, cut at a word boundary. */
module Clipping {
  import opened Text

  function OneLine(s: string): string {
    Join(Words(s), " ")
  }

  function LastSpace(s: string): (k: nat)
    ensures k <= |s| && (k < |s| ==> s[k] == ' ')
    ensures forall i :: 0 <= i < |s| && (i > k || k == |s|) ==> s[i] != ' '
  {
    if s == "" then 0
    else if s[|s| - 1] == ' ' then |s| - 1
    else
      var k := LastSpace(s[..|s| - 1]);
      if k < |s| - 1 then k else |s|
  }

  /**
   Where a line that is too long is cut: at the last space within the budget, unless that loses more than
   half. The position of the space is compared in bytes, the budget is in characters.
   */
  function CutPoint(line: string, maximum: nat): (end: nat)
    requires |line| > maximum
    ensures end < |line| && end + 1 <= if maximum == 0 then 1 else maximum
  {
    var cut := line[..if maximum == 0 then 0 else maximum - 1];
    var space := LastSpace(cut);
    if space < |cut| && Utf8Length(cut[..space]) > maximum / 2 then space else |cut|
  }

  function Cut(line: string, end: nat): string
    requires end <= |line|
  {
    TrimEnd(line[..end], IsWhitespace) + "\U{2026}"
  }

  /** The text on one line, cut if it is too long. */
  function Clipped(value: string, maximum: nat): string {
    var line := OneLine(value);
    if |line| <= maximum then line else Cut(line, CutPoint(line, maximum))
  }

  /** Single spaces between words, and no other whitespace. */
  predicate SingleSpaced(s: string) {
    Spaced(s) && (s == "" || !IsWhitespace(s[|s| - 1]))
  }

  predicate Spaced(s: string) {
    forall i :: 0 <= i < |s| && IsWhitespace(s[i]) ==> s[i] == ' ' && i > 0 && !IsWhitespace(s[i - 1])
  }

  predicate CleanWord(w: string) {
    w != "" && forall i :: 0 <= i < |w| ==> !IsWhitespace(w[i])
  }

  lemma {:induction false} WordLengthIsClean(s: string)
    ensures forall i :: 0 <= i < WordLength(s) ==> !IsWhitespace(s[i])
  {
    if s != "" && !IsWhitespace(s[0]) {
      WordLengthIsClean(s[1..]);
      forall i | 0 < i < WordLength(s) ensures !IsWhitespace(s[i]) {
        assert s[i] == s[1..][i - 1];
      }
    }
  }

  lemma {:induction false} WordsAreClean(s: string)
    ensures forall k :: 0 <= k < |Words(s)| ==> CleanWord(Words(s)[k])
    decreases |s|
  {
    if s != "" {
      if IsWhitespace(s[0]) {
        WordsAreClean(s[1..]);
      } else {
        WordLengthIsClean(s);
        WordsAreClean(s[WordLength(s)..]);
      }
    }
  }

  lemma {:induction false} JoinIsSingleSpaced(words: seq<string>)
    requires forall k :: 0 <= k < |words| ==> CleanWord(words[k])
    ensures SingleSpaced(Join(words, " "))
    ensures words != [] ==> Join(words, " ") != ""
  {
    if |words| > 1 {
      JoinIsSingleSpaced(words[..|words| - 1]);
      SpacedAppend(Join(words[..|words| - 1], " "), words[|words| - 1]);
    }
  }

  lemma SpacedAppend(a: string, w: string)
    requires SingleSpaced(a) && a != "" && CleanWord(w)
    ensures SingleSpaced(a + " " + w)
  {
    var s := a + " " + w;
    assert forall i :: 0 <= i < |a| ==> s[i] == a[i];
    assert forall i :: |a| < i < |s| ==> s[i] == w[i - |a| - 1];
  }

  lemma {:induction false} TrimEndOfSpaced(s: string)
    requires Spaced(s)
    ensures SingleSpaced(TrimEnd(s, IsWhitespace)) && |TrimEnd(s, IsWhitespace)| <= |s|
  {
    if s != "" && IsWhitespace(s[|s| - 1]) {
      TrimEndOfSpaced(s[..|s| - 1]);
    }
  }

  lemma {:induction false} TrimEndIsPrefix(s: string)
    ensures TrimEnd(s, IsWhitespace) <= s
  {
    if s != "" && IsWhitespace(s[|s| - 1]) {
      TrimEndIsPrefix(s[..|s| - 1]);
    }
  }

  /** A proper part of the line from its start, closed by an ellipsis. */
  predicate CutFrom(cut: string, line: string) {
    cut != "" && cut[|cut| - 1] == '\U{2026}' && cut[..|cut| - 1] <= line && |cut| - 1 < |line|
  }

  lemma CutFits(line: string, end: nat)
    requires SingleSpaced(line) && end < |line|
    ensures SingleSpaced(Cut(line, end)) && 1 <= |Cut(line, end)| <= end + 1 && CutFrom(Cut(line, end), line)
  {
    hide TrimEnd;
    var kept := TrimEnd(line[..end], IsWhitespace);
    assert Spaced(line[..end]);
    TrimEndOfSpaced(line[..end]);
    TrimEndIsPrefix(line[..end]);
    assert Cut(line, end)[..|kept|] == kept;
  }

  /** Clipped text is one line of single-spaced words within its budget: the line, or a part from its start. */
  lemma ClippedFits(value: string, maximum: nat)
    ensures SingleSpaced(Clipped(value, maximum))
    ensures |Clipped(value, maximum)| <= if maximum == 0 then 1 else maximum
    ensures Clipped(value, maximum) == "" <==> Words(value) == []
    ensures if |OneLine(value)| <= maximum then Clipped(value, maximum) == OneLine(value)
            else CutFrom(Clipped(value, maximum), OneLine(value))
  {
    hide Words, SingleSpaced, CutFrom, Cut, CutPoint;
    var line := OneLine(value);
    WordsAreClean(value);
    JoinIsSingleSpaced(Words(value));
    if |line| > maximum {
      CutFits(line, CutPoint(line, maximum));
    }
  }

  /** The last word boundary within the budget, one character of which the ellipsis takes. */
  predicate IsLastBoundary(line: string, maximum: nat, at: nat) {
    at < maximum - 1 < |line| && line[at] == ' ' && forall i :: at < i < maximum - 1 ==> line[i] != ' '
  }

  lemma BoundaryIsLastSpace(line: string, maximum: nat, at: nat)
    requires 0 < maximum <= |line|
    ensures var space := LastSpace(line[..maximum - 1]);
            IsLastBoundary(line, maximum, at) <==> at == space && space < maximum - 1
  {
    hide LastSpace;
    var cut := line[..maximum - 1];
    var space := LastSpace(cut);
    assert forall i :: 0 <= i < |cut| ==> cut[i] == line[i];
    if IsLastBoundary(line, maximum, at) {
      assert cut[at] == ' ';
    }
  }

  /** A word ends before every boundary, so that nothing is left to trim. */
  lemma CutAtBoundary(line: string, at: nat)
    requires SingleSpaced(line) && at < |line| && line[at] == ' '
    ensures at > 0 && !IsWhitespace(line[at - 1]) && Cut(line, at) == line[..at] + "\U{2026}"
  {
    assert IsWhitespace(' ');
  }

  /**
   A line that is too long is cut at the last word boundary within the budget, after a whole word, if that
   boundary lies past half of it; only otherwise is it cut where the budget ends.
   */
  lemma CutFallsOnBoundary(value: string, maximum: nat)
    requires |OneLine(value)| > maximum
    ensures var line, cut := OneLine(value), Clipped(value, maximum);
            && (forall at: nat :: IsLastBoundary(line, maximum, at) && Utf8Length(line[..at]) > maximum / 2 ==>
                  cut == line[..at] + "\U{2026}" && at > 0 && !IsWhitespace(line[at - 1]))
            && ((forall at: nat :: IsLastBoundary(line, maximum, at) ==> Utf8Length(line[..at]) <= maximum / 2) ==>
                  cut == Cut(line, if maximum == 0 then 0 else maximum - 1))
  {
    hide Words, Utf8Length, Cut, LastSpace, IsLastBoundary, Join;
    var line := OneLine(value);
    WordsAreClean(value);
    JoinIsSingleSpaced(Words(value));
    if maximum == 0 {
      NoBoundary(line);
    } else {
      var end := maximum - 1;
      var space := LastSpace(line[..end]);
      assert line[..end][..space] == line[..space];
      forall at: nat ensures IsLastBoundary(line, maximum, at) <==> at == space && space < end {
        BoundaryIsLastSpace(line, maximum, at);
      }
      if space < end {
        assert line[space] == line[..end][space];
        CutAtBoundary(line, space);
      }
    }
  }

  lemma NoBoundary(line: string)
    ensures forall at: nat :: !IsLastBoundary(line, 0, at)
  {
  }
}
