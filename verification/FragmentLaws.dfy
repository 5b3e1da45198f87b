/** What a fragment is, word by word, and what the scan therefore catches, with every limit in numbers. */
module FragmentLaws {
  import opened Text
  import TextLaws
  import opened Fingerprints

  /** A word is cut to what lies between its first and its last alphanumeric character. */
  lemma CleanedMeans(word: string, alnum: Alphanumeric) returns (i: nat, j: nat)
    ensures i <= j <= |word| && Cleaned(word, alnum) == word[i..j]
    ensures forall k :: 0 <= k < i || j <= k < |word| ==> !alnum(word[k])
    ensures i < j ==> alnum(word[i]) && alnum(word[j - 1])
  {
    hide TrimMatches;
    i, j := TextLaws.TrimMeans(word, c => !alnum(c));
  }

  /** Cleaning goes word by word, and drops the words of which nothing is left. */
  lemma {:induction false} CleanWordsMean(a: seq<string>, b: seq<string>, word: string, alnum: Alphanumeric)
    ensures CleanWords(a + b, alnum) == CleanWords(a, alnum) + CleanWords(b, alnum)
    ensures CleanWords([word], alnum) == if Cleaned(word, alnum) == "" then [] else [Cleaned(word, alnum)]
    decreases |b|
  {
    hide Cleaned;
    assert [word][..0] == [];
    if b == [] {
      assert a + b == a;
    } else {
      assert (a + b)[..|a + b| - 1] == a + b[..|b| - 1];
      CleanWordsMean(a, b[..|b| - 1], word, alnum);
    }
  }

  lemma PhraseOfThree(x: string, y: string, z: string)
    ensures Phrase([x, y, z]) == x + " " + y + " " + z
  {
    var three, two := [x, y, z], [x, y];
    assert three[..2] == two && two[..1] == [x];
    assert Join(two, " ") == x + " " + y;
    assert Join(three, " ") == Join(two, " ") + " " + z;
  }

  lemma PhraseOfFour(w: string, x: string, y: string, z: string)
    ensures Phrase([w, x, y, z]) == w + " " + x + " " + y + " " + z
  {
    PhraseOfThree(w, x, y);
    assert [w, x, y, z][..3] == [w, x, y];
  }

  ghost predicate ThreeInARow(words: seq<string>, f: string, i: nat) {
    i + 3 <= |words| && f == words[i] + " " + words[i + 1] + " " + words[i + 2]
  }

  ghost predicate FourInARow(words: seq<string>, f: string, i: nat) {
    i + 4 <= |words| && f == words[i] + " " + words[i + 1] + " " + words[i + 2] + " " + words[i + 3]
  }

  lemma RunOfThree(words: seq<string>, i: nat, f: string)
    requires i + 3 <= |words|
    ensures f == Phrase(words[i..i + 3]) <==> ThreeInARow(words, f, i)
  {
    hide Phrase;
    assert words[i..i + 3] == [words[i], words[i + 1], words[i + 2]];
    PhraseOfThree(words[i], words[i + 1], words[i + 2]);
  }

  lemma RunOfFour(words: seq<string>, i: nat, f: string)
    requires i + 4 <= |words|
    ensures f == Phrase(words[i..i + 4]) <==> FourInARow(words, f, i)
  {
    hide Phrase;
    assert words[i..i + 4] == [words[i], words[i + 1], words[i + 2], words[i + 3]];
    PhraseOfFour(words[i], words[i + 1], words[i + 2], words[i + 3]);
  }

  /** Three or four consecutive words, one space apart, of 24 characters or more. */
  lemma PhrasesAre(words: seq<string>, f: string)
    ensures IsPhrase(words, f) <==>
            |f| >= 24 && ((exists i :: ThreeInARow(words, f, i)) || (exists i :: FourInARow(words, f, i)))
  {
    hide Phrase, ThreeInARow, FourInARow;
    if IsPhrase(words, f) {
      var i, j :| 0 <= i <= j <= |words| && 3 <= j - i <= 4 && f == Phrase(words[i..j]);
      if j == i + 3 { RunOfThree(words, i, f); } else { RunOfFour(words, i, f); }
    }
    if i :| ThreeInARow(words, f, i) && |f| >= 24 {
      InRange(words, f, i);
      RunOfThree(words, i, f);
    }
    if i :| FourInARow(words, f, i) && |f| >= 24 {
      InRange(words, f, i);
      RunOfFour(words, i, f);
    }
  }

  lemma InRange(words: seq<string>, f: string, i: nat)
    ensures ThreeInARow(words, f, i) ==> i + 3 <= |words|
    ensures FourInARow(words, f, i) ==> i + 4 <= |words|
  {
  }

  /** A field and the source have a fragment in common, in lines that are compared. */
  ghost predicate ShareFragment(alnum: Alphanumeric, field: string, source: seq<SourceLine>, f: string) {
    && (exists line :: line in Lines(field) && IsFragment(line, alnum, f))
    && exists l, line :: l in source && l.bytes <= 8388608 && l.decodes && line in Lines(l.text)
                         && IsFragment(line, alnum, f)
  }

  /** Whatever the hash, a shared fragment is a hit. */
  lemma SharedFragmentIsCaught<H(!new)>(p: Printer<H>, field: string, source: seq<SourceLine>, f: string)
    requires ShareFragment(p.alnum, field, source, f)
    ensures Hits(p, field, source)
  {
    hide IsFragment;
    var h := p.hash(f);
    var a :| a in Lines(field) && IsFragment(a, p.alnum, f);
    assert LineHash(p, a, h);
    var l, b :| l in source && l.bytes <= 8388608 && l.decodes && b in Lines(l.text) && IsFragment(b, p.alnum, f);
    assert LineHash(p, b, h) && LinesHash(p, Lines(l.text), h);
    assert LinesHash(p, Lines(field), h) && Compared(l) && SourceHash(p, source, h);
  }

  /** A line of 24 characters or more that is copied, with any indentation, is a hit. */
  lemma CopiedLineIsCaught<H(!new)>(
      p: Printer<H>, field: string, source: seq<SourceLine>, a: string, l: SourceLine, b: string)
    requires a in Lines(field) && l in source && l.bytes <= 8388608 && l.decodes && b in Lines(l.text)
    requires TrimMatches(a, IsWhitespace) == TrimMatches(b, IsWhitespace) && |TrimMatches(a, IsWhitespace)| >= 24
    ensures Hits(p, field, source)
  {
    hide IsPhrase, TrimMatches, Lines, Words, CleanWords, Hits;
    var f := TrimMatches(a, IsWhitespace);
    assert IsFragment(a, p.alnum, f) && IsFragment(b, p.alnum, f);
    SharedFragmentIsCaught(p, field, source, f);
  }

  /** A line that is too long, or does not decode, is passed over. */
  lemma OthersAreNotCompared<H(!new)>(p: Printer<H>, field: string, source: seq<SourceLine>)
    requires forall l :: l in source ==> l.bytes > 8388608 || !l.decodes
    ensures !Hits(p, field, source)
  {
    hide LinesHash;
  }

  /** 250000 distinct fingerprints are held, one more is too many; the source is limited to 512 MiB. */
  lemma LimitsAre<H(!new)>(p: Printer<H>, fields: seq<string>, source: seq<SourceLine>, k: nat)
    requires k < |source|
    ensures TooMany(p, fields) <==> exists s: set<H> :: |s| > 250_000 && AllProduced(p, fields, s)
    ensures PassesLimit(source, k) <==> TotalBytes(source[..k + 1]) > 536_870_912
  {
    hide AllProduced, TotalBytes;
  }

  lemma {:induction false} BytesAddUp(a: seq<SourceLine>, b: seq<SourceLine>, l: SourceLine)
    ensures TotalBytes(a + b) == TotalBytes(a) + TotalBytes(b) && TotalBytes([l]) == l.bytes
    decreases |b|
  {
    assert [l][..0] == [];
    if b == [] {
      assert a + b == a;
    } else {
      assert (a + b)[..|a + b| - 1] == a + b[..|b| - 1];
      BytesAddUp(a, b[..|b| - 1], l);
    }
  }
}
