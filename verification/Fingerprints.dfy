/**
 Detecting repository text inside narrative fields by comparing hashes of lines and short phrases.

 The hash and the Unicode alphanumeric test are parameters. `Hits` is what the streaming scan decides
 for any hash; for an injective one it is exactly sharing a fragment.
 */
module Fingerprints {
  import opened Common
  import opened Text

  const MIN_FINGERPRINT_CHARS := 24
  const MAX_FINGERPRINTS := 250_000
  const MAX_BLOB_BYTES := 8 * 1024 * 1024
  const MAX_SNAPSHOT_BYTES := 512 * 1024 * 1024

  type Alphanumeric = char -> bool

  function Cleaned(word: string, alnum: Alphanumeric): string {
    TrimMatches(word, c => !alnum(c))
  }

  /** The words without surrounding punctuation, those that vanish left out. */
  function CleanWords(words: seq<string>, alnum: Alphanumeric): seq<string> {
    if words == [] then []
    else
      var last := Cleaned(words[|words| - 1], alnum);
      CleanWords(words[..|words| - 1], alnum) + if last == "" then [] else [last]
  }

  // Fragments, declaratively.

  function Phrase(words: seq<string>): string {
    Join(words, " ")
  }

  /** `f` is a run of three or four consecutive words, long enough. */
  ghost predicate IsPhrase(words: seq<string>, f: string) {
    |f| >= MIN_FINGERPRINT_CHARS
    && exists i, j :: 0 <= i <= j <= |words| && 3 <= j - i <= 4 && f == Phrase(words[i..j])
  }

  ghost predicate IsWholeLine(line: string, f: string) {
    |f| >= MIN_FINGERPRINT_CHARS && f == TrimMatches(line, IsWhitespace)
  }

  ghost predicate IsFragment(line: string, alnum: Alphanumeric, f: string) {
    IsWholeLine(line, f) || IsPhrase(CleanWords(Words(line), alnum), f)
  }

  ghost predicate InLines(lines: seq<string>, alnum: Alphanumeric, f: string) {
    exists line :: line in lines && IsFragment(line, alnum, f)
  }

  ghost predicate InText(text: string, alnum: Alphanumeric, f: string) {
    InLines(Lines(text), alnum, f)
  }

  // The walk over one line.

  function LastFour(words: seq<string>): seq<string> {
    if |words| <= 4 then words else words[|words| - 4..]
  }

  function Suffix(words: seq<string>, n: nat): seq<string>
    requires n <= |words|
  {
    words[|words| - n..]
  }

  ghost predicate EndsWithRun(words: seq<string>, f: string) {
    |f| >= MIN_FINGERPRINT_CHARS
    && exists n | 3 <= n <= 4 && n <= |words| :: f == Phrase(Suffix(words, n))
  }

  lemma SuffixOfWindow(words: seq<string>, n: nat)
    requires n <= 4
    ensures n <= |words| <==> n <= |LastFour(words)|
    ensures n <= |words| ==> Suffix(LastFour(words), n) == Suffix(words, n)
  {
  }

  lemma WindowSuffices(words: seq<string>, f: string)
    ensures EndsWithRun(LastFour(words), f) <==> EndsWithRun(words, f)
  {
    hide Phrase, LastFour, Suffix;
    SuffixOfWindow(words, 3);
    SuffixOfWindow(words, 4);
  }

  /** One more word adds the runs that end with it. */
  lemma PhraseExtends(words: seq<string>, word: string, f: string)
    ensures IsPhrase(words + [word], f) <==> IsPhrase(words, f) || EndsWithRun(words + [word], f)
  {
    hide IsPhrase, EndsWithRun;
    if IsPhrase(words + [word], f) {
      NewPhrase(words, word, f);
    }
    if IsPhrase(words, f) {
      OldPhrase(words, word, f);
    }
    if EndsWithRun(words + [word], f) {
      LastPhrase(words + [word], f);
    }
  }

  lemma OldRun(words: seq<string>, word: string, i: nat, j: nat)
    requires i <= j <= |words|
    ensures (words + [word])[i..j] == words[i..j]
  {
  }

  lemma RunIsSuffix(words: seq<string>, i: nat)
    requires i <= |words|
    ensures words[i..|words|] == Suffix(words, |words| - i)
  {
  }

  lemma OldPhrase(words: seq<string>, word: string, f: string)
    requires IsPhrase(words, f)
    ensures IsPhrase(words + [word], f)
  {
    hide Phrase;
    var i, j :| 0 <= i <= j <= |words| && 3 <= j - i <= 4 && f == Phrase(words[i..j]);
    OldRun(words, word, i, j);
  }

  lemma LastPhrase(words: seq<string>, f: string)
    requires EndsWithRun(words, f)
    ensures IsPhrase(words, f)
  {
    hide Phrase, Suffix;
    var n :| 3 <= n <= 4 && n <= |words| && f == Phrase(Suffix(words, n));
    RunIsSuffix(words, |words| - n);
  }

  lemma NewPhrase(words: seq<string>, word: string, f: string)
    requires IsPhrase(words + [word], f)
    ensures IsPhrase(words, f) || EndsWithRun(words + [word], f)
  {
    hide Phrase, Suffix;
    var more := words + [word];
    var i, j :| 0 <= i <= j <= |more| && 3 <= j - i <= 4 && f == Phrase(more[i..j]);
    if j <= |words| {
      OldRun(words, word, i, j);
    } else {
      RunIsSuffix(more, i);
    }
  }

  method JoinParts(parts: seq<string>) returns (text: string, characters: nat)
    ensures text == Phrase(parts) && characters == |text|
  {
    text, characters := "", 0;
    for index := 0 to |parts|
      invariant text == Phrase(parts[..index]) && characters == |text|
    {
      assert parts[..index + 1][..index] == parts[..index];
      if index > 0 {
        text, characters := text + " ", characters + 1;
      }
      text, characters := text + parts[index], characters + |parts[index]|;
    }
    assert parts[..|parts|] == parts;
  }

  /** The phrases that end with the newest word of the window. */
  method WindowPhrases(window: seq<string>) returns (out: seq<string>)
    requires |window| <= 4
    ensures forall f :: f in out <==> EndsWithRun(window, f)
  {
    hide Phrase;
    out := [];
    var count := 3;
    while count <= |window|
      invariant 3 <= count
      invariant forall f :: f in out ==> EndsWithRun(window, f)
      invariant forall n | 3 <= n < count && n <= |window| ::
                  |Phrase(Suffix(window, n))| >= MIN_FINGERPRINT_CHARS ==> Phrase(Suffix(window, n)) in out
    {
      var phrase, characters := JoinParts(Suffix(window, count));
      if characters >= MIN_FINGERPRINT_CHARS {
        out := out + [phrase];
      }
      count := count + 1;
    }
  }

  method WholeLine(line: string) returns (out: seq<string>)
    ensures forall f :: f in out <==> IsWholeLine(line, f)
  {
    var trimmed := TrimMatches(line, IsWhitespace);
    out := if |trimmed| >= MIN_FINGERPRINT_CHARS then [trimmed] else [];
  }

  lemma NoPhrases()
    ensures forall f :: !IsPhrase([], f)
  {
  }

  /** The window after one more word is again the last four words. */
  lemma WindowSlides(words: seq<string>, word: string)
    ensures var window := LastFour(words) + [word];
            LastFour(words + [word]) == (if |window| > 4 then window[1..] else window)
    ensures |LastFour(words + [word])| <= 4
  {
  }

  lemma OneMoreCleanWord(words: seq<string>, k: nat, alnum: Alphanumeric)
    requires k < |words|
    ensures var word := Cleaned(words[k], alnum);
            CleanWords(words[..k + 1], alnum) == CleanWords(words[..k], alnum) + if word == "" then [] else [word]
  {
    assert words[..k + 1][..k] == words[..k];
  }

  /** `out` lists the whole line and the phrases of the words so far. */
  ghost predicate Lists(out: seq<string>, line: string, words: seq<string>) {
    forall f :: f in out <==> IsWholeLine(line, f) || IsPhrase(words, f)
  }

  lemma ListsMore(out: seq<string>, line: string, words: seq<string>, word: string, phrases: seq<string>)
    requires Lists(out, line, words)
    requires forall f :: f in phrases <==> EndsWithRun(LastFour(words + [word]), f)
    ensures Lists(out + phrases, line, words + [word])
  {
    hide IsPhrase, EndsWithRun, IsWholeLine, LastFour;
    forall f ensures f in out + phrases <==> IsWholeLine(line, f) || IsPhrase(words + [word], f) {
      PhraseExtends(words, word, f);
      WindowSuffices(words + [word], f);
    }
  }

  /** Streams the fragments of a line through a window of four words. */
  method EachFragment(line: string, alnum: Alphanumeric) returns (out: seq<string>)
    ensures forall f :: f in out <==> IsFragment(line, alnum, f)
  {
    hide IsPhrase, EndsWithRun, IsWholeLine, LastFour, CleanWords, Cleaned, Words;
    out := WholeLine(line);
    NoPhrases();
    var words := Words(line);
    var window: seq<string> := [];
    ghost var clean: seq<string> := [];
    NoWords(alnum);
    for k := 0 to |words|
      invariant clean == CleanWords(words[..k], alnum) && window == LastFour(clean)
      invariant Lists(out, line, clean)
    {
      hide Lists;
      OneMoreCleanWord(words, k, alnum);
      var word := Cleaned(words[k], alnum);
      if word != "" {
        WindowSlides(clean, word);
        window := window + [word];
        if |window| > 4 {
          window := window[1..];
        }
        var phrases := WindowPhrases(window);
        ListsMore(out, line, clean, word, phrases);
        clean := clean + [word];
        out := out + phrases;
      }
    }
    assert words[..|words|] == words;
  }

  lemma NoWords(alnum: Alphanumeric)
    ensures CleanWords([], alnum) == [] && LastFour([]) == []
  {
  }

  // The table of narrative fingerprints.

  /** A hash function together with the alphanumeric test. */
  datatype Printer<!H(==)> = Printer(hash: string -> H, alnum: Alphanumeric)

  type Table<!H(==)> = map<H, seq<nat>>

  ghost predicate LineHash<H>(p: Printer<H>, line: string, h: H) {
    exists f :: IsFragment(line, p.alnum, f) && p.hash(f) == h
  }

  ghost predicate LinesHash<H>(p: Printer<H>, lines: seq<string>, h: H) {
    exists line :: line in lines && LineHash(p, line, h)
  }

  ghost predicate Owns<H>(t: Table<H>, h: H, i: nat) {
    h in t && i in t[h]
  }

  /** `t` is `before` with the hashes of `added` given to field `index`. */
  ghost predicate Extends<H(!new)>(before: Table<H>, t: Table<H>, added: set<H>, index: nat) {
    && (forall h, i :: Owns(t, h, i) <==> Owns(before, h, i) || (i == index && h in added))
    && t.Keys == before.Keys + added
  }

  lemma ExtendsTwice<H(!new)>(a: Table<H>, b: Table<H>, c: Table<H>, x: set<H>, y: set<H>, index: nat)
    requires Extends(a, b, x, index) && Extends(b, c, y, index)
    ensures Extends(a, c, x + y, index)
  {
  }

  lemma ExtendedKeys<H(!new)>(a: Table<H>, b: Table<H>, x: set<H>, y: set<H>, index: nat)
    requires Extends(a, b, x, index)
    ensures b.Keys == a.Keys + x && b.Keys + y == a.Keys + (x + y)
  {
  }

  lemma ExtendedOwners<H(!new)>(a: Table<H>, b: Table<H>, x: set<H>, index: nat)
    requires Extends(a, b, x, index)
    ensures forall h, i: nat :: Owns(b, h, i) <==> Owns(a, h, i) || (i == index && h in x)
  {
  }

  lemma NothingAdded<H(!new)>(t: Table<H>, index: nat)
    ensures Extends(t, t, {}, index)
  {
  }

  method AddFingerprint<H(==, !new)>(before: Table<H>, h: H, index: nat) returns (ok: bool, t: Table<H>)
    requires |before| <= MAX_FINGERPRINTS
    ensures ok <==> |before.Keys + {h}| <= MAX_FINGERPRINTS
    ensures ok ==> Extends(before, t, {h}, index)
  {
    t := before;
    assert h in before ==> before.Keys + {h} == before.Keys;
    if h !in before && |before| >= MAX_FINGERPRINTS {
      return false, t;
    }
    var owners := if h in before then before[h] else [];
    if index !in owners {
      owners := owners + [index];
    }
    ok, t := true, before[h := owners];
  }

  ghost function HashesOf<H>(p: Printer<H>, fragments: seq<string>): set<H> {
    set f | f in fragments :: p.hash(f)
  }

  lemma HashesExtend<H>(p: Printer<H>, fragments: seq<string>, k: nat)
    requires k < |fragments|
    ensures HashesOf(p, fragments[..k + 1]) == HashesOf(p, fragments[..k]) + {p.hash(fragments[k])}
    ensures HashesOf(p, fragments[..k + 1]) <= HashesOf(p, fragments)
  {
    assert fragments[..k + 1] == fragments[..k] + [fragments[k]];
    assert forall f :: f in fragments[..k] ==> f in fragments;
  }

  lemma Overfull<H>(some: set<H>, all: set<H>)
    requires some <= all && |some| > MAX_FINGERPRINTS
    ensures |all| > MAX_FINGERPRINTS
  {
    SubsetIsSmaller(some, all);
  }

  /** Adds the fragments of one line of field `index`; refused exactly when the table would overflow. */
  method AddLine<H(==, !new)>(p: Printer<H>, before: Table<H>, line: string, index: nat)
      returns (ok: bool, t: Table<H>, ghost added: set<H>)
    requires |before| <= MAX_FINGERPRINTS
    ensures LineHashes(p, line, added)
    ensures ok <==> |before.Keys + added| <= MAX_FINGERPRINTS
    ensures ok ==> Extends(before, t, added, index)
    ensures ok ==> forall h, i: nat :: Owns(t, h, i) <==> Owns(before, h, i) || (i == index && LineHash(p, line, h))
  {
    hide Extends, IsFragment, HashesOf;
    var fragments := EachFragment(line, p.alnum);
    added := HashesOf(p, fragments);
    HashesOfLine(p, line, fragments);
    t := before;
    NothingAdded(t, index);
    NoHashes(p);
    for k := 0 to |fragments|
      invariant Extends(before, t, HashesOf(p, fragments[..k]), index)
      invariant |t| <= MAX_FINGERPRINTS
    {
      var h, last := p.hash(fragments[k]), t;
      HashesExtend(p, fragments, k);
      ExtendedKeys(before, last, HashesOf(p, fragments[..k]), {h}, index);
      ok, t := AddFingerprint(last, h, index);
      if !ok {
        Overfull(last.Keys + {h}, before.Keys + added);
        return;
      }
      ExtendsTwice(before, last, t, HashesOf(p, fragments[..k]), {h}, index);
      ExtendedKeys(last, t, {h}, {}, index);
    }
    assert fragments[..|fragments|] == fragments;
    ExtendedKeys(before, t, added, {}, index);
    ExtendedOwners(before, t, added, index);
    ok := true;
  }

  ghost predicate LineHashes<H(!new)>(p: Printer<H>, line: string, hashes: set<H>) {
    forall h :: h in hashes <==> LineHash(p, line, h)
  }

  ghost predicate LinesHashes<H(!new)>(p: Printer<H>, lines: seq<string>, hashes: set<H>) {
    forall h :: h in hashes <==> LinesHash(p, lines, h)
  }

  lemma NoHashes<H>(p: Printer<H>)
    ensures HashesOf(p, []) == {}
  {
  }

  lemma HashesOfLine<H(!new)>(p: Printer<H>, line: string, fragments: seq<string>)
    requires forall f :: f in fragments <==> IsFragment(line, p.alnum, f)
    ensures LineHashes(p, line, HashesOf(p, fragments))
  {
    hide IsFragment;
  }

  lemma LinesExtend<H(!new)>(p: Printer<H>, lines: seq<string>, k: nat, x: set<H>, y: set<H>)
    requires k < |lines| && LinesHashes(p, lines[..k], x) && LineHashes(p, lines[k], y)
    ensures LinesHashes(p, lines[..k + 1], x + y)
    ensures forall h :: h in x + y ==> LinesHash(p, lines, h)
  {
    hide LineHash;
    assert lines[..k + 1] == lines[..k] + [lines[k]];
    assert forall line :: line in lines[..k] ==> line in lines;
  }

  lemma NoLines<H(!new)>(p: Printer<H>)
    ensures LinesHashes(p, [], {})
  {
  }

  lemma FieldOwners<H(!new)>(p: Printer<H>, a: Table<H>, b: Table<H>, lines: seq<string>, x: set<H>, index: nat)
    requires Extends(a, b, x, index) && LinesHashes(p, lines, x)
    ensures forall h, i: nat :: Owns(b, h, i) <==> Owns(a, h, i) || (i == index && LinesHash(p, lines, h))
  {
    hide LinesHash, Owns;
  }

  /** Adds every line of field `index`. */
  method AddField<H(==, !new)>(p: Printer<H>, before: Table<H>, field: string, index: nat)
      returns (ok: bool, t: Table<H>, ghost added: set<H>)
    requires |before| <= MAX_FINGERPRINTS
    ensures ok ==> LinesHashes(p, Lines(field), added)
    ensures !ok ==> forall h :: h in added ==> LinesHash(p, Lines(field), h)
    ensures ok <==> |before.Keys + added| <= MAX_FINGERPRINTS
    ensures ok ==> Extends(before, t, added, index)
    ensures ok ==> forall h, i: nat ::
              Owns(t, h, i) <==> Owns(before, h, i) || (i == index && LinesHash(p, Lines(field), h))
  {
    hide Extends, LinesHash, LinesHashes, LineHashes;
    var lines := Lines(field);
    t, added := before, {};
    NoLines(p);
    NothingAdded(t, index);
    for k := 0 to |lines|
      invariant LinesHashes(p, lines[..k], added)
      invariant Extends(before, t, added, index)
      invariant |t| <= MAX_FINGERPRINTS
    {
      var last := t;
      ghost var more;
      ok, t, more := AddLine(p, last, lines[k], index);
      LinesExtend(p, lines, k, added, more);
      ExtendedKeys(before, last, added, more, index);
      if ok {
        ExtendsTwice(before, last, t, added, more, index);
        ExtendedKeys(last, t, more, {}, index);
      }
      added := added + more;
      if !ok { return; }
    }
    assert lines[..|lines|] == lines;
    ExtendedKeys(before, t, added, {}, index);
    FieldOwners(p, before, t, lines, added, index);
    ok := true;
  }

  // Every field.

  ghost predicate FieldsHash<H>(p: Printer<H>, fields: seq<string>, h: H) {
    exists i :: 0 <= i < |fields| && LinesHash(p, Lines(fields[i]), h)
  }

  /** The table says of every hash which fields produce it. */
  ghost predicate TableFor<H(!new)>(p: Printer<H>, fields: seq<string>, t: Table<H>) {
    && (forall h, i: nat :: Owns(t, h, i) <==> i < |fields| && LinesHash(p, Lines(fields[i]), h))
    && forall h :: h in t <==> FieldsHash(p, fields, h)
  }

  lemma TableExtends<H(!new)>(
      p: Printer<H>, fields: seq<string>, field: string, before: Table<H>, t: Table<H>, added: set<H>)
    requires TableFor(p, fields, before) && Extends(before, t, added, |fields|)
    requires LinesHashes(p, Lines(field), added)
    ensures TableFor(p, fields + [field], t)
  {
    hide LinesHash;
    var more := fields + [field];
    forall h ensures h in t <==> FieldsHash(p, more, h) {
      FieldsHashExtends(p, fields, field, h);
    }
  }

  lemma FieldsHashExtends<H>(p: Printer<H>, fields: seq<string>, field: string, h: H)
    ensures FieldsHash(p, fields + [field], h) <==> FieldsHash(p, fields, h) || LinesHash(p, Lines(field), h)
  {
    hide LinesHash;
    var more := fields + [field];
    assert more[|fields|] == field;
    forall i | 0 <= i < |fields| ensures more[i] == fields[i] {
    }
  }

  /** Builds the table; refused exactly when the fields produce too many distinct fingerprints. */
  method FieldFingerprints<H(==, !new)>(p: Printer<H>, fields: seq<string>)
      returns (ok: bool, t: Table<H>, ghost produced: set<H>)
    ensures ok ==> TableFor(p, fields, t)
    ensures ok ==> t.Keys == produced
    ensures ok <==> !TooMany(p, fields)
  {
    hide Extends, LinesHash, LinesHashes, TableFor, TooMany, FieldsHash, AllProduced;
    t, produced := map[], {};
    EmptyTable(p);
    NothingProduced(p, fields);
    for index := 0 to |fields|
      invariant TableFor(p, fields[..index], t)
      invariant t.Keys == produced && |t| <= MAX_FINGERPRINTS
      invariant AllProduced(p, fields, produced)
    {
      var last := t;
      ghost var added;
      ok, t, added := AddField(p, last, fields[index], index);
      AddedByField(p, fields, index, produced, added);
      produced := produced + added;
      if !ok {
        Overflowed(p, fields, produced);
        return;
      }
      assert fields[..index + 1] == fields[..index] + [fields[index]];
      TableExtends(p, fields[..index], fields[index], last, t, added);
      ExtendedKeys(last, t, added, {}, index);
    }
    assert fields[..|fields|] == fields;
    HeldAll(p, fields, t);
    ok := true;
  }

  /** The fields produce more distinct hashes than the table may hold. */
  ghost predicate TooMany<H(!new)>(p: Printer<H>, fields: seq<string>) {
    exists s: set<H> :: |s| > MAX_FINGERPRINTS && AllProduced(p, fields, s)
  }

  ghost predicate AllProduced<H>(p: Printer<H>, fields: seq<string>, s: set<H>) {
    forall h :: h in s ==> FieldsHash(p, fields, h)
  }

  lemma NothingProduced<H>(p: Printer<H>, fields: seq<string>)
    ensures AllProduced(p, fields, {})
  {
  }

  lemma Overflowed<H(!new)>(p: Printer<H>, fields: seq<string>, s: set<H>)
    requires |s| > MAX_FINGERPRINTS && AllProduced(p, fields, s)
    ensures TooMany(p, fields)
  {
    hide AllProduced;
  }

  lemma HeldAll<H(!new)>(p: Printer<H>, fields: seq<string>, t: Table<H>)
    requires TableFor(p, fields, t) && |t| <= MAX_FINGERPRINTS
    ensures !TooMany(p, fields)
  {
    hide FieldsHash, LinesHash;
    forall s: set<H> | AllProduced(p, fields, s) ensures |s| <= MAX_FINGERPRINTS {
      SubsetIsSmaller(s, t.Keys);
    }
  }

  lemma AddedByField<H(!new)>(p: Printer<H>, fields: seq<string>, i: nat, produced: set<H>, added: set<H>)
    requires i < |fields| && AllProduced(p, fields, produced)
    requires LinesHashes(p, Lines(fields[i]), added) || forall h :: h in added ==> LinesHash(p, Lines(fields[i]), h)
    ensures AllProduced(p, fields, produced + added)
  {
    hide LinesHash;
  }

  lemma EmptyTable<H(!new)>(p: Printer<H>)
    ensures TableFor(p, [], map[])
  {
    var t: Table<H> := map[];
    assert forall h, i: nat :: !Owns(t, h, i);
  }

  // The scan of repository text.

  /** One line of Git output: its length with the newline, and its text if it decodes. */
  datatype SourceLine = SourceLine(bytes: nat, text: string, decodes: bool)

  predicate Compared(l: SourceLine) {
    l.bytes <= MAX_BLOB_BYTES && l.decodes
  }

  /** Some compared line produces the hash. */
  ghost predicate SourceHash<H>(p: Printer<H>, source: seq<SourceLine>, h: H) {
    exists l :: l in source && Compared(l) && LinesHash(p, Lines(l.text), h)
  }

  /** What the scan decides: the field and the source produce a common hash. */
  ghost predicate Hits<H(!new)>(p: Printer<H>, field: string, source: seq<SourceLine>) {
    exists h :: LinesHash(p, Lines(field), h) && SourceHash(p, source, h)
  }

  /** The fields that own one of `hashes`. */
  ghost predicate Owners<H>(t: Table<H>, hashes: set<H>, fields: set<nat>) {
    forall i: nat :: i in fields <==> exists h :: h in hashes && Owns(t, h, i)
  }

  lemma OwnersJoin<H>(t: Table<H>, x: set<H>, y: set<H>, a: set<nat>, b: set<nat>)
    requires Owners(t, x, a) && Owners(t, y, b)
    ensures Owners(t, x + y, a + b)
  {
    hide Owns;
  }

  /** Adds to `matched` the fields that own a fragment of `line`. */
  method CollectLine<H(==, !new)>(p: Printer<H>, line: string, t: Table<H>)
      returns (matched: set<nat>, ghost hashes: set<H>)
    ensures forall i: nat :: i in matched <==> exists h :: LineHash(p, line, h) && Owns(t, h, i)
    ensures LineHashes(p, line, hashes) && Owners(t, hashes, matched)
  {
    hide IsFragment, HashesOf, Owners, LineHashes;
    var fragments := EachFragment(line, p.alnum);
    hashes := HashesOf(p, fragments);
    HashesOfLine(p, line, fragments);
    matched := {};
    NoHashes(p);
    NoOwners(t);
    for k := 0 to |fragments|
      invariant Owners(t, HashesOf(p, fragments[..k]), matched)
    {
      var h := p.hash(fragments[k]);
      var owners := if h in t then set i | i in t[h] else {};
      HashesExtend(p, fragments, k);
      OwnersOfOne(t, h, owners);
      OwnersJoin(t, HashesOf(p, fragments[..k]), {h}, matched, owners);
      matched := matched + owners;
    }
    assert fragments[..|fragments|] == fragments;
    OwnersOfLine(p, line, t, hashes, matched);
  }

  lemma OwnersOfLine<H(!new)>(p: Printer<H>, line: string, t: Table<H>, hashes: set<H>, matched: set<nat>)
    requires LineHashes(p, line, hashes) && Owners(t, hashes, matched)
    ensures forall i: nat :: i in matched <==> exists h :: LineHash(p, line, h) && Owns(t, h, i)
  {
    hide LineHash, Owns;
  }

  lemma OwnersOfLines<H(!new)>(p: Printer<H>, lines: seq<string>, t: Table<H>, hashes: set<H>, matched: set<nat>)
    requires LinesHashes(p, lines, hashes) && Owners(t, hashes, matched)
    ensures forall i: nat :: i in matched <==> exists h :: LinesHash(p, lines, h) && Owns(t, h, i)
  {
    hide LinesHash, Owns;
  }

  lemma NoOwners<H>(t: Table<H>)
    ensures Owners(t, {}, {})
  {
  }

  lemma OwnersOfOne<H>(t: Table<H>, h: H, owners: set<nat>)
    requires forall i: nat :: i in owners <==> Owns(t, h, i)
    ensures Owners(t, {h}, owners)
  {
  }

  method CollectMatchingFields<H(==, !new)>(p: Printer<H>, text: string, t: Table<H>)
      returns (matched: set<nat>, ghost hashes: set<H>)
    ensures forall i: nat :: i in matched <==> exists h :: LinesHash(p, Lines(text), h) && Owns(t, h, i)
    ensures LinesHashes(p, Lines(text), hashes) && Owners(t, hashes, matched)
  {
    hide Owners, LinesHash, LinesHashes, LineHashes;
    var lines := Lines(text);
    matched, hashes := {}, {};
    NoLines(p);
    NoOwners(t);
    for k := 0 to |lines|
      invariant LinesHashes(p, lines[..k], hashes) && Owners(t, hashes, matched)
    {
      ghost var more;
      var fields;
      fields, more := CollectLine(p, lines[k], t);
      LinesExtend(p, lines, k, hashes, more);
      OwnersJoin(t, hashes, more, matched, fields);
      matched, hashes := matched + fields, hashes + more;
    }
    assert lines[..|lines|] == lines;
    OwnersOfLines(p, lines, t, hashes, matched);
  }

  ghost predicate SourceHashes<H(!new)>(p: Printer<H>, source: seq<SourceLine>, hashes: set<H>) {
    forall h :: h in hashes <==> SourceHash(p, source, h)
  }

  lemma SourceExtends<H(!new)>(p: Printer<H>, source: seq<SourceLine>, k: nat, x: set<H>, y: set<H>)
    requires k < |source| && SourceHashes(p, source[..k], x)
    requires if Compared(source[k]) then LinesHashes(p, Lines(source[k].text), y) else y == {}
    ensures SourceHashes(p, source[..k + 1], x + y)
  {
    hide LinesHash;
    assert source[..k + 1] == source[..k] + [source[k]];
  }

  function TotalBytes(source: seq<SourceLine>): nat {
    if source == [] then 0 else TotalBytes(source[..|source| - 1]) + source[|source| - 1].bytes
  }

  lemma {:induction false} BytesGrow(source: seq<SourceLine>, i: nat, j: nat)
    requires i <= j <= |source|
    ensures TotalBytes(source[..i]) <= TotalBytes(source[..j])
    decreases j
  {
    if i < j {
      assert source[..j][..j - 1] == source[..j - 1];
      BytesGrow(source, i, j - 1);
    }
  }

  datatype Outcome = Matched(fields: set<nat>) | TooManyFingerprints | SourceTooLarge | ScanFailed

  /** The scan has something to look for. */
  ghost predicate Scans<H(!new)>(p: Printer<H>, fields: seq<string>) {
    exists h :: FieldsHash(p, fields, h)
  }

  ghost predicate AllHit<H(!new)>(p: Printer<H>, fields: seq<string>, source: seq<SourceLine>) {
    forall i: nat :: i < |fields| ==> Hits(p, fields[i], source)
  }

  /** The scan stops after line `k`: every field has matched. */
  ghost predicate StopsAt<H(!new)>(p: Printer<H>, fields: seq<string>, source: seq<SourceLine>, k: nat)
    requires k < |source|
  {
    Compared(source[k]) && AllHit(p, fields, source[..k + 1])
  }

  ghost predicate Stops<H(!new)>(p: Printer<H>, fields: seq<string>, source: seq<SourceLine>) {
    exists k :: 0 <= k < |source| && StopsAt(p, fields, source, k)
  }

  /** The size limit is passed at some line before which the scan did not stop. */
  ghost predicate RunsOut<H(!new)>(p: Printer<H>, fields: seq<string>, source: seq<SourceLine>) {
    exists k :: 0 <= k < |source| && PassesLimit(source, k) && forall j :: 0 <= j < k ==> !StopsAt(p, fields, source, j)
  }

  predicate PassesLimit(source: seq<SourceLine>, k: nat)
    requires k < |source|
  {
    TotalBytes(source[..k + 1]) > MAX_SNAPSHOT_BYTES
  }

  /** When a scan gives an answer: `gitOk` says that the listing process ended well. */
  ghost predicate Scannable<H(!new)>(p: Printer<H>, fields: seq<string>, source: seq<SourceLine>, gitOk: bool) {
    !TooMany(p, fields)
    && (Scans(p, fields) ==> !RunsOut(p, fields, source) && (gitOk || Stops(p, fields, source)))
  }

  lemma StoppedInTime<H(!new)>(p: Printer<H>, fields: seq<string>, source: seq<SourceLine>, k: nat)
    requires k < |source| && StopsAt(p, fields, source, k) && !PassesLimit(source, k)
    ensures !RunsOut(p, fields, source) && Stops(p, fields, source)
  {
    hide StopsAt;
    forall m | 0 <= m < |source| && PassesLimit(source, m) ensures m > k {
      if m <= k { BytesGrow(source, m + 1, k + 1); }
    }
  }

  lemma NeverStopped<H(!new)>(p: Printer<H>, fields: seq<string>, source: seq<SourceLine>)
    requires TotalBytes(source) <= MAX_SNAPSHOT_BYTES
    requires forall j :: 0 <= j < |source| ==> !StopsAt(p, fields, source, j)
    ensures !RunsOut(p, fields, source) && !Stops(p, fields, source)
  {
    hide StopsAt;
    assert source[..|source|] == source;
    forall m | 0 <= m < |source| ensures !PassesLimit(source, m) {
      BytesGrow(source, m + 1, |source|);
    }
  }

  /** All fields are matched exactly when there are as many matches as fields. */
  lemma AllMatchedIff<H(!new)>(p: Printer<H>, fields: seq<string>, source: seq<SourceLine>, matched: set<nat>)
    requires forall i: nat :: i in matched <==> i < |fields| && Hits(p, fields[i], source)
    ensures |matched| == |fields| <==> AllHit(p, fields, source)
  {
    hide Hits;
    SubsetIsSmaller(matched, Indices(|fields|));
    if |matched| == |fields| {
      assert forall i: nat :: i < |fields| ==> i in Indices(|fields|);
    }
    if AllHit(p, fields, source) {
      assert matched == Indices(|fields|);
    }
  }

  /** A field that hits a prefix of the source hits all of it. */
  lemma OwnersHit<H(!new)>(
      p: Printer<H>, fields: seq<string>, t: Table<H>, source: seq<SourceLine>, hashes: set<H>, matched: set<nat>)
    requires TableFor(p, fields, t) && SourceHashes(p, source, hashes) && Owners(t, hashes, matched)
    ensures forall i: nat :: i in matched <==> i < |fields| && Hits(p, fields[i], source)
  {
    hide LinesHash, SourceHash;
    forall i: nat ensures i in matched <==> i < |fields| && Hits(p, fields[i], source) {
      if i in matched {
        var h :| h in hashes && Owns(t, h, i);
        assert LinesHash(p, Lines(fields[i]), h) && SourceHash(p, source, h);
      }
      if i < |fields| && Hits(p, fields[i], source) {
        var h :| LinesHash(p, Lines(fields[i]), h) && SourceHash(p, source, h);
        assert Owns(t, h, i);
      }
    }
  }

  lemma PrefixHits<H(!new)>(p: Printer<H>, field: string, source: seq<SourceLine>, k: nat)
    requires k <= |source| && Hits(p, field, source[..k])
    ensures Hits(p, field, source)
  {
    hide LinesHash;
    var h :| LinesHash(p, Lines(field), h) && SourceHash(p, source[..k], h);
    var l :| l in source[..k] && Compared(l) && LinesHash(p, Lines(l.text), h);
    assert l in source;
  }

  /** Stopping once every field has matched changes nothing. */
  lemma AllMatchedIsFinal<H(!new)>(
      p: Printer<H>, fields: seq<string>, source: seq<SourceLine>, k: nat, matched: set<nat>)
    requires k <= |source| && |matched| == |fields|
    requires forall i: nat :: i in matched <==> i < |fields| && Hits(p, fields[i], source[..k])
    ensures forall i: nat :: i in matched <==> i < |fields| && Hits(p, fields[i], source)
  {
    hide Hits;
    SubsetIsSmaller(matched, Indices(|fields|));
    forall i: nat | i < |fields| ensures i in matched && Hits(p, fields[i], source) {
      assert i in Indices(|fields|);
      PrefixHits(p, fields[i], source, k);
    }
  }

  ghost function Indices(n: nat): (s: set<nat>)
    ensures |s| == n && forall i: nat :: i in s <==> i < n
  {
    if n == 0 then {} else Indices(n - 1) + {n - 1}
  }

  /**
   Scans the source line by line and reports the fields that match. The three refusals are exact: too
   many fingerprints, too much text before every field has matched, and a listing that failed unless the
   scan had stopped before.
   */
  method NarrativeFieldsMatchingSource<H(==, !new)>(
      p: Printer<H>, fields: seq<string>, source: seq<SourceLine>, gitOk: bool)
      returns (r: Outcome)
    ensures r.Matched? ==> forall i: nat :: i in r.fields <==> i < |fields| && Hits(p, fields[i], source)
    ensures r.Matched? <==> Scannable(p, fields, source, gitOk)
    ensures r.TooManyFingerprints? <==> TooMany(p, fields)
    ensures r.SourceTooLarge? <==> !TooMany(p, fields) && Scans(p, fields) && RunsOut(p, fields, source)
  {
    hide Owners, LinesHash, LinesHashes, SourceHashes, TableFor, Hits, StopsAt, Stops, RunsOut, AllHit, TooMany, Scans,
         TotalBytes;
    ghost var produced;
    var ok, t;
    ok, t, produced := FieldFingerprints(p, fields);
    if !ok { return TooManyFingerprints; }
    ScansIff(p, fields, t);
    if t == map[] {
      NothingToMatch(p, fields, t, source);
      return Matched({});
    }
    var matched: set<nat> := {};
    ghost var hashes: set<H> := {};
    var total := 0;
    NoOwners(t);
    NoSource(p);
    NoBytes();
    for k := 0 to |source|
      invariant SourceHashes(p, source[..k], hashes) && Owners(t, hashes, matched)
      invariant total == TotalBytes(source[..k]) && total <= MAX_SNAPSHOT_BYTES
      invariant forall j :: 0 <= j < k ==> !StopsAt(p, fields, source, j)
    {
      OneMoreLine(source, k);
      total := total + source[k].bytes;
      if total > MAX_SNAPSHOT_BYTES {
        RanOut(p, fields, source, k);
        return SourceTooLarge;
      }
      ghost var more: set<H> := {};
      if Compared(source[k]) {
        var found;
        found, more := CollectMatchingFields(p, source[k].text, t);
        OwnersJoin(t, hashes, more, matched, found);
        matched := matched + found;
      } else {
        assert hashes + more == hashes;
      }
      SourceExtends(p, source, k, hashes, more);
      hashes := hashes + more;
      OwnersHit(p, fields, t, source[..k + 1], hashes, matched);
      AllMatchedIff(p, fields, source[..k + 1], matched);
      StopsAtIff(p, fields, source, k);
      if Compared(source[k]) && |matched| == |fields| {
        AllMatchedIsFinal(p, fields, source, k + 1, matched);
        StoppedInTime(p, fields, source, k);
        return Matched(matched);
      }
    }
    assert source[..|source|] == source;
    OwnersHit(p, fields, t, source, hashes, matched);
    NeverStopped(p, fields, source);
    r := if gitOk then Matched(matched) else ScanFailed;
  }

  lemma ScansIff<H(!new)>(p: Printer<H>, fields: seq<string>, t: Table<H>)
    requires TableFor(p, fields, t)
    ensures Scans(p, fields) <==> t != map[]
  {
    hide FieldsHash, LinesHash;
    if t != map[] {
      var h :| h in t;
      assert FieldsHash(p, fields, h);
    }
  }

  lemma NoBytes()
    ensures TotalBytes([]) == 0
  {
  }

  lemma OneMoreLine(source: seq<SourceLine>, k: nat)
    requires k < |source|
    ensures TotalBytes(source[..k + 1]) == TotalBytes(source[..k]) + source[k].bytes
  {
    assert source[..k + 1][..k] == source[..k];
  }

  lemma RanOut<H(!new)>(p: Printer<H>, fields: seq<string>, source: seq<SourceLine>, k: nat)
    requires k < |source| && TotalBytes(source[..k + 1]) > MAX_SNAPSHOT_BYTES
    requires forall j :: 0 <= j < k ==> !StopsAt(p, fields, source, j)
    ensures RunsOut(p, fields, source)
  {
    hide StopsAt;
    assert PassesLimit(source, k);
  }

  lemma StopsAtIff<H(!new)>(p: Printer<H>, fields: seq<string>, source: seq<SourceLine>, k: nat)
    requires k < |source|
    ensures StopsAt(p, fields, source, k) <==> Compared(source[k]) && AllHit(p, fields, source[..k + 1])
  {
  }

  lemma NoSource<H(!new)>(p: Printer<H>)
    ensures SourceHashes(p, [], {})
  {
  }

  lemma NothingToMatch<H(!new)>(p: Printer<H>, fields: seq<string>, t: Table<H>, source: seq<SourceLine>)
    requires TableFor(p, fields, t) && t == map[]
    ensures forall i: nat :: i < |fields| ==> !Hits(p, fields[i], source)
  {
    hide LinesHash, SourceHash;
    forall i: nat | i < |fields| ensures !Hits(p, fields[i], source) {
      forall h ensures !LinesHash(p, Lines(fields[i]), h) {
        assert !Owns(t, h, i);
      }
    }
  }

  // What a hit means.

  ghost predicate SharesFragment(alnum: Alphanumeric, field: string, source: seq<SourceLine>) {
    exists f :: InText(field, alnum, f) && exists l :: l in source && Compared(l) && InText(l.text, alnum, f)
  }

  ghost predicate CollisionFree<H>(hash: string -> H) {
    forall a, b :: hash(a) == hash(b) ==> a == b
  }

  lemma LinesHashMeaning<H>(p: Printer<H>, text: string, h: H)
    ensures LinesHash(p, Lines(text), h) <==> exists f :: InText(text, p.alnum, f) && p.hash(f) == h
  {
    hide IsFragment;
    if LinesHash(p, Lines(text), h) {
      var line :| line in Lines(text) && LineHash(p, line, h);
      var f :| IsFragment(line, p.alnum, f) && p.hash(f) == h;
      assert InText(text, p.alnum, f);
    }
    if f :| InText(text, p.alnum, f) && p.hash(f) == h {
      var line :| line in Lines(text) && IsFragment(line, p.alnum, f);
      assert LineHash(p, line, h);
    }
  }

  /** A shared fragment is never missed; with an injective hash, nothing else is flagged. */
  lemma HitsMeanSharedFragments<H(!new)>(p: Printer<H>, field: string, source: seq<SourceLine>)
    ensures SharesFragment(p.alnum, field, source) ==> Hits(p, field, source)
    ensures CollisionFree(p.hash) ==> (Hits(p, field, source) <==> SharesFragment(p.alnum, field, source))
  {
    hide LinesHash, InText;
    if SharesFragment(p.alnum, field, source) {
      var f, l :| InText(field, p.alnum, f) && l in source && Compared(l) && InText(l.text, p.alnum, f);
      LinesHashMeaning(p, field, p.hash(f));
      LinesHashMeaning(p, l.text, p.hash(f));
      assert SourceHash(p, source, p.hash(f));
    }
    if CollisionFree(p.hash) && Hits(p, field, source) {
      var h :| LinesHash(p, Lines(field), h) && SourceHash(p, source, h);
      var l :| l in source && Compared(l) && LinesHash(p, Lines(l.text), h);
      LinesHashMeaning(p, field, h);
      LinesHashMeaning(p, l.text, h);
      var f :| InText(field, p.alnum, f) && p.hash(f) == h;
      assert InText(l.text, p.alnum, f);
    }
  }
}
