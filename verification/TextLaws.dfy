/** What the string operations mean, said without their definitions. */
module TextLaws {
  import opened Text

  ghost predicate DiffersFirstAt(a: string, b: string, i: int) {
    0 <= i < |a| && i < |b| && a[..i] == b[..i] && a[i] != b[i]
  }

  lemma FirstDifferenceIsUnique(a: string, b: string, i: nat, j: nat)
    requires DiffersFirstAt(a, b, i) && DiffersFirstAt(a, b, j)
    ensures i == j
  {
    if i < j {
      AgreeBefore(a, b, j, i);
    } else if j < i {
      AgreeBefore(a, b, i, j);
    }
  }

  lemma AgreeBefore(a: string, b: string, i: nat, k: nat)
    requires DiffersFirstAt(a, b, i) && k < i
    ensures a[k] == b[k]
  {
    assert a[..i][k] == b[..i][k];
  }

  /** Lexicographic order: a proper prefix comes first, otherwise the first difference decides. */
  lemma {:induction false} BelowMeans(a: string, b: string)
    ensures Below(a, b) <==> a < b || exists i :: DiffersFirstAt(a, b, i) && a[i] < b[i]
  {
    if a != "" && b != "" {
      if a[0] == b[0] {
        BelowMeans(a[1..], b[1..]);
        SameFirst(a, b);
      } else {
        assert DiffersFirstAt(a, b, 0);
        forall i | DiffersFirstAt(a, b, i) ensures i == 0 {
          FirstDifferenceIsUnique(a, b, 0, i);
        }
      }
    }
  }

  lemma SameFirst(a: string, b: string)
    requires a != "" && b != "" && a[0] == b[0]
    ensures a < b <==> a[1..] < b[1..]
    ensures (exists i :: DiffersFirstAt(a, b, i) && a[i] < b[i])
            <==> exists i :: DiffersFirstAt(a[1..], b[1..], i) && a[1..][i] < b[1..][i]
  {
    var x, y := a[1..], b[1..];
    assert a == [a[0]] + x && b == [b[0]] + y;
    if i :| DiffersFirstAt(x, y, i) && x[i] < y[i] {
      assert a[..i + 1] == [a[0]] + x[..i] && b[..i + 1] == [b[0]] + y[..i];
      assert DiffersFirstAt(a, b, i + 1) && a[i + 1] < b[i + 1];
    }
    if i :| DiffersFirstAt(a, b, i) && a[i] < b[i] {
      assert x[..i - 1] == a[..i][1..] && y[..i - 1] == b[..i][1..];
      assert DiffersFirstAt(x, y, i - 1) && x[i - 1] < y[i - 1];
    }
  }

  /** A text is its first line and the rest; the newline takes one carriage return along. */
  lemma LinesMean(line: string, rest: string)
    requires '\n' !in line
    ensures Lines("") == [] && (line != "" ==> Lines(line) == [line])
    ensures Lines(line + "\n" + rest)
         == [if line != "" && line[|line| - 1] == '\r' then line[..|line| - 1] else line] + Lines(rest)
  {
    NewlineIs(line, |line|);
    var s := line + "\n" + rest;
    assert s[..|line|] == line;
    NewlineIs(s, |line|);
    assert s[|line| + 1..] == rest;
    assert line != "" ==> s[|line| - 1] == line[|line| - 1] && s[..|line| - 1] == line[..|line| - 1];
  }

  lemma {:induction false} NewlineIs(s: string, n: nat)
    requires n <= |s| && '\n' !in s[..n] && (n < |s| ==> s[n] == '\n')
    ensures IndexOfNewline(s) == n
  {
    if n > 0 {
      assert s[0] == s[..n][0] && s[1..][..n - 1] == s[..n][1..];
      NewlineIs(s[1..], n - 1);
    }
  }

  /** Trimming keeps the part between the first and the last character that is not dropped. */
  lemma TrimMeans(s: string, drop: char -> bool) returns (i: nat, j: nat)
    ensures i <= j <= |s| && TrimMatches(s, drop) == s[i..j]
    ensures forall k :: 0 <= k < i || j <= k < |s| ==> drop(s[k])
    ensures i < j ==> !drop(s[i]) && !drop(s[j - 1])
  {
    i := TrimStartMeans(s, drop);
    var rest := s[i..];
    var n := TrimEndMeans(rest, drop);
    j := i + n;
    assert s[i..j] == rest[..n];
    assert forall k :: j <= k < |s| ==> s[k] == rest[k - i];
  }

  lemma {:induction false} TrimStartMeans(s: string, drop: char -> bool) returns (i: nat)
    ensures i <= |s| && TrimStart(s, drop) == s[i..]
    ensures forall k :: 0 <= k < i ==> drop(s[k])
    ensures i < |s| ==> !drop(s[i])
  {
    if s != "" && drop(s[0]) {
      var n := TrimStartMeans(s[1..], drop);
      i := n + 1;
      assert forall k :: 0 < k < i ==> s[k] == s[1..][k - 1];
    } else {
      i := 0;
    }
  }

  lemma {:induction false} TrimEndMeans(s: string, drop: char -> bool) returns (j: nat)
    ensures j <= |s| && TrimEnd(s, drop) == s[..j]
    ensures forall k :: j <= k < |s| ==> drop(s[k])
    ensures j > 0 ==> !drop(s[j - 1])
  {
    if s != "" && drop(s[|s| - 1]) {
      j := TrimEndMeans(s[..|s| - 1], drop);
    } else {
      j := |s|;
    }
  }

  predicate Solid(w: string) {
    w != "" && forall i :: 0 <= i < |w| ==> !IsWhitespace(w[i])
  }

  /** Whitespace before a word is skipped; a word ends at whitespace or at the end. */
  lemma WordsMean(w: string, space: char, rest: string)
    requires Solid(w) && IsWhitespace(space)
    ensures Words("") == [] && Words(w) == [w]
    ensures Words([space] + rest) == Words(rest)
    ensures Words(w + [space] + rest) == [w] + Words(rest)
  {
    assert ([space] + rest)[1..] == rest;
    var s := w + [space] + rest;
    WordLengthIs(w, |w|);
    assert forall i :: 0 <= i < |w| ==> s[i] == w[i];
    WordLengthIs(s, |w|);
    assert s[..|w|] == w && s[|w|..] == [space] + rest;
    assert w[..|w|] == w && w[|w|..] == "";
  }

  lemma {:induction false} WordLengthIs(s: string, n: nat)
    requires n <= |s| && (forall i :: 0 <= i < n ==> !IsWhitespace(s[i])) && (n < |s| ==> IsWhitespace(s[n]))
    ensures WordLength(s) == n
  {
    if n > 0 {
      assert forall i :: 0 <= i < n - 1 ==> s[1..][i] == s[i + 1];
      WordLengthIs(s[1..], n - 1);
    }
  }

  /** The part stands somewhere in the text. */
  lemma {:induction false} ContainsMeans(text: string, part: string)
    ensures Contains(text, part) <==> exists i :: 0 <= i <= |text| && part <= text[i..]
  {
    assert text[0..] == text;
    if text != "" {
      ContainsMeans(text[1..], part);
      forall i | 0 <= i < |text| ensures text[1..][i..] == text[i + 1..] {
      }
      if i :| 0 <= i <= |text[1..]| && part <= text[1..][i..] {
        assert part <= text[i + 1..];
      }
      if i :| 0 <= i <= |text| && part <= text[i..] {
        if i > 0 { assert part <= text[1..][i - 1..]; }
      }
    }
  }

  /** Byte lengths add up, and a character takes one to four bytes by its code point. */
  lemma {:induction false} Utf8LengthMeans(a: string, b: string, c: char)
    ensures Utf8Length(a + b) == Utf8Length(a) + Utf8Length(b)
    ensures c as int < 0x80 ==> Utf8Length([c]) == 1
    ensures 0x80 <= c as int < 0x800 ==> Utf8Length([c]) == 2
    ensures 0x800 <= c as int < 0x10000 ==> Utf8Length([c]) == 3
    ensures 0x10000 <= c as int ==> Utf8Length([c]) == 4
  {
    assert [c][1..] == "";
    if a == "" {
      assert a + b == b;
    } else {
      assert (a + b)[1..] == a[1..] + b;
      Utf8LengthMeans(a[1..], b, c);
    }
  }

  function ReadDecimal(s: string): int {
    if s == "" then 0 else 10 * ReadDecimal(s[..|s| - 1]) + (s[|s| - 1] as int - '0' as int)
  }

  /** Numbers are written in decimal. */
  lemma {:induction false} DecimalReadsBack(n: nat)
    ensures ReadDecimal(Decimal(n)) == n
  {
    if n < 10 {
      assert [Digit(n)][..0] == "";
      DigitIs(n);
    } else {
      DecimalReadsBack(n / 10);
      DigitIs(n % 10);
      assert Decimal(n)[..|Decimal(n)| - 1] == Decimal(n / 10);
    }
  }

  lemma DigitIs(n: nat)
    requires n < 10
    ensures Digit(n) as int == '0' as int + n
  {
  }

  /** Parts stand in order, with the separator between them. */
  lemma JoinMeans(parts: seq<string>, last: string, separator: string)
    ensures Join([], separator) == "" && Join([last], separator) == last
    ensures parts != [] ==> Join(parts + [last], separator) == Join(parts, separator) + separator + last
  {
    assert parts != [] ==> (parts + [last])[..|parts|] == parts;
  }
}
