/**
 The encrypted event log: newline-committed records, appended, recovered and migrated in place.

 `LogFile.contents` records every content the file has ever had, byte by byte for appends, so a crash
 at any moment leaves one of them.
 */
module EventLog {
  import opened Bytes
  import opened AtRest

  // Records of a file.

  function FirstNewline(b: Bytes): (i: nat)
    ensures i <= |b|
    ensures i < |b| ==> b[i] == NEWLINE
    ensures forall j :: 0 <= j < i ==> b[j] != NEWLINE
  {
    if b == [] || b[0] == NEWLINE then 0 else 1 + FirstNewline(b[1..])
  }

  /** Legacy records may end in a carriage return. */
  function Strip(record: Bytes): Bytes {
    if record != [] && record[|record| - 1] == CARRIAGE_RETURN then record[..|record| - 1] else record
  }

  /** The committed records: everything up to a newline. What follows the last newline is not a record. */
  function Records(b: Bytes): seq<Bytes>
    decreases |b|
  {
    var i := FirstNewline(b);
    if i == |b| then [] else [Strip(b[..i])] + Records(b[i + 1..])
  }

  /** The bytes through the last newline. */
  function Committed(b: Bytes): (r: Bytes)
    ensures r <= b
    decreases |b|
  {
    var i := FirstNewline(b);
    if i == |b| then [] else b[..i + 1] + Committed(b[i + 1..])
  }

  predicate Terminated(b: Bytes) {
    b == [] || b[|b| - 1] == NEWLINE
  }

  lemma {:induction false} FirstNewlineIs(b: Bytes, i: nat)
    requires i <= |b| && (i < |b| ==> b[i] == NEWLINE) && forall j :: 0 <= j < i ==> b[j] != NEWLINE
    ensures FirstNewline(b) == i
  {
  }

  predicate IsLine(line: Bytes) {
    line != [] && line[|line| - 1] == NEWLINE && NEWLINE !in line[..|line| - 1]
  }

  lemma Assoc<T>(a: seq<T>, b: seq<T>, c: seq<T>)
    ensures a + b + c == a + (b + c)
  {
  }

  /** Files are read one line at a time. */
  lemma OneLine(line: Bytes, rest: Bytes)
    requires IsLine(line)
    ensures Records(line + rest) == [Strip(line[..|line| - 1])] + Records(rest)
    ensures Committed(line + rest) == line + Committed(rest)
  {
    var b, n := line + rest, |line| - 1;
    assert b[..n] == line[..n] && b[n] == NEWLINE;
    forall j | 0 <= j < n ensures b[j] != NEWLINE {
      assert b[j] == line[..n][j];
    }
    FirstNewlineIs(b, n);
    hide FirstNewline;
    assert b[..n + 1] == line && b[n + 1..] == rest;
  }

  /** A file with a newline is its first line and the rest. */
  lemma SplitLine(b: Bytes) returns (line: Bytes, rest: Bytes)
    requires NEWLINE in b
    ensures IsLine(line) && b == line + rest
    ensures Terminated(b) ==> Terminated(rest)
  {
    var i := FirstNewline(b);
    line, rest := b[..i + 1], b[i + 1..];
    assert line[..i] == b[..i];
    assert b == line + rest;
    assert rest != [] ==> rest[|rest| - 1] == b[|b| - 1];
  }

  lemma {:induction false} RecordsConcat(a: Bytes, b: Bytes)
    requires Terminated(a)
    ensures Records(a + b) == Records(a) + Records(b)
    ensures Committed(a + b) == a + Committed(b)
    decreases |a|
  {
    if a == [] {
      assert a + b == b;
      NoNewlineNoRecord(a);
    } else {
      hide Records, Committed, Strip, IsLine;
      assert a[|a| - 1] == NEWLINE;
      var line, rest := SplitLine(a);
      assert line != [] by { LineNotEmpty(line); }
      RecordsConcat(rest, b);
      OneLine(line, rest);
      OneLine(line, rest + b);
      Assoc(line, rest, b);
      Assoc(line, rest, Committed(b));
      Assoc([Strip(line[..|line| - 1])], Records(rest), Records(b));
    }
  }

  lemma LineNotEmpty(line: Bytes)
    requires IsLine(line)
    ensures line != [] && Terminated(line)
  {
  }

  lemma NoNewlineNoRecord(b: Bytes)
    requires NEWLINE !in b
    ensures Records(b) == [] && Committed(b) == []
  {
    FirstNewlineIs(b, |b|);
  }

  lemma {:induction false} CommittedIsTerminated(b: Bytes)
    ensures Terminated(Committed(b))
    ensures Records(Committed(b)) == Records(b)
    ensures Terminated(b) ==> Committed(b) == b
    decreases |b|
  {
    if NEWLINE !in b {
      NoNewlineNoRecord(b);
      NoNewlineNoRecord([]);
    } else {
      hide Records, Committed, Strip, IsLine;
      var line, rest := SplitLine(b);
      LineNotEmpty(line);
      CommittedIsTerminated(rest);
      OneLine(line, rest);
      OneLine(line, Committed(rest));
      TerminatedConcat(line, Committed(rest));
    }
  }

  lemma TerminatedConcat(a: Bytes, b: Bytes)
    requires Terminated(a) && Terminated(b)
    ensures Terminated(a + b)
  {
    if b == [] { assert a + b == a; }
  }

  /** One sealed record and its newline are exactly one more record. */
  lemma SealedLineIsOneRecord(c: Cipher, b: Bytes, nonce: nat, p: Bytes)
    requires Lawful(c) && Terminated(b)
    ensures Records(b + (c.seal(nonce, p) + [NEWLINE])) == Records(b) + [c.seal(nonce, p)]
    ensures Terminated(b + (c.seal(nonce, p) + [NEWLINE]))
  {
    var sealed := c.seal(nonce, p);
    var line := sealed + [NEWLINE];
    RecordsConcat(b, line);
    FirstNewlineIs(line, |sealed|);
    assert line[..|sealed|] == sealed && line[|sealed| + 1..] == [];
    assert Records([]) == [];
    assert Records(line) == [sealed] + [];
  }

  // Decoding.

  predicate Opens(c: Cipher, records: seq<Bytes>) {
    forall i :: 0 <= i < |records| ==> c.open(records[i]).Opened?
  }

  /** Meaning of a log: the plaintexts of its records. */
  function Plaintexts(c: Cipher, records: seq<Bytes>): (ps: seq<Bytes>)
    requires Opens(c, records)
    ensures |ps| == |records|
  {
    seq(|records|, i requires 0 <= i < |records| => c.open(records[i]).plaintext)
  }

  predicate AllEncrypted(c: Cipher, records: seq<Bytes>) {
    forall i :: 0 <= i < |records| ==> c.open(records[i]).Opened? && c.open(records[i]).encrypted
  }

  predicate AllPlain(c: Cipher, records: seq<Bytes>) {
    forall i :: 0 <= i < |records| ==> c.open(records[i]).Opened? && !c.open(records[i]).encrypted
  }

  predicate AllValid(valid: Bytes -> bool, ps: seq<Bytes>) {
    forall i :: 0 <= i < |ps| ==> valid(ps[i])
  }

  /** What loading accepts: every record opens, none is mixed in, every plaintext parses. */
  predicate Loadable(c: Cipher, valid: Bytes -> bool, records: seq<Bytes>) {
    && Opens(c, records)
    && (AllEncrypted(c, records) || AllPlain(c, records))
    && AllValid(valid, Plaintexts(c, records))
  }

  /** The file holds exactly the encrypted records `log`, once its unterminated tail is dropped. */
  ghost predicate Holds(c: Cipher, b: Bytes, log: seq<Bytes>) {
    && AllEncrypted(c, Records(b))
    && Opens(c, Records(b))
    && Plaintexts(c, Records(b)) == log
  }

  // Appending one record.

  function Line(c: Cipher, nonce: nat, p: Bytes): Bytes {
    c.seal(nonce, p) + [NEWLINE]
  }

  /** The contents of the file while `line` is written to its end: one more byte each time. */
  function Growing(b: Bytes, line: Bytes): seq<Bytes> {
    seq(|line|, i requires 0 <= i < |line| => b + line[..i + 1])
  }

  predicate EndsWith(log: seq<Bytes>, p: Bytes) {
    log != [] && log[|log| - 1] == p
  }

  /** Contents after dropping the tail, if there is one to drop. */
  function Recovering(b: Bytes): seq<Bytes> {
    if Terminated(b) then [] else [Committed(b)]
  }

  /** Every content an append of `p` to an encrypted log goes through after the initial one. */
  function AppendContents(c: Cipher, b: Bytes, nonce: nat, p: Bytes): seq<Bytes>
    requires Opens(c, Records(b))
  {
    Recovering(b)
    + if EndsWith(Plaintexts(c, Records(b)), p) then [] else Growing(Committed(b), Line(c, nonce, p))
  }

  /** The log that an append must leave: a value that is already last is not repeated. */
  function Appended(log: seq<Bytes>, p: Bytes): seq<Bytes> {
    if EndsWith(log, p) then log else log + [p]
  }

  lemma TornLineIsInvisible(c: Cipher, b: Bytes, nonce: nat, p: Bytes, n: nat)
    requires Lawful(c) && Terminated(b) && n < |Line(c, nonce, p)|
    ensures Records(b + Line(c, nonce, p)[..n]) == Records(b)
  {
    var part := Line(c, nonce, p)[..n];
    assert part == c.seal(nonce, p)[..n];
    NoNewlineNoRecord(part);
    RecordsConcat(b, part);
  }

  lemma FullLineIsAppended(c: Cipher, b: Bytes, nonce: nat, p: Bytes, log: seq<Bytes>)
    requires Lawful(c) && Terminated(b) && Holds(c, b, log)
    ensures Holds(c, b + Line(c, nonce, p), log + [p])
  {
    SealedLineIsOneRecord(c, b, nonce, p);
    var records, sealed := Records(b), c.seal(nonce, p);
    assert c.open(sealed) == Opened(p, true);
    var more := records + [sealed];
    assert forall i :: 0 <= i < |records| ==> more[i] == records[i];
    assert Plaintexts(c, more) == Plaintexts(c, records) + [p];
  }

  lemma GrowingIsAtomic(c: Cipher, b: Bytes, nonce: nat, p: Bytes, log: seq<Bytes>, x: Bytes)
    requires Lawful(c) && Terminated(b) && Holds(c, b, log) && x in Growing(b, Line(c, nonce, p))
    ensures b <= x && (Holds(c, x, log) || Holds(c, x, log + [p]))
  {
    hide Holds, Records;
    var line := Line(c, nonce, p);
    var i :| 0 <= i < |line| && x == b + line[..i + 1];
    if i + 1 < |line| {
      TornLineIsInvisible(c, b, nonce, p, i + 1);
      HoldsDependsOnRecords(c, b, x, log);
    } else {
      assert line[..i + 1] == line;
      FullLineIsAppended(c, b, nonce, p, log);
    }
  }

  lemma GrowthEnds(b: Bytes, line: Bytes)
    requires line != []
    ensures Growing(b, line) != [] && Last(b, Growing(b, line)) == b + line
  {
    assert line[..|line|] == line;
  }

  /** At every moment of an append the file holds the old log or the new one, behind unchanged earlier bytes. */
  lemma AppendIsAtomic(c: Cipher, b: Bytes, nonce: nat, p: Bytes, log: seq<Bytes>)
    requires Lawful(c) && Holds(c, b, log)
    ensures Opens(c, Records(b))
    ensures forall x :: x in AppendContents(c, b, nonce, p)
                        ==> Committed(b) <= x && (Holds(c, x, log) || Holds(c, x, Appended(log, p)))
    ensures Holds(c, Last(b, AppendContents(c, b, nonce, p)), Appended(log, p))
  {
    hide Holds, Records, Committed, Growing, Line, Lawful, Opens, Plaintexts, EndsWith;
    HoldsGivesPlaintexts(c, b, log);
    CommittedIsTerminated(b);
    HoldsDependsOnRecords(c, b, Committed(b), log);
    var line, base := Line(c, nonce, p), Committed(b);
    LineNonEmpty(c, nonce, p);
    GrowthEnds(base, line);
    FullLineIsAppended(c, base, nonce, p, log);
    forall x | x in Growing(base, line) ensures base <= x && (Holds(c, x, log) || Holds(c, x, log + [p])) {
      GrowingIsAtomic(c, base, nonce, p, log, x);
    }
  }

  lemma LineNonEmpty(c: Cipher, nonce: nat, p: Bytes)
    ensures Line(c, nonce, p) != []
  {
  }

  lemma HoldsDependsOnRecords(c: Cipher, a: Bytes, b: Bytes, log: seq<Bytes>)
    requires Holds(c, a, log) && Records(a) == Records(b)
    ensures Holds(c, b, log)
  {
  }

  lemma HoldsGivesPlaintexts(c: Cipher, b: Bytes, log: seq<Bytes>)
    requires Holds(c, b, log)
    ensures Opens(c, Records(b)) && Plaintexts(c, Records(b)) == log
  {
  }

  function Last(b: Bytes, contents: seq<Bytes>): Bytes {
    if contents == [] then b else contents[|contents| - 1]
  }

  /** The file holds `out`, all encrypted: `log`, with `p` at its end and nothing else added. */
  ghost predicate Wrote(c: Cipher, x: Bytes, log: seq<Bytes>, p: Bytes) {
    exists out :: HoldsExactly(c, x, out) && out != [] && out[|out| - 1] == p && (out == log || out == log + [p])
  }

  ghost predicate HoldsExactly(c: Cipher, x: Bytes, out: seq<Bytes>) {
    |Records(x)| == |out| && forall i :: 0 <= i < |out| ==> c.open(Records(x)[i]) == Opened(out[i], true)
  }

  lemma HoldsMeans(c: Cipher, b: Bytes, log: seq<Bytes>)
    ensures Holds(c, b, log) <==> HoldsExactly(c, b, log)
  {
    hide Records;
    if HoldsExactly(c, b, log) {
      assert Plaintexts(c, Records(b)) == log;
    }
  }

  lemma AppendedIsWritten(c: Cipher, x: Bytes, log: seq<Bytes>, p: Bytes)
    requires Holds(c, x, Appended(log, p))
    ensures Wrote(c, x, log, p)
  {
    hide Holds, Records;
    HoldsMeans(c, x, Appended(log, p));
  }

  /** A completed append leaves the value last, and otherwise exactly the log there was. */
  lemma AppendWritesTheValue(c: Cipher, b: Bytes, nonce: nat, p: Bytes, log: seq<Bytes>)
    requires Lawful(c) && Holds(c, b, log)
    ensures Opens(c, Records(b)) && Wrote(c, Last(b, AppendContents(c, b, nonce, p)), log, p)
  {
    hide Holds, Appended, AppendContents, Wrote;
    AppendIsAtomic(c, b, nonce, p, log);
    AppendedIsWritten(c, Last(b, AppendContents(c, b, nonce, p)), log, p);
  }

  // Any number of interrupted attempts.

  /** An attempt with its nonce, interrupted after `cut` changes of the file. */
  datatype Attempt = Attempt(nonce: nat, cut: nat)

  function After(c: Cipher, b: Bytes, p: Bytes, attempt: Attempt): Bytes {
    if !Opens(c, Records(b)) then b
    else
      var contents := AppendContents(c, b, attempt.nonce, p);
      Last(b, if attempt.cut < |contents| then contents[..attempt.cut] else contents)
  }

  function AfterAll(c: Cipher, b: Bytes, p: Bytes, attempts: seq<Attempt>): Bytes {
    if attempts == [] then b
    else After(c, AfterAll(c, b, p, attempts[..|attempts| - 1]), p, attempts[|attempts| - 1])
  }

  lemma AppendedTwice(log: seq<Bytes>, p: Bytes)
    ensures Appended(Appended(log, p), p) == Appended(log, p)
  {
  }

  lemma {:induction false} InterruptedAppends(
    c: Cipher, b: Bytes, p: Bytes, attempts: seq<Attempt>, log: seq<Bytes>)
    requires Lawful(c) && Holds(c, b, log)
    ensures var x := AfterAll(c, b, p, attempts);
            Holds(c, x, log) || Holds(c, x, Appended(log, p))
  {
    hide Holds, Appended, AppendContents;
    if attempts != [] {
      var init, attempt := attempts[..|attempts| - 1], attempts[|attempts| - 1];
      InterruptedAppends(c, b, p, init, log);
      var x := AfterAll(c, b, p, init);
      var held := if Holds(c, x, log) then log else Appended(log, p);
      HoldsGivesPlaintexts(c, x, held);
      AppendIsAtomic(c, x, attempt.nonce, p, held);
      AppendedTwice(log, p);
      var contents := AppendContents(c, x, attempt.nonce, p);
      var reached := if attempt.cut < |contents| then contents[..attempt.cut] else contents;
      assert reached != [] ==> Last(x, reached) in contents;
    }
  }

  /**
   Exactly once: after any number of attempts, each cut at any byte, one that completes leaves the
   log with the value appended once (or unchanged, if the value was already last).
   */
  lemma AppendExactlyOnce(c: Cipher, b: Bytes, p: Bytes, attempts: seq<Attempt>, nonce: nat, log: seq<Bytes>)
    requires Lawful(c) && Holds(c, b, log)
    ensures var x := AfterAll(c, b, p, attempts);
            && Opens(c, Records(x))
            && Holds(c, Last(x, AppendContents(c, x, nonce, p)), Appended(log, p))
            && Wrote(c, Last(x, AppendContents(c, x, nonce, p)), log, p)
  {
    hide Holds, Appended, AppendContents, Wrote;
    InterruptedAppends(c, b, p, attempts, log);
    var x := AfterAll(c, b, p, attempts);
    var held := if Holds(c, x, log) then log else Appended(log, p);
    HoldsGivesPlaintexts(c, x, held);
    AppendIsAtomic(c, x, nonce, p, held);
    AppendedTwice(log, p);
    AppendedIsWritten(c, Last(x, AppendContents(c, x, nonce, p)), log, p);
  }

  // Migration.

  /** A log written afresh: one sealed line per plaintext. */
  function SealedLog(c: Cipher, nonces: nat -> nat, ps: seq<Bytes>): Bytes {
    if ps == [] then []
    else SealedLog(c, nonces, ps[..|ps| - 1]) + Line(c, nonces(|ps| - 1), ps[|ps| - 1])
  }

  lemma {:induction false} SealedLogHolds(c: Cipher, nonces: nat -> nat, ps: seq<Bytes>)
    requires Lawful(c)
    ensures Terminated(SealedLog(c, nonces, ps))
    ensures Holds(c, SealedLog(c, nonces, ps), ps)
  {
    if ps == [] {
      NoNewlineNoRecord([]);
      assert Plaintexts(c, Records([])) == [];
    } else {
      var init, last := ps[..|ps| - 1], ps[|ps| - 1];
      SealedLogHolds(c, nonces, init);
      FullLineIsAppended(c, SealedLog(c, nonces, init), nonces(|ps| - 1), last, init);
      assert init + [last] == ps;
    }
  }

  /** Contents while loading: the tail is dropped, then an all-plaintext log is replaced in one rename. */
  function LoadContents(c: Cipher, b: Bytes, nonces: nat -> nat): seq<Bytes>
    requires Opens(c, Records(b))
  {
    Recovering(b)
    + if Records(b) != [] && AllPlain(c, Records(b)) then [SealedLog(c, nonces, Plaintexts(c, Records(b)))] else []
  }

  /** Contents while protecting: any log with a plaintext record is replaced. */
  function ProtectContents(c: Cipher, b: Bytes, nonces: nat -> nat): seq<Bytes>
    requires Opens(c, Records(b))
  {
    Recovering(b)
    + if AllEncrypted(c, Records(b)) then [] else [SealedLog(c, nonces, Plaintexts(c, Records(b)))]
  }

  ghost predicate Means(c: Cipher, b: Bytes, ps: seq<Bytes>) {
    Opens(c, Records(b)) && Plaintexts(c, Records(b)) == ps
  }

  /**
   Loading and protecting keep the meaning: every content on the way decodes to the same records in
   the same order, and at the end every record is encrypted.
   */
  lemma MigrationKeepsMeaning(c: Cipher, b: Bytes, nonces: nat -> nat)
    requires Lawful(c) && Opens(c, Records(b))
    ensures var ps := Plaintexts(c, Records(b));
            && (forall x :: x in LoadContents(c, b, nonces) + ProtectContents(c, b, nonces) ==> Means(c, x, ps))
            && Holds(c, Last(b, ProtectContents(c, b, nonces)), ps)
            && (AllEncrypted(c, Records(b)) || AllPlain(c, Records(b))
                ==> Holds(c, Last(b, LoadContents(c, b, nonces)), ps))
  {
    hide Records, Committed, SealedLog;
    var ps := Plaintexts(c, Records(b));
    CommittedIsTerminated(b);
    SealedLogHolds(c, nonces, ps);
    if Records(b) != [] && AllPlain(c, Records(b)) {
      assert !c.open(Records(b)[0]).encrypted;
    }
  }

  lemma ProtectedIsTerminated(c: Cipher, b: Bytes, nonces: nat -> nat)
    requires Lawful(c) && Opens(c, Records(b))
    ensures Terminated(Last(b, ProtectContents(c, b, nonces)))
  {
    hide Records, Committed, SealedLog, Holds, Opens, AllEncrypted, Plaintexts, Lawful;
    CommittedIsTerminated(b);
    SealedLogHolds(c, nonces, Plaintexts(c, Records(b)));
  }

  lemma HoldsIsProtected(c: Cipher, x: Bytes, ps: seq<Bytes>, again: nat -> nat, valid: Bytes -> bool)
    requires Holds(c, x, ps) && Terminated(x)
    ensures AllEncrypted(c, Records(x)) && Opens(c, Records(x))
    ensures ProtectContents(c, x, again) == []
    ensures AllValid(valid, ps) ==> Loadable(c, valid, Records(x))
  {
    hide Records, Opens, AllEncrypted, Plaintexts, SealedLog, AllValid;
  }

  /** Protecting a protected log changes nothing, and such a log is never refused as mixed. */
  lemma ProtectionIsIdempotent(c: Cipher, b: Bytes, nonces: nat -> nat, again: nat -> nat, valid: Bytes -> bool)
    requires Lawful(c) && Opens(c, Records(b))
    ensures var x := Last(b, ProtectContents(c, b, nonces));
            && AllEncrypted(c, Records(x)) && Opens(c, Records(x))
            && ProtectContents(c, x, again) == []
            && (AllValid(valid, Plaintexts(c, Records(b))) ==> Loadable(c, valid, Records(x)))
  {
    hide Holds, Lawful, Terminated, Records, ProtectContents, LoadContents, Loadable, AllValid, Last;
    MigrationKeepsMeaning(c, b, nonces);
    ProtectedIsTerminated(c, b, nonces);
    HoldsIsProtected(c, Last(b, ProtectContents(c, b, nonces)), Plaintexts(c, Records(b)), again, valid);
  }

  // The file and the code that changes it.

  /** Reads through the next newline, or to the end of the file. */
  method ReadUntilNewline(b: Bytes, from: nat) returns (end: nat)
    requires from < |b|
    ensures from < end <= |b|
    ensures NEWLINE !in b[from..end - 1]
    ensures b[end - 1] == NEWLINE || end == |b|
  {
    end := from + 1;
    while end < |b| && b[end - 1] != NEWLINE
      invariant from < end <= |b|
      invariant forall i :: from <= i < end - 1 ==> b[i] != NEWLINE
    {
      end := end + 1;
    }
  }

  /** One turn of a reading loop: a complete line advances the split point by one record. */
  lemma NextRecord(b: Bytes, from: nat, end: nat)
    requires from < end <= |b| && NEWLINE !in b[from..end - 1]
    requires Terminated(b[..from])
    ensures b[end - 1] == NEWLINE ==>
              && Terminated(b[..end])
              && Records(b[..end]) == Records(b[..from]) + [Strip(b[from..end - 1])]
    ensures b[end - 1] != NEWLINE && end == |b| ==> Committed(b) == b[..from] && !Terminated(b)
  {
    hide Records, Committed, Strip;
    if b[end - 1] == NEWLINE {
      CompleteLine(b, from, end);
    } else if end == |b| {
      IncompleteLine(b, from);
    }
  }

  lemma CompleteLine(b: Bytes, from: nat, end: nat)
    requires from < end <= |b| && NEWLINE !in b[from..end - 1] && b[end - 1] == NEWLINE
    requires Terminated(b[..from])
    ensures Terminated(b[..end]) && Records(b[..end]) == Records(b[..from]) + [Strip(b[from..end - 1])]
  {
    hide Records, Committed, Strip;
    var line := b[from..end];
    assert line[..|line| - 1] == b[from..end - 1];
    OneLine(line, []);
    assert line + [] == line;
    NoNewlineNoRecord([]);
    RecordsConcat(b[..from], line);
    assert b[..from] + line == b[..end];
    assert [Strip(line[..|line| - 1])] + [] == [Strip(b[from..end - 1])];
  }

  lemma IncompleteLine(b: Bytes, from: nat)
    requires from < |b| && NEWLINE !in b[from..|b| - 1] && b[|b| - 1] != NEWLINE
    requires Terminated(b[..from])
    ensures Committed(b) == b[..from] && !Terminated(b)
  {
    hide Records, Committed;
    NoNewlineThrough(b, from);
    NoNewlineNoRecord(b[from..]);
    RecordsConcat(b[..from], b[from..]);
    assert b[..from] + b[from..] == b;
    assert b[..from] + [] == b[..from];
  }

  lemma NoNewlineThrough(b: Bytes, from: nat)
    requires from < |b| && NEWLINE !in b[from..|b| - 1] && b[|b| - 1] != NEWLINE
    ensures NEWLINE !in b[from..]
  {
    forall i | from <= i < |b| ensures b[i] != NEWLINE {
      if i < |b| - 1 {
        assert b[from..|b| - 1][i - from] == b[i];
      }
    }
  }

  lemma WholeFileRead(b: Bytes)
    requires Terminated(b)
    ensures Records(b[..|b|]) == Records(b) && Committed(b) == b
  {
    assert b[..|b|] == b;
    CommittedIsTerminated(b);
  }

  class LogFile {
    var bytes: Bytes
    ghost var contents: seq<Bytes>

    constructor (bytes: Bytes)
      ensures this.bytes == bytes && contents == []
    {
      this.bytes := bytes;
      contents := [];
    }

    method SetLength(n: nat)
      requires n <= |bytes|
      modifies this
      ensures bytes == old(bytes)[..n] && contents == old(contents) + [bytes]
    {
      bytes := bytes[..n];
      contents := contents + [bytes];
    }

    /** The temporary file is written beside the log and renamed over it in one step. */
    method Replace(b: Bytes)
      modifies this
      ensures bytes == b && contents == old(contents) + [b]
    {
      bytes := b;
      contents := contents + [b];
    }

    /** A write may stop after any byte. */
    method WriteAtEnd(line: Bytes)
      modifies this
      ensures bytes == old(bytes) + line
      ensures contents == old(contents) + Growing(old(bytes), line)
    {
      var i := 0;
      while i < |line|
        invariant 0 <= i <= |line|
        invariant bytes == old(bytes) + line[..i]
        invariant contents == old(contents) + Growing(old(bytes), line)[..i]
      {
        assert line[..i + 1] == line[..i] + [line[i]];
        bytes := bytes + [line[i]];
        contents := contents + [bytes];
        i := i + 1;
      }
    }

    method RecoverUnterminatedTail()
      modifies this
      ensures bytes == Committed(old(bytes))
      ensures contents == old(contents) + Recovering(old(bytes))
      ensures Terminated(bytes) && Records(bytes) == Records(old(bytes))
    {
      hide Records, Committed;
      CommittedIsTerminated(bytes);
      var committed := 0;
      while true
        invariant 0 <= committed <= |bytes|
        invariant Terminated(bytes[..committed])
        invariant bytes == old(bytes) && contents == old(contents)
        decreases |bytes| - committed
      {
        if committed == |bytes| {
          assert bytes[..committed] == bytes;
          return;
        }
        var end := ReadUntilNewline(bytes, committed);
        NextRecord(bytes, committed, end);
        if bytes[end - 1] != NEWLINE {
          SetLength(committed);
          return;
        }
        committed := end;
      }
    }

    method FirstCommittedRecord() returns (found: bool, record: Bytes)
      ensures found <==> Records(bytes) != []
      ensures found ==> record == Records(bytes)[0]
    {
      hide Strip;
      if bytes == [] {
        NoNewlineNoRecord(bytes);
        return false, [];
      }
      var end := ReadUntilNewline(bytes, 0);
      if bytes[end - 1] != NEWLINE {
        NoNewlineThrough(bytes, 0);
        assert bytes[0..] == bytes;
        NoNewlineNoRecord(bytes);
        return false, [];
      }
      assert bytes[0..end - 1] == bytes[..end - 1];
      FirstNewlineIs(bytes, end - 1);
      record := Strip(bytes[..end - 1]);
      found := true;
    }

    method LastCommittedRecord() returns (found: bool, record: Bytes)
      ensures found <==> Records(bytes) != []
      ensures found ==> record == Records(bytes)[|Records(bytes)| - 1]
    {
      hide Records, Strip, Committed;
      var at := 0;
      found, record := false, [];
      NoNewlineNoRecord([]);
      while at < |bytes|
        invariant 0 <= at <= |bytes|
        invariant Terminated(bytes[..at])
        invariant found <==> Records(bytes[..at]) != []
        invariant found ==> record == Records(bytes[..at])[|Records(bytes[..at])| - 1]
      {
        var end := ReadUntilNewline(bytes, at);
        NextRecord(bytes, at, end);
        if bytes[end - 1] != NEWLINE {
          CommittedIsTerminated(bytes);
          return;
        }
        found, record := true, Strip(bytes[at..end - 1]);
        at := end;
      }
      assert bytes[..at] == bytes;
    }

    /** Reads every record, checking that each one opens. */
    method OpenRecords(c: Cipher) returns (ok: bool, plaintexts: seq<Bytes>, someEncrypted: bool, somePlain: bool)
      requires Terminated(bytes)
      ensures ok <==> Opens(c, Records(bytes))
      ensures ok ==> plaintexts == Plaintexts(c, Records(bytes))
      ensures ok ==> (somePlain <==> !AllEncrypted(c, Records(bytes)))
      ensures ok ==> (someEncrypted <==> !AllPlain(c, Records(bytes)))
    {
      hide Records, Strip, Opens, AllEncrypted, AllPlain, Plaintexts;
      WholeFileRead(bytes);
      EmptyRecords(c);
      var at := 0;
      ok, plaintexts, someEncrypted, somePlain := true, [], false, false;
      NoNewlineNoRecord([]);
      ghost var records: seq<Bytes> := [];
      while at < |bytes|
        invariant 0 <= at <= |bytes|
        invariant Terminated(bytes[..at]) && records == Records(bytes[..at])
        invariant Opens(c, records) && plaintexts == Plaintexts(c, records)
        invariant somePlain <==> !AllEncrypted(c, records)
        invariant someEncrypted <==> !AllPlain(c, records)
      {
        var end := ReadUntilNewline(bytes, at);
        NextRecord(bytes, at, end);
        var record := Strip(bytes[at..end - 1]);
        var decoded := c.open(record);
        ghost var before := records;
        records := before + [record];
        OneMoreRecord(c, before, record);
        at := end;
        if decoded.Refused? {
          PrefixOpens(c, bytes, at);
          return false, plaintexts, someEncrypted, somePlain;
        }
        plaintexts := plaintexts + [decoded.plaintext];
        if decoded.encrypted { someEncrypted := true; } else { somePlain := true; }
      }
    }

    /** Loads every record; an all-plaintext log is migrated on the way. */
    method Load(c: Cipher, valid: Bytes -> bool, nonces: nat -> nat) returns (ok: bool, values: seq<Bytes>)
      modifies this
      ensures ok <==> Loadable(c, valid, Records(old(bytes)))
      ensures ok ==> values == Plaintexts(c, Records(old(bytes)))
      ensures ok ==> contents == old(contents) + LoadContents(c, old(bytes), nonces)
      ensures ok ==> bytes == if Records(old(bytes)) != [] && AllPlain(c, Records(old(bytes)))
                              then SealedLog(c, nonces, Plaintexts(c, Records(old(bytes))))
                              else Committed(old(bytes))
      ensures !ok ==> bytes == Committed(old(bytes)) && contents == old(contents) + Recovering(old(bytes))
    {
      hide Records, Committed, SealedLog, Opens, AllEncrypted, AllPlain, Plaintexts;
      RecoverUnterminatedTail();
      ghost var records := Records(bytes);
      var decoded, plaintexts, someEncrypted, somePlain := OpenRecords(c);
      if !decoded || (someEncrypted && somePlain) { return false, []; }
      var allValid := CheckAll(valid, plaintexts);
      if !allValid { return false, []; }
      ok, values := true, plaintexts;
      KindsOfEmpty(c, records);
      if plaintexts != [] && !someEncrypted {
        var migrated := SealAll(c, nonces, plaintexts);
        Replace(migrated);
      }
    }

    /** Protects a log whatever mixture of records it holds. */
    method Protect(c: Cipher, nonces: nat -> nat) returns (ok: bool)
      modifies this
      ensures ok <==> Opens(c, Records(old(bytes)))
      ensures ok ==> contents == old(contents) + ProtectContents(c, old(bytes), nonces)
      ensures ok ==> bytes == Last(Committed(old(bytes)), ProtectContents(c, old(bytes), nonces))
      ensures !ok ==> bytes == Committed(old(bytes)) && contents == old(contents) + Recovering(old(bytes))
    {
      hide Records, Committed, SealedLog, Opens, AllEncrypted, AllPlain, Plaintexts;
      RecoverUnterminatedTail();
      var decoded, plaintexts, _, somePlain := OpenRecords(c);
      if !decoded { return false; }
      if somePlain {
        var migrated := SealAll(c, nonces, plaintexts);
        Replace(migrated);
      }
      ok := true;
    }

    /**
     Appends one value. On an encrypted log the file goes through exactly `AppendContents`; a plaintext
     log that loads is migrated first; a log that merely begins encrypted is extended if its last record
     opens; a refused append leaves the committed bytes as they were.
     */
    method Append(c: Cipher, valid: Bytes -> bool, nonces: nat -> nat, nonce: nat, p: Bytes) returns (ok: bool)
      requires Lawful(c)
      modifies this
      ensures AllEncrypted(c, Records(old(bytes))) ==>
                && ok
                && contents == old(contents) + AppendContents(c, old(bytes), nonce, p)
                && bytes == Last(Committed(old(bytes)), AppendContents(c, old(bytes), nonce, p))
      ensures var records := Records(old(bytes));
              records != [] && AllPlain(c, records) && Loadable(c, valid, records) ==>
                var migrated := SealedLog(c, nonces, Plaintexts(c, records));
                && ok
                && Opens(c, Records(migrated))
                && contents == old(contents) + LoadContents(c, old(bytes), nonces)
                               + AppendContents(c, migrated, nonce, p)
                && bytes == Last(migrated, AppendContents(c, migrated, nonce, p))
      ensures var records := Records(old(bytes));
              ok <==> if BeginsEncrypted(c, records) then LastOpens(c, records) else Loadable(c, valid, records)
      ensures BeginsEncrypted(c, Records(old(bytes))) && ok ==>
                && contents == old(contents) + Recovering(old(bytes)) + NewLine(c, Committed(old(bytes)), nonce, p)
                && bytes == Last(Committed(old(bytes)), NewLine(c, Committed(old(bytes)), nonce, p))
      ensures ok ==> OpensTo(c, bytes, p)
      ensures !ok ==> bytes == Committed(old(bytes)) && contents == old(contents) + Recovering(old(bytes))
    {
      hide Records, Committed, SealedLog, Growing, Lawful, Plaintexts, Strip, Loadable, Opens, AllEncrypted, AllPlain,
           OpensTo, EndsWith, AppendContents, NewLine, LastOpens, Last, Recovering;
      FirstRecordKind(c, Records(bytes));
      LoadableBegins(c, valid, Records(bytes));
      NoRecordsOpen(c);
      AppendAfterRecovery(c, bytes, nonce, p);
      RecoverUnterminatedTail();
      var found, first := FirstCommittedRecord();
      if found {
        var decoded := c.open(first);
        if decoded.Refused? { return false; }
        if !decoded.encrypted {
          var loaded, _ := LoadMigrating(c, valid, nonces);
          if !loaded { return false; }
          SealedLogOpens(c, nonces, Plaintexts(c, Records(old(bytes))));
          OpensAtLast(c, Records(bytes));
        }
      }
      ok := AppendToCommitted(c, nonce, p);
    }

    /** Loading a log that is already free of a torn tail and starts with a plaintext record. */
    method LoadMigrating(c: Cipher, valid: Bytes -> bool, nonces: nat -> nat) returns (ok: bool, values: seq<Bytes>)
      requires Terminated(bytes) && Records(bytes) != []
      requires c.open(Records(bytes)[0]).Opened? && !c.open(Records(bytes)[0]).encrypted
      modifies this
      ensures ok <==> Loadable(c, valid, Records(old(bytes)))
      ensures ok ==> AllPlain(c, Records(old(bytes))) && Opens(c, Records(old(bytes)))
      ensures ok ==> bytes == SealedLog(c, nonces, Plaintexts(c, Records(old(bytes))))
      ensures ok ==> contents == old(contents) + [bytes]
      ensures !ok ==> bytes == old(bytes) && contents == old(contents)
    {
      hide Records, Committed, SealedLog, Plaintexts;
      WholeFileRead(bytes);
      ok, values := Load(c, valid, nonces);
    }

    method AppendToCommitted(c: Cipher, nonce: nat, p: Bytes) returns (ok: bool)
      requires Terminated(bytes) && Lawful(c)
      modifies this
      ensures ok <==> LastOpens(c, Records(old(bytes)))
      ensures ok ==> OpensTo(c, bytes, p) && Keeps(c, old(bytes), bytes, nonce, p)
      ensures ok ==> contents == old(contents) + NewLine(c, old(bytes), nonce, p)
      ensures ok ==> bytes == Last(old(bytes), NewLine(c, old(bytes), nonce, p))
      ensures Opens(c, Records(old(bytes))) ==>
                && ok
                && contents == old(contents) + AppendContents(c, old(bytes), nonce, p)
                && bytes == Last(old(bytes), AppendContents(c, old(bytes), nonce, p))
      ensures !ok ==> bytes == old(bytes) && contents == old(contents)
    {
      hide Records, Committed, Growing, Line, Lawful;
      WholeFileRead(bytes);
      NewLineWrites(c, bytes, nonce, p);
      var found, last := LastCommittedRecord();
      if found {
        var decoded := c.open(last);
        if decoded.Refused? { return false; }
        if decoded.plaintext == p { return true; }
      }
      var line := Line(c, nonce, p);
      LineNonEmpty(c, nonce, p);
      GrowthEnds(bytes, line);
      WriteAtEnd(line);
      ok := true;
    }
  }

  lemma AppendAfterRecovery(c: Cipher, b: Bytes, nonce: nat, p: Bytes)
    ensures Records(Committed(b)) == Records(b)
    ensures Opens(c, Records(b)) ==>
              var rest := AppendContents(c, Committed(b), nonce, p);
              && AppendContents(c, b, nonce, p) == Recovering(b) + rest
              && Last(Committed(b), AppendContents(c, b, nonce, p)) == Last(Committed(b), rest)
  {
    hide Records, Committed, Opens, Plaintexts, Growing, EndsWith;
    CommittedIsTerminated(b);
    CommittedIsTerminated(Committed(b));
    if Opens(c, Records(b)) {
      var rest := AppendContents(c, Committed(b), nonce, p);
      assert Recovering(Committed(b)) == [];
      assert AppendContents(c, b, nonce, p) == Recovering(b) + rest;
      assert rest == [] ==> Recovering(b) + rest == Recovering(b);
    }
  }

  /** The log is empty or its first record is encrypted: no migration is tried. */
  predicate BeginsEncrypted(c: Cipher, records: seq<Bytes>) {
    records == [] || (c.open(records[0]).Opened? && c.open(records[0]).encrypted)
  }

  predicate LastOpens(c: Cipher, records: seq<Bytes>) {
    records == [] || c.open(records[|records| - 1]).Opened?
  }

  predicate LastHolds(c: Cipher, records: seq<Bytes>, p: Bytes) {
    records != [] && LastOpens(c, records) && c.open(records[|records| - 1]).plaintext == p
  }

  /** Contents while one line is added to committed bytes, none if the value is already last. */
  function NewLine(c: Cipher, b: Bytes, nonce: nat, p: Bytes): seq<Bytes> {
    if LastHolds(c, Records(b), p) then [] else Growing(b, Line(c, nonce, p))
  }

  /** The last record of the file opens to `p`. */
  ghost predicate OpensTo(c: Cipher, b: Bytes, p: Bytes) {
    var records := Records(b);
    records != [] && c.open(records[|records| - 1]).Opened? && c.open(records[|records| - 1]).plaintext == p
  }

  /** No record is lost, and at most the sealed value is added. */
  ghost predicate Keeps(c: Cipher, before: Bytes, after: Bytes, nonce: nat, p: Bytes) {
    Records(after) == Records(before) || Records(after) == Records(before) + [c.seal(nonce, p)]
  }

  /** Whatever mixture the log is, adding a line to it makes the value its last one. */
  lemma NewLineWrites(c: Cipher, b: Bytes, nonce: nat, p: Bytes)
    requires Lawful(c) && Terminated(b)
    ensures var x := Last(b, NewLine(c, b, nonce, p));
            LastOpens(c, Records(b)) ==> OpensTo(c, x, p) && Keeps(c, b, x, nonce, p)
  {
    hide Records, Growing, Strip;
    LineNonEmpty(c, nonce, p);
    GrowthEnds(b, Line(c, nonce, p));
    SealedLineIsOneRecord(c, b, nonce, p);
    assert c.open(c.seal(nonce, p)) == Opened(p, true);
    if !LastHolds(c, Records(b), p) {
      var x := Last(b, NewLine(c, b, nonce, p));
      assert Growing(b, Line(c, nonce, p)) != [] && x == b + Line(c, nonce, p);
      assert Records(x) == Records(b) + [c.seal(nonce, p)];
    }
  }

  // What the notions above mean.

  /** A load succeeds exactly when every record opens and parses, and all are of one kind. */
  lemma LoadableMeans(c: Cipher, valid: Bytes -> bool, records: seq<Bytes>)
    ensures Loadable(c, valid, records)
            <==> && (forall i :: 0 <= i < |records| ==>
                       c.open(records[i]).Opened? && valid(c.open(records[i]).plaintext))
                 && forall i, j :: 0 <= i < |records| && 0 <= j < |records| ==>
                      (c.open(records[i]).Opened? && c.open(records[i]).encrypted
                       <==> c.open(records[j]).Opened? && c.open(records[j]).encrypted)
  {
    if Opens(c, records) {
      var ps := Plaintexts(c, records);
      assert forall i :: 0 <= i < |records| ==> ps[i] == c.open(records[i]).plaintext;
    }
  }

  /** A file is its first line and the rest; the newline takes one carriage return along. */
  lemma RecordsMean(line: Bytes, rest: Bytes)
    requires NEWLINE !in line
    ensures Records(line) == [] && Committed(line) == []
    ensures Committed(line + [NEWLINE] + rest) == line + [NEWLINE] + Committed(rest)
    ensures Records(line + [NEWLINE] + rest)
         == [if line != [] && line[|line| - 1] == CARRIAGE_RETURN then line[..|line| - 1] else line] + Records(rest)
  {
    hide Records, Committed;
    NoNewlineNoRecord(line);
    var whole := line + [NEWLINE];
    assert whole[..|whole| - 1] == line;
    OneLine(whole, rest);
  }

  /** Every prefix of the line is a content on the way. */
  lemma GrowingMeans(b: Bytes, line: Bytes, n: nat)
    requires 0 < n <= |line|
    ensures b + line[..n] in Growing(b, line) && |Growing(b, line)| == |line|
  {
    assert Growing(b, line)[n - 1] == b + line[..n];
  }

  lemma LoadableBegins(c: Cipher, valid: Bytes -> bool, records: seq<Bytes>)
    ensures Loadable(c, valid, records) && records != [] ==> c.open(records[0]).Opened?
  {
  }

  lemma OpensAtLast(c: Cipher, records: seq<Bytes>)
    requires Opens(c, records)
    ensures LastOpens(c, records)
  {
  }

  lemma NoRecordsOpen(c: Cipher)
    ensures LastOpens(c, [])
  {
  }

  lemma EmptyRecords(c: Cipher)
    ensures Opens(c, []) && Plaintexts(c, []) == [] && AllEncrypted(c, []) && AllPlain(c, [])
  {
  }

  lemma OneMoreRecord(c: Cipher, before: seq<Bytes>, record: Bytes)
    requires Opens(c, before)
    ensures var after, decoded := before + [record], c.open(record);
            && (Opens(c, after) <==> decoded.Opened?)
            && (decoded.Opened? ==> Plaintexts(c, after) == Plaintexts(c, before) + [decoded.plaintext])
            && (decoded.Opened? ==> (AllEncrypted(c, after) <==> AllEncrypted(c, before) && decoded.encrypted))
            && (decoded.Opened? ==> (AllPlain(c, after) <==> AllPlain(c, before) && !decoded.encrypted))
  {
    var after := before + [record];
    assert after[|before|] == record;
    assert forall i :: 0 <= i < |before| ==> after[i] == before[i];
  }

  lemma FirstRecordKind(c: Cipher, records: seq<Bytes>)
    ensures AllEncrypted(c, records) ==> Opens(c, records)
    ensures AllEncrypted(c, records) && records != [] ==> c.open(records[0]).Opened? && c.open(records[0]).encrypted
    ensures AllPlain(c, records) && records != [] ==> c.open(records[0]).Opened? && !c.open(records[0]).encrypted
  {
  }

  lemma PrefixOpens(c: Cipher, b: Bytes, at: nat)
    requires at <= |b| && Terminated(b[..at]) && !Opens(c, Records(b[..at]))
    ensures !Opens(c, Records(b))
  {
    hide Records;
    RecordsConcat(b[..at], b[at..]);
    assert b[..at] + b[at..] == b;
    var records := Records(b[..at]);
    var i :| 0 <= i < |records| && c.open(records[i]).Refused?;
    assert Records(b)[i] == records[i];
  }

  lemma KindsOfEmpty(c: Cipher, records: seq<Bytes>)
    requires Opens(c, records)
    ensures Plaintexts(c, records) == [] <==> records == []
    ensures records != [] ==> !(AllEncrypted(c, records) && AllPlain(c, records))
  {
    if records != [] { assert c.open(records[0]).Opened?; }
  }

  lemma SealedLogOpens(c: Cipher, nonces: nat -> nat, ps: seq<Bytes>)
    requires Lawful(c)
    ensures Opens(c, Records(SealedLog(c, nonces, ps)))
    ensures Terminated(SealedLog(c, nonces, ps))
  {
    hide Records, SealedLog;
    SealedLogHolds(c, nonces, ps);
  }

  method CheckAll(valid: Bytes -> bool, ps: seq<Bytes>) returns (ok: bool)
    ensures ok <==> AllValid(valid, ps)
  {
    for i := 0 to |ps|
      invariant forall j :: 0 <= j < i ==> valid(ps[j])
    {
      if !valid(ps[i]) { return false; }
    }
    ok := true;
  }

  method SealAll(c: Cipher, nonces: nat -> nat, ps: seq<Bytes>) returns (b: Bytes)
    ensures b == SealedLog(c, nonces, ps)
  {
    b := [];
    for i := 0 to |ps|
      invariant b == SealedLog(c, nonces, ps[..i])
    {
      assert ps[..i + 1][..i] == ps[..i];
      b := b + Line(c, nonces(i), ps[i]);
    }
    assert ps[..|ps|] == ps;
  }
}
