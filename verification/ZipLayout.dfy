/**
 The bytes of a package where section 4.3 of PKWARE APPNOTE.TXT puts them: signatures, checksums, sizes
 and offsets at literal positions.
 */
module ZipLayout {
  import opened Bytes
  import opened Zip

  function Two(v: nat): seq<Byte> {
    [v % 256, v / 256 % 256]
  }

  function Four(v: nat): seq<Byte> {
    [v % 256, v / 256 % 256, v / 256 / 256 % 256, v / 256 / 256 / 256 % 256]
  }

  lemma LowByteFirst(v: nat)
    ensures LittleEndian(v, 2) == Two(v) && LittleEndian(v, 4) == Four(v)
  {
    var w := v / 256;
    assert LittleEndian(w, 1) == [w % 256] + LittleEndian(w / 256, 0);
    var x := w / 256;
    var y := x / 256;
    assert LittleEndian(y, 1) == [y % 256] + LittleEndian(y / 256, 0);
    assert LittleEndian(x, 2) == [x % 256] + LittleEndian(y, 1);
    assert LittleEndian(w, 3) == [w % 256] + LittleEndian(x, 2);
  }

  lemma {:induction false} SizeBefore(widths: seq<nat>, i: nat, n: nat)
    requires i <= n <= |widths|
    ensures SizeUpTo(widths[..n], i) == SizeUpTo(widths, i)
    decreases i
  {
    if i > 0 {
      SizeBefore(widths, i - 1, n);
    }
  }

  /** The field starts at the byte `at`. */
  ghost predicate Starts(bytes: seq<Byte>, at: nat, field: seq<Byte>) {
    at + |field| <= |bytes| && bytes[at..at + |field|] == field
  }

  lemma FieldStarts(values: seq<nat>, widths: seq<nat>, i: nat, rest: seq<Byte>)
    requires |values| == |widths| && i < |widths|
    ensures Starts(EncodeFields(values, widths) + rest, SizeUpTo(widths, i), LittleEndian(values[i], widths[i]))
  {
    hide LittleEndian, EncodeFields, Size, SizeUpTo;
    FieldIsAt(values, widths, i);
    SizeIsSum(widths[..i]);
    SizeBefore(widths, i, i);
  }

  lemma LocalOffsets()
    ensures var w := PKZIP.local;
            SizeUpTo(w, 0) == 0 && SizeUpTo(w, 3) == 8 && SizeUpTo(w, 6) == 14 && SizeUpTo(w, 7) == 18
            && SizeUpTo(w, 8) == 22 && SizeUpTo(w, 9) == 26
  {
    hide Crc;
    var w := PKZIP.local;
    assert SizeUpTo(w, 2) == 6 && SizeUpTo(w, 4) == 10;
  }

  lemma CentralOffsets()
    ensures var w := PKZIP.central;
            SizeUpTo(w, 0) == 0 && SizeUpTo(w, 4) == 10 && SizeUpTo(w, 7) == 16 && SizeUpTo(w, 8) == 20
            && SizeUpTo(w, 9) == 24 && SizeUpTo(w, 10) == 28 && SizeUpTo(w, 16) == 42
  {
    hide Crc;
    var w := PKZIP.central;
    assert SizeUpTo(w, 2) == 6 && SizeUpTo(w, 6) == 14;
    assert SizeUpTo(w, 12) == 32 && SizeUpTo(w, 14) == 36;
  }

  lemma EndOffsets()
    ensures var w := PKZIP.end;
            SizeUpTo(w, 0) == 0 && SizeUpTo(w, 3) == 8 && SizeUpTo(w, 4) == 10 && SizeUpTo(w, 5) == 12
            && SizeUpTo(w, 6) == 16 && SizeUpTo(w, 8) == 22
  {
    hide Crc;
    var w := PKZIP.end;
    assert SizeUpTo(w, 2) == 6;
    assert SizeUpTo(w, 7) == 20;
  }

  lemma Signatures()
    ensures Four(LOCAL_SIGNATURE) == [0x50, 0x4b, 3, 4]
    ensures Four(CENTRAL_SIGNATURE) == [0x50, 0x4b, 1, 2]
    ensures Four(END_SIGNATURE) == [0x50, 0x4b, 5, 6]
  {
  }

  /** A file: "PK" 3 4, stored, its checksum, both its sizes, then its name and its bytes. */
  lemma LocalRecordIs(entry: Entry)
    ensures var r, n := LocalRecord(PKZIP, entry), |entry.name|;
            && Starts(r, 0, [0x50, 0x4b, 3, 4]) && Starts(r, 8, Two(0)) && Starts(r, 14, Four(Crc(entry.data)))
            && Starts(r, 18, Four(|entry.data|)) && Starts(r, 22, Four(|entry.data|)) && Starts(r, 26, Two(n))
            && Starts(r, 30, entry.name) && Starts(r, 30 + n, entry.data) && |r| == 30 + n + |entry.data|
  {
    hide EncodeFields, LittleEndian, Size, SizeUpTo, Crc, Two, Four, Starts;
    var values, widths, rest := LocalFields(PKZIP, entry), PKZIP.local, entry.name + entry.data;
    var head := EncodeFields(values, widths);
    assert LocalRecord(PKZIP, entry) == head + rest;
    PkzipHeaderSizes();
    LocalOffsets();
    Signatures();
    forall v: nat ensures LittleEndian(v, 2) == Two(v) && LittleEndian(v, 4) == Four(v) { LowByteFirst(v); }
    FieldStarts(values, widths, 0, rest);
    FieldStarts(values, widths, 3, rest);
    FieldStarts(values, widths, 6, rest);
    FieldStarts(values, widths, 7, rest);
    FieldStarts(values, widths, 8, rest);
    FieldStarts(values, widths, 9, rest);
    RestStarts(head, entry.name, entry.data);
  }

  lemma RestStarts(head: seq<Byte>, a: seq<Byte>, b: seq<Byte>)
    ensures Starts(head + (a + b), |head|, a) && Starts(head + (a + b), |head| + |a|, b)
  {
  }

  /** A directory entry: "PK" 1 2, stored, its checksum, both its sizes, where its file starts, then its name. */
  lemma CentralRecordIs(entry: Entry, offset: nat)
    ensures var r, n := CentralRecord(PKZIP, entry, offset), |entry.name|;
            && Starts(r, 0, [0x50, 0x4b, 1, 2]) && Starts(r, 10, Two(0)) && Starts(r, 16, Four(Crc(entry.data)))
            && Starts(r, 20, Four(|entry.data|)) && Starts(r, 24, Four(|entry.data|)) && Starts(r, 28, Two(n))
            && Starts(r, 42, Four(offset)) && Starts(r, 46, entry.name) && |r| == 46 + n
  {
    hide EncodeFields, LittleEndian, Size, SizeUpTo, Crc, Two, Four, Starts;
    var values, widths, rest := CentralFields(PKZIP, entry, offset), PKZIP.central, entry.name;
    var head := EncodeFields(values, widths);
    PkzipHeaderSizes();
    CentralOffsets();
    Signatures();
    forall v: nat ensures LittleEndian(v, 2) == Two(v) && LittleEndian(v, 4) == Four(v) { LowByteFirst(v); }
    FieldStarts(values, widths, 0, rest);
    FieldStarts(values, widths, 4, rest);
    FieldStarts(values, widths, 7, rest);
    FieldStarts(values, widths, 8, rest);
    FieldStarts(values, widths, 9, rest);
    FieldStarts(values, widths, 10, rest);
    FieldStarts(values, widths, 16, rest);
    RestStarts(head, entry.name, []);
    assert entry.name + [] == entry.name;
  }

  /** The end: "PK" 5 6, the number of files twice, the size of the directory and where it starts. */
  lemma EndRecordIs(entries: seq<Entry>)
    ensures var r := End(PKZIP, entries);
            && Starts(r, 0, [0x50, 0x4b, 5, 6]) && Starts(r, 8, Two(|entries|)) && Starts(r, 10, Two(|entries|))
            && Starts(r, 12, Four(|Central(PKZIP, entries)|)) && Starts(r, 16, Four(|Locals(PKZIP, entries)|))
            && |r| == 22
  {
    hide EncodeFields, LittleEndian, Size, SizeUpTo, Crc, Two, Four, Starts, Central, Locals;
    var values := EndFields(|entries|, |Central(PKZIP, entries)|, |Locals(PKZIP, entries)|);
    var widths := PKZIP.end;
    EndOffsets();
    SizeIsSum(widths);
    Signatures();
    forall v: nat ensures LittleEndian(v, 2) == Two(v) && LittleEndian(v, 4) == Four(v) { LowByteFirst(v); }
    var r := End(PKZIP, entries);
    assert r + [] == r;
    FieldStarts(values, widths, 0, []);
    FieldStarts(values, widths, 3, []);
    FieldStarts(values, widths, 4, []);
    FieldStarts(values, widths, 5, []);
    FieldStarts(values, widths, 6, []);
  }
}
