/**
 The stored (uncompressed) ZIP package that holds the Word export, and a reader for it.

 Record layouts follow sections 4.3.7 (local file header), 4.3.12 (central directory header)
 and 4.3.16 (end of central directory record) of PKWARE APPNOTE.TXT.
 */
module Zip {
  import Crc32
  import opened Bytes
  import opened Common

  datatype Entry = Entry(name: seq<Byte>, data: seq<Byte>)

  const LOCAL_SIGNATURE := 0x0403_4b50
  const CENTRAL_SIGNATURE := 0x0201_4b50
  const END_SIGNATURE := 0x0605_4b50

  /** Little-endian bytes of `value`, truncated to `width` bytes as an integer cast truncates. */
  function LittleEndian(value: nat, width: nat): (bytes: seq<Byte>)
    ensures |bytes| == width
  {
    if width == 0 then [] else [value % 256] + LittleEndian(value / 256, width - 1)
  }

  function ReadLittleEndian(bytes: seq<Byte>): nat {
    if bytes == [] then 0 else bytes[0] + 256 * ReadLittleEndian(bytes[1..])
  }

  function Capacity(width: nat): (c: nat)
    ensures c > 0
  {
    if width == 0 then 1 else 256 * Capacity(width - 1)
  }

  lemma {:induction false} LittleEndianRoundTrip(value: nat, width: nat)
    requires value < Capacity(width)
    ensures ReadLittleEndian(LittleEndian(value, width)) == value
  {
    if width != 0 {
      LittleEndianRoundTrip(value / 256, width - 1);
      assert LittleEndian(value, width)[1..] == LittleEndian(value / 256, width - 1);
    }
  }

  /** A cast never makes a value larger. */
  lemma {:induction false} TruncatedIsAtMost(value: nat, width: nat)
    ensures ReadLittleEndian(LittleEndian(value, width)) <= value
  {
    if width != 0 {
      TruncatedIsAtMost(value / 256, width - 1);
      assert LittleEndian(value, width)[1..] == LittleEndian(value / 256, width - 1);
    }
  }

  lemma {:induction false} ReadBounded(bytes: seq<Byte>)
    ensures ReadLittleEndian(bytes) < Capacity(|bytes|)
  {
    if bytes != [] {
      ReadBounded(bytes[1..]);
    }
  }

  // Records are sequences of fixed-width little-endian fields.

  function Size(widths: seq<nat>): nat {
    if widths == [] then 0 else widths[0] + Size(widths[1..])
  }

  function EncodeFields(values: seq<nat>, widths: seq<nat>): (bytes: seq<Byte>)
    requires |values| == |widths|
    ensures |bytes| == Size(widths)
  {
    if widths == [] then []
    else LittleEndian(values[0], widths[0]) + EncodeFields(values[1..], widths[1..])
  }

  function DecodeFields(bytes: seq<Byte>, widths: seq<nat>): (values: seq<nat>)
    requires |bytes| >= Size(widths)
    ensures |values| == |widths|
  {
    if widths == [] then []
    else [ReadLittleEndian(bytes[..widths[0]])] + DecodeFields(bytes[widths[0]..], widths[1..])
  }

  ghost predicate Fits(values: seq<nat>, widths: seq<nat>) {
    |values| == |widths| && forall i :: 0 <= i < |values| ==> values[i] < Capacity(widths[i])
  }

  lemma DecodeFirst(head: seq<Byte>, more: seq<Byte>, widths: seq<nat>)
    requires widths != [] && |head| == widths[0] && |more| >= Size(widths[1..])
    ensures |head + more| >= Size(widths)
    ensures DecodeFields(head + more, widths) == [ReadLittleEndian(head)] + DecodeFields(more, widths[1..])
  {
    hide ReadLittleEndian;
    var bytes := head + more;
    assert bytes[..|head|] == head && bytes[|head|..] == more;
  }

  lemma EncodeFirst(values: seq<nat>, widths: seq<nat>)
    requires |values| == |widths| && widths != []
    ensures EncodeFields(values, widths) == LittleEndian(values[0], widths[0]) + EncodeFields(values[1..], widths[1..])
  {
  }

  lemma {:induction false} FieldsRoundTrip(values: seq<nat>, widths: seq<nat>, rest: seq<Byte>)
    requires Fits(values, widths)
    ensures DecodeFields(EncodeFields(values, widths) + rest, widths) == values
  {
    hide LittleEndian, ReadLittleEndian, Capacity;
    if widths != [] {
      hide EncodeFields, DecodeFields;
      var head, tail := LittleEndian(values[0], widths[0]), EncodeFields(values[1..], widths[1..]);
      EncodeFirst(values, widths);
      assert head + tail + rest == head + (tail + rest);
      DecodeFirst(head, tail + rest, widths);
      LittleEndianRoundTrip(values[0], widths[0]);
      FieldsRoundTrip(values[1..], widths[1..], rest);
    }
  }

  /** Each field stands at the sum of the widths before it. */
  lemma {:induction false} FieldIsAt(values: seq<nat>, widths: seq<nat>, i: nat)
    requires |values| == |widths| && i < |widths|
    ensures Size(widths[..i]) + widths[i] <= Size(widths)
    ensures EncodeFields(values, widths)[Size(widths[..i])..Size(widths[..i]) + widths[i]]
         == LittleEndian(values[i], widths[i])
  {
    hide LittleEndian;
    var head, tail := LittleEndian(values[0], widths[0]), EncodeFields(values[1..], widths[1..]);
    EncodeFirst(values, widths);
    if i > 0 {
      FieldIsAt(values[1..], widths[1..], i - 1);
      assert widths[..i][1..] == widths[1..][..i - 1];
      var at := Size(widths[1..][..i - 1]);
      assert (head + tail)[|head| + at..|head| + at + widths[i]] == tail[at..at + widths[i]];
    }
  }

  lemma {:induction false} DecodedIsAtMost(values: seq<nat>, widths: seq<nat>, rest: seq<Byte>, i: nat)
    requires |values| == |widths| && i < |widths|
    ensures DecodeFields(EncodeFields(values, widths) + rest, widths)[i] <= values[i]
  {
    hide LittleEndian, ReadLittleEndian, Size;
    var head, tail := LittleEndian(values[0], widths[0]), EncodeFields(values[1..], widths[1..]);
    var bytes := EncodeFields(values, widths) + rest;
    assert bytes[..widths[0]] == head;
    assert bytes[widths[0]..] == tail + rest;
    if i == 0 {
      TruncatedIsAtMost(values[0], widths[0]);
    } else {
      DecodedIsAtMost(values[1..], widths[1..], rest, i - 1);
    }
  }

  lemma {:induction false} DecodedFieldBounded(bytes: seq<Byte>, widths: seq<nat>, i: nat)
    requires |bytes| >= Size(widths) && i < |widths|
    ensures DecodeFields(bytes, widths)[i] < Capacity(widths[i])
  {
    if i == 0 {
      ReadBounded(bytes[..widths[0]]);
    } else {
      DecodedFieldBounded(bytes[widths[0]..], widths[1..], i - 1);
    }
  }

  lemma Capacities()
    ensures Capacity(2) == 0x1_0000 && Capacity(4) == 0x1_0000_0000
  {
    assert Capacity(1) == 256;
    assert Capacity(3) == 0x100_0000;
  }

  // The writer's layout.

  /** A checksum function; the layout and the reader do not depend on which one it is. */
  type Summer = seq<Byte> -> nat

  /** The field widths of the three records, and the checksum. */
  datatype Records = Records(sum: Summer, local: seq<nat>, central: seq<nat>, end: seq<nat>)

  ghost predicate Wide(widths: seq<nat>, wide: set<nat>) {
    forall i :: 0 <= i < |widths| ==> Capacity(widths[i]) >= if i in wide then 0x1_0000_0000 else 0x1_0000
  }

  predicate Shaped(f: Records) {
    |f.local| == 11 && |f.central| == 17 && |f.end| == 8
  }

  type Format = f: Records | Shaped(f) witness PKZIP

  /** Signatures, checksums, sizes and offsets have four bytes, everything else two. */
  ghost predicate Roomy(f: Format) {
    && (forall data :: f.sum(data) < 0x1_0000_0000)
    && Wide(f.local, {0, 6, 7, 8})
    && Wide(f.central, {0, 7, 8, 9, 15, 16})
    && Wide(f.end, {0, 5, 6})
  }

  function LocalFields(f: Format, entry: Entry): seq<nat> {
    [LOCAL_SIGNATURE, 20, 0, 0, 0, 0, f.sum(entry.data), |entry.data|, |entry.data|, |entry.name|, 0]
  }

  function CentralFields(f: Format, entry: Entry, offset: nat): seq<nat> {
    [CENTRAL_SIGNATURE, 20, 20, 0, 0, 0, 0, f.sum(entry.data), |entry.data|, |entry.data|, |entry.name|, 0, 0, 0, 0, 0,
     offset]
  }

  function EndFields(count: nat, centralSize: nat, centralOffset: nat): seq<nat> {
    [END_SIGNATURE, 0, 0, count, count, centralSize, centralOffset, 0]
  }

  function LocalRecord(f: Format, entry: Entry): seq<Byte> {
    EncodeFields(LocalFields(f, entry), f.local) + entry.name + entry.data
  }

  function CentralRecord(f: Format, entry: Entry, offset: nat): seq<Byte> {
    EncodeFields(CentralFields(f, entry, offset), f.central) + entry.name
  }

  function Locals(f: Format, entries: seq<Entry>): seq<Byte> {
    if entries == [] then [] else Locals(f, entries[..|entries| - 1]) + LocalRecord(f, entries[|entries| - 1])
  }

  function Central(f: Format, entries: seq<Entry>): seq<Byte> {
    if entries == [] then []
    else
      var init := entries[..|entries| - 1];
      Central(f, init) + CentralRecord(f, entries[|entries| - 1], |Locals(f, init)|)
  }

  function End(f: Format, entries: seq<Entry>): seq<Byte> {
    EncodeFields(EndFields(|entries|, |Central(f, entries)|, |Locals(f, entries)|), f.end)
  }

  /** The bytes of the package: every file, then the directory, then the end record. */
  function Archive(f: Format, entries: seq<Entry>): seq<Byte> {
    Locals(f, entries) + Central(f, entries) + End(f, entries)
  }

  /** The checksum the writer uses. */
  function Crc(data: seq<Byte>): nat {
    Crc32.Checksum(Bits(data)) as nat
  }

  function Bits(data: seq<Byte>): seq<Crc32.Byte> {
    seq(|data|, i requires 0 <= i < |data| => data[i] as bv8)
  }

  const PKZIP := Records(
    data => Crc(data),
    [4, 2, 2, 2, 2, 2, 4, 4, 4, 2, 2],
    [4, 2, 2, 2, 2, 2, 2, 4, 4, 4, 2, 2, 2, 2, 2, 4, 4],
    [4, 2, 2, 2, 2, 4, 4, 2])

  lemma CrcIsThirtyTwoBit(data: seq<Byte>)
    ensures Crc(data) < 0x1_0000_0000
  {
  }

  lemma PkzipIsRoomy()
    ensures Roomy(PKZIP)
  {
    hide Crc, Wide;
    forall data: seq<Byte> ensures Crc(data) < 0x1_0000_0000 {
      CrcIsThirtyTwoBit(data);
    }
    LocalWidths();
    CentralWidths();
    EndWidths();
  }

  lemma LocalWidths()
    ensures Wide(PKZIP.local, {0, 6, 7, 8})
  {
    Capacities();
  }

  lemma CentralWidths()
    ensures Wide(PKZIP.central, {0, 7, 8, 9, 15, 16})
  {
    Capacities();
  }

  lemma EndWidths()
    ensures Wide(PKZIP.end, {0, 5, 6})
  {
    Capacities();
  }

  method Checksum(data: seq<Byte>) returns (checksum: nat)
    ensures checksum == Crc(data)
  {
    var register := Crc32.Compute(Bits(data));
    checksum := register as nat;
  }

  lemma NoEntries(f: Format)
    ensures Locals(f, []) == [] && Central(f, []) == []
  {
  }

  lemma OneMoreEntry(f: Format, entries: seq<Entry>, i: nat)
    requires i < |entries|
    ensures Locals(f, entries[..i + 1]) == Locals(f, entries[..i]) + LocalRecord(f, entries[i])
    ensures Central(f, entries[..i + 1])
         == Central(f, entries[..i]) + CentralRecord(f, entries[i], |Locals(f, entries[..i])|)
  {
    hide LocalRecord, CentralRecord;
    assert entries[..i + 1][..i] == entries[..i];
  }

  /** The writer's loop over two growing buffers. */
  method WriteRecords(f: Format, entries: seq<Entry>) returns (output: seq<Byte>)
    requires forall data :: f.sum(data) == Crc(data)
    ensures output == Archive(f, entries)
  {
    hide EncodeFields, Crc, Locals, Central;
    NoEntries(f);
    output := [];
    var central := [];
    for i := 0 to |entries|
      invariant output == Locals(f, entries[..i])
      invariant central == Central(f, entries[..i])
    {
      var entry := entries[i];
      var offset := |output|;
      var checksum := Checksum(entry.data);
      var size, nameLength := |entry.data|, |entry.name|;
      output := output + EncodeFields([LOCAL_SIGNATURE, 20, 0, 0, 0, 0, checksum, size, size, nameLength, 0],
                                      f.local) + entry.name + entry.data;
      central := central + EncodeFields([CENTRAL_SIGNATURE, 20, 20, 0, 0, 0, 0, checksum, size, size,
                                         nameLength, 0, 0, 0, 0, 0, offset], f.central) + entry.name;
      OneMoreEntry(f, entries, i);
    }
    assert entries[..|entries|] == entries;
    var centralOffset, centralSize := |output|, |central|;
    output := output + central;
    output := output + EncodeFields([END_SIGNATURE, 0, 0, |entries|, |entries|, centralSize, centralOffset, 0],
                                    f.end);
  }

  method StoredZip(entries: seq<Entry>) returns (output: seq<Byte>)
    ensures output == Archive(PKZIP, entries)
  {
    output := WriteRecords(PKZIP, entries);
  }

  // A reader that starts from the end record, walks the central directory and follows each offset.

  function ReadLocal(f: Format, zip: seq<Byte>, at: nat, name: seq<Byte>, size: nat, checksum: nat): Option<Entry> {
    if at + Size(f.local) > |zip| then None
    else
      var header := DecodeFields(zip[at..], f.local);
      var nameAt := at + Size(f.local);
      var dataAt := nameAt + header[9] + header[10];
      if header[0] != LOCAL_SIGNATURE || header[3] != 0 || dataAt + size > |zip| then None
      else if zip[nameAt..nameAt + header[9]] != name || f.sum(zip[dataAt..dataAt + size]) != checksum then None
      else Some(Entry(name, zip[dataAt..dataAt + size]))
  }

  function Walk(f: Format, zip: seq<Byte>, at: nat, count: nat): Option<seq<Entry>>
    decreases count
  {
    if count == 0 then Some([])
    else if at + Size(f.central) > |zip| then None
    else
      var header := DecodeFields(zip[at..], f.central);
      var nameAt := at + Size(f.central);
      var next := nameAt + header[10] + header[11] + header[12];
      if header[0] != CENTRAL_SIGNATURE || next > |zip| then None
      else
        var name := zip[nameAt..nameAt + header[10]];
        match ReadLocal(f, zip, header[16], name, header[8], header[7])
        case None => None
        case Some(entry) =>
          match Walk(f, zip, next, count - 1)
          case None => None
          case Some(entries) => Some([entry] + entries)
  }

  function ReadArchive(f: Format, zip: seq<Byte>): Option<seq<Entry>> {
    if |zip| < Size(f.end) then None
    else
      var end := DecodeFields(zip[|zip| - Size(f.end)..], f.end);
      if end[0] != END_SIGNATURE || end[6] + end[5] + Size(f.end) != |zip| then None
      else Walk(f, zip, end[6], end[4])
  }

  /** The 16- and 32-bit limits of the format. */
  ghost predicate WithinLimits(f: Format, entries: seq<Entry>) {
    && Roomy(f)
    && |entries| < 0x1_0000
    && (forall i :: 0 <= i < |entries| ==> |entries[i].name| < 0x1_0000 && |entries[i].data| < 0x1_0000_0000)
    && |Locals(f, entries)| < 0x1_0000_0000
    && |Central(f, entries)| < 0x1_0000_0000
  }

  // Where a record sits inside the package.

  lemma {:induction false} LocalsSplit(f: Format, entries: seq<Entry>, i: nat) returns (rest: seq<Byte>)
    requires i < |entries|
    ensures Locals(f, entries) == Locals(f, entries[..i]) + LocalRecord(f, entries[i]) + rest
  {
    hide LocalRecord;
    var init := entries[..|entries| - 1];
    if i == |entries| - 1 {
      rest := [];
      assert Locals(f, entries) == Locals(f, init) + LocalRecord(f, entries[i]) + [];
    } else {
      var inner := LocalsSplit(f, init, i);
      assert init[..i] == entries[..i];
      rest := inner + LocalRecord(f, entries[|entries| - 1]);
      assert Locals(f, entries) == (Locals(f, entries[..i]) + LocalRecord(f, entries[i]) + inner)
                                + LocalRecord(f, entries[|entries| - 1]);
    }
  }

  lemma {:induction false} CentralSplit(f: Format, entries: seq<Entry>, i: nat) returns (rest: seq<Byte>)
    requires i < |entries|
    ensures Central(f, entries)
         == Central(f, entries[..i]) + CentralRecord(f, entries[i], |Locals(f, entries[..i])|) + rest
  {
    hide CentralRecord, Locals;
    var init := entries[..|entries| - 1];
    if i == |entries| - 1 {
      rest := [];
      assert Central(f, entries) == Central(f, init) + CentralRecord(f, entries[i], |Locals(f, init)|) + [];
    } else {
      var inner := CentralSplit(f, init, i);
      assert init[..i] == entries[..i];
      var last := CentralRecord(f, entries[|entries| - 1], |Locals(f, init)|);
      rest := inner + last;
      assert Central(f, entries)
          == (Central(f, entries[..i]) + CentralRecord(f, entries[i], |Locals(f, entries[..i])|) + inner)
                                 + last;
    }
  }

  lemma LocalFieldsFit(f: Format, entry: Entry)
    requires |entry.name| < 0x1_0000 && |entry.data| < 0x1_0000_0000
    requires Roomy(f)
    ensures Fits(LocalFields(f, entry), f.local)
  {
  }

  lemma CentralFieldsFit(f: Format, entry: Entry, offset: nat)
    requires |entry.name| < 0x1_0000 && |entry.data| < 0x1_0000_0000 && offset < 0x1_0000_0000
    requires Roomy(f)
    ensures Fits(CentralFields(f, entry, offset), f.central)
  {
  }

  lemma EndFieldsFit(f: Format, count: nat, size: nat, offset: nat)
    requires count < 0x1_0000 && size < 0x1_0000_0000 && offset < 0x1_0000_0000
    requires Roomy(f)
    ensures Fits(EndFields(count, size, offset), f.end)
  {
  }

  /** Following an offset to a local record yields that record's entry. */
  lemma ReadLocalRecord(f: Format, zip: seq<Byte>, before: seq<Byte>, entry: Entry, after: seq<Byte>)
    requires zip == before + LocalRecord(f, entry) + after
    requires |entry.name| < 0x1_0000 && |entry.data| < 0x1_0000_0000
    requires Roomy(f)
    ensures ReadLocal(f, zip, |before|, entry.name, |entry.data|, f.sum(entry.data)) == Some(entry)
  {
    hide EncodeFields, DecodeFields, Size;
    var header := EncodeFields(LocalFields(f, entry), f.local);
    var at := |before|;
    assert zip[at..] == header + (entry.name + entry.data + after);
    LocalFieldsFit(f, entry);
    FieldsRoundTrip(LocalFields(f, entry), f.local, entry.name + entry.data + after);
    var nameAt := at + Size(f.local);
    var dataAt := nameAt + |entry.name|;
    assert zip[nameAt..dataAt] == entry.name;
    assert zip[dataAt..dataAt + |entry.data|] == entry.data;
  }

  lemma {:induction false} WalkFrom(f: Format, entries: seq<Entry>, i: nat)
    requires WithinLimits(f, entries) && i <= |entries|
    ensures Walk(f, Archive(f, entries), |Locals(f, entries)| + |Central(f, entries[..i])|, |entries| - i)
         == Some(entries[i..])
    decreases |entries| - i
  {
    hide EncodeFields, DecodeFields, Size, ReadLocal, LocalRecord, Locals, Central, WithinLimits, Archive;
    var zip := Archive(f, entries);
    if i < |entries| {
      var entry, offset := entries[i], |Locals(f, entries[..i])|;
      var at := |Locals(f, entries)| + |Central(f, entries[..i])|;
      var localRest := LocalsSplit(f, entries, i);
      var centralRest := CentralSplit(f, entries, i);
      StepReads(f, zip, entries, i, localRest, centralRest);
      CentralGrows(f, entries, i);
      WalkFrom(f, entries, i + 1);
      assert [entry] + entries[i + 1..] == entries[i..];
    } else {
      assert entries[i..] == [];
    }
  }

  lemma CentralGrows(f: Format, entries: seq<Entry>, i: nat)
    requires i < |entries|
    ensures |Central(f, entries[..i + 1])| == |Central(f, entries[..i])| + Size(f.central) + |entries[i].name|
  {
    hide EncodeFields, Size, Locals;
    assert entries[..i + 1][..i] == entries[..i];
  }

  /** One turn of the directory walk decodes the header of entry `i` and reads that entry. */
  lemma StepReads(f: Format, zip: seq<Byte>, entries: seq<Entry>, i: nat, localRest: seq<Byte>, centralRest: seq<Byte>)
    requires WithinLimits(f, entries) && i < |entries| && zip == Archive(f, entries)
    requires Locals(f, entries) == Locals(f, entries[..i]) + LocalRecord(f, entries[i]) + localRest
    requires Central(f, entries)
             == Central(f, entries[..i]) + CentralRecord(f, entries[i], |Locals(f, entries[..i])|) + centralRest
    ensures var at := |Locals(f, entries)| + |Central(f, entries[..i])|;
            var nameAt := at + Size(f.central);
            && nameAt + |entries[i].name| <= |zip|
            && DecodeFields(zip[at..], f.central) == CentralFields(f, entries[i], |Locals(f, entries[..i])|)
            && zip[nameAt..nameAt + |entries[i].name|] == entries[i].name
            && ReadLocal(f, zip, |Locals(f, entries[..i])|, entries[i].name, |entries[i].data|, f.sum(entries[i].data))
               == Some(entries[i])
  {
    hide EncodeFields, DecodeFields, Size, ReadLocal, LocalRecord, Locals, Central, End;
    var entry, before := entries[i], Locals(f, entries[..i]);
    var header := EncodeFields(CentralFields(f, entry, |before|), f.central);
    var at := |Locals(f, entries)| + |Central(f, entries[..i])|;
    var tail := centralRest + End(f, entries);
    assert zip[at..] == header + (entry.name + tail);
    CentralFieldsFit(f, entry, |before|);
    FieldsRoundTrip(CentralFields(f, entry, |before|), f.central, entry.name + tail);
    assert zip[at..][|header|..|header| + |entry.name|] == entry.name;
    assert zip == before + LocalRecord(f, entry) + (localRest + Central(f, entries) + End(f, entries));
    ReadLocalRecord(f, zip, before, entry, localRest + Central(f, entries) + End(f, entries));
  }

  lemma CentralStartsEmpty(f: Format)
    ensures Central(f, []) == []
  {
  }

  /** Round trip for the layout: names and bytes come back exactly, in order. */
  lemma ArchiveRoundTrip(f: Format, entries: seq<Entry>)
    requires WithinLimits(f, entries)
    ensures ReadArchive(f, Archive(f, entries)) == Some(entries)
  {
    hide EncodeFields, DecodeFields, Walk, Locals, Central, Roomy;
    CentralStartsEmpty(f);
    var zip := Archive(f, entries);
    EndFieldsFit(f, |entries|, |Central(f, entries)|, |Locals(f, entries)|);
    assert zip[|zip| - Size(f.end)..] == End(f, entries) + [];
    FieldsRoundTrip(EndFields(|entries|, |Central(f, entries)|, |Locals(f, entries)|), f.end, []);
    WalkFrom(f, entries, 0);
    assert entries[..0] == [] && entries[0..] == entries;
  }

  lemma {:induction false} WalkBounds(f: Format, zip: seq<Byte>, at: nat, count: nat)
    ensures var r := Walk(f, zip, at, count);
            r.Some? ==> |r.value| == count
                        && forall i :: 0 <= i < count ==> |r.value[i].name| < Capacity(f.central[10])
                                                          && |r.value[i].data| < Capacity(f.central[8])
    decreases count
  {
    hide DecodeFields, Size;
    if Walk(f, zip, at, count).Some? && count > 0 {
      DecodedFieldBounded(zip[at..], f.central, 8);
      DecodedFieldBounded(zip[at..], f.central, 10);
      var header := DecodeFields(zip[at..], f.central);
      WalkBounds(f, zip, at + Size(f.central) + header[10] + header[11] + header[12], count - 1);
    }
  }

  /** A reader never recovers an entry list beyond the widths of the count, name-length and size fields. */
  lemma RecoveredWithinFields(f: Format, zip: seq<Byte>, entries: seq<Entry>)
    requires ReadArchive(f, zip) == Some(entries)
    ensures |entries| < Capacity(f.end[4])
    ensures forall i :: 0 <= i < |entries| ==> |entries[i].name| < Capacity(f.central[10])
                                               && |entries[i].data| < Capacity(f.central[8])
  {
    var tail := zip[|zip| - Size(f.end)..];
    DecodedFieldBounded(tail, f.end, 4);
    WalkBounds(f, zip, DecodeFields(tail, f.end)[6], DecodeFields(tail, f.end)[4]);
  }

  /**
   Offset and size of the directory are recorded in full, or the reader refuses: truncated, they no
   longer add up to the length of the package.
   */
  lemma RecoveredTotalsFit(f: Format, entries: seq<Entry>)
    requires ReadArchive(f, Archive(f, entries)).Some?
    ensures |Locals(f, entries)| < Capacity(f.end[6]) && |Central(f, entries)| < Capacity(f.end[5])
  {
    hide EncodeFields, DecodeFields, Walk, Locals, Central, Capacity, Size;
    var zip, values := Archive(f, entries), EndFields(|entries|, |Central(f, entries)|, |Locals(f, entries)|);
    assert zip[|zip| - Size(f.end)..] == End(f, entries) + [];
    DecodedIsAtMost(values, f.end, [], 5);
    DecodedIsAtMost(values, f.end, [], 6);
    DecodedFieldBounded(End(f, entries) + [], f.end, 5);
    DecodedFieldBounded(End(f, entries) + [], f.end, 6);
  }

  /** The round trip succeeds exactly within the limits of the format. */
  lemma ArchiveRoundTripIff(entries: seq<Entry>)
    ensures ReadArchive(PKZIP, Archive(PKZIP, entries)) == Some(entries) <==> WithinLimits(PKZIP, entries)
  {
    hide ReadArchive, Archive, Roomy, Locals, Central;
    PkzipIsRoomy();
    if ReadArchive(PKZIP, Archive(PKZIP, entries)) == Some(entries) {
      RecoveredWithinFields(PKZIP, Archive(PKZIP, entries), entries);
      RecoveredTotalsFit(PKZIP, entries);
      Capacities();
    }
    if WithinLimits(PKZIP, entries) {
      ArchiveRoundTrip(PKZIP, entries);
    }
  }

  /** The bytes of the files: a header, the name and the data of each. */
  function FileBytes(entries: seq<Entry>): nat {
    if entries == [] then 0
    else
      var last := entries[|entries| - 1];
      FileBytes(entries[..|entries| - 1]) + 30 + |last.name| + |last.data|
  }

  /** The bytes of the directory: a header and the name of each file. */
  function DirectoryBytes(entries: seq<Entry>): nat {
    if entries == [] then 0 else DirectoryBytes(entries[..|entries| - 1]) + 46 + |entries[|entries| - 1].name|
  }

  function SizeUpTo(widths: seq<nat>, n: nat): nat
    requires n <= |widths|
    decreases n
  {
    if n == 0 then 0 else SizeUpTo(widths, n - 1) + widths[n - 1]
  }

  lemma {:induction false} SizeFrom(widths: seq<nat>, n: nat)
    requires n <= |widths|
    ensures Size(widths) == SizeUpTo(widths, n) + Size(widths[n..])
    decreases n
  {
    if n == 0 {
      assert widths[0..] == widths;
    } else {
      SizeFrom(widths, n - 1);
      assert widths[n - 1..][1..] == widths[n..];
    }
  }

  lemma SizeIsSum(widths: seq<nat>)
    ensures Size(widths) == SizeUpTo(widths, |widths|)
  {
    SizeFrom(widths, |widths|);
  }

  lemma PkzipHeaderSizes()
    ensures Size(PKZIP.local) == 30 && Size(PKZIP.central) == 46
  {
    hide Size, Crc;
    SizeIsSum(PKZIP.local);
    SizeIsSum(PKZIP.central);
    assert SizeUpTo(PKZIP.local, 11) == 30;
    var w := PKZIP.central;
    assert SizeUpTo(w, 2) == 6 && SizeUpTo(w, 4) == 10 && SizeUpTo(w, 6) == 14 && SizeUpTo(w, 8) == 20;
    assert SizeUpTo(w, 10) == 28 && SizeUpTo(w, 12) == 32 && SizeUpTo(w, 14) == 36 && SizeUpTo(w, 16) == 42;
  }

  lemma {:induction false} BytesAreLocalsAndCentral(f: Format, entries: seq<Entry>)
    requires Size(f.local) == 30 && Size(f.central) == 46
    ensures |Locals(f, entries)| == FileBytes(entries) && |Central(f, entries)| == DirectoryBytes(entries)
  {
    hide EncodeFields, Size;
    if entries != [] {
      BytesAreLocalsAndCentral(f, entries[..|entries| - 1]);
    }
  }

  lemma {:induction false} DataIsPartOfFiles(entries: seq<Entry>, i: nat)
    requires i < |entries|
    ensures |entries[i].data| < FileBytes(entries)
  {
    if i < |entries| - 1 {
      DataIsPartOfFiles(entries[..|entries| - 1], i);
    }
  }

  /** What a caller can compute from the entries before writing them. */
  predicate Exportable(entries: seq<Entry>) {
    && |entries| < 0x1_0000
    && (forall i :: 0 <= i < |entries| ==> |entries[i].name| < 0x1_0000)
    && FileBytes(entries) < 0x1_0000_0000
    && DirectoryBytes(entries) < 0x1_0000_0000
  }

  /** What the exporter writes, a reader gets back, names and bytes in order, exactly for exportable entries. */
  lemma ExportedPackageRoundTrip(entries: seq<Entry>)
    ensures ReadArchive(PKZIP, Archive(PKZIP, entries)) == Some(entries) <==> Exportable(entries)
  {
    hide ReadArchive, Archive, Roomy, Locals, Central, FileBytes, DirectoryBytes, Size;
    PkzipIsRoomy();
    PkzipHeaderSizes();
    BytesAreLocalsAndCentral(PKZIP, entries);
    ArchiveRoundTripIff(entries);
    forall i | 0 <= i < |entries| ensures |entries[i].data| < FileBytes(entries) {
      DataIsPartOfFiles(entries, i);
    }
  }
}
