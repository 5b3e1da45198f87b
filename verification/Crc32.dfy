/**
 The CRC-32 checksum of the Word export (section 4.4.7 of PKWARE APPNOTE.TXT):
 a 32-bit register, one byte folded in at a time, eight branchless bit steps per byte.
 */
module Crc32 {

  type Byte = bv8
  type Register = bv32

  const POLYNOMIAL: Register := 0xedb8_8320
  const ALL_ONES: Register := 0xffff_ffff

  const BITS_PER_BYTE: nat := 8

  /** The branchless step the writer executes. */
  function BitStep(crc: Register): Register {
    (crc >> 1) ^ (POLYNOMIAL & (0 - (crc & 1)))
  }

  /** The reference step: shift out the low bit and subtract the polynomial when it was set. */
  function PolynomialStep(crc: Register): Register {
    if crc & 1 == 1 then (crc >> 1) ^ POLYNOMIAL else crc >> 1
  }

  /** `n` reference steps. */
  function PolynomialSteps(crc: Register, n: nat): Register {
    if n == 0 then crc else PolynomialStep(PolynomialSteps(crc, n - 1))
  }

  /** One input byte enters through the low eight bits. */
  function Mix(crc: Register, byte: Byte): Register {
    crc ^ (byte as bv32)
  }

  function FoldByte(crc: Register, byte: Byte): Register {
    PolynomialSteps(Mix(crc, byte), BITS_PER_BYTE)
  }

  function FoldBytes(crc: Register, bytes: seq<Byte>): Register {
    if bytes == [] then crc
    else FoldByte(FoldBytes(crc, bytes[..|bytes| - 1]), bytes[|bytes| - 1])
  }

  /** The checksum in terms of polynomial division, with no branchless arithmetic. */
  function Checksum(bytes: seq<Byte>): Register {
    !FoldBytes(ALL_ONES, bytes)
  }

  lemma LowBitIsZeroOrOne(crc: Register)
    ensures crc & 1 == 0 || crc & 1 == 1
  {
  }

  lemma BranchlessStepIsPolynomialStep(crc: Register)
    ensures BitStep(crc) == PolynomialStep(crc)
  {
    LowBitIsZeroOrOne(crc);
    if crc & 1 == 1 {
      assert 0 - (crc & 1) == ALL_ONES;
      assert POLYNOMIAL & ALL_ONES == POLYNOMIAL;
    } else {
      assert 0 - (crc & 1) == 0;
      assert POLYNOMIAL & 0 == 0;
      assert (crc >> 1) ^ 0 == crc >> 1;
    }
  }

  lemma BitStepInjective(a: Register, b: Register)
    requires BitStep(a) == BitStep(b)
    ensures a == b
  {
  }

  /** Eight steps lose nothing: the register before them is determined by the register after. */
  lemma {:induction false} StepsInjective(a: Register, b: Register, n: nat)
    requires PolynomialSteps(a, n) == PolynomialSteps(b, n)
    ensures a == b
  {
    if n != 0 {
      var x, y := PolynomialSteps(a, n - 1), PolynomialSteps(b, n - 1);
      BranchlessStepIsPolynomialStep(x);
      BranchlessStepIsPolynomialStep(y);
      BitStepInjective(x, y);
      StepsInjective(a, b, n - 1);
    }
  }

  lemma MixByteInjective(crc: Register, x: Byte, y: Byte)
    requires Mix(crc, x) == Mix(crc, y)
    ensures x == y
  {
  }

  lemma MixRegisterInjective(a: Register, b: Register, byte: Byte)
    requires Mix(a, byte) == Mix(b, byte)
    ensures a == b
  {
  }

  lemma FoldByteInjective(crc: Register, x: Byte, y: Byte)
    requires FoldByte(crc, x) == FoldByte(crc, y)
    ensures x == y
  {
    StepsInjective(Mix(crc, x), Mix(crc, y), BITS_PER_BYTE);
    MixByteInjective(crc, x, y);
  }

  lemma FoldRegisterInjective(a: Register, b: Register, byte: Byte)
    requires FoldByte(a, byte) == FoldByte(b, byte)
    ensures a == b
  {
    StepsInjective(Mix(a, byte), Mix(b, byte), BITS_PER_BYTE);
    MixRegisterInjective(a, b, byte);
  }

  /** Once two registers differ, equal remaining input never makes them meet again. */
  lemma {:induction false} DifferenceSurvives(a: Register, b: Register, bytes: seq<Byte>)
    requires a != b
    ensures FoldBytes(a, bytes) != FoldBytes(b, bytes)
  {
    if bytes != [] {
      var init, last := bytes[..|bytes| - 1], bytes[|bytes| - 1];
      DifferenceSurvives(a, b, init);
      if FoldBytes(a, bytes) == FoldBytes(b, bytes) {
        FoldRegisterInjective(FoldBytes(a, init), FoldBytes(b, init), last);
      }
    }
  }

  lemma {:induction false} FoldBytesConcat(crc: Register, left: seq<Byte>, right: seq<Byte>)
    ensures FoldBytes(crc, left + right) == FoldBytes(FoldBytes(crc, left), right)
  {
    if right == [] {
      assert left + right == left;
    } else {
      var init := right[..|right| - 1];
      assert (left + right)[..|left + right| - 1] == left + init;
      FoldBytesConcat(crc, left, init);
    }
  }

  ghost predicate DifferExactlyAt(a: seq<Byte>, b: seq<Byte>, i: nat) {
    && |a| == |b| && i < |a|
    && a[i] != b[i]
    && forall j :: 0 <= j < |a| && j != i ==> a[j] == b[j]
  }

  /** Every change of a single byte, in inputs of any length, changes the checksum. */
  lemma OneByteChangeDetected(a: seq<Byte>, b: seq<Byte>, i: nat)
    requires DifferExactlyAt(a, b, i)
    ensures Checksum(a) != Checksum(b)
  {
    var head, tail := a[..i], a[i + 1..];
    assert a == head + ([a[i]] + tail);
    assert b == head + ([b[i]] + tail);
    var crc := FoldBytes(ALL_ONES, head);
    FoldBytesConcat(ALL_ONES, head, [a[i]] + tail);
    FoldBytesConcat(ALL_ONES, head, [b[i]] + tail);
    FoldBytesConcat(crc, [a[i]], tail);
    FoldBytesConcat(crc, [b[i]], tail);
    OneByte(crc, a[i]);
    OneByte(crc, b[i]);
    if FoldByte(crc, a[i]) == FoldByte(crc, b[i]) {
      FoldByteInjective(crc, a[i], b[i]);
    }
    DifferenceSurvives(FoldByte(crc, a[i]), FoldByte(crc, b[i]), tail);
    if Checksum(a) == Checksum(b) {
      ComplementInjective(FoldBytes(ALL_ONES, a), FoldBytes(ALL_ONES, b));
    }
  }

  lemma OneByte(crc: Register, byte: Byte)
    ensures FoldBytes(crc, [byte]) == FoldByte(crc, byte)
  {
    assert [byte][..0] == [];
  }

  lemma ComplementInjective(a: Register, b: Register)
    requires !a == !b
    ensures a == b
  {
  }

  /** The inner loop of the writer: eight branchless steps. */
  method EightSteps(start: Register) returns (crc: Register)
    ensures crc == PolynomialSteps(start, BITS_PER_BYTE)
  {
    crc := start;
    for k := 0 to BITS_PER_BYTE
      invariant crc == PolynomialSteps(start, k)
    {
      BranchlessStepIsPolynomialStep(crc);
      crc := BitStep(crc);
    }
  }

  /** The writer's loop: it uses the branchless step only. */
  method Compute(bytes: seq<Byte>) returns (sum: Register)
    ensures sum == Checksum(bytes)
  {
    var crc := ALL_ONES;
    for i := 0 to |bytes|
      invariant crc == FoldBytes(ALL_ONES, bytes[..i])
    {
      assert bytes[..i + 1][..i] == bytes[..i];
      crc := EightSteps(Mix(crc, bytes[i]));
    }
    assert bytes[..|bytes|] == bytes;
    sum := !crc;
  }

  lemma FoldNext(crc: Register, bytes: seq<Byte>, k: nat)
    requires k < |bytes|
    ensures FoldBytes(crc, bytes[..k + 1]) == FoldByte(FoldBytes(crc, bytes[..k]), bytes[k])
  {
    assert bytes[..k + 1][..k] == bytes[..k];
  }

  /** The register after each of the nine characters. */
  lemma CheckRegisters()
    ensures FoldByte(ALL_ONES, 0x31) == 0x7c23_1048
    ensures FoldByte(0x7c23_1048, 0x32) == 0xb0ac_bb32
    ensures FoldByte(0xb0ac_bb32, 0x33) == 0x77b7_9c2d
    ensures FoldByte(0x77b7_9c2d, 0x34) == 0x641c_1f5c
    ensures FoldByte(0x641c_1f5c, 0x35) == 0x340a_c5e3
    ensures FoldByte(0x340a_c5e3, 0x36) == 0xf68d_2c9e
    ensures FoldByte(0xf68d_2c9e, 0x37) == 0xaffc_9660
    ensures FoldByte(0xaffc_9660, 0x38) == 0x651f_2550
    ensures FoldByte(0x651f_2550, 0x39) == 0x340b_c6d9
  {
  }

  /** The check value of CRC-32: the checksum of the characters "123456789". */
  lemma CheckValue()
    ensures Checksum([0x31, 0x32, 0x33, 0x34, 0x35, 0x36, 0x37, 0x38, 0x39]) == 0xcbf4_3926
  {
    var digits: seq<Byte> := [0x31, 0x32, 0x33, 0x34, 0x35, 0x36, 0x37, 0x38, 0x39];
    CheckRegisters();
    hide FoldByte, FoldBytes;
    Nothing(ALL_ONES);
    assert digits[..0] == [] && digits[..9] == digits;
    forall k | 0 <= k < 9
      ensures FoldBytes(ALL_ONES, digits[..k + 1]) == FoldByte(FoldBytes(ALL_ONES, digits[..k]), digits[k])
    {
      FoldNext(ALL_ONES, digits, k);
    }
    assert FoldBytes(ALL_ONES, digits[..0 + 1]) == 0x7c23_1048;
    assert FoldBytes(ALL_ONES, digits[..1 + 1]) == 0xb0ac_bb32;
    assert FoldBytes(ALL_ONES, digits[..2 + 1]) == 0x77b7_9c2d;
    assert FoldBytes(ALL_ONES, digits[..3 + 1]) == 0x641c_1f5c;
    assert FoldBytes(ALL_ONES, digits[..4 + 1]) == 0x340a_c5e3;
    assert FoldBytes(ALL_ONES, digits[..5 + 1]) == 0xf68d_2c9e;
    assert FoldBytes(ALL_ONES, digits[..6 + 1]) == 0xaffc_9660;
    assert FoldBytes(ALL_ONES, digits[..7 + 1]) == 0x651f_2550;
    assert FoldBytes(ALL_ONES, digits[..8 + 1]) == 0x340b_c6d9;
  }

  lemma Nothing(crc: Register)
    ensures FoldBytes(crc, []) == crc
  {
  }
}
