/**
 The content cipher, seen from its callers. A cipher is a parameter; `Lawful` is what authenticated
 encryption into a one-line JSON envelope provides.
 */
module AtRest {
  import opened Bytes

  /** The outcome of opening stored bytes: authenticated, accepted as legacy plaintext, or refused. */
  datatype Opened = Opened(plaintext: Bytes, encrypted: bool) | Refused

  /** Sealing draws a random nonce, which is an argument here. */
  datatype Cipher = Cipher(seal: (nat, Bytes) -> Bytes, open: Bytes -> Opened)

  ghost predicate Lawful(c: Cipher) {
    && (forall nonce, p :: c.open(c.seal(nonce, p)) == Opened(p, true))
    && (forall nonce, p :: NEWLINE !in c.seal(nonce, p))
    && (forall nonce, p :: c.seal(nonce, p) != [] ==> c.seal(nonce, p)[|c.seal(nonce, p)| - 1] != CARRIAGE_RETURN)
    && (forall b :: c.open(b).Opened? && !c.open(b).encrypted ==> c.open(b).plaintext == b)
  }

  // The laws can be met: a cipher of hexadecimal-like digits closed by a terminator satisfies them.

  const TERMINATOR: Byte := 0x7E

  function Digits(p: Bytes): (d: Bytes)
    ensures forall i :: 0 <= i < |d| ==> 65 <= d[i] < 81
  {
    if p == [] then [] else [65 + p[0] / 16, 65 + p[0] % 16] + Digits(p[1..])
  }

  function Undigits(d: Bytes): Opened {
    if |d| == 1 && d[0] == TERMINATOR then Opened([], true)
    else if |d| >= 2 && 65 <= d[0] < 81 && 65 <= d[1] < 81 then
      match Undigits(d[2..])
      case Opened(p, e) => Opened([(d[0] - 65) * 16 + (d[1] - 65)] + p, e)
      case Refused => Refused
    else Refused
  }

  lemma OneMoreDigitPair(x: Byte, d: Bytes, p: Bytes)
    requires Undigits(d) == Opened(p, true)
    ensures Undigits([65 + x / 16, 65 + x % 16] + d) == Opened([x] + p, true)
  {
    var high, low := 65 + x / 16, 65 + x % 16;
    var e := [high, low] + d;
    assert e[0] == high && e[1] == low && e[2..] == d;
    assert (high - 65) * 16 + (low - 65) == x;
  }

  lemma {:induction false} DigitsRoundTrip(p: Bytes)
    ensures Undigits(Digits(p) + [TERMINATOR]) == Opened(p, true)
  {
    if p != [] {
      DigitsRoundTrip(p[1..]);
      OneMoreDigitPair(p[0], Digits(p[1..]) + [TERMINATOR], p[1..]);
      var rest, last := Digits(p[1..]), [TERMINATOR];
      assert Digits(p) + last == [65 + p[0] / 16, 65 + p[0] % 16] + (rest + last);
      assert p == [p[0]] + p[1..];
    } else {
      assert Digits(p) + [TERMINATOR] == [TERMINATOR];
    }
  }

  lemma {:induction false} UndigitsIsEncrypted(d: Bytes)
    ensures Undigits(d).Opened? ==> Undigits(d).encrypted
  {
    if |d| >= 2 { UndigitsIsEncrypted(d[2..]); }
  }

  lemma LawsAreConsistent()
    ensures exists c :: Lawful(c)
  {
    var seal := (nonce: nat, p: Bytes) => Digits(p) + [TERMINATOR];
    var c := Cipher(seal, Undigits);
    forall nonce, p ensures c.open(c.seal(nonce, p)) == Opened(p, true) { DigitsRoundTrip(p); }
    forall b ensures c.open(b).Opened? ==> c.open(b).encrypted { UndigitsIsEncrypted(b); }
    assert Lawful(c);
  }
}
