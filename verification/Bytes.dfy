/** Bytes, and numbers written as bytes. */
module Bytes {
  type Byte = b: int | 0 <= b < 256

  // ----- unsigned varints: seven bits a byte, the lowest first

  /** binary.AppendUvarint's bytes. */
  function Uvarint(n: nat): seq<Byte> {
    if n < 128 then [n] else [n % 128 + 128] + Uvarint(n / 128)
  }

  /** binary.Uvarint: the number b begins with and how many bytes it takes; none
      when b ends within it. */
  function ReadUvarint(b: seq<Byte>): (r: (nat, nat))
    ensures r.1 <= |b|
  {
    if b == [] then (0, 0)
    else if b[0] < 128 then (b[0], 1)
    else
      var rest := ReadUvarint(b[1..]);
      if rest.1 == 0 then (0, 0) else (b[0] - 128 + 128 * rest.0, 1 + rest.1)
  }

  lemma {:induction false} UvarintReads(n: nat, rest: seq<Byte>)
    ensures ReadUvarint(Uvarint(n) + rest) == (n, |Uvarint(n)|)
    ensures |Uvarint(n)| > 0
  {
    if n >= 128 {
      UvarintReads(n / 128, rest);
      assert (Uvarint(n) + rest)[1..] == Uvarint(n / 128) + rest;
    }
  }

  /** Bytes that begin with a number: the number, and what is after it. */
  lemma {:induction false} BeginsWithUvarint(b: seq<Byte>, n: nat, rest: seq<Byte>)
    requires b == Uvarint(n) + rest
    ensures b != [] && ReadUvarint(b).0 == n && b[ReadUvarint(b).1..] == rest
  {
    UvarintReads(n, rest);
  }

  // ----- words, the lowest byte first

  function Pow256(k: nat): (p: nat)
    ensures p > 0
  {
    if k == 0 then 1 else 256 * Pow256(k - 1)
  }

  function LittleEndian(n: nat, k: nat): (b: seq<Byte>)
    ensures |b| == k
  {
    if k == 0 then [] else [n % 256] + LittleEndian(n / 256, k - 1)
  }

  function FromLittleEndian(b: seq<Byte>): nat {
    if b == [] then 0 else b[0] + 256 * FromLittleEndian(b[1..])
  }

  lemma {:induction false} LittleEndianReads(n: nat, k: nat)
    requires n < Pow256(k)
    ensures FromLittleEndian(LittleEndian(n, k)) == n
  {
    if k > 0 {
      LittleEndianReads(n / 256, k - 1);
      assert LittleEndian(n, k)[1..] == LittleEndian(n / 256, k - 1);
    }
  }

  lemma {:induction false} BeginsWithWord(b: seq<Byte>, w: nat, k: nat, rest: seq<Byte>)
    requires w < Pow256(k) && b == LittleEndian(w, k) + rest
    ensures k <= |b| && FromLittleEndian(b[..k]) == w && b[k..] == rest
  {
    assert b[..k] == LittleEndian(w, k);
    LittleEndianReads(w, k);
  }

  // ----- signed numbers as words

  /** The k-byte word of a signed number, in two's complement. */
  function Word(n: int, k: nat): nat {
    n % Pow256(k)
  }

  function Signed(w: nat, k: nat): int {
    if 2 * w < Pow256(k) then w else w - Pow256(k)
  }

  predicate Fits(n: int, k: nat) {
    -(Pow256(k) as int) <= 2 * n < Pow256(k)
  }

  lemma {:induction false} SignedReads(n: int, k: nat)
    requires Fits(n, k)
    ensures Word(n, k) < Pow256(k) && Signed(Word(n, k), k) == n
  {
    var p := Pow256(k);
    if n >= 0 { Remainder(n, p, 0, n); } else { Remainder(n, p, -1, n + p); }
  }

  lemma {:induction false} Remainder(n: int, p: nat, q: int, r: nat)
    requires n == q * p + r && r < p
    ensures n % p == r
  {
    var d := n / p - q;
    assert d * p == r - n % p;
    assert d >= 1 ==> d * p >= p;
    assert d <= -1 ==> d * p <= -1 * p;
  }

  lemma {:induction false} DropTwice(b: seq<Byte>, i: nat, k: nat)
    requires i + k <= |b|
    ensures b[i..][k..] == b[i + k..]
  {
  }
}
