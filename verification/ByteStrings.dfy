/** Byte sequences and the bytes of ASCII text. */
module ByteStrings {
  import opened Decimal

  newtype byte = x: int | 0 <= x < 256

  type Bytes = seq<byte>

  predicate IsAscii(s: string) {
    forall c :: c in s ==> c < '\U{80}'
  }

  function Ascii(s: string): (b: Bytes)
    requires IsAscii(s)
    ensures |b| == |s| && forall i :: 0 <= i < |s| ==> b[i] as int == s[i] as int
  {
    seq(|s|, i requires 0 <= i < |s| => assert s[i] in s; s[i] as int as byte)
  }

  lemma NumeralAscii(n: nat)
    ensures IsAscii(Numeral(n))
  {
  }

  /** Digits folded from the left, starting from a number already read. */
  function Fold(d: string, soFar: nat): nat
    requires forall c :: c in d ==> IsDigit(c)
  {
    if d == [] then soFar else Fold(d[1..], 10 * soFar + DigitOf(d[0]))
  }

  lemma {:induction false} FoldLast(d: string, soFar: nat)
    requires d != [] && forall c :: c in d ==> IsDigit(c)
    ensures Fold(d, soFar) == 10 * Fold(d[..|d| - 1], soFar) + DigitOf(d[|d| - 1])
  {
    if |d| > 1 {
      FoldLast(d[1..], 10 * soFar + DigitOf(d[0]));
      assert d[1..][..|d| - 2] == d[..|d| - 1][1..];
    }
  }

  lemma {:induction false} FoldIsValue(d: string)
    requires forall c :: c in d ==> IsDigit(c)
    ensures Fold(d, 0) == Value(d)
  {
    if d != [] {
      FoldIsValue(d[..|d| - 1]);
      FoldLast(d, 0);
    }
  }
}
