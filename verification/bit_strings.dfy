/** Binary renderings of quality-flag values: `format(v, 'b')`, `str.zfill`,
    and the fixed-width big-endian digit strings they agree with. */
module BitStrings {

  function Pow2(n: nat): nat
    ensures Pow2(n) > 0
  {
    if n == 0 then 1 else 2 * Pow2(n - 1)
  }

  /** The character of a binary digit. */
  function Bit(d: nat): char
    requires d < 2
  {
    if d == 0 then '0' else '1'
  }

  predicate IsBinary(s: string)
  {
    forall i :: 0 <= i < |s| ==> s[i] == '0' || s[i] == '1'
  }

  /** `format(v, 'b')`: the shortest binary rendering, `"0"` for zero. */
  function Binary(v: nat): (s: string)
    ensures |s| > 0 && IsBinary(s)
    decreases v
  {
    if v < 2 then [Bit(v)] else Binary(v / 2) + [Bit(v % 2)]
  }

  /** `n` copies of `c`. */
  function Repeat(c: char, n: nat): (s: string)
    ensures |s| == n && forall i :: 0 <= i < n ==> s[i] == c
  {
    seq(n, _ => c)
  }

  /** `s.zfill(width)` for a string without a sign: pad with `'0'` on the
      left up to `width` characters. */
  function ZFill(s: string, width: nat): string
  {
    if |s| >= width then s else Repeat('0', width - |s|) + s
  }

  /** The `n` low binary digits of `v`, most significant first. */
  function FixedBinary(v: nat, n: nat): (s: string)
    ensures |s| == n && IsBinary(s)
    decreases n
  {
    if n == 0 then [] else FixedBinary(v / 2, n - 1) + [Bit(v % 2)]
  }

  /** The big-endian value of a binary string. */
  function BinValue(s: string): nat
    requires IsBinary(s)
    decreases |s|
  {
    if s == [] then 0 else 2 * BinValue(s[..|s| - 1]) + (if s[|s| - 1] == '1' then 1 else 0)
  }

  /** The 8-character flag string the quality loops test:
      `format(v, 'b').zfill(8)`. */
  function BitVal(v: nat): string
  {
    ZFill(Binary(v), 8)
  }

  lemma {:induction false} BinaryLength(v: nat, n: nat)
    requires n > 0 && v < Pow2(n)
    ensures |Binary(v)| <= n
    decreases v
  {
    if v >= 2 {
      assert n > 1;
      BinaryLength(v / 2, n - 1);
    }
  }

  lemma {:induction false} FixedBinaryOfZero(n: nat)
    ensures FixedBinary(0, n) == Repeat('0', n)
    decreases n
  {
    if n > 0 {
      FixedBinaryOfZero(n - 1);
    }
  }

  /** Padding the shortest rendering to `n` digits gives the fixed-width
      rendering, for every `v` that fits in `n` digits. */
  lemma {:induction false} ZFillBinary(v: nat, n: nat)
    requires n > 0 && v < Pow2(n)
    ensures ZFill(Binary(v), n) == FixedBinary(v, n)
    decreases v
  {
    if v < 2 {
      FixedBinaryOfZero(n - 1);
      assert v / 2 == 0;
    } else {
      assert n > 1;
      BinaryLength(v / 2, n - 1);
      ZFillBinary(v / 2, n - 1);
      var b := Binary(v / 2);
      assert Repeat('0', n - |b| - 1) + (b + [Bit(v % 2)])
          == (Repeat('0', n - 1 - |b|) + b) + [Bit(v % 2)];
    }
  }

  /** `v` shifted right by `k` bits, one halving at a time. */
  function Shr(v: nat, k: nat): nat
    decreases k
  {
    if k == 0 then v else Shr(v / 2, k - 1)
  }

  /** Shifting one bit further halves the shifted value. */
  lemma {:induction false} ShrStep(v: nat, k: nat)
    ensures Shr(v, k + 1) == Shr(v, k) / 2
    decreases k
  {
    if k > 0 {
      ShrStep(v / 2, k - 1);
    }
  }

  /** When `v` fits in `n` bits (nothing is left after shifting `n` bits
      out), the fixed-width rendering reads back as `v`. */
  lemma {:induction false} FixedBinaryValue(v: nat, n: nat)
    requires Shr(v, n) == 0
    ensures BinValue(FixedBinary(v, n)) == v
    decreases n
  {
    if n > 0 {
      FixedBinaryValue(v / 2, n - 1);
      var s := FixedBinary(v, n);
      assert s[..n - 1] == FixedBinary(v / 2, n - 1);
      assert s[n - 1] == Bit(v % 2);
    }
  }

  /** Digit `i` of the fixed-width rendering is bit `n - 1 - i` of `v`. */
  lemma {:induction false} FixedBinaryDigit(v: nat, n: nat, i: nat)
    requires i < n
    ensures FixedBinary(v, n)[i] == Bit(Shr(v, n - 1 - i) % 2)
    decreases n
  {
    if i < n - 1 {
      FixedBinaryDigit(v / 2, n - 1, i);
    }
  }

  /** A value that fits in `n` bits is gone after shifting `n` bits out. */
  lemma {:induction false} ShrFits(v: nat, n: nat)
    requires v < Pow2(n)
    ensures Shr(v, n) == 0
    decreases n
  {
    if n > 0 {
      ShrFits(v / 2, n - 1);
    }
  }

  /** Shifting `k` bits out of a value below `2 ** (n + k)` leaves a value
      below `2 ** n`; nothing is left exactly when `v < 2 ** k`. */
  lemma {:induction false} ShrBound(v: nat, n: nat, k: nat)
    requires v < Pow2(n + k)
    ensures Shr(v, k) < Pow2(n)
    ensures Shr(v, k) == 0 <==> v < Pow2(k)
    decreases k
  {
    if k > 0 {
      assert Pow2(n + k) == 2 * Pow2(n + k - 1);
      ShrBound(v / 2, n, k - 1);
    }
  }

  /** `format(v, 'b').zfill(n)` reads back as `v` and spells its bits, for
      every `v` that fits in `n` bits. */
  lemma PaddedBinary(v: nat, n: nat)
    requires n > 0 && v < Pow2(n)
    ensures |ZFill(Binary(v), n)| == n && IsBinary(ZFill(Binary(v), n))
    ensures BinValue(ZFill(Binary(v), n)) == v
    ensures forall i :: 0 <= i < n ==> ZFill(Binary(v), n)[i] == Bit(Shr(v, n - 1 - i) % 2)
  {
    ZFillBinary(v, n);
    ShrFits(v, n);
    FixedBinaryValue(v, n);
    forall i | 0 <= i < n
      ensures FixedBinary(v, n)[i] == Bit(Shr(v, n - 1 - i) % 2)
    {
      FixedBinaryDigit(v, n, i);
    }
  }

  /** For `0 <= v < 256`, `format(v, 'b').zfill(8)` is an 8-character binary
      string whose big-endian value is `v`; digit `i` is bit `7 - i`. */
  lemma BitValIsByte(v: nat)
    requires v < 256
    ensures |BitVal(v)| == 8 && IsBinary(BitVal(v))
    ensures BinValue(BitVal(v)) == v
    ensures forall i :: 0 <= i < 8 ==> BitVal(v)[i] == Bit(Shr(v, 7 - i) % 2)
  {
    assert Pow2(8) == 256;
    PaddedBinary(v, 8);
  }
}
