/** The lists of acceptable 8-bit quality-flag values built in
    `quality_filtering` and `calculate_surface_reflection`: every value
    `0 <= v < 256` whose rendering `format(v, 'b').zfill(8)` passes a
    character test is appended, in ascending order. */
module QualityFlags {
  import opened BitStrings

  /** The three character tests of the quality loops. */
  datatype QfTest =
    | Qf5Good    // QF5: `bitVal[0:4] == '0000'`, good data for M7, M5, M4, M3
    | Qf2Land    // QF2: `bitVal[-3:]` is neither `'010'` nor `'011'`, not inland or sea water
    | Qf6I3Good  // QF6: `bitVal[2] == '0'`, good data for band I3

  /** Python's `s[0:n]`: the first `n` characters, or all of a shorter `s`. */
  function Head(s: string, n: nat): string
  {
    if |s| <= n then s else s[..n]
  }

  /** Python's `s[-n:]` for `n > 0`: the last `n` characters, or all of a
      shorter `s`. */
  function Tail(s: string, n: nat): string
  {
    if |s| <= n then s else s[|s| - n..]
  }

  /** Whether the loop appends the value whose flag string is `bitVal`. */
  predicate Keeps(t: QfTest, bitVal: string)
  {
    match t
    case Qf5Good => Head(bitVal, 4) == "0000"
    case Qf2Land => Tail(bitVal, 3) != "010" && Tail(bitVal, 3) != "011"
    case Qf6I3Good => |bitVal| > 2 && bitVal[2] == '0'
  }

  /** The same tests in arithmetic terms, for any integer flag value. */
  predicate Accepted(t: QfTest, v: int)
  {
    && 0 <= v < 256
    && match t
       case Qf5Good => v < 16
       case Qf2Land => v % 8 != 2 && v % 8 != 3
       case Qf6I3Good => (v / 32) % 2 == 0
  }

  /** A value below 16 is zero exactly when its four bits are clear. */
  lemma NibbleZero(h: nat)
    requires h < 16
    ensures (h % 2 == 0 && (h / 2) % 2 == 0 && (h / 2 / 2) % 2 == 0 && (h / 2 / 2 / 2) % 2 == 0)
        <==> h == 0
  {
  }

  /** Bits 7 to 4 of a byte are clear exactly for the values below 16. */
  lemma HighNibbleZero(v: nat)
    requires v < 256
    ensures (Shr(v, 7) % 2 == 0 && Shr(v, 6) % 2 == 0 && Shr(v, 5) % 2 == 0 && Shr(v, 4) % 2 == 0)
        <==> v < 16
  {
    assert Pow2(4) == 16 && Pow2(8) == 256;
    ShrBound(v, 4, 4);
    var h := Shr(v, 4);
    ShrStep(v, 4);
    ShrStep(v, 5);
    ShrStep(v, 6);
    NibbleZero(h);
  }

  lemma FourZeros(b: string)
    requires |b| == 8
    ensures Head(b, 4) == "0000" <==> b[0] == '0' && b[1] == '0' && b[2] == '0' && b[3] == '0'
  {
    assert Head(b, 4) == b[..4];
    if b[0] == '0' && b[1] == '0' && b[2] == '0' && b[3] == '0' {
      assert b[..4] == "0000";
    }
  }

  lemma BitZero(d: nat)
    requires d < 2
    ensures Bit(d) == '0' <==> d == 0
  {
  }

  /** The QF5 test keeps exactly the values below 16: the four high bits
      are clear. */
  lemma Qf5GoodMeaning(v: nat)
    requires v < 256
    ensures Keeps(Qf5Good, BitVal(v)) <==> v < 16
  {
    BitValIsByte(v);
    var b := BitVal(v);
    FourZeros(b);
    HighNibbleZero(v);
    BitZero(Shr(v, 7) % 2);
    BitZero(Shr(v, 6) % 2);
    BitZero(Shr(v, 5) % 2);
    BitZero(Shr(v, 4) % 2);
  }

  /** Adding an even number keeps the parity. */
  lemma EvenShift(k: nat, x: nat)
    ensures (2 * k + x) % 2 == x % 2
  {
  }

  /** Bits 1 and 2 of `8 * q + r` are those of `r`. */
  lemma LowBitsOfBlock(q: nat, r: nat)
    requires r < 8
    ensures ((8 * q + r) / 2) % 2 == (r / 2) % 2
    ensures ((8 * q + r) / 4) % 2 == (r / 4) % 2
  {
    assert (8 * q + r) / 2 == 2 * (2 * q) + r / 2;
    assert (8 * q + r) / 4 == 2 * q + r / 4;
    EvenShift(2 * q, r / 2);
    EvenShift(q, r / 4);
  }

  /** Bits 2 and 1 read `01` exactly for the low three bits `010` and `011`. */
  lemma WaterCodes(v: nat)
    ensures ((v / 4) % 2 == 0 && (v / 2) % 2 == 1) <==> (v % 8 == 2 || v % 8 == 3)
  {
    var q := v / 8;
    var r := v % 8;
    assert v == 8 * q + r;
    LowBitsOfBlock(q, r);
  }

  lemma LastThree(b: string, x: char, y: char, z: char)
    requires |b| == 8
    ensures Tail(b, 3) == [x, y, z] <==> b[5] == x && b[6] == y && b[7] == z
  {
    assert Tail(b, 3) == b[5..];
    if b[5] == x && b[6] == y && b[7] == z {
      assert b[5..] == [x, y, z];
    }
  }

  /** The QF2 test keeps exactly the values whose low three bits are not
      `010` (sea water) or `011` (inland water). */
  lemma Qf2LandMeaning(v: nat)
    requires v < 256
    ensures Keeps(Qf2Land, BitVal(v)) <==> v % 8 != 2 && v % 8 != 3
  {
    BitValIsByte(v);
    var b := BitVal(v);
    LastThree(b, '0', '1', '0');
    LastThree(b, '0', '1', '1');
    assert Shr(v, 2) == v / 4 && Shr(v, 1) == v / 2;
    WaterCodes(v);
    BitZero(Shr(v, 2) % 2);
    BitZero(Shr(v, 1) % 2);
    BitZero(Shr(v, 0) % 2);
  }

  /** The QF6 test keeps exactly the values whose bit 5 is clear. */
  lemma Qf6I3GoodMeaning(v: nat)
    requires v < 256
    ensures Keeps(Qf6I3Good, BitVal(v)) <==> (v / 32) % 2 == 0
  {
    BitValIsByte(v);
    assert Shr(v, 5) == v / 32;
  }

  /** Each string test agrees with its arithmetic reading on every 8-bit
      value. */
  lemma KeepsMeaning(t: QfTest, v: nat)
    requires v < 256
    ensures Keeps(t, BitVal(v)) <==> Accepted(t, v)
  {
    match t
    case Qf5Good => Qf5GoodMeaning(v);
    case Qf2Land => Qf2LandMeaning(v);
    case Qf6I3Good => Qf6I3GoodMeaning(v);
  }

  /** The width of a flag value: `bits = 8`. */
  const Bits: nat := 8

  /** `2 ** bits`: the loops scan `range(0, ValueCount())`. */
  function ValueCount(): nat
  {
    Pow2(Bits)
  }

  lemma ValueCountIs256()
    ensures ValueCount() == 256
  {
    assert Pow2(8) == 256;
  }

  /** The values `lo <= v < hi` that `keep` accepts, in ascending order. */
  function Select(keep: nat -> bool, lo: nat, hi: nat): seq<nat>
    decreases hi - lo
  {
    if lo >= hi then []
    else (if keep(lo) then [lo] else []) + Select(keep, lo + 1, hi)
  }

  /** A selection holds exactly the accepted values of its range. */
  lemma {:induction false} SelectMembers(keep: nat -> bool, lo: nat, hi: nat)
    ensures forall v :: v in Select(keep, lo, hi) <==> lo <= v < hi && keep(v)
    decreases hi - lo
  {
    if lo < hi {
      SelectMembers(keep, lo + 1, hi);
    }
  }

  /** `r` is strictly ascending. */
  predicate Ascending(r: seq<nat>)
  {
    forall i, j :: 0 <= i < j < |r| ==> r[i] < r[j]
  }

  /** Every element of a selection lies in its range. */
  lemma {:induction false} SelectBounds(keep: nat -> bool, lo: nat, hi: nat)
    ensures forall i :: 0 <= i < |Select(keep, lo, hi)| ==> lo <= Select(keep, lo, hi)[i] < hi
    decreases hi - lo
  {
    if lo < hi {
      SelectBounds(keep, lo + 1, hi);
      var r := Select(keep, lo + 1, hi);
      if keep(lo) {
        assert Select(keep, lo, hi) == [lo] + r;
      } else {
        assert Select(keep, lo, hi) == r;
      }
    }
  }

  /** A selection is strictly ascending. */
  lemma {:induction false} SelectAscending(keep: nat -> bool, lo: nat, hi: nat)
    ensures Ascending(Select(keep, lo, hi))
    decreases hi - lo
  {
    if lo < hi {
      var r := Select(keep, lo + 1, hi);
      SelectAscending(keep, lo + 1, hi);
      if keep(lo) {
        SelectBounds(keep, lo + 1, hi);
        AscendingCons(lo, r);
        assert Select(keep, lo, hi) == [lo] + r;
      } else {
        assert Select(keep, lo, hi) == r;
      }
    }
  }

  /** An ascending sequence stays ascending behind a smaller first element. */
  lemma AscendingCons(x: nat, r: seq<nat>)
    requires Ascending(r)
    requires forall i :: 0 <= i < |r| ==> x < r[i]
    ensures Ascending([x] + r)
  {
    var r' := [x] + r;
    forall i, j | 0 <= i < j < |r'|
      ensures r'[i] < r'[j]
    {
      assert r'[j] == r[j - 1];
      if i > 0 {
        assert r'[i] == r[i - 1];
      }
    }
  }

  /** A selection from a range where nothing is kept is empty. */
  lemma {:induction false} SelectNone(keep: nat -> bool, lo: nat, hi: nat)
    requires forall v :: lo <= v < hi ==> !keep(v)
    ensures Select(keep, lo, hi) == []
    decreases hi - lo
  {
    if lo < hi {
      SelectNone(keep, lo + 1, hi);
    }
  }

  /** One step of a selection: `lo` goes in front exactly when it is kept. */
  lemma SelectStep(keep: nat -> bool, lo: nat, hi: nat)
    requires lo < hi
    ensures Select(keep, lo, hi) == (if keep(lo) then [lo] else []) + Select(keep, lo + 1, hi)
  {
  }

  /** The loop shared by the three lists: for each `v` of
      `vals = list(range(0, 2 ** bits))` (so `vals[v] == v`), append `v` when
      `keep(v)` holds, in ascending order. */
  method CollectValues(keep: nat -> bool, count: nat) returns (list: seq<nat>)
    ensures list == Select(keep, 0, count)
  {
    list := [];
    var v := 0;
    while v < count
      invariant 0 <= v <= count
      invariant list + Select(keep, v, count) == Select(keep, 0, count)
    {
      ghost var rest := Select(keep, v + 1, count);
      SelectStep(keep, v, count);
      if keep(v) {
        assert (list + [v]) + rest == list + ([v] + rest);
        list := list + [v];
      } else {
        assert [] + rest == rest;
      }
      v := v + 1;
    }
    assert list + [] == list;
  }

  /** A test on bit strings as a test on values: `v` is rendered with
      `format(v, 'b').zfill(bits)` and the rendering is tested. */
  function OnBits(test: string -> bool): nat -> bool
  {
    (v: nat) => test(BitVal(v))
  }

  /** The character test of the loop for `t`. */
  function TestOf(t: QfTest): string -> bool
  {
    (bitVal: string) => Keeps(t, bitVal)
  }

  /** The list the loop for `t` builds. */
  function ValueList(t: QfTest): seq<nat>
  {
    Select(OnBits(TestOf(t)), 0, ValueCount())
  }

  /** The test for `t` on the rendering of `v` is its arithmetic reading. */
  lemma PassesMeaning(t: QfTest, v: nat)
    requires v < 256
    ensures OnBits(TestOf(t))(v) == Accepted(t, v)
  {
    KeepsMeaning(t, v);
  }

  /** Scanning `0..255`, the loop for `t` selects exactly the values the
      arithmetic reading accepts. */
  lemma SelectTestMembers(t: QfTest, hi: nat, v: int)
    requires hi == 256
    ensures v in Select(OnBits(TestOf(t)), 0, hi) <==> Accepted(t, v)
  {
    SelectMembers(OnBits(TestOf(t)), 0, hi);
    if 0 <= v < hi {
      PassesMeaning(t, v);
    }
  }

  /** The loop for `t`: holds exactly the flag values whose arithmetic
      reading `t` accepts, in ascending order. */
  method BuildValueList(t: QfTest) returns (list: seq<nat>)
    ensures list == ValueList(t)
    ensures forall v: int :: v in list <==> Accepted(t, v)
    ensures Ascending(list)
  {
    list := CollectValues(OnBits(TestOf(t)), ValueCount());
    ValueListMembers(t);
    ValueListAscending(t);
  }

  /** Each list holds exactly the flag values its arithmetic reading
      accepts. */
  lemma ValueListMembers(t: QfTest)
    ensures forall v: int :: v in ValueList(t) <==> Accepted(t, v)
  {
    var hi := ValueCount();
    ValueCountIs256();
    forall v: int
      ensures v in Select(OnBits(TestOf(t)), 0, hi) <==> Accepted(t, v)
    {
      SelectTestMembers(t, hi, v);
    }
  }

  /** One flag value is in the list for `t` exactly when `t` accepts it. */
  lemma ValueListMember(t: QfTest, v: int)
    ensures v in ValueList(t) <==> Accepted(t, v)
  {
    ValueListMembers(t);
  }

  /** Each list is strictly ascending. */
  lemma ValueListAscending(t: QfTest)
    ensures Ascending(ValueList(t))
  {
    SelectAscending(OnBits(TestOf(t)), 0, ValueCount());
  }

  /** How many of the values `lo <= v < 256` the QF2 test keeps: six in
      every full block of eight. */
  function LandFrom(lo: nat): int
  {
    var r := lo % 8;
    6 * (31 - lo / 8) + (if r <= 1 then 6 - r else if r <= 4 then 4 else 8 - r)
  }

  /** How many of the values `lo <= v < 256` the QF6 test keeps: the lower
      half of every block of 64. */
  function I3From(lo: nat): int
  {
    var r := lo % 64;
    32 * (3 - lo / 64) + (if r < 32 then 32 - r else 0)
  }

  /** How many of the values `lo <= v < 256` each test keeps, in closed form. */
  function KeptFrom(t: QfTest, lo: nat): int
  {
    match t
    case Qf5Good => if lo < 16 then 16 - lo else 0
    case Qf2Land => LandFrom(lo)
    case Qf6I3Good => I3From(lo)
  }

  lemma LandFromStep(lo: nat)
    requires lo < 256
    ensures LandFrom(lo) == (if lo % 8 != 2 && lo % 8 != 3 then 1 else 0) + LandFrom(lo + 1)
  {
    var q := lo / 8;
    var r := lo % 8;
    if r == 7 {
      assert (lo + 1) / 8 == q + 1 && (lo + 1) % 8 == 0;
    } else {
      assert (lo + 1) / 8 == q && (lo + 1) % 8 == r + 1;
    }
  }

  lemma I3FromStep(lo: nat)
    requires lo < 256
    ensures I3From(lo) == (if (lo / 32) % 2 == 0 then 1 else 0) + I3From(lo + 1)
  {
    var q := lo / 64;
    var r := lo % 64;
    assert lo == 64 * q + r;
    assert lo / 32 == 2 * q + r / 32;
    if r == 63 {
      assert (lo + 1) / 64 == q + 1 && (lo + 1) % 64 == 0;
    } else {
      assert (lo + 1) / 64 == q && (lo + 1) % 64 == r + 1;
    }
  }

  lemma KeptFromStep(t: QfTest, lo: nat)
    requires lo < 256
    ensures KeptFrom(t, lo) == (if Accepted(t, lo) then 1 else 0) + KeptFrom(t, lo + 1)
  {
    match t
    case Qf5Good =>
    case Qf2Land => LandFromStep(lo);
    case Qf6I3Good => I3FromStep(lo);
  }

  lemma {:induction false} SelectTestCount(t: QfTest, lo: nat, hi: nat)
    requires lo <= hi == 256
    ensures |Select(OnBits(TestOf(t)), lo, hi)| == KeptFrom(t, lo)
    decreases hi - lo
  {
    if lo < hi {
      SelectTestCount(t, lo + 1, hi);
      PassesMeaning(t, lo);
      KeptFromStep(t, lo);
    }
  }

  lemma ValueListSize(t: QfTest)
    ensures |ValueList(t)| == KeptFrom(t, 0)
  {
    ValueCountIs256();
    SelectTestCount(t, 0, ValueCount());
  }

  /** The loops build 16 good QF5 values, 192 land QF2 values and 128 good
      QF6 values. */
  lemma ValueListSizes()
    ensures |ValueList(Qf5Good)| == 16
    ensures |ValueList(Qf2Land)| == 192
    ensures |ValueList(Qf6I3Good)| == 128
  {
    ValueListSize(Qf5Good);
    ValueListSize(Qf2Land);
    ValueListSize(Qf6I3Good);
  }

  /** `[lo, lo + 1, ..., hi - 1]`. */
  function Range(lo: nat, hi: nat): (r: seq<nat>)
    ensures |r| == if lo <= hi then hi - lo else 0
    ensures forall i :: 0 <= i < |r| ==> r[i] == lo + i
    decreases hi - lo
  {
    if lo >= hi then [] else [lo] + Range(lo + 1, hi)
  }

  lemma {:induction false} Qf5FromRange(lo: nat, hi: nat)
    requires lo <= 16 && hi == 256
    ensures Select(OnBits(TestOf(Qf5Good)), lo, hi) == Range(lo, 16)
    decreases 16 - lo
  {
    if lo == 16 {
      forall v | lo <= v < hi
        ensures !OnBits(TestOf(Qf5Good))(v)
      {
        PassesMeaning(Qf5Good, v);
      }
      SelectNone(OnBits(TestOf(Qf5Good)), lo, hi);
    } else {
      Qf5FromRange(lo + 1, hi);
      PassesMeaning(Qf5Good, lo);
    }
  }

  /** The good QF5 list is exactly `[0, 1, ..., 15]`. */
  lemma Qf5ListIsFirstSixteen()
    ensures ValueList(Qf5Good) == Range(0, 16)
  {
    ValueCountIs256();
    Qf5FromRange(0, ValueCount());
  }
}
