// Arbitrary-size bit masks, as math/big.Int provides them to the session and
// setup code.  An integer is read as an infinite two's-complement bit string,
// so Dafny's Euclidean `/ 2` and `% 2` are the shift and the low bit also for
// negative values.
module Bits {

  import opened Limits

  // Two's-complement wrap-around of an int64 result.
  function Int64(x: int): (r: int)
    ensures -0x8000_0000_0000_0000 <= r < 0x8000_0000_0000_0000
  {
    (x + 0x8000_0000_0000_0000) % TWO_64 - 0x8000_0000_0000_0000
  }

  lemma Int64InRange(x: int)
    requires -0x8000_0000_0000_0000 <= x < 0x8000_0000_0000_0000
    ensures Int64(x) == x
  {
  }

  // 2 to the power k.
  function Pow2(k: nat): (r: nat)
    ensures r > k
  {
    if k == 0 then 1 else 2 * Pow2(k - 1)
  }

  // big.Int.Bit
  function Bit(x: int, i: nat): nat
    decreases i
  {
    if i == 0 then x % 2 else Bit(x / 2, i - 1)
  }

  // big.Int.SetBit, with b the new value of bit i.
  function SetBit(x: int, i: nat, b: nat): int
    requires b <= 1
    decreases i
  {
    if i == 0 then x - x % 2 + b else 2 * SetBit(x / 2, i - 1, b) + x % 2
  }

  // The number of set bits of a non-negative mask.
  function BitCount(x: nat): nat
  {
    if x == 0 then 0 else x % 2 + BitCount(x / 2)
  }

  // The positions of the set bits.
  ghost function Ones(x: nat): set<nat>
  {
    set i: nat | i < x && Bit(x, i) == 1
  }

  // Sum of g over the set bits, counting positions from `off`.
  function SumOnes(g: nat -> int, x: nat, off: nat): int
  {
    if x == 0 then 0
    else (if x % 2 == 1 then g(off) else 0) + SumOnes(g, x / 2, off + 1)
  }

  lemma {:induction false} BitIsBinary(x: int, i: nat)
    ensures 0 <= Bit(x, i) <= 1
    decreases i
  {
    if i > 0 { BitIsBinary(x / 2, i - 1); }
  }

  lemma {:induction false} BitOfZero(i: nat)
    ensures Bit(0, i) == 0
  {
    if i > 0 { BitOfZero(i - 1); }
  }

  // A set bit bounds the mask from below, so Ones misses none.
  lemma {:induction false} SetBitBelow(x: nat, i: nat)
    requires Bit(x, i) == 1
    ensures Pow2(i) <= x
  {
    if i > 0 { SetBitBelow(x / 2, i - 1); }
  }

  lemma OnesComplete(x: nat, i: nat)
    ensures i in Ones(x) <==> Bit(x, i) == 1
  {
    if Bit(x, i) == 1 { SetBitBelow(x, i); }
  }

  // SetBit writes bit i and no other, for masks of either sign.
  lemma {:induction false} SetBitWrites(x: int, i: nat, b: nat, j: nat)
    requires b <= 1
    ensures Bit(SetBit(x, i, b), j) == if j == i then b else Bit(x, j)
    decreases i
  {
    if i > 0 && j > 0 { SetBitWrites(x / 2, i - 1, b, j - 1); }
  }

  lemma {:induction false} SetBitSign(x: int, i: nat, b: nat)
    requires b <= 1
    ensures SetBit(x, i, b) >= 0 <==> x >= 0
    ensures b == 0 ==> SetBit(x, i, b) <= x
    decreases i
  {
    if i > 0 { SetBitSign(x / 2, i - 1, b); }
  }

  // Two non-negative masks with the same bits are the same number.
  lemma {:induction false} BitsDetermine(x: nat, y: nat)
    requires forall i: nat :: Bit(x, i) == Bit(y, i)
    ensures x == y
    decreases x + y
  {
    assert Bit(x, 0) == Bit(y, 0);
    if x + y > 0 {
      forall i: nat
        ensures Bit(x / 2, i) == Bit(y / 2, i)
      {
        assert Bit(x, i + 1) == Bit(y, i + 1);
      }
      BitsDetermine(x / 2, y / 2);
    }
  }

  lemma SetBitParts(x: int, i: nat, b: nat)
    requires b <= 1 && i > 0
    ensures SetBit(x, i, b) / 2 == SetBit(x / 2, i - 1, b) && SetBit(x, i, b) % 2 == x % 2
  {
  }

  lemma {:induction false} SetFreshCount(x: nat, i: nat)
    requires Bit(x, i) == 0
    ensures SetBit(x, i, 1) > 0 && BitCount(SetBit(x, i, 1)) == BitCount(x) + 1
    decreases i
  {
    if i > 0 {
      SetFreshCount(x / 2, i - 1);
      SetBitParts(x, i, 1);
    }
  }

  lemma {:induction false} SetFreshSum(g: nat -> int, x: nat, i: nat, off: nat)
    requires Bit(x, i) == 0 && SetBit(x, i, 1) > 0
    ensures SumOnes(g, SetBit(x, i, 1), off) == SumOnes(g, x, off) + g(off + i)
    decreases i
  {
    if i > 0 {
      SetFreshCount(x / 2, i - 1);
      SetFreshSum(g, x / 2, i - 1, off + 1);
      SetBitParts(x, i, 1);
      assert off + 1 + (i - 1) == off + i;
    }
  }

  // Setting a clear bit adds one to the count and its value to every sum.
  lemma SetFreshBit(g: nat -> int, x: nat, i: nat, off: nat)
    requires Bit(x, i) == 0
    ensures SetBit(x, i, 1) > 0
    ensures BitCount(SetBit(x, i, 1)) == BitCount(x) + 1
    ensures SumOnes(g, SetBit(x, i, 1), off) == SumOnes(g, x, off) + g(off + i)
  {
    SetFreshCount(x, i);
    SetFreshSum(g, x, i, off);
  }

  ghost function Shifted(s: set<nat>): set<nat>
  {
    set i | i in s :: i + 1
  }

  lemma {:induction false} ShiftedSize(s: set<nat>)
    ensures |Shifted(s)| == |s|
  {
    if s != {} {
      var e :| e in s;
      ShiftedSize(s - {e});
      forall j
        ensures j in Shifted(s) <==> j in Shifted(s - {e}) + {e + 1}
      {
        if j in Shifted(s) {
          var i :| i in s && i + 1 == j;
          assert i == e || i in s - {e};
        }
      }
      assert Shifted(s) == Shifted(s - {e}) + {e + 1};
    }
  }

  // The count is the cardinality of the set of positions.
  lemma {:induction false} CountIsCardinality(x: nat)
    ensures BitCount(x) == |Ones(x)|
  {
    if x == 0 {
      assert Ones(x) == {};
    } else {
      CountIsCardinality(x / 2);
      ShiftedSize(Ones(x / 2));
      var low: set<nat> := if x % 2 == 1 then {0} else {};
      forall i: nat
        ensures i in Ones(x) <==> i in low + Shifted(Ones(x / 2))
      {
        OnesComplete(x, i);
        if i > 0 {
          OnesComplete(x / 2, i - 1);
          assert i - 1 in Ones(x / 2) <==> i in Shifted(Ones(x / 2));
        }
      }
      assert Ones(x) == low + Shifted(Ones(x / 2));
    }
  }

  // ---- Popcount (consensus/session/tlc.go) ----

  // Bitwise and of two unsigned words.
  function And(x: nat, y: nat): (r: nat)
    ensures r <= x
  {
    if x == 0 then 0 else (if x % 2 == 1 && y % 2 == 1 then 1 else 0) + 2 * And(x / 2, y / 2)
  }

  // big.Int.Bits: the little-endian 64-bit words of the magnitude, no leading zero word.
  function Words(z: nat): seq<nat>
  {
    if z == 0 then [] else [z % TWO_64] + Words(z / TWO_64)
  }

  function WordsCount(ws: seq<nat>): nat
  {
    if ws == [] then 0 else BitCount(ws[0]) + WordsCount(ws[1..])
  }

  lemma {:induction false} AndSelf(x: nat)
    ensures And(x, x) == x
  {
    if x > 0 { AndSelf(x / 2); }
  }

  // `x & (x - 1)` clears exactly one bit, so the inner loop counts the bits.
  lemma {:induction false} ClearLowest(x: nat)
    requires x > 0
    ensures And(x, x - 1) < x
    ensures BitCount(And(x, x - 1)) == BitCount(x) - 1
  {
    if x % 2 == 1 {
      assert (x - 1) / 2 == x / 2;
      AndSelf(x / 2);
    } else {
      assert (x - 1) / 2 == x / 2 - 1;
      ClearLowest(x / 2);
    }
  }

  lemma {:induction false} CountSplits(lo: nat, hi: nat, k: nat)
    requires lo < Pow2(k)
    ensures BitCount(lo + Pow2(k) * hi) == BitCount(lo) + BitCount(hi)
    decreases k
  {
    if k == 0 {
    } else {
      var q := Pow2(k - 1) * hi;
      assert Pow2(k) * hi == 2 * q;
      assert (lo + 2 * q) / 2 == lo / 2 + q && (lo + 2 * q) % 2 == lo % 2;
      CountSplits(lo / 2, hi, k - 1);
    }
  }

  lemma Pow2Byte(k: nat)
    ensures Pow2(k + 8) == 256 * Pow2(k)
  {
    assert Pow2(k + 2) == 2 * Pow2(k + 1) == 4 * Pow2(k);
    assert Pow2(k + 4) == 2 * Pow2(k + 3) == 4 * Pow2(k + 2);
    assert Pow2(k + 6) == 2 * Pow2(k + 5) == 4 * Pow2(k + 4);
    assert Pow2(k + 8) == 2 * Pow2(k + 7) == 4 * Pow2(k + 6);
  }

  lemma Pow2Of64()
    ensures Pow2(63) == 0x8000_0000_0000_0000
    ensures Pow2(64) == TWO_64
  {
    Pow2Byte(0);
    Pow2Byte(8);
    Pow2Byte(16);
    Pow2Byte(24);
    Pow2Byte(32);
    Pow2Byte(40);
    Pow2Byte(48);
    Pow2Byte(56);
    assert Pow2(64) == 2 * Pow2(63);
  }

  lemma {:induction false} WordsHoldCount(z: nat)
    ensures WordsCount(Words(z)) == BitCount(z)
  {
    if z > 0 {
      WordsHoldCount(z / TWO_64);
      Pow2Of64();
      CountSplits(z % TWO_64, z / TWO_64, 64);
      assert z == z % TWO_64 + TWO_64 * (z / TWO_64);
    }
  }

  // The population count of the source: the loop over words and `x &= x - 1`.
  method Popcount(z: nat) returns (count: nat)
    ensures count == |Ones(z)|
    ensures count == BitCount(z)
  {
    count := 0;
    var ws := Words(z);
    for k := 0 to |ws|
      invariant count + WordsCount(ws[k..]) == WordsCount(ws)
    {
      var x := ws[k];
      assert ws[k..][1..] == ws[k + 1..];
      while x != 0
        invariant count + BitCount(x) + WordsCount(ws[k + 1..]) == WordsCount(ws)
        decreases x
      {
        ClearLowest(x);
        x := And(x, x - 1);
        count := count + 1;
      }
    }
    WordsHoldCount(z);
    CountIsCardinality(z);
  }
}
