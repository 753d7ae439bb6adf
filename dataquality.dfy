/** Data-quality (DQ) flags. numpy holds them as signed `int16`; this module
    works on a word's sixteen bits read as an unsigned number in
    `0 .. 65535` (the same bits, so every bitwise operation agrees) and on
    its binary digits. `unset_dq_bits` clears the "acceptable" flags,
    visiting the binary digits of `okbits` one at a time. */
module DataQuality {

  /** The sixteen bits of one DQ word. */
  type Word = x: int | 0 <= x < 65536

  /** Binary digit `i` of a non-negative integer. */
  predicate IntBit(n: nat, i: nat)
  {
    if i == 0 then n % 2 == 1 else IntBit(n / 2, i - 1)
  }

  function Pow2(i: nat): (p: nat)
    ensures p >= 1
  {
    if i == 0 then 1 else 2 * Pow2(i - 1)
  }

  lemma WordPowers()
    ensures Pow2(15) == 32768 && Pow2(16) == 65536
  {
    assert Pow2(2) == 4;
    assert Pow2(4) == 16;
    assert Pow2(6) == 64;
    assert Pow2(8) == 256;
    assert Pow2(10) == 1024;
    assert Pow2(12) == 4096;
    assert Pow2(14) == 16384;
  }

  lemma {:induction false} ZeroHasNoDigits(i: nat)
    ensures !IntBit(0, i)
  {
    if i > 0 {
      ZeroHasNoDigits(i - 1);
    }
  }

  /** A number below `2**k` has no digit at `k` or above. */
  lemma {:induction false} NoDigitsAbove(x: nat, k: nat, i: nat)
    requires x < Pow2(k) && i >= k
    ensures !IntBit(x, i)
  {
    if x == 0 {
      ZeroHasNoDigits(i);
    } else {
      NoDigitsAbove(x / 2, k - 1, i - 1);
    }
  }

  /** Numbers with the same binary digits are equal. */
  lemma {:induction false} DigitsDetermine(x: nat, y: nat)
    requires forall i: nat :: IntBit(x, i) <==> IntBit(y, i)
    ensures x == y
    decreases x + y
  {
    assert IntBit(x, 0) <==> IntBit(y, 0);
    if x + y > 0 {
      forall i: nat
        ensures IntBit(x / 2, i) <==> IntBit(y / 2, i)
      {
        assert IntBit(x, i + 1) <==> IntBit(y, i + 1);
      }
      DigitsDetermine(x / 2, y / 2);
    }
  }

  /** `len(np.binary_repr(n))` for `n >= 0`: the number of binary digits,
      one for zero. */
  function BitLength(n: nat): (l: nat)
    ensures l >= 1
  {
    if n < 2 then 1 else 1 + BitLength(n / 2)
  }

  /** `binary_repr` lists every set digit: none lies at or above its length. */
  lemma {:induction false} DigitsBeyondLength(n: nat, i: nat)
    requires i >= BitLength(n)
    ensures !IntBit(n, i)
  {
    if n < 2 {
      ZeroHasNoDigits(i - 1);
    } else {
      DigitsBeyondLength(n / 2, i - 1);
    }
  }

  /** `x & ~m`, built digit by digit from the lowest. */
  function AndNot(x: nat, m: nat): (r: nat)
    ensures r <= x
  {
    if x == 0 then 0 else 2 * AndNot(x / 2, m / 2) + (if x % 2 == 1 && m % 2 == 0 then 1 else 0)
  }

  lemma {:induction false} AndNotAt(x: nat, m: nat, i: nat)
    ensures IntBit(AndNot(x, m), i) <==> IntBit(x, i) && !IntBit(m, i)
  {
    if x == 0 {
      ZeroHasNoDigits(i);
    } else if i > 0 {
      AndNotAt(x / 2, m / 2, i - 1);
    }
  }

  /** Clearing no digits leaves a number as it was. */
  lemma {:induction false} AndNotZero(x: nat)
    ensures AndNot(x, 0) == x
  {
    if x > 0 {
      AndNotZero(x / 2);
    }
  }

  /** The lowest `k` binary digits of `n`. */
  function LowDigits(n: nat, k: nat): nat
  {
    if k == 0 then 0 else 2 * LowDigits(n / 2, k - 1) + n % 2
  }

  lemma {:induction false} LowDigitsAt(n: nat, k: nat, i: nat)
    ensures IntBit(LowDigits(n, k), i) <==> i < k && IntBit(n, i)
  {
    if k == 0 {
      ZeroHasNoDigits(i);
    } else if i > 0 {
      LowDigitsAt(n / 2, k - 1, i - 1);
    }
  }

  /** `x & 2**i`: the power itself when digit `i` of `x` is one, else zero. */
  function AndPower(x: nat, i: nat): nat
  {
    if IntBit(x, i) then Pow2(i) else 0
  }

  /** Subtracting a power whose digit is set clears that digit and no other. */
  lemma {:induction false} SubtractPower(x: nat, i: nat, j: nat)
    requires IntBit(x, i)
    ensures x >= Pow2(i)
    ensures IntBit(x - Pow2(i), j) <==> IntBit(x, j) && j != i
  {
    if i == 0 {
      if j > 0 {
        assert (x - 1) / 2 == x / 2;
      }
    } else {
      SubtractPower(x / 2, i - 1, if j > 0 then j - 1 else 0);
      assert (x - Pow2(i)) / 2 == x / 2 - Pow2(i - 1);
    }
  }

  /** Adding a power whose digit is clear sets that digit and no other, and
      stays below any power of two above it. */
  lemma {:induction false} AddPower(x: nat, i: nat, j: nat, k: nat)
    requires !IntBit(x, i) && x < Pow2(k) && i < k
    ensures x + Pow2(i) < Pow2(k)
    ensures IntBit(x + Pow2(i), j) <==> IntBit(x, j) || j == i
  {
    if i == 0 {
      if j > 0 {
        assert (x + 1) / 2 == x / 2;
      }
    } else {
      AddPower(x / 2, i - 1, if j > 0 then j - 1 else 0, k - 1);
      assert (x + Pow2(i)) / 2 == x / 2 + Pow2(i - 1);
    }
  }

  /** `x | 2**i` on a DQ word (as `dq |= 4` does for `i = 2`). */
  function SetFlag(x: Word, i: nat): (r: Word)
    requires i < 16
    ensures forall j: nat :: IntBit(r, j) <==> IntBit(x, j) || j == i
  {
    if IntBit(x, i) then x
    else
      WordPowers();
      forall j: nat
        ensures x + Pow2(i) < 65536 && (IntBit(x + Pow2(i), j) <==> IntBit(x, j) || j == i)
      {
        AddPower(x, i, j, 16);
      }
      x + Pow2(i)
  }

  /** The magnitude whose digits `unset_dq_bits` reads (`binary_repr` of a
      negative number carries a minus sign, which never matches `'1'`). */
  function Magnitude(okbits: int): nat
  {
    if okbits < 0 then -okbits else okbits
  }

  /** The flags `okbits` names: the digits of `|okbits|` that fit in a DQ
      word. */
  function OkMask(okbits: int): nat
  {
    LowDigits(Magnitude(okbits), 16)
  }

  /** One DQ word after `unset_dq_bits`. */
  function Unset(x: Word, okbits: int): Word
  {
    AndNot(x, OkMask(okbits))
  }

  /** A flag survives exactly when it was set and `okbits` does not name
      it (flags are digits `0 .. 15`). */
  lemma UnsetKeepsOthers(x: Word, okbits: int, b: nat)
    requires b < 16
    ensures IntBit(Unset(x, okbits), b) <==> IntBit(x, b) && !IntBit(Magnitude(okbits), b)
  {
    AndNotAt(x, OkMask(okbits), b);
    LowDigitsAt(Magnitude(okbits), 16, b);
  }

  /** Clearing the acceptable flags twice is the same as once. */
  lemma UnsetIdempotent(x: Word, okbits: int)
    ensures Unset(Unset(x, okbits), okbits) == Unset(x, okbits)
  {
    var m := OkMask(okbits);
    forall i: nat
      ensures IntBit(Unset(Unset(x, okbits), okbits), i) <==> IntBit(Unset(x, okbits), i)
    {
      AndNotAt(Unset(x, okbits), m, i);
      AndNotAt(x, m, i);
    }
    DigitsDetermine(Unset(Unset(x, okbits), okbits), Unset(x, okbits));
  }

  /** A DQ word with the lowest `i` digits of `n` cleared. */
  function ClearedUpTo(o: Word, n: nat, i: nat): Word
  {
    AndNot(o, LowDigits(n, i))
  }

  /** One pass of the loop of `unset_dq_bits`: `dq -= (dq & 2**i)` when
      digit `i` of `n` is one, nothing otherwise, clears one more digit. */
  lemma ClearNextDigit(o: Word, n: nat, i: nat)
    ensures var w := ClearedUpTo(o, n, i);
            (if IntBit(n, i) then w - AndPower(w, i) else w) == ClearedUpTo(o, n, i + 1)
  {
    var w := ClearedUpTo(o, n, i);
    if IntBit(w, i) {
      SubtractPower(w, i, 0);
    }
    var r: nat := if IntBit(n, i) then w - AndPower(w, i) else w;
    forall j: nat
      ensures IntBit(r, j) <==> IntBit(ClearedUpTo(o, n, i + 1), j)
    {
      AndNotAt(o, LowDigits(n, i), j);
      AndNotAt(o, LowDigits(n, i + 1), j);
      LowDigitsAt(n, i, j);
      LowDigitsAt(n, i + 1, j);
      if IntBit(n, i) && IntBit(w, i) {
        SubtractPower(w, i, j);
      }
    }
    DigitsDetermine(r, ClearedUpTo(o, n, i + 1));
  }

  /** After the last digit of `n` the word is as `Unset` describes it. */
  lemma ClearedAll(o: Word, okbits: int)
    ensures ClearedUpTo(o, Magnitude(okbits), BitLength(Magnitude(okbits))) == Unset(o, okbits)
  {
    var n := Magnitude(okbits);
    var l := BitLength(n);
    WordPowers();
    forall j: nat
      ensures IntBit(ClearedUpTo(o, n, l), j) <==> IntBit(Unset(o, okbits), j)
    {
      AndNotAt(o, LowDigits(n, l), j);
      AndNotAt(o, LowDigits(n, 16), j);
      LowDigitsAt(n, l, j);
      LowDigitsAt(n, 16, j);
      if j >= l {
        DigitsBeyondLength(n, j);
      }
      if j >= 16 {
        NoDigitsAbove(o, 16, j);
      }
    }
    DigitsDetermine(ClearedUpTo(o, n, l), Unset(o, okbits));
  }

  /** `unset_dq_bits`: for every binary digit `i` of `okbits` that is one,
      `dq -= (dq & 2**i)` on every DQ word, in place. For `i >= 16` a word
      has no such digit, so nothing changes; numpy reaches the same sixteen
      bits by widening the word, subtracting a multiple of `2**16` and
      casting back. */
  method UnsetDqBits(dq: array2<Word>, okbits: int)
    modifies dq
    ensures forall i, j :: 0 <= i < dq.Length0 && 0 <= j < dq.Length1 ==> dq[i, j] == Unset(old(dq[i, j]), okbits)
  {
    var n := Magnitude(okbits);
    var digits := BitLength(n);
    var i := 0;
    forall y, x | 0 <= y < dq.Length0 && 0 <= x < dq.Length1
      ensures dq[y, x] == ClearedUpTo(dq[y, x], n, 0)
    {
      AndNotZero(dq[y, x]);
    }
    while i < digits
      invariant 0 <= i <= digits
      invariant forall y, x :: 0 <= y < dq.Length0 && 0 <= x < dq.Length1 ==>
                  dq[y, x] == ClearedUpTo(old(dq[y, x]), n, i)
    {
      forall y, x | 0 <= y < dq.Length0 && 0 <= x < dq.Length1
        ensures (if IntBit(n, i) then dq[y, x] - AndPower(dq[y, x], i) else dq[y, x]) == ClearedUpTo(old(dq[y, x]), n, i + 1)
      {
        ClearNextDigit(old(dq[y, x]), n, i);
      }
      if IntBit(n, i) {
        forall y, x | 0 <= y < dq.Length0 && 0 <= x < dq.Length1 {
          dq[y, x] := dq[y, x] - AndPower(dq[y, x], i);
        }
      }
      i := i + 1;
    }
    forall y, x | 0 <= y < dq.Length0 && 0 <= x < dq.Length1
      ensures dq[y, x] == Unset(old(dq[y, x]), okbits)
    {
      ClearedAll(old(dq[y, x]), okbits);
    }
  }

  /** Digit `k` of a number below `2**(k+1)` is set exactly when the number
      is at least `2**k`. */
  lemma {:induction false} TopDigit(x: nat, k: nat)
    requires x < Pow2(k + 1)
    ensures IntBit(x, k) <==> x >= Pow2(k)
  {
    if k > 0 {
      TopDigit(x / 2, k - 1);
    }
  }

  /** A DQ word read as numpy's signed `int16`: negative exactly when its
      top bit is set. */
  function AsInt16(x: Word): (v: int)
    ensures -32768 <= v < 32768
    ensures v < 0 <==> IntBit(x, 15)
    ensures v >= 0 ==> v == x
    ensures v < 0 ==> v + 65536 == x
  {
    WordPowers();
    TopDigit(x, 15);
    if x < 32768 then x else x - 65536
  }
}
