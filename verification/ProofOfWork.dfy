/** The difficulty of an event id, counted digit by digit, against the size of the number the digits spell. */
module ProofOfWork {
  import opened Options

  /** The four bits of a hexadecimal digit, of either case. */
  function Nibble(c: char): (r: Option<nat>)
    ensures r.Some? ==> r.value < 16
  {
    if '0' <= c <= '9' then Some(c as int - '0' as int)
    else if 'a' <= c <= 'f' then Some(c as int - 'a' as int + 10)
    else if 'A' <= c <= 'F' then Some(c as int - 'A' as int + 10)
    else None
  }

  predicate IsHex(id: string) {
    forall i | 0 <= i < |id| :: Nibble(id[i]).Some?
  }

  function Pow2(n: nat): (p: nat)
    ensures p >= 1
  {
    if n == 0 then 1 else 2 * Pow2(n - 1)
  }

  /** The number a hexadecimal id spells, most significant digit first. */
  function Value(id: string): nat
    requires IsHex(id)
  {
    if id == "" then 0 else Nibble(id[0]).value * Pow2(4 * (|id| - 1)) + Value(id[1..])
  }

  /** Leading zero bits of one digit that is not zero. */
  function LeadingZeros(nibble: nat): nat {
    if nibble < 2 then 3 else if nibble < 4 then 2 else if nibble < 8 then 1 else 0
  }

  /** Zero digits count four bits each; the first other digit ends the count. */
  function ZeroBits(id: string): nat {
    if id == "" || Nibble(id[0]).None? then 0
    else if Nibble(id[0]).value == 0 then 4 + ZeroBits(id[1..])
    else LeadingZeros(Nibble(id[0]).value)
  }

  /** The same character, or the two cases of one hexadecimal letter. */
  predicate SameUpToCase(a: char, b: char) {
    || a == b
    || ('a' <= a <= 'f' && b as int == a as int - 32)
    || ('a' <= b <= 'f' && a as int == b as int - 32)
  }

  /** Upper and lower case count the same, digit for digit. */
  lemma {:induction false} CaseDoesNotCount(id: string, id': string)
    requires |id| == |id'| && forall i | 0 <= i < |id| :: SameUpToCase(id[i], id'[i])
    ensures ZeroBits(id) == ZeroBits(id') && (IsHex(id) <==> IsHex(id'))
    ensures IsHex(id) ==> Value(id) == Value(id')
  {
    hide SameUpToCase;
    if id != "" {
      NibbleOfCase(id[0], id'[0]);
      CaseDoesNotCount(id[1..], id'[1..]);
      assert id == [id[0]] + id[1..] && id' == [id'[0]] + id'[1..];
    }
  }

  lemma NibbleOfCase(a: char, b: char)
    requires SameUpToCase(a, b)
    ensures Nibble(a) == Nibble(b)
  {}

  method CountLeadingZeroBits(hexID: string) returns (zeroBits: nat)
    ensures zeroBits == ZeroBits(hexID)
  {
    zeroBits := 0;
    for i := 0 to |hexID|
      invariant ZeroBits(hexID) == zeroBits + ZeroBits(hexID[i..])
    {
      var c := hexID[i];
      var nibble: nat;
      if '0' <= c <= '9' {
        nibble := c as int - '0' as int;
      } else if 'a' <= c <= 'f' {
        nibble := c as int - 'a' as int + 10;
      } else if 'A' <= c <= 'F' {
        nibble := c as int - 'A' as int + 10;
      } else {
        return;
      }
      assert hexID[i..][1..] == hexID[i + 1..];
      if nibble == 0 {
        zeroBits := zeroBits + 4;
      } else {
        if nibble < 2 {
          zeroBits := zeroBits + 3;
        } else if nibble < 4 {
          zeroBits := zeroBits + 2;
        } else if nibble < 8 {
          zeroBits := zeroBits + 1;
        }
        return;
      }
    }
  }

  // ---------- the count is a bound on the number ----------

  lemma {:induction false} Pow2Adds(m: nat, n: nat)
    ensures Pow2(m + n) == Pow2(m) * Pow2(n)
  {
    if m == 0 {
      assert Pow2(0) * Pow2(n) == Pow2(n);
    } else {
      Pow2Adds(m - 1, n);
      assert Pow2(m + n) == 2 * Pow2(m - 1 + n);
    }
  }

  lemma Pow2Grows(m: nat, n: nat)
    requires m <= n
    ensures Pow2(m) <= Pow2(n)
  {
    Pow2Adds(m, n - m);
  }

  lemma SmallPowers()
    ensures Pow2(0) == 1 && Pow2(1) == 2 && Pow2(2) == 4 && Pow2(3) == 8 && Pow2(4) == 16
  {}

  lemma {:induction false} ValueFitsItsDigits(id: string)
    requires IsHex(id)
    ensures Value(id) < Pow2(4 * |id|)
  {
    if id != "" {
      var unit := Pow2(4 * (|id| - 1));
      ValueFitsItsDigits(id[1..]);
      SmallPowers();
      Pow2Adds(4, 4 * (|id| - 1));
      AtMostFifteenUnits(Nibble(id[0]).value, unit);
    }
  }

  lemma AtMostFifteenUnits(d: nat, unit: nat)
    requires d < 16
    ensures d * unit + unit <= 16 * unit
  {}

  /** d units and a remainder are below b units exactly when d is below b. */
  lemma LeadingDigitDecides(d: nat, rest: nat, unit: nat, b: nat)
    requires rest < unit
    ensures d * unit + rest < b * unit <==> d < b
  {
    if d < b {
      assert (d + 1) * unit <= b * unit;
    } else {
      assert b * unit <= d * unit;
    }
  }

  lemma DigitBits(d: nat, k: nat)
    requires 0 < d < 16 && k <= 4
    ensures LeadingZeros(d) >= k <==> d < Pow2(4 - k)
  {
    SmallPowers();
  }

  /**
    * The count is at least k exactly when the id, read as a number, is below 2 to the power of its bits less k: the
    * validity rule of NIP-13, for ids of any length.
    */
  lemma {:induction false} DifficultyIsABound(id: string, k: nat)
    requires IsHex(id) && k <= 4 * |id|
    ensures ZeroBits(id) >= k <==> Value(id) < Pow2(4 * |id| - k)
  {
    if id == "" {
      SmallPowers();
    } else {
      var rest, d := id[1..], Nibble(id[0]).value;
      var low := 4 * |rest|;
      ValueFitsItsDigits(rest);
      if k > 4 && d == 0 {
        DifficultyIsABound(rest, k - 4);
      } else if k > 4 {
        Pow2Grows(4 * |id| - k, low);
        AtLeastOneUnit(d, Pow2(low));
      } else {
        Pow2Adds(4 - k, low);
        LeadingDigitDecides(d, Value(rest), Pow2(low), Pow2(4 - k));
        if d > 0 {
          DigitBits(d, k);
        }
      }
    }
  }

  lemma AtLeastOneUnit(d: nat, unit: nat)
    requires d >= 1
    ensures d * unit >= unit
  {}

  /** No id has more leading zero bits than bits. */
  lemma {:induction false} NeverMoreThanItsBits(id: string)
    ensures ZeroBits(id) <= 4 * |id|
  {
    if id != "" {
      NeverMoreThanItsBits(id[1..]);
    }
  }

  /** The gate: an event passes unless its difficulty is below the configured minimum. */
  predicate Passes(id: string, minDifficulty: int) {
    !(ZeroBits(id) < minDifficulty)
  }

  /** What the operator's setting means for ids, whatever integer it is. */
  lemma PassesIff(id: string, minDifficulty: int)
    requires IsHex(id)
    ensures Passes(id, minDifficulty)
            <==> minDifficulty <= 0 || (minDifficulty <= 4 * |id| && Value(id) < Pow2(4 * |id| - minDifficulty))
  {
    NeverMoreThanItsBits(id);
    if 0 <= minDifficulty <= 4 * |id| {
      DifficultyIsABound(id, minDifficulty);
    }
  }

  /** In an id that is not hexadecimal, only the digits before the first foreign character count. */
  lemma {:induction false} ForeignCharacterEndsTheCount(digits: string, rest: string)
    requires rest != "" && Nibble(rest[0]).None?
    ensures ZeroBits(digits + rest) == ZeroBits(digits)
  {
    if digits == "" {
      assert digits + rest == rest;
    } else {
      assert (digits + rest)[1..] == digits[1..] + rest;
      ForeignCharacterEndsTheCount(digits[1..], rest);
    }
  }
}
