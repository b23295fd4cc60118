/** The pubkeys a signature check lets through, and that there are more of them than any list names. */
module Keys {
  import opened Options
  import opened ProofOfWork

  type Pubkey = string

  const KEY_LENGTH: nat := 64

  predicate HexDigit(c: char) {
    '0' <= c <= '9' || 'a' <= c <= 'f'
  }

  predicate AllHex(s: string) {
    forall i | 0 <= i < |s| :: HexDigit(s[i])
  }

  /** 64 lower-case hexadecimal digits. */
  predicate IsPubkey(p: Pubkey) {
    |p| == KEY_LENGTH && AllHex(p)
  }

  function HexChar(d: nat): (c: char)
    requires d < 16
    ensures HexDigit(c) && Nibble(c) == Some(d)
  {
    if d < 10 then '0' + d as char else 'a' + (d - 10) as char
  }

  /** i in n hexadecimal digits. */
  function Hex(i: nat, n: nat): (s: string)
    requires i < Pow2(4 * n)
    ensures |s| == n && AllHex(s)
    decreases n
  {
    if n == 0 then ""
    else
      var unit := Pow2(4 * (n - 1));
      LeadingDigit(i, n);
      [HexChar(i / unit)] + Hex(i % unit, n - 1)
  }

  lemma LeadingDigit(i: nat, n: nat)
    requires n > 0 && i < Pow2(4 * n)
    ensures var unit := Pow2(4 * (n - 1));
            i / unit < 16 && i % unit < unit && (i / unit) * unit + i % unit == i
  {
    hide Pow2;
    SmallPowers();
    Pow2Adds(4, 4 * (n - 1));
    assert 4 + 4 * (n - 1) == 4 * n;
    DivideBySixteenth(i, Pow2(4 * (n - 1)));
  }

  lemma DivideBySixteenth(i: nat, unit: nat)
    requires unit > 0 && i < 16 * unit
    ensures i / unit < 16 && i % unit < unit && (i / unit) * unit + i % unit == i
  {
    assert i == (i / unit) * unit + i % unit;
  }

  /** Writing a number and reading it back gives the number. */
  lemma {:induction false} HexRoundTrip(i: nat, n: nat)
    requires i < Pow2(4 * n)
    ensures IsHex(Hex(i, n)) && Value(Hex(i, n)) == i
    decreases n
  {
    if n > 0 {
      var unit := Pow2(4 * (n - 1));
      LeadingDigit(i, n);
      HexRoundTrip(i % unit, n - 1);
      assert Hex(i, n)[1..] == Hex(i % unit, n - 1);
    }
  }

  function KeyOf(i: nat): Pubkey
    requires i < Pow2(4 * KEY_LENGTH)
  {
    Hex(i, KEY_LENGTH)
  }

  lemma KeysDiffer(i: nat, j: nat)
    requires i < Pow2(4 * KEY_LENGTH) && j < Pow2(4 * KEY_LENGTH) && i != j
    ensures KeyOf(i) != KeyOf(j)
  {
    hide Pow2, Hex, Value;
    HexRoundTrip(i, KEY_LENGTH);
    HexRoundTrip(j, KEY_LENGTH);
  }

  /** Some key is not in the set, as long as the set is smaller than the number of keys. */
  lemma {:induction false} KeyOutside(avoid: set<string>) returns (i: nat)
    requires |avoid| < Pow2(4 * KEY_LENGTH)
    ensures i <= |avoid| && KeyOf(i) !in avoid
    decreases |avoid|
  {
    hide Pow2, Hex;
    i := |avoid|;
    if KeyOf(i) in avoid {
      var j := KeyOutside(avoid - {KeyOf(i)});
      KeysDiffer(i, j);
      i := j;
    }
  }

  lemma FreshKey(avoid: set<string>) returns (key: Pubkey)
    requires |avoid| < Pow2(4 * KEY_LENGTH)
    ensures IsPubkey(key) && key !in avoid
  {
    hide Pow2, Hex;
    var i := KeyOutside(avoid);
    key := KeyOf(i);
  }

  /** A key with these leading digits. */
  function Padded(digits: string): (key: Pubkey)
    requires |digits| <= KEY_LENGTH && AllHex(digits)
    ensures IsPubkey(key) && digits <= key
  {
    digits + seq(KEY_LENGTH - |digits|, _ => '0')
  }
}
