/** kroundup32, the bit-smearing of khash.h, on 32-bit words: it computes the rounding that
    kh_resize is modelled with. */
module KhashRound {
  import opened Powers
  import opened Khash

  const POWERS: seq<nat> := [
    0x1, 0x2, 0x4, 0x8, 0x10, 0x20, 0x40, 0x80, 0x100, 0x200, 0x400, 0x800, 0x1000, 0x2000, 0x4000, 0x8000,
    0x1_0000, 0x2_0000, 0x4_0000, 0x8_0000, 0x10_0000, 0x20_0000, 0x40_0000, 0x80_0000,
    0x100_0000, 0x200_0000, 0x400_0000, 0x800_0000, 0x1000_0000, 0x2000_0000, 0x4000_0000, 0x8000_0000]

  /** The word p is the least power of two that is not below x. */
  predicate Bracket(x: bv32, p: bv32, k: nat) {
    && p & (p - 1) == 0 && p / 2 < x <= p
    && k < 32 && p as nat == POWERS[k] && 0 < x as nat <= POWERS[k] && (k > 0 ==> POWERS[k - 1] < x as nat)
  }

  lemma Between0And3(x: bv32) returns (p: bv32, k: nat)
    requires 0x0 < x <= 0x8
    ensures Bracket(x, p, k)
  {
    if x <= 0x1 { p, k := 0x1, 0; }
    else if x <= 0x2 { p, k := 0x2, 1; }
    else if x <= 0x4 { p, k := 0x4, 2; }
    else { p, k := 0x8, 3; }
  }

  lemma Between4And7(x: bv32) returns (p: bv32, k: nat)
    requires 0x8 < x <= 0x80
    ensures Bracket(x, p, k)
  {
    if x <= 0x10 { p, k := 0x10, 4; }
    else if x <= 0x20 { p, k := 0x20, 5; }
    else if x <= 0x40 { p, k := 0x40, 6; }
    else { p, k := 0x80, 7; }
  }

  lemma Between8And11(x: bv32) returns (p: bv32, k: nat)
    requires 0x80 < x <= 0x800
    ensures Bracket(x, p, k)
  {
    if x <= 0x100 { p, k := 0x100, 8; }
    else if x <= 0x200 { p, k := 0x200, 9; }
    else if x <= 0x400 { p, k := 0x400, 10; }
    else { p, k := 0x800, 11; }
  }

  lemma Between12And15(x: bv32) returns (p: bv32, k: nat)
    requires 0x800 < x <= 0x8000
    ensures Bracket(x, p, k)
  {
    if x <= 0x1000 { p, k := 0x1000, 12; }
    else if x <= 0x2000 { p, k := 0x2000, 13; }
    else if x <= 0x4000 { p, k := 0x4000, 14; }
    else { p, k := 0x8000, 15; }
  }

  lemma Between16And19(x: bv32) returns (p: bv32, k: nat)
    requires 0x8000 < x <= 0x8_0000
    ensures Bracket(x, p, k)
  {
    if x <= 0x1_0000 { p, k := 0x1_0000, 16; }
    else if x <= 0x2_0000 { p, k := 0x2_0000, 17; }
    else if x <= 0x4_0000 { p, k := 0x4_0000, 18; }
    else { p, k := 0x8_0000, 19; }
  }

  lemma Between20And23(x: bv32) returns (p: bv32, k: nat)
    requires 0x8_0000 < x <= 0x80_0000
    ensures Bracket(x, p, k)
  {
    if x <= 0x10_0000 { p, k := 0x10_0000, 20; }
    else if x <= 0x20_0000 { p, k := 0x20_0000, 21; }
    else if x <= 0x40_0000 { p, k := 0x40_0000, 22; }
    else { p, k := 0x80_0000, 23; }
  }

  lemma Between24And27(x: bv32) returns (p: bv32, k: nat)
    requires 0x80_0000 < x <= 0x800_0000
    ensures Bracket(x, p, k)
  {
    if x <= 0x100_0000 { p, k := 0x100_0000, 24; }
    else if x <= 0x200_0000 { p, k := 0x200_0000, 25; }
    else if x <= 0x400_0000 { p, k := 0x400_0000, 26; }
    else { p, k := 0x800_0000, 27; }
  }

  lemma Between28And31(x: bv32) returns (p: bv32, k: nat)
    requires 0x800_0000 < x <= 0x8000_0000
    ensures Bracket(x, p, k)
  {
    if x <= 0x1000_0000 { p, k := 0x1000_0000, 28; }
    else if x <= 0x2000_0000 { p, k := 0x2000_0000, 29; }
    else if x <= 0x4000_0000 { p, k := 0x4000_0000, 30; }
    else { p, k := 0x8000_0000, 31; }
  }

  lemma PowerFor(x: bv32) returns (p: bv32, k: nat)
    requires 0 < x <= 0x8000_0000
    ensures Bracket(x, p, k)
  {
    hide Bracket;
    if x <= 0x8 { p, k := Between0And3(x); }
    else if x <= 0x80 { p, k := Between4And7(x); }
    else if x <= 0x800 { p, k := Between8And11(x); }
    else if x <= 0x8000 { p, k := Between12And15(x); }
    else if x <= 0x8_0000 { p, k := Between16And19(x); }
    else if x <= 0x80_0000 { p, k := Between20And23(x); }
    else if x <= 0x800_0000 { p, k := Between24And27(x); }
    else { p, k := Between28And31(x); }
  }

  lemma {:induction false} PowersAre(k: nat)
    requires k < 32
    ensures POWERS[k] == Pow2(k)
  {
    if k > 0 {
      PowersAre(k - 1);
      assert POWERS[k] == 2 * POWERS[k - 1];
    }
  }

  /** A single bit that brackets x is what the smearing yields. */
  lemma SmearTo(x: bv32, p: bv32)
    requires p & (p - 1) == 0 && p / 2 < x <= p
    ensures Smear(x) == p
  {}

  lemma {:induction false} CeilTo(x: nat, e: nat, k: nat)
    requires e <= k && x <= Pow2(k) && (k > 0 ==> Pow2(k - 1) < x)
    ensures CeilPow2(x, e) == Pow2(k)
    decreases k - e
  {
    if e < k {
      Pow2Grows(e, k - 1);
      CeilTo(x, e + 1, k);
    }
  }

  /** Without words: the rounding of a number between two powers. */
  lemma Rounded(n: nat, k: nat)
    requires k < 32 && 0 < n <= POWERS[k] && (k > 0 ==> POWERS[k - 1] < n)
    ensures RoundUp32(n) == POWERS[k]
  {
    hide CeilPow2;
    PowersAre(k);
    if k > 0 { PowersAre(k - 1); }
    Pow2Of31();
    Pow2Grows(k, 31);
    CeilTo(n, 0, k);
  }

  lemma OutOfRange(x: bv32)
    requires x == 0 || x > 0x8000_0000
    ensures RoundUp32(x as nat) == 0
  {
    hide CeilPow2;
  }

  lemma WordZero(x: bv32)
    requires x == 0
    ensures x as nat == 0
  {}

  lemma Bracketed(x: bv32, p: bv32, k: nat)
    requires Bracket(x, p, k)
    ensures Smear(x) as nat == RoundUp32(x as nat)
  {
    hide RoundUp32, Smear;
    SmearTo(x, p);
    Rounded(x as nat, k);
  }

  /** The macro on words and the rounding on numbers agree for every word. */
  lemma SmearIsRoundUp(x: bv32)
    ensures Smear(x) as nat == RoundUp32(x as nat)
  {
    hide RoundUp32, Smear, Bracket;
    if x == 0 || x > 0x8000_0000 {
      SmearIsCeiling(x);
      WordZero(Smear(x));
      OutOfRange(x);
    } else {
      var p, k := PowerFor(x);
      Bracketed(x, p, k);
    }
  }
}
