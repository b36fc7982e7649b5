/** The mode of an inode as the C program computes with it: its masks, in terms of
    the operators &, | and ~ on 32-bit words. */
module Modes {
  import opened Layout
  import opened Binary

  /** ~x, for a 32-bit word. */
  function Complement(x: u32): nat { Xor.On(x, 0xffff_ffff) }

  /** x & ~low, where low is a mask of the e lowest of n digits. */
  lemma MaskedAbove(x: nat, e: nat, n: nat, low: nat, full: nat, m: nat, above: nat)
    requires low == Pow(e) - 1 && full == Pow(n) - 1 && low <= full
    requires full - low == Times(above, e) && above == Pow(m) - 1 && Right(x, e) <= above
    ensures And.On(x, Xor.On(low, full)) == Times(Right(x, e), e)
  {
    XorOnes(low, n);
    AndShifted(x, above, e);
    AndOnes(Right(x, e), m);
  }

  /** (x & ~low) | (y & low) */
  lemma MaskedMix(x: nat, y: nat, e: nat, n: nat, low: nat, full: nat, m: nat, above: nat)
    requires low == Pow(e) - 1 && full == Pow(n) - 1 && low <= full
    requires full - low == Times(above, e) && above == Pow(m) - 1 && Right(x, e) <= above
    ensures Or.On(And.On(x, Xor.On(low, full)), And.On(y, low)) == Times(Right(x, e), e) + Low(y, e)
  {
    MaskedAbove(x, e, n, low, full, m, above);
    AndLow(y, e);
    LowSize(y, e);
    OrIsSum(Right(x, e), Low(y, e), e);
  }

  /** The C expression of fs_chmod is the new mode. */
  lemma PermissionBits(mode: u32, perm: u32)
    ensures WithPermissions(mode, perm) == Or.On(And.On(mode, Complement(0x1ff)), And.On(perm, 0x1ff))
  {
    WordSize();
    Fourteen(0);
    Nine(perm);
    Nine(mode);
    Nine(mode / 0x200);
    Nine(0x7f_ffff);
    MaskedMix(mode, perm, 9, 32, 0x1ff, 0xffff_ffff, 23, 0x7f_ffff);
  }

  /** mode & 0170000 */
  lemma KindBits(mode: u32)
    ensures And.On(mode, 0xf000) == 0x1000 * Kind(mode)
  {
    Twelve(mode);
    Twelve(15);
    Four(mode / 0x1000);
    AndShifted(mode, 15, 12);
    AndLow(mode / 0x1000, 4);
    Twelve(mode / 0x1000 % 16);
  }

  /** S_ISREG and S_ISDIR, in C and in the Python tools. */
  lemma KindsAre(i: Inode)
    ensures IsReg(i) <==> And.On(i.mode, 0xf000) == 0x8000
    ensures IsDir(i) <==> And.On(i.mode, 0xf000) == 0x4000
  {
    KindBits(i.mode);
  }

  lemma OneDigit(x: nat, e: nat, mask: nat)
    requires mask == Pow(e)
    ensures Or.On(x, mask) == if Right(x, e) % 2 == 1 then x else x + mask
  {
    OrPow(x, e);
  }

  lemma DirectoryDigit(mode: nat, kind: nat, e: nat, mask: nat)
    requires e == 14 && mask == 0x4000 && kind == mode / 0x1000 % 16 && (kind == 0 || kind == 4)
    ensures Or.On(mode, mask) == if kind == 0 then mode + mask else mode
  {
    FourteenIs(mode, e);
    KindDigit(mode, kind, mode / 0x1000, mode / 0x4000);
    OneDigit(mode, e, mask);
  }

  lemma KindDigit(mode: nat, kind: nat, units: nat, top: nat)
    requires units == mode / 0x1000 && kind == units % 16 && top == mode / 0x4000
    ensures top % 2 == kind / 4 % 2
  {
    Quarter(mode, units, top);
    Sixteenth(units, units / 16, kind, top);
  }

  lemma Sixteenth(units: nat, above: nat, kind: nat, top: nat)
    requires units == 16 * above + kind && kind < 16 && top == units / 4
    ensures top % 2 == kind / 4 % 2
  {
    assert units == 4 * (4 * above + kind / 4) + kind % 4;
    assert top == 4 * above + kind / 4;
    assert top == 2 * (2 * above + kind / 4 / 2) + kind / 4 % 2;
  }

  lemma Quarter(mode: nat, units: nat, top: nat)
    requires units == mode / 0x1000 && top == mode / 0x4000
    ensures top == units / 4
  {
    var rest := mode - 0x1000 * units;
    assert 0 <= rest < 0x1000;
    assert mode == 0x4000 * (units / 4) + (0x1000 * (units % 4) + rest);
  }

  lemma FourteenIs(x: nat, e: nat)
    requires e == 14
    ensures Right(x, e) == x / 0x4000 && Pow(e) == 0x4000
  {
    Fourteen(x);
  }

  /** mode | S_IFDIR, where the mode is not that of something else than a directory. */
  lemma DirectoryBit(mode: u32)
    requires Kind(mode) == 0 || Kind(mode) == 4
    ensures Or.On(mode, 0x4000) == if Kind(mode) == 0 then mode + 0x4000 else mode
  {
    DirectoryDigit(mode, Kind(mode), 14, 0x4000);
  }
}
