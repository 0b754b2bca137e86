/** Single-bit access on the controller's 8-bit registers and buffers:
    the BITSET, SETBIT and CLEARBIT operations main.cpp uses. */
module Bits {

  /** The byte whose only set bit is bit `i` (the value `1 << i`). */
  function Mask(i: nat): (m: bv8)
    requires i < 8
  {
    match i
    case 0 => 0x01 case 1 => 0x02 case 2 => 0x04 case 3 => 0x08
    case 4 => 0x10 case 5 => 0x20 case 6 => 0x40 case _ => 0x80
  }

  /** Bit `i` of `x` is set. */
  predicate Bit(x: bv8, i: nat)
    requires i < 8
  {
    x & Mask(i) != 0
  }

  /** `x` with bit `i` forced to `v` (SETBIT when `v`, CLEARBIT otherwise). */
  function SetBit(x: bv8, i: nat, v: bool): bv8
    requires i < 8
  {
    if v then x | Mask(i) else x & !Mask(i)
  }

  /** SETBIT and CLEARBIT force bit `i` to `v` and leave every other bit as
      it was. */
  lemma SetBitBits(x: bv8, i: nat, v: bool, j: nat)
    requires i < 8 && j < 8
    ensures Bit(SetBit(x, i, v), j) == if j == i then v else Bit(x, j)
  {
    var m := Mask(j);
    if v {
      assert SetBit(x, i, v) & m == (x | Mask(i)) & m;
    } else {
      assert SetBit(x, i, v) & m == (x & !Mask(i)) & m;
    }
  }

  /** A bit of an or is the or of the bits. */
  lemma OrBit(a: bv8, b: bv8, i: nat)
    requires i < 8
    ensures Bit(a | b, i) == (Bit(a, i) || Bit(b, i))
  {
    var m := Mask(i);
    assert (a | b) & m == (a & m) | (b & m);
  }

  /** `Mask(k)` has bit `k` and no other. */
  lemma MaskBit(k: nat, i: nat)
    requires k < 8 && i < 8
    ensures Bit(Mask(k), i) == (k == i)
  {
  }

  /** Two bytes that agree on all eight bits are equal. */
  lemma BitsDetermine(x: bv8, y: bv8)
    requires forall j :: 0 <= j < 8 ==> Bit(x, j) == Bit(y, j)
    ensures x == y
  {
    assert Bit(x, 0) == Bit(y, 0) && Bit(x, 1) == Bit(y, 1);
    assert Bit(x, 2) == Bit(y, 2) && Bit(x, 3) == Bit(y, 3);
    assert Bit(x, 4) == Bit(y, 4) && Bit(x, 5) == Bit(y, 5);
    assert Bit(x, 6) == Bit(y, 6) && Bit(x, 7) == Bit(y, 7);
  }
}
