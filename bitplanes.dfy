/** The bit-plane buffer `leds[8]` of main.cpp: byte `i` holds bit `i` of
    every LED's corrected brightness, LED `c` in bit position `c`. */
module BitPlanes {
  import opened Bits

  /** Number of planes, and of bit positions in each plane. */
  const PLANES: nat := 8

  /** Value at boot: every plane is 0b1000_0000 (main.cpp:338-340), so
      every LED is dark and bit 7, which drives the button's pull-up
      whenever a plane is copied to PORTA, is set. */
  const BOOT_PLANE: bv8 := 0x80

  predicate IsPlanes(p: seq<bv8>) { |p| == PLANES }

  /** What set_brightness does to the buffer: column `c` is replaced by
      the bits of `x`, one bit per plane, and every other bit stays. */
  function WriteColumn(p: seq<bv8>, c: nat, x: bv8): (r: seq<bv8>)
    requires IsPlanes(p) && c < 8
    ensures IsPlanes(r)
  {
    seq(PLANES, i requires 0 <= i < PLANES => SetBit(p[i], c, Bit(x, i)))
  }

  /** After writing `x` into column `c`, bit `j` of plane `i` is bit `i`
      of `x` in column `c` and unchanged in every other column. */
  lemma WriteColumnBit(p: seq<bv8>, c: nat, x: bv8, i: nat, j: nat)
    requires IsPlanes(p) && c < 8 && i < PLANES && j < 8
    ensures Bit(WriteColumn(p, c, x)[i], j) == if j == c then Bit(x, i) else Bit(p[i], j)
  {
    SetBitBits(p[i], c, Bit(x, i), j);
  }

  /** The byte stored in column `c`: its bit `i` is bit `c` of plane `i`,
      for the first `n` planes. */
  function ColumnUpTo(p: seq<bv8>, c: nat, n: nat): bv8
    requires IsPlanes(p) && c < 8 && n <= 8
  {
    if n == 0 then 0
    else ColumnUpTo(p, c, n - 1) | (if Bit(p[n - 1], c) then Mask(n - 1) else 0)
  }

  /** The brightness byte LED `c` currently shows. */
  function Column(p: seq<bv8>, c: nat): bv8
    requires IsPlanes(p) && c < 8
  {
    ColumnUpTo(p, c, PLANES)
  }

  lemma {:induction false} ColumnUpToBits(p: seq<bv8>, c: nat, n: nat, i: nat)
    requires IsPlanes(p) && c < 8 && n <= 8 && i < 8
    ensures Bit(ColumnUpTo(p, c, n), i) == (i < n && Bit(p[i], c))
  {
    if n > 0 {
      ColumnUpToBits(p, c, n - 1, i);
      var m: bv8 := if Bit(p[n - 1], c) then Mask(n - 1) else 0;
      OrBit(ColumnUpTo(p, c, n - 1), m, i);
      MaskBit(n - 1, i);
      assert Bit(m, i) == (i == n - 1 && Bit(p[n - 1], c));
    }
  }

  /** Bit `i` of column `c` is bit `c` of plane `i`: `Column` reads back
      exactly what the planes store. */
  lemma ColumnBits(p: seq<bv8>, c: nat)
    requires IsPlanes(p) && c < 8
    ensures forall i :: 0 <= i < 8 ==> Bit(Column(p, c), i) == Bit(p[i], c)
  {
    forall i | 0 <= i < 8
      ensures Bit(Column(p, c), i) == Bit(p[i], c)
    {
      ColumnUpToBits(p, c, PLANES, i);
    }
  }

  /** Writing `x` into column `c` and reading column `c` gives `x` back;
      every other column reads as before. */
  lemma ColumnOfWrite(p: seq<bv8>, c: nat, x: bv8)
    requires IsPlanes(p) && c < 8
    ensures Column(WriteColumn(p, c, x), c) == x
    ensures forall k :: 0 <= k < 8 && k != c ==> Column(WriteColumn(p, c, x), k) == Column(p, k)
  {
    var q := WriteColumn(p, c, x);
    forall k | 0 <= k < 8
      ensures Column(q, k) == if k == c then x else Column(p, k)
    {
      ColumnBits(q, k);
      ColumnBits(p, k);
      forall i | 0 <= i < 8
        ensures Bit(q[i], k) == if k == c then Bit(x, i) else Bit(p[i], k)
      {
        WriteColumnBit(p, c, x, i, k);
      }
      BitsDetermine(Column(q, k), if k == c then x else Column(p, k));
    }
  }

  /** The eight columns determine the buffer. */
  lemma ColumnsDetermine(p: seq<bv8>, q: seq<bv8>)
    requires IsPlanes(p) && IsPlanes(q)
    requires forall c :: 0 <= c < 8 ==> Column(p, c) == Column(q, c)
    ensures p == q
  {
    forall i | 0 <= i < 8
      ensures p[i] == q[i]
    {
      forall c | 0 <= c < 8
        ensures Bit(p[i], c) == Bit(q[i], c)
      {
        ColumnBits(p, c);
        ColumnBits(q, c);
        assert Bit(Column(p, c), i) == Bit(Column(q, c), i);
      }
      BitsDetermine(p[i], q[i]);
    }
  }

  /** The boot buffer shows brightness 0 on LEDs 0..6. */
  lemma BootColumns(c: nat)
    requires c < 7
    ensures Column(seq(PLANES, _ => BOOT_PLANE), c) == 0
  {
    var p := seq(PLANES, _ => BOOT_PLANE);
    ColumnBits(p, c);
    BitsDetermine(Column(p, c), 0);
  }
}
