/** The binary-coded-modulation frame of main.cpp:84-127.

    Timer 0 runs in normal mode (TCCR0A keeps its reset value 0; TCCR0B at
    main.cpp:337 only selects the clock), so its 8-bit count goes 0..255
    and overflows back to 0. The overflow event outputs plane 0; the
    compare-match event outputs the plane of the current phase and loads
    OCR0A with the count of the next compare. One frame is therefore 256
    counts long.

    Event timing follows the AVR 8-bit timer/counter: the overflow flag is
    set on the clock at which the count goes from 255 to 0, and the
    compare flag on the clock after the count equals OCR0A, that is, as
    the count goes from OCR0A to OCR0A + 1. Interrupt latency is the same
    for both events and is not modelled. */
module Bcm {
  import opened Bits
  import opened BitPlanes

  /** Number of compare phases (the handler's static `mode` is 0..6). */
  const PHASES: nat := 7

  /** Counts of timer 0 in one frame, from overflow to overflow. */
  const FRAME: nat := 256

  /** The OCR0A value loaded by the compare handler in phase `m`. */
  function Reload(m: nat): (r: bv8)
    requires m < PHASES
    ensures r as nat == if m < PHASES - 1 then Pow2(m + 2) - 1 else 1
  {
    match m
    case 0 => 3 case 1 => 7 case 2 => 15 case 3 => 31
    case 4 => 63 case 5 => 127 case _ => 1
  }

  /** The phase after phase `m`: `mode++`, and `mode = 0` after the last. */
  function NextPhase(m: nat): (n: nat)
    requires m < PHASES
    ensures n < PHASES && n == (m + 1) % PHASES
  {
    if m == PHASES - 1 then 0 else m + 1
  }

  /** The plane the compare handler writes to PORTA in phase `m`. */
  function PlaneOf(m: nat): (q: nat)
    requires m < PHASES
    ensures 1 <= q < PLANES
  {
    m + 1
  }

  /** The phase after `k` compare events starting in phase `m`. */
  function PhaseAfter(m: nat, k: nat): (r: nat)
    requires m < PHASES
    ensures r < PHASES
  {
    if k == 0 then m else NextPhase(PhaseAfter(m, k - 1))
  }

  /** Compare events walk the phases cyclically: after `k` of them the
      phase is `(m + k) mod 7`. */
  lemma {:induction false} PhaseAfterIsModular(m: nat, k: nat)
    requires m < PHASES
    ensures PhaseAfter(m, k) == (m + k) % PHASES
  {
    if k > 0 {
      PhaseAfterIsModular(m, k - 1);
      var q := (m + k - 1) / PHASES;
      assert m + k - 1 == PHASES * q + PhaseAfter(m, k - 1);
    }
  }

  /** Seven compare events bring the phase back to where it started, and
      from phase 0 (the phase at boot and after every seventh compare) they
      output planes 1..7 in increasing order. */
  lemma SevenCompares(m: nat)
    requires m < PHASES
    ensures PhaseAfter(m, PHASES) == m
    ensures forall k :: 0 <= k < PHASES ==> PlaneOf(PhaseAfter(0, k)) == k + 1
  {
    PhaseAfterIsModular(m, PHASES);
    forall k | 0 <= k < PHASES
      ensures PlaneOf(PhaseAfter(0, k)) == k + 1
    {
      PhaseAfterIsModular(0, k);
    }
  }

  /** The count at which the compare event of phase `m` fires: the value
      loaded by the event before it. For phase 0 that is the value the
      last phase loads, 1, which is also boot's OCR0A (main.cpp:336), so
      the first frame after boot follows the same schedule. */
  function CompareAt(m: nat): bv8
    requires m < PHASES
  {
    Reload(if m == 0 then PHASES - 1 else m - 1)
  }

  /** The counts at which plane `q` is on PORTA start and end: plane 0
      from the overflow, plane `q >= 1` from the count after the compare
      count of phase `q - 1`. */
  function PlaneStart(q: nat): nat
    requires q < PLANES
  {
    if q == 0 then 0 else CompareAt(q - 1) as nat + 1
  }

  function PlaneEnd(q: nat): nat
    requires q < PLANES
  {
    if q == PLANES - 1 then FRAME else CompareAt(q) as nat + 1
  }

  /** 2^n, for the exponents a frame needs. */
  function Pow2(n: nat): nat
    requires n <= 8
  {
    match n
    case 0 => 1 case 1 => 2 case 2 => 4 case 3 => 8
    case 4 => 16 case 5 => 32 case 6 => 64 case 7 => 128 case _ => 256
  }

  /** In one frame the planes follow each other without gap or overlap
      (so the compares fire in phase order within one pass of timer 0),
      and plane `q >= 1` is shown for 2^q counts; plane 0 gets the 2
      counts from the overflow to the first compare. */
  lemma PlaneDurations(q: nat)
    requires q < PLANES
    ensures PlaneStart(q) < PlaneEnd(q) <= FRAME
    ensures q + 1 < PLANES ==> PlaneEnd(q) == PlaneStart(q + 1)
    ensures PlaneEnd(q) - PlaneStart(q) == if q == 0 then 2 else Pow2(q)
  {
    match q
    case 0 => case 1 => case 2 => case 3 =>
    case 4 => case 5 => case 6 => case _ =>
  }

  /** Number of the frame's counts during which the first `n` planes drive
      LED `c` high. */
  function LitUpTo(p: seq<bv8>, c: nat, n: nat): nat
    requires IsPlanes(p) && c < 8 && n <= PLANES
  {
    if n == 0 then 0
    else LitUpTo(p, c, n - 1) + (if Bit(p[n - 1], c) then PlaneEnd(n - 1) - PlaneStart(n - 1) else 0)
  }

  /** Counts per frame during which LED `c` is driven high. */
  function LitCounts(p: seq<bv8>, c: nat): nat
    requires IsPlanes(p) && c < 8
  {
    LitUpTo(p, c, PLANES)
  }

  /** The value of bits 0..n-1 of `x`: the sum of 2^k over its set bits. */
  function BitValue(x: bv8, n: nat): nat
    requires n <= 8
  {
    if n == 0 then 0 else BitValue(x, n - 1) + (if Bit(x, n - 1) then Pow2(n - 1) else 0)
  }

  /** A byte's unsigned value is the sum of its bits' weights. */
  lemma ByteValue(x: bv8)
    ensures x as nat == BitValue(x, 8)
  {
    assert BitValue(x, 1) == if x & 0x01 != 0 then 1 else 0;
    assert BitValue(x, 2) == BitValue(x, 1) + if x & 0x02 != 0 then 2 else 0;
    assert BitValue(x, 3) == BitValue(x, 2) + if x & 0x04 != 0 then 4 else 0;
    assert BitValue(x, 4) == BitValue(x, 3) + if x & 0x08 != 0 then 8 else 0;
    assert BitValue(x, 5) == BitValue(x, 4) + if x & 0x10 != 0 then 16 else 0;
    assert BitValue(x, 6) == BitValue(x, 5) + if x & 0x20 != 0 then 32 else 0;
    assert BitValue(x, 7) == BitValue(x, 6) + if x & 0x40 != 0 then 64 else 0;
    assert BitValue(x, 8) == BitValue(x, 7) + if x & 0x80 != 0 then 128 else 0;
  }

  /** The first `n` planes light LED `c` for the value of the low `n` bits
      of its column, plus one count for plane 0's second count: plane 0
      lasts 2 counts and plane `k >= 1` lasts 2^k. */
  lemma {:induction false} LitUpToLow(p: seq<bv8>, c: nat, n: nat)
    requires IsPlanes(p) && c < 8 && n <= PLANES
    ensures LitUpTo(p, c, n) == BitValue(Column(p, c), n) + (if n > 0 && Bit(p[0], c) then 1 else 0)
  {
    if n > 0 {
      LitUpToLow(p, c, n - 1);
      PlaneDurations(n - 1);
      ColumnBits(p, c);
      assert Bit(Column(p, c), n - 1) == Bit(p[n - 1], c);
    }
  }

  /** Duty cycle of BCM: over one frame of 256 counts, LED `c` is lit for
      as many counts as the brightness its column stores, plus one more
      count when bit 0 is set (plane 0's 2-count slot). */
  lemma {:induction false} LitCountsIsColumn(p: seq<bv8>, c: nat)
    requires IsPlanes(p) && c < 8
    ensures LitCounts(p, c) == Column(p, c) as nat + (if Bit(p[0], c) then 1 else 0)
    ensures Column(p, c) as nat <= LitCounts(p, c) <= Column(p, c) as nat + 1
  {
    LitUpToLow(p, c, PLANES);
    ByteValue(Column(p, c));
  }
}
