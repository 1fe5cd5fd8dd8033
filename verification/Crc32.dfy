/** The CRC-32 that seals every stored part of a saved state. */
module Crc32 {
  const POLYNOMIAL: bv32 := 0xedb8_8320

  /** One bit of the division: shift out the low bit and, if it was set, subtract the polynomial. */
  function BitStep(crc: bv32): bv32 {
    if crc & 1 == 1 then (crc >> 1) ^ POLYNOMIAL else crc >> 1
  }

  /** Adds a byte into the low end of the register. */
  function Enter(crc: bv32, b: bv8): bv32 {
    crc ^ (b as bv32)
  }

  // The loops, over any kind of register; the proofs below never look inside a word.

  function Iterate<T>(step: T -> T, x: T, n: nat): T
    decreases n, x
  {
    if n == 0 then x else step(Iterate(step, x, n - 1))
  }

  function Fold<T>(step: T -> T, enter: (T, bv8) -> T, x: T, bytes: seq<bv8>): T {
    if bytes == [] then x
    else
      var before := Fold(step, enter, x, bytes[..|bytes| - 1]);
      Iterate(step, enter(before, bytes[|bytes| - 1]), 8)
  }

  function Crc(bytes: seq<bv8>): bv32 {
    !Fold(BitStep, Enter, 0xffff_ffff, bytes)
  }

  method FoldBytes(ghost step: bv32 -> bv32, ghost enter: (bv32, bv8) -> bv32, bytes: seq<bv8>)
    returns (crc: bv32)
    requires forall c :: step(c) == (c >> 1) ^ (POLYNOMIAL & (0 - (c & 1)))
    requires forall c, b :: enter(c, b) == c ^ (b as bv32)
    ensures crc == Fold(step, enter, 0xffff_ffff, bytes)
  {
    crc := 0xffff_ffff;
    for k := 0 to |bytes|
      invariant crc == Fold(step, enter, 0xffff_ffff, bytes[..k])
    {
      ghost var before := enter(crc, bytes[k]);
      crc := crc ^ (bytes[k] as bv32);
      for i := 0 to 8
        invariant crc == Iterate(step, before, i)
      {
        crc := (crc >> 1) ^ (POLYNOMIAL & (0 - (crc & 1)));
      }
      assert bytes[..k + 1][..k] == bytes[..k];
    }
    assert bytes[..|bytes|] == bytes;
  }

  method Checksum(bytes: seq<bv8>) returns (crc: bv32)
    ensures crc == Crc(bytes)
  {
    forall c: bv32 ensures BitStep(c) == (c >> 1) ^ (POLYNOMIAL & (0 - (c & 1))) {
      MaskSelects(c);
    }
    crc := FoldBytes(BitStep, Enter, bytes);
    crc := !crc;
  }

  // ---- One bit step ----

  lemma LowBit(w: bv32)
    ensures w & 1 == 0 || w & 1 == 1
  {
  }

  /** The code selects the polynomial with a mask instead of a branch. */
  lemma MaskSelects(crc: bv32)
    ensures (crc >> 1) ^ (POLYNOMIAL & (0 - (crc & 1))) == BitStep(crc)
  {
    LowBit(crc);
    if crc & 1 == 0 {
      assert 0 - (crc & 1) == 0;
      assert (crc >> 1) ^ 0 == crc >> 1;
    } else {
      assert 0 - (crc & 1) == 0xffff_ffff;
    }
  }

  /** Undoes BitStep: the top bit of the result tells which bit was shifted out. */
  function BitUnstep(crc: bv32): bv32 {
    if crc & 0x8000_0000 != 0 then ((crc ^ POLYNOMIAL) << 1) | 1 else crc << 1
  }

  lemma ShiftBack(crc: bv32)
    ensures (crc >> 1) & 0x8000_0000 == 0
    ensures crc & 1 == 0 ==> (crc >> 1) << 1 == crc
    ensures crc & 1 == 1 ==> ((crc >> 1) << 1) | 1 == crc
  {
  }

  lemma BitUnstepUndoes(crc: bv32)
    ensures BitUnstep(BitStep(crc)) == crc
  {
    LowBit(crc);
    ShiftBack(crc);
    var h := crc >> 1;
    assert (h ^ POLYNOMIAL) ^ POLYNOMIAL == h;
    assert h & 0x8000_0000 == 0 ==> (h ^ POLYNOMIAL) & 0x8000_0000 != 0;
  }

  lemma ShiftedXor(crc: bv32, w: bv32)
    requires w & 0x8000_0000 == 0
    ensures (crc ^ (w << 1)) >> 1 == (crc >> 1) ^ w
    ensures (crc ^ (w << 1)) & 1 == crc & 1
  {
  }

  lemma XorSwap(crc: bv32, w: bv32, p: bv32)
    ensures (crc ^ w) ^ p == (crc ^ p) ^ w
  {
  }

  lemma BitStepProperties()
    ensures Injective(BitStep)
  {
    forall a, b | BitStep(a) == BitStep(b) ensures a == b {
      BitUnstepUndoes(a);
      BitUnstepUndoes(b);
    }
  }

  lemma BitStepAbsorbs(crc: bv32, w: bv32)
    requires w & 0x8000_0000 == 0
    ensures BitStep(crc ^ (w << 1)) == BitStep(crc) ^ w
  {
    ShiftedXor(crc, w);
    if crc & 1 == 1 {
      OddStep(crc ^ (w << 1));
      OddStep(crc);
      XorSwap(crc >> 1, w, POLYNOMIAL);
    } else {
      EvenStep(crc ^ (w << 1), crc);
      EvenStep(crc, crc);
    }
  }

  lemma OddStep(crc: bv32)
    requires crc & 1 == 1
    ensures BitStep(crc) == (crc >> 1) ^ POLYNOMIAL
  {
  }

  lemma EvenStep(crc: bv32, parity: bv32)
    requires crc & 1 == parity & 1 && parity & 1 != 1
    ensures BitStep(crc) == crc >> 1
  {
  }

  lemma XorCancels(x: bv32, y: bv32, w: bv32)
    requires x ^ w == y ^ w
    ensures x == y
  {
    assert (x ^ w) ^ w == x && (y ^ w) ^ w == y;
  }

  // ---- Registers of any kind ----

  ghost predicate Injective<T(!new)>(step: T -> T) {
    forall a, b :: step(a) == step(b) ==> a == b
  }

  ghost predicate EnterInjective<T(!new)>(enter: (T, bv8) -> T) {
    forall a, b, byte :: enter(a, byte) == enter(b, byte) ==> a == b
  }

  lemma {:induction false} IterateInjective<T(!new)>(step: T -> T, a: T, b: T, n: nat)
    requires Injective(step)
    requires Iterate(step, a, n) == Iterate(step, b, n)
    ensures a == b
  {
    if n > 0 {
      IterateInjective(step, a, b, n - 1);
    }
  }

  lemma {:induction false} FoldInjective<T(!new)>(step: T -> T, enter: (T, bv8) -> T, a: T, b: T, bytes: seq<bv8>)
    requires Injective(step) && EnterInjective(enter)
    requires Fold(step, enter, a, bytes) == Fold(step, enter, b, bytes)
    ensures a == b
  {
    if bytes != [] {
      var init, last := bytes[..|bytes| - 1], bytes[|bytes| - 1];
      var x, y := Fold(step, enter, a, init), Fold(step, enter, b, init);
      IterateInjective(step, enter(x, last), enter(y, last), 8);
      FoldInjective(step, enter, a, b, init);
    }
  }

  lemma {:induction false} FoldConcat<T>(step: T -> T, enter: (T, bv8) -> T, x: T, a: seq<bv8>, b: seq<bv8>)
    ensures Fold(step, enter, x, a + b) == Fold(step, enter, Fold(step, enter, x, a), b)
  {
    if b == [] {
      assert a + b == a;
    } else {
      var init := b[..|b| - 1];
      assert (a + b)[..|a + b| - 1] == a + init;
      FoldConcat(step, enter, x, a, init);
    }
  }

  lemma {:induction false} IterateAdd<T>(step: T -> T, x: T, m: nat, n: nat)
    ensures Iterate(step, Iterate(step, x, m), n) == Iterate(step, x, m + n)
  {
    if n > 0 {
      IterateAdd(step, x, m, n - 1);
    }
  }

  /** spot(b, k) is byte b moved up k places; one step moves it down one place. */
  ghost predicate Slides<T(!new)>(step: T -> T, plus: (T, T) -> T, spot: (bv8, nat) -> T) {
    forall c, b, k: nat | k < 24 :: step(plus(c, spot(b, k + 1))) == plus(step(c), spot(b, k))
  }

  ghost predicate EntersAtZero<T(!new)>(enter: (T, bv8) -> T, plus: (T, T) -> T, spot: (bv8, nat) -> T) {
    forall x, b :: enter(x, b) == plus(x, spot(b, 0))
  }

  lemma {:induction false} SlideDown<T(!new)>(
      step: T -> T, plus: (T, T) -> T, spot: (bv8, nat) -> T, c: T, b: bv8, n: nat)
    requires Slides(step, plus, spot) && n <= 24
    ensures Iterate(step, plus(c, spot(b, n)), n) == plus(Iterate(step, c, n), spot(b, 0))
  {
    if n > 0 {
      assert step(plus(c, spot(b, (n - 1) + 1))) == plus(step(c), spot(b, n - 1));
      SlideDown(step, plus, spot, step(c), b, n - 1);
      IterateAdd(step, plus(c, spot(b, n)), 1, n - 1);
      IterateAdd(step, c, 1, n - 1);
    }
  }

  /** Four bytes laid side by side, the first one lowest. */
  function Gather<T>(plus: (T, T) -> T, spot: (bv8, nat) -> T, x: T, b: seq<bv8>): T
    requires |b| == 4
  {
    plus(plus(plus(plus(x, spot(b[0], 0)), spot(b[1], 8)), spot(b[2], 16)), spot(b[3], 24))
  }

  lemma NextByte<T(!new)>(
      step: T -> T, enter: (T, bv8) -> T, plus: (T, T) -> T, spot: (bv8, nat) -> T,
      x: T, done: seq<bv8>, gathered: T, b: bv8, n: nat)
    requires Slides(step, plus, spot) && EntersAtZero(enter, plus, spot) && n <= 24
    requires Fold(step, enter, x, done) == Iterate(step, gathered, n)
    ensures Fold(step, enter, x, done + [b]) == Iterate(step, plus(gathered, spot(b, n)), n + 8)
  {
    assert (done + [b])[..|done|] == done;
    SlideDown(step, plus, spot, gathered, b, n);
    IterateAdd(step, plus(gathered, spot(b, n)), n, 8);
  }

  /** Feeding four bytes one at a time is adding them all at once and then stepping 32 times. */
  lemma FourBytesAtOnce<T(!new)>(
      step: T -> T, enter: (T, bv8) -> T, plus: (T, T) -> T, spot: (bv8, nat) -> T, x: T, b: seq<bv8>)
    requires |b| == 4 && Slides(step, plus, spot) && EntersAtZero(enter, plus, spot)
    ensures Fold(step, enter, x, b) == Iterate(step, Gather(plus, spot, x, b), 32)
  {
    var a0 := plus(x, spot(b[0], 0));
    var a1 := plus(a0, spot(b[1], 8));
    var a2 := plus(a1, spot(b[2], 16));
    NextByte(step, enter, plus, spot, x, [], x, b[0], 0);
    NextByte(step, enter, plus, spot, x, [] + [b[0]], a0, b[1], 8);
    NextByte(step, enter, plus, spot, x, [] + [b[0]] + [b[1]], a1, b[2], 16);
    NextByte(step, enter, plus, spot, x, [] + [b[0]] + [b[1]] + [b[2]], a2, b[3], 24);
    assert [] + [b[0]] + [b[1]] + [b[2]] + [b[3]] == b;
  }

  // ---- Back to 32-bit words ----

  function Xor(a: bv32, b: bv32): bv32 {
    a ^ b
  }

  function Spot(b: bv8, k: nat): bv32 {
    if k <= 24 then (b as bv32) << k else 0
  }

  ghost predicate MovesUp(b: bv8, k: nat) {
    Spot(b, k + 1) == Spot(b, k) << 1 && Spot(b, k) & 0x8000_0000 == 0
  }

  lemma SpotUp(b: bv8, k: nat)
    requires k < 24
    ensures MovesUp(b, k)
  {
    assert MovesUp(b, 0) && MovesUp(b, 1) && MovesUp(b, 2) && MovesUp(b, 3) && MovesUp(b, 4)
        && MovesUp(b, 5) by { SpotUpFrom0(b); }
    assert MovesUp(b, 6) && MovesUp(b, 7) && MovesUp(b, 8) && MovesUp(b, 9) && MovesUp(b, 10)
        && MovesUp(b, 11) by { SpotUpFrom6(b); }
    assert MovesUp(b, 12) && MovesUp(b, 13) && MovesUp(b, 14) && MovesUp(b, 15) && MovesUp(b, 16)
        && MovesUp(b, 17) by { SpotUpFrom12(b); }
    assert MovesUp(b, 18) && MovesUp(b, 19) && MovesUp(b, 20) && MovesUp(b, 21) && MovesUp(b, 22)
        && MovesUp(b, 23) by { SpotUpFrom18(b); }
  }

  lemma SpotUpFrom0(b: bv8)
    ensures MovesUp(b, 0) && MovesUp(b, 1) && MovesUp(b, 2)
    ensures MovesUp(b, 3) && MovesUp(b, 4) && MovesUp(b, 5)
  {
  }

  lemma SpotUpFrom6(b: bv8)
    ensures MovesUp(b, 6) && MovesUp(b, 7) && MovesUp(b, 8)
    ensures MovesUp(b, 9) && MovesUp(b, 10) && MovesUp(b, 11)
  {
  }

  lemma SpotUpFrom12(b: bv8)
    ensures MovesUp(b, 12) && MovesUp(b, 13) && MovesUp(b, 14)
    ensures MovesUp(b, 15) && MovesUp(b, 16) && MovesUp(b, 17)
  {
  }

  lemma SpotUpFrom18(b: bv8)
    ensures MovesUp(b, 18) && MovesUp(b, 19) && MovesUp(b, 20)
    ensures MovesUp(b, 21) && MovesUp(b, 22) && MovesUp(b, 23)
  {
  }

  lemma WordSlides(c: bv32, b: bv8, k: nat)
    requires k < 24
    ensures BitStep(Xor(c, Spot(b, k + 1))) == Xor(BitStep(c), Spot(b, k))
  {
    SpotUp(b, k);
    LowSlides(c, Spot(b, k));
  }

  lemma LowSlides(c: bv32, w: bv32)
    requires w & 0x8000_0000 == 0
    ensures BitStep(Xor(c, w << 1)) == Xor(BitStep(c), w)
  {
    BitStepAbsorbs(c, w);
  }

  lemma WordsSlide()
    ensures Slides(BitStep, Xor, Spot)
  {
    forall c, b, k: nat | k < 24
      ensures BitStep(Xor(c, Spot(b, k + 1))) == Xor(BitStep(c), Spot(b, k))
    {
      WordSlides(c, b, k);
    }
  }

  function Lay(x: bv32, b0: bv8, b1: bv8, b2: bv8, b3: bv8): bv32 {
    x ^ (b0 as bv32) ^ ((b1 as bv32) << 8) ^ ((b2 as bv32) << 16) ^ ((b3 as bv32) << 24)
  }

  lemma LayDistinct(x: bv32, a0: bv8, a1: bv8, a2: bv8, a3: bv8, b0: bv8, b1: bv8, b2: bv8, b3: bv8)
    requires Lay(x, a0, a1, a2, a3) == Lay(x, b0, b1, b2, b3)
    ensures a0 == b0 && a1 == b1 && a2 == b2 && a3 == b3
  {
  }

  lemma GatherLays(x: bv32, b: seq<bv8>)
    requires |b| == 4
    ensures Gather(Xor, Spot, x, b) == Lay(x, b[0], b[1], b[2], b[3])
  {
  }

  lemma LanesDetermineBytes(x: bv32, a: seq<bv8>, b: seq<bv8>)
    requires |a| == |b| == 4
    requires Gather(Xor, Spot, x, a) == Gather(Xor, Spot, x, b)
    ensures a == b
  {
    GatherLays(x, a);
    GatherLays(x, b);
    LayDistinct(x, a[0], a[1], a[2], a[3], b[0], b[1], b[2], b[3]);
  }

  lemma EnterKeepsApart()
    ensures EnterInjective(Enter) && EntersAtZero(Enter, Xor, Spot)
  {
    forall a, b, byte | Enter(a, byte) == Enter(b, byte) ensures a == b {
      XorCancels(a, b, byte as bv32);
    }
  }

  lemma ComplementInjective(a: bv32, b: bv32)
    ensures !a == !b ==> a == b
  {
  }

  /** From one register state, different byte strings of the same length up to four part for good. */
  lemma ShortStringsPart(s: bv32, a: seq<bv8>, b: seq<bv8>)
    requires |a| == |b| <= 4 && Fold(BitStep, Enter, s, a) == Fold(BitStep, Enter, s, b)
    ensures a == b
  {
    var pad := seq(4 - |a|, _ => 0 as bv8);
    assert a == (a + pad)[..|a|] && b == (b + pad)[..|b|];
    FoldConcat(BitStep, Enter, s, a, pad);
    FoldConcat(BitStep, Enter, s, b, pad);
    EnterKeepsApart();
    WordsSlide();
    FourBytesAtOnce(BitStep, Enter, Xor, Spot, s, a + pad);
    FourBytesAtOnce(BitStep, Enter, Xor, Spot, s, b + pad);
    BitStepProperties();
    IterateInjective(BitStep, Gather(Xor, Spot, s, a + pad), Gather(Xor, Spot, s, b + pad), 32);
    LanesDetermineBytes(s, a + pad, b + pad);
  }

  /** The checksum tells apart any two byte strings that differ only within four consecutive bytes. */
  lemma BurstDetected(prefix: seq<bv8>, a: seq<bv8>, b: seq<bv8>, suffix: seq<bv8>)
    requires |a| == |b| <= 4 && a != b
    ensures Crc(prefix + a + suffix) != Crc(prefix + b + suffix)
  {
    var s := Fold(BitStep, Enter, 0xffff_ffff, prefix);
    var x, y := Fold(BitStep, Enter, s, a), Fold(BitStep, Enter, s, b);
    FoldConcat(BitStep, Enter, 0xffff_ffff, prefix, a);
    FoldConcat(BitStep, Enter, 0xffff_ffff, prefix, b);
    FoldConcat(BitStep, Enter, 0xffff_ffff, prefix + a, suffix);
    FoldConcat(BitStep, Enter, 0xffff_ffff, prefix + b, suffix);
    ComplementInjective(Fold(BitStep, Enter, x, suffix), Fold(BitStep, Enter, y, suffix));
    if Crc(prefix + a + suffix) == Crc(prefix + b + suffix) {
      BitStepProperties();
      EnterKeepsApart();
      FoldInjective(BitStep, Enter, x, y, suffix);
      ShortStringsPart(s, a, b);
    }
  }

  // ---- It is the CRC-32 of the standards ----

  /** The digits 1 to 9, on which every CRC-32 of this kind gives 0xcbf43926. */
  const DIGITS: seq<bv8> := [0x31, 0x32, 0x33, 0x34, 0x35, 0x36, 0x37, 0x38, 0x39]

  /** The register before each digit, and at the end. */
  const REGISTERS: seq<bv32> := [
    0xffff_ffff, 0x7c23_1048, 0xb0ac_bb32, 0x77b7_9c2d, 0x641c_1f5c,
    0x340a_c5e3, 0xf68d_2c9e, 0xaffc_9660, 0x651f_2550, 0x340b_c6d9]

  function EightSteps(c: bv32): bv32 {
    BitStep(BitStep(BitStep(BitStep(BitStep(BitStep(BitStep(BitStep(c))))))))
  }

  lemma EightIterated(c: bv32)
    ensures Iterate(BitStep, c, 8) == EightSteps(c)
  {
    hide BitStep, Iterate;
    IterateNext(c, 0);
    IterateNext(c, 1);
    IterateNext(c, 2);
    IterateNext(c, 3);
    IterateNext(c, 4);
    IterateNext(c, 5);
    IterateNext(c, 6);
    IterateNext(c, 7);
  }

  lemma IterateNext(c: bv32, n: nat)
    ensures Iterate(BitStep, c, 0) == c && Iterate(BitStep, c, n + 1) == BitStep(Iterate(BitStep, c, n))
  {
    hide BitStep;
  }

  lemma DigitStep(k: nat)
    requires k < 9
    ensures EightSteps(Enter(REGISTERS[k], DIGITS[k])) == REGISTERS[k + 1]
  {
    assert EightSteps(0xffff_ffff ^ 0x31) == 0x7c23_1048;
    assert EightSteps(0x7c23_1048 ^ 0x32) == 0xb0ac_bb32;
    assert EightSteps(0xb0ac_bb32 ^ 0x33) == 0x77b7_9c2d;
    assert EightSteps(0x77b7_9c2d ^ 0x34) == 0x641c_1f5c;
    assert EightSteps(0x641c_1f5c ^ 0x35) == 0x340a_c5e3;
    assert EightSteps(0x340a_c5e3 ^ 0x36) == 0xf68d_2c9e;
    assert EightSteps(0xf68d_2c9e ^ 0x37) == 0xaffc_9660;
    assert EightSteps(0xaffc_9660 ^ 0x38) == 0x651f_2550;
    assert EightSteps(0x651f_2550 ^ 0x39) == 0x340b_c6d9;
  }

  lemma {:induction false} DigitsSoFar(k: nat)
    requires k <= 9
    ensures Fold(BitStep, Enter, 0xffff_ffff, DIGITS[..k]) == REGISTERS[k]
  {
    hide BitStep, EightSteps, Iterate;
    if k > 0 {
      DigitsSoFar(k - 1);
      assert DIGITS[..k][..k - 1] == DIGITS[..k - 1];
      EightIterated(Enter(REGISTERS[k - 1], DIGITS[k - 1]));
      DigitStep(k - 1);
    }
  }

  /** The check value: it fixes the polynomial, the order of the bits and both complements. */
  lemma CheckValue()
    ensures Crc(DIGITS) == 0xcbf4_3926
  {
    DigitsSoFar(9);
    assert DIGITS[..9] == DIGITS;
  }
}
