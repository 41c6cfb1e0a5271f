// The frame checksum: the reflected 16-bit CRC with initial value 0 ("Kermit") that
// calculateCrc obtains from the Boost CRC library.
module Crc {
  import opened Wrappers
  import opened Polynomial

  // The k low bits of a number in transmission order, least significant first.
  function LowBits(b: nat, k: nat): (bits: Bits)
    ensures |bits| == k
  {
    if k == 0 then [] else [b % 2 == 1] + LowBits(b / 2, k - 1)
  }

  function ByteBits(b: byte): (bits: Bits)
    ensures |bits| == 8
  {
    LowBits(b, 8)
  }

  function BitsOf(bytes: seq<byte>): (bits: Bits)
    ensures |bits| == 8 * |bytes|
  {
    if bytes == [] then [] else BitsOf(bytes[..|bytes| - 1]) + ByteBits(bytes[|bytes| - 1])
  }

  function Pow2(k: nat): nat
  {
    if k == 0 then 1 else 2 * Pow2(k - 1)
  }

  lemma {:induction false} LowBitsInjective(a: nat, b: nat, k: nat)
    requires a < Pow2(k) && b < Pow2(k) && LowBits(a, k) == LowBits(b, k)
    ensures a == b
  {
    if k > 0 {
      assert LowBits(a, k)[0] == (a % 2 == 1) && LowBits(b, k)[0] == (b % 2 == 1);
      assert LowBits(a, k)[1..] == LowBits(a / 2, k - 1) && LowBits(b, k)[1..] == LowBits(b / 2, k - 1);
      LowBitsInjective(a / 2, b / 2, k - 1);
    }
  }

  lemma {:induction false} BitsInjective(a: seq<byte>, b: seq<byte>)
    requires |a| == |b| && BitsOf(a) == BitsOf(b)
    ensures a == b
  {
    if a != [] {
      var n := |a| - 1;
      assert BitsOf(a)[..8 * n] == BitsOf(a[..n]) && BitsOf(b)[..8 * n] == BitsOf(b[..n]);
      assert BitsOf(a)[8 * n..] == ByteBits(a[n]) && BitsOf(b)[8 * n..] == ByteBits(b[n]);
      BitsInjective(a[..n], b[..n]);
      assert Pow2(8) == 256;
      LowBitsInjective(a[n], b[n], 8);
      assert a == a[..n] + [a[n]] && b == b[..n] + [b[n]];
    }
  }

  // ----- the bit-wise register -----

  // A 16-bit register, least significant bit first. Reflection makes bit j the
  // coefficient of x^(15-j), so a register reads directly as a polynomial.
  type Register = r: Bits | |r| == 16 witness Zeros(16)

  // 0x8408, which is 0x1021 with its bits reversed: bits 3, 10 and 15.
  function Feedback(): (f: Register)
    ensures forall i :: 0 <= i < 16 ==> f[i] == (i == 3 || i == 10 || i == 15)
  {
    seq(16, i => i == 3 || i == 10 || i == 15)
  }

  // One message bit through the register.
  function Shift(r: Register, bit: bool): Register
  {
    Xor(r[1..] + [false], Scale(r[0] != bit, Feedback()))
  }

  lemma ShiftAt(r: Register, bit: bool, i: nat)
    requires i < 16
    ensures Shift(r, bit)[i] == ((i < 15 && r[i + 1]) != (r[0] != bit && Feedback()[i]))
  {
  }

  function Run(r: Register, bits: Bits): Register
  {
    if bits == [] then r else Shift(Run(r, bits[..|bits| - 1]), bits[|bits| - 1])
  }

  // The specification of calculateCrc.
  function Checksum(bytes: seq<byte>): Register
  {
    Run(Zeros(16), BitsOf(bytes))
  }

  function Number(bits: Bits): nat
  {
    if bits == [] then 0 else (if bits[0] then 1 else 0) + 2 * Number(bits[1..])
  }

  lemma {:induction false} NumberRoundTrip(bits: Bits)
    ensures LowBits(Number(bits), |bits|) == bits
    ensures Number(bits) < Pow2(|bits|)
  {
    if bits != [] {
      NumberRoundTrip(bits[1..]);
    }
  }

  lemma NumberInjective(a: Bits, b: Bits)
    requires |a| == |b| && Number(a) == Number(b)
    ensures a == b
  {
  }

  lemma RunAppend(r: Register, bits: Bits, bit: bool)
    ensures Run(r, bits + [bit]) == Shift(Run(r, bits), bit)
  {
  }

  lemma {:induction false} RunConcat(r: Register, a: Bits, b: Bits)
    ensures Run(r, a + b) == Run(Run(r, a), b)
  {
    hide Shift;
    if b == [] {
      assert a + b == a;
    } else {
      var n := |b| - 1;
      RunConcat(r, a, b[..n]);
      assert a + b == (a + b[..n]) + [b[n]];
      RunAppend(r, a + b[..n], b[n]);
    }
  }

  // ----- the byte-wise form -----

  // k shifts of the register with no message bit.
  function Idle(r: Register, k: nat): Register
    decreases k
  {
    if k == 0 then r else Idle(Shift(r, false), k - 1)
  }

  // The 256-entry lookup table of the byte-wise algorithm.
  function Table(low: Bits): Register
    requires |low| == 8
  {
    Idle(low + Zeros(8), 8)
  }

  // table[(r ^ byte) & 0xFF] ^ (r >> 8)
  function ByteStep(r: Register, b: byte): Register
  {
    Xor(Table(Xor(r[..8], ByteBits(b))), r[8..] + Zeros(8))
  }

  lemma ShiftLinear(a: Register, b: Register, x: bool, y: bool)
    ensures Shift(Xor(a, b), x != y) == Xor(Shift(a, x), Shift(b, y))
  {
  }

  lemma {:induction false} IdleLinear(a: Register, b: Register, k: nat)
    ensures Idle(Xor(a, b), k) == Xor(Idle(a, k), Idle(b, k))
    decreases k
  {
    hide Shift;
    if k > 0 {
      ShiftLinear(a, b, false, false);
      IdleLinear(Shift(a, false), Shift(b, false), k - 1);
    }
  }

  // Shifts of a register whose low bits are clear only move the high bits down.
  lemma {:induction false} IdleMoves(high: Bits, low: nat, k: nat)
    requires |high| + k == 16 && low <= k
    ensures Idle(Zeros(low) + high + Zeros(k - low), low) == high + Zeros(k)
    decreases low
  {
    if low == 0 {
      assert Zeros(0) + high + Zeros(k) == high + Zeros(k);
    } else {
      var r := Zeros(low) + high + Zeros(k - low);
      var s := Zeros(low - 1) + high + Zeros(k - (low - 1));
      forall i | 0 <= i < 16 ensures Shift(r, false)[i] == s[i] {
        ShiftAt(r, false, i);
      }
      assert Shift(r, false) == s;
      IdleMoves(high, low - 1, k);
    }
  }

  // Feeding a bit is adding it at the low end before an idle shift.
  lemma ShiftAbsorbs(r: Register, bits: Bits)
    requires 0 < |bits| <= 16
    ensures Shift(Xor(r, bits + Zeros(16 - |bits|)), false)
         == Xor(Shift(r, bits[0]), bits[1..] + Zeros(17 - |bits|))
  {
  }

  // Adding bits to the register up front is the same as feeding them one by one.
  lemma {:induction false} Absorb(r: Register, bits: Bits)
    requires |bits| <= 16
    ensures Idle(Xor(r, bits + Zeros(16 - |bits|)), |bits|) == Run(r, bits)
    decreases |bits|
  {
    hide Shift;
    if bits == [] {
      assert Xor(r, bits + Zeros(16)) == r;
    } else {
      ShiftAbsorbs(r, bits);
      Absorb(Shift(r, bits[0]), bits[1..]);
      RunConcat(r, [bits[0]], bits[1..]);
      assert bits == [bits[0]] + bits[1..];
      RunAppend(r, [], bits[0]);
      assert [] + [bits[0]] == [bits[0]];
    }
  }

  // The table-driven update is eight steps of the bit-wise register.
  lemma ByteStepIsEightShifts(r: Register, b: byte)
    ensures ByteStep(r, b) == Run(r, ByteBits(b))
  {
    hide Shift, Run, Idle, ByteBits;
    var bits := ByteBits(b);
    Absorb(r, bits);
    var low, high := Xor(r[..8], bits) + Zeros(8), Zeros(8) + r[8..];
    assert Xor(r, bits + Zeros(8)) == Xor(low, high);
    IdleLinear(low, high, 8);
    IdleMoves(r[8..], 8, 8);
    assert Zeros(8) + r[8..] + Zeros(0) == high;
  }

  lemma ChecksumAppend(bytes: seq<byte>, b: byte)
    ensures Checksum(bytes + [b]) == ByteStep(Checksum(bytes), b)
  {
    hide Run, ByteStep, ByteBits;
    assert (bytes + [b])[..|bytes|] == bytes;
    RunConcat(Zeros(16), BitsOf(bytes), ByteBits(b));
    ByteStepIsEightShifts(Checksum(bytes), b);
  }

  // calculateCrc: the byte loop of the library, one table lookup for each byte.
  method CalculateCrc(buffer: seq<byte>) returns (crc: Register)
    ensures crc == Checksum(buffer)
  {
    hide Shift, ByteStep;
    crc := Zeros(16);
    for i := 0 to |buffer|
      invariant crc == Checksum(buffer[..i])
    {
      ChecksumAppend(buffer[..i], buffer[i]);
      assert buffer[..i + 1] == buffer[..i] + [buffer[i]];
      crc := ByteStep(crc, buffer[i]);
    }
    assert buffer[..|buffer|] == buffer;
  }

  // ----- the checksum is a polynomial remainder -----

  // The register after a message is the remainder of message * x^16 divided by the
  // generator: one more message bit multiplies by x, adds the bit at x^16 and takes the
  // generator off if x^16 appears.
  lemma {:induction false} RunDivides(message: Bits) returns (quotient: Bits)
    ensures Divides(message, quotient, Run(Zeros(16), message))
  {
    hide Shift, Divides, Product, Generator;
    if message == [] {
      quotient := [];
      DividesNothing();
    } else {
      var n := |message| - 1;
      var q := RunDivides(message[..n]);
      var r := Run(Zeros(16), message[..n]);
      quotient := DivideStep(message[..n], q, r, message[n]);
      assert message[..n] + [message[n]] == message;
    }
  }

  lemma DividesNothing()
    ensures Divides([], [], Zeros(16))
  {
  }

  lemma DivideStep(message: Bits, q: Bits, r: Register, bit: bool) returns (quotient: Bits)
    requires Divides(message, q, r)
    ensures Divides(message + [bit], quotient, Shift(r, bit))
  {
    hide Shift, Product, Generator;
    var n := |message|;
    quotient := q + [r[0] != bit];
    assert quotient[..n] == q;
    var s := Shift(r, bit);
    var left, right := message + [bit] + Zeros(16), Zeros(n + 1) + s;
    var product := Product(quotient, Generator());
    forall i | 0 <= i < n + 17 ensures left[i] == (product[i] != right[i]) {
      ProductAt(quotient, Generator(), i);
      DividesAt(message, q, r, i);
      assert left[i] == ((i < n && message[i]) || (i == n && bit));
      assert right[i] == (i > n && s[i - n - 1]);
      if i > n {
        ShiftAt(r, bit, i - n - 1);
        GeneratorBits(i - n);
      }
    }
    assert left == Xor(product, right);
  }

  lemma DividesAt(message: Bits, q: Bits, r: Bits, i: nat)
    requires Divides(message, q, r)
    ensures i < |message| + 16 ==>
      (i < |message| && message[i])
      == (Product(q, Generator())[i] != (i >= |message| && r[i - |message|]))
  {
    if i < |message| + 16 {
      assert (message + Zeros(16))[i] == (Product(q, Generator())[i] != (Zeros(|message|) + r)[i]);
    }
  }

  // The feedback word is the generator without its leading power.
  lemma GeneratorBits(i: nat)
    requires 0 < i <= 16
    ensures Generator()[0] && Generator()[i] == Feedback()[i - 1]
  {
  }

  // A register is the checksum of a frame exactly when it is the remainder of the
  // frame's bits divided by the generator.
  lemma ChecksumIsRemainder(bytes: seq<byte>, r: Register)
    ensures r == Checksum(bytes) <==> IsRemainder(BitsOf(bytes), r)
  {
    var q := RunDivides(BitsOf(bytes));
    if IsRemainder(BitsOf(bytes), r) {
      RemainderUnique(BitsOf(bytes), r, Checksum(bytes));
    }
  }

  // ----- algebra -----

  lemma {:induction false} RunLinear(r: Register, s: Register, a: Bits, b: Bits)
    requires |a| == |b|
    ensures Run(Xor(r, s), Xor(a, b)) == Xor(Run(r, a), Run(s, b))
  {
    hide Shift;
    if a != [] {
      var n := |a| - 1;
      RunLinear(r, s, a[..n], b[..n]);
      assert Xor(a, b)[..n] == Xor(a[..n], b[..n]);
      ShiftLinear(Run(r, a[..n]), Run(s, b[..n]), a[n], b[n]);
    }
  }

  // The checksum is linear over exclusive-or of equally long frames.
  lemma ChecksumLinear(a: seq<byte>, b: seq<byte>, c: seq<byte>)
    requires |a| == |b| == |c|
    requires BitsOf(c) == Xor(BitsOf(a), BitsOf(b))
    ensures Checksum(c) == Xor(Checksum(a), Checksum(b))
  {
    RunLinear(Zeros(16), Zeros(16), BitsOf(a), BitsOf(b));
    assert Xor(Zeros(16), Zeros(16)) == Zeros(16);
  }

  // The inverse of a zero-input step.
  function Unshift(s: Register): (r: Register)
  {
    [s[15]] + Xor(s, Scale(s[15], Feedback()))[..15]
  }

  lemma ShiftBijective(r: Register)
    ensures Unshift(Shift(r, false)) == r
    ensures Shift(Unshift(r), false) == r
  {
    var s := Shift(r, false);
    ShiftAt(r, false, 15);
    forall i | 0 <= i < 16 ensures Unshift(s)[i] == r[i] {
      if i > 0 { ShiftAt(r, false, i - 1); }
    }
    forall i | 0 <= i < 16 ensures Shift(Unshift(r), false)[i] == r[i] {
      ShiftAt(Unshift(r), false, i);
    }
  }

  lemma {:induction false} ZeroInput(r: Register, n: nat)
    ensures Run(Zeros(16), Zeros(n)) == Zeros(16)
    ensures Run(r, Zeros(n)) == Zeros(16) ==> r == Zeros(16)
  {
    if n > 0 {
      assert Zeros(n)[..n - 1] == Zeros(n - 1);
      ZeroInput(r, n - 1);
      var t := Run(r, Zeros(n - 1));
      assert Shift(Zeros(16), false) == Zeros(16);
      ShiftBijective(t);
      ShiftBijective(Zeros(16));
    }
  }

  // ----- burst detection -----

  // a and b differ, and only inside a window of at most 16 consecutive bits.
  ghost predicate BurstError(a: seq<byte>, b: seq<byte>, start: nat)
  {
    && |a| == |b|
    && a != b
    && forall i :: 0 <= i < 8 * |a| && !(start <= i < start + 16) ==> BitsOf(a)[i] == BitsOf(b)[i]
  }

  // A burst between quiet stretches that leaves the register clear was no burst.
  lemma QuietBurst(before: nat, burst: Bits, after: nat)
    requires |burst| <= 16
    requires Run(Zeros(16), Zeros(before) + burst + Zeros(after)) == Zeros(16)
    ensures burst == Zeros(|burst|)
  {
    RunConcat(Zeros(16), Zeros(before) + burst, Zeros(after));
    RunConcat(Zeros(16), Zeros(before), burst);
    ZeroInput(Zeros(16), before);
    ZeroInput(Run(Zeros(16), burst), after);
    var q := RunDivides(burst);
    ShortMessageHasRemainder(burst);
  }

  lemma BurstShape(d: Bits, start: nat) returns (before: nat, burst: Bits, after: nat)
    requires forall i :: 0 <= i < |d| && !(start <= i < start + 16) ==> !d[i]
    ensures |burst| <= 16 && d == Zeros(before) + burst + Zeros(after)
  {
    before := if start < |d| then start else |d|;
    var end := if start + 16 < |d| then start + 16 else |d|;
    burst := d[before..end];
    after := |d| - end;
  }

  // Any burst of at most 16 bits changes the checksum.
  lemma BurstDetected(a: seq<byte>, b: seq<byte>, start: nat)
    requires BurstError(a, b, start)
    ensures Checksum(a) != Checksum(b)
  {
    hide Run, BitsOf, Shift;
    if Checksum(a) == Checksum(b) {
      var d := Xor(BitsOf(a), BitsOf(b));
      RunLinear(Zeros(16), Zeros(16), BitsOf(a), BitsOf(b));
      XorSelf(Zeros(16));
      XorSelf(Checksum(a));
      var before, burst, after := BurstShape(d, start);
      QuietBurst(before, burst, after);
      XorZero(BitsOf(a), BitsOf(b), before, after);
      BitsInjective(a, b);
    }
  }

  lemma XorSelf(a: Bits)
    ensures Xor(a, a) == Zeros(|a|)
  {
  }

  lemma XorZero(a: Bits, b: Bits, before: nat, after: nat)
    requires |a| == |b| && before + after <= |a|
    requires Xor(a, b) == Zeros(before) + Zeros(|a| - before - after) + Zeros(after)
    ensures a == b
  {
  }

  // ----- known answers -----

  // The register with these bits.
  ghost function At(ones: set<nat>): (r: Register)
    ensures forall i :: 0 <= i < 16 ==> r[i] == (i in ones)
  {
    seq(16, i requires 0 <= i < 16 => i in ones)
  }

  lemma ShiftDown(ones: set<nat>, down: set<nat>)
    requires 0 !in ones && forall i: nat :: i in down <==> i + 1 in ones
    requires forall i: nat :: i in ones ==> i < 16
    ensures Shift(At(ones), false) == At(down)
  {
    forall i | 0 <= i < 16 ensures Shift(At(ones), false)[i] == At(down)[i] {
      ShiftAt(At(ones), false, i);
    }
  }

  lemma ShiftFeedback()
    ensures Shift(Zeros(16), true) == At({3, 10, 15})
    ensures Shift(At({0, 7, 12}), false) == At({3, 6, 10, 11, 15})
  {
    forall i | 0 <= i < 16 ensures Shift(Zeros(16), true)[i] == At({3, 10, 15})[i] {
      ShiftAt(Zeros(16), true, i);
    }
    forall i | 0 <= i < 16 ensures Shift(At({0, 7, 12}), false)[i] == At({3, 6, 10, 11, 15})[i] {
      ShiftAt(At({0, 7, 12}), false, i);
    }
  }

  // Bit 0 is the least significant.
  lemma NumberBits(bit: bool, bits: Bits)
    ensures Number([]) == 0 && Number([bit] + bits) == (if bit then 1 else 0) + 2 * Number(bits)
  {
    assert ([bit] + bits)[1..] == bits;
  }

  lemma OneByte(b: byte)
    ensures Checksum([b]) == Run(Zeros(16), ByteBits(b))
  {
    hide Shift, LowBits;
    assert [b][..0] == [];
    assert BitsOf([b]) == ByteBits(b);
  }

  lemma {:induction false} NoBits(k: nat)
    ensures LowBits(0, k) == Zeros(k)
  {
    if k > 0 {
      NoBits(k - 1);
    }
  }

  lemma {:induction false} TopBit(k: nat)
    ensures LowBits(Pow2(k), k + 1) == Zeros(k) + [true]
  {
    var p := Pow2(k);
    if k == 0 {
      assert p == 1 && LowBits(p, 1) == [true] + LowBits(p / 2, 0);
    } else {
      TopBit(k - 1);
      assert p == 2 * Pow2(k - 1) && p % 2 == 0 && p / 2 == Pow2(k - 1);
      assert LowBits(p, k + 1) == [false] + LowBits(p / 2, k);
      assert [false] + (Zeros(k - 1) + [true]) == Zeros(k) + [true];
    }
  }

  lemma EightBits(last: byte, first: byte, k: nat)
    requires k == 7 && last == 0x80 && first == 1
    ensures ByteBits(last) == Zeros(k) + [true] && ByteBits(first) == [true] + Zeros(k)
  {
    TopBit(k);
    PowerSeven(k);
    NoBits(k);
    assert LowBits(first, k + 1) == [first % 2 == 1] + LowBits(first / 2, k);
  }

  lemma PowerSeven(k: nat)
    requires k == 7
    ensures Pow2(k) == 128
  {
    assert Pow2(7) == 128;
  }

  lemma OneBit(r: Register, bit: bool)
    ensures Run(r, [bit]) == Shift(r, bit)
  {
    hide Shift;
    assert [bit][..0] == [];
  }

  lemma LastBit()
    ensures Checksum([0x80]) == At({3, 10, 15})
  {
    hide Shift, Run, Checksum, ByteBits;
    OneByte(0x80);
    EightBits(0x80, 0x01, 7);
    ZeroInput(Zeros(16), 7);
    RunAppend(Zeros(16), Zeros(7), true);
    ShiftFeedback();
  }

  lemma FirstBit()
    ensures Checksum([0x01]) == At({0, 3, 7, 8, 12})
  {
    hide Shift, Run, Checksum, ByteBits;
    OneByte(0x01);
    EightBits(0x80, 0x01, 7);
    OneBit(Zeros(16), true);
    ShiftFeedback();
    var m := [true];
    assert Run(Zeros(16), m) == At(Answer(0));
    for n := 0 to 7
      invariant m == [true] + Zeros(n)
      invariant Run(Zeros(16), m) == At(Answer(n))
    {
      RunAppend(Zeros(16), m, false);
      AnswerNext(n);
      m := m + [false];
    }
  }

  // The register after a one and n zeros.
  ghost function Answer(n: nat): set<nat>
  {
    if n == 0 then {3, 10, 15}
    else if n == 1 then {2, 9, 14}
    else if n == 2 then {1, 8, 13}
    else if n == 3 then {0, 7, 12}
    else if n == 4 then {3, 6, 10, 11, 15}
    else if n == 5 then {2, 5, 9, 10, 14}
    else if n == 6 then {1, 4, 8, 9, 13}
    else {0, 3, 7, 8, 12}
  }

  lemma AnswerNext(n: nat)
    requires n < 7
    ensures Shift(At(Answer(n)), false) == At(Answer(n + 1))
  {
    hide Shift;
    if n == 3 {
      ShiftFeedback();
    } else {
      ShiftDown(Answer(n), Answer(n + 1));
    }
  }

  // The checksums of the byte whose last bit in transmission order is set, 0x8408, and of
  // the one whose first bit is, 0x1189.
  lemma KnownAnswers()
    ensures forall i :: 0 <= i < 16 ==> Checksum([0x80])[i] == (i in {3, 10, 15})
    ensures forall i :: 0 <= i < 16 ==> Checksum([0x01])[i] == (i in {0, 3, 7, 8, 12})
  {
    hide Checksum;
    LastBit();
    FirstBit();
  }
}
