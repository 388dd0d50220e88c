/** Which transmission errors leave a non-zero CRC, whatever the length of the frame. Bits
    are taken in the order the line carries them: byte by byte, least significant first. */
module CrcDetection {
  import opened Numbers
  import opened Bits
  import opened Crc16

  function ByteBits(b: byte): seq<bool> {
    seq(8, k requires 0 <= k < 8 => BitOf(b, k))
  }

  function FrameBits(frame: seq<byte>): seq<bool> {
    seq(8 * |frame|, n requires 0 <= n < 8 * |frame| => BitOf(frame[n / 8], n % 8))
  }

  lemma FrameBit(frame: seq<byte>, n: nat)
    requires n < 8 * |frame|
    ensures n / 8 < |frame| && FrameBits(frame)[n] == BitOf(frame[n / 8], n % 8)
  {
  }

  // ----- the register, fed bit by bit -----

  const ONE: Register := Register(1)

  function FeedBit(r: Register, bit: bool): Register {
    BitStep(if bit then Plus(r, ONE) else r)
  }

  function FeedBits(r: Register, bits: seq<bool>): Register
    decreases |bits|
  {
    if bits == [] then r else FeedBits(FeedBit(r, bits[0]), bits[1..])
  }

  lemma {:induction false} FeedBitsAppend(r: Register, a: seq<bool>, b: seq<bool>)
    ensures FeedBits(r, a + b) == FeedBits(FeedBits(r, a), b)
    decreases |a|
  {
    if a == [] {
      assert a + b == b;
    } else {
      FeedBitsAppend(FeedBit(r, a[0]), a[1..], b);
      assert (a + b)[1..] == a[1..] + b;
    }
  }

  /** Up to sixteen bits as one register, the first bit lowest. */
  function Word(bits: seq<bool>): Register {
    if bits == [] then CLEAR else Push(Word(bits[1..]), bits[0])
  }

  function Push(r: Register, bit: bool): Register {
    Register((r.bits << 1) | (if bit then 1 else 0))
  }

  function HalfN(r: Register, n: nat): Register
    decreases n
  {
    if n == 0 then r else HalfN(Half(r), n - 1)
  }

  lemma {:induction false} HalfNAdd(r: Register, m: nat, n: nat)
    ensures HalfN(r, m + n) == HalfN(HalfN(r, m), n)
    decreases m
  {
    if m > 0 {
      HalfNAdd(Half(r), m - 1, n);
    }
  }

  lemma HalfNOfClear(n: nat)
    ensures HalfN(CLEAR, n) == CLEAR
  {
    if n > 0 {
      assert Half(CLEAR) == CLEAR;
      HalfNOfClear(n - 1);
    }
  }

  lemma HalfFive(r: Register)
    ensures HalfN(r, 5) == Register(r.bits >> 5)
  {
    var r1 := Half(r);
    var r2 := Half(r1);
    var r3 := Half(r2);
    var r4 := Half(r3);
    assert HalfN(r4, 1) == Half(r4);
    assert HalfN(r2, 3) == Half(r4);
  }

  lemma HalfFifteen(r: Register)
    ensures HalfN(r, 15) == Register(r.bits >> 15)
    ensures HalfN(r, 16) == CLEAR
  {
    HalfFive(r);
    var r5 := Register(r.bits >> 5);
    HalfFive(r5);
    var r10 := Register(r5.bits >> 5);
    HalfFive(r10);
    HalfNAdd(r, 5, 5);
    HalfNAdd(r, 10, 5);
    HalfNAdd(r, 15, 1);
    assert HalfN(Register(r.bits >> 15), 1) == Half(Register(r.bits >> 15));
  }

  /** Fewer than sixteen bits leave the top bit free. */
  lemma {:induction false} WordFits(bits: seq<bool>)
    requires |bits| <= 15
    ensures HalfN(Word(bits), |bits|) == CLEAR
    ensures Word(bits).bits & 0x8000 == 0
  {
    hide Half, Push;
    if bits != [] {
      WordFits(bits[1..]);
      HalfPush(Word(bits[1..]), bits[0]);
    }
    HalfNAdd(Word(bits), |bits|, 15 - |bits|);
    HalfNOfClear(15 - |bits|);
    HalfFifteen(Word(bits));
    TopBit(Word(bits));
  }

  lemma TopBit(r: Register)
    requires Register(r.bits >> 15) == CLEAR
    ensures r.bits & 0x8000 == 0
  {
  }

  lemma HalfPush(r: Register, bit: bool)
    requires r.bits & 0x8000 == 0
    ensures Half(Push(r, bit)) == r
    ensures Odd(Push(r, bit)) == bit
  {
  }

  lemma {:induction false} WordClear(bits: seq<bool>)
    requires |bits| <= 16
    ensures Word(bits) == CLEAR <==> forall k :: 0 <= k < |bits| ==> !bits[k]
  {
    if bits != [] {
      WordClear(bits[1..]);
      WordFits(bits[1..]);
      HalfPush(Word(bits[1..]), bits[0]);
      assert Half(CLEAR) == CLEAR && !Odd(CLEAR);
      assert forall k :: 1 <= k < |bits| ==> bits[k] == bits[1..][k - 1];
      PushClear(Word(bits[1..]), bits[0]);
    }
  }

  lemma PushClear(r: Register, bit: bool)
    requires r.bits & 0x8000 == 0
    ensures Push(r, bit) == CLEAR <==> r == CLEAR && !bit
  {
  }

  /** Feeding up to sixteen bits one at a time is loading them at once and then shifting. */
  lemma {:induction false} FeedBitsIsLoad(r: Register, bits: seq<bool>)
    requires |bits| <= 16
    ensures FeedBits(r, bits) == BitSteps(Plus(r, Word(bits)), |bits|)
    decreases |bits|
  {
    if bits == [] {
      assert Plus(r, CLEAR) == r;
    } else {
      var rest, n := bits[1..], |bits| - 1;
      WordFits(rest);
      FirstBit(r, Word(rest), bits[0]);
      FeedBitsIsLoad(FeedBit(r, bits[0]), rest);
      BitStepsAdd(Plus(r, Word(bits)), 1, n);
      assert BitSteps(Plus(r, Word(bits)), 1) == BitStep(Plus(r, Word(bits))) by {
        assert BitSteps(Plus(r, Word(bits)), 0) == Plus(r, Word(bits));
      }
    }
  }

  /** One shift consumes the lowest loaded bit and moves the others down. */
  lemma FirstBit(r: Register, rest: Register, bit: bool)
    requires rest.bits & 0x8000 == 0
    ensures BitStep(Plus(r, Push(rest, bit))) == Plus(FeedBit(r, bit), rest)
  {
    var shifted := Push(rest, false);
    HalfPush(rest, false);
    StepIsShift(shifted);
    if bit {
      PushPlusOne(r, rest);
      BitStepLinear(Plus(r, ONE), shifted);
    } else {
      BitStepLinear(r, shifted);
    }
  }

  lemma PushPlusOne(r: Register, rest: Register)
    ensures Plus(r, Push(rest, true)) == Plus(Plus(r, ONE), Push(rest, false))
  {
  }

  // ----- bytes and frames as bit streams -----

  lemma ByteAsWord(b: byte)
    ensures Word(ByteBits(b)) == Register(b as bv16)
  {
    var w := ByteBits(b);
    assert w[1..][1..] == w[2..] && w[2..][1..] == w[3..] && w[3..][1..] == w[4..];
    assert w[4..][1..] == w[5..] && w[5..][1..] == w[6..] && w[6..][1..] == w[7..] && w[7..][1..] == [];
    assert Word(w[7..]) == Push(CLEAR, w[7]);
    assert Word(w[6..]) == Push(Push(CLEAR, w[7]), w[6]);
    assert Word(w[4..]) == Push(Push(Word(w[6..]), w[5]), w[4]);
    assert Word(w[2..]) == Push(Push(Word(w[4..]), w[3]), w[2]);
    assert Word(w) == Push(Push(Word(w[2..]), w[1]), w[0]);
  }

  lemma ByteStepIsFeedBits(r: Register, b: byte)
    ensures ByteStep(r, b) == FeedBits(r, ByteBits(b))
  {
    ByteAsWord(b);
    LoadIsPlus(r, b);
    FeedBitsIsLoad(r, ByteBits(b));
    ByteStepShifts(r, b, |ByteBits(b)|);
  }

  lemma LoadIsPlus(r: Register, b: byte)
    ensures Load(r, b) == Plus(r, Register(b as bv16))
  {
  }

  lemma ByteStepShifts(r: Register, b: byte, n: nat)
    requires n == 8
    ensures ByteStep(r, b) == BitSteps(Load(r, b), n)
  {
  }

  lemma FrameBitsSnoc(frame: seq<byte>)
    requires frame != []
    ensures FrameBits(frame) == FrameBits(frame[..|frame| - 1]) + ByteBits(frame[|frame| - 1])
  {
  }

  lemma {:induction false} FeedIsFeedBits(r: Register, frame: seq<byte>)
    ensures Feed(r, frame) == FeedBits(r, FrameBits(frame))
  {
    if frame != [] {
      var last := |frame| - 1;
      FeedIsFeedBits(r, frame[..last]);
      FrameBitsSnoc(frame);
      FeedBitsAppend(r, FrameBits(frame[..last]), ByteBits(frame[last]));
      ByteStepIsFeedBits(Feed(r, frame[..last]), frame[last]);
    }
  }

  // ----- burst errors -----

  /** A run of zero bits leaves an empty register empty and a non-empty one non-empty. */
  lemma {:induction false} FeedZeros(r: Register, bits: seq<bool>)
    requires forall k :: 0 <= k < |bits| ==> !bits[k]
    ensures FeedBits(r, bits) == CLEAR <==> r == CLEAR
    decreases |bits|
  {
    if bits != [] {
      BitStepClears(r);
      assert FeedBit(r, bits[0]) == BitStep(r);
      FeedZeros(BitStep(r), bits[1..]);
    }
  }

  /** An error pattern whose set bits all lie in one window of sixteen, not all clear,
      leaves a non-empty register. */
  lemma BurstLeavesTrace(error: seq<bool>, first: nat)
    requires first + 16 <= |error|
    requires forall k :: 0 <= k < |error| && error[k] ==> first <= k < first + 16
    requires exists k :: 0 <= k < |error| && error[k]
    ensures FeedBits(CLEAR, error) != CLEAR
  {
    var before, window, after := error[..first], error[first..first + 16], error[first + 16..];
    assert error == (before + window) + after;
    FeedBitsAppend(CLEAR, before + window, after);
    FeedBitsAppend(CLEAR, before, window);
    FeedZeros(CLEAR, before);
    FeedZeros(FeedBits(CLEAR, before + window), after);
    var k :| 0 <= k < |error| && error[k];
    assert window[k - first];
    WindowLeavesTrace(window);
  }

  lemma WindowLeavesTrace(window: seq<bool>)
    requires |window| <= 16
    requires exists k :: 0 <= k < |window| && window[k]
    ensures FeedBits(CLEAR, window) != CLEAR
  {
    FeedBitsIsLoad(CLEAR, window);
    assert Plus(CLEAR, Word(window)) == Word(window);
    BitStepsClear(Word(window), |window|);
    WordClear(window);
  }

  // ----- errors in an odd number of bits -----

  function BitAt(r: Register, k: nat): bool {
    Odd(HalfN(r, k))
  }

  /** Whether the lowest n bits hold an odd number of ones. */
  function ParityN(r: Register, n: nat): bool {
    if n == 0 then false else ParityN(r, n - 1) != BitAt(r, n - 1)
  }

  lemma {:induction false} HalfNLinear(a: Register, b: Register, n: nat)
    ensures HalfN(Plus(a, b), n) == Plus(HalfN(a, n), HalfN(b, n))
    decreases n
  {
    if n > 0 {
      HalfLinear(a, b);
      HalfNLinear(Half(a), Half(b), n - 1);
    }
  }

  lemma BitAtLinear(a: Register, b: Register, k: nat)
    ensures BitAt(Plus(a, b), k) == (BitAt(a, k) != BitAt(b, k))
  {
    HalfNLinear(a, b, k);
    OddLinear(HalfN(a, k), HalfN(b, k));
  }

  lemma {:induction false} ParityNLinear(a: Register, b: Register, n: nat)
    ensures ParityN(Plus(a, b), n) == (ParityN(a, n) != ParityN(b, n))
  {
    if n > 0 {
      ParityNLinear(a, b, n - 1);
      BitAtLinear(a, b, n - 1);
    }
  }

  /** Halving loses the lowest bit and nothing else. */
  lemma {:induction false} ParityNOfHalf(r: Register, n: nat)
    ensures ParityN(r, n + 1) == (ParityN(Half(r), n) != Odd(r))
  {
    if n == 0 {
      assert ParityN(r, 1) == (ParityN(r, 0) != BitAt(r, 0));
    } else {
      ParityNOfHalf(r, n - 1);
      assert BitAt(r, n) == BitAt(Half(r), n - 1);
    }
  }

  lemma ParityOfHalf(r: Register, n: nat)
    requires n == 16
    ensures ParityN(Half(r), n) == (ParityN(r, n) != Odd(r))
  {
    ParityNOfHalf(r, n);
    HalfFifteen(r);
    assert !Odd(CLEAR);
    assert ParityN(r, n + 1) == (ParityN(r, n) != BitAt(r, n));
  }

  /** 0xA001 has three ones. */
  lemma ParityOfPolynomial()
    ensures ParityN(POLYNOMIAL, 16)
  {
    ParityNOfHalf(Register(1), 0);
    ParityNOfHalf(Register(2), 1);
    ParityNOfHalf(Register(5), 2);
    EvenParity(Register(0xA), 3);
    EvenParity(Register(0x14), 4);
    EvenParity(Register(0x28), 5);
    EvenParity(Register(0x50), 6);
    EvenParity(Register(0xA0), 7);
    EvenParity(Register(0x140), 8);
    EvenParity(Register(0x280), 9);
    EvenParity(Register(0x500), 10);
    EvenParity(Register(0xA00), 11);
    EvenParity(Register(0x1400), 12);
    EvenParity(Register(0x2800), 13);
    EvenParity(Register(0x5000), 14);
    ParityNOfHalf(POLYNOMIAL, 15);
  }

  lemma EvenParity(r: Register, n: nat)
    requires !Odd(r)
    ensures ParityN(r, n + 1) == ParityN(Half(r), n)
  {
    ParityNOfHalf(r, n);
  }

  lemma ParityOfClear(n: nat)
    ensures !ParityN(CLEAR, n)
  {
    if n > 0 {
      HalfNOfClear(n - 1);
      assert !Odd(CLEAR);
      ParityOfClear(n - 1);
    }
  }

  lemma BitStepKeepsParity(r: Register, n: nat)
    requires n == 16
    ensures ParityN(BitStep(r), n) == ParityN(r, n)
  {
    ParityOfHalf(r, n);
    StepIsShift(r);
    if Odd(r) {
      ParityNLinear(Half(r), POLYNOMIAL, n);
      ParityOfPolynomial();
    }
  }

  lemma ParityOfOne(n: nat)
    ensures ParityN(ONE, n + 1)
  {
    ParityNOfHalf(ONE, n);
    assert Half(ONE) == CLEAR;
    ParityOfClear(n);
  }

  lemma FeedBitParity(r: Register, bit: bool, n: nat)
    requires n == 16
    ensures ParityN(FeedBit(r, bit), n) == (ParityN(r, n) != bit)
  {
    if bit {
      ParityNLinear(r, ONE, n);
      ParityOfOne(n - 1);
      BitStepKeepsParity(Plus(r, ONE), n);
    } else {
      BitStepKeepsParity(r, n);
    }
  }

  /** How many bits are set. */
  function Ones(bits: seq<bool>): nat {
    if bits == [] then 0 else (if bits[0] then 1 else 0) + Ones(bits[1..])
  }

  lemma {:induction false} FeedBitsParity(r: Register, bits: seq<bool>, n: nat)
    requires n == 16
    ensures ParityN(FeedBits(r, bits), n) == (ParityN(r, n) != (Ones(bits) % 2 == 1))
    decreases |bits|
  {
    if bits != [] {
      FeedBitParity(r, bits[0], n);
      FeedBitsParity(FeedBit(r, bits[0]), bits[1..], n);
    }
  }

  /** An error pattern with an odd number of set bits leaves a non-empty register. */
  lemma OddErrorLeavesTrace(error: seq<bool>)
    requires Ones(error) % 2 == 1
    ensures FeedBits(CLEAR, error) != CLEAR
  {
    FeedBitsParity(CLEAR, error, 16);
    ParityOfClear(16);
  }

  // ----- the difference between two frames -----

  function Difference(sent: seq<byte>, received: seq<byte>): seq<bool>
    requires |sent| == |received|
  {
    seq(8 * |sent|, n requires 0 <= n < 8 * |sent| => FrameBits(sent)[n] != FrameBits(received)[n])
  }

  lemma DifferenceIsXor(sent: seq<byte>, received: seq<byte>)
    requires |sent| == |received|
    ensures Difference(sent, received) == FrameBits(Xor(sent, received))
  {
    forall n | 0 <= n < 8 * |sent|
      ensures Difference(sent, received)[n] == FrameBits(Xor(sent, received))[n]
    {
      DifferenceAt(sent, received, n);
    }
  }

  lemma DifferenceAt(sent: seq<byte>, received: seq<byte>, n: nat)
    requires |sent| == |received| && n < 8 * |sent|
    ensures Difference(sent, received)[n] == FrameBits(Xor(sent, received))[n]
  {
    hide BitOf;
    FrameBit(sent, n);
    FrameBit(received, n);
    FrameBit(Xor(sent, received), n);
    BitOfXor(sent[n / 8], received[n / 8], n % 8);
  }

  /** Two frames of one length that both leave the register empty differ by a pattern that does. */
  lemma ReceivedRegister(sent: seq<byte>, received: seq<byte>)
    requires |sent| == |received|
    requires Feed(INITIAL, sent) == CLEAR
    ensures Feed(INITIAL, received) == FeedBits(CLEAR, Difference(sent, received))
  {
    FeedOfError(INITIAL, sent, received);
    DifferenceIsXor(sent, received);
    FeedIsFeedBits(CLEAR, Xor(sent, received));
    ClearPlus(Feed(CLEAR, Xor(sent, received)));
  }

  lemma ClearPlus(r: Register)
    ensures Plus(CLEAR, r) == r
  {
  }
}
