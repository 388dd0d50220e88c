/** The bit-serial CRC-16 of Modbus RTU, and its algebra: the shift register is linear,
    loses nothing and keeps parity. */
module Crc16 {
  import opened Numbers

  /** The shift register. A wrapper around its 16 bits, so that a register that some
      function returned is a value of its own and not 16 unknown bits. */
  datatype Register = Register(bits: bv16)

  const INITIAL: Register := Register(0xFFFF)
  const CLEAR: Register := Register(0)

  function BitStep(r: Register): Register {
    if Odd(r) then Register((r.bits >> 1) ^ 0xA001) else Register(r.bits >> 1)
  }

  predicate Odd(r: Register) {
    r.bits & 1 != 0
  }

  function BitSteps(r: Register, n: nat): Register {
    if n == 0 then r else BitStep(BitSteps(r, n - 1))
  }

  function Load(r: Register, b: byte): Register {
    Register(r.bits ^ (b as bv16))
  }

  function ByteStep(r: Register, b: byte): Register {
    BitSteps(Load(r, b), 8)
  }

  /** The register after the bytes of `data`, started from `r`. */
  function Feed(r: Register, data: seq<byte>): Register {
    if data == [] then r
    else ByteStep(Feed(r, data[..|data| - 1]), data[|data| - 1])
  }

  function Crc(data: seq<byte>): bv16 {
    Feed(INITIAL, data).bits
  }

  // ----- the loops, in terms of shifting and exclusive or -----

  function Half(r: Register): Register {
    Register(r.bits >> 1)
  }

  const POLYNOMIAL: Register := Register(0xA001)

  function Plus(a: Register, b: Register): Register {
    Register(a.bits ^ b.bits)
  }

  method ComputeModbusCrc16(data: seq<byte>) returns (crc: bv16)
    ensures crc == Crc(data)
  {
    var register := INITIAL;
    for i := 0 to |data|
      invariant register == Feed(INITIAL, data[..i])
    {
      assert data[..i + 1][..i] == data[..i];
      register := Load(register, data[i]);
      ghost var loaded := register;
      for bit := 0 to 8
        invariant register == BitSteps(loaded, bit)
      {
        StepIsShift(register);
        var lsbSet := Odd(register);
        register := Half(register);
        if lsbSet {
          register := Plus(register, POLYNOMIAL);
        }
      }
    }
    assert data[..|data|] == data;
    crc := register.bits;
  }

  lemma StepIsShift(r: Register)
    ensures BitStep(r) == if Odd(r) then Plus(Half(r), POLYNOMIAL) else Half(r)
  {
  }

  // ----- the step is linear -----

  /** Byte-wise exclusive or: of two frames, the error pattern between them. */
  function Xor(a: seq<byte>, b: seq<byte>): (r: seq<byte>)
    requires |a| == |b|
    ensures |r| == |a|
  {
    seq(|a|, i requires 0 <= i < |a| => a[i] ^ b[i])
  }

  lemma HalfLinear(a: Register, b: Register)
    ensures Half(Plus(a, b)) == Plus(Half(a), Half(b))
  {
  }

  lemma OddLinear(a: Register, b: Register)
    ensures Odd(Plus(a, b)) <==> (Odd(a) != Odd(b))
  {
  }

  lemma PlusLeft(a: Register, b: Register, c: Register)
    ensures Plus(Plus(a, c), b) == Plus(Plus(a, b), c)
  {
  }

  lemma PlusRight(a: Register, b: Register, c: Register)
    ensures Plus(a, Plus(b, c)) == Plus(Plus(a, b), c)
  {
  }

  lemma PlusBoth(a: Register, b: Register, c: Register)
    ensures Plus(Plus(a, c), Plus(b, c)) == Plus(a, b)
  {
  }

  lemma BitStepLinear(a: Register, b: Register)
    ensures BitStep(Plus(a, b)) == Plus(BitStep(a), BitStep(b))
  {
    OddLinear(a, b);
    HalfLinear(a, b);
    StepIsShift(a);
    StepIsShift(b);
    StepIsShift(Plus(a, b));
    if Odd(a) {
      if Odd(b) {
        PlusBoth(Half(a), Half(b), POLYNOMIAL);
      } else {
        PlusLeft(Half(a), Half(b), POLYNOMIAL);
      }
    } else if Odd(b) {
      PlusRight(Half(a), Half(b), POLYNOMIAL);
    }
  }

  lemma {:induction false} BitStepsLinear(a: Register, b: Register, n: nat)
    ensures BitSteps(Plus(a, b), n) == Plus(BitSteps(a, n), BitSteps(b, n))
  {
    if n > 0 {
      BitStepsLinear(a, b, n - 1);
      BitStepLinear(BitSteps(a, n - 1), BitSteps(b, n - 1));
    }
  }

  lemma LoadLinear(a: Register, b: Register, x: byte, y: byte)
    ensures Load(Plus(a, b), x ^ y) == Plus(Load(a, x), Load(b, y))
  {
  }

  lemma ByteStepLinear(a: Register, b: Register, x: byte, y: byte)
    ensures ByteStep(Plus(a, b), x ^ y) == Plus(ByteStep(a, x), ByteStep(b, y))
  {
    LoadLinear(a, b, x, y);
    BitStepsLinear(Load(a, x), Load(b, y), 8);
  }

  lemma {:induction false} FeedLinear(c: Register, d: Register, a: seq<byte>, b: seq<byte>)
    requires |a| == |b|
    ensures Feed(Plus(c, d), Xor(a, b)) == Plus(Feed(c, a), Feed(d, b))
  {
    if a == [] {
      assert Xor(a, b) == [];
    } else {
      var last := |a| - 1;
      FeedLinear(c, d, a[..last], b[..last]);
      assert Xor(a, b)[..last] == Xor(a[..last], b[..last]);
      ByteStepLinear(Feed(c, a[..last]), Feed(d, b[..last]), a[last], b[last]);
    }
  }

  /** What the register says about a frame with an error in it: the fed error pattern is
      added to the fed frame. */
  lemma FeedOfError(start: Register, frame: seq<byte>, received: seq<byte>)
    requires |frame| == |received|
    ensures Feed(start, received) == Plus(Feed(start, frame), Feed(CLEAR, Xor(frame, received)))
  {
    var error := Xor(frame, received);
    FeedLinear(start, CLEAR, frame, error);
    assert Xor(frame, error) == received by {
      forall i | 0 <= i < |frame|
        ensures Xor(frame, error)[i] == received[i]
      {
        XorTwice(frame[i], received[i]);
      }
    }
    assert Plus(start, CLEAR) == start;
  }

  lemma XorTwice(a: byte, b: byte)
    ensures a ^ (a ^ b) == b
  {
  }

  // ----- the step loses nothing -----

  lemma BitStepClears(r: Register)
    ensures BitStep(r) == CLEAR <==> r == CLEAR
  {
  }

  lemma {:induction false} BitStepsClear(r: Register, n: nat)
    ensures BitSteps(r, n) == CLEAR <==> r == CLEAR
  {
    if n > 0 {
      BitStepsClear(r, n - 1);
      BitStepClears(BitSteps(r, n - 1));
    }
  }

  lemma {:induction false} BitStepsAdd(r: Register, m: nat, n: nat)
    ensures BitSteps(r, m + n) == BitSteps(BitSteps(r, m), n)
  {
    if n > 0 {
      BitStepsAdd(r, m, n - 1);
    }
  }

  lemma TwoSteps(r: Register)
    ensures BitSteps(r, 2) == BitStep(BitStep(r))
  {
    assert BitSteps(r, 1) == BitStep(r);
  }

  lemma EightSteps(r: Register)
    ensures BitSteps(r, 8) == BitStep(BitStep(BitStep(BitStep(BitStep(BitStep(BitStep(BitStep(r))))))))
  {
    BitStepsAdd(r, 2, 2);
    BitStepsAdd(r, 4, 2);
    BitStepsAdd(r, 6, 2);
    TwoSteps(r);
    TwoSteps(BitSteps(r, 2));
    TwoSteps(BitSteps(r, 4));
    TwoSteps(BitSteps(r, 6));
  }

  /** A byte equal to the low half of the register just shifts the high half down. */
  lemma LowHalfConsumed(r: Register, low: byte)
    requires low == LowHalf(r)
    ensures ByteStep(r, low) == Register(r.bits >> 8)
  {
    EightSteps(Load(r, low));
  }

  /** The two bytes that clear a register are its own halves, low half first. */
  lemma TrailerClears(r: Register, low: byte, high: byte)
    ensures ByteStep(ByteStep(r, low), high) == CLEAR
       <==> low == LowHalf(r) && high == HighHalf(r)
  {
    var wrong := low ^ LowHalf(r);
    var first := ByteStep(r, low);
    AfterFirstByte(r, low, wrong);
    BitStepsClear(Load(first, high), 8);
    LowByteLeavesHighBits(wrong);
    LoadedClear(r, low, high, wrong, ByteStep(CLEAR, wrong), first);
  }

  function LowHalf(r: Register): byte {
    (r.bits & 0xFF) as bv8
  }

  function HighHalf(r: Register): byte {
    (r.bits >> 8) as bv8
  }

  /** By linearity, the register after any first byte is the one after the right byte,
      plus what the wrong bits leave. */
  lemma AfterFirstByte(r: Register, low: byte, wrong: byte)
    requires wrong == low ^ LowHalf(r)
    ensures ByteStep(r, low) == Plus(Register(r.bits >> 8), ByteStep(CLEAR, wrong))
  {
    hide ByteStep, LowHalf;
    LowHalfConsumed(r, LowHalf(r));
    WrongBitsAdd(r, LowHalf(r), low, wrong);
  }

  lemma WrongBitsAdd(r: Register, own: byte, low: byte, wrong: byte)
    requires wrong == low ^ own
    ensures ByteStep(r, low) == Plus(ByteStep(r, own), ByteStep(CLEAR, wrong))
  {
    hide ByteStep;
    ByteStepLinear(r, CLEAR, own, wrong);
    SumWithNothing(r, own, low, wrong);
  }

  lemma SumWithNothing(r: Register, own: byte, low: byte, wrong: byte)
    requires wrong == low ^ own
    ensures own ^ wrong == low && Plus(r, CLEAR) == r
  {
  }

  lemma LoadedClear(r: Register, low: byte, high: byte, wrong: byte, rest: Register, first: Register)
    requires wrong == low ^ LowHalf(r)
    requires wrong == 0 ==> rest == CLEAR
    requires wrong != 0 ==> rest.bits >> 8 != 0
    requires first == Plus(Register(r.bits >> 8), rest)
    ensures Load(first, high) == CLEAR <==> low == LowHalf(r) && high == HighHalf(r)
  {
  }

  /** A wrong byte leaves a trace above the reach of the next one. */
  lemma LowByteLeavesHighBits(wrong: byte)
    ensures wrong == 0 ==> ByteStep(CLEAR, wrong) == CLEAR
    ensures wrong != 0 ==> ByteStep(CLEAR, wrong).bits >> 8 != 0
  {
    EightSteps(Load(CLEAR, wrong));
  }
}
