/** The example the serial-line specification gives, and the CRC of nothing. They tie the
    register algebra to the one polynomial that Modbus uses. */
module CrcExamples {
  import opened Numbers
  import opened Crc16

  lemma Byte0()
    ensures ByteStep(Register(0xFFFF), 0x01) == Register(0x807E)
  {
    EightSteps(Load(Register(0xFFFF), 0x01));
  }

  lemma Byte1()
    ensures ByteStep(Register(0x807E), 0x03) == Register(0x2140)
  {
    EightSteps(Load(Register(0x807E), 0x03));
  }

  lemma Byte2()
    ensures ByteStep(Register(0x2140), 0x00) == Register(0xF020)
  {
    EightSteps(Load(Register(0x2140), 0x00));
  }

  lemma Byte3()
    ensures ByteStep(Register(0xF020), 0x00) == Register(0xD8F1)
  {
    EightSteps(Load(Register(0xF020), 0x00));
  }

  lemma Byte4()
    ensures ByteStep(Register(0xD8F1), 0x00) == Register(0x8419)
  {
    EightSteps(Load(Register(0xD8F1), 0x00));
  }

  lemma Byte5()
    ensures ByteStep(Register(0x8419), 0x0A) == Register(0xCDC5)
  {
    EightSteps(Load(Register(0x8419), 0x0A));
  }

  /** Reading ten holding registers from unit 1, starting at address 0. */
  lemma KnownVector()
    ensures Crc([0x01, 0x03, 0x00, 0x00, 0x00, 0x0A]) == 0xCDC5
    ensures Crc([]) == 0xFFFF
  {
    var message: seq<byte> := [0x01, 0x03, 0x00, 0x00, 0x00, 0x0A];
    Byte0();
    Byte1();
    Byte2();
    Byte3();
    Byte4();
    Byte5();
    assert message[..0] == [];
    FeedPrefix(message, 0);
    FeedPrefix(message, 1);
    FeedPrefix(message, 2);
    FeedPrefix(message, 3);
    FeedPrefix(message, 4);
    FeedPrefix(message, 5);
    assert message[..6] == message;
  }

  lemma FeedPrefix(message: seq<byte>, i: nat)
    requires i < |message|
    ensures Feed(INITIAL, message[..i + 1]) == ByteStep(Feed(INITIAL, message[..i]), message[i])
  {
    assert message[..i + 1][..i] == message[..i];
  }
}
