/** The controller's single reads and writes, which share the manager with the poll engine
    and find their answers again by correlation id. */
module OneShots {
  import opened Numbers
  import opened RegisterTypes
  import opened PduCodec
  import opened Transactions

  datatype Operation = NoOperation | Read(registerType: RegisterType) | WriteRegister | WriteCoil

  datatype Result =
    | RegistersRead(startAddress: int, registers: seq<u16>)
    | BitsRead(startAddress: int, bits: seq<bool>)
    | RegisterWritten(address: u16, value: u16)
    | CoilWritten(address: u16, on: bool)
    | OperationFailed

  datatype Controller = Controller(
    unitId: int,
    operation: Operation,
    startAddress: int,
    quantity: int,
    correlationId: nat,
    results: seq<Result>)

  datatype Request = ReadRegisters(registerType: RegisterType, startAddress: int, quantity: int)
                   | WriteSingleRegister(address: int, value: int)
                   | WriteSingleCoil(address: int, on: bool)

  function RequestPdu(request: Request): seq<byte> {
    match request
    case ReadRegisters(t, start, quantity) =>
      EncodeReadRequest(ReadFunctionCodeFor(t), Truncate16(start), Truncate16(quantity))
    case WriteSingleRegister(address, value) => EncodeWriteSingleRegisterRequest(Truncate16(address), Truncate16(value))
    case WriteSingleCoil(address, on) => EncodeWriteSingleCoilRequest(Truncate16(address), on)
  }

  /** What the controller remembers of its latest request. */
  function Remember(c: Controller, request: Request): Controller {
    match request
    case ReadRegisters(t, start, quantity) =>
      c.(operation := Read(t), startAddress := start, quantity := quantity, correlationId := c.correlationId + 1)
    case WriteSingleRegister(address, _) =>
      c.(operation := WriteRegister, startAddress := address, correlationId := c.correlationId + 1)
    case WriteSingleCoil(address, _) =>
      c.(operation := WriteCoil, startAddress := address, correlationId := c.correlationId + 1)
  }

  function UnitByte(c: Controller): u8 {
    c.unitId % 0x100
  }

  function ResultOf(c: Controller, pdu: seq<byte>): seq<Result> {
    match c.operation
    case NoOperation => []
    case Read(t) =>
      if IsBitType(t) then
        match DecodedBits(pdu, ReadFunctionCodeFor(t), Truncate16(c.quantity))
        case Ok(bits) => [BitsRead(c.startAddress, bits)]
        case _ => [OperationFailed]
      else
        (match DecodedRegisters(pdu, ReadFunctionCodeFor(t))
         case Ok(registers) => [RegistersRead(c.startAddress, registers)]
         case _ => [OperationFailed])
    case WriteRegister =>
      (match DecodedWrite(pdu, WRITE_SINGLE_REGISTER)
       case Ok(echo) => [RegisterWritten(echo.address, echo.value)]
       case _ => [OperationFailed])
    case WriteCoil =>
      (match DecodedWrite(pdu, WRITE_SINGLE_COIL)
       case Ok(echo) => [CoilWritten(echo.address, echo.value != 0)]
       case _ => [OperationFailed])
  }

  function ControllerResponse(c: Controller, correlationId: nat, pdu: seq<byte>): Controller {
    if correlationId != c.correlationId then c
    else c.(operation := NoOperation, results := c.results + ResultOf(c, pdu))
  }

  function ControllerFailure(c: Controller, correlationId: nat): Controller {
    if correlationId != c.correlationId then c
    else c.(operation := NoOperation, results := c.results + [OperationFailed])
  }
}
