/** The four Modbus data regions and the function codes that reach them. */
module RegisterTypes {
  import opened Numbers

  datatype RegisterType = Coil | DiscreteInput | HoldingRegister | InputRegister

  const READ_COILS: byte := 0x01
  const READ_DISCRETE_INPUTS: byte := 0x02
  const READ_HOLDING_REGISTERS: byte := 0x03
  const READ_INPUT_REGISTERS: byte := 0x04
  const WRITE_SINGLE_COIL: byte := 0x05
  const WRITE_SINGLE_REGISTER: byte := 0x06
  const WRITE_MULTIPLE_COILS: byte := 0x0F
  const WRITE_MULTIPLE_REGISTERS: byte := 0x10

  const MAX_BITS_PER_READ_REQUEST: int := 2000
  const MAX_REGISTERS_PER_READ_REQUEST: int := 125

  predicate IsBitType(t: RegisterType) {
    t == Coil || t == DiscreteInput
  }

  function ReadFunctionCodeFor(t: RegisterType): byte {
    match t
    case Coil => READ_COILS
    case DiscreteInput => READ_DISCRETE_INPUTS
    case HoldingRegister => READ_HOLDING_REGISTERS
    case InputRegister => READ_INPUT_REGISTERS
  }

  function Ordinal(t: RegisterType): int {
    match t
    case Coil => 0
    case DiscreteInput => 1
    case HoldingRegister => 2
    case InputRegister => 3
  }
}
