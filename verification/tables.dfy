/** The lookup tables of the Modbus client tool: datatype choices, register
    counts, operation names, exception meanings and the word-order choice.
    Every table is total: a code outside the table falls back to a default. */
module Tables {

  /** The six register datatypes the tool offers. */
  datatype Datatype = INT16 | UINT16 | INT32 | UINT32 | FLOAT32 | FLOAT64

  /** Word order used when several 16-bit registers form one value. */
  datatype WordOrder = Big | Little

  /** The menu number under which each datatype is offered. */
  function DatatypeCode(d: Datatype): (code: int)
    ensures 1 <= code <= 6
  {
    match d
    case INT16 => 1
    case UINT16 => 2
    case INT32 => 3
    case UINT32 => 4
    case FLOAT32 => 5
    case FLOAT64 => 6
  }

  /** Number of 16-bit registers a value of datatype `d` occupies, from the
      width of the datatype itself. */
  function WordCount(d: Datatype): (n: nat)
    ensures n * 16 == BitWidth(d)
  {
    match d
    case INT16 | UINT16 => 1
    case INT32 | UINT32 | FLOAT32 => 2
    case FLOAT64 => 4
  }

  /** Width in bits of a datatype. */
  function BitWidth(d: Datatype): nat {
    match d
    case INT16 | UINT16 => 16
    case INT32 | UINT32 | FLOAT32 => 32
    case FLOAT64 => 64
  }

  /** Datatype for a menu number; any number outside 1..6 gives INT16. */
  function DatatypeOf(code: int): (d: Datatype)
    ensures 1 <= code <= 6 ==> DatatypeCode(d) == code
    ensures !(1 <= code <= 6) ==> d == INT16
  {
    match code
    case 1 => INT16
    case 2 => UINT16
    case 3 => INT32
    case 4 => UINT32
    case 5 => FLOAT32
    case 6 => FLOAT64
    case _ => INT16
  }

  /** The datatype menu is a bijection between 1..6 and the datatypes. */
  lemma DatatypeMenuBijective(d: Datatype, c1: int, c2: int)
    ensures DatatypeOf(DatatypeCode(d)) == d
    ensures 1 <= c1 <= 6 && 1 <= c2 <= 6 && DatatypeOf(c1) == DatatypeOf(c2) ==> c1 == c2
  {
  }

  /** Register count for a datatype menu number; any number outside 1..6 gives 1. */
  function RegisterCount(code: int): (n: nat)
    ensures n in {1, 2, 4}
    ensures n == WordCount(DatatypeOf(code))
  {
    match code
    case 1 => 1
    case 2 => 1
    case 3 => 2
    case 4 => 2
    case 5 => 2
    case 6 => 4
    case _ => 1
  }

  const UnknownOperation: string := "Unknown Operation"

  /** Display name of a tool operation number; outside 1..5 the name is
      "Unknown Operation". */
  function OperationName(op: int): (name: string)
    ensures name == UnknownOperation <==> !(1 <= op <= 5)
  {
    match op
    case 1 => "Read Coils"
    case 2 => "Read Input Registers"
    case 3 => "Write Single Register (FC 0x06)"
    case 4 => "Write Multiple Registers (FC 0x10)"
    case 5 => "Read Holding Registers"
    case _ => UnknownOperation
  }

  /** Distinct operations have distinct names. */
  lemma OperationNamesDistinct(op1: int, op2: int)
    requires 1 <= op1 <= 5 && 1 <= op2 <= 5 && op1 != op2
    ensures OperationName(op1) != OperationName(op2)
  {
  }

  /** The exception codes of section 7 of the MODBUS Application Protocol
      Specification V1.1b3 that the tool can name. */
  datatype ExceptionCode =
    | IllegalFunction
    | IllegalDataAddress
    | IllegalDataValue
    | SlaveDeviceFailure
    | Acknowledge
    | SlaveDeviceBusy
    | MemoryParityError
    | GatewayPathUnavailable
    | GatewayTargetDeviceFailed

  /** The numeric value of each exception code on the wire. */
  function ExceptionValue(e: ExceptionCode): (code: int)
    ensures 1 <= code <= 11 && code != 7 && code != 9
  {
    match e
    case IllegalFunction => 1
    case IllegalDataAddress => 2
    case IllegalDataValue => 3
    case SlaveDeviceFailure => 4
    case Acknowledge => 5
    case SlaveDeviceBusy => 6
    case MemoryParityError => 8
    case GatewayPathUnavailable => 10
    case GatewayTargetDeviceFailed => 11
  }

  const KnownExceptionCodes: set<int> := {1, 2, 3, 4, 5, 6, 8, 10, 11}

  const UnknownException: string := "Unknown Exception Code"

  /** Human-readable meaning of a Modbus exception code, as the tool prints it. */
  function ExceptionMeaning(code: int): (meaning: string)
    ensures meaning == UnknownException <==> code !in KnownExceptionCodes
  {
    match code
    case 1 => "Illegal Function"
    case 2 => "Illegal Data Address"
    case 3 => "Illegal Data Value"
    case 4 => "Slave Device Failure"
    case 5 => "Acknowledge"
    case 6 => "Slave Device Busy"
    case 8 => "Memory Parity Error"
    case 10 => "Gateway Path Unavailable"
    case 11 => "Gateway Target Device Failed to Respond"
    case _ => UnknownException
  }

  /** Every protocol exception code is in the tool's table and gets a
      meaning of its own there. */
  lemma ExceptionCodesNamed(e: ExceptionCode, e': ExceptionCode)
    ensures ExceptionValue(e) in KnownExceptionCodes
    ensures ExceptionMeaning(ExceptionValue(e)) != UnknownException
    ensures e != e' ==> ExceptionMeaning(ExceptionValue(e)) != ExceptionMeaning(ExceptionValue(e'))
  {
  }

  /** The table names no code other than the protocol's exception codes. */
  lemma ExceptionTableCoversProtocol(code: int)
    requires code in KnownExceptionCodes
    ensures exists e :: ExceptionValue(e) == code
  {
    var e := match code
      case 1 => IllegalFunction
      case 2 => IllegalDataAddress
      case 3 => IllegalDataValue
      case 4 => SlaveDeviceFailure
      case 5 => Acknowledge
      case 6 => SlaveDeviceBusy
      case 8 => MemoryParityError
      case 10 => GatewayPathUnavailable
      case _ => GatewayTargetDeviceFailed;
    assert ExceptionValue(e) == code;
  }

  /** The word-order choice: 2 selects little endian, 1 and every other
      input select big endian. */
  function SelectWordOrder(input: int): (w: WordOrder)
    ensures w == Little <==> input == 2
  {
    if input == 1 then Big
    else if input == 2 then Little
    else Big
  }
}
