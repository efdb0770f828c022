/** What the operation loop of the client tool does with an accepted setup:
    which operations read and which write, the Modbus request each operation
    sends, the menu choices, and the keys that stop a running operation. */
module Dispatch {
  import opened Wrappers
  import opened Tables
  import opened Config

  /** Operations 1, 2 and 5 read from the device. */
  predicate IsRead(op: int) {
    op in {1, 2, 5}
  }

  /** Operations 3 and 4 write to the device. */
  predicate IsWrite(op: int) {
    op in {3, 4}
  }

  /** The reads and the writes are disjoint and together are exactly the
      operations the validator accepts. */
  lemma ReadWritePartition(c: Config, op: int)
    ensures !(IsRead(op) && IsWrite(op))
    ensures IsRead(op) || IsWrite(op) <==> 1 <= op <= 5
    ensures CheckInputs(c) ==> IsRead(c.operation.value) || IsWrite(c.operation.value)
  {
  }

  /** The unit every read is addressed to, whatever unit id was configured. */
  const ReadUnit: int := 1

  /** The requests the tool sends, with the arguments it passes. */
  datatype Request =
    | ReadCoils(address: int, count: nat, unit: int)
    | ReadInputRegisters(address: int, count: nat, unit: int)
    | ReadHoldingRegisters(address: int, count: nat, unit: int)
    | WriteRegister(address: int, value: int, unit: int)
    | WriteRegisters(address: int, values: seq<int>, unit: int)
  {
    predicate IsReadRequest() {
      ReadCoils? || ReadInputRegisters? || ReadHoldingRegisters?
    }
  }

  /** Function code of each request, as assigned in sections 6.1, 6.3, 6.4,
      6.6 and 6.12 of the MODBUS Application Protocol Specification V1.1b3. */
  function FunctionCode(r: Request): (fc: nat)
    ensures fc in SentFunctionCodes
  {
    match r
    case ReadCoils(_, _, _) => 0x01
    case ReadHoldingRegisters(_, _, _) => 0x03
    case ReadInputRegisters(_, _, _) => 0x04
    case WriteRegister(_, _, _) => 0x06
    case WriteRegisters(_, _, _) => 0x10
  }

  /** The function codes the tool sends. */
  const SentFunctionCodes: set<int> := {0x01, 0x03, 0x04, 0x06, 0x10}

  /** The tool operation that sends a given function code, if any. */
  function OperationOfFunctionCode(fc: int): (op: Option<int>)
    ensures op.Some? <==> fc in SentFunctionCodes
    ensures op.Some? ==> 1 <= op.value <= 5
  {
    match fc
    case 0x01 => Some(1)
    case 0x04 => Some(2)
    case 0x06 => Some(3)
    case 0x10 => Some(4)
    case 0x03 => Some(5)
    case _ => None
  }

  /** Distinct function codes belong to distinct operations, and every
      operation 1..5 sends one of them. */
  lemma FunctionCodesDistinct(fc1: int, fc2: int, op: int)
    ensures fc1 in SentFunctionCodes && fc2 in SentFunctionCodes && fc1 != fc2 ==>
      OperationOfFunctionCode(fc1) != OperationOfFunctionCode(fc2)
    ensures 1 <= op <= 5 ==> exists fc :: fc in SentFunctionCodes && OperationOfFunctionCode(fc) == Some(op)
  {
    if 1 <= op <= 5 {
      var fc := match op
        case 1 => 0x01
        case 2 => 0x04
        case 3 => 0x06
        case 4 => 0x10
        case _ => 0x03;
      assert OperationOfFunctionCode(fc) == Some(op);
    }
  }

  /** The request an accepted setup sends. `payload` holds the register words
      the library's value conversion produced for a write (unused by reads).
      A single-register write with an empty payload fails (None): the tool
      indexes the first word and the error is caught by the menu loop. */
  function Plan(c: Config, payload: seq<int>): (r: Option<Request>)
    requires CheckInputs(c)
    ensures r.None? <==> c.operation.value == 3 && |payload| == 0
    ensures r.Some? ==> OperationOfFunctionCode(FunctionCode(r.value)) == c.operation
    ensures r.Some? ==> (r.value.IsReadRequest() <==> IsRead(c.operation.value))
    ensures r.Some? ==> r.value.address == c.address.value
    ensures r.Some? && r.value.IsReadRequest() ==>
      r.value.count == c.registerCount && r.value.unit == ReadUnit
    ensures r.Some? && !r.value.IsReadRequest() ==> r.value.unit == c.id.value
    ensures r.Some? && r.value.WriteRegister? ==> r.value.value == payload[0]
    ensures r.Some? && r.value.WriteRegisters? ==> r.value.values == payload
  {
    var address := c.address.value;
    match c.operation.value
    case 1 => Some(ReadCoils(address, c.registerCount, ReadUnit))
    case 2 => Some(ReadInputRegisters(address, c.registerCount, ReadUnit))
    case 5 => Some(ReadHoldingRegisters(address, c.registerCount, ReadUnit))
    case 3 => if |payload| == 0 then None else Some(WriteRegister(address, payload[0], c.id.value))
    case 4 => Some(WriteRegisters(address, payload, c.id.value))
  }

  /** After setup, every read asks for exactly as many items as the chosen
      datatype occupies registers. */
  lemma ReadCountMatchesDatatype(raw: RawInputs, payload: seq<int>)
    requires CheckInputs(Setup(raw))
    requires IsRead(raw.operation)
    ensures Plan(Setup(raw), payload).Some?
    ensures Plan(Setup(raw), payload).value.count == RegisterCount(raw.dataTypeInput)
    ensures Plan(Setup(raw), payload).value.count == WordCount(DatatypeOf(raw.dataTypeInput))
  {
  }

  /** Two-digit upper-case hexadecimal rendering of a byte. */
  function HexByte(b: nat): (s: string)
    requires b < 256
    ensures |s| == 2
  {
    var digits := "0123456789ABCDEF";
    [digits[b / 16], digits[b % 16]]
  }

  /** Operation names agree with the requests sent: read operations are named
      "Read ..." and write operations "Write ...". */
  lemma OperationNameMatchesRequest(c: Config, payload: seq<int>)
    requires CheckInputs(c)
    requires Plan(c, payload).Some?
    ensures Plan(c, payload).value.IsReadRequest() <==> "Read" <= OperationName(c.operation.value)
    ensures !Plan(c, payload).value.IsReadRequest() <==> "Write" <= OperationName(c.operation.value)
  {
    var name := OperationName(c.operation.value);
    if IsRead(c.operation.value) {
      assert name[0] == 'R';
    } else {
      assert name[0] == 'W';
    }
  }

  /** The name of each write operation ends with the function code of the
      request it sends. */
  lemma WriteNameCarriesFunctionCode(c: Config, payload: seq<int>)
    requires CheckInputs(c)
    requires Plan(c, payload).Some? && !Plan(c, payload).value.IsReadRequest()
    ensures var name := OperationName(c.operation.value);
      |name| >= 9 && name[|name| - 9..] == "(FC 0x" + HexByte(FunctionCode(Plan(c, payload).value)) + ")"
  {
    var name := OperationName(c.operation.value);
    if c.operation.value == 3 {
      assert name[|name| - 9..] == "(FC 0x06)";
    } else {
      assert name[|name| - 9..] == "(FC 0x10)";
    }
  }

  /** The entries of the operation menu. */
  datatype MenuChoice = SingleRun | ContinuousRun | ChangeSetup | ShowArguments | Quit

  /** The text that selects each menu entry. */
  function ChoiceText(m: MenuChoice): string {
    match m
    case SingleRun => "1"
    case ContinuousRun => "2"
    case ChangeSetup => "3"
    case ShowArguments => "4"
    case Quit => "5"
  }

  /** The menu entry selected by a (stripped) input line; only "1" to "5" select one. */
  function ParseChoice(s: string): (m: Option<MenuChoice>)
    ensures m.Some? <==> s in {"1", "2", "3", "4", "5"}
    ensures m.Some? ==> ChoiceText(m.value) == s
  {
    if s == "1" then Some(SingleRun)
    else if s == "2" then Some(ContinuousRun)
    else if s == "3" then Some(ChangeSetup)
    else if s == "4" then Some(ShowArguments)
    else if s == "5" then Some(Quit)
    else None
  }

  /** Every menu entry is selected by its own text. */
  lemma ParseChoiceText(m: MenuChoice)
    ensures ParseChoice(ChoiceText(m)) == Some(m)
  {
  }

  /** Key bytes that stop a running operation: 'q', 'Q', ESC and space. */
  const AbortKeys: set<int> := {0x71, 0x51, 0x1B, 0x20}

  /** Whether one poll of the keyboard stops the loop: None when no key was
      pressed, otherwise the byte read. */
  predicate Aborts(poll: Option<int>): (stops: bool)
    ensures stops <==> poll == Some('q' as int) || poll == Some('Q' as int) || poll == Some(27) || poll == Some(' ' as int)
  {
    poll.Some? && poll.value in AbortKeys
  }

  /** Index of the first poll that stops the loop, or the number of polls
      when none does. */
  function FirstAbort(polls: seq<Option<int>>): (k: nat)
    ensures k <= |polls|
    ensures forall j :: 0 <= j < k ==> !Aborts(polls[j])
    ensures k < |polls| ==> Aborts(polls[k])
  {
    if |polls| == 0 then 0
    else if Aborts(polls[0]) then 0
    else 1 + FirstAbort(polls[1..])
  }

  /** The run loop of a single or continuous operation over a finite horizon
      of keyboard polls: each pass first polls the keyboard and stops on an
      abort key, otherwise performs the operation once; a single run stops
      after its first operation. Returns how many operations were performed. */
  method RunOperation(choice: MenuChoice, polls: seq<Option<int>>) returns (performed: nat)
    requires choice == SingleRun || choice == ContinuousRun
    ensures choice == ContinuousRun ==> performed == FirstAbort(polls)
    ensures choice == SingleRun ==> performed == (if FirstAbort(polls) == 0 then 0 else 1)
  {
    // each pass consumes one poll, so the next poll is polls[performed]
    performed := 0;
    var running := true;
    while running && performed < |polls|
      invariant performed <= |polls|
      invariant forall j :: 0 <= j < performed ==> !Aborts(polls[j])
      invariant !running ==> (performed < |polls| && Aborts(polls[performed])) || (choice == SingleRun && performed == 1)
      invariant choice == SingleRun ==> performed <= 1 && (performed == 1 ==> !running)
      decreases |polls| - performed, running
    {
      if Aborts(polls[performed]) {
        running := false;
      } else {
        performed := performed + 1;
        if choice == SingleRun {
          running := false;
        }
      }
    }
    if running || (performed < |polls| && Aborts(polls[performed])) {
      FirstAbortUnique(polls, performed);
    } else {
      FirstAbortPositive(polls);
    }
  }

  /** FirstAbort is the only index with no abort before it that is either an
      abort or the end of the polls. */
  lemma FirstAbortUnique(polls: seq<Option<int>>, k: nat)
    requires k <= |polls|
    requires forall j :: 0 <= j < k ==> !Aborts(polls[j])
    requires k < |polls| ==> Aborts(polls[k])
    ensures FirstAbort(polls) == k
  {
  }

  /** A first poll that does not abort makes FirstAbort positive. */
  lemma FirstAbortPositive(polls: seq<Option<int>>)
    requires |polls| > 0 && !Aborts(polls[0])
    ensures FirstAbort(polls) > 0
  {
  }
}
