/** The tool's register setup (the module-level settings of the client script)
    as one immutable record, the setup step that derives the datatype, register
    count and word order from the entered numbers, and the input validator that
    gates every operation. */
module Config {
  import opened Wrappers
  import opened Tables

  /** The settings of one session. A field is None while it has not been
      entered; `registerCount` starts at 1 before the first setup. */
  datatype Config = Config(
    operation: Option<int>,
    address: Option<int>,
    dataTypeInput: Option<int>,
    dataType: Option<Datatype>,
    scale: Option<real>,
    endianessInput: Option<int>,
    endianess: Option<WordOrder>,
    id: Option<int>,
    registerCount: nat)

  /** The values the user typed (or passed as arguments) during setup. */
  datatype RawInputs = RawInputs(
    id: int,
    operation: int,
    address: int,
    dataTypeInput: int,
    scale: real,
    endianessInput: int)

  /** The setup step once every missing value has been entered: the datatype,
      register count and word order are derived from the entered numbers, with
      the word order silently falling back to big endian. */
  function Setup(raw: RawInputs): (c: Config)
    ensures c.operation.Some? && c.address.Some? && c.dataTypeInput.Some? && c.dataType.Some?
    ensures c.scale.Some? && c.endianessInput.Some? && c.endianess.Some? && c.id.Some?
    ensures c.registerCount == WordCount(c.dataType.value)
    ensures c.endianess == Some(Little) <==> raw.endianessInput == 2
    ensures 1 <= raw.dataTypeInput <= 6 ==> DatatypeCode(c.dataType.value) == raw.dataTypeInput
    ensures !(1 <= raw.dataTypeInput <= 6) ==> c.dataType == Some(INT16) && c.registerCount == 1
    ensures c.operation == Some(raw.operation) && c.address == Some(raw.address)
    ensures c.scale == Some(raw.scale) && c.id == Some(raw.id)
    ensures c.dataTypeInput == Some(raw.dataTypeInput) && c.endianessInput == Some(raw.endianessInput)
  {
    Config(
      operation := Some(raw.operation),
      address := Some(raw.address),
      dataTypeInput := Some(raw.dataTypeInput),
      dataType := Some(DatatypeOf(raw.dataTypeInput)),
      scale := Some(raw.scale),
      endianessInput := Some(raw.endianessInput),
      endianess := Some(SelectWordOrder(raw.endianessInput)),
      id := Some(raw.id),
      registerCount := RegisterCount(raw.dataTypeInput))
  }

  /** The reasons the validator can reject a setup, one per check. */
  datatype InputError =
    | InvalidOperation
    | InvalidAddress
    | InvalidDatatype
    | InvalidScale
    | InvalidEndianess
    | InvalidUnitId

  datatype Verdict = Accepted | Rejected(error: InputError)

  /** The order in which the validator runs its checks. */
  const CheckOrder: seq<InputError> :=
    [InvalidOperation, InvalidAddress, InvalidDatatype, InvalidScale, InvalidEndianess, InvalidUnitId]

  predicate OperationOk(c: Config) {
    c.operation.Some? && c.operation.value in {1, 2, 3, 4, 5}
  }

  predicate AddressOk(c: Config) {
    c.address.Some? && c.address.value >= 0
  }

  /** The derived datatype must be set and the entered number a menu entry. */
  predicate DatatypeOk(c: Config) {
    c.dataType.Some? && c.dataTypeInput.Some? && c.dataTypeInput.value in {1, 2, 3, 4, 5, 6}
  }

  predicate ScaleOk(c: Config) {
    c.scale.Some? && c.scale.value > 0.0
  }

  /** The derived word order must be set and the entered number a menu entry. */
  predicate EndianessOk(c: Config) {
    c.endianess.Some? && c.endianessInput.Some? && c.endianessInput.value in {1, 2}
  }

  predicate UnitIdOk(c: Config) {
    c.id.Some? && c.id.value >= 0
  }

  /** Whether the check that reports `e` passes. */
  predicate Passes(c: Config, e: InputError) {
    match e
    case InvalidOperation => OperationOk(c)
    case InvalidAddress => AddressOk(c)
    case InvalidDatatype => DatatypeOk(c)
    case InvalidScale => ScaleOk(c)
    case InvalidEndianess => EndianessOk(c)
    case InvalidUnitId => UnitIdOk(c)
  }

  /** Position of a check in `CheckOrder`. */
  function Rank(e: InputError): (k: nat)
    ensures k < |CheckOrder| && CheckOrder[k] == e
  {
    match e
    case InvalidOperation => 0
    case InvalidAddress => 1
    case InvalidDatatype => 2
    case InvalidScale => 3
    case InvalidEndianess => 4
    case InvalidUnitId => 5
  }

  /** The validator: the checks run in `CheckOrder` and the first one that
      fails decides the verdict. */
  function Validate(c: Config): (v: Verdict)
    ensures v == Accepted <==> forall k :: 0 <= k < |CheckOrder| ==> Passes(c, CheckOrder[k])
    ensures v.Rejected? ==> !Passes(c, v.error)
    ensures v.Rejected? ==> forall j :: 0 <= j < Rank(v.error) ==> Passes(c, CheckOrder[j])
  {
    var v :=
      if !OperationOk(c) then Rejected(InvalidOperation)
      else if !AddressOk(c) then Rejected(InvalidAddress)
      else if !DatatypeOk(c) then Rejected(InvalidDatatype)
      else if !ScaleOk(c) then Rejected(InvalidScale)
      else if !EndianessOk(c) then Rejected(InvalidEndianess)
      else if !UnitIdOk(c) then Rejected(InvalidUnitId)
      else Accepted;
    // the failing check itself is the witness that not every check passes
    assert v.Rejected? ==> !Passes(c, CheckOrder[Rank(v.error)]);
    v
  }

  /** The boolean the tool's validator returns, stated over the raw fields. */
  function CheckInputs(c: Config): (ok: bool)
    ensures ok <==>
      && c.operation.Some? && 1 <= c.operation.value <= 5
      && c.address.Some? && c.address.value >= 0
      && c.dataType.Some? && c.dataTypeInput.Some? && 1 <= c.dataTypeInput.value <= 6
      && c.scale.Some? && c.scale.value > 0.0
      && c.endianess.Some? && c.endianessInput.Some? && c.endianessInput.value in {1, 2}
      && c.id.Some? && c.id.value >= 0
  {
    Validate(c) == Accepted
  }

  /** An accepted setup leaves nothing unset, so the "is not set" guards the
      operation loop runs after the validator can never fire. */
  lemma AcceptedSetupIsComplete(c: Config)
    requires CheckInputs(c)
    ensures c.address.Some? && c.operation.Some? && c.dataType.Some?
    ensures c.scale.Some? && c.scale.value > 0.0 && c.endianess.Some? && c.id.Some?
  {
  }

  /** A freshly set-up session is accepted exactly when every entered number
      lies in its menu or range. */
  lemma SetupAccepted(raw: RawInputs)
    ensures CheckInputs(Setup(raw)) <==>
      && 1 <= raw.operation <= 5
      && raw.address >= 0
      && 1 <= raw.dataTypeInput <= 6
      && raw.scale > 0.0
      && (raw.endianessInput == 1 || raw.endianessInput == 2)
      && raw.id >= 0
  {
  }

  /** The silent big-endian fallback of the setup does not survive validation:
      an out-of-menu word-order number is still rejected, and it is the word
      order check that rejects it once the earlier checks pass. */
  lemma WordOrderFallbackRejected(raw: RawInputs)
    requires raw.endianessInput != 1 && raw.endianessInput != 2
    ensures Setup(raw).endianess == Some(Big)
    ensures !CheckInputs(Setup(raw))
    ensures 1 <= raw.operation <= 5 && raw.address >= 0 && 1 <= raw.dataTypeInput <= 6 && raw.scale > 0.0
      ==> Validate(Setup(raw)) == Rejected(InvalidEndianess)
  {
  }

  /** A session whose operation is unset is rejected by the first check,
      whatever else it holds. */
  lemma UnsetOperationRejected(c: Config)
    requires c.operation.None?
    ensures Validate(c) == Rejected(InvalidOperation)
    ensures !CheckInputs(c)
  {
  }
}
