# Modbus tinkering tools: a Dafny model of their decision logic

The repository has two small scripts built on pymodbus:

- `modbus_tinker.py` is an interactive Modbus TCP client. The user sets up an operation, an address, a datatype, a scale factor, a word order and a unit id. The tool then validates the setup, offers a menu, and sends one read or write request per pass until a key stops it.
- `tcp_server.py` is a demo Modbus TCP server. Its holding-register block reports every change to registers 0..10 around each write. Before serving, it writes 224 into register 1 and a packed word of sixteen flags into register 2.

This project models the logic the scripts own, as pure Dafny functions over immutable datatypes. That logic is the lookup tables, the setup derivations, the input validator, the read/write classification, the request dispatch, the menu and abort keys, the flag packing and bit renderings, and the change-reporting rule of the server's data block.

Modules:

- `Wrappers` (`wrappers.dfy`): `Option`.
- `Tables` (`tables.dfy`): the datatype, register-count, operation-name and exception-code tables, and the word-order choice.
- `Config` (`config.dfy`): the session settings as one record with optional fields, the setup step, and the validator.
- `Dispatch` (`dispatch.dfy`): read/write classification, the request each operation sends, the menu, the abort keys and the run loop.
- `Bits` (`bits.dfy`): flag packing, the flag bit string, and Python's `format(v, '016b')`.
- `Server` (`server.dfy`): the callback data block's `setValues`/`getValues` and the demo writes.

I/O is replaced by parameters:

- The values typed at the prompts (or passed as arguments) are a `RawInputs` record.
- The register words pymodbus's value conversion produces for a write are a `payload` sequence.
- The keyboard polls of a running operation are a finite sequence of `Option<int>`: `None` when no key was pressed, otherwise the byte read.
- The server's writes produce an event trace instead of printed lines.

## Model

| member | source | states |
|---|---|---|
| Tables.DatatypeOf | modbus_tinker.py:40-49 | menu numbers 1..6 select the datatype offered under that number; every other number selects INT16 |
| Tables.DatatypeMenuBijective | modbus_tinker.py:40-49 | the datatype menu is a bijection: each datatype comes back from its own number, and two numbers in 1..6 selecting the same datatype are equal |
| Tables.RegisterCount | modbus_tinker.py:51-60 | the register count is always 1, 2 or 4, and it equals the number of 16-bit words of the datatype the same number selects (16, 32 or 64 bits), including the fallback of 1 for INT16 |
| Tables.OperationName | modbus_tinker.py:62-70 | the name is "Unknown Operation" exactly when the operation is outside 1..5 |
| Tables.OperationNamesDistinct | modbus_tinker.py:62-70 | the five operations have five different names |
| Tables.ExceptionMeaning | modbus_tinker.py:168-180 | the meaning is "Unknown Exception Code" exactly when the code is not one of 1, 2, 3, 4, 5, 6, 8, 10, 11 |
| Tables.ExceptionCodesNamed | modbus_tinker.py:168-180 | every protocol exception code is in the table and has a meaning of its own, different from every other code's |
| Tables.ExceptionTableCoversProtocol | modbus_tinker.py:168-180 | every code the table names is a protocol exception code |
| Tables.ExceptionValue | modbus_tinker.py:168-180 | the protocol's exception codes lie in 1..11 and skip 7 and 9 |
| Tables.SelectWordOrder | modbus_tinker.py:153-159 | the word order is always set: little endian exactly for input 2, big endian for every other input |
| Config.Setup | modbus_tinker.py:128-159 | after setup every setting is present: the entered operation, address, scale, unit id, datatype number and word-order number are stored as entered; the register count matches the derived datatype's width; the word order is little exactly for input 2; a menu datatype number is the datatype's own number, and any other number gives INT16 with one register |
| Config.Validate | modbus_tinker.py:182-204 | the checks run in the fixed order operation, address, datatype, scale, word order, unit id; the setup is accepted exactly when all pass; a rejection names a failing check, and every earlier check passes |
| Config.CheckInputs | modbus_tinker.py:182-204 | true exactly when the operation is in 1..5, the address and unit id are non-negative, the datatype is set and its number is in 1..6, the scale is positive, and the word order is set and its number is 1 or 2 |
| Config.AcceptedSetupIsComplete | modbus_tinker.py:320-342 | an accepted setup has every field the loop's "is not set" guards test, so those guards never fire after validation |
| Config.SetupAccepted | modbus_tinker.py:182-204 | a fresh setup is accepted exactly when every entered number lies in its menu or range |
| Config.WordOrderFallbackRejected | modbus_tinker.py:153-204 | a word-order number other than 1 or 2 silently becomes big endian, but validation still rejects it, with the word-order error when the earlier checks pass |
| Config.UnsetOperationRejected | modbus_tinker.py:185-187 | any session whose operation is unset is rejected, by the operation check, whatever else it holds |
| Dispatch.ReadWritePartition | modbus_tinker.py:347-354 | reads (1, 2, 5) and writes (3, 4) are disjoint, together they are exactly 1..5, and every accepted operation is one or the other |
| Dispatch.Plan | modbus_tinker.py:452-522 | an accepted setup sends the request whose function code (0x01, 0x04, 0x03, 0x06, 0x10) maps back to its operation, at the configured address. Reads ask for the register count and go to unit 1. Writes go to the configured unit: the single write sends the first payload word and fails only on an empty payload, and the multiple write sends the whole payload |
| Dispatch.FunctionCode | modbus_tinker.py:452-522 | every request the tool sends carries one of the function codes 0x01, 0x03, 0x04, 0x06, 0x10 |
| Dispatch.OperationOfFunctionCode | modbus_tinker.py:452-522 | a function code maps back to an operation exactly when it is one of the five codes the tool sends, and always to one in 1..5 |
| Dispatch.FunctionCodesDistinct | modbus_tinker.py:452-522 | distinct function codes belong to distinct operations, and every operation 1..5 sends one of them |
| Dispatch.ReadCountMatchesDatatype | modbus_tinker.py:133 | after setup, every read asks for exactly as many items as the chosen datatype's register count |
| Dispatch.OperationNameMatchesRequest | modbus_tinker.py:62-70 | an operation's name starts with "Read" exactly when it sends a read request, and with "Write" exactly when it sends a write |
| Dispatch.WriteNameCarriesFunctionCode | modbus_tinker.py:62-70 | each write operation's name ends with "(FC 0x..)" holding the function code of the request it actually sends |
| Dispatch.ParseChoice | modbus_tinker.py:364 | only the inputs "1" to "5" select a menu entry, and the selected entry's text is the input |
| Dispatch.ParseChoiceText | modbus_tinker.py:364-382 | every menu entry is selected by its own text |
| Dispatch.Aborts | modbus_tinker.py:414-416 | a poll stops the loop exactly when a key was pressed and its byte is that of q, Q, ESC or space; the same keys abort the connection attempt |
| Dispatch.FirstAbort | modbus_tinker.py:414-420 | the first poll that reads q, Q, ESC or space: no earlier poll aborts, and that one does |
| Dispatch.FirstAbortUnique | modbus_tinker.py:414-420 | any index with no abort before it that is an abort or the end of the polls is the first abort |
| Dispatch.RunOperation | modbus_tinker.py:406-545 | a continuous run performs the operation once per poll until the first abort key; a single run performs it once, unless the first poll already aborts |
| Bits.PackBits | tcp_server.py:82 | the packed value's bit i is set exactly when element i is truthy, and the value is below 2 to the power of the list length |
| Bits.PackedValueBits | tcp_server.py:82 | bit i of the packed value is set exactly when element i exists and is truthy |
| Bits.PackedValueAppend | tcp_server.py:82 | appending a flag adds 2 to the power of its position when it is truthy, and nothing otherwise |
| Bits.BitString | tcp_server.py:78 | the bit string has one character per flag; its characters are stated by Bits.BitStringChars |
| Bits.BitStringChars | tcp_server.py:78 | character i of the bit string is '1' when element i is truthy and '0' otherwise |
| Bits.BitStringReadsPackedValue | tcp_server.py:77-82 | the bit string reads the packed value least significant bit first |
| Bits.Format016b | tcp_server.py:37 | the rendering has at least 16 characters, exactly 16 for 0 <= v < 65536, and more for larger values; it consists of base-2 digits only, after a leading '-' exactly for a negative value; and a rendering longer than 16 characters has no leading zero (its first digit is '1') |
| Bits.FormatRoundTrip | tcp_server.py:37 | reading the rendering back as a signed base-2 number gives the value; with the digit and length contract of Bits.Format016b this makes the padding leading zeros only |
| Bits.BinaryRoundTrip | tcp_server.py:37 | reading the unpadded base-2 digits back gives the value |
| Bits.FormattedDigits | tcp_server.py:37 | for a 16-bit value, character 15 - i of the rendering is the digit of bit i |
| Bits.RenderingsAgree | tcp_server.py:37-83 | for sixteen flags, the "now set" rendering of the packed word is the flags' bit string reversed |
| Server.GetValues | tcp_server.py:41-45 | the read returns at most count values, exactly count when they fit, and each is the stored value at its address |
| Server.OldValueAt | tcp_server.py:27 | the old value is the stored value when the register lies within the block's values, and "N/A" otherwise |
| Server.ReportedIndicesWindow | tcp_server.py:24-26 | the positions the block reports form one contiguous, increasing window of the positions whose register lies in 0..10 |
| Server.ReportsWindow | tcp_server.py:24-38 | each phase has one report per position in that window, in order, each for its own register and written value |
| Server.SetValues | tcp_server.py:22-38 | the trace is the "changing" reports, then the one parent write, then the same number of "now set" reports. Every position whose register lies in 0..10 is reported before the write, with its register, old value (or "N/A") and written value, and after it, at the matching offset, with the written value and its 16-digit rendering. No event other than the parent write names a register outside 0..10 |
| Server.TraceKinds | tcp_server.py:22-38 | every event of the write's trace except the parent write is a report of its phase about a register in 0..10 |
| Server.TracePositions | tcp_server.py:24-38 | every position whose register lies in 0..10 is reported in both phases of the write's trace, with its old value before and its rendering after |
| Server.ParentWriteOnce | tcp_server.py:31 | the write reaches the parent exactly once, with its address and values unmodified |
| Server.ReportedPosition | tcp_server.py:24-38 | a position whose register lies in 0..10 is reported, before the write with its old value and after it with the written value and its rendering |
| Server.UnreportedPosition | tcp_server.py:24-38 | a position whose register lies outside 0..10 produces no report |
| Server.ReportsIncreasing | tcp_server.py:24-38 | the reports come in increasing register order |
| Server.DemoValues | tcp_server.py:74-83 | the demo flags pack to 45634, print as "0100001001001101", render as "1011001001000010", and the demo writes are 224 at register 1 and 45634 at register 2 |
| Server.DemoPacked | tcp_server.py:77-82 | the demo flags pack to 45634 |
| Server.DemoBitString | tcp_server.py:77-78 | the demo flags print as "0100001001001101" |
| Server.RenderingOfDemoWord | tcp_server.py:37 | 45634 renders as "1011001001000010" |

## Left out

- Interactive I/O is replaced by parameters, as described above. Not modelled: argparse, `input()` prompts, screen clearing and prints, the argument help text (`explane_arguments`), and `time.time`/`time.sleep`.
- `check_connection` (modbus_tinker.py:206-232) is not modelled. Its connect-and-retry loop is network I/O. It shares its abort keys with the run loop, and `Dispatch.Aborts` models them.
- The scale arithmetic `int(value/scale)` and `reading_value * scale` is left out because it is floating point. The scale is kept only as the positive-number guard of the validator. NaN and infinities are not modelled.
- The `type(scale)` guard at modbus_tinker.py:334 is left out because the scale is always parsed with `float()`.
- pymodbus calls are left out because their sources are not part of this model:
  - the client's reads and writes become the `Request` values of `Dispatch.Plan`;
  - response decoding (`convert_from_registers`), error responses and the timing of a response are not modelled;
  - `convert_to_registers` is the `payload` parameter;
  - `StartTcpServer` and `ModbusDeviceIdentification` are not modelled.
- Exceptions raised during an operation (modbus_tinker.py:546-553) are left out. They return to the menu after a reconnection attempt. Only the empty payload of a single-register write is modelled, as `None` from `Dispatch.Plan`.
- Dispatch.RunOperation: models the loop over a finite sequence of key polls. A continuous run that is never aborted runs forever in the tool; here it ends with the polls. For the same reason an empty sequence of polls performs nothing, even for a single run, which in the tool always makes its one pass.
- Server.GetValues: the parent block's read is taken as base-0 indexing into the block's values, cut short at the end. This matches the demo blocks, which all start at address 0. The parent's own bounds handling is not part of this model.
- Server.SetValues: the parent write is one abstract `ParentWrite` event, so the change to the stored values is not modelled. The "old" values of the "changing" reports are read from the values stored before the call.
- The slave context's mapping of function code 3 and an address onto block positions belongs to pymodbus and is left out. The demo writes are modelled only as requested, at (3, 1) and (3, 2).
- The `update_context` monitor thread is left out because it is concurrency and is commented out in the server anyway. Server concurrency and Modbus framing are left out for the same reason.
