/** The demo Modbus TCP server: the holding-register block that reports
    changes to registers 0..10 around each write, and the values the server
    writes before it starts serving. */
module Server {
  import opened Bits

  /** The lowest and highest register whose changes the block reports. */
  const ReportLow: int := 0
  const ReportHigh: int := 10

  predicate Reported(reg: int) {
    ReportLow <= reg <= ReportHigh
  }

  /** The block's read. It returns the parent block's read unchanged; for a
      block starting at address 0 that read is the slice of its values from
      `address`, cut short at the end of the block. */
  function GetValues(stored: seq<int>, address: nat, count: nat): (r: seq<int>)
    ensures |r| <= count
    ensures address + count <= |stored| ==> |r| == count
    ensures forall k :: 0 <= k < |r| ==> address + k < |stored| && r[k] == stored[address + k]
  {
    if address >= |stored| then []
    else if address + count <= |stored| then stored[address..address + count]
    else stored[address..]
  }

  /** The old value a change report shows: the stored value when the register
      lies within the block's values, otherwise "N/A". */
  datatype OldValue = Stored(value: int) | NotAvailable

  function OldValueAt(stored: seq<int>, reg: int): (o: OldValue)
    ensures o.Stored? <==> 0 <= reg < |stored|
    ensures o.Stored? ==> o.value == stored[reg]
  {
    if 0 <= reg < |stored| then Stored(GetValues(stored, reg, 1)[0]) else NotAvailable
  }

  /** What a write through the block produces, in order: a "changing" report
      before the write, the write handed to the parent block, and a "now set"
      report (with the 16-digit binary rendering) after it. */
  datatype Event =
    | Changing(register: int, previous: OldValue, written: int)
    | ParentWrite(address: int, values: seq<int>)
    | NowSet(register: int, value: int, binary: string)

  datatype Phase = Before | After

  /** The report for one written register in the given phase. */
  function ReportFor(phase: Phase, stored: seq<int>, reg: int, value: int): Event {
    match phase
    case Before => Changing(reg, OldValueAt(stored, reg), value)
    case After => NowSet(reg, value, Format016b(value))
  }

  /** First index at or after `from` whose register is reported, for a write
      at `address`. */
  function WindowStart(address: int, from: nat): nat {
    if ReportLow - address > from then ReportLow - address else from
  }

  /** One past the last index whose register is reported, for a write of `n`
      values at `address`. */
  function WindowEnd(address: int, n: nat): int {
    if ReportHigh - address + 1 < n then ReportHigh - address + 1 else n
  }

  /** The indices idx >= from of a write of `n` values at `address` whose
      register address + idx lies in 0..10, in increasing order: the positions
      the block reports. */
  function ReportedIndices(address: int, n: nat, from: nat): (ix: seq<nat>)
    requires from <= n
    ensures forall k :: 0 <= k < |ix| ==> from <= ix[k] < n && Reported(address + ix[k])
    decreases n - from
  {
    if from == n then []
    else (if Reported(address + from) then [from] else []) + ReportedIndices(address, n, from + 1)
  }

  /** The reported indices form one contiguous window, WindowStart up to
      WindowEnd. */
  lemma {:induction false} ReportedIndicesWindow(address: int, n: nat, from: nat)
    requires from <= n
    ensures var ix := ReportedIndices(address, n, from);
      var lo := WindowStart(address, from);
      var hi := WindowEnd(address, n);
      && |ix| == (if lo < hi then hi - lo else 0)
      && forall k :: 0 <= k < |ix| ==> ix[k] == lo + k
    decreases n - from
  {
    if from < n {
      ReportedIndicesWindow(address, n, from + 1);
      var rest := ReportedIndices(address, n, from + 1);
      var ix := ReportedIndices(address, n, from);
      if Reported(address + from) {
        assert ix == [from] + rest;
        assert WindowStart(address, from) == from;
        assert WindowStart(address, from + 1) == from + 1;
        forall k | 1 <= k < |ix|
          ensures ix[k] == from + k
        {
          assert ix[k] == rest[k - 1];
        }
      } else {
        assert ix == rest;
        if from >= ReportLow - address {
          assert WindowEnd(address, n) <= from;
        }
      }
    }
  }

  /** A position whose register lies in 0..10 is reported index number
      idx - WindowStart of the window. */
  lemma IndexOfPosition(address: int, n: nat, idx: nat)
    requires idx < n && Reported(address + idx)
    ensures var ix := ReportedIndices(address, n, 0);
      var k := idx - WindowStart(address, 0);
      0 <= k < |ix| && ix[k] == idx
  {
    ReportedIndicesWindow(address, n, 0);
  }

  /** The reports of one phase of a write: one per reported index, in index
      order. */
  function Reports(phase: Phase, stored: seq<int>, address: int, values: seq<int>): seq<Event> {
    var ix := ReportedIndices(address, |values|, 0);
    seq(|ix|, k requires 0 <= k < |ix| => ReportAt(phase, stored, address, values, ix[k]))
  }

  /** The report for position `idx` of a write at `address`. */
  function ReportAt(phase: Phase, stored: seq<int>, address: int, values: seq<int>, idx: int): Event
    requires 0 <= idx < |values|
  {
    ReportFor(phase, stored, address + idx, values[idx])
  }

  /** The reports of a phase cover exactly the window of reported indices,
      each with its own register and value. */
  lemma ReportsWindow(phase: Phase, stored: seq<int>, address: int, values: seq<int>)
    ensures var r := Reports(phase, stored, address, values);
      var lo := WindowStart(address, 0);
      var hi := WindowEnd(address, |values|);
      && |r| == (if lo < hi then hi - lo else 0)
      && forall k :: 0 <= k < |r| ==> lo + k < |values| && r[k] == ReportAt(phase, stored, address, values, lo + k)
  {
    var r := Reports(phase, stored, address, values);
    var lo := WindowStart(address, 0);
    ReportsCount(phase, stored, address, values);
    forall k | 0 <= k < |r|
      ensures lo + k < |values| && r[k] == ReportAt(phase, stored, address, values, lo + k)
    {
      ReportInWindow(phase, stored, address, values, k);
    }
  }

  /** A phase has one report per position of the window. */
  lemma ReportsCount(phase: Phase, stored: seq<int>, address: int, values: seq<int>)
    ensures var lo := WindowStart(address, 0);
      var hi := WindowEnd(address, |values|);
      |Reports(phase, stored, address, values)| == (if lo < hi then hi - lo else 0)
  {
    ReportedIndicesWindow(address, |values|, 0);
  }

  /** Report k of a phase is the report for window position WindowStart + k. */
  lemma ReportInWindow(phase: Phase, stored: seq<int>, address: int, values: seq<int>, k: nat)
    requires k < |Reports(phase, stored, address, values)|
    ensures var lo := WindowStart(address, 0);
      lo + k < |values| && Reports(phase, stored, address, values)[k] == ReportAt(phase, stored, address, values, lo + k)
  {
    var ix := ReportedIndices(address, |values|, 0);
    ReportedIndicesWindow(address, |values|, 0);
    assert ix[k] == WindowStart(address, 0) + k;
    ReportAtIndex(phase, stored, address, values, k);
  }

  /** Report k is the report for the k-th reported index. */
  lemma ReportAtIndex(phase: Phase, stored: seq<int>, address: int, values: seq<int>, k: nat)
    requires k < |ReportedIndices(address, |values|, 0)|
    ensures var ix := ReportedIndices(address, |values|, 0);
      k < |Reports(phase, stored, address, values)|
      && Reports(phase, stored, address, values)[k] == ReportAt(phase, stored, address, values, ix[k])
  {
  }

  /** The block's write: report, pass the write to the parent unchanged,
      report again. A position whose register lies in 0..10 is reported before
      the write with its old value and after it with its rendering; no report
      names a register outside 0..10. */
  function SetValues(stored: seq<int>, address: int, values: seq<int>): (trace: seq<Event>)
    ensures var w := |Reports(Before, stored, address, values)|;
      && w < |trace|
      && trace[w] == ParentWrite(address, values)
      && (forall k :: 0 <= k < w ==> trace[k].Changing?)
      && (forall k :: w < k < |trace| ==> trace[k].NowSet?)
      && |trace| == 2 * w + 1
    ensures forall idx: int :: 0 <= idx < |values| && Reported(address + idx) ==>
      ReportedInTrace(trace, stored, address, values, idx)
    ensures var w := |Reports(Before, stored, address, values)|;
      forall k :: 0 <= k < |trace| && k != w ==> Reported(EventRegister(trace[k]))
  {
    TraceLength(stored, address, values);
    TraceKinds(stored, address, values);
    TracePositions(stored, address, values);
    Trace(stored, address, values)
  }

  /** The events of a write in order: the reports before it, the parent write,
      the reports after it. */
  function Trace(stored: seq<int>, address: int, values: seq<int>): seq<Event> {
    Reports(Before, stored, address, values)
      + [ParentWrite(address, values)]
      + Reports(After, stored, address, values)
  }

  /** Every event of the trace but the parent write is a report of its phase
      about a register in 0..10. */
  lemma TraceKinds(stored: seq<int>, address: int, values: seq<int>)
    ensures var trace := Trace(stored, address, values);
      var w := |Reports(Before, stored, address, values)|;
      forall k :: 0 <= k < |trace| && k != w ==>
        && (k < w ==> trace[k].Changing?)
        && (k > w ==> trace[k].NowSet?)
        && Reported(EventRegister(trace[k]))
  {
    var trace := Trace(stored, address, values);
    forall k | 0 <= k < |trace| && k != |Reports(Before, stored, address, values)|
      ensures var w := |Reports(Before, stored, address, values)|;
        && (k < w ==> trace[k].Changing?)
        && (k > w ==> trace[k].NowSet?)
        && Reported(EventRegister(trace[k]))
    {
      TraceEvent(stored, address, values, k);
    }
  }

  /** Every position whose register lies in 0..10 is reported in both phases
      of the trace. */
  lemma TracePositions(stored: seq<int>, address: int, values: seq<int>)
    ensures forall idx: int :: 0 <= idx < |values| && Reported(address + idx) ==>
      ReportedInTrace(Trace(stored, address, values), stored, address, values, idx)
  {
    var trace := Trace(stored, address, values);
    var w := |Reports(Before, stored, address, values)|;
    var lo := WindowStart(address, 0);
    forall idx: int | 0 <= idx < |values| && Reported(address + idx)
      ensures ReportedInTrace(Trace(stored, address, values), stored, address, values, idx)
    {
      TracePositionBefore(stored, address, values, idx);
      TracePositionAfter(stored, address, values, idx);
    }
  }

  /** Position idx of a write is reported before it with its old value and
      after it with its rendering, at matching offsets of the trace. */
  predicate ReportedInTrace(trace: seq<Event>, stored: seq<int>, address: int, values: seq<int>, idx: int)
    requires 0 <= idx < |values|
  {
    var w := |Reports(Before, stored, address, values)|;
    var lo := WindowStart(address, 0);
    && 0 <= idx - lo < w
    && w + 1 + idx - lo < |trace|
    && trace[idx - lo] == Changing(address + idx, OldValueAt(stored, address + idx), values[idx])
    && trace[w + 1 + idx - lo] == NowSet(address + idx, values[idx], Format016b(values[idx]))
  }

  /** Positions of a sequence with one element inserted in the middle. */
  lemma AroundIndex<T>(a: seq<T>, x: T, b: seq<T>, k: nat)
    requires k < |a| && k < |b|
    ensures (a + [x] + b)[k] == a[k] && (a + [x] + b)[|a| + 1 + k] == b[k]
  {
  }

  /** Both phases report the same number of registers. */
  lemma TraceLength(stored: seq<int>, address: int, values: seq<int>)
    ensures |Reports(After, stored, address, values)| == |Reports(Before, stored, address, values)|
    ensures var w := |Reports(Before, stored, address, values)|;
      |Trace(stored, address, values)| == 2 * w + 1 && Trace(stored, address, values)[w] == ParentWrite(address, values)
  {
    ReportsWindow(Before, stored, address, values);
    ReportsWindow(After, stored, address, values);
  }

  /** Every event other than the parent write is a report of its phase about a
      register in 0..10. */
  lemma TraceEvent(stored: seq<int>, address: int, values: seq<int>, k: nat)
    requires k < |Trace(stored, address, values)| && k != |Reports(Before, stored, address, values)|
    ensures var w := |Reports(Before, stored, address, values)|;
      var e := Trace(stored, address, values)[k];
      && (k < w ==> e.Changing?)
      && (k > w ==> e.NowSet?)
      && Reported(EventRegister(e))
  {
    var before := Reports(Before, stored, address, values);
    var after := Reports(After, stored, address, values);
    var trace := Trace(stored, address, values);
    var w := |before|;
    TraceLength(stored, address, values);
    if k < w {
      ReportAtIndex(Before, stored, address, values, k);
      assert trace[k] == before[k];
    } else {
      ReportAtIndex(After, stored, address, values, k - w - 1);
      assert trace[k] == after[k - w - 1];
    }
  }

  /** A position whose register lies in 0..10 is reported before the parent
      write with its old value. */
  lemma TracePositionBefore(stored: seq<int>, address: int, values: seq<int>, idx: nat)
    requires idx < |values| && Reported(address + idx)
    ensures var trace := Trace(stored, address, values);
      var k := idx - WindowStart(address, 0);
      && 0 <= k < |Reports(Before, stored, address, values)|
      && trace[k] == Changing(address + idx, OldValueAt(stored, address + idx), values[idx])
  {
    var k := idx - WindowStart(address, 0);
    var before := Reports(Before, stored, address, values);
    var after := Reports(After, stored, address, values);
    ReportedPosition(Before, stored, address, values, idx);
    ReportedPosition(After, stored, address, values, idx);
    assert Trace(stored, address, values) == before + [ParentWrite(address, values)] + after;
    AroundIndex(before, ParentWrite(address, values), after, k);
  }

  /** A position whose register lies in 0..10 is reported after the parent
      write, at the same offset, with the written value and its rendering. */
  lemma TracePositionAfter(stored: seq<int>, address: int, values: seq<int>, idx: nat)
    requires idx < |values| && Reported(address + idx)
    ensures var trace := Trace(stored, address, values);
      var w := |Reports(Before, stored, address, values)|;
      var k := idx - WindowStart(address, 0);
      && 0 <= k < w
      && w + 1 + k < |trace|
      && trace[w + 1 + k] == NowSet(address + idx, values[idx], Format016b(values[idx]))
  {
    var k := idx - WindowStart(address, 0);
    var before := Reports(Before, stored, address, values);
    var after := Reports(After, stored, address, values);
    ReportedPosition(Before, stored, address, values, idx);
    ReportedPosition(After, stored, address, values, idx);
    TraceLength(stored, address, values);
    assert Trace(stored, address, values) == before + [ParentWrite(address, values)] + after;
    AroundIndex(before, ParentWrite(address, values), after, k);
  }


  /** The write is handed to the parent block exactly once, unmodified. */
  lemma ParentWriteOnce(stored: seq<int>, address: int, values: seq<int>, k: nat)
    requires k < |SetValues(stored, address, values)|
    ensures var trace := SetValues(stored, address, values);
      trace[k].ParentWrite? <==> k == |Reports(Before, stored, address, values)|
    ensures var trace := SetValues(stored, address, values);
      trace[k].ParentWrite? ==> trace[k].address == address && trace[k].values == values
  {
  }

  /** A position idx of a write whose register address + idx lies in 0..10 is
      reported before the write, with the stored old value (or "N/A") and the
      value written, and after it, with the value written and its binary
      rendering. */
  lemma ReportedPosition(phase: Phase, stored: seq<int>, address: int, values: seq<int>, idx: nat)
    requires idx < |values| && Reported(address + idx)
    ensures var r := Reports(phase, stored, address, values);
      var k := idx - WindowStart(address, 0);
      0 <= k < |r| && r[k] == ReportFor(phase, stored, address + idx, values[idx])
  {
    var k := idx - WindowStart(address, 0);
    IndexOfPosition(address, |values|, idx);
    ReportAtIndex(phase, stored, address, values, k);
    assert ReportedIndices(address, |values|, 0)[k] == idx;
  }

  /** A position whose register lies outside 0..10 produces no report. */
  lemma UnreportedPosition(phase: Phase, stored: seq<int>, address: int, values: seq<int>, idx: nat, k: nat)
    requires idx < |values| && !Reported(address + idx)
    requires k < |Reports(phase, stored, address, values)|
    ensures EventRegister(Reports(phase, stored, address, values)[k]) != address + idx
  {
    ReportsWindow(phase, stored, address, values);
  }

  /** Reports come in increasing register order. */
  lemma ReportsIncreasing(phase: Phase, stored: seq<int>, address: int, values: seq<int>, k1: nat, k2: nat)
    requires k1 < k2 < |Reports(phase, stored, address, values)|
    ensures var r := Reports(phase, stored, address, values);
      EventRegister(r[k1]) < EventRegister(r[k2])
  {
    ReportsWindow(phase, stored, address, values);
  }

  /** The register a report is about. */
  function EventRegister(e: Event): int {
    match e
    case Changing(reg, _, _) => reg
    case ParentWrite(address, _) => address
    case NowSet(reg, _, _) => reg
  }

  /** The flags the demo server packs into holding register 2. */
  const DemoFlags: seq<int> := [0, 1, 0, 0, 0, 0, 1, 0, 0, 1, 0, 0, 1, 1, 0, 1]

  /** A write the demo server requests of its data context. */
  datatype Write = Write(functionCode: int, address: int, values: seq<int>)

  /** The writes the demo server requests before serving: 224 into holding
      register 1 and the packed flags into holding register 2. */
  const DemoWrites: seq<Write> := [Write(3, 1, [224]), Write(3, 2, [PackedValue(DemoFlags)])]

  /** The demo flags pack to 45634 (bits 1, 6, 9, 12, 13 and 15), print as
      "0100001001001101" least significant bit first, and render as
      "1011001001000010" in the change report. The flags are passed in so that
      the list is evaluated one position at a time. */
  lemma DemoValues(flags: seq<int>)
    requires flags == DemoFlags
    ensures PackedValue(flags) == 45634
    ensures BitString(flags) == "0100001001001101"
    ensures Format016b(PackedValue(flags)) == "1011001001000010"
    ensures DemoWrites == [Write(3, 1, [224]), Write(3, 2, [45634])]
  {
    DemoPacked(flags);
    DemoBitString(flags);
    RenderingOfDemoWord();
  }

  /** The demo flags evaluated position by position, most significant first. */
  lemma DemoPacked(s: seq<int>)
    requires s == [0, 1, 0, 0, 0, 0, 1, 0, 0, 1, 0, 0, 1, 1, 0, 1]
    ensures PackedValue(s) == 45634
  {
    assert PackedFrom(s, 15) == 1;
    assert PackedFrom(s, 14) == 2;
    assert PackedFrom(s, 13) == 5;
    assert PackedFrom(s, 12) == 11;
    assert PackedFrom(s, 11) == 22;
    assert PackedFrom(s, 10) == 44;
    assert PackedFrom(s, 9) == 89;
    assert PackedFrom(s, 8) == 178;
    assert PackedFrom(s, 7) == 356;
    assert PackedFrom(s, 6) == 713;
    assert PackedFrom(s, 5) == 1426;
    assert PackedFrom(s, 4) == 2852;
    assert PackedFrom(s, 3) == 5704;
    assert PackedFrom(s, 2) == 11408;
    assert PackedFrom(s, 1) == 22817;
  }

  lemma DemoBitString(flags: seq<int>)
    requires flags == [0, 1, 0, 0, 0, 0, 1, 0, 0, 1, 0, 0, 1, 1, 0, 1]
    ensures BitString(flags) == "0100001001001101"
  {
    var b := BitString(flags);
    forall i | 0 <= i < 16
      ensures b[i] == "0100001001001101"[i]
    {
      DemoFlagChar(flags, i);
    }
  }

  lemma DemoFlagChar(flags: seq<int>, i: nat)
    requires flags == [0, 1, 0, 0, 0, 0, 1, 0, 0, 1, 0, 0, 1, 1, 0, 1] && i < 16
    ensures BitString(flags)[i] == "0100001001001101"[i]
  {
    BitStringChars(flags, i);
  }

  /** The rendering of 45634, evaluated digit by digit, most significant first. */
  lemma RenderingOfDemoWord()
    ensures Format016b(45634) == "1011001001000010"
  {
    assert Binary(1) == "1";
    assert Binary(2) == "10";
    assert Binary(5) == "101";
    assert Binary(11) == "1011";
    assert Binary(22) == "10110";
    assert Binary(44) == "101100";
    assert Binary(89) == "1011001";
    assert Binary(178) == "10110010";
    assert Binary(356) == "101100100";
    assert Binary(713) == "1011001001";
    assert Binary(1426) == "10110010010";
    assert Binary(2852) == "101100100100";
    assert Binary(5704) == "1011001001000";
    assert Binary(11408) == "10110010010000";
    assert Binary(22817) == "101100100100001";
  }
}
