/** The table model as an object. Each method is proved to do to its fields what the function
    of the same name in RegisterTable says. */
module RegisterTableObject {
  import opened Numbers
  import opened RegisterTypes
  import opened ValueFormatter
  import T = RegisterTable

  lemma ChangesSnoc<A>(was: seq<A>, now: seq<A>, i: nat)
    requires i < |was| == |now|
    ensures T.LastChange(was[..i + 1], now[..i + 1]) == if was[i] != now[i] then i else T.LastChange(was[..i], now[..i])
    ensures var before := T.FirstChange(was[..i], now[..i]);
            T.FirstChange(was[..i + 1], now[..i + 1]) == if before >= 0 then before else if was[i] != now[i] then i else -1
  {
    assert was[..i + 1][..i] == was[..i] && now[..i + 1][..i] == now[..i];
  }

  /** A list overwritten up to i, then at i. */
  lemma OverwrittenSnoc<A>(was: seq<A>, now: seq<A>, i: nat)
    requires i < |was| == |now|
    ensures (now[..i] + was[i..])[i] == was[i]
    ensures (now[..i] + was[i..])[i := now[i]] == now[..i + 1] + was[i + 1..]
    ensures was[i] == now[i] ==> now[..i] + was[i..] == now[..i + 1] + was[i + 1..]
  {
  }

  /** The rows and index entries still to come, after one more row. */
  lemma RowSnoc(rows: seq<T.LogicalRow>, index: seq<nat>, start: int, formats: map<int, FormatSettings>, count: nat, i: nat)
    requires i < count
    ensures var row := T.RowAt(start, formats, count, i);
            && rows + T.WordRows(start, formats, count, i) == (rows + [row]) + T.WordRows(start, formats, count, i + row.span)
            && index + T.WordRowOf(start, formats, count, i, |rows|)
               == (index + seq(row.span, _ => |rows|)) + T.WordRowOf(start, formats, count, i + row.span, |rows| + 1)
  {
    hide T.RowAt;
    var row := T.RowAt(start, formats, count, i);
    Associative(rows, [row], T.WordRows(start, formats, count, i + row.span));
    Associative(index, seq(row.span, _ => |rows|), T.WordRowOf(start, formats, count, i + row.span, |rows| + 1));
  }

  lemma Associative<A>(a: seq<A>, b: seq<A>, c: seq<A>)
    ensures a + (b + c) == (a + b) + c
  {
  }

  class RegisterTableModel {
    var startAddress: int
    var rawValues: seq<u16>
    var bitValues: seq<bool>
    var formats: map<int, FormatSettings>
    var registerType: RegisterType
    var stale: bool
    var logicalRows: seq<T.LogicalRow>
    var rawIndexToRowIndex: seq<nat>
    var signals: seq<T.TableSignal>

    ghost function State(): T.Table
      reads this
    {
      T.Table(startAddress, rawValues, bitValues, formats, registerType, stale, logicalRows, rawIndexToRowIndex, signals)
    }

    /** The rows and the index are those of the values and formats. */
    ghost predicate Valid()
      reads this
    {
      T.InLayout(State())
    }

    constructor ()
      ensures State() == T.Table(0, [], [], map[], HoldingRegister, false, [], [], []) && Valid()
    {
      startAddress, rawValues, bitValues, formats := 0, [], [], map[];
      registerType, stale, logicalRows, rawIndexToRowIndex, signals := HoldingRegister, false, [], [], [];
    }

    method ClearStale()
      modifies this`stale, this`signals
      ensures State() == T.Fresh(old(State()))
    {
      if stale {
        stale := false;
        signals := signals + [T.StaleChanged];
      }
    }

    method SetRegisters(start: int, values: seq<int>)
      requires Valid() && T.InPlaceIsSafe(State(), start, values)
      modifies this
      ensures Valid()
      ensures State() == T.SetRegisters(old(State()), start, values)
    {
      ClearStale();
      var newRaw: seq<u16> := [];
      for i := 0 to |values|
        invariant newRaw == T.Raw(values)[..i]
      {
        newRaw := newRaw + [Truncate16(values[i])];
      }
      assert newRaw == T.Raw(values);
      if startAddress == start && |rawValues| == |newRaw| {
        var firstChangedRawIndex, lastChangedRawIndex := UpdateInPlace(newRaw);
        if firstChangedRawIndex >= 0 {
          T.LastChangeAfterFirst(old(rawValues), newRaw);
          signals := signals
            + [T.DataChanged(rawIndexToRowIndex[firstChangedRawIndex], rawIndexToRowIndex[lastChangedRawIndex])];
        }
        return;
      }
      startAddress := start;
      rawValues := newRaw;
      RebuildLogicalRows();
      signals := signals + [T.ModelReset];
    }

    method UpdateInPlace(newRaw: seq<u16>) returns (firstChangedRawIndex: int, lastChangedRawIndex: int)
      requires |newRaw| == |rawValues|
      modifies this`rawValues
      ensures rawValues == newRaw
      ensures firstChangedRawIndex == T.FirstChange(old(rawValues), newRaw)
      ensures lastChangedRawIndex == T.LastChange(old(rawValues), newRaw)
    {
      firstChangedRawIndex, lastChangedRawIndex := -1, -1;
      ghost var was := rawValues;
      for i := 0 to |newRaw|
        invariant |rawValues| == |newRaw|
        invariant rawValues == newRaw[..i] + was[i..]
        invariant firstChangedRawIndex == T.FirstChange(was[..i], newRaw[..i])
        invariant lastChangedRawIndex == T.LastChange(was[..i], newRaw[..i])
      {
        ChangesSnoc(was, newRaw, i);
        OverwrittenSnoc(was, newRaw, i);
        if rawValues[i] != newRaw[i] {
          rawValues := rawValues[i := newRaw[i]];
          if firstChangedRawIndex < 0 {
            firstChangedRawIndex := i;
          }
          lastChangedRawIndex := i;
        }
      }
      assert was[..|newRaw|] == was && newRaw[..|newRaw|] == newRaw;
    }

    method SetBits(start: int, values: seq<bool>)
      requires Valid()
      modifies this
      ensures Valid()
      ensures State() == T.SetBits(old(State()), start, values)
    {
      ClearStale();
      if startAddress == start && |bitValues| == |values| {
        var firstChangedRow, lastChangedRow := UpdateBitsInPlace(values);
        if firstChangedRow >= 0 {
          signals := signals + [T.DataChanged(firstChangedRow, lastChangedRow)];
        }
        return;
      }
      startAddress := start;
      bitValues := values;
      RebuildLogicalRows();
      signals := signals + [T.ModelReset];
    }

    method UpdateBitsInPlace(values: seq<bool>) returns (firstChangedRow: int, lastChangedRow: int)
      requires |values| == |bitValues|
      modifies this`bitValues
      ensures bitValues == values
      ensures firstChangedRow == T.FirstChange(old(bitValues), values)
      ensures lastChangedRow == T.LastChange(old(bitValues), values)
    {
      firstChangedRow, lastChangedRow := -1, -1;
      ghost var was := bitValues;
      for i := 0 to |values|
        invariant |bitValues| == |values|
        invariant bitValues == values[..i] + was[i..]
        invariant firstChangedRow == T.FirstChange(was[..i], values[..i])
        invariant lastChangedRow == T.LastChange(was[..i], values[..i])
      {
        ChangesSnoc(was, values, i);
        OverwrittenSnoc(was, values, i);
        if bitValues[i] != values[i] {
          bitValues := bitValues[i := values[i]];
          if firstChangedRow < 0 {
            firstChangedRow := i;
          }
          lastChangedRow := i;
        }
      }
      assert was[..|values|] == was && values[..|values|] == values;
    }

    method SetFormatAt(row: int, settings: FormatSettings)
      requires Valid()
      modifies this
      ensures Valid()
      ensures State() == T.SetFormatAt(old(State()), row, settings)
    {
      if row < 0 || row >= |logicalRows| {
        return;
      }
      if IsBitType(registerType) {
        return;
      }
      formats := formats[logicalRows[row].address := settings];
      RebuildLogicalRows();
      signals := signals + [T.ModelReset];
    }

    method SetRegisterType(newType: RegisterType)
      requires Valid()
      modifies this
      ensures Valid()
      ensures State() == T.SetRegisterType(old(State()), newType)
    {
      if registerType == newType {
        return;
      }
      registerType := newType;
      rawValues := [];
      bitValues := [];
      formats := map[];
      RebuildLogicalRows();
      signals := signals + [T.ModelReset];
      signals := signals + [T.RegisterTypeChanged];
    }

    method MarkStale()
      requires Valid()
      modifies this
      ensures Valid()
      ensures State() == T.MarkStale(old(State()))
    {
      if stale {
        return;
      }
      stale := true;
      signals := signals + [T.StaleChanged];
    }

    method SetValueAt(lib: Library, row: int, text: string)
      requires Valid()
      modifies this`signals
      ensures Valid()
      ensures State() == T.SetValueAt(lib, old(State()), row, text)
    {
      if row < 0 || row >= |logicalRows| {
        return;
      }
      if IsBitType(registerType) {
        return;
      }
      var lr := logicalRows[row];
      var parsed := ParseValue(lib, lr.settings, text);
      if parsed == None {
        return;
      }
      var registers := parsed.value;
      for k := 0 to |registers|
        invariant signals == old(signals) + T.Writes(lr.address, registers)[..k]
      {
        signals := signals + [T.WriteRequested(lr.address + k, registers[k])];
      }
    }

    method SetBitAt(row: int, on: bool)
      requires Valid()
      modifies this`signals
      ensures Valid()
      ensures State() == T.SetBitAt(old(State()), row, on)
    {
      if row < 0 || row >= |logicalRows| {
        return;
      }
      if registerType != Coil {
        return;
      }
      signals := signals + [T.CoilWriteRequested(logicalRows[row].address, on)];
    }

    method RebuildLogicalRows()
      modifies this`logicalRows, this`rawIndexToRowIndex
      ensures State() == T.LaidOut(old(State()))
    {
      if IsBitType(registerType) {
        RebuildBitRows();
      } else {
        RebuildWordRows();
      }
    }

    method RebuildBitRows()
      modifies this`logicalRows, this`rawIndexToRowIndex
      ensures logicalRows == T.BitRows(startAddress, |bitValues|) && rawIndexToRowIndex == T.Identity(|bitValues|)
    {
      logicalRows, rawIndexToRowIndex := [], [];
      for i := 0 to |bitValues|
        invariant logicalRows == T.BitRows(startAddress, i) && rawIndexToRowIndex == T.Identity(i)
      {
        rawIndexToRowIndex := rawIndexToRowIndex + [i];
        logicalRows := logicalRows + [T.LogicalRow(startAddress + i, 1, DEFAULT_SETTINGS)];
      }
    }

    method RebuildWordRows()
      modifies this`logicalRows, this`rawIndexToRowIndex
      ensures logicalRows == T.WordRows(startAddress, formats, |rawValues|, 0)
      ensures rawIndexToRowIndex == T.WordRowOf(startAddress, formats, |rawValues|, 0, 0)
    {
      logicalRows, rawIndexToRowIndex := [], [];
      var count := |rawValues|;
      var i := 0;
      while i < count
        invariant 0 <= i <= count
        invariant logicalRows + T.WordRows(startAddress, formats, count, i) == T.WordRows(startAddress, formats, count, 0)
        invariant rawIndexToRowIndex + T.WordRowOf(startAddress, formats, count, i, |logicalRows|)
               == T.WordRowOf(startAddress, formats, count, 0, 0)
        decreases count - i
      {
        RowSnoc(logicalRows, rawIndexToRowIndex, startAddress, formats, count, i);
        var span := AppendRow(i);
        i := i + span;
      }
    }

    method AppendRow(i: nat) returns (span: nat)
      requires i < |rawValues|
      modifies this`logicalRows, this`rawIndexToRowIndex
      ensures var row := T.RowAt(startAddress, formats, |rawValues|, i);
              && span == row.span && logicalRows == old(logicalRows) + [row]
              && rawIndexToRowIndex == old(rawIndexToRowIndex) + seq(row.span, _ => |old(logicalRows)|)
    {
      var address := startAddress + i;
      var requested := if address in formats then formats[address] else DEFAULT_SETTINGS;
      var neededSpan := RegisterSpanFor(requested.format);
      var canFit := i + neededSpan <= |rawValues|;
      var row := T.LogicalRow(address, if canFit then neededSpan else 1, if canFit then requested else DEFAULT_SETTINGS);

      var rowIndex := |logicalRows|;
      AppendIndex(row.span, rowIndex);
      logicalRows := logicalRows + [row];
      span := row.span;
    }

    method AppendIndex(span: nat, rowIndex: nat)
      modifies this`rawIndexToRowIndex
      ensures rawIndexToRowIndex == old(rawIndexToRowIndex) + seq(span, _ => rowIndex)
    {
      for k := 0 to span
        invariant rawIndexToRowIndex == old(rawIndexToRowIndex) + seq(k, _ => rowIndex)
      {
        rawIndexToRowIndex := rawIndexToRowIndex + [rowIndex];
      }
    }

    /** Any call keeps the object what its step function says; so any sequence of calls shows
        what rebuilding every time would show. */
    method Perform(call: T.Call)
      requires Valid() && T.Proper(State(), call)
      modifies this
      ensures Valid() && State() == T.Apply(old(State()), call)
    {
      match call {
        case RegistersCall(start, values) => SetRegisters(start, values);
        case BitsCall(start, bits) => SetBits(start, bits);
        case FormatCall(row, settings) => SetFormatAt(row, settings);
        case TypeCall(registerType) => SetRegisterType(registerType);
        case StaleCall => MarkStale();
      }
    }
  }
}
