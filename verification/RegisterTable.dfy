/** The register table: rows that tile the polled range, a row spanning two registers where
    its format needs them, and an index from registers to rows. Values are updated in place
    when only they changed; everything else lays the rows out anew. */
module RegisterTable {
  import opened Numbers
  import opened RegisterTypes
  import opened ValueFormatter

  datatype LogicalRow = LogicalRow(address: int, span: nat, settings: FormatSettings)

  datatype TableSignal =
    | DataChanged(firstRow: int, lastRow: int)
    | ModelReset
    | WriteRequested(address: int, value: u16)
    | CoilWriteRequested(address: int, on: bool)
    | StaleChanged
    | RegisterTypeChanged

  datatype Table = Table(
    startAddress: int,
    rawValues: seq<u16>,
    bitValues: seq<bool>,
    formats: map<int, FormatSettings>,
    registerType: RegisterType,
    stale: bool,
    rows: seq<LogicalRow>,
    rowOf: seq<nat>,
    signals: seq<TableSignal>)

  // ----- the layout -----

  function FormatAt(formats: map<int, FormatSettings>, address: int): FormatSettings {
    if address in formats then formats[address] else DEFAULT_SETTINGS
  }

  /** The row that starts at raw index i: the format asked for, or the default one if the
      range ends inside it. */
  function RowAt(start: int, formats: map<int, FormatSettings>, count: nat, i: nat): (row: LogicalRow)
    requires i < count
    ensures row.address == start + i && 1 <= row.span && i + row.span <= count
    ensures row.span == RegisterSpanFor(row.settings.format)
  {
    var requested := FormatAt(formats, start + i);
    var neededSpan := RegisterSpanFor(requested.format);
    if i + neededSpan <= count then LogicalRow(start + i, neededSpan, requested)
    else LogicalRow(start + i, 1, DEFAULT_SETTINGS)
  }

  function WordRows(start: int, formats: map<int, FormatSettings>, count: nat, i: nat): seq<LogicalRow>
    decreases count - i
  {
    if i >= count then []
    else
      var row := RowAt(start, formats, count, i);
      [row] + WordRows(start, formats, count, i + row.span)
  }

  /** For each raw index from i on, the number of its row, counting from `first`. */
  function WordRowOf(start: int, formats: map<int, FormatSettings>, count: nat, i: nat, first: nat): seq<nat>
    decreases count - i
  {
    if i >= count then []
    else
      var row := RowAt(start, formats, count, i);
      seq(row.span, _ => first) + WordRowOf(start, formats, count, i + row.span, first + 1)
  }

  function BitRows(start: int, count: nat): seq<LogicalRow> {
    seq(count, i => LogicalRow(start + i, 1, DEFAULT_SETTINGS))
  }

  function Identity(count: nat): seq<nat> {
    seq(count, i requires 0 <= i => i)
  }

  function LaidOut(t: Table): Table {
    if IsBitType(t.registerType) then
      t.(rows := BitRows(t.startAddress, |t.bitValues|), rowOf := Identity(|t.bitValues|))
    else
      t.(rows := WordRows(t.startAddress, t.formats, |t.rawValues|, 0),
         rowOf := WordRowOf(t.startAddress, t.formats, |t.rawValues|, 0, 0))
  }

  // ----- the operations -----

  function Fresh(t: Table): Table {
    if t.stale then t.(stale := false, signals := t.signals + [StaleChanged]) else t
  }

  function Raw(values: seq<int>): (raw: seq<u16>)
    ensures |raw| == |values|
  {
    seq(|values|, i requires 0 <= i < |values| => Truncate16(values[i]))
  }

  /** The last index at which the lists differ, or -1. */
  function LastChange<T(==)>(a: seq<T>, b: seq<T>): (r: int)
    requires |a| == |b|
    ensures -1 <= r < |a|
  {
    if a == [] then -1
    else
      var last := |a| - 1;
      if a[last] != b[last] then last else LastChange(a[..last], b[..last])
  }

  /** The first index at which the lists differ, or -1. */
  function FirstChange<T(==)>(a: seq<T>, b: seq<T>): (r: int)
    requires |a| == |b|
    ensures -1 <= r < |a|
  {
    if a == [] then -1
    else
      var last := |a| - 1;
      var before := FirstChange(a[..last], b[..last]);
      if before >= 0 then before else if a[last] != b[last] then last else -1
  }

  function Reset(t: Table): Table {
    LaidOut(t).(signals := t.signals + [ModelReset])
  }

  /** The index has an entry for every register that changes. Without one, announcing the
      change reads behind the index, which is undefined. */
  predicate ChangesIndexed(t: Table, raw: seq<u16>)
    requires |raw| == |t.rawValues|
  {
    LastChange(t.rawValues, raw) < |t.rowOf|
  }

  predicate InPlaceIsSafe(t: Table, start: int, values: seq<int>) {
    t.startAddress == start && |t.rawValues| == |values| ==> ChangesIndexed(t, Raw(values))
  }

  /** Values in place: the rows stay, and the rows from the first to the last change are
      announced. */
  function SetRegistersInPlace(t: Table, raw: seq<u16>): Table
    requires |raw| == |t.rawValues| && ChangesIndexed(t, raw)
  {
    var first, last := FirstChange(t.rawValues, raw), LastChange(t.rawValues, raw);
    LastChangeAfterFirst(t.rawValues, raw);
    t.(rawValues := raw,
       signals := t.signals + if first >= 0 then [DataChanged(t.rowOf[first], t.rowOf[last])] else [])
  }

  function SetRegisters(t: Table, start: int, values: seq<int>): Table
    requires InPlaceIsSafe(t, start, values)
  {
    var raw := Raw(values);
    if t.startAddress == start && |t.rawValues| == |raw| then SetRegistersInPlace(Fresh(t), raw)
    else Reset(Fresh(t).(startAddress := start, rawValues := raw))
  }

  function SetBits(t: Table, start: int, values: seq<bool>): Table {
    var current := Fresh(t);
    if t.startAddress == start && |t.bitValues| == |values| then
      var first, last := FirstChange(t.bitValues, values), LastChange(t.bitValues, values);
      current.(bitValues := values,
              signals := current.signals + if first >= 0 then [DataChanged(first, last)] else [])
    else Reset(current.(startAddress := start, bitValues := values))
  }

  function SetFormatAt(t: Table, row: int, settings: FormatSettings): Table {
    if row < 0 || row >= |t.rows| || IsBitType(t.registerType) then t
    else Reset(t.(formats := t.formats[t.rows[row].address := settings]))
  }

  function SetRegisterType(t: Table, registerType: RegisterType): Table {
    if t.registerType == registerType then t
    else
      var reset := Reset(t.(registerType := registerType, rawValues := [], bitValues := [], formats := map[]));
      reset.(signals := reset.signals + [RegisterTypeChanged])
  }

  function MarkStale(t: Table): Table {
    if t.stale then t else t.(stale := true, signals := t.signals + [StaleChanged])
  }

  /** The registers a row shows; `mid` stops at the end of the list. */
  function RegistersFor(t: Table, row: LogicalRow): seq<u16> {
    var offset := row.address - t.startAddress;
    if 0 <= offset <= |t.rawValues| then t.rawValues[offset..Min(offset + row.span, |t.rawValues|)] else []
  }

  function Writes(address: int, registers: seq<u16>): seq<TableSignal> {
    seq(|registers|, k requires 0 <= k < |registers| => WriteRequested(address + k, registers[k]))
  }

  function SetValueAt(lib: Library, t: Table, row: int, text: string): Table {
    if row < 0 || row >= |t.rows| || IsBitType(t.registerType) then t
    else
      match ParseValue(lib, t.rows[row].settings, text)
      case None => t
      case Some(registers) => t.(signals := t.signals + Writes(t.rows[row].address, registers))
  }

  function SetBitAt(t: Table, row: int, on: bool): Table {
    if row < 0 || row >= |t.rows| || t.registerType != Coil then t
    else t.(signals := t.signals + [CoilWriteRequested(t.rows[row].address, on)])
  }

  // ----- rows tile the range -----

  /** The rows follow one another without gap or overlap from one address to another. */
  predicate Tiles(rows: seq<LogicalRow>, from: int, to: int)
    decreases |rows|
  {
    if rows == [] then from == to
    else rows[0].address == from && rows[0].span >= 1 && Tiles(rows[1..], from + rows[0].span, to)
  }

  lemma {:induction false} WordRowsTile(start: int, formats: map<int, FormatSettings>, count: nat, i: nat)
    requires i <= count
    ensures Tiles(WordRows(start, formats, count, i), start + i, start + count)
    decreases count - i
  {
    if i < count {
      var row := RowAt(start, formats, count, i);
      WordRowsTile(start, formats, count, i + row.span);
      assert WordRows(start, formats, count, i)[1..] == WordRows(start, formats, count, i + row.span);
    }
  }

  lemma {:induction false} BitRowsTile(start: int, count: nat)
    ensures Tiles(BitRows(start, count), start, start + count)
    decreases count
  {
    if count > 0 {
      BitRowsTile(start + 1, count - 1);
      assert BitRows(start, count)[1..] == BitRows(start + 1, count - 1);
    }
  }

  function ValueCount(t: Table): nat {
    if IsBitType(t.registerType) then |t.bitValues| else |t.rawValues|
  }

  /** The rows tile exactly the range of the values. */
  lemma LayoutTiles(t: Table)
    ensures Tiles(LaidOut(t).rows, t.startAddress, t.startAddress + ValueCount(t))
  {
    if IsBitType(t.registerType) {
      BitRowsTile(t.startAddress, |t.bitValues|);
    } else {
      WordRowsTile(t.startAddress, t.formats, |t.rawValues|, 0);
    }
  }

  // ----- the index names the containing row -----

  predicate RowContains(row: LogicalRow, address: int) {
    row.address <= address < row.address + row.span
  }

  lemma {:induction false} WordRowOfSize(start: int, formats: map<int, FormatSettings>, count: nat, i: nat, first: nat)
    requires i <= count
    ensures |WordRowOf(start, formats, count, i, first)| == count - i
    decreases count - i
  {
    if i < count {
      WordRowOfSize(start, formats, count, i + RowAt(start, formats, count, i).span, first + 1);
    }
  }

  /** The entry of one register: the first row's, or that of the rows behind it. */
  lemma WordRowOfAt(start: int, formats: map<int, FormatSettings>, count: nat, i: nat, first: nat, j: nat)
    requires i <= j < count
    ensures |WordRowOf(start, formats, count, i, first)| == count - i
    ensures var next := i + RowAt(start, formats, count, i).span;
            && |WordRowOf(start, formats, count, next, first + 1)| == count - next
            && WordRowOf(start, formats, count, i, first)[j - i]
               == if j < next then first else WordRowOf(start, formats, count, next, first + 1)[j - next]
  {
    hide RowAt;
    WordRowOfSize(start, formats, count, i, first);
    WordRowOfSize(start, formats, count, i + RowAt(start, formats, count, i).span, first + 1);
  }

  lemma {:induction false} WordRowOfNames(start: int, formats: map<int, FormatSettings>, count: nat, i: nat, first: nat,
                                          j: nat)
    requires i <= j < count
    ensures |WordRowOf(start, formats, count, i, first)| == count - i
    ensures var r := WordRowOf(start, formats, count, i, first)[j - i] - first;
            && 0 <= r < |WordRows(start, formats, count, i)|
            && RowContains(WordRows(start, formats, count, i)[r], start + j)
    decreases count - i
  {
    hide RowAt, WordRowOf;
    WordRowOfAt(start, formats, count, i, first, j);
    var next := i + RowAt(start, formats, count, i).span;
    if j >= next {
      WordRowOfNames(start, formats, count, next, first + 1, j);
    }
  }

  lemma {:induction false} WordRowOfAscends(start: int, formats: map<int, FormatSettings>, count: nat, i: nat, first: nat,
                                            j: nat, k: nat)
    requires i <= j <= k < count
    ensures |WordRowOf(start, formats, count, i, first)| == count - i
    ensures first <= WordRowOf(start, formats, count, i, first)[j - i] <= WordRowOf(start, formats, count, i, first)[k - i]
    decreases count - i
  {
    hide RowAt, WordRowOf;
    WordRowOfAt(start, formats, count, i, first, j);
    WordRowOfAt(start, formats, count, i, first, k);
    var next := i + RowAt(start, formats, count, i).span;
    if k >= next {
      WordRowOfAscends(start, formats, count, next, first + 1, if j >= next then j else k, k);
    }
  }

  /** Every value's index entry names the row that contains it, and later values never have
      earlier rows. */
  lemma IndexNamesContainingRow(t: Table, j: nat, k: nat)
    requires j <= k < ValueCount(t)
    ensures |LaidOut(t).rowOf| == ValueCount(t)
    ensures LaidOut(t).rowOf[j] < |LaidOut(t).rows|
    ensures RowContains(LaidOut(t).rows[LaidOut(t).rowOf[j]], t.startAddress + j)
    ensures LaidOut(t).rowOf[j] <= LaidOut(t).rowOf[k]
  {
    if !IsBitType(t.registerType) {
      WordRowOfNames(t.startAddress, t.formats, |t.rawValues|, 0, 0, j);
      WordRowOfAscends(t.startAddress, t.formats, |t.rawValues|, 0, 0, j, k);
    }
  }

  // ----- changes -----

  lemma {:induction false} LastChangeIs<T>(a: seq<T>, b: seq<T>)
    requires |a| == |b|
    ensures var r := LastChange(a, b);
            && (r >= 0 ==> a[r] != b[r])
            && forall k :: 0 <= k < |a| && a[k] != b[k] ==> k <= r
  {
    if a != [] {
      var last := |a| - 1;
      LastChangeIs(a[..last], b[..last]);
      forall k | 0 <= k < |a| && a[k] != b[k]
        ensures k <= LastChange(a, b)
      {
        if k < last {
          assert a[..last][k] != b[..last][k];
        }
      }
    }
  }

  lemma {:induction false} FirstChangeIs<T>(a: seq<T>, b: seq<T>)
    requires |a| == |b|
    ensures var r := FirstChange(a, b);
            && (r >= 0 ==> a[r] != b[r])
            && forall k :: 0 <= k < |a| && a[k] != b[k] ==> 0 <= r <= k
  {
    if a != [] {
      var last := |a| - 1;
      FirstChangeIs(a[..last], b[..last]);
      forall k | 0 <= k < |a| && a[k] != b[k]
        ensures 0 <= FirstChange(a, b) <= k
      {
        if k < last {
          assert a[..last][k] != b[..last][k];
        }
      }
    }
  }

  lemma LastChangeAfterFirst<T>(a: seq<T>, b: seq<T>)
    requires |a| == |b|
    ensures FirstChange(a, b) <= LastChange(a, b)
    ensures FirstChange(a, b) >= 0 <==> LastChange(a, b) >= 0
  {
    FirstChangeIs(a, b);
    LastChangeIs(a, b);
  }

  // ----- the fast path -----

  /** The rows and the index are those a full rebuild would make. */
  predicate InLayout(t: Table) {
    t.rows == LaidOut(t).rows && t.rowOf == LaidOut(t).rowOf
  }

  /** What the table is for: everything but the log. */
  function Shown(t: Table): Table {
    t.(signals := [])
  }

  /** Setting registers by rebuilding whatever changed. */
  function SetRegistersSlowly(t: Table, start: int, values: seq<int>): Table {
    Reset(Fresh(t).(startAddress := start, rawValues := Raw(values)))
  }

  function SetBitsSlowly(t: Table, start: int, values: seq<bool>): Table {
    Reset(Fresh(t).(startAddress := start, bitValues := values))
  }

  /** While a word type is shown, the index has an entry for every register. */
  lemma WordTablesAreSafe(t: Table, start: int, values: seq<int>)
    requires InLayout(t) && !IsBitType(t.registerType)
    ensures |t.rowOf| == |t.rawValues| && InPlaceIsSafe(t, start, values)
  {
    WordRowOfSize(t.startAddress, t.formats, |t.rawValues|, 0, 0);
  }

  /** The fast path reaches the state of a full rebuild. */
  lemma FastPathIsRebuild(t: Table, start: int, values: seq<int>)
    requires InLayout(t) && InPlaceIsSafe(t, start, values)
    ensures Shown(SetRegisters(t, start, values)) == Shown(SetRegistersSlowly(t, start, values))
    ensures InLayout(SetRegisters(t, start, values))
  {
  }

  lemma FastBitPathIsRebuild(t: Table, start: int, values: seq<bool>)
    requires InLayout(t)
    ensures Shown(SetBits(t, start, values)) == Shown(SetBitsSlowly(t, start, values))
    ensures InLayout(SetBits(t, start, values))
  {
  }

  lemma OtherOperationsKeepLayout(t: Table, row: int, settings: FormatSettings, registerType: RegisterType)
    requires InLayout(t)
    ensures InLayout(SetFormatAt(t, row, settings))
    ensures InLayout(SetRegisterType(t, registerType))
    ensures InLayout(MarkStale(t))
  {
  }

  // ----- any sequence of calls -----

  datatype Call =
    | RegistersCall(start: int, values: seq<int>)
    | BitsCall(start: int, bits: seq<bool>)
    | FormatCall(row: int, settings: FormatSettings)
    | TypeCall(registerType: RegisterType)
    | StaleCall

  /** Setting registers stays inside the index; while a word type is shown it always does. */
  predicate Proper(t: Table, call: Call) {
    call.RegistersCall? ==> InPlaceIsSafe(t, call.start, call.values)
  }

  function Apply(t: Table, call: Call): Table
    requires InLayout(t) && Proper(t, call)
  {
    match call
    case RegistersCall(start, values) => SetRegisters(t, start, values)
    case BitsCall(start, bits) => SetBits(t, start, bits)
    case FormatCall(row, settings) => SetFormatAt(t, row, settings)
    case TypeCall(registerType) => SetRegisterType(t, registerType)
    case StaleCall => MarkStale(t)
  }

  /** The same, but always rebuilding. */
  function ApplySlowly(t: Table, call: Call): Table {
    match call
    case RegistersCall(start, values) => SetRegistersSlowly(t, start, values)
    case BitsCall(start, bits) => SetBitsSlowly(t, start, bits)
    case FormatCall(row, settings) => SetFormatAt(t, row, settings)
    case TypeCall(registerType) => SetRegisterType(t, registerType)
    case StaleCall => MarkStale(t)
  }

  lemma ApplyIsSlow(t: Table, slow: Table, call: Call)
    requires InLayout(t) && Proper(t, call) && Shown(t) == Shown(slow)
    ensures InLayout(Apply(t, call)) && Shown(Apply(t, call)) == Shown(ApplySlowly(slow, call))
  {
    hide WordRows, WordRowOf, FirstChange, LastChange;
    match call
    case RegistersCall(start, values) => FastPathIsRebuild(t, start, values);
    case BitsCall(start, bits) => FastBitPathIsRebuild(t, start, bits);
    case FormatCall(row, settings) => OtherOperationsKeepLayout(t, row, settings, t.registerType);
    case TypeCall(registerType) => OtherOperationsKeepLayout(t, 0, DEFAULT_SETTINGS, registerType);
    case StaleCall => OtherOperationsKeepLayout(t, 0, DEFAULT_SETTINGS, t.registerType);
  }

  function ApplyAllSlowly(t: Table, calls: seq<Call>): Table {
    if calls == [] then t else ApplySlowly(ApplyAllSlowly(t, calls[..|calls| - 1]), calls[|calls| - 1])
  }

  /** `tables` lists the states after each of the calls. */
  predicate IsHistory(tables: seq<Table>, calls: seq<Call>) {
    && |tables| == |calls| + 1
    && forall k :: 0 <= k < |calls| ==>
         InLayout(tables[k]) && Proper(tables[k], calls[k]) ==> tables[k + 1] == Apply(tables[k], calls[k])
  }

  /** Over any sequence of proper calls the table shows what it would show if it were laid
      out anew every time. */
  lemma {:induction false} HistoriesAgree(tables: seq<Table>, calls: seq<Call>)
    requires IsHistory(tables, calls) && InLayout(tables[0])
    requires forall k :: 0 <= k < |calls| ==> Proper(tables[k], calls[k])
    ensures InLayout(tables[|calls|])
    ensures Shown(tables[|calls|]) == Shown(ApplyAllSlowly(tables[0], calls))
  {
    if calls != [] {
      var last := |calls| - 1;
      assert forall k :: 0 <= k < last ==> calls[..last][k] == calls[k];
      HistoriesAgree(tables[..|calls|], calls[..last]);
      ApplyIsSlow(tables[last], ApplyAllSlowly(tables[0], calls[..last]), calls[last]);
    }
  }

  /** The announced rows: every row with a changed register is among them, and the first and
      the last of them really have one. */
  lemma DataChangedCoversChanges(t: Table, raw: seq<u16>, k: nat)
    requires InLayout(t) && !IsBitType(t.registerType) && |raw| == |t.rawValues|
    requires k < |raw| && raw[k] != t.rawValues[k]
    ensures ChangesIndexed(t, raw)
    ensures var first, last := FirstChange(t.rawValues, raw), LastChange(t.rawValues, raw);
            && 0 <= first <= k <= last
            && SetRegistersInPlace(t, raw).signals == t.signals + [DataChanged(t.rowOf[first], t.rowOf[last])]
            && t.rowOf[first] <= t.rowOf[k] <= t.rowOf[last] < |t.rows|
            && RowContains(t.rows[t.rowOf[k]], t.startAddress + k)
            && RowContains(t.rows[t.rowOf[first]], t.startAddress + first) && raw[first] != t.rawValues[first]
            && RowContains(t.rows[t.rowOf[last]], t.startAddress + last) && raw[last] != t.rawValues[last]
  {
    FirstChangeIs(t.rawValues, raw);
    LastChangeIs(t.rawValues, raw);
    var first, last := FirstChange(t.rawValues, raw), LastChange(t.rawValues, raw);
    IndexNamesContainingRow(t, first, k);
    IndexNamesContainingRow(t, k, last);
    IndexNamesContainingRow(t, last, last);
  }

  lemma NoChangeNoSignal(t: Table, raw: seq<u16>)
    requires |raw| == |t.rawValues| && ChangesIndexed(t, raw)
    ensures SetRegistersInPlace(t, raw).signals == t.signals <==> raw == t.rawValues
  {
    FirstChangeIs(t.rawValues, raw);
    if FirstChange(t.rawValues, raw) >= 0 {
      assert |SetRegistersInPlace(t, raw).signals| == |t.signals| + 1;
    } else {
      assert raw == t.rawValues;
    }
  }

  // ----- a format edit is local to what follows it -----

  lemma WordRowsCons(start: int, formats: map<int, FormatSettings>, count: nat, i: nat)
    requires i < count
    ensures var row := RowAt(start, formats, count, i);
            WordRows(start, formats, count, i) == [row] + WordRows(start, formats, count, i + row.span)
  {
  }

  lemma ConsAgree(row: LogicalRow, a: seq<LogicalRow>, b: seq<LogicalRow>, r: nat)
    requires 0 < r <= |a| && r <= |b| && a[..r - 1] == b[..r - 1]
    ensures ([row] + a)[..r] == ([row] + b)[..r]
    ensures ([row] + a)[r] == a[r - 1] && ([row] + b)[r] == b[r - 1]
  {
    assert ([row] + a)[..r] == [row] + a[..r - 1];
    assert ([row] + b)[..r] == [row] + b[..r - 1];
  }

  lemma RowFollowsFormat(start: int, formats: map<int, FormatSettings>, edited: map<int, FormatSettings>, count: nat, i: nat)
    requires i < count && FormatAt(edited, start + i) == FormatAt(formats, start + i)
    ensures RowAt(start, edited, count, i) == RowAt(start, formats, count, i)
  {
  }

  lemma {:induction false} RowsBeforeKept(start: int, formats: map<int, FormatSettings>, edited: map<int, FormatSettings>,
                                          count: nat, i: nat, r: nat)
    requires r < |WordRows(start, formats, count, i)|
    requires forall address :: address < WordRows(start, formats, count, i)[r].address ==>
               FormatAt(edited, address) == FormatAt(formats, address)
    ensures |WordRows(start, edited, count, i)| > r
    ensures WordRows(start, edited, count, i)[..r] == WordRows(start, formats, count, i)[..r]
    ensures WordRows(start, edited, count, i)[r].address == WordRows(start, formats, count, i)[r].address
    decreases r
  {
    hide FormatAt, RowAt;
    if r > 0 {
      var row := RowAt(start, formats, count, i);
      RowsAscend(start, formats, count, i, r);
      assert FormatAt(edited, start + i) == FormatAt(formats, start + i);
      RowFollowsFormat(start, formats, edited, count, i);
      WordRowsCons(start, formats, count, i);
      WordRowsCons(start, edited, count, i);
      RowsBeforeKept(start, formats, edited, count, i + row.span, r - 1);
      ConsAgree(row, WordRows(start, formats, count, i + row.span), WordRows(start, edited, count, i + row.span), r);
    }
  }

  lemma {:induction false} RowsAscend(start: int, formats: map<int, FormatSettings>, count: nat, i: nat, r: nat)
    requires r < |WordRows(start, formats, count, i)|
    ensures WordRows(start, formats, count, i)[r].address >= start + i + r
    decreases r
  {
    if r > 0 {
      RowsAscend(start, formats, count, i + RowAt(start, formats, count, i).span, r - 1);
    }
  }

  /** Editing the format of a row alters no row before it, and the edited row still starts
      where it did. */
  lemma FormatEditIsLocal(t: Table, row: nat, settings: FormatSettings)
    requires InLayout(t) && !IsBitType(t.registerType) && row < |t.rows|
    ensures |SetFormatAt(t, row, settings).rows| > row
    ensures SetFormatAt(t, row, settings).rows[..row] == t.rows[..row]
    ensures SetFormatAt(t, row, settings).rows[row].address == t.rows[row].address
  {
    var edited := t.formats[t.rows[row].address := settings];
    RowsBeforeKept(t.startAddress, t.formats, edited, |t.rawValues|, 0, row);
  }

  // ----- what is shown can be written back -----

  lemma {:induction false} WordRowShape(start: int, formats: map<int, FormatSettings>, count: nat, i: nat, r: nat)
    requires r < |WordRows(start, formats, count, i)|
    ensures var row := WordRows(start, formats, count, i)[r];
            && start + i <= row.address && row.address + row.span <= start + count
            && row.span == RegisterSpanFor(row.settings.format)
    decreases r
  {
    if r > 0 {
      WordRowShape(start, formats, count, i + RowAt(start, formats, count, i).span, r - 1);
    }
  }

  /** Committing the text a word row shows requests writes of exactly its registers, at its
      consecutive addresses. */
  lemma CommittingShownTextWritesTheSame(lib: Library, t: Table, r: nat)
    requires InLayout(t) && !IsBitType(t.registerType) && r < |t.rows|
    requires !t.rows[r].settings.format.Float32?
    requires t.rows[r].settings.format.Hex? || t.rows[r].settings.format.Binary? || IsDefaultScaling(t.rows[r].settings)
    ensures |RegistersFor(t, t.rows[r])| == RegisterSpanFor(t.rows[r].settings.format)
    ensures SetValueAt(lib, t, r, FormatValue(lib, t.rows[r].settings, RegistersFor(t, t.rows[r]))).signals
         == t.signals + Writes(t.rows[r].address, RegistersFor(t, t.rows[r]))
  {
    hide WordRows, WordRowOf, RegisterSpanFor, FormatValue, ParseValue, FormatAt, RowAt;
    WordRowShape(t.startAddress, t.formats, |t.rawValues|, 0, r);
    ParseUndoesFormat(lib, t.rows[r].settings, RegistersFor(t, t.rows[r]));
  }
}
