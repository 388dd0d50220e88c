/** What the table shows after any sequence of calls, told from the calls: each row the
    settings last given for its address, over the values last set; and what it announces. */
module TableContents {
  import opened Numbers
  import opened RegisterTypes
  import opened ValueFormatter
  import opened RegisterTable

  // ----- the calls so far -----

  /** A table as it is created. */
  predicate IsNew(t: Table) {
    && InLayout(t) && t.startAddress == 0 && t.rawValues == [] && t.bitValues == [] && t.formats == map[]
    && t.registerType == HoldingRegister && !t.stale
  }

  function LatestType(calls: seq<Call>): RegisterType {
    if calls == [] then HoldingRegister
    else
      match calls[|calls| - 1]
      case TypeCall(registerType) => registerType
      case _ => LatestType(calls[..|calls| - 1])
  }

  /** The last call is one that changes the register type. */
  predicate ChangesType(calls: seq<Call>)
    requires calls != []
  {
    var last := calls[|calls| - 1];
    last.TypeCall? && last.registerType != LatestType(calls[..|calls| - 1])
  }

  function LatestStart(calls: seq<Call>): int {
    if calls == [] then 0
    else
      match calls[|calls| - 1]
      case RegistersCall(start, _) => start
      case BitsCall(start, _) => start
      case _ => LatestStart(calls[..|calls| - 1])
  }

  /** The registers last set under the present type, each cut to 16 bits. */
  function LatestRegisters(calls: seq<Call>): seq<u16> {
    if calls == [] || ChangesType(calls) then []
    else
      match calls[|calls| - 1]
      case RegistersCall(_, values) => seq(|values|, i requires 0 <= i < |values| => values[i] % 0x1_0000)
      case _ => LatestRegisters(calls[..|calls| - 1])
  }

  function LatestBits(calls: seq<Call>): seq<bool> {
    if calls == [] || ChangesType(calls) then []
    else
      match calls[|calls| - 1]
      case BitsCall(_, bits) => bits
      case _ => LatestBits(calls[..|calls| - 1])
  }

  /** Marked, and no values set since. */
  predicate IsStale(calls: seq<Call>) {
    if calls == [] then false
    else
      match calls[|calls| - 1]
      case StaleCall => true
      case RegistersCall(_, _) => false
      case BitsCall(_, _) => false
      case _ => IsStale(calls[..|calls| - 1])
  }

  /** The call edits the row that the table shows at the address. */
  predicate EditsAddress(t: Table, row: int, address: int) {
    !IsBitType(t.registerType) && 0 <= row < |t.rows| && t.rows[row].address == address
  }

  /** The settings last given, under the present type, for the row shown at the address. */
  function SettingsGiven(tables: seq<Table>, calls: seq<Call>, k: nat, address: int): Option<FormatSettings>
    requires k <= |calls| < |tables|
  {
    if k == 0 || ChangesType(calls[..k]) then None
    else
      match calls[k - 1]
      case FormatCall(row, settings) =>
        if EditsAddress(tables[k - 1], row, address) then Some(settings)
        else SettingsGiven(tables, calls, k - 1, address)
      case _ => SettingsGiven(tables, calls, k - 1, address)
  }

  // ----- what one call sets -----

  /** The format stored for an address. */
  function Stored(t: Table, address: int): Option<FormatSettings> {
    if address in t.formats then Some(t.formats[address]) else None
  }

  lemma CallSets(t: Table, call: Call, address: int)
    requires InLayout(t) && Proper(t, call)
    ensures var after, changes := Apply(t, call), call.TypeCall? && call.registerType != t.registerType;
            && after.registerType == (if call.TypeCall? then call.registerType else t.registerType)
            && after.startAddress == (if call.RegistersCall? || call.BitsCall? then call.start else t.startAddress)
            && after.rawValues == (if changes then [] else if call.RegistersCall? then Raw(call.values) else t.rawValues)
            && after.bitValues == (if changes then [] else if call.BitsCall? then call.bits else t.bitValues)
            && after.stale == (call.StaleCall? || (t.stale && !call.RegistersCall? && !call.BitsCall?))
            && Stored(after, address)
               == if changes then None
                  else if call.FormatCall? && EditsAddress(t, call.row, address) then Some(call.settings)
                  else Stored(t, address)
  {
    hide WordRows, WordRowOf, FirstChange, LastChange, BitRows, Identity;
  }

  /** The table is what the calls make it. */
  predicate SetAsCalled(t: Table, calls: seq<Call>) {
    && t.registerType == LatestType(calls) && t.startAddress == LatestStart(calls)
    && t.rawValues == LatestRegisters(calls) && t.bitValues == LatestBits(calls)
    && (t.stale <==> IsStale(calls))
  }

  lemma CallSetsAsCalled(t: Table, calls: seq<Call>, call: Call)
    requires InLayout(t) && Proper(t, call) && SetAsCalled(t, calls)
    ensures SetAsCalled(Apply(t, call), calls + [call])
  {
    hide Apply, InLayout, Proper;
    CallSets(t, call, 0);
    assert (calls + [call])[..|calls|] == calls;
    assert call.RegistersCall? ==> LatestRegisters(calls + [call]) == Raw(call.values);
  }

  /** Calls one after the other on a table as created, all proper. */
  predicate IsHistoryOfNew(tables: seq<Table>, calls: seq<Call>) {
    && IsHistory(tables, calls) && IsNew(tables[0])
    && forall k :: 0 <= k < |calls| ==> Proper(tables[k], calls[k])
  }

  lemma StaysInLayout(t: Table, call: Call)
    requires InLayout(t) && Proper(t, call)
    ensures InLayout(Apply(t, call))
  {
    ApplyIsSlow(t, t, call);
  }

  /** The theorem: after any sequence of calls the type, the start, the values and whether they
      are stale are those the calls last set, and the rows are laid out. */
  lemma ContentsFollowCalls(tables: seq<Table>, calls: seq<Call>, k: nat)
    requires IsHistoryOfNew(tables, calls) && k <= |calls|
    ensures InLayout(tables[k])
    ensures tables[k].registerType == LatestType(calls[..k]) && tables[k].startAddress == LatestStart(calls[..k])
    ensures tables[k].rawValues == LatestRegisters(calls[..k]) && tables[k].bitValues == LatestBits(calls[..k])
    ensures tables[k].stale <==> IsStale(calls[..k])
  {
    hide Apply, InLayout, Proper, LatestType, LatestStart, LatestRegisters, LatestBits, IsStale;
    NewIsAsCalled(tables[0]);
    for j := 0 to k
      invariant InLayout(tables[j]) && SetAsCalled(tables[j], calls[..j])
    {
      CallSetsAsCalled(tables[j], calls[..j], calls[j]);
      StaysInLayout(tables[j], calls[j]);
      assert calls[..j + 1] == calls[..j] + [calls[j]];
    }
  }

  lemma NewIsAsCalled(t: Table)
    requires IsNew(t)
    ensures SetAsCalled(t, []) && InLayout(t)
  {
  }

  /** The format stored for any address is the one last given for it. */
  lemma {:induction false} StoredIsGiven(tables: seq<Table>, calls: seq<Call>, k: nat, address: int)
    requires IsHistoryOfNew(tables, calls) && k <= |calls|
    ensures Stored(tables[k], address) == SettingsGiven(tables, calls, k, address)
    decreases k
  {
    hide Apply, InLayout, Proper;
    if k == 0 {
      NewStoresNothing(tables[0], address);
    } else {
      StoredIsGiven(tables, calls, k - 1, address);
      ContentsFollowCalls(tables, calls, k - 1);
      CallSets(tables[k - 1], calls[k - 1], address);
      assert calls[..k][..k - 1] == calls[..k - 1];
    }
  }

  lemma NewStoresNothing(t: Table, address: int)
    requires IsNew(t)
    ensures Stored(t, address) == None
  {
  }

  // ----- what the rows show -----

  /** A row over registers that end at `end`: the settings given for its address, or the
      default ones, over as many registers as they need; the default ones over one register if
      so many are not left. */
  predicate ShowsGiven(row: LogicalRow, given: Option<FormatSettings>, end: int) {
    var wanted := if given.Some? then given.value else DEFAULT_SETTINGS;
    if row.address + RegisterSpanFor(wanted.format) <= end then
      row.settings == wanted && row.span == RegisterSpanFor(wanted.format)
    else row.settings == DEFAULT_SETTINGS && row.span == 1
  }

  lemma {:induction false} WordRowsShow(start: int, formats: map<int, FormatSettings>, count: nat, i: nat, r: nat)
    requires r < |WordRows(start, formats, count, i)|
    ensures var row := WordRows(start, formats, count, i)[r];
            ShowsGiven(row, if row.address in formats then Some(formats[row.address]) else None, start + count)
    decreases r
  {
    if r > 0 {
      WordRowsShow(start, formats, count, i + RowAt(start, formats, count, i).span, r - 1);
    }
  }

  lemma RowsShowStored(t: Table, r: nat)
    requires InLayout(t) && !IsBitType(t.registerType) && r < |t.rows|
    ensures ShowsGiven(t.rows[r], Stored(t, t.rows[r].address), t.startAddress + |t.rawValues|)
  {
    hide ShowsGiven;
    WordRowsShow(t.startAddress, t.formats, |t.rawValues|, 0, r);
  }

  /** The theorem: after any sequence of calls, while a word type is shown, each row shows the
      settings last given for its address, or the default ones, or the default ones because the
      range ends; and the rows tile the range of the registers last set. */
  lemma RowsShowLatestSettings(tables: seq<Table>, calls: seq<Call>, k: nat, r: nat)
    requires IsHistoryOfNew(tables, calls) && k <= |calls| && !IsBitType(LatestType(calls[..k]))
    requires r < |tables[k].rows|
    ensures var row := tables[k].rows[r];
            ShowsGiven(row, SettingsGiven(tables, calls, k, row.address), LatestStart(calls[..k]) + |LatestRegisters(calls[..k])|)
    ensures Tiles(tables[k].rows, LatestStart(calls[..k]), LatestStart(calls[..k]) + |LatestRegisters(calls[..k])|)
  {
    hide ShowsGiven, Apply, IsNew, Proper, SettingsGiven, Stored, LaidOut, LatestRegisters, LatestStart, LatestType;
    ContentsFollowCalls(tables, calls, k);
    StoredIsGiven(tables, calls, k, tables[k].rows[r].address);
    RowsShowStored(tables[k], r);
    LaidOutTiles(tables[k]);
  }

  lemma LaidOutTiles(t: Table)
    requires InLayout(t)
    ensures Tiles(t.rows, t.startAddress, t.startAddress + ValueCount(t))
  {
    hide WordRows, WordRowOf, BitRows, Tiles;
    LayoutTiles(t);
  }

  /** A row shows the registers at its own addresses. */
  lemma RowsShowTheirRegisters(t: Table, r: nat, i: nat)
    requires InLayout(t) && !IsBitType(t.registerType) && r < |t.rows|
    ensures |RegistersFor(t, t.rows[r])| == t.rows[r].span && t.startAddress <= t.rows[r].address
    ensures i < t.rows[r].span ==>
              && t.rows[r].address - t.startAddress + i < |t.rawValues|
              && RegistersFor(t, t.rows[r])[i] == t.rawValues[t.rows[r].address - t.startAddress + i]
  {
    hide WordRows, WordRowOf, RegisterSpanFor;
    WordRowShape(t.startAddress, t.formats, |t.rawValues|, 0, r);
  }

  /** While a bit type is shown, there is one row for each bit, at its address. */
  lemma BitsHaveTheirRows(tables: seq<Table>, calls: seq<Call>, k: nat)
    requires IsHistoryOfNew(tables, calls) && k <= |calls| && IsBitType(LatestType(calls[..k]))
    ensures |tables[k].rows| == |LatestBits(calls[..k])|
    ensures forall r :: 0 <= r < |tables[k].rows| ==>
              tables[k].rows[r] == LogicalRow(LatestStart(calls[..k]) + r, 1, DEFAULT_SETTINGS)
  {
    hide LatestType, LatestStart, LatestBits, IsHistoryOfNew;
    ContentsFollowCalls(tables, calls, k);
  }

  /** An edited format is the edited row's: the row at its address shows exactly these settings
      if they fit, and the default ones if not; every other address keeps the format stored. */
  lemma FormatEditIsShown(t: Table, row: nat, settings: FormatSettings)
    requires InLayout(t) && !IsBitType(t.registerType) && row < |t.rows|
    ensures var after, address := SetFormatAt(t, row, settings), t.rows[row].address;
            && |after.rows| > row && after.rows[row].address == address
            && ShowsGiven(after.rows[row], Some(settings), t.startAddress + |t.rawValues|)
            && Stored(after, address) == Some(settings)
            && forall other: int :: other != address ==> Stored(after, other) == Stored(t, other)
  {
    hide ShowsGiven, WordRows, WordRowOf;
    FormatEditIsLocal(t, row, settings);
    OtherOperationsKeepLayout(t, row, settings, t.registerType);
    RowsShowStored(SetFormatAt(t, row, settings), row);
  }

  // ----- what is announced -----

  /** The signals of the call. */
  function News(t: Table, after: Table): (news: seq<TableSignal>)
    requires |t.signals| <= |after.signals|
  {
    after.signals[|t.signals|..]
  }

  predicate RowAnnounced(news: seq<TableSignal>, r: nat) {
    exists s :: s in news && s.DataChanged? && s.firstRow <= r <= s.lastRow
  }

  /** Row r shows something else than before. */
  predicate RowDiffers(t: Table, after: Table, r: nat)
    requires r < |t.rows|
  {
    if IsBitType(t.registerType) then r < |t.bitValues| && r < |after.bitValues| && t.bitValues[r] != after.bitValues[r]
    else RegistersFor(t, t.rows[r]) != RegistersFor(after, t.rows[r])
  }

  /** Whoever redraws what is announced shows the table as it is: unless a call announces a
      reset, the rows stay, and every row that shows something else is announced. A change of
      staleness or type is announced, and only then. */
  predicate Announces(t: Table, after: Table) {
    && |t.signals| <= |after.signals| && after.signals[..|t.signals|] == t.signals
    && var news := News(t, after);
       && (StaleChanged in news <==> after.stale != t.stale)
       && (RegisterTypeChanged in news <==> after.registerType != t.registerType)
       && (ModelReset !in news ==>
             && after.rows == t.rows && after.registerType == t.registerType && |after.bitValues| == |t.bitValues|
             && forall r: nat :: r < |t.rows| && RowDiffers(t, after, r) ==> RowAnnounced(news, r))
  }

  lemma NewsOf(t: Table, after: Table, news: seq<TableSignal>)
    requires after.signals == t.signals + news
    ensures |t.signals| <= |after.signals| && after.signals[..|t.signals|] == t.signals && News(t, after) == news
  {
  }

  /** Registers in place: rows with a changed register are within the rows announced. */
  lemma InPlaceAnnounces(t: Table, raw: seq<u16>, r: nat)
    requires InLayout(t) && |raw| == |t.rawValues| && ChangesIndexed(t, raw)
    requires !IsBitType(t.registerType) && r < |t.rows|
    requires RegistersFor(t, t.rows[r]) != RegistersFor(t.(rawValues := raw), t.rows[r])
    ensures 0 <= FirstChange(t.rawValues, raw) <= LastChange(t.rawValues, raw) < |t.rowOf|
    ensures t.rowOf[FirstChange(t.rawValues, raw)] <= r <= t.rowOf[LastChange(t.rawValues, raw)]
  {
    hide LaidOut, WordRows, WordRowOf, FirstChange, LastChange, ChangesIndexed;
    var k := ChangedRegister(t, raw, r);
    DataChangedCoversChanges(t, raw, k);
    IndexIsTheRow(t, r, k);
  }

  lemma ChangedRegister(t: Table, raw: seq<u16>, r: nat) returns (k: nat)
    requires InLayout(t) && |raw| == |t.rawValues| && !IsBitType(t.registerType) && r < |t.rows|
    requires RegistersFor(t, t.rows[r]) != RegistersFor(t.(rawValues := raw), t.rows[r])
    ensures k < |raw| && raw[k] != t.rawValues[k] && RowContains(t.rows[r], t.startAddress + k)
  {
    hide LaidOut, WordRows, WordRowOf;
    RowsShowTheirRegisters(t, r, 0);
    var before, after := RegistersFor(t, t.rows[r]), RegistersFor(t.(rawValues := raw), t.rows[r]);
    assert |after| == |before|;
    var i :| 0 <= i < |before| && before[i] != after[i];
    k := t.rows[r].address - t.startAddress + i;
  }

  /** Rows do not overlap, so the index names the only row that contains a register. */
  lemma IndexIsTheRow(t: Table, r: nat, k: nat)
    requires InLayout(t) && !IsBitType(t.registerType) && r < |t.rows| && k < |t.rawValues|
    requires RowContains(t.rows[r], t.startAddress + k)
    ensures |t.rowOf| == |t.rawValues| && t.rowOf[k] == r
  {
    hide LaidOut, WordRows, WordRowOf, Tiles;
    WordTablesAreSafe(t, t.startAddress, []);
    IndexNamesContainingRow(t, k, k);
    LaidOutTiles(t);
    OneRowContains(t.rows, t.startAddress, t.startAddress + |t.rawValues|, r, t.rowOf[k], t.startAddress + k);
  }

  lemma {:induction false} TilesFrom(rows: seq<LogicalRow>, from: int, to: int, r: nat)
    requires Tiles(rows, from, to) && r < |rows|
    ensures rows[r].address >= from && (r > 0 ==> rows[r].address >= from + rows[0].span)
    decreases |rows|
  {
    if r > 0 {
      TilesFrom(rows[1..], from + rows[0].span, to, r - 1);
    }
  }

  lemma {:induction false} OneRowContains(rows: seq<LogicalRow>, from: int, to: int, q: nat, r: nat, address: int)
    requires Tiles(rows, from, to) && q < |rows| && r < |rows|
    requires RowContains(rows[q], address) && RowContains(rows[r], address)
    ensures q == r
    decreases |rows|
  {
    if q > 0 && r > 0 {
      OneRowContains(rows[1..], from + rows[0].span, to, q - 1, r - 1, address);
    } else {
      TilesFrom(rows, from, to, q);
      TilesFrom(rows, from, to, r);
    }
  }

  lemma FreshNews(t: Table)
    ensures Fresh(t).signals == t.signals + (if t.stale then [StaleChanged] else [])
    ensures Fresh(t) == t.(stale := false, signals := Fresh(t).signals)
  {
  }

  /** After what a call says about staleness, a reset. */
  lemma ResetAnnounces(t: Table, changed: Table)
    requires changed.signals == Fresh(t).signals && !changed.stale && changed.registerType == t.registerType
    ensures Announces(t, Reset(changed))
  {
    hide LaidOut, Fresh, RowDiffers, News;
    var stale := if t.stale then [StaleChanged] else [];
    FreshNews(t);
    LaidOutKeeps(changed);
    assert Reset(changed).signals == t.signals + (stale + [ModelReset]);
    NewsOf(t, Reset(changed), stale + [ModelReset]);
    assert (stale + [ModelReset])[|stale|] == ModelReset;
  }

  /** After what a call says about staleness, the rows announced or nothing. */
  lemma InPlaceNews(t: Table, after: Table, changed: seq<TableSignal>)
    requires after.signals == Fresh(t).signals + changed && !after.stale
    requires forall s :: s in changed ==> s.DataChanged?
    requires after.rows == t.rows && after.registerType == t.registerType && |after.bitValues| == |t.bitValues|
    requires forall r: nat :: r < |t.rows| && RowDiffers(t, after, r) ==> RowAnnounced(changed, r)
    ensures Announces(t, after)
  {
    hide Fresh, RowDiffers, News;
    var stale := if t.stale then [StaleChanged] else [];
    FreshNews(t);
    assert after.signals == t.signals + (stale + changed);
    NewsOf(t, after, stale + changed);
    forall r: nat | r < |t.rows| && RowDiffers(t, after, r)
      ensures RowAnnounced(stale + changed, r)
    {
      AnnouncedAmong(stale, changed, r);
    }
  }

  lemma AnnouncedAmong(stale: seq<TableSignal>, changed: seq<TableSignal>, r: nat)
    requires RowAnnounced(changed, r)
    ensures RowAnnounced(stale + changed, r)
  {
    var s :| s in changed && s.DataChanged? && s.firstRow <= r <= s.lastRow;
    assert s in stale + changed;
  }

  lemma AnnouncedBetween(first: int, last: int, r: nat)
    requires first <= r <= last
    ensures RowAnnounced([DataChanged(first, last)], r)
  {
    assert DataChanged(first, last) in [DataChanged(first, last)];
  }

  lemma RegistersAnnounced(t: Table, start: int, values: seq<int>)
    requires InLayout(t) && InPlaceIsSafe(t, start, values)
    ensures Announces(t, SetRegisters(t, start, values))
  {
    hide LaidOut, FirstChange, LastChange, Fresh, RegistersFor, News, Announces, RowAnnounced;
    var raw, after := Raw(values), SetRegisters(t, start, values);
    FreshNews(t);
    if t.startAddress == start && |t.rawValues| == |raw| {
      var first, last := FirstChange(t.rawValues, raw), LastChange(t.rawValues, raw);
      LastChangeAfterFirst(t.rawValues, raw);
      var changed := if first >= 0 then [DataChanged(t.rowOf[first], t.rowOf[last])] else [];
      forall r: nat | r < |t.rows| && RowDiffers(t, after, r)
        ensures RowAnnounced(changed, r)
      {
        SameRegistersFor(after, t.(rawValues := raw), t.rows[r]);
        InPlaceAnnounces(t, raw, r);
        AnnouncedBetween(t.rowOf[first], t.rowOf[last], r);
      }
      InPlaceNews(t, after, changed);
    } else {
      ResetAnnounces(t, Fresh(t).(startAddress := start, rawValues := raw));
    }
  }

  lemma SameRegistersFor(a: Table, b: Table, row: LogicalRow)
    requires a.startAddress == b.startAddress && a.rawValues == b.rawValues
    ensures RegistersFor(a, row) == RegistersFor(b, row)
  {
  }

  lemma LaidOutKeeps(t: Table)
    ensures LaidOut(t).registerType == t.registerType && LaidOut(t).stale == t.stale && LaidOut(t).signals == t.signals
  {
  }

  lemma BitsAnnounced(t: Table, start: int, values: seq<bool>)
    requires InLayout(t)
    ensures Announces(t, SetBits(t, start, values))
  {
    hide LaidOut, FirstChange, LastChange, Fresh, RegistersFor, News, Announces, RowAnnounced;
    var after := SetBits(t, start, values);
    FreshNews(t);
    if t.startAddress == start && |t.bitValues| == |values| {
      var first, last := FirstChange(t.bitValues, values), LastChange(t.bitValues, values);
      var changed := if first >= 0 then [DataChanged(first, last)] else [];
      forall r: nat | r < |t.rows| && RowDiffers(t, after, r)
        ensures RowAnnounced(changed, r)
      {
        SameRegistersFor(t, after, t.rows[r]);
        BitIsBetween(t.bitValues, values, r);
        AnnouncedBetween(first, last, r);
      }
      InPlaceNews(t, after, changed);
    } else {
      ResetAnnounces(t, Fresh(t).(startAddress := start, bitValues := values));
    }
  }

  lemma BitIsBetween(a: seq<bool>, b: seq<bool>, k: nat)
    requires |a| == |b| && k < |a| && a[k] != b[k]
    ensures 0 <= FirstChange(a, b) <= k <= LastChange(a, b)
  {
    FirstChangeIs(a, b);
    LastChangeIs(a, b);
  }

  lemma EditAnnounced(t: Table, row: int, settings: FormatSettings)
    ensures Announces(t, SetFormatAt(t, row, settings))
  {
    hide LaidOut, News;
    var after := SetFormatAt(t, row, settings);
    if row < 0 || row >= |t.rows| || IsBitType(t.registerType) {
      NothingAnnounced(t, after);
    } else {
      var edited := t.(formats := t.formats[t.rows[row].address := settings]);
      LaidOutKeeps(edited);
      NewsOf(t, after, [ModelReset]);
    }
  }

  lemma NothingAnnounced(t: Table, after: Table)
    requires after == t
    ensures Announces(t, after)
  {
    NewsOf(t, after, []);
  }

  lemma TypeAnnounced(t: Table, registerType: RegisterType)
    ensures Announces(t, SetRegisterType(t, registerType))
  {
    hide LaidOut, News;
    var after := SetRegisterType(t, registerType);
    if t.registerType == registerType {
      NothingAnnounced(t, after);
    } else {
      LaidOutKeeps(t.(registerType := registerType, rawValues := [], bitValues := [], formats := map[]));
      assert after.signals == t.signals + [ModelReset, RegisterTypeChanged];
      NewsOf(t, after, [ModelReset, RegisterTypeChanged]);
    }
  }

  lemma StaleAnnounced(t: Table)
    ensures Announces(t, MarkStale(t))
  {
    hide News;
    if t.stale {
      NothingAnnounced(t, MarkStale(t));
    } else {
      NewsOf(t, MarkStale(t), [StaleChanged]);
      forall r: nat | r < |t.rows|
        ensures !RowDiffers(t, MarkStale(t), r)
      {
        SameRegistersFor(t, MarkStale(t), t.rows[r]);
      }
    }
  }

  /** Every call announces what it changes. */
  lemma ChangesAreAnnounced(t: Table, call: Call)
    requires InLayout(t) && Proper(t, call)
    ensures Announces(t, Apply(t, call))
  {
    hide Announces, SetRegisters, SetBits, SetFormatAt, SetRegisterType, MarkStale, InLayout;
    match call
    case RegistersCall(start, values) => RegistersAnnounced(t, start, values);
    case BitsCall(start, bits) => BitsAnnounced(t, start, bits);
    case FormatCall(row, settings) => EditAnnounced(t, row, settings);
    case TypeCall(registerType) => TypeAnnounced(t, registerType);
    case StaleCall => StaleAnnounced(t);
  }

  // ----- and no more than that -----

  /** The calls that lay the rows out anew: other values than before in number or place, an
      edited format, another type. */
  predicate Relays(t: Table, call: Call) {
    match call
    case RegistersCall(start, values) => start != t.startAddress || |values| != |t.rawValues|
    case BitsCall(start, bits) => start != t.startAddress || |bits| != |t.bitValues|
    case FormatCall(row, _) => !IsBitType(t.registerType) && 0 <= row < |t.rows|
    case TypeCall(registerType) => registerType != t.registerType
    case StaleCall => false
  }

  /** A reset is announced by exactly these calls; values of the same number at the same place
      never cause one. */
  lemma ResetsIff(t: Table, call: Call)
    requires InLayout(t) && Proper(t, call)
    ensures |t.signals| <= |Apply(t, call).signals|
    ensures ModelReset in News(t, Apply(t, call)) <==> Relays(t, call)
  {
    hide LaidOut, FirstChange, LastChange, Fresh, News, Announces;
    ChangesAreAnnounced(t, call);
    NewsStandBehind(t, Apply(t, call));
    FreshNews(t);
    if Relays(t, call) {
      ResetIsLast(t, call);
    } else {
      NoResetAmong(t, call);
    }
  }

  lemma NewsStandBehind(t: Table, after: Table)
    requires Announces(t, after)
    ensures |t.signals| <= |after.signals| && after.signals == t.signals + News(t, after)
  {
    hide RowDiffers, RowAnnounced;
  }

  lemma ResetIsLast(t: Table, call: Call)
    requires InLayout(t) && Proper(t, call) && Relays(t, call)
    requires |t.signals| <= |Apply(t, call).signals|
    ensures ModelReset in News(t, Apply(t, call))
  {
    hide LaidOut, FirstChange, LastChange, Fresh;
    FreshNews(t);
    var after := Apply(t, call);
    var k := if call.TypeCall? then |after.signals| - 2 else |after.signals| - 1;
    assert after.signals[k] == ModelReset;
    assert News(t, after)[k - |t.signals|] == ModelReset;
  }

  lemma NoResetAmong(t: Table, call: Call)
    requires InLayout(t) && Proper(t, call) && !Relays(t, call)
    requires |t.signals| <= |Apply(t, call).signals|
    ensures ModelReset !in News(t, Apply(t, call))
  {
    hide LaidOut, FirstChange, LastChange, Fresh;
    FreshNews(t);
    var after := Apply(t, call);
    forall s | s in News(t, after)
      ensures s != ModelReset
    {
      var k :| 0 <= k < |News(t, after)| && News(t, after)[k] == s;
      assert after.signals[|t.signals| + k] == s;
    }
  }

  /** Both ends of announced bit rows have really changed, and no rows are announced without
      a change. */
  lemma BitRowsAreTight(t: Table, start: int, values: seq<bool>, s: TableSignal)
    requires InLayout(t) && start == t.startAddress && |values| == |t.bitValues|
    requires |t.signals| <= |SetBits(t, start, values).signals|
    requires s in News(t, SetBits(t, start, values)) && s.DataChanged?
    ensures 0 <= s.firstRow <= s.lastRow < |values|
    ensures values[s.firstRow] != t.bitValues[s.firstRow] && values[s.lastRow] != t.bitValues[s.lastRow]
  {
    hide LaidOut, FirstChange, LastChange, Fresh;
    FreshNews(t);
    FirstChangeIs(t.bitValues, values);
    LastChangeIs(t.bitValues, values);
    LastChangeAfterFirst(t.bitValues, values);
    var after := SetBits(t, start, values);
    var k :| 0 <= k < |News(t, after)| && News(t, after)[k] == s;
    assert after.signals[|t.signals| + k] == s;
  }

  // ----- what an edit writes -----

  /** Committing what row r shows asks for one write for each of its addresses, of the very
      register held there. */
  lemma CommittingWritesWhatIsHeld(lib: Library, t: Table, r: nat, k: nat)
    requires InLayout(t) && !IsBitType(t.registerType) && r < |t.rows| && k < t.rows[r].span
    requires !t.rows[r].settings.format.Float32?
    requires t.rows[r].settings.format.Hex? || t.rows[r].settings.format.Binary? || IsDefaultScaling(t.rows[r].settings)
    ensures |RegistersFor(t, t.rows[r])| == RegisterSpanFor(t.rows[r].settings.format)
    ensures 0 <= t.rows[r].address + k - t.startAddress < |t.rawValues|
    ensures var row := t.rows[r];
            var signals := SetValueAt(lib, t, r, FormatValue(lib, row.settings, RegistersFor(t, row))).signals;
            && |signals| == |t.signals| + row.span && signals[..|t.signals|] == t.signals
            && signals[|t.signals| + k] == WriteRequested(row.address + k, t.rawValues[row.address + k - t.startAddress])
  {
    hide LaidOut, SetValueAt, FormatValue, RegistersFor, RegisterSpanFor;
    CommittingShownTextWritesTheSame(lib, t, r);
    RowsShowTheirRegisters(t, r, k);
  }

  lemma ParsedIsSomething(lib: Library, settings: FormatSettings, text: string)
    requires ParseValue(lib, settings, text).Some?
    ensures |ParseValue(lib, settings, text).value| >= 1
  {
    hide ReadReal, ReadUnsigned, WithoutUnit, Round;
  }

  /** A committed text writes, at consecutive addresses from its row's on, the registers it is
      read as; nothing is written exactly if there is no such row, its type is a bit type, or
      the text cannot be read. */
  lemma CommittedTextIsWritten(lib: Library, t: Table, row: int, text: string)
    ensures var after := SetValueAt(lib, t, row, text);
            && (after == t
                <==> IsBitType(t.registerType) || row < 0 || row >= |t.rows|
                     || ParseValue(lib, t.rows[row].settings, text) == None)
            && (after != t ==>
                  var registers := ParseValue(lib, t.rows[row].settings, text).value;
                  && after == t.(signals := after.signals) && |after.signals| == |t.signals| + |registers|
                  && after.signals[..|t.signals|] == t.signals
                  && forall k: nat :: k < |registers| ==>
                       after.signals[|t.signals| + k] == WriteRequested(t.rows[row].address + k, registers[k]))
  {
    hide ParseValue;
    if !IsBitType(t.registerType) && 0 <= row < |t.rows| && ParseValue(lib, t.rows[row].settings, text).Some? {
      ParsedIsSomething(lib, t.rows[row].settings, text);
      assert |SetValueAt(lib, t, row, text).signals| > |t.signals|;
    }
  }

  /** Switching bit r writes the coil at that place of the range, and only coils are written. */
  lemma SwitchingWritesTheCoil(t: Table, row: int, on: bool)
    requires InLayout(t)
    ensures SetBitAt(t, row, on).signals
         == t.signals + if t.registerType == Coil && 0 <= row < |t.bitValues| then
                          [CoilWriteRequested(t.startAddress + row, on)]
                        else []
  {
    hide WordRows, WordRowOf;
  }
}
