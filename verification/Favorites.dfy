/** The favorites list as far as polling sees it: which registers its entries name, how the
    user edits it, and the targets that are built from it. */
module Favorites {
  import opened Numbers
  import opened RegisterTypes
  import opened ReadCoalescer
  import opened ValueFormatter

  datatype Definition = Definition(registerType: RegisterType, address: int, format: DisplayFormat) {
    /** How many values the entry occupies; a format means nothing for a single bit. */
    function Span(): nat {
      if IsBitType(registerType) then 1 else RegisterSpanFor(format)
    }
  }

  function TargetOf(definition: Definition, unitId: u8): PollTarget {
    PollTarget(unitId, definition.registerType, Truncate16(definition.address), Truncate16(definition.Span()))
  }

  function TargetsOf(entries: seq<Definition>, unitId: u8): seq<PollTarget> {
    if entries == [] then []
    else TargetsOf(entries[..|entries| - 1], unitId) + [TargetOf(entries[|entries| - 1], unitId)]
  }

  method BuildPollTargets(entries: seq<Definition>, unitId: u8) returns (targets: seq<PollTarget>)
    ensures targets == TargetsOf(entries, unitId)
  {
    targets := [];
    for k := 0 to |entries|
      invariant targets == TargetsOf(entries[..k], unitId)
    {
      assert entries[..k + 1][..k] == entries[..k];
      var definition := entries[k];
      targets := targets + [PollTarget(unitId, definition.registerType, Truncate16(definition.address),
                                       Truncate16(definition.Span()))];
    }
    assert entries[..|entries|] == entries;
  }

  // ----- edits -----

  datatype Edit = Add(definition: Definition) | RemoveAt(row: int) | Clear | SetFormatAt(row: int, format: DisplayFormat)

  function Edited(entries: seq<Definition>, edit: Edit): seq<Definition> {
    match edit
    case Add(definition) => entries + [definition]
    case RemoveAt(row) => if 0 <= row < |entries| then entries[..row] + entries[row + 1..] else entries
    case Clear => []
    case SetFormatAt(row, format) =>
      if 0 <= row < |entries| then entries[row := entries[row].(format := format)] else entries
  }

  // ----- which lists give the same targets -----

  /** The two entries poll the same values: addresses count as 16 bits, formats by their span. */
  predicate SameValuesNamed(a: Definition, b: Definition) {
    && a.registerType == b.registerType && a.Span() == b.Span()
    && Truncate16(a.address) == Truncate16(b.address)
  }

  predicate SameRegisters(a: seq<Definition>, b: seq<Definition>) {
    |a| == |b| && forall k :: 0 <= k < |a| ==> SameValuesNamed(a[k], b[k])
  }

  lemma {:induction false} TargetsAt(entries: seq<Definition>, unitId: u8)
    ensures |TargetsOf(entries, unitId)| == |entries|
    ensures forall k :: 0 <= k < |entries| ==> TargetsOf(entries, unitId)[k] == TargetOf(entries[k], unitId)
  {
    if entries != [] {
      TargetsAt(entries[..|entries| - 1], unitId);
    }
  }

  /** Two lists give the same targets if and only if they name the same values in the same
      order, and for the same unit unless they are empty. */
  lemma SameTargetsIff(a: seq<Definition>, u: u8, b: seq<Definition>, v: u8)
    ensures TargetsOf(a, u) == TargetsOf(b, v) <==> SameRegisters(a, b) && (u == v || a == [])
  {
    TargetsAt(a, u);
    TargetsAt(b, v);
    if TargetsOf(a, u) == TargetsOf(b, v) {
      forall k | 0 <= k < |a|
        ensures SameValuesNamed(a[k], b[k]) && u == v
      {
        assert TargetOf(a[k], u) == TargetOf(b[k], v);
      }
      assert a != [] ==> SameValuesNamed(a[0], b[0]) && u == v;
    }
    if SameRegisters(a, b) && (u == v || a == []) {
      forall k | 0 <= k < |a|
        ensures TargetsOf(a, u)[k] == TargetsOf(b, v)[k]
      {
        assert SameValuesNamed(a[k], b[k]);
      }
    }
  }

  /** What can be said of an edit beforehand: it polls the same if it misses the list, clears
      an empty one, or changes a format without changing a span. */
  predicate KeepsTargets(entries: seq<Definition>, edit: Edit) {
    match edit
    case Add(_) => false
    case RemoveAt(row) => !(0 <= row < |entries|)
    case Clear => entries == []
    case SetFormatAt(row, format) =>
      0 <= row < |entries| ==> IsBitType(entries[row].registerType) || RegisterSpanFor(format) == entries[row].Span()
  }

  /** And those are the only edits that do. */
  lemma EditKeepsTargetsIff(entries: seq<Definition>, edit: Edit, unitId: u8)
    ensures TargetsOf(Edited(entries, edit), unitId) == TargetsOf(entries, unitId) <==> KeepsTargets(entries, edit)
  {
    SameTargetsIff(Edited(entries, edit), unitId, entries, unitId);
    if edit.SetFormatAt? && 0 <= edit.row < |entries| {
      assert SameRegisters(Edited(entries, edit), entries)
        <==> SameValuesNamed(Edited(entries, edit)[edit.row], entries[edit.row]);
    }
  }

  // ----- what targets and edits are -----

  /** Target k is for the unit, and names the type and the address of entry k, one value, or two
      where the format of a register needs them. */
  lemma TargetsNameTheirEntries(entries: seq<Definition>, unitId: u8, k: nat)
    requires k < |entries|
    ensures |TargetsOf(entries, unitId)| == |entries|
    ensures var target, entry := TargetsOf(entries, unitId)[k], entries[k];
            && target.unitId == unitId && target.registerType == entry.registerType
            && target.startAddress == entry.address % 0x1_0000
            && target.quantity
               == match entry.registerType
                  case Coil => 1
                  case DiscreteInput => 1
                  case _ => if entry.format.Float32? || entry.format.Int32Signed? || entry.format.Int32Unsigned? then 2 else 1
  {
    TargetsAt(entries, unitId);
  }

  /** Where entry k of the edited list comes from. */
  lemma EditedEntries(entries: seq<Definition>, edit: Edit, k: nat)
    requires k < |Edited(entries, edit)|
    ensures |Edited(entries, edit)|
         == match edit
            case Add(_) => |entries| + 1
            case RemoveAt(row) => if 0 <= row < |entries| then |entries| - 1 else |entries|
            case Clear => 0
            case SetFormatAt(_, _) => |entries|
    ensures match edit
            case Add(definition) => Edited(entries, edit)[k] == if k < |entries| then entries[k] else definition
            case RemoveAt(row) =>
              var from := if 0 <= row <= k && row < |entries| then k + 1 else k;
              from < |entries| && Edited(entries, edit)[k] == entries[from]
            case Clear => true
            case SetFormatAt(row, format) =>
              && k < |entries|
              && Edited(entries, edit)[k].registerType == entries[k].registerType
              && Edited(entries, edit)[k].address == entries[k].address
              && Edited(entries, edit)[k].format == if k == row then format else entries[k].format
  {
  }
}
