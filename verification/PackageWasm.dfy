/**
 The device's admission check of a Wasm payload, reading it through the cached window.
 Each scan is proved to agree with the host's grammar on every payload; the only other
 outcome is a read that failed.
 */
module PackageWasm {
  import opened Octets
  import opened WasmFormat
  import opened WasmCapabilities
  import opened WasmReader
  import opened WasmVerdict
  import opened PackageVerdict

  datatype Place = Place(begin: nat, end: nat, present: bool)

  const NOWHERE := Place(0, 0, false)
  const SECTION_SLOTS: nat := 13

  predicate Inside(p: Place, payload: seq<Byte>) {
    p.begin <= p.end <= |payload|
  }

  function Content(p: Place, payload: seq<Byte>): seq<Byte>
    requires Inside(p, payload)
  {
    payload[p.begin..p.end]
  }

  /** The places recorded for a set of sections. */
  predicate Located(places: seq<Place>, payload: seq<Byte>, m: Sections) {
    && |places| == SECTION_SLOTS
    && forall id: Byte | id < SECTION_SLOTS ::
         && (places[id].present <==> id in m)
         && (id in m ==> Inside(places[id], payload) && Content(places[id], payload) == m[id])
  }

  // ------------------------------------------------------------------ sections

  /** What a scan that ended tells: unsupported, or just not right. */
  function Told(ok: bool): Fault {
    if ok then Unsupported else Invalid
  }

  method ScanHeader(r: Reader) returns (ok: bool)
    requires r.Valid()
    modifies r, r.block
    ensures r.Valid() && (old(r.readFailed) ==> r.readFailed)
    ensures ok ==> r.size >= 8 && r.payload[..8] == HEADER
    ensures !ok && !r.readFailed ==> r.size < 8 || r.payload[..8] != HEADER
  {
    for index := 0 to 8
      invariant r.Valid() && (old(r.readFailed) ==> r.readFailed)
      invariant index <= r.size && (forall i | 0 <= i < index :: r.payload[i] == HEADER[i])
    {
      var got, byte := r.ByteAt(index);
      if !got || byte != HEADER[index] {
        return false;
      }
    }
    return true;
  }

  /** One section: its id and where its content lies. */
  method NextSection(r: Reader, cursor: nat) returns (ok: bool, id: Byte, begin: nat, end: nat)
    requires r.Valid() && cursor <= r.size == |r.payload|
    modifies r, r.block
    ensures r.Valid() && (old(r.readFailed) ==> r.readFailed)
    ensures ok ==> cursor < begin <= end <= r.size
    ensures ok ==> Section(r.Window(cursor, r.size)) == Got((id, r.Window(begin, end)), r.Window(end, r.size))
    ensures !ok && !r.readFailed ==> Section(r.Window(cursor, r.size)).Fail?
  {
    begin, end := cursor, cursor;
    ok, id, begin := r.NextByte(r.size, cursor);
    if ok {
      ok, begin, end := r.NextSpan(r.size, begin);
    }
  }

  predicate AllPresent(places: seq<Place>)
    requires |places| == SECTION_SLOTS
  {
    places[TYPES].present && places[FUNCTIONS].present && places[MEMORIES].present
    && places[EXPORTS].present && places[CODE].present
  }

  lemma RequiredArePresent(places: seq<Place>, payload: seq<Byte>, m: Sections)
    requires Located(places, payload, m)
    ensures HasRequired(m) <==> AllPresent(places)
  {
  }

  /** Takes in the section at the cursor. */
  method ScanSection(r: Reader, cursor: nat, last: Byte, places: array<Place>, ghost m: Sections)
    returns (ok: bool, unsupported: bool, end: nat, newest: Byte, ghost m': Sections)
    requires r.Valid() && cursor < r.size == |r.payload| && places.Length == SECTION_SLOTS
    requires Located(places[..], r.payload, m)
    modifies r, r.block, places
    ensures r.Valid() && (old(r.readFailed) ==> r.readFailed)
    ensures ok && !unsupported ==> Located(places[..], r.payload, m') && cursor < end <= r.size
    ensures ok && !unsupported ==>
              SectionsFrom(r.Window(cursor, r.size), last, m) == SectionsFrom(r.Window(end, r.size), newest, m')
    ensures !(ok && !unsupported) && !r.readFailed ==>
              SectionsFrom(r.Window(cursor, r.size), last, m) == Refused(Told(ok))
  {
    ghost var window := r.Window(cursor, r.size);
    assert window != [];
    m', newest, unsupported := m, last, false;
    var id, begin;
    ok, id, begin, end := NextSection(r, cursor);
    if !ok {
      return;
    }
    if !Admitted(id) {
      unsupported := true;
      return;
    }
    if id != CUSTOM {
      if id <= last {
        ok := false;
        return;
      }
      newest, m' := id, m[id := r.Window(begin, end)];
      places[id] := Place(begin, end, true);
    } else {
      var named, features, _ := r.NameIs(end, begin, TARGET_FEATURES);
      ok, unsupported := named, features;
    }
  }

  method ScanSections(r: Reader, places: array<Place>)
    returns (ok: bool, unsupported: bool, ghost m: Sections)
    requires r.Valid() && places.Length == SECTION_SLOTS
    requires forall i | 0 <= i < SECTION_SLOTS :: places[i] == NOWHERE
    modifies r, r.block, places
    ensures r.Valid() && (old(r.readFailed) ==> r.readFailed)
    ensures ok && !unsupported ==>
              SectionsOutcome(r.payload) == Passed(m) && HasRequired(m) && Located(places[..], r.payload, m)
    ensures !(ok && !unsupported) && !r.readFailed ==> SectionsOutcome(r.payload) == Refused(Told(ok))
  {
    m, unsupported := map[], false;
    ok := ScanHeader(r);
    if !ok {
      return;
    }
    var cursor: nat, last: Byte := 8, 0;
    ghost var sections := SectionsFrom(r.payload[8..], 0, map[]);
    assert r.payload[8..] == r.Window(8, r.size);
    while cursor < r.size
      invariant r.Valid() && (old(r.readFailed) ==> r.readFailed)
      invariant 8 <= cursor <= r.size && |r.payload| == r.size && !unsupported
      invariant sections == SectionsFrom(r.Window(cursor, r.size), last, m)
      invariant Located(places[..], r.payload, m)
    {
      ok, unsupported, cursor, last, m := ScanSection(r, cursor, last, places, m);
      if !ok || unsupported {
        return;
      }
    }
    assert r.Window(cursor, r.size) == [];
    RequiredArePresent(places[..], r.payload, m);
    ok := AllPresent(places[..]);
  }

  // ------------------------------------------------------------------ types

  /** Compares value types with the wanted ones, as long as they have matched. */
  method ScanValueTypes(r: Reader, end: nat, start: nat, match0: bool, wanted: seq<Byte>)
    returns (ok: bool, same: bool, cursor: nat)
    requires r.Valid() && start <= end <= r.size == |r.payload| && (match0 ==> |wanted| == end - start)
    modifies r, r.block
    ensures r.Valid() && (old(r.readFailed) ==> r.readFailed)
    ensures ok ==> cursor == end && ValueTypes(r.Window(start, end))
    ensures ok ==> (same <==> match0 && r.Window(start, end) == wanted)
    ensures !ok && !r.readFailed ==> !ValueTypes(r.Window(start, end))
  {
    ghost var types := r.Window(start, end);
    cursor, same := start, match0;
    while cursor < end
      invariant r.Valid() && (old(r.readFailed) ==> r.readFailed)
      invariant start <= cursor <= end && (same ==> match0)
      invariant forall i | 0 <= i < cursor - start :: ValueType(types[i])
      invariant match0 ==> (same <==> forall i | 0 <= i < cursor - start :: types[i] == wanted[i])
    {
      var part, octet := cursor - start, 0;
      ok, octet, cursor := r.NextByte(end, cursor);
      assert ok ==> octet == types[part];
      if !ok || !ValueType(octet) {
        return false, false, cursor;
      }
      if same && octet != wanted[part] {
        same := false;
      }
    }
    ok := true;
  }

  /** A counted list of value types. */
  method ScanTypePart(r: Reader, end: nat, start: nat, match0: bool, wanted: seq<Byte>)
    returns (ok: bool, same: bool, cursor: nat)
    requires r.Valid() && start <= end <= r.size == |r.payload|
    modifies r, r.block
    ensures r.Valid() && (old(r.readFailed) ==> r.readFailed)
    ensures ok ==> start <= cursor <= end && Name(r.Window(start, end)).Got?
    ensures ok ==> Name(r.Window(start, end)).rest == r.Window(cursor, end)
    ensures ok ==> ValueTypes(Name(r.Window(start, end)).value)
    ensures ok ==> (same <==> match0 && Name(r.Window(start, end)).value == wanted)
    ensures !ok && !r.readFailed ==>
              Name(r.Window(start, end)).Fail? || !ValueTypes(Name(r.Window(start, end)).value)
  {
    var begin, next;
    same, cursor := false, start;
    ok, begin, next := r.NextSpan(end, start);
    if ok {
      ok, same, cursor := ScanValueTypes(r, next, begin, match0 && next - begin == |wanted|, wanted);
    }
  }

  method ScanTypeDef(r: Reader, end: nat, start: nat, match0: bool, wanted: FuncType)
    returns (ok: bool, same: bool, cursor: nat, ghost t: FuncType)
    requires r.Valid() && start <= end <= r.size == |r.payload|
    modifies r, r.block
    ensures r.Valid() && (old(r.readFailed) ==> r.readFailed)
    ensures ok ==> start <= cursor <= end && TypeDef(r.Window(start, end)) == Got(t, r.Window(cursor, end))
    ensures ok ==> (same <==> match0 && t == wanted)
    ensures !ok && !r.readFailed ==> TypeDef(r.Window(start, end)).Fail?
  {
    ghost var window := r.Window(start, end);
    var form;
    t, same := wanted, false;
    ok, form, cursor := r.NextByte(end, start);
    if !ok || form != 0x60 {
      ok := false;
      return;
    }
    assert window[1..] == r.Window(cursor, end);
    ghost var params := Name(r.Window(cursor, end));
    ok, same, cursor := ScanTypePart(r, end, cursor, match0, wanted.params);
    if !ok {
      return;
    }
    ghost var results := Name(r.Window(cursor, end));
    ok, same, cursor := ScanTypePart(r, end, cursor, same, wanted.results);
    if ok {
      t := FuncType(params.value, results.value);
    }
  }

  /** Whether the content declares types and the wanted one is t. */
  predicate DeclaresType(content: seq<Byte>, wanted: nat, t: FuncType) {
    Types(content).Some? && HasType(Types(content).value, wanted, t)
  }

  lemma HasTypeStep(list: seq<FuncType>, def: FuncType, wanted: nat, t: FuncType)
    ensures HasType(list + [def], wanted, t) <==>
            if wanted == |list| then def == t else HasType(list, wanted, t)
  {
  }

  /** Walks the whole type section for the sake of one type. */
  method TypeMatches(r: Reader, p: Place, wanted: nat, t: FuncType) returns (ok: bool)
    requires r.Valid() && p.present && Inside(p, r.payload) && |r.payload| == r.size
    modifies r, r.block
    ensures r.Valid() && (old(r.readFailed) ==> r.readFailed)
    ensures ok ==> DeclaresType(Content(p, r.payload), wanted, t)
    ensures !ok && !r.readFailed ==> !DeclaresType(Content(p, r.payload), wanted, t)
  {
    var count: nat, cursor: nat, found := 0, 0, false;
    assert Content(p, r.payload) == r.Window(p.begin, p.end);
    ok, count, cursor := r.NextU32(p.end, p.begin);
    if !ok || count > p.end - cursor {
      return false;
    }
    ghost var all := ListOf(TypeDef, r.Window(cursor, p.end), count);
    ghost var list: seq<FuncType> := [];
    ReadingStart(TypeDef, count, r.Window(cursor, p.end));
    for index := 0 to count
      invariant r.Valid() && (old(r.readFailed) ==> r.readFailed)
      invariant cursor <= p.end && |list| == index
      invariant Reading(TypeDef, all, count, list, r.Window(cursor, p.end))
      invariant found <==> HasType(list, wanted, t)
    {
      ghost var window, def := r.Window(cursor, p.end), t;
      var same;
      ReadingEnd(TypeDef, all, count, list, window);
      ok, same, cursor, def := ScanTypeDef(r, p.end, cursor, index == wanted, t);
      if !ok {
        return;
      }
      ReadingStep(TypeDef, all, count, list, def, window, r.Window(cursor, p.end));
      HasTypeStep(list, def, wanted, t);
      list := list + [def];
      if index == wanted {
        found := same;
      }
    }
    ReadingEnd(TypeDef, all, count, list, r.Window(cursor, p.end));
    ok := cursor == p.end && found;
  }

  // ------------------------------------------------------------------ imports

  /** Compares the field name at the cursor with each known one. */
  method ScanField(r: Reader, end: nat, start: nat) returns (ok: bool, known: Option<Import>, cursor: nat)
    requires r.Valid() && start <= end <= r.size == |r.payload|
    modifies r, r.block
    ensures r.Valid() && (old(r.readFailed) ==> r.readFailed)
    ensures ok ==> start <= cursor <= end && Name(r.Window(start, end)).Got?
    ensures ok ==> Name(r.Window(start, end)).rest == r.Window(cursor, end)
    ensures ok ==> known == Known(Name(r.Window(start, end)).value)
    ensures !ok && !r.readFailed ==> Name(r.Window(start, end)).Fail?
  {
    var clockName, logName, startName, cancelName := false, false, false, false;
    known := None;
    ok, clockName, cursor := r.NameIs(end, start, MONOTONIC_MS);
    if ok && !clockName {
      ok, logName, cursor := r.NameIs(end, start, LOG);
      if ok && !logName {
        ok, startName, cursor := r.NameIs(end, start, TIMER_START);
        if ok && !startName {
          ok, cancelName, cursor := r.NameIs(end, start, TIMER_CANCEL);
        }
      }
    }
    if ok {
      known := if clockName then Some(Clock) else if logName then Some(Log)
               else if startName then Some(TimerStart) else if cancelName then Some(TimerCancel) else None;
    }
  }

  /** The whole entry of one import; whether it is allowed is not asked yet. */
  method ScanImportDef(r: Reader, end: nat, start: nat)
    returns (ok: bool, ours: bool, known: Option<Import>, kind: Byte, index: U32, cursor: nat, ghost e: ImportEntry)
    requires r.Valid() && start <= end <= r.size == |r.payload|
    modifies r, r.block
    ensures r.Valid() && (old(r.readFailed) ==> r.readFailed)
    ensures ok ==> start <= cursor <= end && ImportDef(r.Window(start, end)) == Got(e, r.Window(cursor, end))
    ensures ok ==> known == Known(e.field) && kind == e.kind && index == e.typeIndex && (ours <==> e.mod == MODULE)
    ensures !ok && !r.readFailed ==> ImportDef(r.Window(start, end)).Fail?
  {
    known, kind, index, e := None, 0, 0, ImportEntry([], [], 0, 0);
    ok, ours, cursor := r.NameIs(end, start, MODULE);
    if !ok {
      return;
    }
    ghost var mod, field := Name(r.Window(start, end)), Name(r.Window(cursor, end));
    ok, known, cursor := ScanField(r, end, cursor);
    if !ok {
      return;
    }
    ok, kind, index, cursor := r.NextKindAndIndex(end, cursor);
    e := ImportEntry(mod.value, field.value, kind, index);
  }

  /** Takes in the import at the cursor. */
  method ScanImport(r: Reader, end: nat, start: nat, place: Place, seen: Bits, ghost entries: seq<ImportEntry>)
    returns (ok: bool, unsupported: bool, found: Import, cursor: nat, ghost e: ImportEntry)
    requires r.Valid() && start <= end <= r.size == |r.payload| && place.present && Inside(place, r.payload)
    requires seen == ImportBits(ImportSet(entries))
    modifies r, r.block
    ensures r.Valid() && (old(r.readFailed) ==> r.readFailed)
    ensures ok ==> start <= cursor <= end && ImportDef(r.Window(start, end)) == Got(e, r.Window(cursor, end))
    ensures !ok && !r.readFailed ==> ImportDef(r.Window(start, end)).Fail?
    ensures ok && !unsupported ==>
              Known(e.field) == Some(found) && ImportTest(Types(Content(place, r.payload)))(entries, e)
    ensures ok && unsupported && !r.readFailed ==> !ImportTest(Types(Content(place, r.payload)))(entries, e)
  {
    found, unsupported := Clock, false;
    var ours, known, kind, index;
    ok, ours, known, kind, index, cursor, e := ScanImportDef(r, end, start);
    if !ok {
      return;
    }
    if !ours || kind != 0 || known.None? {
      unsupported := true;
      return;
    }
    found := known.value;
    ImportBitsStep(ImportSet(entries), found);
    if ImportBit(found) in seen {
      unsupported := true;
      return;
    }
    var fits := TypeMatches(r, place, index, Signature(found));
    unsupported := !fits;
  }

  method ScanImports(r: Reader, places: array<Place>, ghost m: Sections)
    returns (ok: bool, unsupported: bool, capabilities: Bits, imported: nat, ghost entries: seq<ImportEntry>)
    requires r.Valid() && |r.payload| == r.size && Located(places[..], r.payload, m) && HasRequired(m)
    requires places.Length == SECTION_SLOTS
    modifies r, r.block
    ensures r.Valid() && (old(r.readFailed) ==> r.readFailed)
    ensures ok && !unsupported ==>
              && ImportsIn(m) == Passed(entries) && imported == |entries|
              && capabilities == CapabilityBits(Required(ImportSet(entries)))
    ensures !(ok && !unsupported) && !r.readFailed ==> ImportsIn(m) == Refused(Told(ok))
  {
    ok, unsupported, capabilities, imported, entries := true, false, {}, 0, [];
    NothingMasked();
    if places[IMPORTS].present {
      assert m[IMPORTS] == Content(places[IMPORTS], r.payload);
      ok, unsupported, capabilities, imported, entries := ScanImportSection(r, places[IMPORTS], places[TYPES]);
    }
  }

  method ScanImportSection(r: Reader, p: Place, place: Place)
    returns (ok: bool, unsupported: bool, capabilities: Bits, imported: nat, ghost entries: seq<ImportEntry>)
    requires r.Valid() && |r.payload| == r.size && p.present && place.present
    requires Inside(p, r.payload) && Inside(place, r.payload)
    modifies r, r.block
    ensures r.Valid() && (old(r.readFailed) ==> r.readFailed)
    ensures ok && !unsupported ==>
              && ImportsOutcome(Types(Content(place, r.payload)), Content(p, r.payload)) == Passed(entries)
              && imported == |entries| && capabilities == CapabilityBits(Required(ImportSet(entries)))
    ensures !(ok && !unsupported) && !r.readFailed ==>
              ImportsOutcome(Types(Content(place, r.payload)), Content(p, r.payload)) == Refused(Told(ok))
  {
    ghost var types := Types(Content(place, r.payload));
    ghost var test, all := ImportTest(types), ImportsOutcome(types, Content(p, r.payload));
    assert Content(p, r.payload) == r.Window(p.begin, p.end);
    unsupported, capabilities, imported, entries := false, {}, 0, [];
    var count: nat, cursor: nat;
    ok, count, cursor := r.NextU32(p.end, p.begin);
    if !ok {
      return;
    }
    if count > IMPORTS_MAX {
      unsupported := true;
      return;
    }
    AheadStarts(Plain(ImportDef), test, r.Window(cursor, p.end), count);
    NothingMasked();
    var seen: Bits := {};
    while imported < count
      invariant r.Valid() && (old(r.readFailed) ==> r.readFailed)
      invariant p.begin <= cursor <= p.end && imported == |entries| <= count && !unsupported
      invariant Ahead(all, Plain(ImportDef), test, r.Window(cursor, p.end), count, entries)
      invariant Masked(entries, seen, capabilities)
    {
      ghost var e;
      var found;
      AheadStops(all, Plain(ImportDef), test, r.Window(cursor, p.end), count, entries);
      ok, unsupported, found, cursor, e := ScanImport(r, p.end, cursor, place, seen, entries);
      if !ok || unsupported {
        return;
      }
      MaskedGrow(entries, seen, capabilities, e);
      seen := seen + {ImportBit(found)};
      capabilities := capabilities + {CapabilityBit(Needs(found))};
      entries := entries + [e];
      imported := imported + 1;
    }
    AheadStops(all, Plain(ImportDef), test, r.Window(cursor, p.end), count, entries);
    ok := cursor == p.end;
  }

  // ------------------------------------------------------------------ exports

  const EXPORT_ORDER: seq<Export> := [Init, OnEvent, Stop, Memory]
  const EXPORT_NAMES: seq<seq<Byte>> := [INIT_NAME, ON_EVENT_NAME, STOP_NAME, MEMORY_NAME]
  const ALL_FOUND: Bits := {0, 1, 2, 3}

  function ExportBit(x: Export): nat {
    match x case Init => 0 case OnEvent => 1 case Stop => 2 case Memory => 3
  }

  function ExportBits(s: set<Export>): Bits {
    set x | x in s :: ExportBit(x)
  }

  /** Where the index of an entry point is kept. */
  function EntrySlot(x: Export): nat {
    match x case Init => 0 case OnEvent => 1 case Stop => 2 case Memory => 3
  }

  lemma ExportBitsStep(s: set<Export>, x: Export)
    ensures ExportBit(x) in ExportBits(s) <==> x in s
    ensures ExportBits(s + {x}) == ExportBits(s) + {ExportBit(x)}
  {
    if ExportBit(x) in ExportBits(s) {
      var y :| y in s && ExportBit(y) == ExportBit(x);
      assert x == y;
    }
  }

  lemma AllExportsFound(s: set<Export>)
    ensures ExportBits(s) == ALL_FOUND <==> s == {Init, OnEvent, Stop, Memory}
  {
    ExportBitsStep(s, Init);
    ExportBitsStep(s, OnEvent);
    ExportBitsStep(s, Stop);
    ExportBitsStep(s, Memory);
    if ExportBits(s) == ALL_FOUND {
      forall y | y in s ensures y in {Init, OnEvent, Stop, Memory} {
        match y case Init => case OnEvent => case Stop => case Memory =>
      }
      assert s == {Init, OnEvent, Stop, Memory};
    }
    if s == {Init, OnEvent, Stop, Memory} {
      assert ExportBits(s) == ALL_FOUND;
    }
  }

  /** The four names are different, so the first that matches is the only one. */
  lemma ExportNamesAreDistinct(item: nat)
    requires item < 4
    ensures ExportNamed(EXPORT_NAMES[item]) == Some(EXPORT_ORDER[item])
  {
    assert |INIT_NAME| == 15 && |ON_EVENT_NAME| == 19 && |STOP_NAME| == 15 && |MEMORY_NAME| == 6;
    assert INIT_NAME[11] != STOP_NAME[11];
  }

  method FindExport(r: Reader, start: nat, end: nat) returns (ok: bool, target: Option<Export>)
    requires r.Valid() && start <= end <= r.size == |r.payload|
    modifies r, r.block
    ensures r.Valid() && (old(r.readFailed) ==> r.readFailed)
    ensures ok ==> target == ExportNamed(r.Window(start, end))
    ensures !ok ==> r.readFailed
  {
    target := None;
    for item := 0 to 4
      invariant r.Valid() && (old(r.readFailed) ==> r.readFailed)
      invariant forall j | 0 <= j < item :: r.Window(start, end) != EXPORT_NAMES[j]
    {
      if end - start == |EXPORT_NAMES[item]| {
        var same;
        ok, same := r.SameBytes(start, EXPORT_NAMES[item]);
        if !ok {
          return;
        }
        if same {
          ExportNamesAreDistinct(item);
          return true, Some(EXPORT_ORDER[item]);
        }
      }
    }
    assert r.Window(start, end) != EXPORT_NAMES[0] && r.Window(start, end) != EXPORT_NAMES[1]
        && r.Window(start, end) != EXPORT_NAMES[2] && r.Window(start, end) != EXPORT_NAMES[3];
    ok := true;
  }

  /** What the scan knows after some of the exports. */
  predicate ExportsSoFar(entries: seq<ExportEntry>, found: Bits, functions: seq<nat>) {
    && found == ExportBits(ExportTable(entries).Keys)
    && |functions| == 3 && EntriesRecorded(ExportTable(entries), functions)
  }

  predicate EntriesRecorded(table: ExportMap, functions: seq<nat>)
    requires |functions| == 3
  {
    && (Init in table ==> functions[0] == table[Init])
    && (OnEvent in table ==> functions[1] == table[OnEvent])
    && (Stop in table ==> functions[2] == table[Stop])
  }

  lemma ExportsGrow(entries: seq<ExportEntry>, found: Bits, functions: seq<nat>, e: ExportEntry, x: Export)
    requires ExportsSoFar(entries, found, functions) && ExportNamed(e.name) == Some(x)
    ensures ExportsSoFar(entries + [e], found + {ExportBit(x)}, RecordEntry(functions, x, e.index))
  {
    assert (entries + [e])[..|entries|] == entries;
    ExportBitsStep(ExportTable(entries).Keys, x);
    assert ExportTable(entries + [e]).Keys == ExportTable(entries).Keys + {x};
  }

  /** The whole entry of one export; whether it is allowed is not asked yet. */
  method ScanExportDef(r: Reader, end: nat, start: nat)
    returns (ok: bool, target: Option<Export>, kind: Byte, index: U32, cursor: nat, ghost e: ExportEntry)
    requires r.Valid() && start <= end <= r.size == |r.payload|
    modifies r, r.block
    ensures r.Valid() && (old(r.readFailed) ==> r.readFailed)
    ensures ok ==> start <= cursor <= end && ExportDef(r.Window(start, end)) == Got(e, r.Window(cursor, end))
    ensures ok ==> target == ExportNamed(e.name) && kind == e.kind && index == e.index
    ensures !ok && !r.readFailed ==> ExportDef(r.Window(start, end)).Fail?
  {
    target, kind, index, e := None, 0, 0, ExportEntry([], 0, 0);
    var begin;
    ok, begin, cursor := r.NextSpan(end, start);
    if !ok {
      return;
    }
    ghost var name := r.Window(begin, cursor);
    ok, target := FindExport(r, begin, cursor);
    if !ok {
      return;
    }
    ok, kind, index, cursor := r.NextKindAndIndex(end, cursor);
    e := ExportEntry(name, kind, index);
  }

  /** The device's test of an export entry. */
  predicate ExportUnsupported(found: Bits, target: Option<Export>, kind: Byte, index: U32) {
    target.None? || ExportBit(target.value) in found || kind != (if target.value == Memory then 2 else 0)
    || (target.value == Memory && index != 0)
  }

  lemma UnsupportedIsNotAllowed(found: Bits, table: ExportMap, e: ExportEntry)
    requires found == ExportBits(table.Keys)
    ensures ExportUnsupported(found, ExportNamed(e.name), e.kind, e.index) <==> !ExportAllowed(e, table)
  {
    if ExportNamed(e.name).Some? {
      ExportBitsStep(table.Keys, ExportNamed(e.name).value);
    }
  }

  function RecordEntry(functions: seq<nat>, x: Export, index: nat): seq<nat>
    requires |functions| == 3
  {
    if x == Memory then functions else functions[EntrySlot(x) := index]
  }

  lemma RecordedAreIndices(table: ExportMap, functions: seq<nat>)
    requires |functions| == 3 && EntriesRecorded(table, functions) && {Init, OnEvent, Stop} <= table.Keys
    ensures functions == Indices(table)
  {
  }

  method ScanExports(r: Reader, p: Place)
    returns (ok: bool, unsupported: bool, functions: seq<nat>, ghost entries: seq<ExportEntry>)
    requires r.Valid() && |r.payload| == r.size && p.present && Inside(p, r.payload)
    modifies r, r.block
    ensures r.Valid() && (old(r.readFailed) ==> r.readFailed)
    ensures ok && !unsupported ==>
              && ExportsOutcome(Content(p, r.payload)) == Passed(entries)
              && functions == Indices(ExportTable(entries))
    ensures !(ok && !unsupported) && !r.readFailed ==> ExportsOutcome(Content(p, r.payload)) == Refused(Told(ok))
  {
    assert Content(p, r.payload) == r.Window(p.begin, p.end);
    unsupported, functions, entries := false, [0, 0, 0], [];
    var count: nat, cursor: nat;
    ok, count, cursor := r.NextU32(p.end, p.begin);
    if !ok {
      return;
    }
    if count != EXPORT_COUNT {
      unsupported := true;
      return;
    }
    ghost var all := ListFrom(Plain(ExportDef), ExportTest(), r.Window(cursor, p.end), count, []);
    AheadStarts(Plain(ExportDef), ExportTest(), r.Window(cursor, p.end), count);
    var found: Bits := {};
    for index := 0 to count
      invariant r.Valid() && (old(r.readFailed) ==> r.readFailed)
      invariant p.begin <= cursor <= p.end && index == |entries| <= count && !unsupported
      invariant Ahead(all, Plain(ExportDef), ExportTest(), r.Window(cursor, p.end), count, entries)
      invariant ExportsSoFar(entries, found, functions)
    {
      ghost var e;
      var target, kind, wasmIndex;
      AheadStops(all, Plain(ExportDef), ExportTest(), r.Window(cursor, p.end), count, entries);
      ok, target, kind, wasmIndex, cursor, e := ScanExportDef(r, p.end, cursor);
      if !ok {
        return;
      }
      UnsupportedIsNotAllowed(found, ExportTable(entries), e);
      if ExportUnsupported(found, target, kind, wasmIndex) {
        unsupported := true;
        return;
      }
      ExportsGrow(entries, found, functions, e, target.value);
      found := found + {ExportBit(target.value)};
      entries := entries + [e];
      functions := RecordEntry(functions, target.value, wasmIndex);
    }
    AheadStops(all, Plain(ExportDef), ExportTest(), r.Window(cursor, p.end), count, entries);
    AllExportsFound(ExportTable(entries).Keys);
    ok := cursor == p.end && found == ALL_FOUND;
    if ok {
      RecordedAreIndices(ExportTable(entries), functions);
    }
  }

  // ------------------------------------------------------------------ functions, memory and code

  lemma IndexRefused(all: Read<seq<U32>>, list: seq<U32>, current: U32, typeCount: nat)
    requires all.Got? ==> |all.value| > |list| && all.value[..|list| + 1] == list + [current]
    requires current >= typeCount
    ensures all.Got? ==> !AllBelow(all.value, typeCount)
  {
    if all.Got? {
      assert all.value[..|list| + 1][|list|] == current;
    }
  }

  lemma AllBelowStep(list: seq<U32>, current: U32, n: nat)
    ensures AllBelow(list + [current], n) <==> AllBelow(list, n) && current < n
    ensures forall i | 0 <= i < |list| :: (list + [current])[i] == list[i]
  {
    assert (list + [current])[|list|] == current;
    if AllBelow(list + [current], n) {
      forall i | 0 <= i < |list| ensures list[i] < n {
        assert (list + [current])[i] == list[i];
      }
    }
  }

  /** The type index of one defined function, after a walk through all of them. */
  method FunctionType(r: Reader, p: Place, wanted: nat, typeCount: nat)
    returns (ok: bool, typeIndex: U32, definedCount: nat)
    requires r.Valid() && |r.payload| == r.size && p.present && Inside(p, r.payload)
    modifies r, r.block
    ensures r.Valid() && (old(r.readFailed) ==> r.readFailed)
    ensures ok ==> Functions(Content(p, r.payload), typeCount).Some?
    ensures ok ==>
              var list := Functions(Content(p, r.payload), typeCount).value;
              definedCount == |list| && wanted < |list| && typeIndex == list[wanted]
    ensures !ok && !r.readFailed && Functions(Content(p, r.payload), typeCount).Some? ==>
              wanted >= |Functions(Content(p, r.payload), typeCount).value|
  {
    assert Content(p, r.payload) == r.Window(p.begin, p.end);
    typeIndex, definedCount := 0, 0;
    var count: nat, cursor: nat;
    ok, count, cursor := r.NextU32(p.end, p.begin);
    if !ok || count > p.end - cursor || wanted >= count {
      return false, 0, 0;
    }
    ghost var all := ListOf<U32>(U32At, r.Window(cursor, p.end), count);
    ghost var list: seq<U32> := [];
    ReadingStart<U32>(U32At, count, r.Window(cursor, p.end));
    for index := 0 to count
      invariant r.Valid() && (old(r.readFailed) ==> r.readFailed)
      invariant p.begin <= cursor <= p.end && index == |list|
      invariant Reading<U32>(U32At, all, count, list, r.Window(cursor, p.end))
      invariant AllBelow(list, typeCount)
      invariant wanted < index ==> typeIndex == list[wanted]
    {
      ghost var window := r.Window(cursor, p.end);
      var current: U32;
      ReadingEnd<U32>(U32At, all, count, list, window);
      ok, current, cursor := r.NextU32(p.end, cursor);
      if !ok {
        return;
      }
      ReadingStep<U32>(U32At, all, count, list, current, window, r.Window(cursor, p.end));
      if current >= typeCount {
        IndexRefused(all, list, current, typeCount);
        return false, 0, 0;
      }
      AllBelowStep(list, current, typeCount);
      list := list + [current];
      if index == wanted {
        typeIndex := current;
      }
    }
    ReadingEnd<U32>(U32At, all, count, list, r.Window(cursor, p.end));
    definedCount := count;
    ok := cursor == p.end;
  }

  method ScanMemory(r: Reader, p: Place, limit: nat) returns (ok: bool)
    requires r.Valid() && |r.payload| == r.size && p.present && Inside(p, r.payload)
    modifies r, r.block
    ensures r.Valid() && (old(r.readFailed) ==> r.readFailed)
    ensures ok ==> MemoryWithin(Content(p, r.payload), limit / PAGE_BYTES)
    ensures !ok && !r.readFailed ==> !MemoryWithin(Content(p, r.payload), limit / PAGE_BYTES)
  {
    assert Content(p, r.payload) == r.Window(p.begin, p.end);
    var value: U32, minimum: U32, cursor;
    ok, value, cursor := r.NextU32(p.end, p.begin);
    if !ok || value != 1 {
      return false;
    }
    ok, value, cursor := r.NextU32(p.end, cursor);
    if !ok || value != 1 {
      return false;
    }
    ok, minimum, cursor := r.NextU32(p.end, cursor);
    if !ok || minimum == 0 {
      return false;
    }
    ok, value, cursor := r.NextU32(p.end, cursor);
    ok := ok && minimum <= value && value <= limit / PAGE_BYTES && cursor == p.end;
  }

  /** Every function body ends with the end opcode, and there is one for every function. */
  method ScanCode(r: Reader, p: Place, definedCount: nat) returns (ok: bool)
    requires r.Valid() && |r.payload| == r.size && p.present && Inside(p, r.payload)
    modifies r, r.block
    ensures r.Valid() && (old(r.readFailed) ==> r.readFailed)
    ensures ok ==> CodeMatches(Content(p, r.payload), definedCount)
    ensures !ok && !r.readFailed ==> !CodeMatches(Content(p, r.payload), definedCount)
  {
    assert Content(p, r.payload) == r.Window(p.begin, p.end);
    var count: nat, cursor: nat;
    ok, count, cursor := r.NextU32(p.end, p.begin);
    if !ok || count != definedCount {
      return false;
    }
    ListConsumes(Body, r.Window(cursor, p.end), count);
    if count > p.end - cursor {
      return false;
    }
    ghost var all := ListOf(Body, r.Window(cursor, p.end), count);
    ghost var bodies: seq<seq<Byte>> := [];
    ReadingStart(Body, count, r.Window(cursor, p.end));
    for index := 0 to count
      invariant r.Valid() && (old(r.readFailed) ==> r.readFailed)
      invariant p.begin <= cursor <= p.end && index == |bodies|
      invariant Reading(Body, all, count, bodies, r.Window(cursor, p.end))
    {
      ghost var window, body := r.Window(cursor, p.end), [];
      ReadingEnd(Body, all, count, bodies, window);
      ok, cursor, body := ScanBody(r, p.end, cursor);
      if !ok {
        return;
      }
      ReadingStep(Body, all, count, bodies, body, window, r.Window(cursor, p.end));
      bodies := bodies + [body];
    }
    ReadingEnd(Body, all, count, bodies, r.Window(cursor, p.end));
    ok := cursor == p.end;
  }

  lemma LastOfSlice(s: seq<Byte>, i: nat, j: nat)
    requires i + 2 <= j <= |s|
    ensures BodyAllowed(s[i..j]) <==> s[j - 1] == 0x0b
  {
  }

  method ScanBody(r: Reader, end: nat, start: nat) returns (ok: bool, cursor: nat, ghost body: seq<Byte>)
    requires r.Valid() && start <= end <= r.size == |r.payload|
    modifies r, r.block
    ensures r.Valid() && (old(r.readFailed) ==> r.readFailed)
    ensures ok ==> start <= cursor <= end && Body(r.Window(start, end)) == Got(body, r.Window(cursor, end))
    ensures !ok && !r.readFailed ==> Body(r.Window(start, end)).Fail?
  {
    body := [];
    var begin, last;
    ok, begin, cursor := r.NextSpan(end, start);
    if !ok {
      return;
    }
    body := r.Window(begin, cursor);
    if cursor - begin < 2 {
      return false, cursor, body;
    }
    LastOfSlice(r.payload, begin, cursor);
    ok, last := r.ByteAt(cursor - 1);
    ok := ok && last == 0x0b;
  }

  // ------------------------------------------------------------------ the whole check

  const ENTRIES: seq<Export> := [Init, OnEvent, Stop]

  lemma DefinedAt(types: seq<FuncType>, functions: seq<U32>, imported: nat, index: nat, wanted: nat, t: FuncType)
    requires index == imported + wanted
    ensures DefinedAs(types, functions, imported, index, t) <==>
            wanted < |functions| && HasType(types, functions[wanted], t)
  {
    assert index - imported == wanted;
  }

  lemma EntryAt(m: Sections, imported: nat, index: nat, wanted: nat, x: Export)
    requires HasRequired(m) && index == imported + wanted
    ensures var functions := Functions(m[FUNCTIONS], TypeCount(m));
            EntryFits(m, imported, index, x) <==>
            && functions.Some? && wanted < |functions.value|
            && DeclaresType(m[TYPES], functions.value[wanted], EntryType(x))
  {
    var functions := Functions(m[FUNCTIONS], TypeCount(m));
    if Types(m[TYPES]).Some? && functions.Some? {
      DefinedAt(Types(m[TYPES]).value, functions.value, imported, index, wanted, EntryType(x));
    }
  }

  ghost predicate Places(r: Reader, m: Sections, types: Place, functions: Place) {
    && HasRequired(m) && |r.payload| == r.size
    && types.present && Inside(types, r.payload) && m[TYPES] == Content(types, r.payload)
    && functions.present && Inside(functions, r.payload) && m[FUNCTIONS] == Content(functions, r.payload)
  }

  method CheckEntry(
    r: Reader, types: Place, functions: Place, typeCount: nat, imported: nat, index: nat, x: Export, ghost m: Sections)
    returns (ok: bool, unsupported: bool, definedCount: nat)
    requires r.Valid() && Places(r, m, types, functions) && typeCount == TypeCount(m)
    modifies r, r.block
    ensures r.Valid() && (old(r.readFailed) ==> r.readFailed)
    ensures ok && !unsupported ==> EntryFault(m, imported, index, x).None? && definedCount == Defined(m)
    ensures !(ok && !unsupported) && !r.readFailed ==> EntryFault(m, imported, index, x) == Some(Told(ok))
  {
    if index < imported {
      return true, true, 0;
    }
    unsupported := false;
    var typeIndex;
    var wanted := index - imported;
    EntryAt(m, imported, index, wanted, x);
    ok, typeIndex, definedCount := FunctionType(r, functions, wanted, typeCount);
    if ok {
      ok := TypeMatches(r, types, typeIndex, EntryType(x));
    }
  }

  /** The three entry points in turn, each with the same tables. */
  method CheckEntries(r: Reader, types: Place, functions: Place, imported: nat, indices: seq<nat>, ghost m: Sections)
    returns (ok: bool, unsupported: bool, definedCount: nat)
    requires r.Valid() && Places(r, m, types, functions) && |indices| == 3
    modifies r, r.block
    ensures r.Valid() && (old(r.readFailed) ==> r.readFailed)
    ensures ok && !unsupported ==> EntriesFault(m, imported, indices).None? && definedCount == Defined(m)
    ensures !(ok && !unsupported) && !r.readFailed ==> EntriesFault(m, imported, indices) == Some(Told(ok))
  {
    unsupported, definedCount := false, 0;
    assert Content(types, r.payload) == r.Window(types.begin, types.end);
    var count, next;
    ok, count, next := r.NextU32(types.end, types.begin);
    if !ok {
      return;
    }
    for i := 0 to 3
      invariant r.Valid() && (old(r.readFailed) ==> r.readFailed) && !unsupported
      invariant forall j | 0 <= j < i :: EntryFault(m, imported, indices[j], ENTRIES[j]).None?
      invariant i > 0 ==> definedCount == Defined(m)
    {
      ok, unsupported, definedCount := CheckEntry(r, types, functions, count, imported, indices[i], ENTRIES[i], m);
      if !ok || unsupported {
        FirstAtFault(m, imported, indices, i);
        return;
      }
    }
    NoneAtFault(m, imported, indices);
    ok := true;
  }

  lemma FirstAtFault(m: Sections, imported: nat, indices: seq<nat>, i: nat)
    requires HasRequired(m) && U32At(m[TYPES]).Got? && |indices| == 3 && i < 3
    requires forall j | 0 <= j < i :: EntryFault(m, imported, indices[j], ENTRIES[j]).None?
    ensures var f := EntryFault(m, imported, indices[i], ENTRIES[i]);
            f.Some? ==> EntriesFault(m, imported, indices) == f
  {
    if i > 0 {
      assert EntryFault(m, imported, indices[0], ENTRIES[0]).None?;
    }
    if i > 1 {
      assert EntryFault(m, imported, indices[1], ENTRIES[1]).None?;
    }
  }

  lemma NoneAtFault(m: Sections, imported: nat, indices: seq<nat>)
    requires HasRequired(m) && U32At(m[TYPES]).Got? && |indices| == 3
    requires forall j | 0 <= j < 3 :: EntryFault(m, imported, indices[j], ENTRIES[j]).None?
    ensures EntriesFault(m, imported, indices).None?
  {
    assert EntryFault(m, imported, indices[0], ENTRIES[0]).None?;
    assert EntryFault(m, imported, indices[1], ENTRIES[1]).None?;
    assert EntryFault(m, imported, indices[2], ENTRIES[2]).None?;
  }

  datatype Verdict = Ok | Faulty(fault: Fault) | NotAuthorized | ReadFailed

  function PayloadVerdict(info: Info, h: Hash, wasm: seq<Byte>): Verdict {
    match ModuleFault(info, wasm)
    case Some(f) => Faulty(f)
    case None => if h(wasm) == info.wasmDigest then Ok else Faulty(Invalid)
  }

  /** What speaks against the arguments, before the module is read. */
  function EarlyVerdict(info: Info, a: Authorization): Option<Verdict> {
    if !WellFormed(info, a) then Some(Faulty(Invalid))
    else if !Supported(info) then Some(Faulty(Unsupported))
    else if !Authorized(info, a) then Some(NotAuthorized)
    else None
  }

  /** What the device answers where no read fails. */
  function ModuleVerdict(info: Info, a: Authorization, h: Hash, wasm: seq<Byte>): Verdict {
    match EarlyVerdict(info, a) case Some(v) => v case None => PayloadVerdict(info, h, wasm)
  }

  /** It is satisfied exactly with the modules that are admissible. */
  lemma VerdictIsAdmission(info: Info, a: Authorization, h: Hash, wasm: seq<Byte>)
    requires |wasm| == info.wasmSize
    ensures ModuleVerdict(info, a, h, wasm) == Ok <==> Admissible(info, a, h, wasm)
  {
    if WellFormed(info, a) && Supported(info) {
      NoFaultIsHostRule(info, wasm);
    }
  }

  /** The answer to a payload that was read. */
  predicate Answers(v: Verdict, info: Info, a: Authorization, h: Hash, wasm: seq<Byte>, faultFree: bool) {
    && (v == Ok ==> Admissible(info, a, h, wasm))
    && (faultFree ==> v == ModuleVerdict(info, a, h, wasm) && (v == Ok <==> Admissible(info, a, h, wasm)))
  }

  lemma EarlyAnswers(v: Verdict, info: Info, a: Authorization, h: Hash, wasm: seq<Byte>, faultFree: bool)
    requires EarlyVerdict(info, a) == Some(v)
    ensures Answers(v, info, a, h, wasm, faultFree)
  {
  }

  /** The payload's verdict, or a read that kept it from being found. */
  predicate Judged(v: Verdict, info: Info, h: Hash, wasm: seq<Byte>, faultFree: bool) {
    v == PayloadVerdict(info, h, wasm) || (v != Ok && !faultFree)
  }

  lemma PayloadAnswers(v: Verdict, info: Info, a: Authorization, h: Hash, wasm: seq<Byte>, faultFree: bool)
    requires EarlyVerdict(info, a).None? && |wasm| == info.wasmSize && Judged(v, info, h, wasm, faultFree)
    ensures Answers(v, info, a, h, wasm, faultFree)
  {
    VerdictIsAdmission(info, a, h, wasm);
  }

  /** A scan that did not end well: its verdict, unless it was a read that failed. */
  function Failure(readFailed: bool, ok: bool): Verdict {
    if ok then Faulty(Unsupported) else if readFailed then ReadFailed else Faulty(Invalid)
  }

  /** A check went well, or found this fault, or could not read. */
  predicate Settles(v: Verdict, readFailed: bool, fault: Option<Fault>) {
    && (v == Ok || v.Faulty? || (v == ReadFailed && readFailed))
    && (v == Ok ==> fault.None?)
    && (v != Ok && !readFailed ==> fault.Some? && v == Faulty(fault.value))
  }

  method CheckBodies(r: Reader, sections: seq<Place>, limit: nat, definedCount: nat, ghost m: Sections)
    returns (ok: bool)
    requires r.Valid() && |r.payload| == r.size && Located(sections, r.payload, m) && HasRequired(m)
    requires definedCount == Defined(m)
    modifies r, r.block
    ensures r.Valid() && (old(r.readFailed) ==> r.readFailed)
    ensures (ok ==> BodiesFit(m, limit)) && (!ok && !r.readFailed ==> !BodiesFit(m, limit))
  {
    ok := ScanMemory(r, sections[MEMORIES], limit);
    if ok {
      ok := ScanCode(r, sections[CODE], definedCount);
    }
  }

  method CheckRest(
    r: Reader, sections: seq<Place>, info: Info, capabilities: Bits, imported: nat, indices: seq<nat>,
    ghost m: Sections, ghost imports: set<Import>) returns (v: Verdict)
    requires r.Valid() && |r.payload| == r.size && Located(sections, r.payload, m) && HasRequired(m) && |indices| == 3
    requires capabilities == CapabilityBits(Required(imports))
    modifies r, r.block
    ensures r.Valid() && (old(r.readFailed) ==> r.readFailed)
    ensures Settles(v, r.readFailed, RestFault(m, info, imports, imported, indices))
  {
    MaskCovers(Required(imports), info.requested);
    if !(capabilities <= info.requested) {
      return Faulty(Invalid);
    }
    if !Distinct(indices) {
      return Faulty(Unsupported);
    }
    var ok, unsupported, definedCount := CheckEntries(r, sections[TYPES], sections[FUNCTIONS], imported, indices, m);
    if !ok || unsupported {
      return Failure(r.readFailed, ok);
    }
    ok := CheckBodies(r, sections, info.memoryLimit, definedCount, m);
    return if ok then Ok else Failure(r.readFailed, false);
  }

  /** The checks on sections already located, in the device's order. */
  method CheckLocated(r: Reader, places: array<Place>, info: Info, ghost m: Sections) returns (v: Verdict)
    requires r.Valid() && |r.payload| == r.size && places.Length == SECTION_SLOTS
    requires Located(places[..], r.payload, m) && HasRequired(m)
    modifies r, r.block
    ensures r.Valid() && (old(r.readFailed) ==> r.readFailed)
    ensures Settles(v, r.readFailed, LocatedFault(m, info))
  {
    var sections := places[..];
    var unsupportedExport, indices := false, [0, 0, 0];
    ghost var exports: seq<ExportEntry> := [];
    var ok, unsupported, capabilities, imported, entries := ScanImports(r, places, m);
    if ok {
      ok, unsupportedExport, indices, exports := ScanExports(r, sections[EXPORTS]);
    }
    if !ok || unsupported || unsupportedExport {
      return Failure(r.readFailed, ok);
    }
    LocatedIsRest(m, info, entries, exports);
    v := CheckRest(r, sections, info, capabilities, imported, indices, m, ImportSet(entries));
  }

  lemma LocatedIsRest(m: Sections, info: Info, entries: seq<ImportEntry>, exports: seq<ExportEntry>)
    requires HasRequired(m) && ImportsIn(m) == Passed(entries) && ExportsOutcome(m[EXPORTS]) == Passed(exports)
    ensures LocatedFault(m, info) ==
            RestFault(m, info, ImportSet(entries), |entries|, Indices(ExportTable(exports)))
  {
  }

  /** A second pass over the payload, in pieces of at most 512 bytes, for its digest. */
  method VerifyPayloadDigest(r: Reader, h: Hash, expected: Digest) returns (v: Verdict)
    requires r.Valid() && |r.payload| == r.size
    modifies r
    ensures r.Valid() && (old(r.readFailed) ==> r.readFailed)
    ensures v == Ok || v == Faulty(Invalid) || (v == ReadFailed && !r.faultFree)
    ensures v == Ok ==> h(r.payload) == expected
    ensures r.faultFree ==> v == if h(r.payload) == expected then Ok else Faulty(Invalid)
  {
    var absorbed: seq<Byte> := [];
    var offset: nat := 0;
    var block := new Byte[READ_BYTES](_ => 0);
    var ready := r.Ready();
    if !ready {
      return Faulty(Invalid);
    }
    while offset < r.size
      invariant r.Valid() && (old(r.readFailed) ==> r.readFailed) && fresh(block) && block.Length == READ_BYTES
      invariant offset <= r.size && absorbed == r.payload[..offset]
      modifies block, r`fetches
    {
      var amount := if r.size - offset < READ_BYTES then r.size - offset else READ_BYTES;
      var read := r.Fetch(offset, amount, block);
      if !read {
        return ReadFailed;
      }
      ready := r.Ready();
      if !ready {
        return Faulty(Invalid);
      }
      assert r.payload[..offset + amount] == r.payload[..offset] + r.payload[offset..offset + amount];
      absorbed := absorbed + block[..amount];
      offset := offset + amount;
    }
    ready := r.Ready();
    assert absorbed == r.payload;
    return if ready && h(absorbed) == expected then Ok else Faulty(Invalid);
  }

  function Payload(package: seq<Byte>, info: Info): seq<Byte>
    requires info.wasmOffset + info.wasmSize <= |package|
  {
    package[info.wasmOffset..info.wasmOffset + info.wasmSize]
  }

  /**
   The admission check of a verified package. Whatever the reads do, an accepted payload is
   one the host accepts; without read faults the answer is the module's verdict, its first
   fault. All reads stay inside the payload and take at most 512 bytes.
   */
  method WasmCheck(package: seq<Byte>, info: Info, a: Authorization, h: Hash, faultFree: bool)
    returns (v: Verdict, ghost fetches: seq<Fetched>)
    requires |package| == info.packageSize
    ensures v == Ok ==> info.wasmOffset + info.wasmSize <= |package|
    ensures info.wasmOffset + info.wasmSize <= |package| ==>
              Answers(v, info, a, h, Payload(package, info), faultFree)
    ensures v == NotAuthorized <==> WellFormed(info, a) && Supported(info) && !Authorized(info, a)
    ensures !WellFormed(info, a) ==> v == Faulty(Invalid)
    ensures WellFormed(info, a) && !Supported(info) ==> v == Faulty(Unsupported)
    ensures v == ReadFailed ==> !faultFree
    ensures forall f | f in fetches ::
              && info.wasmOffset <= f.offset && f.offset + f.size <= info.wasmOffset + info.wasmSize
              && 0 < f.size <= READ_BYTES
  {
    fetches := [];
    var early := CheckArguments(info, a);
    if early.Some? {
      v := early.value;
      if info.wasmOffset + info.wasmSize <= |package| {
        EarlyAnswers(v, info, a, h, Payload(package, info), faultFree);
      }
      return;
    }
    var block := new Byte[READ_BYTES](_ => 0);
    var r := new Reader(package, info.wasmOffset, info.wasmSize, faultFree, block);
    ghost var wasm := Payload(package, info);
    assert r.payload == wasm;
    v := CheckPayload(r, info, h);
    fetches := r.fetches;
    PayloadAnswers(v, info, a, h, wasm, faultFree);
  }

  method CheckArguments(info: Info, a: Authorization) returns (v: Option<Verdict>)
    ensures v == EarlyVerdict(info, a)
    ensures v != Some(Ok) && v != Some(ReadFailed)
  {
    if !WellFormed(info, a) {
      return Some(Faulty(Invalid));
    }
    if !Supported(info) {
      return Some(Faulty(Unsupported));
    }
    return if Authorized(info, a) then None else Some(NotAuthorized);
  }

  /** The module, and then the digest of the whole payload. */
  method CheckPayload(r: Reader, info: Info, h: Hash) returns (v: Verdict)
    requires r.Valid() && |r.payload| == r.size
    modifies r, r.block
    ensures r.Valid() && v != NotAuthorized && (v == ReadFailed ==> !r.faultFree)
    ensures Judged(v, info, h, r.payload, r.faultFree)
  {
    v := CheckModule(r, info);
    if v == Ok {
      v := VerifyPayloadDigest(r, h, info.wasmDigest);
    }
  }

  method CheckModule(r: Reader, info: Info) returns (v: Verdict)
    requires r.Valid() && |r.payload| == r.size
    modifies r, r.block
    ensures r.Valid() && (old(r.readFailed) ==> r.readFailed)
    ensures Settles(v, r.readFailed, ModuleFault(info, r.payload))
  {
    var places := new Place[SECTION_SLOTS](_ => NOWHERE);
    var ok, unsupported, m := ScanSections(r, places);
    if !ok || unsupported {
      return Failure(r.readFailed, ok);
    }
    v := CheckLocated(r, places, info, m);
  }
}
