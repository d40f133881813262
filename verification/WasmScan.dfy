/**
 The scan a module passes again when it is opened. It is a different reader of the same
 format, and a laxer one; a module the package check admits always passes it, with the
 same capabilities and within the same memory.
 */
module WasmScan {
  import opened Octets
  import opened WasmFormat
  import opened WasmCapabilities
  import opened WasmReader
  import opened WasmVerdict
  import PackageVerdict

  // ------------------------------------------------------------------ what the scan accepts

  predicate Scanned(id: Byte) {
    id <= LAST_SECTION && id != START
  }

  /** The sections in ascending order; tables, elements and custom names pass. */
  function ScanMap(s: seq<Byte>, last: Byte): Option<Sections>
    decreases |s|
  {
    if s == [] then Some(map[])
    else
      match Section(s)
      case Fail => None
      case Got((id, content), rest) =>
        if !Scanned(id) || (id != CUSTOM && id <= last) || (id == EXPORTS && !ExportsHarmless(content)) then None
        else if id == CUSTOM then ScanMap(rest, last)
        else
          match ScanMap(rest, id)
          case None => None
          case Some(m) => Some(map[id := content] + m)
  }

  /** "__post_instantiate" */
  const POST_INSTANTIATE: seq<Byte> :=
    [0x5f, 0x5f, 0x70, 0x6f, 0x73, 0x74, 0x5f, 0x69, 0x6e, 0x73, 0x74, 0x61, 0x6e, 0x74, 0x69, 0x61, 0x74, 0x65]
  /** "__wasm_call_ctors" */
  const WASM_CALL_CTORS: seq<Byte> :=
    [0x5f, 0x5f, 0x77, 0x61, 0x73, 0x6d, 0x5f, 0x63, 0x61, 0x6c, 0x6c, 0x5f, 0x63, 0x74, 0x6f, 0x72, 0x73]
  /** "_initialize" */
  const INITIALIZE: seq<Byte> := [0x5f, 0x69, 0x6e, 0x69, 0x74, 0x69, 0x61, 0x6c, 0x69, 0x7a, 0x65]

  /** Names whose functions the engine would call by itself. */
  predicate Dangerous(name: seq<Byte>) {
    name == POST_INSTANTIATE || name == WASM_CALL_CTORS || name == INITIALIZE
  }

  predicate Harmless(e: ExportEntry) {
    !Dangerous(e.name) && e.kind <= 3
  }

  function HarmlessExport(s: seq<Byte>): (r: Read<ExportEntry>)
    ensures r.Got? ==> |r.rest| < |s|
  {
    match ExportDef(s) case Fail => Fail case Got(e, rest) => if Harmless(e) then Got(e, rest) else Fail
  }

  predicate ExportsHarmless(s: seq<Byte>) {
    match U32At(s)
    case Fail => false
    case Got(n, body) => match ListOf(HarmlessExport, body, n) case Fail => false case Got(_, rest) => rest == []
  }

  /** A function type of any value types. */
  function AnyType(s: seq<Byte>): (r: Read<FuncType>)
    ensures r.Got? ==> |r.rest| < |s|
  {
    if s == [] || s[0] != 0x60 then Fail
    else
      match Name(s[1..])
      case Fail => Fail
      case Got(params, more) =>
        match Name(more)
        case Fail => Fail
        case Got(results, rest) => Got(FuncType(params, results), rest)
  }

  /** The types up to `index` can be read, and that one is t. */
  predicate ImportTypeFits(types: Option<seq<Byte>>, index: nat, t: FuncType) {
    types.Some? &&
    match U32At(types.value)
    case Fail => false
    case Got(n, body) =>
      index < n &&
      match ListOf(AnyType, body, index + 1) case Fail => false case Got(list, _) => list[index] == t
  }

  predicate ScanAllows(types: Option<seq<Byte>>, e: ImportEntry, seen: set<Import>) {
    && e.mod == MODULE && e.kind == 0 && Known(e.field).Some? && Known(e.field).value !in seen
    && ImportTypeFits(types, e.typeIndex, Signature(Known(e.field).value))
  }

  predicate ScanAllowsAll(types: Option<seq<Byte>>, entries: seq<ImportEntry>) {
    entries != [] ==>
      var last := |entries| - 1;
      ScanAllowsAll(types, entries[..last]) && ScanAllows(types, entries[last], ImportSet(entries[..last]))
  }

  function ScannedImports(types: Option<seq<Byte>>, s: seq<Byte>): Option<set<Import>> {
    match U32At(s)
    case Fail => None
    case Got(n, body) =>
      if n > IMPORTS_MAX then None
      else
        match ListOf(ImportDef, body, n)
        case Fail => None
        case Got(entries, rest) =>
          if rest == [] && ScanAllowsAll(types, entries) then Some(ImportSet(entries)) else None
  }

  function At(m: Sections, id: Byte): Option<seq<Byte>> {
    if id in m then Some(m[id]) else None
  }

  /** The imports of a module that passes the scan. */
  function Passes(wasm: seq<Byte>): Option<set<Import>> {
    if |wasm| < 8 || wasm[..8] != HEADER then None
    else
      match ScanMap(wasm[8..], 0)
      case None => None
      case Some(m) => if IMPORTS in m then ScannedImports(At(m, TYPES), m[IMPORTS]) else Some({})
  }

  /** The content of the first memory section. */
  function FirstMemory(s: seq<Byte>): Option<seq<Byte>>
    decreases |s|
  {
    if s == [] then None
    else
      match Section(s)
      case Fail => None
      case Got((id, content), rest) => if id == MEMORIES then Some(content) else FirstMemory(rest)
  }

  predicate PassesWithin(wasm: seq<Byte>, pages: nat) {
    pages > 0 && Passes(wasm).Some? && FirstMemory(wasm[8..]).Some? && MemoryWithin(FirstMemory(wasm[8..]).value, pages)
  }

  // ------------------------------------------------------------------ how it refuses

  /** One export from the front; a dangerous name is told before what follows it is read. */
  function ExportStep(s: seq<Byte>): Outcome<Item<ExportEntry>> {
    match Name(s)
    case Fail => Refused(Invalid)
    case Got(name, more) =>
      if Dangerous(name) then Refused(Unsupported)
      else
        match KindAndIndex(more)
        case Fail => Refused(Invalid)
        case Got((kind, index), rest) =>
          if kind > 3 then Refused(Invalid) else Passed(Item(ExportEntry(name, kind, index), rest))
  }

  function AnyExport(): (seq<ExportEntry>, ExportEntry) -> bool {
    (done, e) => true
  }

  function ExportsOutcome(s: seq<Byte>): Outcome<seq<ExportEntry>> {
    match U32At(s) case Fail => Refused(Invalid) case Got(n, body) => ListFrom(ExportStep, AnyExport(), body, n, [])
  }

  /** One import from the front; only functions have their type index read. */
  function ImportStep(s: seq<Byte>): Outcome<Item<ImportEntry>> {
    match Name(s)
    case Fail => Refused(Invalid)
    case Got(mod, s1) =>
      match Name(s1)
      case Fail => Refused(Invalid)
      case Got(field, s2) =>
        match KindStep(s2)
        case Refused(f) => Refused(f)
        case Passed(i) => Passed(Item(ImportEntry(mod, field, 0, i.entry), i.rest))
  }

  function KindStep(s: seq<Byte>): Outcome<Item<U32>> {
    if s == [] then Refused(Invalid)
    else if s[0] != 0 then Refused(Unsupported)
    else match U32At(s[1..]) case Fail => Refused(Invalid) case Got(index, rest) => Passed(Item(index, rest))
  }

  function ImportTest(types: Option<seq<Byte>>): (seq<ImportEntry>, ImportEntry) -> bool {
    (done, e) => ScanAllows(types, e, ImportSet(done))
  }

  function ImportsOutcome(types: Option<seq<Byte>>, s: seq<Byte>): Outcome<seq<ImportEntry>> {
    match U32At(s)
    case Fail => Refused(Invalid)
    case Got(n, body) =>
      if n > IMPORTS_MAX then Refused(Unsupported) else ListFrom(ImportStep, ImportTest(types), body, n, [])
  }

  /** The sections from here on; the imports come last, wherever their section was. */
  function ScanFrom(
    s: seq<Byte>, last: Byte, types: Option<seq<Byte>>, imports: Option<seq<Byte>>): Outcome<seq<ImportEntry>>
    decreases |s|
  {
    if s == [] then
      if imports.Some? then ImportsOutcome(types, imports.value) else Passed([])
    else
      match Section(s)
      case Fail => Refused(Invalid)
      case Got((id, content), rest) =>
        var f := SectionFault(id, last, content);
        if f.Some? then Refused(f.value)
        else
          ScanFrom(rest, if id == CUSTOM then last else id, if id == TYPES then Some(content) else types,
                   if id == IMPORTS then Some(content) else imports)
  }

  function SectionFault(id: Byte, last: Byte, content: seq<Byte>): Option<Fault> {
    if id > LAST_SECTION then Some(Unsupported)
    else if id != CUSTOM && id <= last then Some(Invalid)
    else if id == START then Some(Unsupported)
    else if id == EXPORTS && ExportsOutcome(content).Refused? then Some(ExportsOutcome(content).fault)
    else None
  }

  /** The first fault of a module, or its imports. */
  function Scan(wasm: seq<Byte>): Outcome<seq<ImportEntry>> {
    if |wasm| < 8 || wasm[..8] != HEADER then Refused(Invalid) else ScanFrom(wasm[8..], 0, None, None)
  }

  lemma ExportStepFollows()
    ensures Follows(ExportStep, HarmlessExport, AnyExport())
  {
  }

  lemma ExportsOutcomeIsGrammar(s: seq<Byte>)
    ensures ExportsOutcome(s).Passed? <==> ExportsHarmless(s)
  {
    if U32At(s).Got? {
      var n, body := U32At(s).value, U32At(s).rest;
      var list := ListOf(HarmlessExport, body, n);
      ExportStepFollows();
      if list.Got? {
        ListFromIsGrammar(ExportStep, HarmlessExport, AnyExport(), body, n, [], [] + list.value);
      }
      if ExportsOutcome(s).Passed? {
        ListFromIsGrammar(ExportStep, HarmlessExport, AnyExport(), body, n, [], ExportsOutcome(s).value);
      }
    }
  }

  lemma ImportStepFollows(types: Option<seq<Byte>>)
    ensures Follows(ImportStep, ImportDef, ImportTest(types))
  {
    forall s | ImportStep(s).Refused? && ImportDef(s).Got?
      ensures NeverAllowed(ImportTest(types), ImportDef(s).value)
    {
      assert ImportDef(s).value.kind != 0;
    }
  }

  lemma {:induction false} ScanAllowsEach(types: Option<seq<Byte>>, entries: seq<ImportEntry>)
    ensures ScanAllowsAll(types, entries) <==> AllAllowed(ImportTest(types), [], entries)
    decreases |entries|
  {
    if entries != [] {
      var front, last := entries[..|entries| - 1], entries[|entries| - 1];
      ScanAllowsEach(types, front);
      AllAllowedLast(ImportTest(types), front, last);
      assert entries == front + [last];
    }
  }

  lemma ImportsOutcomeIsGrammar(types: Option<seq<Byte>>, s: seq<Byte>, entries: seq<ImportEntry>)
    ensures ImportsOutcome(types, s) == Passed(entries) ==> ScannedImports(types, s) == Some(ImportSet(entries))
    ensures ScannedImports(types, s).Some? ==> ImportsOutcome(types, s).Passed?
  {
    if U32At(s).Got? && U32At(s).value <= IMPORTS_MAX {
      var n, body := U32At(s).value, U32At(s).rest;
      var list := ListOf(ImportDef, body, n);
      ImportStepFollows(types);
      ListFromIsGrammar(ImportStep, ImportDef, ImportTest(types), body, n, [], entries);
      if list.Got? {
        assert [] + list.value == list.value;
        ScanAllowsEach(types, list.value);
        ListFromIsGrammar(ImportStep, ImportDef, ImportTest(types), body, n, [], list.value);
      }
    }
  }

  /** The content of a section, if it was seen before or is among those to come. */
  function Later(m: Sections, id: Byte, before: Option<seq<Byte>>): Option<seq<Byte>> {
    if id in m then Some(m[id]) else before
  }

  function EndOfScan(types: Option<seq<Byte>>, imports: Option<seq<Byte>>): Option<set<Import>> {
    if imports.Some? then ScannedImports(types, imports.value) else Some({})
  }

  /** What the grammar makes of the sections from here on. */
  function RestOfScan(
    s: seq<Byte>, last: Byte, types: Option<seq<Byte>>, imports: Option<seq<Byte>>): Option<set<Import>>
  {
    match ScanMap(s, last)
    case None => None
    case Some(m) => EndOfScan(Later(m, TYPES, types), Later(m, IMPORTS, imports))
  }

  function Found(o: Outcome<seq<ImportEntry>>): Option<set<Import>> {
    match o case Refused(_) => None case Passed(entries) => Some(ImportSet(entries))
  }

  /** A section without fault is taken in by grammar and scan alike. */
  lemma RestOfScanStep(s: seq<Byte>, last: Byte, types: Option<seq<Byte>>, imports: Option<seq<Byte>>)
    requires s != [] && Section(s).Got?
    ensures var (id, content) := Section(s).value;
            RestOfScan(s, last, types, imports) ==
            if SectionFault(id, last, content).Some? then None
            else
              RestOfScan(Section(s).rest, if id == CUSTOM then last else id,
                         if id == TYPES then Some(content) else types,
                         if id == IMPORTS then Some(content) else imports)
  {
    ExportsOutcomeIsGrammar(Section(s).value.1);
  }

  lemma RestOfScanEnds(last: Byte, types: Option<seq<Byte>>, imports: Option<seq<Byte>>)
    ensures Found(ScanFrom([], last, types, imports)) == RestOfScan([], last, types, imports)
  {
    if imports.Some? {
      var o := ImportsOutcome(types, imports.value);
      ImportsOutcomeIsGrammar(types, imports.value, if o.Passed? then o.value else []);
    }
  }

  lemma {:induction false} ScanFromIsGrammar(
    s: seq<Byte>, last: Byte, types: Option<seq<Byte>>, imports: Option<seq<Byte>>)
    ensures Found(ScanFrom(s, last, types, imports)) == RestOfScan(s, last, types, imports)
    decreases |s|
  {
    if s == [] {
      RestOfScanEnds(last, types, imports);
      return;
    }
    if Section(s).Fail? {
      return;
    }
    var (id, content) := Section(s).value;
    RestOfScanStep(s, last, types, imports);
    if SectionFault(id, last, content).None? {
      ScanFromIsGrammar(Section(s).rest, if id == CUSTOM then last else id,
                        if id == TYPES then Some(content) else types,
                        if id == IMPORTS then Some(content) else imports);
    }
  }

  /** The scan finds no fault exactly in the modules that pass, and then their imports. */
  lemma ScanIsGrammar(wasm: seq<Byte>)
    ensures Found(Scan(wasm)) == Passes(wasm)
  {
    if |wasm| >= 8 && wasm[..8] == HEADER {
      ScanFromIsGrammar(wasm[8..], 0, None, None);
    }
  }

  // ------------------------------------------------------------------ admission at install implies admission at open

  lemma {:induction false} ExportsAllowedAt(entries: seq<ExportEntry>, i: nat)
    requires i < |entries| && ExportsAllowed(entries)
    ensures Harmless(entries[i])
    decreases |entries|
  {
    var last := |entries| - 1;
    if i == last {
      assert |INIT_NAME| == 15 && |ON_EVENT_NAME| == 19 && |STOP_NAME| == 15 && |MEMORY_NAME| == 6;
      assert |POST_INSTANTIATE| == 18 && |WASM_CALL_CTORS| == 17 && |INITIALIZE| == 11;
    } else {
      ExportsAllowedAt(entries[..last], i);
    }
  }

  /** One reader is another that keeps only some items. */
  ghost predicate Keeps<T(!new)>(item: seq<Byte> -> Read<T>, kept: seq<Byte> -> Read<T>, keep: T -> bool) {
    forall s :: item(s).Got? && keep(item(s).value) ==> kept(s) == item(s)
  }

  /** A list of items worth keeping is read the same way. */
  lemma {:induction false} KeptList<T(!new)>(
    item: seq<Byte> -> Read<T>, kept: seq<Byte> -> Read<T>, keep: T -> bool, s: seq<Byte>, n: nat)
    requires Keeps(item, kept, keep) && ListOf(item, s, n).Got?
    requires forall i | 0 <= i < n :: keep(ListOf(item, s, n).value[i])
    ensures ListOf(kept, s, n) == ListOf(item, s, n)
    decreases n
  {
    if n > 0 {
      var list, tail := ListOf(item, s, n), ListOf(item, item(s).rest, n - 1);
      assert keep(list.value[0]);
      forall i | 0 <= i < n - 1 ensures keep(tail.value[i]) {
        assert tail.value[i] == list.value[i + 1];
      }
      KeptList(item, kept, keep, item(s).rest, n - 1);
    }
  }

  lemma AllowedExportsAreHarmless(content: seq<Byte>)
    requires Exports(content).Some?
    ensures ExportsHarmless(content)
  {
    var n, body := U32At(content).value, U32At(content).rest;
    var list := ListOf(ExportDef, body, n).value;
    forall i | 0 <= i < n ensures Harmless(list[i]) {
      ExportsAllowedAt(list, i);
    }
    KeptList(ExportDef, HarmlessExport, e => Harmless(e), body, n);
  }

  /** Whatever the first reader reads, the second reads the same way. */
  ghost predicate Laxer<T(!new)>(strict: seq<Byte> -> Read<T>, lax: seq<Byte> -> Read<T>) {
    forall s :: strict(s).Got? ==> lax(s) == strict(s)
  }

  /** Reading fewer items, and with fewer demands, gives the first of them. */
  lemma {:induction false} ListPrefix<T(!new)>(
    strict: seq<Byte> -> Read<T>, lax: seq<Byte> -> Read<T>, s: seq<Byte>, n: nat, k: nat)
    requires Laxer(strict, lax) && k <= n && ListOf(strict, s, n).Got?
    ensures ListOf(lax, s, k).Got? && ListOf(lax, s, k).value == ListOf(strict, s, n).value[..k]
    decreases n
  {
    if k > 0 {
      var first, rest := strict(s).value, strict(s).rest;
      ListPrefix(strict, lax, rest, n - 1, k - 1);
      var tail := ListOf(strict, rest, n - 1).value;
      assert ([first] + tail)[..k] == [first] + tail[..k - 1];
    }
  }

  lemma TypeFits(content: seq<Byte>, index: nat, t: FuncType)
    requires Types(content).Some? && HasType(Types(content).value, index, t)
    ensures ImportTypeFits(Some(content), index, t)
  {
    var n, body := U32At(content).value, U32At(content).rest;
    ListPrefix(TypeDef, AnyType, body, n, index + 1);
  }

  lemma {:induction false} AllowedImportsPass(content: seq<Byte>, entries: seq<ImportEntry>)
    requires Types(content).Some? && ImportsAllowed(Types(content).value, entries)
    ensures ScanAllowsAll(Some(content), entries)
    decreases |entries|
  {
    if entries != [] {
      var last := |entries| - 1;
      AllowedImportsPass(content, entries[..last]);
      TypeFits(content, entries[last].typeIndex, Signature(Known(entries[last].field).value));
    }
  }

  lemma {:induction false} AdmittedSectionsScan(s: seq<Byte>, last: Byte)
    requires SectionMap(s, last).Some?
    requires EXPORTS in SectionMap(s, last).value ==> ExportsHarmless(SectionMap(s, last).value[EXPORTS])
    ensures ScanMap(s, last) == SectionMap(s, last)
    ensures MEMORIES in SectionMap(s, last).value ==> FirstMemory(s) == Some(SectionMap(s, last).value[MEMORIES])
    decreases |s|
  {
    if s != [] {
      var id, rest := Section(s).value.0, Section(s).rest;
      AscendingSections(rest, if id == CUSTOM then last else id);
      AdmittedSectionsScan(rest, if id == CUSTOM then last else id);
    }
  }

  lemma {:induction false} AscendingSections(s: seq<Byte>, last: Byte)
    requires SectionMap(s, last).Some?
    ensures forall id | id in SectionMap(s, last).value :: id > last
    decreases |s|
  {
    if s != [] {
      var id, rest := Section(s).value.0, Section(s).rest;
      AscendingSections(rest, if id == CUSTOM then last else id);
    }
  }

  /** A module the host and the package check admit passes this scan with the same imports and memory limit. */
  lemma AdmissionAtInstallOpens(wasm: seq<Byte>, memoryLimit: nat)
    requires HostAdmits(wasm, memoryLimit).Some?
    ensures Passes(wasm) == HostAdmits(wasm, memoryLimit)
    ensures PassesWithin(wasm, memoryLimit / PAGE_BYTES)
  {
    var m := SectionMap(wasm[8..], 0).value;
    AllowedExportsAreHarmless(m[EXPORTS]);
    AdmittedSectionsScan(wasm[8..], 0);
    if IMPORTS in m {
      var s := m[IMPORTS];
      var entries := ListOf(ImportDef, U32At(s).rest, U32At(s).value).value;
      AllowedImportsPass(m[TYPES], entries);
    }
  }

  /** What passed the package check opens, and needs no capability beyond the signed and the allowed ones. */
  lemma InstalledModulesOpen(
    info: PackageVerdict.Info, a: PackageVerdict.Authorization, h: Hash, wasm: seq<Byte>)
    requires PackageVerdict.Admissible(info, a, h, wasm)
    ensures Passes(wasm).Some? && PassesWithin(wasm, info.memoryLimit / PAGE_BYTES)
    ensures CapabilityBits(Required(Passes(wasm).value)) <= info.requested
    ensures CapabilityBits(Required(Passes(wasm).value)) <= a.allowed
  {
    AdmissionAtInstallOpens(wasm, info.memoryLimit);
    var imports := Passes(wasm).value;
    MaskCovers(Required(imports), info.requested);
  }

  /** The scan alone is not admission: an empty module passes it. */
  lemma EmptyModulePasses(memoryLimit: nat)
    ensures Passes(HEADER) == Some({}) && HostAdmits(HEADER, memoryLimit).None?
  {
    assert HEADER[8..] == [];
  }

  // ------------------------------------------------------------------ the scan itself

  function Window(data: seq<Byte>, cursor: nat, end: nat): seq<Byte>
    requires cursor <= end <= |data|
  {
    data[cursor..end]
  }

  method ReadU32(data: seq<Byte>, end: nat, cursor: nat) returns (ok: bool, value: U32, next: nat)
    requires cursor <= end <= |data|
    ensures ok ==> cursor < next <= end && U32At(Window(data, cursor, end)) == Got(value, Window(data, next, end))
    ensures !ok ==> U32At(Window(data, cursor, end)).Fail?
  {
    var result: nat, scale: nat, index := 0, 1, 0;
    ghost var number := Window(data, cursor, end);
    next := cursor;
    while index < 5
      invariant index <= 5 && cursor <= next <= end && (index > 0 ==> cursor < next)
      invariant Continues(number, result, scale, Window(data, next, end), index)
    {
      ghost var window := Window(data, next, end);
      if next >= end {
        ContinuesNot(number, result, scale, window, index);
        return false, 0, next;
      }
      var octet := data[next];
      next := next + 1;
      assert window == [octet] + Window(data, next, end);
      if index == 4 && octet >= 0x10 {
        ContinuesNot(number, result, scale, window, index);
        return false, 0, next;
      }
      ContinuesStep(number, result, scale, octet, Window(data, next, end), index);
      if octet < 0x80 {
        return true, Plus(result, scale, octet), next;
      }
      result := Plus(result, scale, octet - 0x80);
      scale := scale * 0x80;
      index := index + 1;
    }
    return false, 0, next;
  }

  method ReadName(data: seq<Byte>, end: nat, cursor: nat) returns (ok: bool, name: seq<Byte>, next: nat)
    requires cursor <= end <= |data|
    ensures ok ==> cursor < next <= end && Name(Window(data, cursor, end)) == Got(name, Window(data, next, end))
    ensures !ok ==> Name(Window(data, cursor, end)).Fail?
  {
    name := [];
    var length, start;
    ok, length, start := ReadU32(data, end, cursor);
    if !ok || length > end - start {
      return false, [], cursor;
    }
    next := start + length;
    name := data[start..next];
    assert Window(data, start, end)[..length] == name && Window(data, start, end)[length..] == Window(data, next, end);
  }

  method ReadSection(data: seq<Byte>, cursor: nat) returns (ok: bool, id: Byte, begin: nat, end: nat)
    requires cursor < |data|
    ensures ok ==> cursor < begin <= end <= |data|
    ensures ok ==>
              Section(Window(data, cursor, |data|)) == Got((id, Window(data, begin, end)), Window(data, end, |data|))
    ensures !ok ==> Section(Window(data, cursor, |data|)).Fail?
  {
    id, begin, end := data[cursor], cursor + 1, cursor;
    assert Window(data, cursor, |data|) == [id] + Window(data, begin, |data|);
    var length;
    ok, length, begin := ReadU32(data, |data|, begin);
    if !ok || length > |data| - begin {
      return false, id, begin, end;
    }
    end := begin + length;
    assert Window(data, begin, |data|)[..length] == Window(data, begin, end);
    assert Window(data, begin, |data|)[length..] == Window(data, end, |data|);
  }

  method ReadType(data: seq<Byte>, end: nat, cursor: nat) returns (ok: bool, t: FuncType, next: nat)
    requires cursor <= end <= |data|
    ensures ok ==> cursor < next <= end && AnyType(Window(data, cursor, end)) == Got(t, Window(data, next, end))
    ensures !ok ==> AnyType(Window(data, cursor, end)).Fail?
  {
    t, next := FuncType([], []), cursor;
    if cursor >= end || data[cursor] != 0x60 {
      return false, t, next;
    }
    assert Window(data, cursor, end)[1..] == Window(data, cursor + 1, end);
    var params, results;
    ok, params, next := ReadName(data, end, cursor + 1);
    if ok {
      ok, results, next := ReadName(data, end, next);
      if ok {
        t := FuncType(params, results);
      }
    }
  }

  /** Walks the types only as far as the one asked for. */
  method ImportTypeMatches(data: seq<Byte>, section: Option<(nat, nat)>, index: nat, t: FuncType) returns (fits: bool)
    requires section.Some? ==> section.value.0 <= section.value.1 <= |data|
    ensures fits <==> ImportTypeFits(TypesOf(data, section), index, t)
  {
    if section.None? {
      return false;
    }
    var begin, end := section.value.0, section.value.1;
    var ok, count, cursor := ReadU32(data, end, begin);
    if !ok || index >= count {
      return false;
    }
    var wanted := index + 1;
    ghost var all := ListOf(AnyType, Window(data, cursor, end), wanted);
    ghost var list: seq<FuncType> := [];
    ReadingStart(AnyType, wanted, Window(data, cursor, end));
    var found: FuncType := t;
    for i := 0 to wanted
      invariant begin <= cursor <= end && |list| == i
      invariant Reading(AnyType, all, wanted, list, Window(data, cursor, end))
      invariant i > 0 ==> found == list[i - 1]
    {
      ghost var window := Window(data, cursor, end);
      ReadingEnd(AnyType, all, wanted, list, window);
      ok, found, cursor := ReadType(data, end, cursor);
      if !ok {
        return false;
      }
      ReadingStep(AnyType, all, wanted, list, found, window, Window(data, cursor, end));
      list := list + [found];
    }
    ReadingEnd(AnyType, all, wanted, list, Window(data, cursor, end));
    fits := found == t;
  }

  method ScanExportSection(data: seq<Byte>, begin: nat, end: nat) returns (fault: Option<Fault>)
    requires begin <= end <= |data|
    ensures match fault
            case None => ExportsOutcome(Window(data, begin, end)).Passed?
            case Some(f) => ExportsOutcome(Window(data, begin, end)) == Refused(f)
  {
    var ok, count, cursor := ReadU32(data, end, begin);
    if !ok {
      return Some(Invalid);
    }
    ghost var all := ExportsOutcome(Window(data, begin, end));
    ghost var done: seq<ExportEntry> := [];
    AheadStarts(ExportStep, AnyExport(), Window(data, cursor, end), count);
    for index := 0 to count
      invariant begin <= cursor <= end && |done| == index
      invariant Ahead(all, ExportStep, AnyExport(), Window(data, cursor, end), count, done)
    {
      AheadStops(all, ExportStep, AnyExport(), Window(data, cursor, end), count, done);
      var step;
      step, cursor := ReadExport(data, end, cursor);
      if step.Refused? {
        return Some(step.fault);
      }
      done := done + [step.value];
    }
    AheadStops(all, ExportStep, AnyExport(), Window(data, cursor, end), count, done);
    return if cursor == end then None else Some(Invalid);
  }

  method ReadExport(data: seq<Byte>, end: nat, start: nat) returns (o: Outcome<ExportEntry>, cursor: nat)
    requires start <= end <= |data|
    ensures match o
            case Refused(f) => ExportStep(Window(data, start, end)) == Refused(f)
            case Passed(e) =>
              start < cursor <= end
              && ExportStep(Window(data, start, end)) == Passed(Item(e, Window(data, cursor, end)))
  {
    var ok, name, kind, target;
    ok, name, cursor := ReadName(data, end, start);
    if !ok {
      return Refused(Invalid), cursor;
    }
    if Dangerous(name) {
      return Refused(Unsupported), cursor;
    }
    ok, kind, target, cursor := ReadKindAndIndex(data, end, cursor);
    o := if !ok || kind > 3 then Refused(Invalid) else Passed(ExportEntry(name, kind, target));
  }

  method ReadKindAndIndex(data: seq<Byte>, end: nat, cursor: nat) returns (ok: bool, kind: Byte, index: U32, next: nat)
    requires cursor <= end <= |data|
    ensures ok ==> cursor < next <= end
    ensures ok ==> KindAndIndex(Window(data, cursor, end)) == Got((kind, index), Window(data, next, end))
    ensures !ok ==> KindAndIndex(Window(data, cursor, end)).Fail?
  {
    kind, index, next := 0, 0, cursor;
    if cursor >= end {
      return false, kind, index, next;
    }
    kind := data[cursor];
    assert Window(data, cursor, end) == [kind] + Window(data, cursor + 1, end);
    ok, index, next := ReadU32(data, end, cursor + 1);
  }

  function TypesOf(data: seq<Byte>, section: Option<(nat, nat)>): Option<seq<Byte>>
    requires section.Some? ==> section.value.0 <= section.value.1 <= |data|
  {
    if section.Some? then Some(Window(data, section.value.0, section.value.1)) else None
  }

  /** Whether one import is allowed after those seen. */
  method CheckImport(
    data: seq<Byte>, section: Option<(nat, nat)>, e: ImportEntry, seen: Bits, ghost imports: set<Import>)
    returns (allowed: bool)
    requires section.Some? ==> section.value.0 <= section.value.1 <= |data|
    requires seen == ImportBits(imports)
    ensures allowed <==> ScanAllows(TypesOf(data, section), e, imports)
  {
    if e.kind != 0 || e.mod != MODULE || Known(e.field).None? {
      return false;
    }
    var found := Known(e.field).value;
    ImportBitsStep(imports, found);
    if ImportBit(found) in seen {
      return false;
    }
    allowed := ImportTypeMatches(data, section, e.typeIndex, Signature(found));
  }

  /** The kind, which must be a function, and its type index. */
  method ReadKind(data: seq<Byte>, end: nat, start: nat) returns (o: Outcome<U32>, cursor: nat)
    requires start <= end <= |data|
    ensures match o
            case Refused(f) => KindStep(Window(data, start, end)) == Refused(f)
            case Passed(index) =>
              start < cursor <= end
              && KindStep(Window(data, start, end)) == Passed(Item(index, Window(data, cursor, end)))
  {
    cursor := start;
    if cursor >= end {
      return Refused(Invalid), cursor;
    }
    var kind := data[cursor];
    assert Window(data, cursor, end) == [kind] + Window(data, cursor + 1, end);
    if kind != 0 {
      return Refused(Unsupported), cursor;
    }
    var ok, index;
    ok, index, cursor := ReadU32(data, end, cursor + 1);
    o := if ok then Passed(index) else Refused(Invalid);
  }

  method ReadImport(data: seq<Byte>, end: nat, start: nat) returns (o: Outcome<ImportEntry>, cursor: nat)
    requires start <= end <= |data|
    ensures match o
            case Refused(f) => ImportStep(Window(data, start, end)) == Refused(f)
            case Passed(e) =>
              start < cursor <= end
              && ImportStep(Window(data, start, end)) == Passed(Item(e, Window(data, cursor, end)))
  {
    var ok, mod, field, kind;
    ok, mod, cursor := ReadName(data, end, start);
    if !ok {
      return Refused(Invalid), cursor;
    }
    ok, field, cursor := ReadName(data, end, cursor);
    if !ok {
      return Refused(Invalid), cursor;
    }
    kind, cursor := ReadKind(data, end, cursor);
    o := match kind case Refused(f) => Refused(f) case Passed(index) => Passed(ImportEntry(mod, field, 0, index));
  }

  method ScanImportSection(data: seq<Byte>, section: Option<(nat, nat)>, begin: nat, end: nat)
    returns (o: Outcome<Bits>, ghost entries: seq<ImportEntry>)
    requires section.Some? ==> section.value.0 <= section.value.1 <= |data|
    requires begin <= end <= |data|
    ensures var outcome := ImportsOutcome(TypesOf(data, section), Window(data, begin, end));
            match o
            case Refused(f) => outcome == Refused(f)
            case Passed(capabilities) =>
              outcome == Passed(entries) && capabilities == CapabilityBits(Required(ImportSet(entries)))
  {
    entries := [];
    ghost var types := TypesOf(data, section);
    ghost var all := ImportsOutcome(types, Window(data, begin, end));
    var ok, count, cursor := ReadU32(data, end, begin);
    if !ok {
      return Refused(Invalid), [];
    }
    if count > IMPORTS_MAX {
      return Refused(Unsupported), [];
    }
    AheadStarts(ImportStep, ImportTest(types), Window(data, cursor, end), count);
    NothingMasked();
    var seen: Bits, capabilities: Bits := {}, {};
    for index := 0 to count
      invariant begin <= cursor <= end && |entries| == index
      invariant Ahead(all, ImportStep, ImportTest(types), Window(data, cursor, end), count, entries)
      invariant Masked(entries, seen, capabilities)
    {
      AheadStops(all, ImportStep, ImportTest(types), Window(data, cursor, end), count, entries);
      var step;
      step, cursor := ReadImport(data, end, cursor);
      if step.Refused? {
        return Refused(step.fault), entries;
      }
      ok := CheckImport(data, section, step.value, seen, ImportSet(entries));
      if !ok {
        return Refused(Unsupported), entries;
      }
      MaskedGrow(entries, seen, capabilities, step.value);
      var found := Known(step.value.field).value;
      seen := seen + {ImportBit(found)};
      capabilities := capabilities + {CapabilityBit(Needs(found))};
      entries := entries + [step.value];
    }
    AheadStops(all, ImportStep, ImportTest(types), Window(data, cursor, end), count, entries);
    o := if cursor == end then Passed(capabilities) else Refused(Invalid);
  }

  // ------------------------------------------------------------------ the whole module

  predicate Lies(section: Option<(nat, nat)>, size: nat) {
    section.Some? ==> section.value.0 <= section.value.1 <= size
  }

  /** What speaks against one section where it stands. */
  method CheckSection(wasm: seq<Byte>, id: Byte, last: Byte, begin: nat, end: nat) returns (f: Option<Fault>)
    requires begin <= end <= |wasm|
    ensures f == SectionFault(id, last, Window(wasm, begin, end))
  {
    if id > LAST_SECTION {
      return Some(Unsupported);
    }
    if id != CUSTOM && id <= last {
      return Some(Invalid);
    }
    if id == START {
      return Some(Unsupported);
    }
    if id == EXPORTS {
      f := ScanExportSection(wasm, begin, end);
      return;
    }
    return None;
  }

  /** The scan of a whole module: it passes, with these capabilities, or is refused for its first fault. */
  method ScanModule(wasm: seq<Byte>) returns (o: Outcome<Bits>)
    ensures match o
            case Refused(f) => Scan(wasm) == Refused(f) && Passes(wasm).None?
            case Passed(capabilities) =>
              Passes(wasm).Some? && capabilities == CapabilityBits(Required(Passes(wasm).value))
  {
    ghost var entries;
    o, entries := ScanSections(wasm);
    ScanIsGrammar(wasm);
  }

  method ScanSections(wasm: seq<Byte>) returns (o: Outcome<Bits>, ghost entries: seq<ImportEntry>)
    ensures match o
            case Refused(f) => Scan(wasm) == Refused(f)
            case Passed(capabilities) =>
              Scan(wasm) == Passed(entries) && capabilities == CapabilityBits(Required(ImportSet(entries)))
  {
    entries := [];
    if |wasm| < 8 || wasm[..8] != HEADER {
      return Refused(Invalid), [];
    }
    var types: Option<(nat, nat)>, imports: Option<(nat, nat)> := None, None;
    var cursor: nat, last: Byte := 8, 0;
    assert wasm[8..] == Window(wasm, 8, |wasm|);
    while cursor < |wasm|
      invariant 8 <= cursor <= |wasm| && Lies(types, |wasm|) && Lies(imports, |wasm|)
      invariant Scan(wasm) ==
                ScanFrom(Window(wasm, cursor, |wasm|), last, TypesOf(wasm, types), TypesOf(wasm, imports))
    {
      var ok, id, begin, end := ReadSection(wasm, cursor);
      if !ok {
        return Refused(Invalid), [];
      }
      var fault := CheckSection(wasm, id, last, begin, end);
      if fault.Some? {
        return Refused(fault.value), [];
      }
      last := if id == CUSTOM then last else id;
      types := if id == TYPES then Some((begin, end)) else types;
      imports := if id == IMPORTS then Some((begin, end)) else imports;
      cursor := end;
    }
    NoBits();
    o := Passed({});
    if imports.Some? {
      o, entries := ScanImportSection(wasm, types, imports.value.0, imports.value.1);
    }
  }

  /** The raw memory limit of a module that passes the scan. */
  method MemoryWithinLimit(wasm: seq<Byte>, pages: nat) returns (ok: bool)
    ensures ok <==> PassesWithin(wasm, pages)
  {
    if pages == 0 {
      return false;
    }
    var scan := ScanModule(wasm);
    if scan.Refused? {
      return false;
    }
    var cursor: nat := 8;
    assert wasm[8..] == Window(wasm, 8, |wasm|);
    while cursor < |wasm|
      invariant 8 <= cursor <= |wasm|
      invariant FirstMemory(wasm[8..]) == FirstMemory(Window(wasm, cursor, |wasm|))
    {
      var id, begin, end;
      ok, id, begin, end := ReadSection(wasm, cursor);
      if !ok {
        return;
      }
      if id == MEMORIES {
        ok := ScanMemory(wasm, begin, end, pages);
        return;
      }
      cursor := end;
    }
    return false;
  }

  method ScanMemory(data: seq<Byte>, begin: nat, end: nat, pages: nat) returns (ok: bool)
    requires begin <= end <= |data|
    ensures ok <==> MemoryWithin(Window(data, begin, end), pages)
  {
    var value: U32, minimum: U32, cursor;
    ok, value, cursor := ReadU32(data, end, begin);
    if !ok || value != 1 {
      return false;
    }
    ok, value, cursor := ReadU32(data, end, cursor);
    if !ok || value != 1 {
      return false;
    }
    ok, minimum, cursor := ReadU32(data, end, cursor);
    if !ok || minimum == 0 {
      return false;
    }
    ok, value, cursor := ReadU32(data, end, cursor);
    ok := ok && minimum <= value && value <= pages && cursor == end;
  }
}
