/**
 The device's verdict on a module as a function of its bytes: admitted, or refused for the
 first fault its scans meet. It admits exactly what the host's rule accepts.
 */
module PackageVerdict {
  import opened Octets
  import opened WasmFormat
  import opened WasmCapabilities
  import opened WasmVerdict

  /** What the verified package says about its payload; only signed requests, no permissions. */
  datatype Info = Info(
    packageSize: nat, wasmOffset: nat, wasmSize: nat, wasmDigest: Digest, guestAbi: U32,
    memoryLimit: U32, stackLimit: U32, requested: Bits, unknownCapability: bool, classicProfile: bool)

  /** What the platform allows. */
  datatype Authorization = Authorization(allowed: Bits, maxMemory: U32, maxStack: U32)

  /** The arguments the check accepts at all. */
  predicate WellFormed(info: Info, a: Authorization) {
    && 8 <= info.wasmSize <= DEVICE_MAX_BYTES && info.wasmOffset <= info.packageSize
    && info.wasmSize <= info.packageSize - info.wasmOffset && info.requested <= CAP_ALL
    && info.memoryLimit >= PAGE_BYTES && info.stackLimit > 0
    && a.allowed <= CAP_ALL && a.maxMemory >= PAGE_BYTES && a.maxStack > 0
  }

  predicate Authorized(info: Info, a: Authorization) {
    info.requested <= a.allowed && info.memoryLimit <= a.maxMemory && info.stackLimit <= a.maxStack
  }

  predicate Supported(info: Info) {
    info.guestAbi == 1 && info.classicProfile && !info.unknownCapability
  }

  /** The host tool's rule for a package: its module is admitted and asks for no more than the manifest. */
  predicate HostAccepts(info: Info, wasm: seq<Byte>) {
    && Supported(info)
    && match HostAdmits(wasm, info.memoryLimit)
       case None => false
       case Some(imports) => Covers(info.requested, imports)
  }

  /** The payload is the one that was signed, and the host would have packed it for this manifest. */
  predicate Admissible(info: Info, a: Authorization, h: Hash, wasm: seq<Byte>) {
    WellFormed(info, a) && Authorized(info, a) && HostAccepts(info, wasm) && h(wasm) == info.wasmDigest
  }

  // ------------------------------------------------------------------ sections

  /** The sections found before, and those from here on. */
  function SectionsFrom(s: seq<Byte>, last: Byte, m: Sections): Outcome<Sections>
    decreases |s|
  {
    if s == [] then Passed(m)
    else
      match Section(s)
      case Fail => Refused(Invalid)
      case Got((id, content), rest) =>
        var f := SectionFault(id, last, content);
        if f.Some? then Refused(f.value)
        else if id == CUSTOM then SectionsFrom(rest, last, m)
        else SectionsFrom(rest, id, m[id := content])
  }

  function SectionFault(id: Byte, last: Byte, content: seq<Byte>): Option<Fault> {
    if !Admitted(id) then Some(Unsupported)
    else if id != CUSTOM then
      if id <= last then Some(Invalid) else None
    else if Name(content).Fail? then Some(Invalid)
    else if Name(content).value == TARGET_FEATURES then Some(Unsupported)
    else None
  }

  function SectionsOutcome(wasm: seq<Byte>): Outcome<Sections> {
    if |wasm| < 8 || wasm[..8] != HEADER then Refused(Invalid)
    else
      match SectionsFrom(wasm[8..], 0, map[])
      case Refused(f) => Refused(f)
      case Passed(m) => if HasRequired(m) then Passed(m) else Refused(Invalid)
  }

  /** The sections of a module that has the header and every required section. */
  function SectionsOf(wasm: seq<Byte>): Option<Sections> {
    if |wasm| < 8 || wasm[..8] != HEADER then None
    else
      match SectionMap(wasm[8..], 0)
      case None => None
      case Some(m) => if HasRequired(m) then Some(m) else None
  }

  lemma {:induction false} SectionsFromIsGrammar(s: seq<Byte>, last: Byte, m: Sections)
    ensures match SectionMap(s, last)
            case None => SectionsFrom(s, last, m).Refused?
            case Some(rest) => SectionsFrom(s, last, m) == Passed(m + rest)
    decreases |s|
  {
    if s == [] {
      assert m + map[] == m;
      return;
    }
    if Section(s).Fail? {
      return;
    }
    var (id, content) := Section(s).value;
    if SectionFault(id, last, content).Some? {
      return;
    }
    if id == CUSTOM {
      SectionsFromIsGrammar(Section(s).rest, last, m);
    } else {
      SectionsFromIsGrammar(Section(s).rest, id, m[id := content]);
      var rest := SectionMap(Section(s).rest, id);
      if rest.Some? {
        assert m + (map[id := content] + rest.value) == m[id := content] + rest.value;
      }
    }
  }

  lemma SectionsOutcomeIsGrammar(wasm: seq<Byte>)
    ensures match SectionsOf(wasm)
            case None => SectionsOutcome(wasm).Refused?
            case Some(m) => SectionsOutcome(wasm) == Passed(m)
  {
    if |wasm| >= 8 && wasm[..8] == HEADER {
      SectionsFromIsGrammar(wasm[8..], 0, map[]);
      var m := SectionMap(wasm[8..], 0);
      if m.Some? {
        assert map[] + m.value == m.value;
      }
    }
  }

  // ------------------------------------------------------------------ imports

  /** Without readable types no import can be allowed. */
  function ImportTest(types: Option<seq<FuncType>>): (seq<ImportEntry>, ImportEntry) -> bool {
    (done, e) => types.Some? && ImportAllowed(types.value, e, ImportSet(done))
  }

  function ImportsOutcome(types: Option<seq<FuncType>>, s: seq<Byte>): Outcome<seq<ImportEntry>> {
    match U32At(s)
    case Fail => Refused(Invalid)
    case Got(n, body) =>
      if n > IMPORTS_MAX then Refused(Unsupported) else ListFrom(Plain(ImportDef), ImportTest(types), body, n, [])
  }

  lemma {:induction false} ImportsAllowedEach(types: seq<FuncType>, entries: seq<ImportEntry>)
    ensures ImportsAllowed(types, entries) <==> AllAllowed(ImportTest(Some(types)), [], entries)
    decreases |entries|
  {
    if entries != [] {
      var front, last := entries[..|entries| - 1], entries[|entries| - 1];
      ImportsAllowedEach(types, front);
      AllAllowedLast(ImportTest(Some(types)), front, last);
      assert entries == front + [last];
    }
  }

  lemma ImportsOutcomeIsGrammar(types: seq<FuncType>, s: seq<Byte>)
    ensures match ImportsOutcome(Some(types), s)
            case Refused(_) => Imports(types, s).None?
            case Passed(entries) => Imports(types, s) == Some((ImportSet(entries), |entries|))
  {
    if U32At(s).Got? && U32At(s).value <= IMPORTS_MAX {
      var n, body, o := U32At(s).value, U32At(s).rest, ImportsOutcome(Some(types), s);
      var list, test := ListOf(ImportDef, body, n), ImportTest(Some(types));
      PlainFollows(ImportDef, test);
      if list.Got? {
        assert [] + list.value == list.value;
        ImportsAllowedEach(types, list.value);
        ListFromIsGrammar(Plain(ImportDef), ImportDef, test, body, n, [], list.value);
      }
      if o.Passed? {
        ListFromIsGrammar(Plain(ImportDef), ImportDef, test, body, n, [], o.value);
      }
    }
  }

  // ------------------------------------------------------------------ exports

  function ExportTest(): (seq<ExportEntry>, ExportEntry) -> bool {
    (done, e) => ExportAllowed(e, ExportTable(done))
  }

  function ExportsOutcome(s: seq<Byte>): Outcome<seq<ExportEntry>> {
    match U32At(s)
    case Fail => Refused(Invalid)
    case Got(n, body) =>
      if n != EXPORT_COUNT then Refused(Unsupported)
      else
        match ListFrom(Plain(ExportDef), ExportTest(), body, n, [])
        case Refused(f) => Refused(f)
        case Passed(entries) =>
          if ExportTable(entries).Keys == {Init, OnEvent, Stop, Memory} then Passed(entries) else Refused(Invalid)
  }

  lemma {:induction false} ExportsAllowedEach(entries: seq<ExportEntry>)
    ensures ExportsAllowed(entries) <==> AllAllowed(ExportTest(), [], entries)
    decreases |entries|
  {
    if entries != [] {
      var front, last := entries[..|entries| - 1], entries[|entries| - 1];
      ExportsAllowedEach(front);
      AllAllowedLast(ExportTest(), front, last);
      assert entries == front + [last];
    }
  }

  lemma ExportsOutcomeIsGrammar(s: seq<Byte>)
    ensures match ExportsOutcome(s)
            case Refused(_) => Exports(s).None?
            case Passed(entries) => Exports(s) == Some(ExportTable(entries))
  {
    if U32At(s).Got? && U32At(s).value == EXPORT_COUNT {
      var n, body, o := U32At(s).value, U32At(s).rest, ExportsOutcome(s);
      var list := ListOf(ExportDef, body, n);
      PlainFollows(ExportDef, ExportTest());
      if list.Got? {
        assert [] + list.value == list.value;
        ExportsAllowedEach(list.value);
        ListFromIsGrammar(Plain(ExportDef), ExportDef, ExportTest(), body, n, [], list.value);
      }
      if o.Passed? {
        ListFromIsGrammar(Plain(ExportDef), ExportDef, ExportTest(), body, n, [], o.value);
      }
    }
  }

  // ------------------------------------------------------------------ entry points

  /** The number the type section announces. */
  function TypeCount(m: Sections): nat
    requires HasRequired(m)
  {
    match U32At(m[TYPES]) case Fail => 0 case Got(n, _) => n
  }

  lemma TypesCount(m: Sections)
    requires HasRequired(m) && Types(m[TYPES]).Some?
    ensures U32At(m[TYPES]).Got? && TypeCount(m) == |Types(m[TYPES]).value|
  {
  }

  /** The entry point with function index `index` is a defined function of the type the ABI asks for. */
  predicate EntryFits(m: Sections, imported: nat, index: nat, x: Export)
    requires HasRequired(m)
  {
    var functions := Functions(m[FUNCTIONS], TypeCount(m));
    && Types(m[TYPES]).Some? && functions.Some?
    && DefinedAs(Types(m[TYPES]).value, functions.value, imported, index, EntryType(x))
  }

  function EntryFault(m: Sections, imported: nat, index: nat, x: Export): Option<Fault>
    requires HasRequired(m)
  {
    if index < imported then Some(Unsupported) else if !EntryFits(m, imported, index, x) then Some(Invalid) else None
  }

  /** The first of the entry points at fault. */
  function EntriesFault(m: Sections, imported: nat, indices: seq<nat>): Option<Fault>
    requires HasRequired(m) && |indices| == 3
  {
    if U32At(m[TYPES]).Fail? then Some(Invalid)
    else
      var init, event := EntryFault(m, imported, indices[0], Init), EntryFault(m, imported, indices[1], OnEvent);
      if init.Some? then init else if event.Some? then event else EntryFault(m, imported, indices[2], Stop)
  }

  predicate Distinct(indices: seq<nat>)
    requires |indices| == 3
  {
    indices[0] != indices[1] && indices[0] != indices[2] && indices[1] != indices[2]
  }

  function Defined(m: Sections): nat
    requires HasRequired(m)
  {
    match Functions(m[FUNCTIONS], TypeCount(m)) case None => 0 case Some(list) => |list|
  }

  predicate BodiesFit(m: Sections, memoryLimit: nat)
    requires HasRequired(m)
  {
    MemoryWithin(m[MEMORIES], memoryLimit / PAGE_BYTES) && CodeMatches(m[CODE], Defined(m))
  }

  /** What is left to find at fault once imports and exports have been read. */
  function RestFault(m: Sections, info: Info, imports: set<Import>, imported: nat, indices: seq<nat>): Option<Fault>
    requires HasRequired(m) && |indices| == 3
  {
    if !Covers(info.requested, imports) then Some(Invalid)
    else if !Distinct(indices) then Some(Unsupported)
    else
      var f := EntriesFault(m, imported, indices);
      if f.Some? then f else if !BodiesFit(m, info.memoryLimit) then Some(Invalid) else None
  }

  // ------------------------------------------------------------------ the whole module

  function ImportsIn(m: Sections): Outcome<seq<ImportEntry>>
    requires HasRequired(m)
  {
    if IMPORTS in m then ImportsOutcome(Types(m[TYPES]), m[IMPORTS]) else Passed([])
  }

  /** The function indices of the entry points. */
  function Indices(table: ExportMap): (r: seq<nat>)
    requires {Init, OnEvent, Stop} <= table.Keys
    ensures |r| == 3
  {
    [table[Init], table[OnEvent], table[Stop]]
  }

  /** An invalid export comes before an unsupported import. */
  function LocatedFault(m: Sections, info: Info): Option<Fault>
    requires HasRequired(m)
  {
    var i, x := ImportsIn(m), ExportsOutcome(m[EXPORTS]);
    if i == Refused(Invalid) || x == Refused(Invalid) then Some(Invalid)
    else if i.Refused? || x.Refused? then Some(Unsupported)
    else RestFault(m, info, ImportSet(i.value), |i.value|, Indices(ExportTable(x.value)))
  }

  /** The first fault of a module for a manifest, if it has one. */
  function ModuleFault(info: Info, wasm: seq<Byte>): Option<Fault> {
    match SectionsOutcome(wasm) case Refused(f) => Some(f) case Passed(m) => LocatedFault(m, info)
  }

  predicate SectionsAccepted(m: Sections, info: Info) {
    match CheckSections(m, info.memoryLimit)
    case None => false
    case Some(imports) => Covers(info.requested, imports)
  }

  /** The checks on the sections, once types, imports and exports can be read. */
  lemma CheckSectionsAre(m: Sections, memoryLimit: nat)
    requires HasRequired(m) && Types(m[TYPES]).Some? && Exports(m[EXPORTS]).Some?
    requires ImportsOf(Types(m[TYPES]).value, m).Some?
    ensures var types := Types(m[TYPES]).value;
            var (imports, imported) := ImportsOf(types, m).value;
            var functions := Functions(m[FUNCTIONS], |types|);
            CheckSections(m, memoryLimit) ==
            if functions.Some? && EntriesMatch(types, functions.value, imported, Exports(m[EXPORTS]).value)
              && MemoryWithin(m[MEMORIES], memoryLimit / PAGE_BYTES) && CodeMatches(m[CODE], |functions.value|)
            then Some(imports) else None
  {
  }

  /** The device's separate findings on the entry points add up to the host's. */
  lemma EntriesAgree(m: Sections, imported: nat, table: ExportMap)
    requires HasRequired(m) && {Init, OnEvent, Stop} <= table.Keys && Types(m[TYPES]).Some?
    ensures Distinct(Indices(table)) && EntriesFault(m, imported, Indices(table)).None? <==>
            var functions := Functions(m[FUNCTIONS], |Types(m[TYPES]).value|);
            functions.Some? && EntriesMatch(Types(m[TYPES]).value, functions.value, imported, table)
  {
    TypesCount(m);
  }

  /** And so do all findings on the sections. */
  lemma Findings(m: Sections, info: Info)
    requires HasRequired(m)
    ensures LocatedFault(m, info).None? <==> SectionsAccepted(m, info)
  {
    var types, x := Types(m[TYPES]), ExportsOutcome(m[EXPORTS]);
    ExportsOutcomeIsGrammar(m[EXPORTS]);
    if types.None? || x.Refused? {
      return;
    }
    if IMPORTS in m {
      ImportsOutcomeIsGrammar(types.value, m[IMPORTS]);
    }
    if ImportsIn(m).Refused? {
      return;
    }
    TypesCount(m);
    CheckSectionsAre(m, info.memoryLimit);
    EntriesAgree(m, |ImportsIn(m).value|, ExportTable(x.value));
  }

  lemma HostAcceptsBySections(info: Info, wasm: seq<Byte>)
    requires Supported(info) && |wasm| <= DEVICE_MAX_BYTES
    ensures HostAccepts(info, wasm) <==>
            match SectionsOf(wasm) case None => false case Some(m) => SectionsAccepted(m, info)
  {
  }

  /** The device finds no fault exactly in the modules the host accepts. */
  lemma NoFaultIsHostRule(info: Info, wasm: seq<Byte>)
    requires Supported(info) && |wasm| <= DEVICE_MAX_BYTES
    ensures ModuleFault(info, wasm).None? <==> HostAccepts(info, wasm)
  {
    SectionsOutcomeIsGrammar(wasm);
    HostAcceptsBySections(info, wasm);
    if SectionsOf(wasm).Some? {
      Findings(SectionsOf(wasm).value, info);
    }
  }
}
