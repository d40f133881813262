/**
 The part of the Wasm binary format the admission checks read, as functions that consume
 bytes from the front of a sequence (sections 5.2.2 and 5.5 of the WebAssembly Core
 Specification 1.0), and the host tool's admission rule written with them.
 */
module WasmFormat {
  import opened Octets

  // ------------------------------------------------------------------ numbers and names

  /** What one more LEB128 byte at position `index` may contribute at most, plus one. */
  function LebBound(index: nat): nat
    requires index <= 5
  {
    match index
    case 0 => 0x1_0000_0000
    case 1 => 0x200_0000
    case 2 => 0x4_0000
    case 3 => 0x800
    case 4 => 0x10
    case _ => 1
  }

  /** An unsigned LEB128 number from its byte `index` on; the fifth byte carries four bits. */
  function Leb(s: seq<Byte>, index: nat): (r: Read<nat>)
    requires index <= 5
    ensures r.Got? ==> r.value < LebBound(index) && |r.rest| < |s|
    decreases |s|
  {
    if index == 5 || s == [] || (index == 4 && s[0] >= 0x10) then Fail
    else if s[0] < 0x80 then Got(s[0], s[1..])
    else
      match Leb(s[1..], index + 1)
      case Fail => Fail
      case Got(v, rest) => Got(s[0] - 0x80 + 0x80 * v, rest)
  }

  function U32At(s: seq<Byte>): (r: Read<U32>)
    ensures r.Got? ==> |r.rest| < |s|
  {
    match Leb(s, 0) case Fail => Fail case Got(v, rest) => Got(v, rest)
  }

  function Take(s: seq<Byte>, n: nat): (r: Read<seq<Byte>>)
    ensures r.Got? <==> n <= |s|
  {
    if n > |s| then Fail else Got(s[..n], s[n..])
  }

  function ByteAt(s: seq<Byte>): (r: Read<Byte>)
    ensures r.Got? <==> s != []
  {
    if s == [] then Fail else Got(s[0], s[1..])
  }

  /** A length followed by that many bytes. */
  function Name(s: seq<Byte>): (r: Read<seq<Byte>>)
    ensures r.Got? ==> |r.rest| < |s|
  {
    match U32At(s) case Fail => Fail case Got(n, rest) => Take(rest, n)
  }

  /** What an import or export names: the kind of thing and its index. */
  function KindAndIndex(s: seq<Byte>): (r: Read<(Byte, U32)>)
    ensures r.Got? ==> |r.rest| < |s|
  {
    match ByteAt(s)
    case Fail => Fail
    case Got(kind, more) =>
      match U32At(more)
      case Fail => Fail
      case Got(index, rest) => Got((kind, index), rest)
  }

  /** An item takes up at least one byte. */
  ghost predicate Consumes<T(!new)>(item: seq<Byte> -> Read<T>) {
    forall s :: item(s).Got? ==> |item(s).rest| < |s|
  }

  lemma {:induction false} ListConsumes<T(!new)>(item: seq<Byte> -> Read<T>, s: seq<Byte>, n: nat)
    requires Consumes(item)
    ensures ListOf(item, s, n).Got? ==> n + |ListOf(item, s, n).rest| <= |s|
    decreases n
  {
    if n > 0 && item(s).Got? {
      ListConsumes(item, item(s).rest, n - 1);
    }
  }

  /** n items, one after another. */
  function ListOf<T>(item: seq<Byte> -> Read<T>, s: seq<Byte>, n: nat): (r: Read<seq<T>>)
    ensures r.Got? ==> |r.value| == n
    decreases n
  {
    if n == 0 then Got([], s)
    else
      match item(s)
      case Fail => Fail
      case Got(first, more) =>
        match ListOf(item, more, n - 1)
        case Fail => Fail
        case Got(list, rest) => Got([first] + list, rest)
  }

  function Prepend<T>(list: seq<T>, rest: Read<seq<T>>): Read<seq<T>> {
    match rest case Fail => Fail case Got(l, s) => Got(list + l, s)
  }

  /** All `count` items are those read so far and the rest in the window. */
  predicate Reading<T(==)>(item: seq<Byte> -> Read<T>, all: Read<seq<T>>, count: nat, list: seq<T>, window: seq<Byte>) {
    |list| <= count && all == Prepend(list, ListOf(item, window, count - |list|))
  }

  lemma ReadingStart<T>(item: seq<Byte> -> Read<T>, count: nat, window: seq<Byte>)
    ensures Reading(item, ListOf(item, window, count), count, [], window)
  {
    var all, none: seq<T> := ListOf(item, window, count), [];
    assert Prepend(none, all) == all by {
      if all.Got? { assert none + all.value == all.value; }
    }
    assert |none| <= count && count - |none| == count;
    assert Reading(item, all, count, none, window);
  }

  lemma ReadingStep<T>(
    item: seq<Byte> -> Read<T>, all: Read<seq<T>>, count: nat, list: seq<T>, t: T, before: seq<Byte>, after: seq<Byte>)
    requires |list| < count && Reading(item, all, count, list, before) && item(before) == Got(t, after)
    ensures Reading(item, all, count, list + [t], after)
    ensures all.Got? ==> |all.value| == count && all.value[..|list| + 1] == list + [t]
  {
    var rest := ListOf(item, after, count - |list| - 1);
    if rest.Got? {
      assert list + ([t] + rest.value) == list + [t] + rest.value;
    }
  }

  lemma ReadingEnd<T>(item: seq<Byte> -> Read<T>, all: Read<seq<T>>, count: nat, list: seq<T>, window: seq<Byte>)
    requires Reading(item, all, count, list, window)
    ensures |list| == count ==> all == Got(list, window)
    ensures |list| < count && item(window).Fail? ==> all.Fail?
  {
    assert list + [] == list;
  }

  // ------------------------------------------------------------------ sections

  const CUSTOM: Byte := 0
  const TYPES: Byte := 1
  const IMPORTS: Byte := 2
  const FUNCTIONS: Byte := 3
  const TABLES: Byte := 4
  const MEMORIES: Byte := 5
  const EXPORTS: Byte := 7
  const START: Byte := 8
  const ELEMENTS: Byte := 9
  const CODE: Byte := 10
  const LAST_SECTION: Byte := 12

  const HEADER: seq<Byte> := [0, 0x61, 0x73, 0x6d, 1, 0, 0, 0]

  /** "target_features" */
  const TARGET_FEATURES: seq<Byte> :=
    [0x74, 0x61, 0x72, 0x67, 0x65, 0x74, 0x5f, 0x66, 0x65, 0x61, 0x74, 0x75, 0x72, 0x65, 0x73]

  /** One section: its id and content. */
  function Section(s: seq<Byte>): (r: Read<(Byte, seq<Byte>)>)
    ensures r.Got? ==> |r.rest| < |s|
  {
    match ByteAt(s)
    case Fail => Fail
    case Got(id, afterId) =>
      match Name(afterId)
      case Fail => Fail
      case Got(content, rest) => Got((id, content), rest)
  }

  predicate Admitted(id: Byte) {
    id <= LAST_SECTION && id != TABLES && id != START && id != ELEMENTS
  }

  predicate CustomAllowed(content: seq<Byte>) {
    Name(content).Got? && Name(content).value != TARGET_FEATURES
  }

  type Sections = map<Byte, seq<Byte>>

  /** The non-custom sections, in ascending order without repeats; custom ones only need a harmless name. */
  function SectionMap(s: seq<Byte>, last: Byte): Option<Sections>
    decreases |s|
  {
    if s == [] then Some(map[])
    else
      match Section(s)
      case Fail => None
      case Got((id, content), rest) =>
        if !Admitted(id) then None
        else if id == CUSTOM then
          if CustomAllowed(content) then SectionMap(rest, last) else None
        else if id <= last then None
        else
          match SectionMap(rest, id)
          case None => None
          case Some(m) => Some(map[id := content] + m)
  }

  // ------------------------------------------------------------------ types

  datatype FuncType = FuncType(params: seq<Byte>, results: seq<Byte>)

  predicate ValueType(b: Byte) {
    0x7c <= b <= 0x7f
  }

  predicate ValueTypes(s: seq<Byte>) {
    forall i | 0 <= i < |s| :: ValueType(s[i])
  }

  function TypeDef(s: seq<Byte>): (r: Read<FuncType>)
    ensures r.Got? ==> |r.rest| < |s|
  {
    if s == [] || s[0] != 0x60 then Fail
    else
      match Name(s[1..])
      case Fail => Fail
      case Got(params, more) =>
        match Name(more)
        case Fail => Fail
        case Got(results, rest) =>
          if ValueTypes(params) && ValueTypes(results) then Got(FuncType(params, results), rest) else Fail
  }

  function Types(s: seq<Byte>): Option<seq<FuncType>> {
    match U32At(s)
    case Fail => None
    case Got(n, body) =>
      if n > |body| then None
      else
        match ListOf(TypeDef, body, n)
        case Fail => None
        case Got(list, rest) => if rest == [] then Some(list) else None
  }

  // ------------------------------------------------------------------ imports

  datatype Import = Clock | Log | TimerStart | TimerCancel

  datatype Capability = MonotonicTime | Logging | Timer

  /** "econtainer" */
  const MODULE: seq<Byte> := [0x65, 0x63, 0x6f, 0x6e, 0x74, 0x61, 0x69, 0x6e, 0x65, 0x72]
  /** "monotonic_ms" */
  const MONOTONIC_MS: seq<Byte> := [0x6d, 0x6f, 0x6e, 0x6f, 0x74, 0x6f, 0x6e, 0x69, 0x63, 0x5f, 0x6d, 0x73]
  /** "log" */
  const LOG: seq<Byte> := [0x6c, 0x6f, 0x67]
  /** "timer_start" */
  const TIMER_START: seq<Byte> := [0x74, 0x69, 0x6d, 0x65, 0x72, 0x5f, 0x73, 0x74, 0x61, 0x72, 0x74]
  /** "timer_cancel" */
  const TIMER_CANCEL: seq<Byte> := [0x74, 0x69, 0x6d, 0x65, 0x72, 0x5f, 0x63, 0x61, 0x6e, 0x63, 0x65, 0x6c]

  function Signature(i: Import): FuncType {
    match i
    case Clock => FuncType([], [0x7e])
    case Log => FuncType([0x7f, 0x7f], [0x7f])
    case TimerStart => FuncType([0x7f, 0x7f], [0x7e])
    case TimerCancel => FuncType([0x7e], [0x7f])
  }

  function Needs(i: Import): Capability {
    match i
    case Clock => MonotonicTime
    case Log => Logging
    case TimerStart => Timer
    case TimerCancel => Timer
  }

  function Known(field: seq<Byte>): Option<Import> {
    if field == MONOTONIC_MS then Some(Clock)
    else if field == LOG then Some(Log)
    else if field == TIMER_START then Some(TimerStart)
    else if field == TIMER_CANCEL then Some(TimerCancel)
    else None
  }

  datatype ImportEntry = ImportEntry(mod: seq<Byte>, field: seq<Byte>, kind: Byte, typeIndex: U32)

  function ImportDef(s: seq<Byte>): (r: Read<ImportEntry>)
    ensures r.Got? ==> |r.rest| < |s|
  {
    match Name(s)
    case Fail => Fail
    case Got(mod, s1) =>
      match Name(s1)
      case Fail => Fail
      case Got(field, s2) =>
        match KindAndIndex(s2)
        case Fail => Fail
        case Got((kind, index), rest) => Got(ImportEntry(mod, field, kind, index), rest)
  }

  predicate HasType(types: seq<FuncType>, index: nat, t: FuncType) {
    index < |types| && types[index] == t
  }

  /** An import of a known host function, not seen before and of the right type. */
  predicate ImportAllowed(types: seq<FuncType>, e: ImportEntry, seen: set<Import>) {
    && e.mod == MODULE && e.kind == 0 && Known(e.field).Some?
    && Known(e.field).value !in seen
    && HasType(types, e.typeIndex, Signature(Known(e.field).value))
  }

  /** The imports that entries name. */
  function ImportSet(entries: seq<ImportEntry>): set<Import> {
    if entries == [] then {}
    else
      var last := |entries| - 1;
      ImportSet(entries[..last]) + match Known(entries[last].field) case None => {} case Some(i) => {i}
  }

  /** Every entry is allowed after those before it. */
  predicate ImportsAllowed(types: seq<FuncType>, entries: seq<ImportEntry>) {
    entries != [] ==>
      var last := |entries| - 1;
      ImportsAllowed(types, entries[..last]) && ImportAllowed(types, entries[last], ImportSet(entries[..last]))
  }

  const IMPORTS_MAX: nat := 4

  /** The imports of a module, if all are allowed, with their number. */
  function Imports(types: seq<FuncType>, s: seq<Byte>): Option<(set<Import>, nat)> {
    match U32At(s)
    case Fail => None
    case Got(n, body) =>
      if n > IMPORTS_MAX then None
      else
        match ListOf(ImportDef, body, n)
        case Fail => None
        case Got(entries, rest) =>
          if rest == [] && ImportsAllowed(types, entries) then Some((ImportSet(entries), n)) else None
  }

  function Required(imports: set<Import>): set<Capability> {
    set i | i in imports :: Needs(i)
  }

  // ------------------------------------------------------------------ functions and exports

  predicate AllBelow(list: seq<U32>, n: nat) {
    forall i | 0 <= i < |list| :: list[i] < n
  }

  /** The type index of every function the module defines. */
  function Functions(s: seq<Byte>, typeCount: nat): Option<seq<U32>> {
    match U32At(s)
    case Fail => None
    case Got(n, body) =>
      if n > |body| then None
      else
        match ListOf<U32>(U32At, body, n)
        case Fail => None
        case Got(list, rest) =>
          if rest == [] && AllBelow(list, typeCount) then Some(list) else None
  }

  datatype Export = Init | OnEvent | Stop | Memory

  /** "econtainer_init" */
  const INIT_NAME: seq<Byte> :=
    [0x65, 0x63, 0x6f, 0x6e, 0x74, 0x61, 0x69, 0x6e, 0x65, 0x72, 0x5f, 0x69, 0x6e, 0x69, 0x74]
  /** "econtainer_on_event" */
  const ON_EVENT_NAME: seq<Byte> :=
    [0x65, 0x63, 0x6f, 0x6e, 0x74, 0x61, 0x69, 0x6e, 0x65, 0x72, 0x5f, 0x6f, 0x6e, 0x5f, 0x65, 0x76, 0x65, 0x6e, 0x74]
  /** "econtainer_stop" */
  const STOP_NAME: seq<Byte> :=
    [0x65, 0x63, 0x6f, 0x6e, 0x74, 0x61, 0x69, 0x6e, 0x65, 0x72, 0x5f, 0x73, 0x74, 0x6f, 0x70]
  /** "memory" */
  const MEMORY_NAME: seq<Byte> := [0x6d, 0x65, 0x6d, 0x6f, 0x72, 0x79]

  function ExportNamed(name: seq<Byte>): Option<Export> {
    if name == INIT_NAME then Some(Init)
    else if name == ON_EVENT_NAME then Some(OnEvent)
    else if name == STOP_NAME then Some(Stop)
    else if name == MEMORY_NAME then Some(Memory)
    else None
  }

  datatype ExportEntry = ExportEntry(name: seq<Byte>, kind: Byte, index: U32)

  function ExportDef(s: seq<Byte>): (r: Read<ExportEntry>)
    ensures r.Got? ==> |r.rest| < |s|
  {
    match Name(s)
    case Fail => Fail
    case Got(name, s1) =>
      match KindAndIndex(s1)
      case Fail => Fail
      case Got((kind, index), rest) => Got(ExportEntry(name, kind, index), rest)
  }

  type ExportMap = map<Export, nat>

  predicate ExportAllowed(e: ExportEntry, seen: ExportMap) {
    match ExportNamed(e.name)
    case None => false
    case Some(x) => x !in seen && (if x == Memory then e.kind == 2 && e.index == 0 else e.kind == 0)
  }

  /** What entries export, by name. */
  function ExportTable(entries: seq<ExportEntry>): ExportMap {
    if entries == [] then map[]
    else
      var last := |entries| - 1;
      match ExportNamed(entries[last].name)
      case None => ExportTable(entries[..last])
      case Some(x) => ExportTable(entries[..last])[x := entries[last].index]
  }

  /** Every entry is allowed after those before it. */
  predicate ExportsAllowed(entries: seq<ExportEntry>) {
    entries != [] ==>
      var last := |entries| - 1;
      ExportsAllowed(entries[..last]) && ExportAllowed(entries[last], ExportTable(entries[..last]))
  }

  const EXPORT_COUNT: nat := 4

  /** Exactly the three entry points and the memory. */
  function Exports(s: seq<Byte>): Option<ExportMap> {
    match U32At(s)
    case Fail => None
    case Got(n, body) =>
      if n != EXPORT_COUNT then None
      else
        match ListOf(ExportDef, body, n)
        case Fail => None
        case Got(entries, rest) =>
          if rest == [] && ExportsAllowed(entries) && ExportTable(entries).Keys == {Init, OnEvent, Stop, Memory}
          then Some(ExportTable(entries)) else None
  }

  function EntryType(x: Export): FuncType {
    if x == OnEvent then FuncType([0x7f, 0x7f], [0x7f]) else FuncType([], [0x7f])
  }

  /** A function index beyond the imports whose function has type t. */
  predicate DefinedAs(types: seq<FuncType>, functions: seq<U32>, imported: nat, index: nat, t: FuncType) {
    imported <= index && index - imported < |functions| && HasType(types, functions[index - imported], t)
  }

  predicate EntriesMatch(types: seq<FuncType>, functions: seq<U32>, imported: nat, exports: ExportMap)
    requires {Init, OnEvent, Stop} <= exports.Keys
  {
    && exports[Init] != exports[OnEvent] && exports[Init] != exports[Stop] && exports[OnEvent] != exports[Stop]
    && DefinedAs(types, functions, imported, exports[Init], EntryType(Init))
    && DefinedAs(types, functions, imported, exports[OnEvent], EntryType(OnEvent))
    && DefinedAs(types, functions, imported, exports[Stop], EntryType(Stop))
  }

  // ------------------------------------------------------------------ memory and code

  const PAGE_BYTES: nat := 0x1_0000

  predicate MemoryWithin(s: seq<Byte>, pages: nat) {
    match U32At(s)
    case Fail => false
    case Got(count, s1) =>
      match U32At(s1)
      case Fail => false
      case Got(flags, s2) =>
        match U32At(s2)
        case Fail => false
        case Got(minimum, s3) =>
          match U32At(s3)
          case Fail => false
          case Got(maximum, rest) =>
            rest == [] && count == 1 && flags == 1 && 0 < minimum <= maximum <= pages
  }

  predicate BodyAllowed(body: seq<Byte>) {
    |body| >= 2 && body[|body| - 1] == 0x0b
  }

  function Body(s: seq<Byte>): (r: Read<seq<Byte>>)
    ensures r.Got? ==> |r.rest| < |s|
  {
    match Name(s) case Fail => Fail case Got(body, rest) => if BodyAllowed(body) then Got(body, rest) else Fail
  }

  predicate CodeMatches(s: seq<Byte>, functionCount: nat) {
    match U32At(s)
    case Fail => false
    case Got(n, body) =>
      n == functionCount
      && match ListOf(Body, body, n) case Fail => false case Got(_, rest) => rest == []
  }

  // ------------------------------------------------------------------ the host's rule

  const DEVICE_MAX_BYTES: nat := 512 * 1024

  predicate HasRequired(m: Sections) {
    {TYPES, FUNCTIONS, MEMORIES, EXPORTS, CODE} <= m.Keys
  }

  function ImportsOf(types: seq<FuncType>, m: Sections): Option<(set<Import>, nat)> {
    if IMPORTS in m then Imports(types, m[IMPORTS]) else Some(({}, 0))
  }

  /** The checks on the sections of a module; the result is what it imports. */
  function CheckSections(m: Sections, memoryLimit: nat): Option<set<Import>> {
    if !HasRequired(m) then None
    else
      match Types(m[TYPES])
      case None => None
      case Some(types) =>
        match ImportsOf(types, m)
        case None => None
        case Some((imports, imported)) =>
          match Functions(m[FUNCTIONS], |types|)
          case None => None
          case Some(functions) =>
            match Exports(m[EXPORTS])
            case None => None
            case Some(exports) =>
              if EntriesMatch(types, functions, imported, exports)
                && MemoryWithin(m[MEMORIES], memoryLimit / PAGE_BYTES)
                && CodeMatches(m[CODE], |functions|)
              then Some(imports) else None
  }

  /** The host's admission of a module: the host functions it imports, or nothing. */
  function HostAdmits(wasm: seq<Byte>, memoryLimit: nat): Option<set<Import>> {
    if |wasm| > DEVICE_MAX_BYTES || |wasm| < 8 || wasm[..8] != HEADER then None
    else
      match SectionMap(wasm[8..], 0)
      case None => None
      case Some(m) => CheckSections(m, memoryLimit)
  }
}
