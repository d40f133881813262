# Verification of the ESP container

A Dafny model of the parts of the container component that decide what may be installed,
what is booted and what a guest may leave behind, with machine-checked proofs.

* **Package store** (`Slot*.dfy`, `Crc.dfy`). Three raw Flash slots are guarded by one
  288-byte durable record. `SlotProtocol` gives the decision of every operation as a
  function of record and Flash, steps that include power loss and arbitrary damage in a
  reserved slot, and an invariant stronger than the code's own record check.
  `SlotHistory` proves statements about whole runs, `SlotProgress` that fault-free calls
  always get on. `SlotIo`, `SlotWrite` and `SlotStore` are the imperative layer: buffers,
  chunk loops and callbacks that may fail at any point, each operation proved to be one
  step of the protocol or none. `SlotInstall` composes the operations into an installation,
  `SlotRun` into any sequence, which is a run of the protocol.
* **Module admission** (`Wasm*.dfy`, `PackageVerdict.dfy`, `PackageWasm.dfy`).
  Three readers of the same binary format: the host's rule as functions over byte
  sequences (sections 5.2.2 and 5.5 of the WebAssembly Core Specification 1.0),
  the device's scanner with its 512-byte cached window, and the scan at opening. They are
  proved to agree as far as the system relies on it. `PackageVerdict` and `WasmScan` also say
  for which fault, the first in the order of the scan, a module is refused.
* **Package archive** (`Manifest.dfy`, `ManifestReader.dfy`, `Ustar.dfy`,
  `PackageStream.dfy`, `Admission.dfy`). The canonical manifest text and its parser, the
  canonical ustar layout and its single-pass reader, and the agreement of host and device
  on whole packages.
* **Timers and entries** (`Timers.dfy`, `TimerHistory.dfy`, `Runtime.dfy`). The handle
  allocator, deadline arithmetic and event bytes; what holds of every history of a timer
  table; and the instance, whose entries around an arbitrary guest keep such a history.

SHA-256 is any function from byte strings to digests and the signature check any predicate;
no result needs more of them. Faults are choices the proofs quantify over: a callback marked
fault-free never fails, any other may fail at each call and leave arbitrary bytes in its
destination or range. Bit masks are modelled as the sets of the positions of their one bits.
The fixed texts of the manifest are a table the statements are parametric in; the actual one
is `Manifest.FORMAT`, which meets their only condition by `Manifest.FormatIsSeparated`.

`dafny verify dfyconfig.toml` checks the whole project.

Statements that look true and are not:

* The device does not accept only canonical manifests: one comma may follow the last
  capability (`Manifest.TrailingCommaIsRead`, `Manifest.ExampleOfTrailingComma`); on whole
  packages that is the only difference between device and host
  (`Admission.HostAndDeviceAgree`).
* The two manifest readers alone differ in two more ways: the host sets no upper bound on
  the payload size (`Manifest.ExampleOfLargePayload`), the parser of the device none on the
  length of the text (`Manifest.ExampleOfLongManifest`); `Manifest.HostReadsWithoutTrailing`
  says exactly when they agree.
* The first size check of an archive is not implied by the limits of its members
  (`Ustar.SizeCheckFailsAtSmallCap`); it is exactly for the caps in
  `Ustar.SizeCheckIsImplied`, the device's own among them.
* A refused package does not always clear the caller's buffers: where the digest cannot be
  started they are as before (`PackageStream.Verify`).
* A failed instance may still have active timers (`Runtime.TrapKeepsTimers`): after a guest
  that neither starts nor cancels timers it has none exactly if the entry expired or none was
  active on entry (`Runtime.Instance.OnEvent`, `Runtime.Instance.PollTimer`).
* A timer whose deadline is UINT64_MAX is never delivered
  (`Runtime.LastDeadlineIsNeverServed`); these are exactly the timers a poll passes over
  though their deadlines have come (`Runtime.Instance.SelectTimer`).

## Model

| member | source | states |
|---|---|---|
| `SlotState.CheckGeometry` | components/esp_container/src/slots.c:63-96 | accepts exactly the placements whose three slots lie in the partition, erase-aligned and disjoint, with power-of-two units |
| `SlotState.UnitsArePowersOfTwo` | components/esp_container/src/slots.c:63-96 | the bit test on the erase and write units holds exactly of powers of two |
| `SlotState.CheckOperation` | components/esp_container/src/slots.c:131-174 | accepts exactly the operations that fit their phase: cleared when idle, an unreferenced slot while pending, delivered to the target once confirmed |
| `SlotState.CheckState` | components/esp_container/src/slots.c:176-219 | accepts exactly the valid records |
| `SlotState.CheckFirmwareSet` | components/esp_container/src/slots.c:444-471 | accepts exactly the firmware sets with a running firmware and without duplicates |
| `SlotState.CheckFirmwareSetMatches` | components/esp_container/src/slots.c:473-491 | the one-directional search with a count accepts exactly when the bound and the bootable firmware are the same set |
| `SlotState.InclusionAndCountDecide` | components/esp_container/src/slots.c:473-491 | pigeonhole: inclusion and equal counts of duplicate-free digests are set equality |
| `SlotState.RunningIsBound` | components/esp_container/src/slots.c:628-635 | where bindings and firmware match, the running firmware is found among the bindings: the refusal for a missing one is never taken |
| `SlotState.BindingForFirmware` | components/esp_container/src/slots.c:432-442 | finds the binding of a firmware, or -1 when no binding names it |
| `SlotState.SelectSlot` | components/esp_container/src/slots.c:660-682 | picks the first slot no binding refers to that is large enough, or none |
| `SlotState.SomeSlotIsFree` | components/esp_container/src/slots.c:660-671 | two bindings leave at least one of three slots unreferenced |
| `SlotState.NoSpaceMeansTooSmall` | components/esp_container/src/slots.c:672-682 | no slot is selected exactly when every unreferenced slot is too small |
| `Crc.BlobCrc32` | components/esp_container/src/slots.c:51-61 | the bit loop computes the reflected CRC-32 of IEEE 802.3, clause 3.2.9, as a fold over bits |
| `Crc.RegisterInjective` | components/esp_container/src/slots.c:51-61 | equal checksums of equal-length texts that end alike come from equal registers: every bit step is injective |
| `Crc.BurstChangesRegister` | components/esp_container/src/slots.c:51-61 | two texts that differ only within four consecutive bytes leave different registers |
| `SlotRecord.EncodeState` | components/esp_container/src/slots.c:221-253 | fills the 288-byte buffer with the encoding of the state |
| `SlotRecord.DecodeState` | components/esp_container/src/slots.c:255-296 | returns the state of a record exactly when magic, version, reserved bytes, checksum and state are right |
| `SlotRecord.DecodeInvertsEncode` | components/esp_container/src/slots.c:221-296 | every valid state is read back from its record |
| `SlotRecord.EncodeInvertsDecode` | components/esp_container/src/slots.c:221-296 | every accepted record is the encoding of what was read, so records are canonical |
| `SlotRecord.EncodeInjective` | components/esp_container/src/slots.c:313-342 | different states have different records, so a readback tells old from new |
| `SlotRecord.BurstIsRejected` | components/esp_container/src/slots.c:255-262 | changing any up to four consecutive bytes of a valid record, anywhere in it, makes it unreadable |
| `SlotRecord.ByteChangeIsRejected` | components/esp_container/src/slots.c:255-262 | changing any one byte of a valid record makes it unreadable |
| `SlotProtocol.DamageKeepsGood` | components/esp_container/src/slots.c:709-732 | arbitrary bytes in a slot reserved for writing leave every confirmed package intact |
| `SlotProtocol.CommitKeepsGood` | components/esp_container/src/slots.c:505-911 | every commit of every operation leads from intact packages to intact packages and candidate |
| `SlotProtocol.StepKeepsGood` | components/esp_container/src/slots.c:505-911 | so does every durable step, crashes and damage included |
| `SlotProtocol.RunStaysGood` | components/esp_container/src/slots.c:505-911 | in every state of every run each confirmed package, and each candidate from prepared to healthy, hashes to its recorded digest |
| `SlotHistory.SequenceCountsCommits` | components/esp_container/src/slots.c:344-358 | the durable sequence number equals the number of commits, so it strictly increases along every run |
| `SlotHistory.CommitsExpectTheirIndex` | components/esp_container/src/slots.c:344-358 | the commit after k others expected sequence number k |
| `SlotHistory.AtMostOneCommitPerSequence` | components/esp_container/src/slots.c:493-503 | of all calls ever made with the same expected sequence number at most one commits |
| `SlotHistory.StaleCallIsRefused` | components/esp_container/src/slots.c:493-503 | a call with a stale sequence number changes nothing |
| `SlotHistory.CommitKeepsSchemas` | components/esp_container/src/slots.c:632-640 | a commit keeps every firmware in its place and every confirmed data schema |
| `SlotHistory.SchemasNeverChange` | components/esp_container/src/slots.c:632-640 | over any run a firmware with a confirmed package keeps its data schema version |
| `SlotHistory.EveryPackageHasOrigin` | components/esp_container/src/slots.c:607-870 | provenance: a binding is the initial one or the end of five consecutive commits for that firmware - reserved, read back and accepted, tried, healthy, confirmed - under one boot id and with one digest, slot, size, ABI and schema |
| `SlotHistory.FirmwareStaysBound` | components/esp_container/src/slots.c:473-491 | the bound firmware set is for ever the one initialize was given |
| `SlotHistory.BootAfterRun` | components/esp_container/src/slots.c:558-605 | after any run start-up finds every package intact: it is blocked exactly when the firmware set is another one, and asks for recovery exactly when an operation is pending |
| `SlotProgress.NextIsValid` | components/esp_container/src/slots.c:344-358 | preparing, health and abandoning lead from valid records to valid records |
| `SlotProgress.ReservedIsValid` | components/esp_container/src/slots.c:659-686 | so does a reservation |
| `SlotProgress.ConfirmedIsValid` | components/esp_container/src/slots.c:856-866 | so does a confirmation, which delivers exactly the candidate |
| `SlotProgress.InvalidOnlyWhenExhausted` | components/esp_container/src/slots.c:344-358 | on the record of any run a well-formed call is refused as invalid only when the sequence numbers are used up |
| `SlotProgress.ReserveWorks` | components/esp_container/src/slots.c:607-686 | a reservation of an acceptable package commits |
| `SlotProgress.WriteWorks` | components/esp_container/src/slots.c:709-744 | after a full write the candidate hashes to its digest and nothing confirmed has changed |
| `SlotProgress.AbandonWorks` | components/esp_container/src/slots.c:872-911 | a cancellable operation is aborted also when its candidate is damaged |
| `SlotProgress.InstallWorks` | components/esp_container/src/slots.c:607-870 | five fault-free calls confirm an acceptable package |
| `SlotProgress.SixCallsSuffice` | components/esp_container/src/slots.c:607-911 | from any sound state, damaged candidate included, at most six fault-free calls confirm any acceptable package |
| `SlotInstall.Install` | components/esp_container/src/slots.c:607-911 | the same by the operations themselves: abandon if pending, reserve, write, try, mark healthy and confirm, on a device without faults, store the record that binds the package and leave its bytes in Flash |
| `SlotIo.Io.ReadBlob` | components/esp_container/src/slots.c:298-311 | the blob callback gives back the committed record, not a cache, or fails |
| `SlotIo.Io.WriteBlob` | components/esp_container/src/slots.c:313-342 | the blob callback leaves the old or the new record, and its answer need not be true |
| `SlotIo.Io.FlashErase` | components/esp_container/src/slots.c:711-712 | erasing is confined to its range and sets it to 0xff, or leaves anything there |
| `SlotIo.Io.FlashWrite` | components/esp_container/src/slots.c:723-728 | programming is confined to its range and only clears bits, or leaves anything there |
| `SlotWrite.RoundUp` | components/esp_container/src/slots.c:720-721 | the write size is the chunk rounded up to the write unit |
| `SlotWrite.ChunkFits` | components/esp_container/src/slots.c:709-732 | every aligned chunk stays inside the slot and the buffer |
| `SlotWrite.PlanIsSafe` | components/esp_container/src/slots.c:709-732 | the erase and all writes lie in the reserved slot, aligned to the write unit, ascending without overlap, below 2^32: no byte is programmed twice |
| `SlotWrite.PlanSparesBoundSlots` | components/esp_container/src/slots.c:63-96 | no access of the plan touches the slot of a confirmed package |
| `SlotWrite.WriteChunk` | components/esp_container/src/slots.c:709-732 | an erased chunk ends as the source bytes followed by 0xff |
| `SlotWrite.WriteSlot` | components/esp_container/src/slots.c:709-732 | the whole slot ends as the source bytes followed by 0xff, by exactly the planned accesses |
| `SlotStore.LoadLocked` | components/esp_container/src/slots.c:298-311 | loads what the record means, or reports that it could not be read |
| `SlotStore.BeginLocked` | components/esp_container/src/slots.c:493-503 | loads the record and refuses another sequence number |
| `SlotStore.HashFlash` | components/esp_container/src/slots.c:374-406 | streams the slot through the digest in pieces of 256 bytes and reports the truth about it |
| `SlotStore.CheckReferences` | components/esp_container/src/slots.c:408-430 | checks both bindings and, if asked, the candidate, and reports the truth about them |
| `SlotStore.PersistLocked` | components/esp_container/src/slots.c:313-342 | OK proves the new record is stored and IO_FAILED that the old one is; otherwise the outcome is uncertain |
| `SlotStore.CommitNext` | components/esp_container/src/slots.c:344-358 | stores the next state under the next sequence number, or refuses |
| `SlotStore.Initialize` | components/esp_container/src/slots.c:505-537 | makes the change its decision allows or none; without faults exactly the decision |
| `SlotStore.LoadState` | components/esp_container/src/slots.c:539-556 | returns the stored state or nothing |
| `SlotStore.Reconcile` | components/esp_container/src/slots.c:558-605 | answers what start-up decides and changes nothing; on a failed read it is blocked with nothing returned, or, the confirmed packages checked, recovers without the candidate it could not read |
| `SlotStore.Reserve` | components/esp_container/src/slots.c:607-686 | makes the change its decision allows or none; without faults exactly the decision |
| `SlotStore.WriteAndPrepare` | components/esp_container/src/slots.c:688-758 | touches only the reserved slot by accesses of its plan, then makes the change its decision allows or none; without faults the slot holds the package |
| `SlotStore.BeginTrial` | components/esp_container/src/slots.c:760-793 | makes the change its decision allows or none; without faults exactly the decision |
| `SlotStore.MarkHealthy` | components/esp_container/src/slots.c:795-825 | makes the change its decision allows or none; without faults exactly the decision |
| `SlotStore.Confirm` | components/esp_container/src/slots.c:827-870 | makes the change its decision allows or none; without faults exactly the decision |
| `SlotStore.Abandon` | components/esp_container/src/slots.c:872-911 | makes the change its decision allows or none; without faults exactly the decision |
| `SlotStore.CompletedIsStep` | components/esp_container/src/slots.c:313-358 | refinement: an operation of the imperative layer, however it ends, is one step of the protocol or none |
| `SlotStore.WriteIsDamage` | components/esp_container/src/slots.c:709-732 | whatever writing a package does to the Flash is damage the protocol allows |
| `SlotStore.WriteIsCommit` | components/esp_container/src/slots.c:733-758 | and what it then does to the record is one commit or none |
| `SlotStore.OperationKeepsGood` | components/esp_container/src/slots.c:505-911 | so each operation, with any faults, keeps every confirmed package intact |
| `SlotStore.WriteKeepsGood` | components/esp_container/src/slots.c:688-758 | and so does writing a package, also when it stops half way |
| `SlotRun.WriteFrom` | components/esp_container/src/slots.c:688-758 | writing a package, however it ends, continues a run of the protocol by damage in the reserved slot and at most one commit |
| `SlotRun.ChangeRecord` | components/esp_container/src/slots.c:505-911 | every other operation, however it ends, continues a run of the protocol by one step or none |
| `SlotRun.AnyRun` | components/esp_container/src/slots.c:505-911 | from a blank record, after any sequence of operations, start-ups and restarts with any faults, the device is at the end of a run of the protocol: all confirmed packages and candidates are intact, every binding has its origin, the sequence number counts the commits, and the bound firmware is that of the first record |
| `WasmReader.Reader.ByteAt` | components/esp_container/src/package_wasm.c:33-54 | the 512-byte cached window returns the byte plain indexing would, or fails |
| `WasmReader.Reader.NextU32` | components/esp_container/src/package_wasm.c:65-82 | reads an unsigned LEB128 number of at most five bytes exactly when there is one |
| `WasmReader.Reader.NameIs` | components/esp_container/src/package_wasm.c:84-106 | reads a name and tells whether it is the expected one |
| `PackageWasm.ScanSections` | components/esp_container/src/package_wasm.c:108-155 | locates exactly the sections the host lists, or tells the first fault: invalid or unsupported |
| `PackageWasm.TypeMatches` | components/esp_container/src/package_wasm.c:162-213 | true exactly when all types can be read and the wanted one is as expected |
| `PackageWasm.ScanImports` | components/esp_container/src/package_wasm.c:215-301 | accepts exactly the imports the host accepts, and returns their capability bits and number, or tells the first fault |
| `PackageWasm.ScanExports` | components/esp_container/src/package_wasm.c:303-363 | accepts exactly the exports the host accepts, and records the three entry points, or tells the first fault |
| `PackageWasm.FunctionType` | components/esp_container/src/package_wasm.c:365-388 | the type index of a defined function and their number, exactly when all indices are in range |
| `PackageWasm.ScanMemory` | components/esp_container/src/package_wasm.c:390-404 | accepts exactly one bounded memory within the limit |
| `PackageWasm.ScanCode` | components/esp_container/src/package_wasm.c:406-428 | accepts exactly as many bodies as functions, each ending with the end opcode |
| `PackageWasm.VerifyPayloadDigest` | components/esp_container/src/package_wasm.c:430-458 | a second pass accepts exactly the payload with the expected digest |
| `WasmVerdict.ListFromIsGrammar` | components/esp_container/src/package_wasm.c:215-363 | a scan that tests every item of a counted list as it comes passes exactly the lists the grammar reads whose items are all allowed |
| `PackageVerdict.SectionsOutcomeIsGrammar` | components/esp_container/src/package_wasm.c:108-155 | the walk over the sections ends without fault exactly where the host lists them, with the same sections |
| `PackageVerdict.ImportsOutcomeIsGrammar` | components/esp_container/src/package_wasm.c:215-301 | the walk over the imports ends without fault exactly where the host allows them, with the same imports |
| `PackageVerdict.ExportsOutcomeIsGrammar` | components/esp_container/src/package_wasm.c:303-363 | the walk over the exports ends without fault exactly where the host allows them, with the same indices |
| `PackageVerdict.Findings` | components/esp_container/src/package_wasm.c:502-551 | the first faults the device looks for on located sections are all absent exactly where the host rule holds of the sections |
| `PackageVerdict.NoFaultIsHostRule` | components/esp_container/src/package_wasm.c:460-553 | the first fault of a module, in the order of the device, is none exactly for the modules the host accepts |
| `PackageWasm.VerdictIsAdmission` | components/esp_container/src/package_wasm.c:460-553 | the verdict - arguments, authorization, first fault of the module, digest - is OK exactly for admissible payloads |
| `PackageWasm.WasmCheck` | components/esp_container/src/package_wasm.c:460-553 | for every payload and fault pattern: accepted payloads are admissible; without read faults the answer is exactly the verdict, OK for all admissible payloads and else the code of the first fault; refusals of arguments carry their code; every read lies in the payload and takes at most 512 bytes |
| `WasmCapabilities.ImportBitsStep` | components/esp_container/src/package_wasm.c:276-298 | the bit masks of seen imports and needed capabilities stand for the sets |
| `WasmCapabilities.MaskCovers` | components/esp_container/src/package_wasm.c:512-514 | no bit outside the request means every needed capability was requested |
| `WasmScan.ReadU32` | components/esp_container/src/wasm_scan.c:7-25 | reads an unsigned LEB128 number exactly when there is one |
| `WasmScan.ImportTypeMatches` | components/esp_container/src/wasm_scan.c:56-100 | true exactly when the types up to the index can be read and that one is as expected |
| `WasmScan.ScanExportSection` | components/esp_container/src/wasm_scan.c:144-169 | accepts exactly the export lists without functions the engine would call by itself, or tells the first fault |
| `WasmScan.ScanImportSection` | components/esp_container/src/wasm_scan.c:172-222 | accepts exactly the import lists of known host functions with the right types, and returns their capabilities, or tells the first fault |
| `WasmScan.ScanIsGrammar` | components/esp_container/src/wasm_scan.c:102-227 | the scan finds no fault exactly in the modules its grammar describes, and then their imports |
| `WasmScan.ScanModule` | components/esp_container/src/wasm_scan.c:102-227 | passes exactly the modules the grammar of the scan describes, with the capabilities of their imports, and refuses any other with the code of its first fault |
| `WasmScan.MemoryWithinLimit` | components/esp_container/src/wasm_scan.c:241-272 | true exactly for modules that pass and whose first memory is bounded by the page limit |
| `WasmScan.AdmissionAtInstallOpens` | components/esp_container/src/wasm_scan.c:102-272 | a module the host admits passes the scan at opening with the same imports and within its memory limit |
| `WasmScan.InstalledModulesOpen` | components/esp_container/src/package_wasm.c:460-553 | a module the package check admits passes it too, and needs no capability beyond the signed and the allowed ones |
| `WasmScan.EmptyModulePasses` | components/esp_container/src/wasm_scan.c:102-227 | the scan at opening alone is laxer: the empty module passes it and is not admitted |
| `Manifest.DecimalIsCanonical` | tools/product_package.py:66-68 | the decimal text of a number has no leading zero and stands for the number |
| `Manifest.CanonicalIsDecimal` | components/esp_container/src/package_stream.c:55-75 | a text without leading zero is the decimal text of its value |
| `Manifest.NumberIsText` | components/esp_container/src/package_stream.c:55-75 | what the number reader accepts is a decimal text below 2^32 |
| `Manifest.IdIsText` | components/esp_container/src/package_stream.c:77-104 | what the identifier reader accepts is a quoted identifier |
| `Manifest.ItemsRead` | components/esp_container/src/package_stream.c:139-187 | the capability reader reads every ascending list of at most sixteen, with or without the tolerated comma |
| `Manifest.ItemsAreText` | components/esp_container/src/package_stream.c:139-187 | and nothing else |
| `Manifest.ShaIsText` | components/esp_container/src/package_stream.c:189-209 | what the digest reader accepts is the lower-case hexadecimal text of the digest |
| `Manifest.ParseInvertsText` | components/esp_container/src/package_stream.c:211-273 | parsing the text of any valid record gives back every field, exactly if the size of its payload fits in 32 bits |
| `Manifest.TextInvertsParse` | components/esp_container/src/package_stream.c:211-273 | every accepted text is the text of the record that was read, whose payload size fits in 32 bits |
| `Manifest.HostReadsWithoutTrailing` | tools/product_package.py:71-114 | the host reads a record with a 32-bit payload size exactly where the device reads that record without a trailing comma and the text has at most 4096 bytes; a larger size, which the host takes, the device refuses |
| `Manifest.ExampleOfLargePayload` | tools/product_package.py:108 | a manifest with a payload of 2^32 bytes the host reads and the device refuses |
| `Manifest.LongManifestsDiffer` | tools/product_package.py:72 | a valid manifest of more than 4096 bytes the parser of the device reads and the host refuses |
| `Manifest.ExampleOfLongManifest` | tools/product_package.py:72 | one such manifest, written out |
| `Manifest.TrailingIsOneComma` | components/esp_container/src/package_stream.c:146-149 | the only other text of a record is the canonical one with one comma more |
| `Manifest.TrailingCommaIsRead` | components/esp_container/src/package_stream.c:146-149 | for every record with one to fifteen capabilities the device takes a text the host refuses as the text of any record |
| `Manifest.ExampleOfTrailingComma` | components/esp_container/src/package_stream.c:146-149 | one such record, written out |
| `ManifestReader.Json.Uint32` | components/esp_container/src/package_stream.c:55-75 | the digit loop with its early exits reads exactly the canonical numbers; the 64-bit accumulator does not overflow |
| `ManifestReader.Json.TakeIdentifier` | components/esp_container/src/package_stream.c:77-104 | reads exactly the quoted identifiers and returns their slice of the text |
| `ManifestReader.Json.TakeItems` | components/esp_container/src/package_stream.c:146-186 | reads exactly the lists of the grammar, and accumulates their bits and the unknown flag |
| `ManifestReader.Json.TakeSha` | components/esp_container/src/package_stream.c:189-209 | reads exactly the hexadecimal digests |
| `ManifestReader.ComesBeforeIsLess` | components/esp_container/src/package_stream.c:170-176 | comparing the common part and then the lengths is the lexicographic order |
| `ManifestReader.MaskMeansListed` | components/esp_container/src/package_stream.c:155-169 | a capability bit is set exactly when the capability is listed, and no other bit ever is |
| `ManifestReader.UnknownMeansListed` | components/esp_container/src/package_stream.c:167-169 | the unknown flag is set exactly when an unknown capability is listed |
| `ManifestReader.ParseManifest` | components/esp_container/src/package_stream.c:211-273 | accepts exactly the texts of records for the expected key within the payload limit, and keeps their numbers, slices and bits |
| `Ustar.OctalValueOf` | components/esp_container/src/package_stream.c:295-303 | the octal field of a number that fits reads back as the number |
| `Ustar.OctalOfValue` | components/esp_container/src/package_stream.c:275-293 | an octal field is that of its value |
| `Ustar.HeaderStatesSize` | components/esp_container/src/package_stream.c:275-293 | the canonical header states the size it was made for |
| `Ustar.HeaderSumsUp` | tools/product_package.py:418-420 | the canonical header passes the checksum test of the host |
| `Ustar.SplitInvertsLayout` | tools/product_package.py:375-440 | unpacking a layout gives back manifest, signature and module |
| `Ustar.LayoutInvertsSplit` | tools/product_package.py:396-440 | everything that unpacks is the layout of its parts |
| `Ustar.UnpackInvertsLayout` | tools/product_package.py:396-440 | with members within their limits, unpacking inverts packing exactly when the archive passes the first size check |
| `Ustar.LayoutInvertsUnpack` | tools/product_package.py:396-440 | packing what was unpacked gives the same bytes |
| `Ustar.SizeCheckIsImplied` | components/esp_container/src/package_stream.c:414 | the first size check never refuses members within their limits exactly for the caps whose largest archive passes it |
| `Ustar.SizeCheckHoldsAtDeviceCap` | components/esp_container/src/package_stream.c:414 | at the cap of 512 KiB it never does |
| `Ustar.SizeCheckFailsAtSmallCap` | tools/product_package.py:397 | at a cap of 6656 bytes it refuses an archive of 20480 bytes with a 547-byte manifest |
| `PackageStream.TarSize` | components/esp_container/src/package_stream.c:275-293 | reads the size field; the accumulator does not overflow |
| `PackageStream.TarOctal` | components/esp_container/src/package_stream.c:295-303 | writes the octal digits and tells whether the number fits |
| `PackageStream.TarHeaderMatches` | components/esp_container/src/package_stream.c:305-334 | true exactly for the one canonical header of the name and size |
| `PackageStream.Stream.Read` | components/esp_container/src/package_stream.c:336-350 | appends the next bytes to what has been read and digested, or fails |
| `PackageStream.Stream.ReadBytes` | components/esp_container/src/package_stream.c:352-366 | reads a run of bytes in blocks |
| `PackageStream.Stream.ReadZeros` | components/esp_container/src/package_stream.c:368-385 | reads a run of bytes that must all be zero |
| `PackageStream.TakeMember` | components/esp_container/src/package_stream.c:430-457 | one member of bounded size: accepted exactly when header, data and padding are the layout |
| `PackageStream.TakeWasm` | components/esp_container/src/package_stream.c:465-508 | the payload: accepted exactly when size, first bytes, digest and padding are right |
| `PackageStream.TailDecides` | components/esp_container/src/package_stream.c:510-517 | once the members are read, zeros up to the record decide |
| `PackageStream.Verify` | components/esp_container/src/package_stream.c:399-556 | accepts exactly the acceptable packages that pass the size check, calls exactly those untrusted whose signature under an acceptable manifest fails, reads every byte once and in order in pieces of at most 512, digests the whole package and reports what it read; a refusal clears manifest and signature, unless the digest could not be started, when all buffers are as before |
| `Admission.AcceptedAreLayouts` | components/esp_container/src/package_stream.c:399-556 | the accepted packages are exactly the layouts of acceptable parts |
| `Admission.RuleAgrees` | tools/product_package.py:303-310 | the device's flags and bits decide a module as the host's names do |
| `Admission.PartsAgree` | tools/product_package.py:443-453 | the host passes exactly the parts the device passes whose manifest has no trailing comma |
| `Admission.HostAndDeviceAgree` | tools/product_package.py:443-453 | host and device accept the same packages, but for the trailing comma |
| `Manifest.FormatIsSeparated` | components/esp_container/src/package_stream.c:218-272 | in the actual format no number is followed by a digit |
| `Admission.FormatsAgree` | tools/product_package.py:443-453 | with the actual format, what the host verifies the device accepts |
| `Admission.PackedPackagesVerify` | tools/product_package.py:375-386 | what the host packs at the device cap with a valid signature by the expected key, host and device verify |
| `Admission.ModuleCheckIsHostRule` | components/esp_container/src/package_wasm.c:460-553 | on a verified package the module check is the authorization and the host rule |
| `Admission.ChecksAreHostRule` | tools/product_package.py:443-453 | for every package and every authorization: the host verifies it and the authorization covers the signed requests exactly if the device accepts the package and admits its module and the manifest has no trailing comma |
| `Admission.FullyAuthorizedChecksAgree` | tools/product_package.py:443-453 | with full authorization the two checks of the device admit exactly what the host verifies, but for the trailing comma |
| `Admission.AdmittedModulesOpen` | components/esp_container/src/wasm_scan.c:241-272 | a verified and admitted module passes the scan at opening within its signed memory limit |
| `Runtime.Handles.Issue` | components/esp_container/src/runtime_internal.h:61-67 | issues a handle never issued before, or zero for ever |
| `Timers.HandlesAreNeverReissued` | components/esp_container/src/runtime_internal.h:61-67 | over any number of allocations by any instances no handle repeats |
| `Timers.SelectionIsUnique` | components/esp_container/src/runtime.c:710-719 | the first of the earliest due timers is determined |
| `Timers.Advance` | components/esp_container/src/runtime.c:725-740 | computes the next deadline and the skipped count of the chosen timer |
| `Timers.CadenceIsKept` | components/esp_container/src/runtime.c:725-740 | the next deadline is the old one plus the period times one more than the missed periods, later than now, at most a period away |
| `Timers.EventRoundTrip` | guest-sdk/include/econtainer_guest.h:37-50 | the guest decodes the handle and skip count of every event the host writes |
| `Timers.OnlyEventsAreRead` | guest-sdk/include/econtainer_guest.h:37-50 | and decodes nothing else |
| `Timers.DecodeEvent` | guest-sdk/include/econtainer_guest.h:37-50 | the byte loops of the decoder compute the little-endian values |
| `TimerHistory.QuietCallsKeepTimers` | components/esp_container/src/runtime.c:224-274 | calls that neither start nor cancel a timer leave the table as it is |
| `TimerHistory.CallsSpareTheRest` | components/esp_container/src/runtime.c:276-332 | no call touches a timer that survives it: every other active timer was started by the calls |
| `TimerHistory.HistoryKeeps` | components/esp_container/src/runtime.c:276-332 | over any history active timers lie in use under different handles, each on the cadence it was started with, one-shots have at most one event, and unissued handles occur nowhere |
| `TimerHistory.OneShotsFireOnce` | components/esp_container/src/runtime.c:725-728 | each one-shot handle occurs at most once among the events of any history |
| `TimerHistory.ReportsFallShort` | components/esp_container/src/runtime.c:730-731 | the events of a timer never report more periods than passed, and as many exactly when no skip count saturates |
| `TimerHistory.RunKeepsCadence` | components/esp_container/src/runtime.c:693-754 | over any history of starts, cancels, polls and rollbacks the deadline of a timer still active is its first one plus the period times the periods passed, which equals the sum its events report exactly when none saturates |
| `Runtime.Instance.NativeLog` | components/esp_container/src/runtime.c:244-274 | stores a log exactly for a fitting size and readable bytes where none is pending, and else says why |
| `Runtime.Instance.NativeTimerStart` | components/esp_container/src/runtime.c:276-311 | starts a timer in the first free place under a fresh handle, due exactly the delay from now; returns zero exactly for the reasons there are, changing no timer |
| `Runtime.Instance.NativeTimerCancel` | components/esp_container/src/runtime.c:313-332 | ends exactly the active timer with that handle, and fails exactly when there is none |
| `Runtime.Instance.CallGuest` | components/esp_container/src/runtime.c:477-482 | for any sequence of host calls timers and log are exactly what the calls made of them, up to the call that raised |
| `Runtime.Instance.ExpireEntry` | components/esp_container/src/runtime.c:451-459 | no timer, the log size as before, failed |
| `Runtime.Instance.Invoke` | components/esp_container/src/runtime.c:461-504 | an expired entry leaves the log as before and no timer, and delivers no result; any other leaves timers and log exactly as the calls of the guest left them |
| `Runtime.QuietGuestsLeaveTimers` | components/esp_container/src/runtime.c:461-504 | after a guest that neither starts nor cancels timers none is active exactly if the entry expired or none was active before it |
| `Runtime.Instance.Init` | components/esp_container/src/runtime.c:506-539 | a failed first entry leaves no timer active; a good one leaves what its calls made |
| `Runtime.Instance.CallEvent` | components/esp_container/src/runtime.c:541-575 | refuses long events and full memory without any change, and else enters the guest |
| `Runtime.Instance.OnEvent` | components/esp_container/src/runtime.c:577-596 | delivers business events to a running instance only; refuses the reserved form; one that succeeds stays running, one that fails leaves the timers its calls left unless it expired: after a quiet guest none is active exactly if it expired or none was |
| `Runtime.Instance.Stop` | components/esp_container/src/runtime.c:598-635 | a stopped instance has no active timer, and a failed stop neither; the log is what the calls of the guest made of it |
| `Runtime.Instance.TakeLog` | components/esp_container/src/runtime.c:642-667 | hands the pending log over once, whole |
| `Runtime.Instance.NextTimerDeadline` | components/esp_container/src/runtime.c:669-691 | the earliest deadline of the active timers; none exactly when all deadlines are UINT64_MAX |
| `Runtime.Instance.SelectTimer` | components/esp_container/src/runtime.c:709-719 | finds the first of the earliest due timers, and none exactly when every active timer whose deadline has come has deadline UINT64_MAX |
| `Runtime.Instance.Deliver` | components/esp_container/src/runtime.c:723-752 | moves the chosen timer on, tells the guest its handle and skip count, and takes the move back without memory for the event |
| `Runtime.Instance.PollTimer` | components/esp_container/src/runtime.c:693-754 | delivers the first of the earliest due timers, none exactly when all that have come have deadline UINT64_MAX; changes nothing unless the guest is entered; an entry that fails leaves the moved table and what its calls made of it, unless it expired |
| `Runtime.TrapKeepsTimers` | components/esp_container/src/runtime.c:461-504 | FAILED does not mean no timer is active: a trap in an event leaves them; when exactly is said by OnEvent and PollTimer |
| `Runtime.LastDeadlineIsNeverServed` | components/esp_container/src/runtime.c:304-309 | a timer that was started so that its deadline is UINT64_MAX stays active and is not delivered, whatever the clock shows |
| `TimerHistory.ExampleOfLastDeadline` | components/esp_container/src/runtime.c:304-309 | a history of one start, at a clock five milliseconds before its end, after which the timer is active and no poll selects it |
| `Runtime.RunsKeepCadence` | components/esp_container/src/runtime.c:693-754 | of any valid instance each one-shot has been delivered at most once, every active timer is on its cadence, and a stopped one has none |
| `Runtime.AnyRun` | components/esp_container/src/runtime.c:506-754 | for any sequence of first entries, events, polls, stops and log reads with any guests: the delivered events hold each one-shot at most once, are all there were unless the instance failed, and account for the deadline of every active timer |

## Left out

- SHA-256 and RSA-PSS (`package_crypto.c`): uninterpreted; a digest context is the bytes absorbed so far, and its callbacks may fail. The signature check is assumed to decide and not to fail: in the code a digest or key call that fails inside it is reported as a signature that does not fit.
- The WAMR engine, loading and instantiation, and `econtainer_runtime_open` and `close`: the guest is an arbitrary finite list of host calls with a result or a trap; a call that raises an exception ends it.
- `slots_idf.c`, NVS, partitions and semaphores: replaced by the callbacks of `SlotIo`. The lock is assumed to exclude other writers, and the source and validation callbacks not to change the Flash.
- Null pointers, `io_valid` and the size of callers' buffers: arguments are values and arrays that exist.
- C struct padding in the comparison of a cleared operation: modelled as equality of fields.
- `package_slot.c`: combines verification and module check under policy comparisons.
- The command line tools, the guest example, build files and reports: no logic beyond the above.
- Call claims by atomics: one serialised owner is part of the interface of the runtime.
- The host's `_WasmReader` cursor and its loops: modelled on values as the grammar in `WasmFormat`, which therefore does not capture the order in which the host finds the first of several faults.
- The host's JSON decoder: its acceptance is stated through the test that the bytes equal the canonical encoding of the record; what it says about other spellings is not modelled.
- The host's separate tests of single header fields: implied by its final comparison with the canonical header; only the checksum test is stated (`Ustar.HeaderSumsUp`).
- Adjacent fixed texts of the manifest are taken together where the code compares them piece by piece; the outcome is the same.
