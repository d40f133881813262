/**
 Host and device on whole packages: what the host packs and verifies, the device accepts,
 and the other way round but for the tolerated comma.
 */
module Admission {
  import opened Octets
  import opened Ustar
  import opened WasmCapabilities
  import opened ManifestReader
  import opened PackageStream
  import Manifest
  import PackageVerdict
  import WasmFormat
  import WasmScan

  /** The host's rule for the module of a package. */
  predicate HostRule(m: Manifest.Record, wasm: seq<Byte>) {
    && m.guestAbi == 1 && m.profile == CLASSIC && !HasUnknown(m.capabilities)
    && match WasmFormat.HostAdmits(wasm, m.limits.memory)
       case None => false
       case Some(imports) => forall c | c in WasmFormat.Required(imports) :: CapabilityName(c) in m.capabilities
  }

  /** The host's verdict on the parts of a package whose manifest is the canonical text of m. */
  predicate HostPasses(t: Manifest.Table, m: Manifest.Record, p: Package, keyId: seq<Byte>, signed: Signed, h: Hash) {
    && Manifest.HostReads(t, p.manifest, m) && m.keyId == keyId
    && SignatureFits(p.manifest, p.signature, signed)
    && m.wasmSize == |p.wasm| && m.wasmDigest == h(p.wasm) && HostRule(m, p.wasm)
  }

  ghost predicate HostParts(t: Manifest.Table, p: Package, keyId: seq<Byte>, signed: Signed, h: Hash) {
    exists m :: HostPasses(t, m, p, keyId, signed, h)
  }

  ghost predicate HostVerifies(
    t: Manifest.Table, package: seq<Byte>, keyId: seq<Byte>, maxWasm: nat, signed: Signed, h: Hash) {
    Unpack(package, maxWasm).Some? && HostParts(t, Unpack(package, maxWasm).value, keyId, signed, h)
  }

  /** What the package check of the module is told about a verified package. */
  function ModuleInfo(info: PackageInfo): PackageVerdict.Info {
    var f := info.fields;
    PackageVerdict.Info(
      info.packageSize, info.wasm.offset, info.wasm.size, f.head.payload.digest, f.head.versions.guestAbi,
      f.head.versions.limits.memory, f.head.versions.limits.stack, f.requested, f.unknown, f.classic)
  }

  /** The device's flags and bits say of a module what the host's names say. */
  lemma RuleAgrees(info: PackageInfo, data: seq<Byte>, m: Manifest.Record, wasm: seq<Byte>)
    requires Describes(info.fields, data, m)
    ensures PackageVerdict.HostAccepts(ModuleInfo(info), wasm) <==> HostRule(m, wasm)
  {
    MaskMeansListed(m.capabilities, WasmFormat.MonotonicTime);
    MaskMeansListed(m.capabilities, WasmFormat.Logging);
    MaskMeansListed(m.capabilities, WasmFormat.Timer);
    match WasmFormat.HostAdmits(wasm, m.limits.memory)
    case None =>
    case Some(imports) =>
      forall c | c in WasmFormat.Required(imports)
        ensures Granted(Mask(m.capabilities), c) <==> CapabilityName(c) in m.capabilities
      {
        MaskMeansListed(m.capabilities, c);
      }
  }

  /** An accepted package is the layout of its parts, and every layout of acceptable parts is accepted. */
  lemma AcceptedAreLayouts(
    t: Manifest.Table, package: seq<Byte>, keyId: seq<Byte>, maxWasm: nat, signed: Signed, h: Hash)
    ensures Accepted(t, package, keyId, maxWasm, signed, h) <==>
            exists p :: PartsAccepted(t, p, keyId, maxWasm, signed, h) && package == Layout(p)
  {
    if Accepted(t, package, keyId, maxWasm, signed, h) {
      LayoutInvertsSplit(package);
      assert PartsAccepted(t, Split(package).value, keyId, maxWasm, signed, h);
    }
    if p :| PartsAccepted(t, p, keyId, maxWasm, signed, h) && package == Layout(p) {
      SplitInvertsLayout(p);
    }
  }

  lemma ModuleIsLongEnough(wasm: seq<Byte>, limit: nat)
    requires WasmFormat.HostAdmits(wasm, limit).Some?
    ensures 8 <= |wasm| <= WASM_MAX && wasm[..8] == WasmFormat.HEADER
  {
  }

  lemma TextIsNotEmpty(t: Manifest.Table, s: seq<Byte>)
    requires Manifest.Parse(t, s).Some?
    ensures s != []
  {
  }

  lemma HostPassesAccepted(
    t: Manifest.Table, m: Manifest.Record, p: Package, keyId: seq<Byte>, maxWasm: nat, signed: Signed, h: Hash)
    requires Manifest.Separated(t) && MembersAllowed(p, maxWasm) && HostPasses(t, m, p, keyId, signed, h)
    ensures Manifest.Parse(t, p.manifest) == Some(Manifest.Parsed(m, false))
    ensures PartsAccepted(t, p, keyId, maxWasm, signed, h)
  {
    Manifest.HostReadsWithoutTrailing(t, p.manifest, m);
    TextIsNotEmpty(t, p.manifest);
    ModuleIsLongEnough(p.wasm, m.limits.memory);
  }

  lemma AcceptedPassesHost(
    t: Manifest.Table, p: Package, keyId: seq<Byte>, maxWasm: nat, signed: Signed, h: Hash)
    requires PartsAccepted(t, p, keyId, maxWasm, signed, h) && HostRule(RecordOf(t, p.manifest), p.wasm)
    requires !Manifest.Parse(t, p.manifest).value.trailing
    ensures HostPasses(t, RecordOf(t, p.manifest), p, keyId, signed, h)
  {
    Manifest.TextInvertsParse(t, p.manifest);
  }

  /** The parts the host passes are those the device passes whose manifest has no trailing comma. */
  lemma PartsAgree(t: Manifest.Table, p: Package, keyId: seq<Byte>, maxWasm: nat, signed: Signed, h: Hash)
    requires Manifest.Separated(t) && MembersAllowed(p, maxWasm)
    ensures HostParts(t, p, keyId, signed, h) <==>
            && PartsAccepted(t, p, keyId, maxWasm, signed, h) && HostRule(RecordOf(t, p.manifest), p.wasm)
            && !Manifest.Parse(t, p.manifest).value.trailing
  {
    if m :| HostPasses(t, m, p, keyId, signed, h) {
      HostPassesAccepted(t, m, p, keyId, maxWasm, signed, h);
    }
    if PartsAccepted(t, p, keyId, maxWasm, signed, h) && HostRule(RecordOf(t, p.manifest), p.wasm)
      && !Manifest.Parse(t, p.manifest).value.trailing
    {
      AcceptedPassesHost(t, p, keyId, maxWasm, signed, h);
    }
  }

  lemma UnpackIsSplit(package: seq<Byte>, maxWasm: nat)
    requires SizeAllowed(|package|, maxWasm)
    ensures Unpack(package, maxWasm) ==
            if Split(package).Some? && MembersAllowed(Split(package).value, maxWasm) then Split(package) else None
  {
  }

  lemma AcceptedPartsAreAllowed(t: Manifest.Table, p: Package, keyId: seq<Byte>, maxWasm: nat, signed: Signed, h: Hash)
    requires PartsAccepted(t, p, keyId, maxWasm, signed, h)
    ensures MembersAllowed(p, maxWasm)
  {
  }

  /** Host and device agree on every package, but for the trailing comma. */
  lemma HostAndDeviceAgree(
    t: Manifest.Table, package: seq<Byte>, keySize: nat, keyId: seq<Byte>, maxWasm: nat, signed: Signed, h: Hash)
    requires Manifest.Separated(t) && ArgumentsAllowed(|package|, keySize, maxWasm)
    ensures HostVerifies(t, package, keyId, maxWasm, signed, h) <==>
            && Accepted(t, package, keyId, maxWasm, signed, h)
            && HostRule(RecordOf(t, Split(package).value.manifest), Split(package).value.wasm)
            && !Manifest.Parse(t, Split(package).value.manifest).value.trailing
  {
    UnpackIsSplit(package, maxWasm);
    if Split(package).Some? {
      var p := Split(package).value;
      if MembersAllowed(p, maxWasm) {
        PartsAgree(t, p, keyId, maxWasm, signed, h);
      } else if PartsAccepted(t, p, keyId, maxWasm, signed, h) {
        AcceptedPartsAreAllowed(t, p, keyId, maxWasm, signed, h);
      }
    }
  }

  /** In particular for the format there is. */
  lemma FormatsAgree(package: seq<Byte>, keySize: nat, keyId: seq<Byte>, maxWasm: nat, signed: Signed, h: Hash)
    requires ArgumentsAllowed(|package|, keySize, maxWasm)
    ensures HostVerifies(Manifest.FORMAT, package, keyId, maxWasm, signed, h) ==>
              Accepted(Manifest.FORMAT, package, keyId, maxWasm, signed, h)
  {
    Manifest.FormatIsSeparated();
    HostAndDeviceAgree(Manifest.FORMAT, package, keySize, keyId, maxWasm, signed, h);
  }

  lemma LayoutOfAccepted(t: Manifest.Table, p: Package, keyId: seq<Byte>, maxWasm: nat, signed: Signed, h: Hash)
    requires PartsAccepted(t, p, keyId, maxWasm, signed, h)
    ensures Accepted(t, Layout(p), keyId, maxWasm, signed, h)
  {
    SplitInvertsLayout(p);
  }

  lemma LayoutVerifies(t: Manifest.Table, p: Package, keyId: seq<Byte>, signed: Signed, h: Hash)
    requires MembersAllowed(p, WASM_MAX) && HostParts(t, p, keyId, signed, h)
    ensures HostVerifies(t, Layout(p), keyId, WASM_MAX, signed, h)
  {
    SizeCheckHoldsAtDeviceCap(p);
  }

  /** What the host packs at the device's cap, both verify. */
  lemma PackedPackagesVerify(t: Manifest.Table, p: Package, keyId: seq<Byte>, signed: Signed, h: Hash)
    requires Manifest.Separated(t) && MembersAllowed(p, WASM_MAX) && HostParts(t, p, keyId, signed, h)
    ensures HostVerifies(t, Layout(p), keyId, WASM_MAX, signed, h) && Accepted(t, Layout(p), keyId, WASM_MAX, signed, h)
    ensures SizeAllowed(|Layout(p)|, WASM_MAX)
  {
    SizeCheckHoldsAtDeviceCap(p);
    LayoutVerifies(t, p, keyId, signed, h);
    PartsAgree(t, p, keyId, WASM_MAX, signed, h);
    LayoutOfAccepted(t, p, keyId, WASM_MAX, signed, h);
  }

  /** On a verified package the module check comes down to the authorization and the host's rule. */
  lemma ModuleCheckIsHostRule(
    t: Manifest.Table, info: PackageInfo, package: seq<Byte>, p: Package, a: PackageVerdict.Authorization,
    keyId: seq<Byte>, maxWasm: nat, signed: Signed, h: Hash)
    requires PartsAccepted(t, p, keyId, maxWasm, signed, h) && KnowsParts(t, info, package, p)
    ensures PackageVerdict.Admissible(ModuleInfo(info), a, h, p.wasm) <==>
            && PackageVerdict.WellFormed(ModuleInfo(info), a) && PackageVerdict.Authorized(ModuleInfo(info), a)
            && HostRule(RecordOf(t, p.manifest), p.wasm)
  {
    RuleAgrees(info, p.manifest, RecordOf(t, p.manifest), p.wasm);
  }

  /** An authorization the module check accepts as an argument. */
  predicate AuthorizationValid(a: PackageVerdict.Authorization) {
    a.allowed <= CAP_ALL && a.maxMemory >= WasmFormat.PAGE_BYTES && a.maxStack > 0
  }

  /** What the verification reports of an accepted package. */
  predicate Reported(t: Manifest.Table, info: PackageInfo, package: seq<Byte>) {
    && info.packageSize == |package| && Split(package).Some?
    && KnowsParts(t, info, package, Split(package).value)
  }

  lemma RuleNeedsMemory(wasm: seq<Byte>, limit: nat)
    requires WasmFormat.HostAdmits(wasm, limit).Some?
    ensures limit >= WasmFormat.PAGE_BYTES
  {
    var m := WasmFormat.SectionMap(wasm[8..], 0).value;
    assert WasmFormat.MemoryWithin(m[WasmFormat.MEMORIES], limit / WasmFormat.PAGE_BYTES);
  }

  lemma ParsedIsValid(t: Manifest.Table, s: seq<Byte>)
    requires Manifest.Parse(t, s).Some?
    ensures Manifest.RecordValid(RecordOf(t, s))
  {
    Manifest.TextInvertsParse(t, s);
  }

  lemma DescribedIsWellFormed(
    info: PackageInfo, a: PackageVerdict.Authorization, data: seq<Byte>, m: Manifest.Record, wasm: seq<Byte>)
    requires AuthorizationValid(a) && Describes(info.fields, data, m) && Manifest.RecordValid(m)
    requires info.wasm.size == |wasm| && info.wasm.offset + info.wasm.size <= info.packageSize
    requires WasmFormat.HostAdmits(wasm, m.limits.memory).Some?
    ensures PackageVerdict.WellFormed(ModuleInfo(info), a)
  {
    RuleNeedsMemory(wasm, m.limits.memory);
    ModuleIsLongEnough(wasm, m.limits.memory);
    MaskMeansListed(m.capabilities, WasmFormat.Timer);
  }

  /** What the host's rule says of a verified package makes the device's arguments well formed. */
  lemma VerifiedIsWellFormed(
    t: Manifest.Table, info: PackageInfo, package: seq<Byte>, a: PackageVerdict.Authorization, p: Package)
    requires KnowsParts(t, info, package, p) && info.packageSize == |package| && AuthorizationValid(a)
    requires HostRule(RecordOf(t, p.manifest), p.wasm)
    ensures PackageVerdict.WellFormed(ModuleInfo(info), a)
  {
    ParsedIsValid(t, p.manifest);
    DescribedIsWellFormed(info, a, p.manifest, RecordOf(t, p.manifest), p.wasm);
  }

  /**
   On every package the device's two checks together decide what the host decides, up to the
   trailing comma and the authorization, which only the device has.
   */
  lemma ChecksAreHostRule(
    t: Manifest.Table, info: PackageInfo, package: seq<Byte>, a: PackageVerdict.Authorization, keySize: nat,
    keyId: seq<Byte>, maxWasm: nat, signed: Signed, h: Hash)
    requires Manifest.Separated(t) && ArgumentsAllowed(|package|, keySize, maxWasm) && AuthorizationValid(a)
    requires Accepted(t, package, keyId, maxWasm, signed, h) ==> Reported(t, info, package)
    ensures HostVerifies(t, package, keyId, maxWasm, signed, h) && PackageVerdict.Authorized(ModuleInfo(info), a) <==>
            && Accepted(t, package, keyId, maxWasm, signed, h)
            && PackageVerdict.Admissible(ModuleInfo(info), a, h, Split(package).value.wasm)
            && !Manifest.Parse(t, Split(package).value.manifest).value.trailing
  {
    HostAndDeviceAgree(t, package, keySize, keyId, maxWasm, signed, h);
    if Accepted(t, package, keyId, maxWasm, signed, h) {
      var p := Split(package).value;
      ModuleCheckIsHostRule(t, info, package, p, a, keyId, maxWasm, signed, h);
      if HostRule(RecordOf(t, p.manifest), p.wasm) {
        VerifiedIsWellFormed(t, info, package, a, p);
      }
    }
  }

  /** An authorization for everything there is. */
  const EVERYTHING := PackageVerdict.Authorization(CAP_ALL, U32_MAX, U32_MAX)

  /** With it the device admits exactly what the host verifies, but for the trailing comma. */
  lemma FullyAuthorizedChecksAgree(
    t: Manifest.Table, info: PackageInfo, package: seq<Byte>, keySize: nat, keyId: seq<Byte>, maxWasm: nat,
    signed: Signed, h: Hash)
    requires Manifest.Separated(t) && ArgumentsAllowed(|package|, keySize, maxWasm)
    requires Accepted(t, package, keyId, maxWasm, signed, h) ==> Reported(t, info, package)
    ensures HostVerifies(t, package, keyId, maxWasm, signed, h) <==>
            && Accepted(t, package, keyId, maxWasm, signed, h)
            && PackageVerdict.Admissible(ModuleInfo(info), EVERYTHING, h, Split(package).value.wasm)
            && !Manifest.Parse(t, Split(package).value.manifest).value.trailing
  {
    ChecksAreHostRule(t, info, package, EVERYTHING, keySize, keyId, maxWasm, signed, h);
    HostAndDeviceAgree(t, package, keySize, keyId, maxWasm, signed, h);
    if HostVerifies(t, package, keyId, maxWasm, signed, h) {
      VerifiedIsWellFormed(t, info, package, EVERYTHING, Split(package).value);
    }
  }

  /** A verified and admitted module passes the scan it meets when it is opened, within its signed memory limit. */
  lemma AdmittedModulesOpen(
    t: Manifest.Table, info: PackageInfo, package: seq<Byte>, p: Package, a: PackageVerdict.Authorization,
    keyId: seq<Byte>, maxWasm: nat, signed: Signed, h: Hash)
    requires PartsAccepted(t, p, keyId, maxWasm, signed, h) && KnowsParts(t, info, package, p)
    requires PackageVerdict.Admissible(ModuleInfo(info), a, h, p.wasm)
    ensures WasmScan.PassesWithin(p.wasm, RecordOf(t, p.manifest).limits.memory / WasmFormat.PAGE_BYTES)
    ensures forall c | c in WasmFormat.Required(WasmScan.Passes(p.wasm).value) ::
              CapabilityName(c) in RecordOf(t, p.manifest).capabilities
  {
    ModuleCheckIsHostRule(t, info, package, p, a, keyId, maxWasm, signed, h);
    WasmScan.AdmissionAtInstallOpens(p.wasm, RecordOf(t, p.manifest).limits.memory);
  }
}
