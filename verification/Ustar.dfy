/**
 The package archive: three ustar members ("ustar Interchange Format" of the pax utility,
 IEEE Std 1003.1) with canonical headers, zero padding and a zero tail up to a full
 record. Laying out and splitting undo each other.
 */
module Ustar {
  import opened Octets

  const BLOCK: nat := 512
  const RECORD: nat := 10240

  // ------------------------------------------------------------------ octal fields

  function Power8(n: nat): nat {
    if n == 0 then 1 else 8 * Power8(n - 1)
  }

  function Octal(v: nat, digits: nat): (r: seq<Byte>)
    ensures |r| == digits && forall i | 0 <= i < digits :: 0x30 <= r[i] <= 0x37
  {
    if digits == 0 then [] else Octal(v / 8, digits - 1) + [0x30 + v % 8]
  }

  predicate OctalDigits(s: seq<Byte>) {
    forall i | 0 <= i < |s| :: 0x30 <= s[i] <= 0x37
  }

  function OctalValue(s: seq<Byte>): nat
    requires OctalDigits(s)
  {
    if s == [] then 0 else 8 * OctalValue(s[..|s| - 1]) + (s[|s| - 1] - 0x30)
  }

  lemma {:induction false} OctalValueOf(v: nat, digits: nat)
    requires v < Power8(digits)
    ensures OctalValue(Octal(v, digits)) == v
  {
    if digits > 0 {
      OctalValueOf(v / 8, digits - 1);
      assert Octal(v, digits)[..digits - 1] == Octal(v / 8, digits - 1);
    }
  }

  lemma {:induction false} OctalOfValue(s: seq<Byte>)
    requires OctalDigits(s)
    ensures Octal(OctalValue(s), |s|) == s && OctalValue(s) < Power8(|s|)
  {
    if s != [] {
      var front, last := s[..|s| - 1], s[|s| - 1] - 0x30;
      OctalOfValue(front);
      assert OctalValue(s) / 8 == OctalValue(front) && OctalValue(s) % 8 == last;
      assert s == front + [s[|s| - 1]];
    }
  }

  /** Eleven octal digits hold every 32-bit size, and six every checksum. */
  lemma FieldsSuffice()
    ensures Power8(11) == 0x2_0000_0000 && Power8(6) == 0x4_0000
  {
    assert Power8(3) == 512;
    assert Power8(6) == 512 * Power8(3);
    assert Power8(9) == 512 * Power8(6);
  }

  // ------------------------------------------------------------------ headers

  /** "manifest.json" */
  const MANIFEST_NAME: seq<Byte> := [0x6d, 0x61, 0x6e, 0x69, 0x66, 0x65, 0x73, 0x74, 0x2e, 0x6a, 0x73, 0x6f, 0x6e]
  /** "signature.bin" */
  const SIGNATURE_NAME: seq<Byte> := [0x73, 0x69, 0x67, 0x6e, 0x61, 0x74, 0x75, 0x72, 0x65, 0x2e, 0x62, 0x69, 0x6e]
  /** "app.wasm" */
  const WASM_NAME: seq<Byte> := [0x61, 0x70, 0x70, 0x2e, 0x77, 0x61, 0x73, 0x6d]
  /** "0000644" */
  const MODE: seq<Byte> := [0x30, 0x30, 0x30, 0x30, 0x36, 0x34, 0x34]
  /** "ustar" */
  const MAGIC: seq<Byte> := [0x75, 0x73, 0x74, 0x61, 0x72]

  type Name = s: seq<Byte> | |s| < 100 witness []

  /** Byte i of a header: name, mode, owner, size, time, checksum, type, magic and version; zero elsewhere. */
  function HeaderByte(name: Name, size: U32, sum: seq<Byte>, i: nat): Byte
    requires |sum| == 8
  {
    if i < 100 then (if i < |name| then name[i] else 0)
    else if i < 107 then MODE[i - 100]
    else if i < 124 then (if i == 107 || i == 115 || i == 123 then 0 else 0x30)
    else if i < 135 then Octal(size, 11)[i - 124]
    else if i < 148 then (if i == 135 || i == 147 then 0 else 0x30)
    else if i < 156 then sum[i - 148]
    else if i == 156 then 0x30
    else if 257 <= i < 262 then MAGIC[i - 257]
    else if 263 <= i < 265 then 0x30
    else 0
  }

  function HeaderWith(name: Name, size: U32, sum: seq<Byte>): (r: seq<Byte>)
    requires |sum| == 8
    ensures |r| == BLOCK && forall i | 0 <= i < BLOCK :: r[i] == HeaderByte(name, size, sum, i)
  {
    seq(BLOCK, i requires 0 <= i < BLOCK => HeaderByte(name, size, sum, i))
  }

  function Sum(s: seq<Byte>): (r: nat)
    ensures r <= 255 * |s|
  {
    if s == [] then 0 else Sum(s[..|s| - 1]) + s[|s| - 1]
  }

  const BLANK: seq<Byte> := [0x20, 0x20, 0x20, 0x20, 0x20, 0x20, 0x20, 0x20]

  /** The checksum field: the sum of the header with a blank field, in six octal digits. */
  function Checksum(name: Name, size: U32): (r: seq<Byte>)
    ensures |r| == 8
  {
    Octal(Sum(HeaderWith(name, size, BLANK)), 6) + [0, 0x20]
  }

  /** The one header of a member. */
  function Header(name: Name, size: U32): (r: seq<Byte>)
    ensures |r| == BLOCK
  {
    HeaderWith(name, size, Checksum(name, size))
  }

  /** The size a header states, if the field is eleven octal digits and a zero. */
  function SizeField(header: seq<Byte>): Option<U32>
    requires |header| == BLOCK
  {
    if OctalDigits(header[124..135]) && OctalValue(header[124..135]) <= U32_MAX && header[135] == 0
    then Some(OctalValue(header[124..135])) else None
  }

  lemma HeaderStatesSize(name: Name, size: U32)
    ensures SizeField(Header(name, size)) == Some(size)
  {
    assert Header(name, size)[124..135] == Octal(size, 11);
    FieldsSuffice();
    OctalValueOf(size, 11);
  }

  lemma {:induction false} SumOfParts(a: seq<Byte>, b: seq<Byte>)
    ensures Sum(a + b) == Sum(a) + Sum(b)
  {
    if b == [] {
      assert a + b == a;
    } else {
      SumOfParts(a, b[..|b| - 1]);
      assert (a + b)[..|a + b| - 1] == a + b[..|b| - 1];
    }
  }

  lemma SumOfBlank()
    ensures Sum(BLANK) == 8 * 32
  {
    var s := BLANK;
    assert Sum(s[..2]) == 64 by {
      assert s[..2][..1] == s[..1] && s[..1][..0] == [];
    }
    assert s[..4][..3] == s[..3] && s[..3][..2] == s[..2];
    assert Sum(s[..4]) == 128;
    assert s[..6][..5] == s[..5] && s[..5][..4] == s[..4];
    assert Sum(s[..6]) == 192;
    assert s[..7][..6] == s[..6] && s[..8] == s;
    assert Sum(s[..7]) == 224;
  }

  /** The canonical header passes the host's own checksum test. */
  lemma HeaderSumsUp(name: Name, size: U32)
    ensures var h := Header(name, size);
            OctalDigits(h[148..154]) && OctalValue(h[148..154]) == Sum(h[..148]) + 8 * 32 + Sum(h[156..])
  {
    var h, blank := Header(name, size), HeaderWith(name, size, BLANK);
    assert h[148..154] == Octal(Sum(blank), 6);
    FieldsSuffice();
    OctalValueOf(Sum(blank), 6);
    assert blank[..148] == h[..148] && blank[148..156] == BLANK && blank[156..] == h[156..];
    assert blank == blank[..148] + blank[148..156] + blank[156..];
    SumOfParts(blank[..148] + blank[148..156], blank[156..]);
    SumOfParts(blank[..148], blank[148..156]);
    SumOfBlank();
  }

  // ------------------------------------------------------------------ members

  function Pad(n: nat): (r: nat)
    ensures r < BLOCK && (n + r) % BLOCK == 0
  {
    (BLOCK - n % BLOCK) % BLOCK
  }

  type Data = s: seq<Byte> | |s| <= U32_MAX witness []

  function Member(name: Name, data: Data, rest: seq<Byte>): seq<Byte> {
    Header(name, |data|) + (data + (Fill(Pad(|data|), 0) + rest))
  }

  function MemberSize(n: nat): nat {
    BLOCK + n + Pad(n)
  }

  /** One member from the front: a canonical header, the data and zeros up to the block. */
  function ReadMember(s: seq<Byte>, name: Name): Read<Data> {
    if |s| < BLOCK || SizeField(s[..BLOCK]).None? then Fail
    else
      var n := SizeField(s[..BLOCK]).value;
      if s[..BLOCK] != Header(name, n) then Fail else ReadBody(s[BLOCK..], n)
  }

  function ReadBody(s: seq<Byte>, n: U32): Read<Data> {
    if |s| < n + Pad(n) || !AllZero(s[n..n + Pad(n)]) then Fail else Got(s[..n], s[n + Pad(n)..])
  }

  lemma MemberReads(name: Name, data: Data, rest: seq<Byte>)
    ensures ReadMember(Member(name, data, rest), name) == Got(data, rest)
  {
    var s := Member(name, data, rest);
    var body := data + (Fill(Pad(|data|), 0) + rest);
    assert s[..BLOCK] == Header(name, |data|) && s[BLOCK..] == body;
    HeaderStatesSize(name, |data|);
    BodyReads(data, rest);
  }

  lemma BodyReads(data: Data, rest: seq<Byte>)
    ensures ReadBody(data + (Fill(Pad(|data|), 0) + rest), |data|) == Got(data, rest)
  {
    var n, zeros := |data|, Fill(Pad(|data|), 0);
    var s := data + (zeros + rest);
    assert s[..n] == data && s[n..n + |zeros|] == zeros && s[n + |zeros|..] == rest;
  }

  lemma MemberIsText(s: seq<Byte>, name: Name)
    requires ReadMember(s, name).Got?
    ensures s == Member(name, ReadMember(s, name).value, ReadMember(s, name).rest)
  {
    var n := SizeField(s[..BLOCK]).value;
    assert s == s[..BLOCK] + s[BLOCK..];
    BodyIsText(s[BLOCK..], n);
  }

  lemma BodyIsText(s: seq<Byte>, n: U32)
    requires ReadBody(s, n).Got?
    ensures |ReadBody(s, n).value| == n
    ensures s == ReadBody(s, n).value + (Fill(Pad(n), 0) + ReadBody(s, n).rest)
  {
    assert s[n..n + Pad(n)] == Fill(Pad(n), 0);
  }

  // ------------------------------------------------------------------ the archive

  datatype Package = Package(manifest: Data, signature: Data, wasm: Data)

  /** Two zero blocks at least, and then zeros up to a full record. */
  function FullSize(end: nat): nat {
    (end + 2 * BLOCK + RECORD - 1) / RECORD * RECORD
  }

  function Used(p: Package): nat {
    MemberSize(|p.manifest|) + MemberSize(|p.signature|) + MemberSize(|p.wasm|)
  }

  function Tail(end: nat): (r: nat)
    ensures r >= 2 * BLOCK && end + r == FullSize(end)
  {
    FullSize(end) - end
  }

  /** The one archive of a manifest, a signature and a module. */
  function Layout(p: Package): seq<Byte> {
    Member(MANIFEST_NAME, p.manifest,
    Member(SIGNATURE_NAME, p.signature,
    Member(WASM_NAME, p.wasm, Fill(Tail(Used(p)), 0))))
  }

  function Split(s: seq<Byte>): Option<Package> {
    match ReadMember(s, MANIFEST_NAME)
    case Fail => None
    case Got(manifest, s1) =>
      match ReadMember(s1, SIGNATURE_NAME)
      case Fail => None
      case Got(signature, s2) =>
        match ReadMember(s2, WASM_NAME)
        case Fail => None
        case Got(wasm, tail) =>
          var p := Package(manifest, signature, wasm);
          if AllZero(tail) && |tail| == Tail(Used(p)) then Some(p) else None
  }

  lemma SplitInvertsLayout(p: Package)
    ensures Split(Layout(p)) == Some(p)
  {
    var tail := Fill(Tail(Used(p)), 0);
    MemberReads(WASM_NAME, p.wasm, tail);
    MemberReads(SIGNATURE_NAME, p.signature, Member(WASM_NAME, p.wasm, tail));
    MemberReads(MANIFEST_NAME, p.manifest, Member(SIGNATURE_NAME, p.signature, Member(WASM_NAME, p.wasm, tail)));
  }

  lemma LayoutInvertsSplit(s: seq<Byte>)
    requires Split(s).Some?
    ensures s == Layout(Split(s).value)
  {
    var s1 := ReadMember(s, MANIFEST_NAME).rest;
    var s2 := ReadMember(s1, SIGNATURE_NAME).rest;
    var tail := ReadMember(s2, WASM_NAME).rest;
    MemberIsText(s, MANIFEST_NAME);
    MemberIsText(s1, SIGNATURE_NAME);
    MemberIsText(s2, WASM_NAME);
    assert tail == Fill(|tail|, 0);
  }

  lemma LayoutSize(p: Package)
    ensures |Layout(p)| == FullSize(Used(p)) && |Layout(p)| % RECORD == 0 && |Layout(p)| % BLOCK == 0
  {
    RecordsAreBlocks(|Layout(p)|);
  }

  lemma RecordsAreBlocks(n: nat)
    requires n % RECORD == 0
    ensures n % BLOCK == 0
  {
    var q := n / RECORD;
    assert n == BLOCK * (20 * q);
  }

  // ------------------------------------------------------------------ size limits

  const SIGNATURE_BYTES: nat := 384
  const WASM_MAX: nat := 512 * 1024

  /** The limit on the whole archive that both implementations check first. */
  predicate SizeAllowed(size: nat, maxWasm: nat) {
    size % BLOCK == 0 && size <= maxWasm + MANIFEST_MAX + 8192
  }

  /** The limits on the members. */
  predicate MembersAllowed(p: Package, maxWasm: nat) {
    |p.manifest| <= MANIFEST_MAX && |p.signature| <= SIGNATURE_BYTES && |p.wasm| <= maxWasm
  }

  /** The host's unpacking. */
  function Unpack(s: seq<Byte>, maxWasm: nat): Option<Package> {
    if !SizeAllowed(|s|, maxWasm) then None
    else
      match Split(s)
      case None => None
      case Some(p) => if MembersAllowed(p, maxWasm) then Some(p) else None
  }

  /** Unpacking gives back what was packed exactly when the archive passes the first size check. */
  lemma UnpackInvertsLayout(p: Package, maxWasm: nat)
    requires MembersAllowed(p, maxWasm)
    ensures Unpack(Layout(p), maxWasm) == if FullSize(Used(p)) <= maxWasm + MANIFEST_MAX + 8192 then Some(p) else None
  {
    SplitInvertsLayout(p);
    LayoutSize(p);
  }

  /** Nothing but a layout is unpacked, and packing the parts again gives the same bytes. */
  lemma LayoutInvertsUnpack(s: seq<Byte>, maxWasm: nat)
    requires Unpack(s, maxWasm).Some?
    ensures s == Layout(Unpack(s, maxWasm).value)
  {
    LayoutInvertsSplit(s);
  }

  lemma MemberSizeGrows(n: nat, m: nat)
    requires n <= m
    ensures MemberSize(n) <= MemberSize(m)
  {
    assert n + Pad(n) == (n + BLOCK - 1) / BLOCK * BLOCK;
    assert m + Pad(m) == (m + BLOCK - 1) / BLOCK * BLOCK;
  }

  lemma FullSizeGrows(n: nat, m: nat)
    requires n <= m
    ensures FullSize(n) <= FullSize(m)
  {
  }

  /** The largest archive of members within their limits. */
  function LargestSize(maxWasm: nat): nat {
    FullSize(MemberSize(MANIFEST_MAX) + MemberSize(SIGNATURE_BYTES) + MemberSize(maxWasm))
  }

  lemma NoneIsLarger(p: Package, maxWasm: nat)
    requires MembersAllowed(p, maxWasm)
    ensures FullSize(Used(p)) <= LargestSize(maxWasm)
  {
    MemberSizeGrows(|p.manifest|, MANIFEST_MAX);
    MemberSizeGrows(|p.signature|, SIGNATURE_BYTES);
    MemberSizeGrows(|p.wasm|, maxWasm);
    FullSizeGrows(Used(p), MemberSize(MANIFEST_MAX) + MemberSize(SIGNATURE_BYTES) + MemberSize(maxWasm));
  }

  /** The first size check follows from the member limits for the caps under which the largest archive passes. */
  lemma SizeCheckIsImplied(maxWasm: nat)
    requires maxWasm <= U32_MAX
    ensures LargestSize(maxWasm) <= maxWasm + MANIFEST_MAX + 8192 <==>
            forall p | MembersAllowed(p, maxWasm) :: SizeAllowed(|Layout(p)|, maxWasm)
  {
    if LargestSize(maxWasm) <= maxWasm + MANIFEST_MAX + 8192 {
      forall p | MembersAllowed(p, maxWasm) ensures SizeAllowed(|Layout(p)|, maxWasm) {
        NoneIsLarger(p, maxWasm);
        LayoutSize(p);
      }
    } else {
      var p := Package(Fill(MANIFEST_MAX, 0), Fill(SIGNATURE_BYTES, 0), Fill(maxWasm, 0));
      LayoutSize(p);
      assert MembersAllowed(p, maxWasm) && !SizeAllowed(|Layout(p)|, maxWasm);
    }
  }

  lemma UnpackedIsAllowed(s: seq<Byte>, maxWasm: nat)
    requires Unpack(s, maxWasm).Some?
    ensures SizeAllowed(|s|, maxWasm) && MembersAllowed(Unpack(s, maxWasm).value, maxWasm)
  {
  }

  /** At the device's own cap it does; */
  lemma SizeCheckHoldsAtDeviceCap(p: Package)
    requires MembersAllowed(p, WASM_MAX)
    ensures Unpack(Layout(p), WASM_MAX) == Some(p) && SizeAllowed(|Layout(p)|, WASM_MAX)
  {
    NoneIsLarger(p, WASM_MAX);
    UnpackInvertsLayout(p, WASM_MAX);
    UnpackedIsAllowed(Layout(p), WASM_MAX);
  }

  /** at a cap of 6656 bytes it does not: this archive has 20480 bytes and the limit is 18944. */
  lemma SizeCheckFailsAtSmallCap()
    ensures var p := Package(Fill(547, 0), Fill(384, 0), Fill(6656, 0));
            MembersAllowed(p, 6656) && |Layout(p)| == 20480 && Unpack(Layout(p), 6656).None?
  {
    var p := Package(Fill(547, 0), Fill(384, 0), Fill(6656, 0));
    SmallSizes();
    assert Used(p) == MemberSize(547) + MemberSize(384) + MemberSize(6656);
    LayoutSize(p);
    UnpackInvertsLayout(p, 6656);
  }

  lemma SmallSizes()
    ensures MemberSize(547) + MemberSize(384) + MemberSize(6656) == 9728 && FullSize(9728) == 20480
  {
  }
}
