/**
 The 288-byte durable record: its layout, the code that fills and reads it, and the
 bijection between valid states and accepted records.
 */
module SlotRecord {
  import opened Octets
  import opened Crc
  import opened SlotState

  const BLOB_BYTES: nat := 288
  const HEADER_BYTES: nat := 12
  const BINDING_BYTES: nat := 80
  const OPERATION_BYTES: nat := 112
  const CRC_OFFSET: nat := BLOB_BYTES - 4

  type Blob = s: seq<Byte> | |s| == 288 witness Fill(288, 0)

  const MAGIC: seq<Byte> := [0x45, 0x43, 0x53, 0x31]  // "ECS1"

  function Flag(b: bool): Byte {
    if b then 1 else 0
  }

  /** Three numbers in a row. */
  function Words(a: U32, b: U32, c: U32): (r: seq<Byte>)
    ensures |r| == 12
  {
    Le32(a) + Le32(b) + Le32(c)
  }

  lemma WordsRoundTrip(a: U32, b: U32, c: U32)
    ensures var r := Words(a, b, c);
            Load32(r[..4]) == a && Load32(r[4..8]) == b && Load32(r[8..]) == c
  {
    var r := Words(a, b, c);
    assert r[..4] == Le32(a);
    assert r[4..8] == Le32(b);
    assert r[8..] == Le32(c);
    Load32InvertsLe32(a);
    Load32InvertsLe32(b);
    Load32InvertsLe32(c);
  }

  lemma WordsBytesRoundTrip(r: seq<Byte>)
    requires |r| == 12
    ensures Words(Load32(r[..4]), Load32(r[4..8]), Load32(r[8..])) == r
  {
    Le32InvertsLoad32(r[..4]);
    Le32InvertsLoad32(r[4..8]);
    Le32InvertsLoad32(r[8..]);
    assert r == r[..4] + r[4..8] + r[8..];
  }

  function EncodeBinding(b: Binding): (r: seq<Byte>)
    ensures |r| == BINDING_BYTES
  {
    [Flag(b.present), Flag(b.packagePresent), b.slot, 0] + (b.firmware + b.package)
    + Words(b.packageSize, b.guestAbi, b.dataSchema)
  }

  function EncodeOperation(phase: Byte, o: Operation): (r: seq<Byte>)
    ensures |r| == OPERATION_BYTES
  {
    [phase, o.slot, 0, 0] + o.id + (o.target + o.package)
    + (Words(o.packageSize, o.guestAbi, o.dataSchema) + o.trialBoot)
  }

  function Header(sequence: U32): (r: seq<Byte>)
    ensures |r| == HEADER_BYTES
  {
    MAGIC + Le32(1) + Le32(sequence)
  }

  function Payload(s: State): (r: seq<Byte>)
    ensures |r| == CRC_OFFSET
  {
    Header(s.sequence) + EncodeBinding(s.bindings[0]) + EncodeBinding(s.bindings[1])
    + EncodeOperation(s.phase, s.operation)
  }

  function Encode(s: State): Blob {
    Payload(s) + Le32(Crc32(Payload(s)))
  }

  predicate BindingShape(r: seq<Byte>)
    requires |r| == BINDING_BYTES
  {
    r[0] <= 1 && r[1] <= 1 && r[3] == 0
  }

  function DecodeBinding(r: seq<Byte>): Binding
    requires |r| == BINDING_BYTES
  {
    Binding(r[0] != 0, r[1] != 0, r[2], r[4..36], r[36..68],
            Load32(r[68..72]), Load32(r[72..76]), Load32(r[76..80]))
  }

  predicate OperationShape(r: seq<Byte>)
    requires |r| == OPERATION_BYTES
  {
    r[2] == 0 && r[3] == 0
  }

  function DecodeOperation(r: seq<Byte>): Operation
    requires |r| == OPERATION_BYTES
  {
    Operation(r[4..20], r[20..52], r[52..84], r[1],
              Load32(r[84..88]), Load32(r[88..92]), Load32(r[92..96]), r[96..112])
  }

  /** The record carries the magic, version 1 and its own CRC. */
  predicate Sealed(blob: Blob) {
    && blob[..4] == MAGIC && Load32(blob[4..8]) == 1
    && Load32(blob[CRC_OFFSET..]) == Crc32(blob[..CRC_OFFSET])
  }

  predicate Shaped(blob: Blob) {
    BindingShape(blob[12..92]) && BindingShape(blob[92..172]) && OperationShape(blob[172..284])
  }

  function Fields(blob: Blob): State {
    State(Load32(blob[8..12]), [DecodeBinding(blob[12..92]), DecodeBinding(blob[92..172])],
          blob[172], DecodeOperation(blob[172..284]))
  }

  function Decode(blob: Blob, g: Geometry): Option<State> {
    if Sealed(blob) && Shaped(blob) && StateValid(Fields(blob), g) then Some(Fields(blob)) else None
  }

  // ------------------------------------------------------------------ the bijection

  lemma BindingRoundTrip(b: Binding)
    ensures BindingShape(EncodeBinding(b)) && DecodeBinding(EncodeBinding(b)) == b
  {
    var r, ids, words := EncodeBinding(b), b.firmware + b.package, Words(b.packageSize, b.guestAbi, b.dataSchema);
    assert r[4..68] == ids;
    assert r[4..36] == ids[..32] == b.firmware;
    assert r[36..68] == ids[32..] == b.package;
    assert r[68..] == words;
    assert r[68..72] == words[..4] && r[72..76] == words[4..8] && r[76..80] == words[8..];
    WordsRoundTrip(b.packageSize, b.guestAbi, b.dataSchema);
  }

  lemma BindingBytesRoundTrip(r: seq<Byte>)
    requires |r| == BINDING_BYTES && BindingShape(r)
    ensures EncodeBinding(DecodeBinding(r)) == r
  {
    var words := r[68..];
    assert r[68..72] == words[..4] && r[72..76] == words[4..8] && r[76..80] == words[8..];
    WordsBytesRoundTrip(words);
    assert r[4..68] == r[4..36] + r[36..68];
    assert r[..4] == [Flag(r[0] != 0), Flag(r[1] != 0), r[2], 0];
    assert r == r[..4] + r[4..68] + r[68..];
  }

  lemma OperationRoundTrip(phase: Byte, o: Operation)
    ensures var r := EncodeOperation(phase, o);
            r[0] == phase && OperationShape(r) && DecodeOperation(r) == o
  {
    var words := Words(o.packageSize, o.guestAbi, o.dataSchema);
    var r, digests, rest := EncodeOperation(phase, o), o.target + o.package, words + o.trialBoot;
    assert r[4..20] == o.id;
    assert r[20..84] == digests;
    assert r[20..52] == digests[..32] == o.target;
    assert r[52..84] == digests[32..] == o.package;
    assert r[84..] == rest;
    assert r[84..96] == rest[..12] == words;
    assert r[84..88] == words[..4] && r[88..92] == words[4..8] && r[92..96] == words[8..];
    assert r[96..112] == rest[12..] == o.trialBoot;
    WordsRoundTrip(o.packageSize, o.guestAbi, o.dataSchema);
  }

  lemma OperationBytesRoundTrip(r: seq<Byte>)
    requires |r| == OPERATION_BYTES && OperationShape(r)
    ensures EncodeOperation(r[0], DecodeOperation(r)) == r
  {
    var words := r[84..96];
    assert r[84..88] == words[..4] && r[88..92] == words[4..8] && r[92..96] == words[8..];
    WordsBytesRoundTrip(words);
    assert r[20..84] == r[20..52] + r[52..84];
    assert r[84..] == words + r[96..112];
    assert r[..4] == [r[0], r[1], 0, 0];
    assert r == r[..4] + r[4..20] + r[20..84] + r[84..];
  }

  lemma PayloadParts(s: State)
    ensures var p := Payload(s);
            && p[..12] == Header(s.sequence)
            && p[12..92] == EncodeBinding(s.bindings[0])
            && p[92..172] == EncodeBinding(s.bindings[1])
            && p[172..] == EncodeOperation(s.phase, s.operation)
  {
  }

  lemma HeaderParts(sequence: U32)
    ensures var r := Header(sequence);
            r[..4] == MAGIC && r[4..8] == Le32(1) && r[8..] == Le32(sequence)
  {
  }

  lemma EncodedParts(s: State)
    ensures var blob := Encode(s);
            && blob[..4] == MAGIC && blob[4..8] == Le32(1) && blob[8..12] == Le32(s.sequence)
            && blob[12..92] == EncodeBinding(s.bindings[0])
            && blob[92..172] == EncodeBinding(s.bindings[1])
            && blob[172..284] == EncodeOperation(s.phase, s.operation)
            && blob[..284] == Payload(s) && blob[284..] == Le32(Crc32(Payload(s)))
  {
    var blob, p, r := Encode(s), Payload(s), Header(s.sequence);
    PayloadParts(s);
    HeaderParts(s.sequence);
    SealParts(p, Le32(Crc32(p)));
    assert blob[..4] == r[..4] && blob[4..8] == r[4..8] && blob[8..12] == r[8..];
    assert blob[12..92] == p[12..92] && blob[92..172] == p[92..172] && blob[172..284] == p[172..];
  }

  lemma SealParts(p: seq<Byte>, check: seq<Byte>)
    requires |p| == CRC_OFFSET
    ensures (p + check)[..284] == p && (p + check)[284..] == check
  {
  }

  lemma FieldsFromParts(blob: Blob, s: State)
    requires blob[8..12] == Le32(s.sequence)
    requires blob[12..92] == EncodeBinding(s.bindings[0]) && blob[92..172] == EncodeBinding(s.bindings[1])
    requires blob[172..284] == EncodeOperation(s.phase, s.operation)
    ensures Shaped(blob) && Fields(blob) == s
  {
    BindingRoundTrip(s.bindings[0]);
    BindingRoundTrip(s.bindings[1]);
    OperationRoundTrip(s.phase, s.operation);
    Load32InvertsLe32(s.sequence);
    assert blob[172] == blob[172..284][0];
    assert Fields(blob).bindings == s.bindings;
  }

  lemma EncodedFields(s: State)
    ensures Shaped(Encode(s)) && Fields(Encode(s)) == s
  {
    EncodedParts(s);
    FieldsFromParts(Encode(s), s);
  }

  lemma EncodedIsSealed(s: State)
    ensures Sealed(Encode(s))
  {
    EncodedParts(s);
    Load32InvertsLe32(1);
    Load32InvertsLe32(Crc32(Payload(s)));
  }

  /** Every state's record is accepted exactly when the state is valid, and read back unchanged. */
  lemma DecodeInvertsEncode(s: State, g: Geometry)
    ensures Decode(Encode(s), g) == if StateValid(s, g) then Some(s) else None
  {
    EncodedFields(s);
    EncodedIsSealed(s);
  }

  lemma HeaderBytesRoundTrip(blob: Blob)
    requires Sealed(blob)
    ensures Header(Load32(blob[8..12])) == blob[..12]
  {
    Le32InvertsLoad32(blob[4..8]);
    Le32InvertsLoad32(blob[8..12]);
    assert blob[..12] == blob[..4] + blob[4..8] + blob[8..12];
  }

  lemma PayloadBytesRoundTrip(blob: Blob)
    requires Header(Load32(blob[8..12])) == blob[..12] && Shaped(blob)
    ensures Payload(Fields(blob)) == blob[..284]
  {
    var first, second, operation := blob[12..92], blob[92..172], blob[172..284];
    BindingBytesRoundTrip(first);
    BindingBytesRoundTrip(second);
    OperationBytesRoundTrip(operation);
    assert blob[172] == operation[0];
    ConcatenationOfSlices(blob);
  }

  lemma ConcatenationOfSlices(blob: Blob)
    ensures blob[..284] == blob[..12] + blob[12..92] + blob[92..172] + blob[172..284]
  {
  }

  /** Every accepted record is the only record of its state. */
  lemma EncodeInvertsDecode(blob: Blob, g: Geometry)
    requires Decode(blob, g).Some?
    ensures Encode(Decode(blob, g).value) == blob
    ensures StateValid(Decode(blob, g).value, g)
  {
    HeaderBytesRoundTrip(blob);
    PayloadBytesRoundTrip(blob);
    Le32InvertsLoad32(blob[284..]);
    assert blob == blob[..284] + blob[284..];
  }

  lemma EncodeInjective(s: State, t: State)
    requires Encode(s) == Encode(t)
    ensures s == t
  {
    EncodedFields(s);
    EncodedFields(t);
  }

  lemma InTwo(s: seq<Byte>, a: nat)
    requires a <= |s|
    ensures s == s[..a] + s[a..]
  {
  }

  lemma InThree(s: seq<Byte>, a: nat, b: nat)
    requires a <= b <= |s|
    ensures s == s[..a] + s[a..b] + s[b..]
  {
  }

  /** Two sealed records cannot differ inside four consecutive bytes only. */
  lemma SealedRecordsDifferWidely(good: Blob, bad: Blob, at: nat)
    requires Sealed(good) && Sealed(bad) && at + 4 <= BLOB_BYTES
    requires good[..at] == bad[..at] && good[at + 4..] == bad[at + 4..]
    ensures good == bad
  {
    var v, w := good[at..at + 4], bad[at..at + 4];
    InThree(good, at, at + 4);
    InThree(bad, at, at + 4);
    InTwo(good, 284);
    InTwo(bad, 284);
    SealedRegistersAgree(good[..284], good[284..], bad[..284], bad[284..]);
    if v != w {
      BurstChangesRegister(U32_MAX, good[..at], v, w, good[at + 4..]);
      assert false;
    }
  }

  /** A change confined to any four consecutive bytes of an accepted record is rejected. */
  lemma BurstIsRejected(good: Blob, bad: Blob, at: nat, g: Geometry)
    requires Decode(good, g).Some? && good != bad && at + 4 <= BLOB_BYTES
    requires good[..at] == bad[..at] && good[at + 4..] == bad[at + 4..]
    ensures Decode(bad, g).None?
  {
    if Sealed(bad) {
      SealedRecordsDifferWidely(good, bad, at);
    }
  }

  /** In particular, so is any change to a single byte. */
  lemma ByteChangeIsRejected(good: Blob, at: nat, b: Byte, g: Geometry)
    requires Decode(good, g).Some? && at < BLOB_BYTES && good[at] != b
    ensures Decode(good[at := b], g).None?
  {
    var bad := good[at := b];
    var from := if at > 284 then 284 else at;
    assert good[at] != bad[at];
    BurstIsRejected(good, bad, from, g);
  }

  // ------------------------------------------------------------------ filling the record in place

  method Put(blob: array<Byte>, at: nat, bytes: seq<Byte>)
    requires at + |bytes| <= blob.Length
    modifies blob
    ensures blob[..at + |bytes|] == old(blob[..at]) + bytes
    ensures forall i | at + |bytes| <= i < blob.Length :: blob[i] == old(blob[i])
  {
    for i := 0 to |bytes|
      invariant blob[..at + i] == old(blob[..at]) + bytes[..i]
      invariant forall k | at + i <= k < blob.Length :: blob[k] == old(blob[k])
    {
      ghost var before := blob[..];
      blob[at + i] := bytes[i];
      assert bytes[..i + 1] == bytes[..i] + [bytes[i]];
      assert blob[..at + i + 1] == before[..at + i] + [bytes[i]];
    }
  }

  method StoreU32(blob: array<Byte>, at: nat, value: U32)
    requires at + 4 <= blob.Length
    modifies blob
    ensures blob[..at + 4] == old(blob[..at]) + Le32(value)
    ensures forall i | at + 4 <= i < blob.Length :: blob[i] == old(blob[i])
  {
    var rest: U32 := value;
    ghost var le := Le32(value);
    for index := 0 to 4
      invariant rest == match index case 0 => value case 1 => value / 0x100 case 2 => value / 0x1_0000
                                    case 3 => value / 0x100_0000 case _ => 0
      invariant blob[..at + index] == old(blob[..at]) + le[..index]
      invariant forall k | at + index <= k < blob.Length :: blob[k] == old(blob[k])
    {
      ghost var before := blob[..];
      blob[at + index] := rest % 0x100;
      assert le[..index + 1] == le[..index] + [le[index]];
      assert blob[..at + index + 1] == before[..at + index] + [le[index]];
      rest := rest / 0x100;
    }
  }

  /** Every byte from `at` on is still cleared. */
  predicate Cleared(blob: seq<Byte>, at: nat) {
    forall i | at <= i < |blob| :: blob[i] == 0
  }

  method PutWords(blob: array<Byte>, at: nat, a: U32, b: U32, c: U32)
    requires at + 12 <= blob.Length
    modifies blob
    ensures blob[..at + 12] == old(blob[..at]) + Words(a, b, c)
    ensures forall i | at + 12 <= i < blob.Length :: blob[i] == old(blob[i])
  {
    StoreU32(blob, at, a);
    StoreU32(blob, at + 4, b);
    StoreU32(blob, at + 8, c);
  }

  method EncodeBindingAt(blob: array<Byte>, at: nat, b: Binding)
    requires at + BINDING_BYTES <= blob.Length && Cleared(blob[..], at)
    modifies blob
    ensures blob[..at + BINDING_BYTES] == old(blob[..at]) + EncodeBinding(b)
    ensures Cleared(blob[..], at + BINDING_BYTES)
  {
    ghost var head, flags := blob[..at], [Flag(b.present), Flag(b.packagePresent), b.slot, 0];
    Put(blob, at, [Flag(b.present), Flag(b.packagePresent), b.slot]);
    assert blob[..at + 4] == head + flags;
    Put(blob, at + 4, b.firmware);
    Put(blob, at + 36, b.package);
    assert blob[..at + 68] == head + flags + (b.firmware + b.package);
    PutWords(blob, at + 68, b.packageSize, b.guestAbi, b.dataSchema);
    assert blob[..at + 80] == head + EncodeBinding(b);
  }

  method EncodeOperationAt(blob: array<Byte>, at: nat, phase: Byte, o: Operation)
    requires at + OPERATION_BYTES <= blob.Length && Cleared(blob[..], at)
    modifies blob
    ensures blob[..at + OPERATION_BYTES] == old(blob[..at]) + EncodeOperation(phase, o)
    ensures Cleared(blob[..], at + OPERATION_BYTES)
  {
    ghost var head, flags := blob[..at], [phase, o.slot, 0, 0];
    Put(blob, at, [phase, o.slot]);
    assert blob[..at + 4] == head + flags;
    Put(blob, at + 4, o.id);
    Put(blob, at + 20, o.target);
    Put(blob, at + 52, o.package);
    assert blob[..at + 84] == head + flags + o.id + (o.target + o.package);
    PutWords(blob, at + 84, o.packageSize, o.guestAbi, o.dataSchema);
    Put(blob, at + 96, o.trialBoot);
    assert blob[..at + 112] == head + EncodeOperation(phase, o);
  }

  method EncodeState(s: State, blob: array<Byte>)
    requires blob.Length == BLOB_BYTES
    modifies blob
    ensures blob[..] == Encode(s)
  {
    for i := 0 to BLOB_BYTES
      invariant forall k | 0 <= k < i :: blob[k] == 0
    {
      blob[i] := 0;
    }
    Put(blob, 0, MAGIC);
    StoreU32(blob, 4, 1);
    StoreU32(blob, 8, s.sequence);
    assert blob[..12] == Header(s.sequence);
    EncodeBindingAt(blob, 12, s.bindings[0]);
    EncodeBindingAt(blob, 92, s.bindings[1]);
    EncodeOperationAt(blob, 172, s.phase, s.operation);
    assert blob[..284] == Payload(s);
    var crc := BlobCrc32(blob[..CRC_OFFSET]);
    StoreU32(blob, CRC_OFFSET, crc);
    assert blob[..] == blob[..288];
  }

  method LoadU32(blob: array<Byte>, at: nat) returns (value: U32)
    requires at + 4 <= blob.Length
    ensures value == Load32(blob[at..at + 4])
  {
    var sum, scale := 0, 1;
    ghost var s := blob[at..at + 4];
    for index := 0 to 4
      invariant scale == match index case 0 => 1 case 1 => 0x100 case 2 => 0x1_0000
                                     case 3 => 0x100_0000 case _ => 0x1_0000_0000
      invariant index == 1 ==> sum == s[0]
      invariant index == 2 ==> sum == s[0] + 0x100 * (s[1] as int)
      invariant index == 3 ==> sum == s[0] + 0x100 * (s[1] as int) + 0x1_0000 * (s[2] as int)
      invariant index == 4 ==> sum == Load32(s)
      invariant index == 0 ==> sum == 0
    {
      assert blob[at + index] == s[index];
      sum := sum + scale * (blob[at + index] as int);
      scale := scale * 0x100;
    }
    value := sum;
  }

  method DecodeState(blob: array<Byte>, g: Geometry) returns (r: Option<State>)
    requires blob.Length == BLOB_BYTES
    ensures r == Decode(blob[..], g)
  {
    ghost var whole: Blob := blob[..];
    var version := LoadU32(blob, 4);
    var stored := LoadU32(blob, CRC_OFFSET);
    var actual := BlobCrc32(blob[..CRC_OFFSET]);
    assert blob[CRC_OFFSET..BLOB_BYTES] == whole[CRC_OFFSET..];
    if blob[..4] != MAGIC || version != 1 || stored != actual {
      return None;
    }
    var sequence := LoadU32(blob, 8);
    var bindings: Bindings := [NO_BINDING, NO_BINDING];
    for index := 0 to BINDING_COUNT
      invariant index > 0 ==> BindingShape(whole[12..92]) && bindings[0] == DecodeBinding(whole[12..92])
      invariant index > 1 ==> BindingShape(whole[92..172]) && bindings[1] == DecodeBinding(whole[92..172])
    {
      var source := blob[HEADER_BYTES + index * BINDING_BYTES..HEADER_BYTES + (index + 1) * BINDING_BYTES];
      if source[0] > 1 || source[1] > 1 || source[3] != 0 {
        return None;
      }
      bindings := bindings[index := DecodeBinding(source)];
    }
    var source := blob[172..284];
    if source[2] != 0 || source[3] != 0 {
      return None;
    }
    var state := State(sequence, bindings, source[0], DecodeOperation(source));
    assert state.bindings == Fields(whole).bindings;
    var ok := CheckState(state, g);
    return if ok then Some(state) else None;
  }
}
