/**
 The signed manifest: its canonical text, and the grammar the device reads it with. The
 text is the one spelling of the record as JSON with sorted keys and no white space
 (section 2 of RFC 8259).
 */
module Manifest {
  import opened Octets

  /** The bytes of an ASCII text. */
  function Ascii(s: string): (r: seq<Byte>)
    ensures |r| == |s|
    ensures forall i | 0 <= i < |s| :: r[i] == s[i] as int % 0x80
  {
    seq(|s|, i requires 0 <= i < |s| => s[i] as int % 0x80)
  }

  const QUOTE: Byte := 0x22
  const COMMA: Byte := 0x2c
  const HYPHEN: Byte := 0x2d
  const CLOSE: Byte := 0x5d
  const NINE: Byte := 0x39
  const ZERO: Byte := 0x30

  function Literal(s: seq<Byte>, text: seq<Byte>): (r: Read<()>) {
    if text <= s then Got((), s[|text|..]) else Fail
  }

  lemma LiteralReads(text: seq<Byte>, rest: seq<Byte>)
    ensures Literal(text + rest, text) == Got((), rest)
  {
    assert (text + rest)[..|text|] == text && (text + rest)[|text|..] == rest;
  }

  lemma LiteralIsText(s: seq<Byte>, text: seq<Byte>)
    requires Literal(s, text).Got?
    ensures s == text + Literal(s, text).rest
  {
    assert s == s[..|text|] + s[|text|..];
  }

  // ------------------------------------------------------------------ numbers

  predicate IsDigit(b: Byte) {
    ZERO <= b <= NINE
  }

  function DigitCount(s: seq<Byte>): (n: nat)
    ensures n <= |s| && (forall i | 0 <= i < n :: IsDigit(s[i])) && (n < |s| ==> !IsDigit(s[n]))
  {
    if s == [] || !IsDigit(s[0]) then 0 else 1 + DigitCount(s[1..])
  }

  predicate Digits(d: seq<Byte>) {
    forall i | 0 <= i < |d| :: IsDigit(d[i])
  }

  function Value(d: seq<Byte>): nat
    requires Digits(d)
  {
    if d == [] then 0 else Value(d[..|d| - 1]) * 10 + (d[|d| - 1] - ZERO)
  }

  function Power10(n: nat): nat {
    if n == 0 then 1 else 10 * Power10(n - 1)
  }

  /** The decimal text of a number, without leading zeros. */
  function Decimal(v: nat): (d: seq<Byte>)
    ensures d != [] && Digits(d)
  {
    if v < 10 then [ZERO + v] else Decimal(v / 10) + [ZERO + v % 10]
  }

  /** No leading zero, unless zero itself. */
  predicate Canonical(d: seq<Byte>) {
    Digits(d) && d != [] && (d[0] == ZERO ==> |d| == 1)
  }

  function Number(s: seq<Byte>, allowZero: bool): (r: Read<U32>)
  {
    var d := s[..DigitCount(s)];
    if !Canonical(d) || Value(d) > U32_MAX || (!allowZero && Value(d) == 0) then Fail
    else Got(Value(d), s[|d|..])
  }

  lemma {:induction false} DecimalIsCanonical(v: nat)
    ensures Canonical(Decimal(v)) && Value(Decimal(v)) == v && (Decimal(v)[0] == ZERO ==> v == 0)
  {
    if v < 10 {
      assert Decimal(v)[..0] == [];
      assert Value(Decimal(v)[..0]) == 0;
    } else {
      DecimalIsCanonical(v / 10);
      var d := Decimal(v / 10);
      assert (d + [ZERO + v % 10])[..|d|] == d;
    }
  }

  lemma {:induction false} CanonicalIsDecimal(d: seq<Byte>)
    requires Canonical(d)
    ensures Decimal(Value(d)) == d && (d[0] != ZERO ==> Value(d) > 0)
  {
    var front, last := d[..|d| - 1], d[|d| - 1] - ZERO;
    assert d == front + [d[|d| - 1]];
    if front == [] {
      assert Value(d) == last;
    } else {
      CanonicalIsDecimal(front);
      assert Value(d) == Value(front) * 10 + last;
      assert Value(d) / 10 == Value(front) && Value(d) % 10 == last;
    }
  }

  lemma {:induction false} DigitCountOf(d: seq<Byte>, rest: seq<Byte>)
    requires Digits(d) && (rest != [] ==> !IsDigit(rest[0]))
    ensures DigitCount(d + rest) == |d|
  {
    if d != [] {
      assert (d + rest)[1..] == d[1..] + rest;
      DigitCountOf(d[1..], rest);
    } else {
      assert d + rest == rest;
    }
  }

  lemma NumberReads(v: U32, allowZero: bool, rest: seq<Byte>)
    requires (allowZero || v > 0) && (rest != [] ==> !IsDigit(rest[0]))
    ensures Number(Decimal(v) + rest, allowZero) == Got(v, rest)
  {
    var d := Decimal(v);
    DecimalIsCanonical(v);
    DigitCountOf(d, rest);
    assert (d + rest)[..|d|] == d && (d + rest)[|d|..] == rest;
  }

  lemma LargeNumberFails(v: nat, allowZero: bool, rest: seq<Byte>)
    requires v > U32_MAX && (rest != [] ==> !IsDigit(rest[0]))
    ensures Number(Decimal(v) + rest, allowZero).Fail?
  {
    var d := Decimal(v);
    DecimalIsCanonical(v);
    DigitCountOf(d, rest);
    assert (d + rest)[..|d|] == d;
  }

  lemma NumberIsText(s: seq<Byte>, allowZero: bool)
    requires Number(s, allowZero).Got?
    ensures s == Decimal(Number(s, allowZero).value) + Number(s, allowZero).rest
    ensures allowZero || Number(s, allowZero).value > 0
  {
    var d := s[..DigitCount(s)];
    CanonicalIsDecimal(d);
    assert s == d + s[|d|..];
  }

  // ------------------------------------------------------------------ identifiers

  predicate Alphanumeric(b: Byte) {
    0x61 <= b <= 0x7a || IsDigit(b)
  }

  predicate IdByte(b: Byte) {
    Alphanumeric(b) || b == HYPHEN
  }

  function IdCount(s: seq<Byte>): (n: nat)
    ensures n <= |s| && (forall i | 0 <= i < n :: IdByte(s[i])) && (n < |s| ==> !IdByte(s[n]))
  {
    if s == [] || !IdByte(s[0]) then 0 else 1 + IdCount(s[1..])
  }

  /** Words of letters and digits, joined by single hyphens. */
  predicate Identifier(id: seq<Byte>) {
    && id != [] && (forall i | 0 <= i < |id| :: IdByte(id[i]))
    && id[0] != HYPHEN && id[|id| - 1] != HYPHEN
    && forall i | 0 < i < |id| && id[i] == HYPHEN :: id[i - 1] != HYPHEN
  }

  function Quoted(id: seq<Byte>): seq<Byte> {
    [QUOTE] + id + [QUOTE]
  }

  function QuotedId(s: seq<Byte>): Read<seq<Byte>> {
    if s == [] || s[0] != QUOTE then Fail
    else
      var id, rest := s[1..1 + IdCount(s[1..])], s[1 + IdCount(s[1..])..];
      if !Identifier(id) || rest == [] || rest[0] != QUOTE then Fail else Got(id, rest[1..])
  }

  lemma {:induction false} IdCountOf(id: seq<Byte>, rest: seq<Byte>)
    requires (forall i | 0 <= i < |id| :: IdByte(id[i])) && (rest != [] ==> !IdByte(rest[0]))
    ensures IdCount(id + rest) == |id|
  {
    if id != [] {
      assert (id + rest)[1..] == id[1..] + rest;
      IdCountOf(id[1..], rest);
    } else {
      assert id + rest == rest;
    }
  }

  lemma IdReads(id: seq<Byte>, rest: seq<Byte>)
    requires Identifier(id)
    ensures QuotedId(Quoted(id) + rest) == Got(id, rest)
  {
    var s, tail := Quoted(id) + rest, [QUOTE] + rest;
    assert s[1..] == id + tail;
    IdCountOf(id, tail);
    assert (id + tail)[..|id|] == id && (id + tail)[|id|..] == tail;
    assert s[1..1 + |id|] == s[1..][..|id|] && s[1 + |id|..] == s[1..][|id|..];
    assert tail[1..] == rest;
  }

  lemma IdIsText(s: seq<Byte>)
    requires QuotedId(s).Got?
    ensures Identifier(QuotedId(s).value) && s == Quoted(QuotedId(s).value) + QuotedId(s).rest
  {
    var n := IdCount(s[1..]);
    assert s == [s[0]] + s[1..1 + n] + [s[1 + n]] + s[2 + n..];
    assert s[1 + n..][1..] == s[2 + n..];
  }

  // ------------------------------------------------------------------ digests

  function HexDigit(v: nat): Byte
    requires v < 16
  {
    if v < 10 then ZERO + v else 0x61 + (v - 10)
  }

  function HexValue(b: Byte): Option<nat> {
    if IsDigit(b) then Some(b - ZERO) else if 0x61 <= b <= 0x66 then Some(b - 0x61 + 10) else None
  }

  function Hex(s: seq<Byte>): seq<Byte> {
    if s == [] then [] else [HexDigit(s[0] / 16), HexDigit(s[0] % 16)] + Hex(s[1..])
  }

  function HexByte(s: seq<Byte>): (r: Read<Byte>) {
    if |s| < 2 || HexValue(s[0]).None? || HexValue(s[1]).None? then Fail
    else Got(HexOctet(HexValue(s[0]).value, HexValue(s[1]).value), s[2..])
  }

  function HexOctet(high: nat, low: nat): Byte
    requires high < 16 && low < 16
  {
    16 * high + low
  }

  function HexBytes(s: seq<Byte>, n: nat): (r: Read<seq<Byte>>)
    ensures r.Got? ==> |r.value| == n
    decreases |s|
  {
    if n == 0 then Got([], s)
    else
      match HexByte(s)
      case Fail => Fail
      case Got(b, more) =>
        match HexBytes(more, n - 1) case Fail => Fail case Got(l, rest) => Got([b] + l, rest)
  }

  function Sha(s: seq<Byte>): Read<Digest> {
    if s == [] || s[0] != QUOTE then Fail
    else
      match HexBytes(s[1..], 32)
      case Fail => Fail
      case Got(d, rest) => if rest == [] || rest[0] != QUOTE then Fail else Got(d, rest[1..])
  }

  lemma HexByteReads(b: Byte, rest: seq<Byte>)
    ensures HexByte([HexDigit(b / 16), HexDigit(b % 16)] + rest) == Got(b, rest)
  {
    var s := [HexDigit(b / 16), HexDigit(b % 16)] + rest;
    assert s[2..] == rest;
  }

  lemma {:induction false} HexReads(d: seq<Byte>, rest: seq<Byte>)
    ensures HexBytes(Hex(d) + rest, |d|) == Got(d, rest)
  {
    if d == [] {
      assert Hex(d) + rest == rest;
    } else {
      var tail := Hex(d[1..]) + rest;
      HexReads(d[1..], rest);
      HexByteReads(d[0], tail);
      assert Hex(d) + rest == [HexDigit(d[0] / 16), HexDigit(d[0] % 16)] + tail;
      assert d == [d[0]] + d[1..];
    }
  }

  lemma HexByteIsText(s: seq<Byte>)
    requires HexByte(s).Got?
    ensures s == Hex([HexByte(s).value]) + HexByte(s).rest
  {
    var b := HexByte(s).value;
    assert b / 16 == HexValue(s[0]).value && b % 16 == HexValue(s[1]).value;
    assert [b][1..] == [];
    assert Hex([b]) == [s[0], s[1]] + [];
    assert s == [s[0], s[1]] + s[2..];
  }

  lemma HexCons(b: Byte, tail: seq<Byte>)
    ensures Hex([b] + tail) == Hex([b]) + Hex(tail)
  {
    assert ([b] + tail)[1..] == tail && [b][1..] == [];
  }

  lemma {:induction false} HexIsText(s: seq<Byte>, n: nat)
    requires HexBytes(s, n).Got?
    ensures s == Hex(HexBytes(s, n).value) + HexBytes(s, n).rest
    decreases n
  {
    if n > 0 {
      var b, more := HexByte(s).value, HexByte(s).rest;
      var tail := HexBytes(more, n - 1);
      HexByteIsText(s);
      HexIsText(more, n - 1);
      HexCons(b, tail.value);
      assert Hex([b]) + (Hex(tail.value) + tail.rest) == Hex([b]) + Hex(tail.value) + tail.rest;
    } else {
      assert s == [] + s;
    }
  }

  lemma ShaReads(d: Digest, rest: seq<Byte>)
    ensures Sha(Quoted(Hex(d)) + rest) == Got(d, rest)
  {
    var s, tail := Quoted(Hex(d)) + rest, [QUOTE] + rest;
    assert s[1..] == Hex(d) + tail;
    HexReads(d, tail);
    assert tail[1..] == rest;
  }

  lemma QuotedSplit(x: seq<Byte>, rest: seq<Byte>)
    ensures [QUOTE] + (x + ([QUOTE] + rest)) == Quoted(x) + rest
  {
  }

  lemma ShaIsText(s: seq<Byte>)
    requires Sha(s).Got?
    ensures s == Quoted(Hex(Sha(s).value)) + Sha(s).rest
  {
    HexIsText(s[1..], 32);
    var d, tail := HexBytes(s[1..], 32).value, HexBytes(s[1..], 32).rest;
    assert tail == [QUOTE] + tail[1..];
    assert s == [QUOTE] + s[1..];
    QuotedSplit(Hex(d), tail[1..]);
  }

  // ------------------------------------------------------------------ capability lists

  /** Byte order, a proper prefix first. */
  predicate Less(a: seq<Byte>, b: seq<Byte>) {
    b != [] && (a == [] || a[0] < b[0] || (a[0] == b[0] && Less(a[1..], b[1..])))
  }

  const CAPABILITIES_MAX: nat := 16

  /** Identifiers in strictly ascending order, all after `previous`. */
  predicate Ascending(previous: Option<seq<Byte>>, list: seq<seq<Byte>>)
    decreases |list|
  {
    list != [] ==>
      && Identifier(list[0]) && (previous.Some? ==> Less(previous.value, list[0]))
      && Ascending(Some(list[0]), list[1..])
  }

  type Reader = seq<Byte> -> Read<seq<Byte>>

  /** The items and the closing bracket; the canonical text has no comma before it. */
  function ItemsText(list: seq<seq<Byte>>, trailing: bool, rest: seq<Byte>): seq<Byte> {
    if list == [] then [CLOSE] + rest
    else if |list| == 1 && !trailing then Quoted(list[0]) + ([CLOSE] + rest)
    else Quoted(list[0]) + ([COMMA] + ItemsText(list[1..], trailing, rest))
  }

  datatype ItemList = ItemList(list: seq<seq<Byte>>, trailing: bool)

  /** The device's reading of the items: the bracket is looked for before every item. */
  function Items(item: Reader, s: seq<Byte>, previous: Option<seq<Byte>>, budget: nat): Read<ItemList>
    decreases budget, |s|
  {
    if budget == 0 || s == [] then Fail
    else if s[0] == CLOSE then Got(ItemList([], previous.Some?), s[1..])
    else
      match item(s)
      case Fail => Fail
      case Got(id, more) =>
        if (previous.Some? && !Less(previous.value, id)) || more == [] then Fail
        else if more[0] == CLOSE then Got(ItemList([id], false), more[1..])
        else if more[0] != COMMA then Fail
        else
          match Items(item, more[1..], Some(id), budget - 1)
          case Fail => Fail
          case Got(l, rest) => Got(ItemList([id] + l.list, l.trailing), rest)
  }

  /** Which lists can be read with that many turns left, with or without a trailing comma. */
  predicate Fits(list: seq<seq<Byte>>, trailing: bool, previous: Option<seq<Byte>>, budget: nat) {
    if list == [] then budget > 0 && (trailing <==> previous.Some?)
    else |list| + (if trailing then 1 else 0) <= budget
  }

  /** A reader of quoted identifiers, and of nothing else. */
  ghost predicate ReadsIds(item: Reader) {
    && (forall id, rest :: Identifier(id) ==> item(Quoted(id) + rest) == Got(id, rest))
    && (forall s :: item(s).Got? ==> Identifier(item(s).value) && s == Quoted(item(s).value) + item(s).rest)
  }

  lemma QuotedIdReadsIds()
    ensures ReadsIds(QuotedId)
  {
    forall id, rest | Identifier(id) ensures QuotedId(Quoted(id) + rest) == Got(id, rest) {
      IdReads(id, rest);
    }
    forall s: seq<Byte> | QuotedId(s).Got?
      ensures Identifier(QuotedId(s).value) && s == Quoted(QuotedId(s).value) + QuotedId(s).rest
    {
      IdIsText(s);
    }
  }

  lemma {:induction false} ItemsRead(
    item: Reader, list: seq<seq<Byte>>, trailing: bool, previous: Option<seq<Byte>>, budget: nat, rest: seq<Byte>)
    requires ReadsIds(item) && Ascending(previous, list) && Fits(list, trailing, previous, budget)
    ensures Items(item, ItemsText(list, trailing, rest), previous, budget) == Got(ItemList(list, trailing), rest)
    decreases budget
  {
    var s := ItemsText(list, trailing, rest);
    if list == [] {
      assert s[1..] == rest;
      return;
    }
    assert s[0] == QUOTE;
    if |list| == 1 && !trailing {
      assert item(s) == Got(list[0], [CLOSE] + rest);
      assert ([CLOSE] + rest)[1..] == rest;
      assert list == [list[0]];
      return;
    }
    ItemsRead(item, list[1..], trailing, Some(list[0]), budget - 1, rest);
    ItemsReadOn(item, list, trailing, previous, budget, rest);
  }

  /** One item more in front of a list that is read. */
  lemma ItemsReadOn(
    item: Reader, list: seq<seq<Byte>>, trailing: bool, previous: Option<seq<Byte>>, budget: nat, rest: seq<Byte>)
    requires ReadsIds(item) && Ascending(previous, list) && budget > 0 && (|list| > 1 || (|list| == 1 && trailing))
    requires Items(item, ItemsText(list[1..], trailing, rest), Some(list[0]), budget - 1)
             == Got(ItemList(list[1..], trailing), rest)
    ensures Items(item, ItemsText(list, trailing, rest), previous, budget) == Got(ItemList(list, trailing), rest)
  {
    var s, tail := ItemsText(list, trailing, rest), ItemsText(list[1..], trailing, rest);
    assert s[0] == QUOTE;
    assert item(s) == Got(list[0], [COMMA] + tail);
    assert ([COMMA] + tail)[1..] == tail;
    assert list == [list[0]] + list[1..];
  }

  lemma {:induction false} ItemsAreText(item: Reader, s: seq<Byte>, previous: Option<seq<Byte>>, budget: nat)
    requires ReadsIds(item) && Items(item, s, previous, budget).Got?
    ensures var r := Items(item, s, previous, budget);
            && Ascending(previous, r.value.list) && Fits(r.value.list, r.value.trailing, previous, budget)
            && s == ItemsText(r.value.list, r.value.trailing, r.rest)
    decreases budget
  {
    assert s == [s[0]] + s[1..];
    if s[0] != CLOSE {
      var id, more := item(s).value, item(s).rest;
      assert s == Quoted(id) + more;
      assert more == [more[0]] + more[1..];
      if more[0] != CLOSE {
        ItemsAreText(item, more[1..], Some(id), budget - 1);
        var l := Items(item, more[1..], Some(id), budget - 1).value;
        assert ([id] + l.list)[1..] == l.list;
      }
    }
  }

  // ------------------------------------------------------------------ fields

  /** The fixed text before a value: punctuation, then a key. */
  datatype Mark = Mark(open: seq<Byte>, key: seq<Byte>)

  function Prefix(f: Mark): seq<Byte> {
    f.open + ([QUOTE] + f.key + [QUOTE, 0x3a])
  }

  /** The punctuation before a key ends a number. */
  predicate Opens(f: Mark) {
    f.open != [] && !IsDigit(f.open[0])
  }

  /** The marks of all values, in their order. */
  datatype Table = Table(
    schema: Mark, abi: Mark, eventQueue: Mark, timeout: Mark, budget: Mark, memory: Mark, stack: Mark, storage: Mark,
    format: Mark, digest: Mark, size: Mark, productId: Mark, productVersion: Mark, capabilities: Mark, profile: Mark,
    keyId: Mark)

  predicate Separated(t: Table) {
    && Opens(t.schema) && Opens(t.abi) && Opens(t.eventQueue) && Opens(t.timeout) && Opens(t.budget)
    && Opens(t.memory) && Opens(t.stack) && Opens(t.storage) && Opens(t.format) && Opens(t.digest)
    && Opens(t.size) && Opens(t.productId)
  }

  function NumberField(s: seq<Byte>, f: Mark, allowZero: bool): Read<U32> {
    match Literal(s, Prefix(f)) case Fail => Fail case Got(_, more) => Number(more, allowZero)
  }

  function NumberText(f: Mark, v: nat, rest: seq<Byte>): seq<Byte> {
    Prefix(f) + (Decimal(v) + rest)
  }

  function IdField(s: seq<Byte>, f: Mark): Read<seq<Byte>> {
    match Literal(s, Prefix(f)) case Fail => Fail case Got(_, more) => QuotedId(more)
  }

  function IdText(f: Mark, id: seq<Byte>, rest: seq<Byte>): seq<Byte> {
    Prefix(f) + (Quoted(id) + rest)
  }

  /** No digit follows a number. */
  predicate NoDigitFirst(s: seq<Byte>) {
    s != [] && !IsDigit(s[0])
  }

  lemma PrefixIsNoDigit(f: Mark, rest: seq<Byte>)
    requires Opens(f)
    ensures NoDigitFirst(Prefix(f) + rest)
  {
  }

  lemma NumberFieldReads(f: Mark, v: U32, allowZero: bool, rest: seq<Byte>)
    requires Opens(f) && (allowZero || v > 0) && NoDigitFirst(rest)
    ensures NumberField(NumberText(f, v, rest), f, allowZero) == Got(v, rest)
    ensures NoDigitFirst(NumberText(f, v, rest))
  {
    LiteralReads(Prefix(f), Decimal(v) + rest);
    NumberReads(v, allowZero, rest);
  }

  lemma NumberFieldIsText(s: seq<Byte>, f: Mark, allowZero: bool)
    requires NumberField(s, f, allowZero).Got?
    ensures var r := NumberField(s, f, allowZero);
            s == NumberText(f, r.value, r.rest) && (allowZero || r.value > 0)
  {
    LiteralIsText(s, Prefix(f));
    NumberIsText(Literal(s, Prefix(f)).rest, allowZero);
  }

  lemma IdFieldReads(f: Mark, id: seq<Byte>, rest: seq<Byte>)
    requires Identifier(id)
    ensures IdField(IdText(f, id, rest), f) == Got(id, rest)
    ensures Opens(f) ==> NoDigitFirst(IdText(f, id, rest))
  {
    LiteralReads(Prefix(f), Quoted(id) + rest);
    IdReads(id, rest);
  }

  lemma IdFieldIsText(s: seq<Byte>, f: Mark)
    requires IdField(s, f).Got?
    ensures var r := IdField(s, f);
            s == IdText(f, r.value, r.rest) && Identifier(r.value)
  {
    LiteralIsText(s, Prefix(f));
    IdIsText(Literal(s, Prefix(f)).rest);
  }

  // ------------------------------------------------------------------ the record

  datatype Limits = Limits(
    eventQueue: U32, hostCallTimeout: U32, instructionBudget: U32, memory: U32, stack: U32, storage: U32)

  datatype Record = Record(
    dataSchema: U32, guestAbi: U32, limits: Limits, wasmDigest: Digest, wasmSize: nat,
    productId: seq<Byte>, productVersion: seq<Byte>, capabilities: seq<seq<Byte>>, profile: seq<Byte>, keyId: seq<Byte>)

  predicate LimitsValid(l: Limits) {
    l.eventQueue > 0 && l.hostCallTimeout > 0 && l.instructionBudget > 0 && l.memory > 0 && l.stack > 0
  }

  /** What the host asks of a record; it sets no upper bound on the size of the payload. */
  predicate RecordValid(m: Record) {
    && m.dataSchema > 0 && m.guestAbi > 0 && LimitsValid(m.limits) && m.wasmSize >= 8
    && Identifier(m.productId) && Identifier(m.productVersion) && Identifier(m.profile) && Identifier(m.keyId)
    && Ascending(None, m.capabilities) && |m.capabilities| <= CAPABILITIES_MAX
  }

  const FORMAT_VERSION: U32 := 1

  datatype Triple = Triple(x: U32, y: U32, z: U32)

  function TripleText(a: Mark, b: Mark, c: Mark, v: Triple, rest: seq<Byte>): seq<Byte> {
    NumberText(a, v.x, NumberText(b, v.y, NumberText(c, v.z, rest)))
  }

  function ReadTriple(s: seq<Byte>, a: Mark, b: Mark, c: Mark, allowZero: bool): Read<Triple> {
    match NumberField(s, a, false)
    case Fail => Fail
    case Got(x, s1) =>
      match NumberField(s1, b, false)
      case Fail => Fail
      case Got(y, s2) =>
        match NumberField(s2, c, allowZero) case Fail => Fail case Got(z, rest) => Got(Triple(x, y, z), rest)
  }

  lemma TripleReads(a: Mark, b: Mark, c: Mark, v: Triple, allowZero: bool, rest: seq<Byte>)
    requires Opens(a) && Opens(b) && Opens(c) && v.x > 0 && v.y > 0 && (allowZero || v.z > 0) && NoDigitFirst(rest)
    ensures ReadTriple(TripleText(a, b, c, v, rest), a, b, c, allowZero) == Got(v, rest)
    ensures NoDigitFirst(TripleText(a, b, c, v, rest))
  {
    var s2 := NumberText(c, v.z, rest);
    var s1 := NumberText(b, v.y, s2);
    NumberFieldReads(c, v.z, allowZero, rest);
    NumberFieldReads(b, v.y, false, s2);
    NumberFieldReads(a, v.x, false, s1);
  }

  lemma TripleIsText(s: seq<Byte>, a: Mark, b: Mark, c: Mark, allowZero: bool)
    requires ReadTriple(s, a, b, c, allowZero).Got?
    ensures var r := ReadTriple(s, a, b, c, allowZero);
            s == TripleText(a, b, c, r.value, r.rest) && r.value.x > 0 && r.value.y > 0 && (allowZero || r.value.z > 0)
  {
    var s1 := NumberField(s, a, false).rest;
    var s2 := NumberField(s1, b, false).rest;
    NumberFieldIsText(s, a, false);
    NumberFieldIsText(s1, b, false);
    NumberFieldIsText(s2, c, allowZero);
  }

  lemma TripleTextAppends(a: Mark, b: Mark, c: Mark, v: Triple, s: seq<Byte>, e: seq<Byte>)
    ensures TripleText(a, b, c, v, s + e) == TripleText(a, b, c, v, s) + e
  {
    var s2 := NumberText(c, v.z, s);
    var s1 := NumberText(b, v.y, s2);
    AppendTwice(Prefix(c), Decimal(v.z), s, e);
    AppendTwice(Prefix(b), Decimal(v.y), s2, e);
    AppendTwice(Prefix(a), Decimal(v.x), s1, e);
  }

  function LimitsText(t: Table, l: Limits, rest: seq<Byte>): seq<Byte> {
    TripleText(t.eventQueue, t.timeout, t.budget, Triple(l.eventQueue, l.hostCallTimeout, l.instructionBudget),
    TripleText(t.memory, t.stack, t.storage, Triple(l.memory, l.stack, l.storage), rest))
  }

  function ReadLimits(t: Table, s: seq<Byte>): Read<Limits> {
    match ReadTriple(s, t.eventQueue, t.timeout, t.budget, false)
    case Fail => Fail
    case Got(v, more) =>
      match ReadTriple(more, t.memory, t.stack, t.storage, true)
      case Fail => Fail
      case Got(w, rest) => Got(Limits(v.x, v.y, v.z, w.x, w.y, w.z), rest)
  }

  lemma LimitsRead(t: Table, l: Limits, rest: seq<Byte>)
    requires Separated(t) && LimitsValid(l) && NoDigitFirst(rest)
    ensures ReadLimits(t, LimitsText(t, l, rest)) == Got(l, rest) && NoDigitFirst(LimitsText(t, l, rest))
  {
    var w := Triple(l.memory, l.stack, l.storage);
    TripleReads(t.memory, t.stack, t.storage, w, true, rest);
    TripleReads(t.eventQueue, t.timeout, t.budget, Triple(l.eventQueue, l.hostCallTimeout, l.instructionBudget), false,
                TripleText(t.memory, t.stack, t.storage, w, rest));
  }

  lemma LimitsAreText(t: Table, s: seq<Byte>)
    requires ReadLimits(t, s).Got?
    ensures s == LimitsText(t, ReadLimits(t, s).value, ReadLimits(t, s).rest) && LimitsValid(ReadLimits(t, s).value)
  {
    TripleIsText(s, t.eventQueue, t.timeout, t.budget, false);
    TripleIsText(ReadTriple(s, t.eventQueue, t.timeout, t.budget, false).rest, t.memory, t.stack, t.storage, true);
  }

  function DigestField(s: seq<Byte>, f: Mark): Read<Digest> {
    match Literal(s, Prefix(f)) case Fail => Fail case Got(_, more) => Sha(more)
  }

  function DigestText(f: Mark, d: Digest, rest: seq<Byte>): seq<Byte> {
    Prefix(f) + (Quoted(Hex(d)) + rest)
  }

  function ListPrefix(f: Mark): seq<Byte> {
    Prefix(f) + [0x5b]
  }

  function ListField(s: seq<Byte>, f: Mark): Read<ItemList> {
    match Literal(s, ListPrefix(f))
    case Fail => Fail
    case Got(_, more) => Items(QuotedId, more, None, CAPABILITIES_MAX)
  }

  function ListText(f: Mark, list: seq<seq<Byte>>, trailing: bool, rest: seq<Byte>): seq<Byte> {
    ListPrefix(f) + ItemsText(list, trailing, rest)
  }

  lemma DigestFieldReads(f: Mark, d: Digest, rest: seq<Byte>)
    requires Opens(f)
    ensures DigestField(DigestText(f, d, rest), f) == Got(d, rest)
    ensures NoDigitFirst(DigestText(f, d, rest))
  {
    LiteralReads(Prefix(f), Quoted(Hex(d)) + rest);
    ShaReads(d, rest);
    PrefixIsNoDigit(f, Quoted(Hex(d)) + rest);
  }

  lemma DigestFieldIsText(s: seq<Byte>, f: Mark)
    requires DigestField(s, f).Got?
    ensures s == DigestText(f, DigestField(s, f).value, DigestField(s, f).rest)
  {
    LiteralIsText(s, Prefix(f));
    ShaIsText(Literal(s, Prefix(f)).rest);
  }

  lemma ListFieldReads(f: Mark, list: seq<seq<Byte>>, trailing: bool, rest: seq<Byte>)
    requires Ascending(None, list) && Fits(list, trailing, None, CAPABILITIES_MAX)
    ensures ListField(ListText(f, list, trailing, rest), f) == Got(ItemList(list, trailing), rest)
  {
    LiteralReads(ListPrefix(f), ItemsText(list, trailing, rest));
    QuotedIdReadsIds();
    ItemsRead(QuotedId, list, trailing, None, CAPABILITIES_MAX, rest);
  }

  lemma ListFieldIsText(s: seq<Byte>, f: Mark)
    requires ListField(s, f).Got?
    ensures var r := ListField(s, f);
            && s == ListText(f, r.value.list, r.value.trailing, r.rest)
            && Ascending(None, r.value.list) && Fits(r.value.list, r.value.trailing, None, CAPABILITIES_MAX)
  {
    LiteralIsText(s, ListPrefix(f));
    QuotedIdReadsIds();
    ItemsAreText(QuotedId, Literal(s, ListPrefix(f)).rest, None, CAPABILITIES_MAX);
  }

  datatype Versions = Versions(dataSchema: U32, guestAbi: U32, limits: Limits)

  predicate VersionsValid(v: Versions) {
    v.dataSchema > 0 && v.guestAbi > 0 && LimitsValid(v.limits)
  }

  datatype Pair = Pair(x: U32, y: U32)

  function ReadPair(s: seq<Byte>, a: Mark, b: Mark): Read<Pair> {
    match NumberField(s, a, false)
    case Fail => Fail
    case Got(x, more) =>
      match NumberField(more, b, false) case Fail => Fail case Got(y, rest) => Got(Pair(x, y), rest)
  }

  lemma PairReads(a: Mark, b: Mark, v: Pair, rest: seq<Byte>)
    requires Opens(a) && Opens(b) && v.x > 0 && v.y > 0 && NoDigitFirst(rest)
    ensures ReadPair(NumberText(a, v.x, NumberText(b, v.y, rest)), a, b) == Got(v, rest)
  {
    NumberFieldReads(b, v.y, false, rest);
    NumberFieldReads(a, v.x, false, NumberText(b, v.y, rest));
  }

  lemma PairIsText(s: seq<Byte>, a: Mark, b: Mark)
    requires ReadPair(s, a, b).Got?
    ensures var r := ReadPair(s, a, b);
            s == NumberText(a, r.value.x, NumberText(b, r.value.y, r.rest)) && r.value.x > 0 && r.value.y > 0
  {
    NumberFieldIsText(s, a, false);
    NumberFieldIsText(NumberField(s, a, false).rest, b, false);
  }

  /** The only format version there is. */
  function ReadFormat(s: seq<Byte>, f: Mark): Read<()> {
    match NumberField(s, f, false)
    case Fail => Fail
    case Got(format, rest) => if format != FORMAT_VERSION then Fail else Got((), rest)
  }

  /** The limits, and then the format version. */
  function ReadBounds(t: Table, s: seq<Byte>): Read<Limits> {
    match ReadLimits(t, s)
    case Fail => Fail
    case Got(limits, more) =>
      match ReadFormat(more, t.format) case Fail => Fail case Got(_, rest) => Got(limits, rest)
  }

  lemma BoundsParts(t: Table, s: seq<Byte>)
    ensures var a := ReadLimits(t, s);
            ReadBounds(t, s) == if a.Fail? then Fail
                                else
                                  var b := ReadFormat(a.rest, t.format);
                                  if b.Fail? then Fail else Got(a.value, b.rest)
  {
  }

  lemma FormatReads(f: Mark, rest: seq<Byte>)
    requires Opens(f) && NoDigitFirst(rest)
    ensures ReadFormat(NumberText(f, FORMAT_VERSION, rest), f) == Got((), rest)
    ensures NoDigitFirst(NumberText(f, FORMAT_VERSION, rest))
  {
    NumberFieldReads(f, FORMAT_VERSION, false, rest);
  }

  lemma BoundsRead(t: Table, l: Limits, rest: seq<Byte>)
    requires Separated(t) && LimitsValid(l) && NoDigitFirst(rest)
    ensures ReadBounds(t, LimitsText(t, l, NumberText(t.format, FORMAT_VERSION, rest))) == Got(l, rest)
    ensures NoDigitFirst(LimitsText(t, l, NumberText(t.format, FORMAT_VERSION, rest)))
  {
    FormatReads(t.format, rest);
    LimitsRead(t, l, NumberText(t.format, FORMAT_VERSION, rest));
    BoundsParts(t, LimitsText(t, l, NumberText(t.format, FORMAT_VERSION, rest)));
  }

  lemma BoundsAreText(t: Table, s: seq<Byte>)
    requires ReadBounds(t, s).Got?
    ensures s == LimitsText(t, ReadBounds(t, s).value, NumberText(t.format, FORMAT_VERSION, ReadBounds(t, s).rest))
    ensures LimitsValid(ReadBounds(t, s).value)
  {
    LimitsAreText(t, s);
    NumberFieldIsText(ReadLimits(t, s).rest, t.format, false);
  }

  function VersionsText(t: Table, v: Versions, rest: seq<Byte>): seq<Byte> {
    NumberText(t.schema, v.dataSchema,
    NumberText(t.abi, v.guestAbi,
    LimitsText(t, v.limits,
    NumberText(t.format, FORMAT_VERSION, rest))))
  }

  function ReadVersions(t: Table, s: seq<Byte>): Read<Versions> {
    match ReadPair(s, t.schema, t.abi)
    case Fail => Fail
    case Got(p, more) =>
      match ReadBounds(t, more) case Fail => Fail case Got(limits, rest) => Got(Versions(p.x, p.y, limits), rest)
  }

  lemma VersionsRead(t: Table, v: Versions, rest: seq<Byte>)
    requires Separated(t) && VersionsValid(v) && NoDigitFirst(rest)
    ensures ReadVersions(t, VersionsText(t, v, rest)) == Got(v, rest)
  {
    BoundsRead(t, v.limits, rest);
    PairReads(t.schema, t.abi, Pair(v.dataSchema, v.guestAbi),
              LimitsText(t, v.limits, NumberText(t.format, FORMAT_VERSION, rest)));
  }

  lemma VersionsAreText(t: Table, s: seq<Byte>)
    requires ReadVersions(t, s).Got?
    ensures s == VersionsText(t, ReadVersions(t, s).value, ReadVersions(t, s).rest)
    ensures VersionsValid(ReadVersions(t, s).value)
  {
    PairIsText(s, t.schema, t.abi);
    BoundsAreText(t, ReadPair(s, t.schema, t.abi).rest);
  }

  datatype Payload = Payload(digest: Digest, size: nat)

  function PayloadText(t: Table, p: Payload, rest: seq<Byte>): seq<Byte> {
    DigestText(t.digest, p.digest, NumberText(t.size, p.size, rest))
  }

  function ReadPayload(t: Table, s: seq<Byte>): Read<Payload> {
    match DigestField(s, t.digest)
    case Fail => Fail
    case Got(digest, more) =>
      match NumberField(more, t.size, false)
      case Fail => Fail
      case Got(size, rest) => if size < 8 then Fail else Got(Payload(digest, size), rest)
  }

  lemma PayloadReads(t: Table, p: Payload, rest: seq<Byte>)
    requires Separated(t) && 8 <= p.size <= U32_MAX && NoDigitFirst(rest)
    ensures ReadPayload(t, PayloadText(t, p, rest)) == Got(p, rest) && NoDigitFirst(PayloadText(t, p, rest))
  {
    NumberFieldReads(t.size, p.size, false, rest);
    DigestFieldReads(t.digest, p.digest, NumberText(t.size, p.size, rest));
  }

  lemma PayloadIsText(t: Table, s: seq<Byte>)
    requires ReadPayload(t, s).Got?
    ensures s == PayloadText(t, ReadPayload(t, s).value, ReadPayload(t, s).rest)
    ensures 8 <= ReadPayload(t, s).value.size <= U32_MAX
  {
    DigestFieldIsText(s, t.digest);
    NumberFieldIsText(DigestField(s, t.digest).rest, t.size, false);
  }

  /** A size that does not fit in 32 bits is refused. */
  lemma LargePayloadFails(t: Table, p: Payload, rest: seq<Byte>)
    requires Separated(t) && p.size > U32_MAX && NoDigitFirst(rest)
    ensures ReadPayload(t, PayloadText(t, p, rest)).Fail? && NoDigitFirst(PayloadText(t, p, rest))
  {
    LargeNumberFails(p.size, false, rest);
    LiteralReads(Prefix(t.size), Decimal(p.size) + rest);
    PrefixIsNoDigit(t.size, Decimal(p.size) + rest);
    DigestFieldReads(t.digest, p.digest, NumberText(t.size, p.size, rest));
  }

  /** The first half of the record. */
  datatype Head = Head(versions: Versions, payload: Payload)

  predicate HeadValid(h: Head) {
    VersionsValid(h.versions) && h.payload.size >= 8
  }

  function HeadText(t: Table, h: Head, rest: seq<Byte>): seq<Byte> {
    VersionsText(t, h.versions, PayloadText(t, h.payload, rest))
  }

  function ReadHead(t: Table, s: seq<Byte>): Read<Head> {
    match ReadVersions(t, s)
    case Fail => Fail
    case Got(v, more) =>
      match ReadPayload(t, more) case Fail => Fail case Got(p, rest) => Got(Head(v, p), rest)
  }

  lemma HeadReads(t: Table, h: Head, rest: seq<Byte>)
    requires Separated(t) && HeadValid(h) && NoDigitFirst(rest)
    ensures ReadHead(t, HeadText(t, h, rest)) == if h.payload.size <= U32_MAX then Got(h, rest) else Fail
  {
    if h.payload.size <= U32_MAX {
      PayloadReads(t, h.payload, rest);
    } else {
      LargePayloadFails(t, h.payload, rest);
    }
    VersionsRead(t, h.versions, PayloadText(t, h.payload, rest));
  }

  lemma HeadIsText(t: Table, s: seq<Byte>)
    requires ReadHead(t, s).Got?
    ensures s == HeadText(t, ReadHead(t, s).value, ReadHead(t, s).rest)
    ensures HeadValid(ReadHead(t, s).value) && ReadHead(t, s).value.payload.size <= U32_MAX
  {
    VersionsAreText(t, s);
    PayloadIsText(t, ReadVersions(t, s).rest);
  }

  /** The second half: identity, capabilities, profile and signing key. */
  datatype Names = Names(
    productId: seq<Byte>, productVersion: seq<Byte>, capabilities: seq<seq<Byte>>, trailing: bool,
    profile: seq<Byte>, keyId: seq<Byte>)

  predicate NamesValid(n: Names) {
    && Identifier(n.productId) && Identifier(n.productVersion) && Identifier(n.profile) && Identifier(n.keyId)
    && Ascending(None, n.capabilities) && Fits(n.capabilities, n.trailing, None, CAPABILITIES_MAX)
  }

  const END: seq<Byte> := [0x7d]

  function NamesText(t: Table, n: Names, rest: seq<Byte>): seq<Byte> {
    IdText(t.productId, n.productId,
    IdText(t.productVersion, n.productVersion,
    ListText(t.capabilities, n.capabilities, n.trailing,
    IdText(t.profile, n.profile,
    IdText(t.keyId, n.keyId, END + rest)))))
  }

  datatype Identity = Identity(id: seq<Byte>, version: seq<Byte>)

  function ReadIdentity(t: Table, s: seq<Byte>): Read<Identity> {
    match IdField(s, t.productId)
    case Fail => Fail
    case Got(id, more) =>
      match IdField(more, t.productVersion) case Fail => Fail
        case Got(version, rest) => Got(Identity(id, version), rest)
  }

  datatype Request = Request(capabilities: ItemList, profile: seq<Byte>)

  function ReadRequest(t: Table, s: seq<Byte>): Read<Request> {
    match ListField(s, t.capabilities)
    case Fail => Fail
    case Got(l, more) =>
      match IdField(more, t.profile) case Fail => Fail case Got(profile, rest) => Got(Request(l, profile), rest)
  }

  function ReadSigner(t: Table, s: seq<Byte>): Read<seq<Byte>> {
    match IdField(s, t.keyId)
    case Fail => Fail
    case Got(key, more) =>
      match Literal(more, END) case Fail => Fail case Got(_, rest) => Got(key, rest)
  }

  function JoinNames(i: Identity, r: Request, key: seq<Byte>): Names {
    Names(i.id, i.version, r.capabilities.list, r.capabilities.trailing, r.profile, key)
  }

  function ReadNames(t: Table, s: seq<Byte>): Read<Names> {
    match ReadIdentity(t, s)
    case Fail => Fail
    case Got(i, s1) =>
      match ReadRequest(t, s1)
      case Fail => Fail
      case Got(r, s2) =>
        match ReadSigner(t, s2) case Fail => Fail case Got(key, rest) => Got(JoinNames(i, r, key), rest)
  }

  lemma IdentityReads(t: Table, i: Identity, rest: seq<Byte>)
    requires Separated(t) && Identifier(i.id) && Identifier(i.version)
    ensures ReadIdentity(t, IdText(t.productId, i.id, IdText(t.productVersion, i.version, rest))) == Got(i, rest)
    ensures NoDigitFirst(IdText(t.productId, i.id, IdText(t.productVersion, i.version, rest)))
  {
    IdFieldReads(t.productVersion, i.version, rest);
    IdFieldReads(t.productId, i.id, IdText(t.productVersion, i.version, rest));
  }

  lemma IdentityIsText(t: Table, s: seq<Byte>)
    requires ReadIdentity(t, s).Got?
    ensures var r := ReadIdentity(t, s);
            && Identifier(r.value.id) && Identifier(r.value.version)
            && s == IdText(t.productId, r.value.id, IdText(t.productVersion, r.value.version, r.rest))
  {
    IdFieldIsText(s, t.productId);
    IdFieldIsText(IdField(s, t.productId).rest, t.productVersion);
  }

  predicate RequestValid(r: Request) {
    && Ascending(None, r.capabilities.list)
    && Fits(r.capabilities.list, r.capabilities.trailing, None, CAPABILITIES_MAX)
    && Identifier(r.profile)
  }

  function RequestText(t: Table, r: Request, rest: seq<Byte>): seq<Byte> {
    ListText(t.capabilities, r.capabilities.list, r.capabilities.trailing, IdText(t.profile, r.profile, rest))
  }

  lemma RequestReads(t: Table, r: Request, rest: seq<Byte>)
    requires RequestValid(r)
    ensures ReadRequest(t, RequestText(t, r, rest)) == Got(r, rest)
  {
    IdFieldReads(t.profile, r.profile, rest);
    ListFieldReads(t.capabilities, r.capabilities.list, r.capabilities.trailing, IdText(t.profile, r.profile, rest));
  }

  lemma RequestIsText(t: Table, s: seq<Byte>)
    requires ReadRequest(t, s).Got?
    ensures RequestValid(ReadRequest(t, s).value)
    ensures s == RequestText(t, ReadRequest(t, s).value, ReadRequest(t, s).rest)
  {
    ListFieldIsText(s, t.capabilities);
    IdFieldIsText(ListField(s, t.capabilities).rest, t.profile);
  }

  lemma SignerReads(t: Table, key: seq<Byte>, rest: seq<Byte>)
    requires Identifier(key)
    ensures ReadSigner(t, IdText(t.keyId, key, END + rest)) == Got(key, rest)
  {
    LiteralReads(END, rest);
    IdFieldReads(t.keyId, key, END + rest);
  }

  lemma SignerIsText(t: Table, s: seq<Byte>)
    requires ReadSigner(t, s).Got?
    ensures Identifier(ReadSigner(t, s).value)
    ensures s == IdText(t.keyId, ReadSigner(t, s).value, END + ReadSigner(t, s).rest)
  {
    IdFieldIsText(s, t.keyId);
    LiteralIsText(IdField(s, t.keyId).rest, END);
  }

  lemma NamesRead(t: Table, n: Names, rest: seq<Byte>)
    requires Separated(t) && NamesValid(n)
    ensures ReadNames(t, NamesText(t, n, rest)) == Got(n, rest) && NoDigitFirst(NamesText(t, n, rest))
  {
    var i, r := Identity(n.productId, n.productVersion), Request(ItemList(n.capabilities, n.trailing), n.profile);
    var s2 := IdText(t.keyId, n.keyId, END + rest);
    SignerReads(t, n.keyId, rest);
    RequestReads(t, r, s2);
    IdentityReads(t, i, RequestText(t, r, s2));
    assert JoinNames(i, r, n.keyId) == n;
  }

  lemma NamesAreText(t: Table, s: seq<Byte>)
    requires ReadNames(t, s).Got?
    ensures s == NamesText(t, ReadNames(t, s).value, ReadNames(t, s).rest) && NamesValid(ReadNames(t, s).value)
  {
    var s1 := ReadIdentity(t, s).rest;
    var s2 := ReadRequest(t, s1).rest;
    IdentityIsText(t, s);
    RequestIsText(t, s1);
    SignerIsText(t, s2);
  }

  // ------------------------------------------------------------------ the whole text

  function HeadOf(m: Record): Head {
    Head(Versions(m.dataSchema, m.guestAbi, m.limits), Payload(m.wasmDigest, m.wasmSize))
  }

  function NamesOf(m: Record, trailing: bool): Names {
    Names(m.productId, m.productVersion, m.capabilities, trailing, m.profile, m.keyId)
  }

  /** The text of a record; `trailing` is the comma after the last capability that the device tolerates. */
  function Text(t: Table, m: Record, trailing: bool): seq<Byte> {
    HeadText(t, HeadOf(m), NamesText(t, NamesOf(m, trailing), []))
  }

  datatype Parsed = Parsed(record: Record, trailing: bool)

  function Join(h: Head, n: Names): Parsed {
    var (v, p) := (h.versions, h.payload);
    Parsed(Record(v.dataSchema, v.guestAbi, v.limits, p.digest, p.size, n.productId, n.productVersion, n.capabilities,
                  n.profile, n.keyId), n.trailing)
  }

  lemma JoinKeeps(h: Head, n: Names)
    ensures HeadOf(Join(h, n).record) == h && NamesOf(Join(h, n).record, n.trailing) == n
    ensures HeadValid(h) && NamesValid(n) ==> RecordValid(Join(h, n).record) && MayTrail(Join(h, n).record, n.trailing)
  {
  }

  function Parse(t: Table, s: seq<Byte>): Option<Parsed> {
    match ReadHead(t, s)
    case Fail => None
    case Got(h, more) =>
      match ReadNames(t, more)
      case Fail => None
      case Got(n, rest) => if rest != [] then None else Some(Join(h, n))
  }

  /** Where a comma may trail: after one to fifteen capabilities. */
  predicate MayTrail(m: Record, trailing: bool) {
    trailing ==> 0 < |m.capabilities| < CAPABILITIES_MAX
  }

  /** Reading the text of any valid record gives back every field, if the size of its payload fits in 32 bits, */
  lemma ParseInvertsText(t: Table, m: Record, trailing: bool)
    requires Separated(t) && RecordValid(m) && MayTrail(m, trailing)
    ensures Parse(t, Text(t, m, trailing)) == if m.wasmSize <= U32_MAX then Some(Parsed(m, trailing)) else None
  {
    NamesRead(t, NamesOf(m, trailing), []);
    HeadReads(t, HeadOf(m), NamesText(t, NamesOf(m, trailing), []));
  }

  lemma JoinedText(t: Table, h: Head, n: Names)
    ensures Text(t, Join(h, n).record, n.trailing) == HeadText(t, h, NamesText(t, n, []))
  {
    JoinKeeps(h, n);
  }

  lemma ParseIsJoin(t: Table, s: seq<Byte>) returns (h: Head, n: Names)
    requires Parse(t, s).Some?
    ensures HeadValid(h) && h.payload.size <= U32_MAX && NamesValid(n) && Parse(t, s) == Some(Join(h, n))
    ensures s == HeadText(t, h, NamesText(t, n, []))
  {
    h := ReadHead(t, s).value;
    n := ReadNames(t, ReadHead(t, s).rest).value;
    HeadIsText(t, s);
    NamesAreText(t, ReadHead(t, s).rest);
  }

  /** and whatever is read is such a text. */
  lemma TextInvertsParse(t: Table, s: seq<Byte>)
    requires Parse(t, s).Some?
    ensures var p := Parse(t, s).value;
            && RecordValid(p.record) && p.record.wasmSize <= U32_MAX && MayTrail(p.record, p.trailing)
            && s == Text(t, p.record, p.trailing)
  {
    var h, n := ParseIsJoin(t, s);
    JoinKeeps(h, n);
    JoinedText(t, h, n);
  }

  // ------------------------------------------------------------------ the format

  const FORMAT := Table(
    Mark(Ascii("{"), Ascii("data_schema_version")),
    Mark(Ascii(","), Ascii("guest_abi_version")),
    Mark(Ascii(",\"limits\":{"), Ascii("event_queue_limit")),
    Mark(Ascii(","), Ascii("host_call_timeout_ms")),
    Mark(Ascii(","), Ascii("instruction_budget")),
    Mark(Ascii(","), Ascii("memory_limit_bytes")),
    Mark(Ascii(","), Ascii("stack_limit_bytes")),
    Mark(Ascii(","), Ascii("storage_limit_bytes")),
    Mark(Ascii("},"), Ascii("package_format_version")),
    Mark(Ascii(",\"payload\":{\"path\":\"app.wasm\","), Ascii("sha256")),
    Mark(Ascii(","), Ascii("size_bytes")),
    Mark(Ascii("},"), Ascii("product_id")),
    Mark(Ascii(","), Ascii("product_version")),
    Mark(Ascii(","), Ascii("required_capabilities")),
    Mark(Ascii(","), Ascii("runtime_profile")),
    Mark(Ascii(",\"signature_algorithm\":\"rsa-3072-pss-sha256\","), Ascii("signing_key_id")))

  lemma FormatIsSeparated()
    ensures Separated(FORMAT)
  {
  }

  /** The one text the host writes and accepts. */
  function Encode(t: Table, m: Record): seq<Byte> {
    Text(t, m, false)
  }

  /** The host's rule: the bytes are the canonical text of a valid record, and not too many. */
  predicate HostReads(t: Table, s: seq<Byte>, m: Record) {
    RecordValid(m) && s == Encode(t, m) && |s| <= MANIFEST_MAX
  }

  /**
   The host reads a record whose payload has a 32-bit size exactly where the device reads it
   without a trailing comma from no more than 4096 bytes; larger sizes the device refuses.
   */
  lemma HostReadsWithoutTrailing(t: Table, s: seq<Byte>, m: Record)
    requires Separated(t)
    ensures HostReads(t, s, m) && m.wasmSize <= U32_MAX <==>
            Parse(t, s) == Some(Parsed(m, false)) && |s| <= MANIFEST_MAX
    ensures HostReads(t, s, m) && m.wasmSize > U32_MAX ==> Parse(t, s).None?
  {
    if HostReads(t, s, m) {
      ParseInvertsText(t, m, false);
    }
    if Parse(t, s).Some? {
      TextInvertsParse(t, s);
    }
  }

  // ------------------------------------------------------------------ the tolerated comma

  lemma AppendTwice(p: seq<Byte>, d: seq<Byte>, a: seq<Byte>, b: seq<Byte>)
    ensures p + (d + (a + b)) == p + (d + a) + b
  {
    assert d + (a + b) == d + a + b;
    assert p + (d + a + b) == p + (d + a) + b;
  }

  lemma LimitsTextAppends(t: Table, l: Limits, a: seq<Byte>, b: seq<Byte>)
    ensures LimitsText(t, l, a + b) == LimitsText(t, l, a) + b
  {
    var w := Triple(l.memory, l.stack, l.storage);
    TripleTextAppends(t.memory, t.stack, t.storage, w, a, b);
    TripleTextAppends(t.eventQueue, t.timeout, t.budget, Triple(l.eventQueue, l.hostCallTimeout, l.instructionBudget),
                      TripleText(t.memory, t.stack, t.storage, w, a), b);
  }

  lemma HeadTextAppends(t: Table, h: Head, a: seq<Byte>, b: seq<Byte>)
    ensures HeadText(t, h, a + b) == HeadText(t, h, a) + b
  {
    var v, p := h.versions, h.payload;
    var a5 := NumberText(t.size, p.size, a);
    var a4 := DigestText(t.digest, p.digest, a5);
    var a3 := NumberText(t.format, FORMAT_VERSION, a4);
    var a2 := LimitsText(t, v.limits, a3);
    var a1 := NumberText(t.abi, v.guestAbi, a2);
    AppendTwice(Prefix(t.size), Decimal(p.size), a, b);
    AppendTwice(Prefix(t.digest), Quoted(Hex(p.digest)), a5, b);
    AppendTwice(Prefix(t.format), Decimal(FORMAT_VERSION), a4, b);
    LimitsTextAppends(t, v.limits, a3, b);
    AppendTwice(Prefix(t.abi), Decimal(v.guestAbi), a2, b);
    AppendTwice(Prefix(t.schema), Decimal(v.dataSchema), a1, b);
  }

  /** The two texts of the items differ in one comma. */
  lemma {:induction false} ItemsComma(list: seq<seq<Byte>>, rest: seq<Byte>) returns (a: seq<Byte>, b: seq<Byte>)
    requires list != []
    ensures ItemsText(list, true, rest) == a + ([COMMA] + b) && ItemsText(list, false, rest) == a + b
    decreases |list|
  {
    if |list| == 1 {
      a, b := Quoted(list[0]), [CLOSE] + rest;
    } else {
      var c;
      c, b := ItemsComma(list[1..], rest);
      a := Quoted(list[0]) + ([COMMA] + c);
      AppendTwice(Quoted(list[0]), [COMMA], c, [COMMA] + b);
      AppendTwice(Quoted(list[0]), [COMMA], c, b);
    }
  }

  /** What the device reads and the host does not is the canonical text with one comma more. */
  lemma TrailingIsOneComma(t: Table, m: Record) returns (a: seq<Byte>, b: seq<Byte>)
    requires m.capabilities != []
    ensures Text(t, m, true) == a + ([COMMA] + b) && Text(t, m, false) == a + b
  {
    var rest := IdText(t.profile, m.profile,
                IdText(t.keyId, m.keyId, END + []));
    var c;
    c, b := ItemsComma(m.capabilities, rest);
    var a0 := IdText(t.productId, m.productId,
              IdText(t.productVersion, m.productVersion, ListPrefix(t.capabilities) + c));
    a := HeadText(t, HeadOf(m), a0);
    TextAround(t, m, true, c, [COMMA] + b);
    TextAround(t, m, false, c, b);
  }

  /** What follows the first items of the list follows the whole text up to them. */
  lemma TextAround(t: Table, m: Record, trailing: bool, c: seq<Byte>, d: seq<Byte>)
    requires ItemsText(m.capabilities, trailing,
                       IdText(t.profile, m.profile,
                       IdText(t.keyId, m.keyId, END + []))) == c + d
    ensures Text(t, m, trailing) ==
            HeadText(t, HeadOf(m),
            IdText(t.productId, m.productId,
            IdText(t.productVersion, m.productVersion, ListPrefix(t.capabilities) + c))) + d
  {
    NamesAround(t, m, trailing, c, d);
    HeadTextAppends(t, HeadOf(m), IdText(t.productId, m.productId,
                    IdText(t.productVersion, m.productVersion, ListPrefix(t.capabilities) + c)), d);
  }

  lemma NamesAround(t: Table, m: Record, trailing: bool, c: seq<Byte>, d: seq<Byte>)
    requires ItemsText(m.capabilities, trailing,
                       IdText(t.profile, m.profile,
                       IdText(t.keyId, m.keyId, END + []))) == c + d
    ensures NamesText(t, NamesOf(m, trailing), []) ==
            IdText(t.productId, m.productId,
            IdText(t.productVersion, m.productVersion, ListPrefix(t.capabilities) + c)) + d
  {
    var p := ListPrefix(t.capabilities);
    assert p + (c + d) == (p + c) + d;
    AppendTwice(Prefix(t.productVersion), Quoted(m.productVersion), p + c, d);
    AppendTwice(Prefix(t.productId), Quoted(m.productId), IdText(t.productVersion, m.productVersion, p + c), d);
  }

  /** What the device reads with a trailing comma the host does not read at all. */
  lemma TrailingIsNotHosted(t: Table, s: seq<Byte>, m: Record)
    requires Separated(t) && Parse(t, s).Some? && Parse(t, s).value.trailing
    ensures !HostReads(t, s, m)
  {
    if HostReads(t, s, m) {
      ParseInvertsText(t, m, false);
    }
  }

  /** With one to fifteen capabilities there is always a second text the device takes, and no host does. */
  lemma TrailingCommaIsRead(t: Table, m: Record, m': Record)
    requires Separated(t) && RecordValid(m) && m.wasmSize <= U32_MAX && MayTrail(m, true)
    ensures Parse(t, Text(t, m, true)) == Some(Parsed(m, true)) && !HostReads(t, Text(t, m, true), m')
  {
    ParseInvertsText(t, m, true);
    TrailingIsNotHosted(t, Text(t, m, true), m');
  }

  const A: seq<Byte> := [0x61]
  const EXAMPLE := Record(1, 1, Limits(1, 1, 1, 65536, 1, 0), ZERO_DIGEST, 8, A, A, [A], A, A)

  lemma ExampleIsValid()
    ensures RecordValid(EXAMPLE)
  {
    assert Identifier(A);
    assert Ascending(None, [A]) by {
      assert [A][1..] == [];
    }
  }

  lemma ExampleOfTrailingComma(m: Record)
    ensures Parse(FORMAT, Text(FORMAT, EXAMPLE, true)) == Some(Parsed(EXAMPLE, true))
    ensures !HostReads(FORMAT, Text(FORMAT, EXAMPLE, true), m)
  {
    ExampleIsValid();
    FormatIsSeparated();
    TrailingCommaIsRead(FORMAT, EXAMPLE, m);
  }

  // ------------------------------------------------------------------ where host and device differ

  lemma {:induction false} DecimalLength(v: nat, n: nat)
    requires n > 0 && v < Power10(n)
    ensures |Decimal(v)| <= n
    decreases n
  {
    if v >= 10 {
      assert n > 1;
      DecimalLength(v / 10, n - 1);
    }
  }

  lemma NumberLength(f: Mark, v: nat, rest: seq<Byte>)
    requires v <= 0x1_0000_0000
    ensures |NumberText(f, v, rest)| <= |Prefix(f)| + 10 + |rest|
  {
    assert Power10(10) == 10_000_000_000;
    DecimalLength(v, 10);
  }

  lemma {:induction false} HexIsTwiceAsLong(d: seq<Byte>)
    ensures |Hex(d)| == 2 * |d|
  {
    if d != [] {
      HexIsTwiceAsLong(d[1..]);
    }
  }

  function TripleMarks(a: Mark, b: Mark, c: Mark): nat {
    |Prefix(a)| + |Prefix(b)| + |Prefix(c)|
  }

  lemma TripleLength(a: Mark, b: Mark, c: Mark, v: Triple, rest: seq<Byte>)
    ensures |TripleText(a, b, c, v, rest)| <= TripleMarks(a, b, c) + 30 + |rest|
  {
    NumberLength(c, v.z, rest);
    NumberLength(b, v.y, NumberText(c, v.z, rest));
    NumberLength(a, v.x, NumberText(b, v.y, NumberText(c, v.z, rest)));
  }

  function HeadMarks(t: Table): nat {
    TripleMarks(t.schema, t.abi, t.format) + TripleMarks(t.eventQueue, t.timeout, t.budget)
    + TripleMarks(t.memory, t.stack, t.storage) + |Prefix(t.digest)| + |Prefix(t.size)|
  }

  lemma HeadLength(t: Table, h: Head, rest: seq<Byte>)
    requires h.payload.size <= 0x1_0000_0000
    ensures |HeadText(t, h, rest)| <= HeadMarks(t) + 166 + |rest|
  {
    var v, p := h.versions, h.payload;
    var w := Triple(v.limits.memory, v.limits.stack, v.limits.storage);
    var a5 := NumberText(t.size, p.size, rest);
    NumberLength(t.size, p.size, rest);
    HexIsTwiceAsLong(p.digest);
    var a4 := DigestText(t.digest, p.digest, a5);
    var a3 := NumberText(t.format, FORMAT_VERSION, a4);
    NumberLength(t.format, FORMAT_VERSION, a4);
    var a2 := TripleText(t.memory, t.stack, t.storage, w, a3);
    TripleLength(t.memory, t.stack, t.storage, w, a3);
    var u := Triple(v.limits.eventQueue, v.limits.hostCallTimeout, v.limits.instructionBudget);
    TripleLength(t.eventQueue, t.timeout, t.budget, u, a2);
    var a1 := LimitsText(t, v.limits, a3);
    NumberLength(t.abi, v.guestAbi, a1);
    NumberLength(t.schema, v.dataSchema, NumberText(t.abi, v.guestAbi, a1));
  }

  function NamesMarks(t: Table): nat {
    TripleMarks(t.productId, t.productVersion, t.capabilities) + |Prefix(t.profile)| + |Prefix(t.keyId)|
  }

  lemma ExampleNamesLength(t: Table)
    ensures |NamesText(t, NamesOf(EXAMPLE, false), [])| <= NamesMarks(t) + 40
  {
  }

  lemma FormatLength()
    ensures HeadMarks(FORMAT) <= 1000 && NamesMarks(FORMAT) <= 1000
  {
  }

  /** A manifest the host reads and the device refuses: its payload has 2^32 bytes. */
  lemma ExampleOfLargePayload()
    ensures var m := EXAMPLE.(wasmSize := 0x1_0000_0000);
            HostReads(FORMAT, Encode(FORMAT, m), m) && Parse(FORMAT, Encode(FORMAT, m)).None?
  {
    var m := EXAMPLE.(wasmSize := 0x1_0000_0000);
    ExampleIsValid();
    FormatIsSeparated();
    FormatLength();
    ExampleNamesLength(FORMAT);
    assert NamesOf(m, false) == NamesOf(EXAMPLE, false);
    HeadLength(FORMAT, HeadOf(m), NamesText(FORMAT, NamesOf(m, false), []));
    HostReadsWithoutTrailing(FORMAT, Encode(FORMAT, m), m);
  }

  /** A manifest the device's parser reads and the host refuses: one of more than 4096 bytes. */
  lemma LongManifestsDiffer(t: Table, m: Record, m': Record)
    requires Separated(t) && RecordValid(m) && m.wasmSize <= U32_MAX && |m.productId| >= MANIFEST_MAX
    ensures Parse(t, Encode(t, m)) == Some(Parsed(m, false)) && !HostReads(t, Encode(t, m), m')
  {
    ParseInvertsText(t, m, false);
    var names := NamesText(t, NamesOf(m, false), []);
    assert |names| > MANIFEST_MAX;
    HeadTextAppends(t, HeadOf(m), [], names);
    assert [] + names == names;
  }

  lemma ExampleOfLongManifest(m: Record)
    ensures var long := EXAMPLE.(productId := Fill(MANIFEST_MAX, 0x61));
            Parse(FORMAT, Encode(FORMAT, long)) == Some(Parsed(long, false))
              && !HostReads(FORMAT, Encode(FORMAT, long), m)
  {
    var long := EXAMPLE.(productId := Fill(MANIFEST_MAX, 0x61));
    ExampleIsValid();
    assert Identifier(long.productId);
    FormatIsSeparated();
    LongManifestsDiffer(FORMAT, long, m);
  }
}
