/**
 The reflected CRC-32 that guards the slot record, and what it can detect.
 */
module Crc {
  import opened Octets
  import opened Bits

  const POLYNOMIAL: U32 := 0xedb8_8320

  /** One shift of the register. */
  function Step(crc: U32): U32 {
    var r := Xor(crc / 2, if crc % 2 == 1 then POLYNOMIAL else 0);
    StepBound(crc);
    r
  }

  lemma {:induction false} StepBound(crc: U32)
    ensures Xor(crc / 2, if crc % 2 == 1 then POLYNOMIAL else 0) <= U32_MAX
  {
    Pow2Of32();
    XorBound(crc / 2, if crc % 2 == 1 then POLYNOMIAL else 0, 32);
  }

  lemma {:induction false} Pow2Of32()
    ensures Pow2(8) == 0x100 && Pow2(31) == 0x8000_0000 && Pow2(32) == 0x1_0000_0000
  {
    assert Pow2(4) == 16;
    assert Pow2(8) == 0x100;
    assert Pow2(12) == 0x1000;
    assert Pow2(16) == 0x1_0000;
    assert Pow2(20) == 0x10_0000;
    assert Pow2(24) == 0x100_0000;
    assert Pow2(28) == 0x1000_0000;
    assert Pow2(31) == 0x8000_0000;
  }

  function Steps(n: nat, crc: U32): U32 {
    if n == 0 then crc else Steps(n - 1, Step(crc))
  }

  function XorByte(crc: U32, b: Byte): U32 {
    XorU32(crc, b);
    Xor(crc, b)
  }

  lemma {:induction false} XorU32(a: U32, b: U32)
    ensures Xor(a, b) <= U32_MAX
  {
    Pow2Of32();
    XorBound(a, b, 32);
  }

  function Absorb(crc: U32, b: Byte): U32 {
    Steps(8, XorByte(crc, b))
  }

  /** The register after all the bytes of s. */
  function Register(crc: U32, s: seq<Byte>): U32
    decreases |s|
  {
    if s == [] then crc else Register(Absorb(crc, s[0]), s[1..])
  }

  function Crc32(s: seq<Byte>): U32 {
    U32_MAX - Register(U32_MAX, s)
  }

  lemma {:induction false} RegisterAppends(crc: U32, s: seq<Byte>, t: seq<Byte>)
    ensures Register(crc, s + t) == Register(Register(crc, s), t)
    decreases |s|
  {
    if s == [] {
      assert s + t == t;
    } else {
      assert (s + t)[1..] == s[1..] + t;
      RegisterAppends(Absorb(crc, s[0]), s[1..], t);
    }
  }

  method BlobCrc32(bytes: seq<Byte>) returns (crc: U32)
    ensures crc == Crc32(bytes)
  {
    crc := U32_MAX;
    for index := 0 to |bytes|
      invariant Register(crc, bytes[index..]) == Register(U32_MAX, bytes)
    {
      var rest := bytes[index..];
      assert rest[0] == bytes[index] && rest[1..] == bytes[index + 1..];
      ghost var start := crc;
      crc := XorByte(crc, bytes[index]);
      for bit := 0 to 8
        invariant Steps(8 - bit, crc) == Absorb(start, bytes[index])
      {
        crc := Step(crc);
      }
    }
    crc := U32_MAX - crc;
  }

  // ------------------------------------------------------------------ error detection

  /** The polynomial's top bit tells the two shift cases apart. */
  lemma {:induction false} StepInjective(a: U32, b: U32)
    requires Step(a) == Step(b)
    ensures a == b
  {
    Pow2Of32();
    if a % 2 == 1 {
      XorTopBit(a / 2, POLYNOMIAL, 31);
    }
    if b % 2 == 1 {
      XorTopBit(b / 2, POLYNOMIAL, 31);
    }
    XorZero(a / 2);
    XorZero(b / 2);
    assert a % 2 == b % 2;
    if a % 2 == 1 {
      XorCommutes(a / 2, POLYNOMIAL);
      XorCommutes(b / 2, POLYNOMIAL);
      XorCancels(POLYNOMIAL, a / 2, b / 2);
    }
  }

  lemma {:induction false} StepsInjective(n: nat, a: U32, b: U32)
    requires Steps(n, a) == Steps(n, b)
    ensures a == b
  {
    if n != 0 {
      StepsInjective(n - 1, Step(a), Step(b));
      StepInjective(a, b);
    }
  }

  lemma {:induction false} RegisterInjective(a: U32, b: U32, s: seq<Byte>)
    requires Register(a, s) == Register(b, s)
    ensures a == b
    decreases |s|
  {
    if s != [] {
      RegisterInjective(Absorb(a, s[0]), Absorb(b, s[0]), s[1..]);
      StepsInjective(8, XorByte(a, s[0]), XorByte(b, s[0]));
      XorCommutes(a, s[0]);
      XorCommutes(b, s[0]);
      XorCancels(s[0], a, b);
    }
  }

  /** A bit above the lowest one moves down one place. */
  lemma {:induction false} StepShifts(x: U32, y: nat)
    requires 2 * y <= U32_MAX
    ensures Xor(x, 2 * y) <= U32_MAX
    ensures Step(Xor(x, 2 * y)) == Xor(Step(x), y)
  {
    XorU32(x, 2 * y);
    XorParts(x, 2 * y);
    var mask := if x % 2 == 1 then POLYNOMIAL else 0;
    XorAssociates(x / 2, y, mask);
    XorCommutes(y, mask);
    XorAssociates(x / 2, mask, y);
  }

  lemma {:induction false} StepsShift(n: nat, x: U32, y: nat)
    requires Pow2(n) * y <= U32_MAX
    ensures Xor(x, Pow2(n) * y) <= U32_MAX
    ensures Steps(n, Xor(x, Pow2(n) * y)) == Xor(Steps(n, x), y)
  {
    XorU32(x, Pow2(n) * y);
    if n != 0 {
      var half := Pow2(n - 1) * y;
      assert Pow2(n) * y == 2 * half;
      StepShifts(x, half);
      StepsShift(n - 1, Step(x), y);
    }
  }

  /** Absorbing a byte is eight steps taken off a word that starts with it. */
  lemma {:induction false} AbsorbIsSteps(crc: U32, b: Byte, rest: nat, n: nat)
    requires 0x100 * rest + b <= U32_MAX && n >= 8
    ensures Xor(crc, b + 0x100 * rest) <= U32_MAX && Xor(Absorb(crc, b), rest) <= U32_MAX
    ensures Steps(n, Xor(crc, b + 0x100 * rest)) == Steps(n - 8, Xor(Absorb(crc, b), rest))
  {
    XorU32(crc, b + 0x100 * rest);
    XorU32(Absorb(crc, b), rest);
    EightSteps(crc, b, rest);
    StepsSplit(8, n - 8, Xor(crc, b + 0x100 * rest));
  }

  lemma {:induction false} EightSteps(crc: U32, b: Byte, rest: nat)
    requires 0x100 * rest + b <= U32_MAX
    ensures Xor(crc, b + 0x100 * rest) <= U32_MAX
    ensures Steps(8, Xor(crc, b + 0x100 * rest)) == Xor(Absorb(crc, b), rest)
  {
    Pow2Of32();
    XorU32(crc, b + 0x100 * rest);
    XorDisjoint(b, 8, rest);
    XorAssociates(crc, b, 0x100 * rest);
    StepsShift(8, XorByte(crc, b), rest);
  }

  lemma {:induction false} StepsSplit(m: nat, n: nat, x: U32)
    ensures Steps(m + n, x) == Steps(n, Steps(m, x))
  {
    if m != 0 {
      StepsSplit(m - 1, n, Step(x));
    }
  }

  lemma LoadedInSteps(w: seq<Byte>)
    requires |w| == 4
    ensures var b1: int, b2: int, b3: int := w[1], w[2], w[3];
            Load32(w) == w[0] + 0x100 * (b1 + 0x100 * (b2 + 0x100 * b3))
  {
    var b1: int, b2: int, b3: int := w[1], w[2], w[3];
    assert Load32(w) == w[0] + 0x100 * b1 + 0x1_0000 * b2 + 0x100_0000 * b3;
  }

  /** Four bytes enter the register as one 32-bit word. */
  lemma {:induction false} WordIsSteps(crc: U32, w: seq<Byte>)
    requires |w| == 4
    ensures Xor(crc, Load32(w)) <= U32_MAX
    ensures Register(crc, w) == Steps(32, Xor(crc, Load32(w)))
  {
    XorU32(crc, Load32(w));
    var w3: nat := w[3];
    var w2: nat := w[2] + 0x100 * w3;
    var w1: nat := w[1] + 0x100 * w2;
    LoadedInSteps(w);
    var c1 := Absorb(crc, w[0]);
    var c2 := Absorb(c1, w[1]);
    var c3 := Absorb(c2, w[2]);
    AbsorbIsSteps(crc, w[0], w1, 32);
    AbsorbIsSteps(c1, w[1], w2, 24);
    AbsorbIsSteps(c2, w[2], w3, 16);
    assert Steps(32, Xor(crc, Load32(w))) == Steps(8, Xor(c3, w3));
    RegisterOfFour(crc, w);
  }

  lemma {:induction false} RegisterOfFour(crc: U32, w: seq<Byte>)
    requires |w| == 4
    ensures Register(crc, w) == Absorb(Absorb(Absorb(Absorb(crc, w[0]), w[1]), w[2]), w[3])
  {
    var c1 := Absorb(crc, w[0]);
    var c2 := Absorb(c1, w[1]);
    var c3 := Absorb(c2, w[2]);
    assert w[1..][1..] == w[2..] && w[2..][1..] == w[3..] && w[3..][1..] == [];
    assert Register(crc, w) == Register(c1, w[1..]);
    assert Register(c1, w[1..]) == Register(c2, w[2..]);
    assert Register(c2, w[2..]) == Register(c3, w[3..]);
    assert Register(c3, w[3..]) == Register(Absorb(c3, w[3]), []);
  }

  /** All strings that end with their own CRC leave the same register value. */
  lemma {:induction false} SealedRegistersAgree(p: seq<Byte>, c: seq<Byte>, q: seq<Byte>, d: seq<Byte>)
    requires |c| == |d| == 4 && Load32(c) == Crc32(p) && Load32(d) == Crc32(q)
    ensures Register(U32_MAX, p + c) == Register(U32_MAX, q + d)
  {
    var r, s := Register(U32_MAX, p), Register(U32_MAX, q);
    RegisterAppends(U32_MAX, p, c);
    RegisterAppends(U32_MAX, q, d);
    WordIsSteps(r, c);
    WordIsSteps(s, d);
    ComplementsAgree(r, s);
  }

  lemma {:induction false} ComplementsAgree(a: U32, b: U32)
    ensures Xor(a, U32_MAX - a) == Xor(b, U32_MAX - b)
  {
    Pow2Of32();
    XorOnes(a, 32);
    XorOnes(b, 32);
  }

  lemma {:induction false} XorOnes(a: nat, k: nat)
    requires a < Pow2(k)
    ensures Xor(a, Pow2(k) - 1 - a) == Pow2(k) - 1
  {
    if k != 0 {
      assert (Pow2(k) - 1 - a) / 2 == Pow2(k - 1) - 1 - a / 2;
      XorOnes(a / 2, k - 1);
      XorParts(a, Pow2(k) - 1 - a);
    }
  }

  /** Two strings that differ only inside four consecutive bytes have different registers. */
  lemma {:induction false} BurstChangesRegister(crc: U32, head: seq<Byte>, v: seq<Byte>, w: seq<Byte>, tail: seq<Byte>)
    requires |v| == |w| == 4 && v != w
    ensures Register(crc, head + v + tail) != Register(crc, head + w + tail)
  {
    RegisterAppends(crc, head + v, tail);
    RegisterAppends(crc, head + w, tail);
    RegisterAppends(crc, head, v);
    RegisterAppends(crc, head, w);
    var c := Register(crc, head);
    WordIsSteps(c, v);
    WordIsSteps(c, w);
    if Register(crc, head + v + tail) == Register(crc, head + w + tail) {
      RegisterInjective(Register(c, v), Register(c, w), tail);
      StepsInjective(32, Xor(c, Load32(v)), Xor(c, Load32(w)));
      XorCancels(c, Load32(v), Load32(w));
      Le32InvertsLoad32(v);
      Le32InvertsLoad32(w);
    }
  }
}
