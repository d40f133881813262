/**
 Bytes, 32-bit words and the little-endian layout the device formats use.
 */
module Octets {

  type Byte = x: int | 0 <= x < 0x100
  type U32 = x: int | 0 <= x < 0x1_0000_0000

  const U32_MAX: U32 := 0xffff_ffff

  type Digest = s: seq<Byte> | |s| == 32 witness Fill(32, 0)
  type Id = s: seq<Byte> | |s| == 16 witness Fill(16, 0)

  /** SHA-256 is left uninterpreted: every result holds for every such function. */
  type Hash = seq<Byte> -> Digest

  datatype Option<+T> = None | Some(value: T)

  /** The outcome of reading something from the front of a byte string. */
  datatype Read<+T> = Fail | Got(value: T, rest: seq<Byte>)

  const ZERO_DIGEST: Digest := Fill(32, 0)
  const ZERO_ID: Id := Fill(16, 0)

  /** The longest manifest of a package. */
  const MANIFEST_MAX: nat := 4096

  predicate AllZero(s: seq<Byte>) {
    forall i | 0 <= i < |s| :: s[i] == 0
  }

  function Fill(n: nat, b: Byte): (r: seq<Byte>)
    ensures |r| == n && forall i | 0 <= i < n :: r[i] == b
  {
    seq(n, _ => b)
  }

  lemma SliceOfSlice(s: seq<Byte>, a: nat, b: nat, i: nat, j: nat)
    requires a <= b <= |s| && i <= j <= b - a
    ensures s[a..b][i..j] == s[a + i..a + j]
  {
    forall k | 0 <= k < j - i ensures s[a..b][i..j][k] == s[a + i..a + j][k] {
      assert s[a..b][i + k] == s[a + (i + k)];
    }
  }

  lemma SliceOfRest(s: seq<Byte>, a: nat, i: nat, j: nat)
    requires a <= |s| && i <= j <= |s| - a
    ensures s[a..][i..j] == s[a + i..a + j]
  {
    assert s[a..] == s[a..|s|];
    SliceOfSlice(s, a, |s|, i, j);
  }

  lemma RestOfRest(s: seq<Byte>, a: nat, i: nat)
    requires a <= |s| && i <= |s| - a
    ensures s[a..][i..] == s[a + i..]
  {
    SliceOfRest(s, a, i, |s| - a);
    assert s[a..][i..] == s[a..][i..|s| - a];
    assert s[a + i..] == s[a + i..a + (|s| - a)];
  }

  lemma ZeroJoin(s: seq<Byte>, a: nat, b: nat, c: nat)
    requires a <= b <= c <= |s|
    ensures AllZero(s[a..c]) <==> AllZero(s[a..b]) && AllZero(s[b..c])
  {
    assert s[a..c] == s[a..b] + s[b..c];
    if AllZero(s[a..c]) {
      forall i | 0 <= i < c - b ensures s[b..c][i] == 0 {
        assert s[a..c][b - a + i] == s[b..c][i];
      }
      forall i | 0 <= i < b - a ensures s[a..b][i] == 0 {
        assert s[a..c][i] == s[a..b][i];
      }
    }
  }

  /** Four bytes, least significant first. */
  function Le32(v: U32): (r: seq<Byte>)
    ensures |r| == 4
  {
    [v % 0x100, v / 0x100 % 0x100, v / 0x1_0000 % 0x100, v / 0x100_0000]
  }

  function Load32(s: seq<Byte>): U32
    requires |s| == 4
  {
    var b1: int, b2: int, b3: int := s[1], s[2], s[3];
    s[0] + 0x100 * b1 + 0x1_0000 * b2 + 0x100_0000 * b3
  }

  lemma {:induction false} Load32InvertsLe32(v: U32)
    ensures Load32(Le32(v)) == v
  {
    var v1 := v / 0x100;
    var v2 := v1 / 0x100;
    assert v / 0x1_0000 == v2 && v / 0x100_0000 == v2 / 0x100;
    assert v == v % 0x100 + 0x100 * v1 && v1 == v1 % 0x100 + 0x100 * v2;
  }

  lemma {:induction false} Le32InvertsLoad32(s: seq<Byte>)
    requires |s| == 4
    ensures Le32(Load32(s)) == s
  {
    var v := Load32(s);
    var b1: int, b2: int, b3: int := s[1], s[2], s[3];
    assert v / 0x100 == b1 + 0x100 * b2 + 0x1_0000 * b3;
    assert v / 0x1_0000 == b2 + 0x100 * b3;
    assert v / 0x100_0000 == b3;
  }
}
