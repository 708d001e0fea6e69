/** Assembling a 256-bit integer from four 64-bit limbs (uint256_from_c in
    gateway/src/lib/serializable_event.rs). */
module Uint256 {
  const LIMB := 0x1_0000_0000_0000_0000

  type Limb = x: int | 0 <= x < 0x1_0000_0000_0000_0000
  type Byte = x: int | 0 <= x < 256

  function Pow256(n: nat): nat { if n == 0 then 1 else 256 * Pow256(n - 1) }

  /** Little-endian digits of a number, and back. */
  function ToBytes(v: nat, n: nat): (bytes: seq<Byte>)
    ensures |bytes| == n
  {
    if n == 0 then [] else [v % 256] + ToBytes(v / 256, n - 1)
  }

  function FromBytes(bytes: seq<Byte>): nat {
    if bytes == [] then 0 else bytes[0] + 256 * FromBytes(bytes[1..])
  }

  lemma {:induction false} BytesRoundTrip(v: nat, n: nat)
    requires v < Pow256(n)
    ensures FromBytes(ToBytes(v, n)) == v
  {
    if n == 0 {
    } else {
      BytesRoundTrip(v / 256, n - 1);
      assert ToBytes(v, n)[1..] == ToBytes(v / 256, n - 1);
    }
  }

  lemma {:induction false} FromBytesConcat(a: seq<Byte>, b: seq<Byte>)
    ensures FromBytes(a + b) == FromBytes(a) + Pow256(|a|) * FromBytes(b)
  {
    if a == [] {
      assert a + b == b;
    } else {
      FromBytesConcat(a[1..], b);
      assert (a + b)[1..] == a[1..] + b;
      MulAssoc(Pow256(|a| - 1), FromBytes(b));
    }
  }

  lemma MulAssoc(p: nat, x: nat)
    ensures 256 * (p * x) == (256 * p) * x
  {
  }

  lemma LimbIsEightBytes()
    ensures Pow256(8) == LIMB
  {
    assert Pow256(2) == 0x1_0000 by { assert Pow256(1) == 256; }
    assert Pow256(4) == 0x1_0000_0000 by { assert Pow256(3) == 0x100_0000; }
    assert Pow256(6) == 0x1_0000_0000_0000 by { assert Pow256(5) == 0x100_0000_0000; }
    assert Pow256(7) == 0x100_0000_0000_0000;
  }

  /** The number the limbs stand for: the sum of limb i times 2 to the 64 i. */
  function Value(limbs: seq<Limb>): nat
    requires |limbs| == 4
  {
    limbs[0] + LIMB * limbs[1] + LIMB * LIMB * limbs[2] + LIMB * LIMB * LIMB * limbs[3]
  }

  function LimbsOf(v: nat): (limbs: seq<Limb>) {
    [v % LIMB, v / LIMB % LIMB, v / LIMB / LIMB % LIMB, v / LIMB / LIMB / LIMB % LIMB]
  }

  method Uint256FromC(limbs: seq<Limb>) returns (v: nat)
    requires |limbs| == 4
    ensures v == Value(limbs)
  {
    var bytes := new Byte[32](i => 0);
    for i := 0 to 4
      invariant forall k :: 0 <= k < i ==> bytes[k * 8..k * 8 + 8] == ToBytes(limbs[k], 8)
    {
      var le := ToBytes(limbs[i], 8);
      label L:
      forall b | 0 <= b < 8 {
        bytes[i * 8 + b] := le[b];
      }
      assert bytes[i * 8..i * 8 + 8] == le;
      forall k | 0 <= k < i ensures bytes[k * 8..k * 8 + 8] == ToBytes(limbs[k], 8) {
        assert bytes[k * 8..k * 8 + 8] == old@L(bytes[k * 8..k * 8 + 8]);
      }
    }
    v := FromBytes(bytes[..]);
    assert forall k :: 0 <= k < 4 ==> bytes[..][k * 8..k * 8 + 8] == bytes[k * 8..k * 8 + 8];
    BufferIsValue(limbs, bytes[..]);
  }

  lemma BufferIsValue(limbs: seq<Limb>, bytes: seq<Byte>)
    requires |limbs| == 4 && |bytes| == 32
    requires forall k :: 0 <= k < 4 ==> bytes[k * 8..k * 8 + 8] == ToBytes(limbs[k], 8)
    ensures FromBytes(bytes) == Value(limbs)
  {
    var b0, b1, b2, b3 := bytes[0..8], bytes[8..16], bytes[16..24], bytes[24..32];
    assert b0 == bytes[0 * 8..0 * 8 + 8] && b1 == bytes[1 * 8..1 * 8 + 8];
    assert b2 == bytes[2 * 8..2 * 8 + 8] && b3 == bytes[3 * 8..3 * 8 + 8];
    assert bytes == b0 + (b1 + (b2 + b3));
    FourLimbs(limbs, b0, b1, b2, b3);
  }

  lemma FourLimbs(limbs: seq<Limb>, b0: seq<Byte>, b1: seq<Byte>, b2: seq<Byte>, b3: seq<Byte>)
    requires |limbs| == 4
    requires b0 == ToBytes(limbs[0], 8) && b1 == ToBytes(limbs[1], 8)
    requires b2 == ToBytes(limbs[2], 8) && b3 == ToBytes(limbs[3], 8)
    ensures FromBytes(b0 + (b1 + (b2 + b3))) == Value(limbs)
  {
    LimbIsEightBytes();
    BytesRoundTrip(limbs[0], 8);
    BytesRoundTrip(limbs[1], 8);
    BytesRoundTrip(limbs[2], 8);
    BytesRoundTrip(limbs[3], 8);
    var l0, l1, l2, l3 := limbs[0], limbs[1], limbs[2], limbs[3];
    FromBytesConcat(b0, b1 + (b2 + b3));
    FromBytesConcat(b1, b2 + b3);
    FromBytesConcat(b2, b3);
    assert FromBytes(b2 + b3) == l2 + LIMB * l3;
    assert FromBytes(b1 + (b2 + b3)) == l1 + LIMB * (l2 + LIMB * l3);
    Horner(l0, l1, l2, l3);
  }

  lemma Horner(l0: nat, l1: nat, l2: nat, l3: nat)
    ensures l0 + LIMB * (l1 + LIMB * (l2 + LIMB * l3))
         == l0 + LIMB * l1 + LIMB * LIMB * l2 + LIMB * LIMB * LIMB * l3
  {
  }

  /** Four limbs and a number below 2 to the 256 determine each other. */
  lemma LimbsRoundTrip(limbs: seq<Limb>)
    requires |limbs| == 4
    ensures Value(limbs) < LIMB * LIMB * LIMB * LIMB
    ensures LimbsOf(Value(limbs)) == limbs
  {
    Peel(limbs[0], limbs[1] + LIMB * limbs[2] + LIMB * LIMB * limbs[3]);
    Peel(limbs[1], limbs[2] + LIMB * limbs[3]);
    Peel(limbs[2], limbs[3]);
  }

  lemma Peel(low: Limb, high: nat)
    ensures (low + LIMB * high) % LIMB == low && (low + LIMB * high) / LIMB == high
  {
  }

  lemma ValueRoundTrip(v: nat)
    requires v < LIMB * LIMB * LIMB * LIMB
    ensures Value(LimbsOf(v)) == v
  {
  }
}
