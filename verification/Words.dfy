/** Shared basics: bytes, optional values, and 64-bit masks. */
module Words {

  type Byte = b: int | 0 <= b < 256

  datatype Option<+T> = None | Some(value: T)

  /** A 64-bit mask as its bits, the least significant first. */
  type Mask = bits: seq<bool> | |bits| == 64 witness seq(64, _ => false)

  function EmptyMask(): (m: Mask)
    ensures forall k :: 0 <= k < 64 ==> !m[k]
  {
    seq(64, _ => false)
  }

  /** Shift right by one and bring the bit shifted out back in as bit 63. */
  function RotateRight(m: Mask): Mask {
    m[1..] + [m[0]]
  }

  function RotateTimes(m: Mask, n: nat): Mask {
    if n == 0 then m else RotateRight(RotateTimes(m, n - 1))
  }

  lemma {:induction false} RotateTimesBit(m: Mask, n: nat, k: nat)
    requires k < 64
    ensures RotateTimes(m, n)[k] == m[(k + n) % 64]
  {
    if n > 0 {
      RotateTimesBit(m, n - 1, (k + 1) % 64);
      assert RotateTimes(m, n)[k] == RotateTimes(m, n - 1)[(k + 1) % 64];
      assert ((k + 1) % 64 + (n - 1)) % 64 == (k + n) % 64;
    }
  }

  /** Full circles, sixty-four rotations each, restore the mask. */
  lemma FullCircles(m: Mask, n: nat)
    requires n % 64 == 0
    ensures RotateTimes(m, n) == m
  {
    hide RotateTimes;
    forall k | 0 <= k < 64
      ensures RotateTimes(m, n)[k] == m[k]
    {
      RotateTimesBit(m, n, k);
      assert (k + n) % 64 == k;
    }
  }

  /** The number of set bits met in n steps around the mask, from bit 0. */
  function CountCyclic(m: Mask, n: nat): (c: nat)
    ensures c <= n
  {
    if n == 0 then 0 else CountCyclic(m, n - 1) + if m[(n - 1) % 64] then 1 else 0
  }
}
