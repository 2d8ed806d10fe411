/** Machine-level vocabulary shared by the whole model: bytes, the unsigned widths
    that travel in frames, an optional value, and the two C copy routines. */
module Bytes {
  type Byte = b: int | 0 <= b < 0x100
  type U16 = n: int | 0 <= n < 0x1_0000
  type U32 = n: int | 0 <= n < 0x1_0000_0000

  datatype Option<+T> = None | Some(value: T)

  const TMP_BUFFER_SIZE := 2048  // the buffer in shared memory

  /** Reads the real-time clock: some 32-bit epoch. */
  method GetEpoch() returns (ts: U32)
  {
    var t: int := *;
    return if 0 <= t < 0x1_0000_0000 then t else 0;
  }

  function Min(a: int, b: int): int { if a < b then a else b }

  /** Little-endian bytes of a 16-bit value. */
  function Encode16(n: U16): seq<Byte> {
    [n % 0x100, n / 0x100]
  }

  /** Little-endian bytes of a 32-bit value. */
  function Encode32(n: U32): seq<Byte> {
    [n % 0x100, n / 0x100 % 0x100, n / 0x1_0000 % 0x100, n / 0x100_0000]
  }

  function Decode16(b0: Byte, b1: Byte): U16 {
    b0 + 0x100 * b1
  }

  function Decode32(b0: Byte, b1: Byte, b2: Byte, b3: Byte): U32 {
    b0 + 0x100 * b1 + 0x1_0000 * b2 + 0x100_0000 * b3
  }

  lemma Decode32Inverts(n: U32)
    ensures var b := Encode32(n); Decode32(b[0], b[1], b[2], b[3]) == n
  {
    assert n / 0x100 / 0x100 == n / 0x1_0000 && n / 0x1_0000 / 0x100 == n / 0x100_0000;
  }

  lemma Encode32Inverts(b0: Byte, b1: Byte, b2: Byte, b3: Byte)
    ensures Encode32(Decode32(b0, b1, b2, b3)) == [b0, b1, b2, b3]
  {
    var n := Decode32(b0, b1, b2, b3);
    assert n / 0x100 == b1 + 0x100 * b2 + 0x1_0000 * b3;
    assert n / 0x1_0000 == b2 + 0x100 * b3;
  }

  lemma Associate<T>(a: seq<T>, b: seq<T>, c: seq<T>)
    ensures a + b + c == a + (b + c)
  {
  }

  lemma TakeOneMore<T>(s: seq<T>, i: nat)
    requires i < |s|
    ensures s[..i + 1] == s[..i] + [s[i]]
  {
  }

  /** C's memcpy as a forward byte loop. The regions may touch only where a forward
      copy is still exact: equal, or the source not below the destination. */
  method MemCpy(dst: array<Byte>, d: nat, src: array<Byte>, s: nat, n: nat)
    requires d + n <= dst.Length && s + n <= src.Length
    requires dst == src ==> d <= s || s + n <= d
    modifies dst
    ensures dst[d..d + n] == old(src[s..s + n])
    ensures forall k :: 0 <= k < d || d + n <= k < dst.Length ==> dst[k] == old(dst[k])
  {
    for i := 0 to n
      invariant forall k :: d <= k < d + i ==> dst[k] == old(src[s + k - d])
      invariant forall k :: s + i <= k < s + n ==> src[k] == old(src[k])
      invariant forall k :: 0 <= k < d || d + n <= k < dst.Length ==> dst[k] == old(dst[k])
    {
      dst[d + i] := src[s + i];
    }
  }

  /** C's memmove towards higher addresses inside one buffer: a backward byte loop. */
  method MemMoveUp(a: array<Byte>, d: nat, s: nat, n: nat)
    requires s <= d && d + n <= a.Length
    modifies a
    ensures a[d..d + n] == old(a[s..s + n])
    ensures forall k :: 0 <= k < d || d + n <= k < a.Length ==> a[k] == old(a[k])
  {
    var i := n;
    while i > 0
      invariant 0 <= i <= n
      invariant forall k :: d + i <= k < d + n ==> a[k] == old(a[s + k - d])
      invariant forall k :: 0 <= k < d + i || d + n <= k < a.Length ==> a[k] == old(a[k])
    {
      i := i - 1;
      a[d + i] := a[s + i];
    }
  }
}
