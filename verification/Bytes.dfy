/** Octets and fixed-width little-endian integers shared by the image and packet models. */
module Bytes {

  type byte = x: int | 0 <= x < 256

  const U32_LIMIT: int := 0x1_0000_0000
  const U64_LIMIT: int := 0x1_0000_0000_0000_0000

  function Min(a: nat, b: nat): nat {
    if a <= b then a else b
  }

  function Zeros(n: nat): (s: seq<byte>)
    ensures |s| == n && forall i :: 0 <= i < n ==> s[i] == 0
  {
    seq(n, _ => 0)
  }

  /** `u32::to_le_bytes`. */
  function ToLittleEndian(n: nat): (b: seq<byte>)
    requires n < U32_LIMIT
    ensures |b| == 4 && FromLittleEndian(b) == n
  {
    var n1 := n / 0x100;
    var n2 := n1 / 0x100;
    [n % 0x100, n1 % 0x100, n2 % 0x100, n2 / 0x100]
  }

  /** `u32::from_le_bytes`. */
  function FromLittleEndian(b: seq<byte>): nat
    requires |b| == 4
  {
    b[0] as int + 0x100 * (b[1] as int + 0x100 * (b[2] as int + 0x100 * (b[3] as int)))
  }

  /** A write at `at` as a file performs it: bytes past the old end first become zero. */
  function Overwrite(s: seq<byte>, at: nat, data: seq<byte>): (r: seq<byte>)
    ensures |r| == if at + |data| <= |s| then |s| else at + |data|
    ensures at <= |s| ==> r[..at] == s[..at] && r[at..at + |data|] == data
    ensures at + |data| <= |s| ==> r[at + |data|..] == s[at + |data|..]
  {
    var head := if at <= |s| then s[..at] else s + Zeros(at - |s|);
    head + data + if at + |data| <= |s| then s[at + |data|..] else []
  }

  /** One byte of an overwrite that stays inside. */
  lemma OverwriteAt(s: seq<byte>, at: nat, data: seq<byte>, i: nat)
    requires at + |data| <= |s| && i < |s|
    ensures |Overwrite(s, at, data)| == |s|
    ensures Overwrite(s, at, data)[i] == if at <= i < at + |data| then data[i - at] else s[i]
  {
  }

  /** Two adjacent overwrites are one. */
  lemma OverwriteAppend(s: seq<byte>, at: nat, a: seq<byte>, b: seq<byte>)
    requires at + |a| + |b| <= |s|
    ensures Overwrite(Overwrite(s, at, a), at + |a|, b) == Overwrite(s, at, a + b)
  {
    var first := Overwrite(s, at, a);
    forall i | 0 <= i < |s| ensures Overwrite(first, at + |a|, b)[i] == Overwrite(s, at, a + b)[i] {
      OverwriteAt(s, at, a, i);
      OverwriteAt(first, at + |a|, b, i);
      OverwriteAt(s, at, a + b, i);
    }
  }

  /** Continuing an overwrite where it stopped. */
  lemma NextWrite(s: seq<byte>, at: nat, data: seq<byte>, done: nat, count: nat)
    requires done + count <= |data| && at + |data| <= |s|
    ensures Overwrite(Overwrite(s, at, data[..done]), at + done, data[done..][..count]) == Overwrite(s, at, data[..done + count])
  {
    NextSlice(data, done, count);
    OverwriteAppend(s, at, data[..done], data[done..][..count]);
  }

  lemma PrefixOfPrefix<T>(s: seq<T>, n: nat, k: nat)
    requires k <= n <= |s|
    ensures s[..n][..k] == s[..k]
  {
  }

  lemma NextSlice<T>(s: seq<T>, at: nat, count: nat)
    requires at + count <= |s|
    ensures s[..at] + s[at..][..count] == s[..at + count]
  {
  }

  lemma SliceOfSlice<T>(s: seq<T>, from: nat, to: nat, i: nat, j: nat)
    requires from <= to <= |s| && i <= j <= to - from
    ensures s[from..to][i..j] == s[from + i..from + j]
  {
    forall k | 0 <= k < j - i ensures s[from..to][i..j][k] == s[from + i..from + j][k] {
      assert s[from..to][i + k] == s[from + i + k];
    }
  }

  /** `copy_from_slice` into a part of a buffer. */
  method CopyInto(buffer: array<byte>, at: nat, data: seq<byte>)
    requires at + |data| <= buffer.Length
    modifies buffer
    ensures forall i :: 0 <= i < buffer.Length ==>
      buffer[i] == if at <= i < at + |data| then data[i - at] else old(buffer[i])
  {
    for k := 0 to |data|
      invariant forall i :: 0 <= i < buffer.Length ==>
        buffer[i] == if at <= i < at + k then data[i - at] else old(buffer[i])
    {
      buffer[at + k] := data[k];
    }
  }
}
