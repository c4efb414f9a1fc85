/** Octets as integers, and the bytewise copy loops the drivers build on. */
module Bytes {

  type byte = x: int | 0 <= x < 256

  /** The buffer `d` with `x` written at `to`. */
  function Splice(d: seq<byte>, to: nat, x: seq<byte>): (r: seq<byte>)
    requires to + |x| <= |d|
    ensures |r| == |d|
    ensures forall k :: 0 <= k < |d| ==> r[k] == if to <= k < to + |x| then x[k - to] else d[k]
  {
    d[..to] + x + d[to + |x|..]
  }

  /** A move of `n` bytes, between two buffers or within one where the ranges may overlap: the copy
      runs upwards when the destination is below the source and downwards otherwise. */
  method FarMemmove(dst: array<byte>, to: nat, src: array<byte>, from: nat, n: nat)
    requires to + n <= dst.Length && from + n <= src.Length
    modifies dst
    ensures dst[..] == Splice(old(dst[..]), to, old(src[from..from + n]))
  {
    ghost var d, x := dst[..], src[from..from + n];
    if dst == src && to < from {
      for i := 0 to n
        invariant forall k :: 0 <= k < dst.Length ==> dst[k] == if to <= k < to + i then x[k - to] else d[k]
      {
        assert d[from + i] == x[i];
        dst[to + i] := src[from + i];
      }
    } else {
      for i := 0 to n
        invariant forall k :: 0 <= k < dst.Length ==> dst[k] == if to + n - i <= k < to + n then x[k - to] else d[k]
        invariant dst != src ==> src[from..from + n] == x
      {
        assert src[from + n - 1 - i] == x[n - 1 - i] by {
          if dst == src { assert d[from + n - 1 - i] == x[n - 1 - i]; }
          else { assert src[from..from + n][n - 1 - i] == x[n - 1 - i]; }
        }
        dst[to + n - 1 - i] := src[from + n - 1 - i];
      }
    }
  }

  method FarBzero(dst: array<byte>, to: nat, n: nat)
    requires to + n <= dst.Length
    modifies dst
    ensures dst[..] == Splice(old(dst[..]), to, seq(n, i => 0))
  {
    ghost var d := dst[..];
    for i := 0 to n
      invariant forall k :: 0 <= k < dst.Length ==> dst[k] == if to <= k < to + i then 0 else d[k]
    {
      dst[to + i] := 0;
    }
  }

  /** Bytewise comparison: the sign of the first difference. */
  function MemCmp(a: seq<byte>, b: seq<byte>): int
    requires |a| == |b|
  {
    if a == [] then 0
    else
      var n := |a| - 1;
      var c := MemCmp(a[..n], b[..n]);
      if c != 0 then c else a[n] as int - b[n] as int
  }

  /** The bytes read as one big number. */
  function Value(a: seq<byte>): nat {
    if a == [] then 0 else 0x100 * Value(a[..|a| - 1]) + a[|a| - 1] as int
  }

  /** Comparing bytewise is comparing as numbers. */
  lemma {:induction false} MemCmpIsNumeric(a: seq<byte>, b: seq<byte>)
    requires |a| == |b|
    ensures MemCmp(a, b) < 0 <==> Value(a) < Value(b)
    ensures MemCmp(a, b) == 0 <==> a == b
    ensures Value(a) == Value(b) <==> a == b
  {
    if a == [] {
    } else {
      var n := |a| - 1;
      MemCmpIsNumeric(a[..n], b[..n]);
      assert a == a[..n] + [a[n]] && b == b[..n] + [b[n]];
    }
  }
}
