/** Bytes, padding, sums and the 0xff mask shared by the packet modules. */
module Bytes {

  type byte = x: int | 0 <= x < 256

  datatype Option<+T> = None | Some(value: T)

  const NUL: byte := 0

  /** "/PF", with which a packet's header starts. */
  const PF: seq<byte> := [47, 80, 70]

  lemma SubSlice<T>(s: seq<T>, a: nat, b: nat, c: nat, d: nat)
    requires a <= b <= |s| && c <= d <= b - a
    ensures s[a..b][c..d] == s[a + c..a + d]
  {
    var l, r := s[a..b][c..d], s[a + c..a + d];
    assert |l| == |r|;
    assert forall i :: 0 <= i < |l| ==> l[i] == s[a..b][c + i] == s[a + c + i] == r[i];
  }

  function RemoveAt<T>(s: seq<T>, i: nat): seq<T>
    requires i < |s|
  {
    s[..i] + s[i + 1..]
  }

  lemma RemoveAtIndex<T>(s: seq<T>, i: nat)
    requires i < |s|
    ensures |RemoveAt(s, i)| == |s| - 1
    ensures forall k :: 0 <= k < |s| - 1 ==> RemoveAt(s, i)[k] == s[if k < i then k else k + 1]
  {
  }

  function Fill(b: byte, n: nat): (r: seq<byte>)
    ensures |r| == n
    ensures forall i :: 0 <= i < n ==> r[i] == b
  {
    seq(n, _ => b)
  }

  function Zeros(n: nat): (r: seq<byte>)
    ensures |r| == n
    ensures forall i :: 0 <= i < n ==> r[i] == NUL
  {
    Fill(NUL, n)
  }

  /** `b ^ 0xff` on one byte. */
  function Mask(b: byte): byte {
    255 - b
  }

  function MaskAll(s: seq<byte>): (r: seq<byte>)
    ensures |r| == |s|
    ensures forall i :: 0 <= i < |s| ==> r[i] == Mask(s[i])
  {
    seq(|s|, i requires 0 <= i < |s| => Mask(s[i]))
  }

  lemma MaskTwice(s: seq<byte>)
    ensures MaskAll(MaskAll(s)) == s
  {
  }

  /** The sum of all bytes, as the EMWIN checksum defines it. */
  function Sum(s: seq<byte>): nat {
    if s == [] then 0 else Sum(s[..|s| - 1]) + s[|s| - 1]
  }

  lemma {:induction false} SumBound(s: seq<byte>)
    ensures Sum(s) <= 255 * |s|
  {
    if s != [] { SumBound(s[..|s| - 1]); }
  }

  lemma {:induction false} SumZeroFill(s: seq<byte>, n: nat)
    ensures Sum(s + Zeros(n)) == Sum(s)
  {
    if n == 0 {
      assert s + Zeros(0) == s;
    } else {
      assert (s + Zeros(n))[..|s| + n - 1] == s + Zeros(n - 1);
      SumZeroFill(s, n - 1);
    }
  }

  /** The part of a buffer before its first NUL: what C string functions see. */
  function CString(s: seq<byte>): (r: seq<byte>)
    ensures r <= s
    ensures NUL !in r
    ensures |r| < |s| ==> s[|r|] == NUL
  {
    if s == [] || s[0] == NUL then [] else [s[0]] + CString(s[1..])
  }

  lemma CStringPrefix(s: seq<byte>, n: nat)
    requires n <= |s|
    requires NUL !in s[..n]
    ensures n <= |CString(s)| && CString(s)[..n] == s[..n]
  {
    assert forall i :: 0 <= i < n ==> s[i] == s[..n][i];
  }

  function Concat(parts: seq<seq<byte>>): seq<byte> {
    if parts == [] then [] else Concat(parts[..|parts| - 1]) + parts[|parts| - 1]
  }

  lemma {:induction false} ConcatAppend(xs: seq<seq<byte>>, ys: seq<seq<byte>>)
    ensures Concat(xs + ys) == Concat(xs) + Concat(ys)
  {
    if ys == [] {
      assert xs + ys == xs;
    } else {
      ConcatAppend(xs, ys[..|ys| - 1]);
      assert (xs + ys)[..|xs + ys| - 1] == xs + ys[..|ys| - 1];
    }
  }

  lemma ConcatHead(xs: seq<seq<byte>>)
    requires xs != []
    ensures Concat(xs) == xs[0] + Concat(xs[1..])
  {
    var one := [xs[0]];
    assert xs == one + xs[1..];
    ConcatAppend(one, xs[1..]);
    assert one[..0] == [] && Concat(one) == xs[0];
  }

  /** memcpy: `s` replaces the bytes of the buffer from `at` on. */
  method CopyInto(a: array<byte>, at: nat, s: seq<byte>)
    requires at + |s| <= a.Length
    modifies a
    ensures a[..] == old(a[..at]) + s + old(a[at + |s|..])
  {
    for i := 0 to |s|
      invariant forall j :: at <= j < at + i ==> a[j] == s[j - at]
      invariant forall j :: 0 <= j < a.Length && !(at <= j < at + i) ==> a[j] == old(a[j])
    {
      a[at + i] := s[i];
    }
  }

  /** memset to NUL. */
  method ClearAll(a: array<byte>, n: nat)
    requires n <= a.Length
    modifies a
    ensures a[..] == Zeros(n) + old(a[n..])
  {
    for i := 0 to n
      invariant forall j :: 0 <= j < i ==> a[j] == NUL
      invariant forall j :: i <= j < a.Length ==> a[j] == old(a[j])
    {
      a[i] := NUL;
    }
  }
}
