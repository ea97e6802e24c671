/** Byte strings, little-endian numbers and the slice writes a page is built from. */
module Bytes {

  type Byte = x: int | 0 <= x < 256

  type Data = seq<Byte>

  const U16_LIMIT: int := 0x1_0000
  const U32_LIMIT: int := 0x1_0000_0000
  const U64_LIMIT: int := 0x1_0000_0000_0000_0000

  function U16(b: Data, o: nat): (v: nat)
    requires o + 2 <= |b|
    ensures v < U16_LIMIT
  {
    var lo: int, hi: int := b[o], b[o + 1];
    lo + 256 * hi
  }

  function U32(b: Data, o: nat): (v: nat)
    requires o + 4 <= |b|
    ensures v < U32_LIMIT
  {
    U16(b, o) + U16_LIMIT * U16(b, o + 2)
  }

  function U64(b: Data, o: nat): (v: nat)
    requires o + 8 <= |b|
    ensures v < U64_LIMIT
  {
    U32(b, o) + U32_LIMIT * U32(b, o + 4)
  }

  function LE16(v: nat): (d: Data)
    requires v < U16_LIMIT
    ensures |d| == 2 && U16(d, 0) == v
  {
    [v % 256, v / 256]
  }

  function LE32(v: nat): (d: Data)
    requires v < U32_LIMIT
    ensures |d| == 4 && U32(d, 0) == v
  {
    LE16(v % U16_LIMIT) + LE16(v / U16_LIMIT)
  }

  function LE64(v: nat): (d: Data)
    requires v < U64_LIMIT
    ensures |d| == 8 && U64(d, 0) == v
  {
    LE32(v % U32_LIMIT) + LE32(v / U32_LIMIT)
  }

  // ---------------------------------------------------------------- numbers of any width

  function Pow256(n: nat): nat { if n == 0 then 1 else 256 * Pow256(n - 1) }

  /** Base-256 digit `k` of a number. */
  function Digit(v: nat, k: nat): Byte { if k == 0 then v % 256 else Digit(v / 256, k - 1) }

  /** The number in `n` bytes, least significant first. */
  function LE(v: nat, n: nat): (d: Data)
    ensures |d| == n
  {
    seq(n, k requires 0 <= k < n => Digit(v, k))
  }

  function Value(d: Data): nat { if d == [] then 0 else d[0] + 256 * Value(d[1..]) }

  lemma {:induction false} ValueOfLE(v: nat, n: nat)
    requires v < Pow256(n)
    ensures Value(LE(v, n)) == v
  {
    if n > 0 {
      ValueOfLE(v / 256, n - 1);
      assert LE(v, n)[1..] == LE(v / 256, n - 1);
    }
  }

  lemma {:induction false} ValueBound(d: Data)
    ensures Value(d) < Pow256(|d|)
  {
    if d != [] { ValueBound(d[1..]); }
  }

  lemma Widths()
    ensures Pow256(4) == U32_LIMIT && Pow256(8) == U64_LIMIT && Pow256(12) == U64_LIMIT * U32_LIMIT
  {
    assert Pow256(4) == U32_LIMIT;
    assert Pow256(8) == U64_LIMIT;
  }

  /** `r` is `b` after `d` has been copied over the bytes that start at `o`. */
  predicate Written(b: Data, o: nat, d: Data, r: Data) {
    && o + |d| <= |b| == |r|
    && forall k {:trigger r[k]} :: 0 <= k < |b| ==> r[k] == if o <= k < o + |d| then d[k - o] else b[k]
  }

  function Zeros(n: nat): (d: Data)
    ensures |d| == n && forall k :: 0 <= k < n ==> d[k] == 0
  {
    seq(n, _ => 0)
  }

  /** `copy_from_slice` into `buffer[o..o + |d|]`. */
  method CopyFromSlice(buffer: array<Byte>, o: nat, d: Data)
    requires o + |d| <= buffer.Length
    modifies buffer
    ensures Written(old(buffer[..]), o, d, buffer[..])
  {
    forall k | 0 <= k < |d| {
      buffer[o + k] := d[k];
    }
  }

  /** `copy_within`: an overlapping move of `buffer[from..from + n]` to `to`. */
  method CopyWithin(buffer: array<Byte>, from: nat, n: nat, to: nat)
    requires from + n <= buffer.Length && to + n <= buffer.Length
    modifies buffer
    ensures Written(old(buffer[..]), to, old(buffer[from..from + n]), buffer[..])
  {
    CopyFromSlice(buffer, to, buffer[from..from + n]);
  }

  /** `fill(0)` on `buffer[o..o + n]`. */
  method FillZero(buffer: array<Byte>, o: nat, n: nat)
    requires o + n <= buffer.Length
    modifies buffer
    ensures Written(old(buffer[..]), o, Zeros(n), buffer[..])
  {
    CopyFromSlice(buffer, o, Zeros(n));
  }

  // ---------------------------------------------------------------- lists of byte strings

  /** Total length of a list of byte strings. */
  function Total(rs: seq<Data>): (n: nat) {
    if rs == [] then 0 else Total(rs[..|rs| - 1]) + |rs[|rs| - 1]|
  }

  lemma {:induction false} TotalConcat(a: seq<Data>, b: seq<Data>)
    ensures Total(a + b) == Total(a) + Total(b)
  {
    if b == [] {
      assert a + b == a;
    } else {
      TotalConcat(a, b[..|b| - 1]);
      assert (a + b)[..|a + b| - 1] == a + b[..|b| - 1];
    }
  }

  lemma TotalOne(r: Data)
    ensures Total([r]) == |r|
  {
    assert [r][..0] == [];
  }

  lemma TotalPrefix(rs: seq<Data>, i: nat)
    requires i < |rs|
    ensures Total(rs[..i + 1]) == Total(rs[..i]) + |rs[i]|
    ensures Total(rs[..i + 1]) <= Total(rs)
  {
    assert rs[..i + 1][..i] == rs[..i];
    assert rs == rs[..i + 1] + rs[i + 1..];
    TotalConcat(rs[..i + 1], rs[i + 1..]);
  }

  lemma {:induction false} PrefixTotals(rs: seq<Data>, i: nat, j: nat)
    requires i <= j <= |rs|
    ensures Total(rs[..i]) <= Total(rs[..j])
  {
    assert rs[..j] == rs[..i] + rs[i..j];
    TotalConcat(rs[..i], rs[i..j]);
  }

  /** The byte strings one after the other. */
  function Flatten(rs: seq<Data>): (d: Data)
    ensures |d| == Total(rs)
  {
    if rs == [] then [] else Flatten(rs[..|rs| - 1]) + rs[|rs| - 1]
  }

  lemma InLeftPart(a: Data, b: Data, lo: nat, hi: nat)
    requires lo <= hi <= |a|
    ensures (a + b)[lo..hi] == a[lo..hi]
  {
  }

  lemma InRightPart(a: Data, b: Data)
    ensures (a + b)[|a|..|a| + |b|] == b
  {
  }

  lemma {:induction false} FlattenSlice(rs: seq<Data>, i: nat)
    requires i < |rs|
    ensures Total(rs[..i]) + |rs[i]| <= |Flatten(rs)|
    ensures Flatten(rs)[Total(rs[..i])..Total(rs[..i]) + |rs[i]|] == rs[i]
  {
    var n := |rs| - 1;
    if i < n {
      FlattenSlice(rs[..n], i);
      assert rs[..n][..i] == rs[..i];
      var lo, hi := Total(rs[..i]), Total(rs[..i]) + |rs[i]|;
      InLeftPart(Flatten(rs[..n]), rs[n], lo, hi);
    } else {
      InRightPart(Flatten(rs[..n]), rs[n]);
    }
  }

  lemma FlattenNext(rs: seq<Data>, i: nat)
    requires i < |rs|
    ensures Flatten(rs[..i + 1]) == Flatten(rs[..i]) + rs[i]
  {
    assert rs[..i + 1][..i] == rs[..i];
  }
}
