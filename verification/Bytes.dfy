/** Octets, fixed-width integers and their big-endian form. */
module Bytes {
  import opened Results

  type Byte = x: int | 0 <= x < 0x100
  type U16 = x: int | 0 <= x < 0x1_0000
  type U32 = x: int | 0 <= x < 0x1_0000_0000
  type U64 = x: int | 0 <= x < 0x1_0000_0000_0000_0000
  type Blob = seq<Byte>

  /** The 16-byte identifiers of messages, groups, devices and endpoints. */
  type Id = s: seq<Byte> | |s| == 16 witness seq(16, _ => 0)

  type Signature = s: Blob | |s| == 64 witness seq(64, _ => 0)

  const U32_MAX: U32 := 0xFFFF_FFFF
  const U64_MAX: U64 := 0xFFFF_FFFF_FFFF_FFFF

  function SaturatingAdd(a: U64, b: U64): U64 {
    if a + b <= U64_MAX then a + b else U64_MAX
  }

  function Pow2(k: nat): nat {
    if k == 0 then 1 else 2 * Pow2(k - 1)
  }

  function Pow256(k: nat): nat {
    if k == 0 then 1 else 256 * Pow256(k - 1)
  }

  /** The low `width` octets of `n`, most significant first: a cast to that width and `to_be_bytes`. */
  function BigEndian(n: nat, width: nat): (b: Blob)
    ensures |b| == width
  {
    if width == 0 then [] else BigEndian(n / 256, width - 1) + [n % 256]
  }

  function FromBigEndian(b: Blob): nat {
    if b == [] then 0 else FromBigEndian(b[..|b| - 1]) * 256 + b[|b| - 1]
  }

  lemma {:induction false} DecodeBigEndian(n: nat, width: nat)
    requires n < Pow256(width)
    ensures FromBigEndian(BigEndian(n, width)) == n
  {
    if width > 0 {
      DecodeBigEndian(n / 256, width - 1);
      var b := BigEndian(n, width);
      assert b[..|b| - 1] == BigEndian(n / 256, width - 1);
    }
  }

  lemma {:induction false} EncodeBigEndian(b: Blob)
    ensures FromBigEndian(b) < Pow256(|b|)
    ensures BigEndian(FromBigEndian(b), |b|) == b
  {
    if b != [] {
      EncodeBigEndian(b[..|b| - 1]);
      assert b == b[..|b| - 1] + [b[|b| - 1]];
    }
  }

  lemma Pow256Widths()
    ensures Pow256(1) == 0x100
    ensures Pow256(2) == 0x1_0000
    ensures Pow256(4) == 0x1_0000_0000
    ensures Pow256(8) == 0x1_0000_0000_0000_0000
  {
    assert Pow256(3) == 0x100_0000;
    assert Pow256(5) == 0x100 * Pow256(4);
    assert Pow256(6) == 0x100 * Pow256(5);
    assert Pow256(7) == 0x100 * Pow256(6);
  }

  /** `b` carries `x` at position `p`. */
  predicate HasAt(b: Blob, p: nat, x: Blob) {
    p + |x| <= |b| && b[p..p + |x|] == x
  }

  lemma HasAtSplit(b: Blob, p: nat, x: Blob, y: Blob)
    ensures HasAt(b, p, x + y) <==> HasAt(b, p, x) && HasAt(b, p + |x|, y)
  {
    if HasAt(b, p, x + y) {
      assert b[p..p + |x|] == (x + y)[..|x|];
      assert b[p + |x|..p + |x| + |y|] == (x + y)[|x|..];
    }
    if HasAt(b, p, x) && HasAt(b, p + |x|, y) {
      assert b[p..p + |x + y|] == b[p..p + |x|] + b[p + |x|..p + |x| + |y|];
    }
  }

  lemma HasAtWhole(b: Blob)
    ensures HasAt(b, 0, b)
  {
    assert b[0..|b|] == b;
  }

  lemma HasAtWholeIs(b: Blob, x: Blob)
    requires HasAt(b, 0, x) && |b| == |x|
    ensures b == x
  {
    assert b[0..|b|] == b;
  }

  /* ---------- Reading at a position ---------- */

  /** A value read from an input, with the position after it. */
  datatype At<+T> = At(value: T, next: nat)

  function TakeAt<E>(b: Blob, p: nat, n: nat, short: E): (r: Result<At<Blob>, E>)
    requires p <= |b|
    ensures r.Ok? ==> p <= r.value.next <= |b|
  {
    if p + n <= |b| then Ok(At(b[p..p + n], p + n)) else Err(short)
  }

  /** A big-endian number of fixed width. */
  function NumberAt<E>(b: Blob, p: nat, width: nat, short: E): (r: Result<At<nat>, E>)
    requires p <= |b|
    ensures r.Ok? ==> p <= r.value.next <= |b|
  {
    var raw :- TakeAt(b, p, width, short);
    Ok(At(FromBigEndian(raw.value), raw.next))
  }

  /** Octets stand at `p` exactly when they are read there. */
  lemma TakeExact<E>(b: Blob, p: nat, x: Blob, short: E)
    requires p <= |b|
    ensures HasAt(b, p, x) <==> TakeAt(b, p, |x|, short) == Ok(At(x, p + |x|))
  {
  }

  /** A number stands at `p` exactly when it is read there. */
  lemma NumberExact<E>(b: Blob, p: nat, n: nat, width: nat, short: E)
    requires p <= |b| && n < Pow256(width)
    ensures HasAt(b, p, BigEndian(n, width)) <==> NumberAt(b, p, width, short) == Ok(At(n, p + width))
  {
    DecodeBigEndian(n, width);
    if p + width <= |b| {
      EncodeBigEndian(b[p..p + width]);
    }
  }

  lemma NumberRange<E>(b: Blob, p: nat, width: nat, short: E)
    requires p <= |b| && NumberAt(b, p, width, short).Ok?
    ensures NumberAt(b, p, width, short).value.value < Pow256(width)
    ensures NumberAt(b, p, width, short).value.next == p + width
    ensures HasAt(b, p, BigEndian(NumberAt(b, p, width, short).value.value, width))
  {
    EncodeBigEndian(b[p..p + width]);
  }

  /** The octets of an ASCII literal. */
  function Ascii(s: string): (b: Blob)
    requires forall i :: 0 <= i < |s| ==> s[i] as int < 0x80
    ensures |b| == |s|
  {
    seq(|s|, i requires 0 <= i < |s| => s[i] as int)
  }
}
