/** Bytes, machine integer widths and big-endian numerals. */
module Bytes {

  type Byte = b: int | 0 <= b < 256

  const TWO_64: int := 0x1_0000_0000_0000_0000
  const TWO_128: int := 0x1_0000_0000_0000_0000_0000_0000_0000_0000
  const TWO_256: int :=
    0x1_0000_0000_0000_0000_0000_0000_0000_0000_0000_0000_0000_0000_0000_0000_0000_0000

  type U64 = n: int | 0 <= n < TWO_64
  type U128 = n: int | 0 <= n < TWO_128
  type U256 = n: int | 0 <= n < TWO_256

  /** A byte string whose length fits a 64-bit length field. */
  type Str = s: seq<Byte> | |s| < TWO_64

  /** The longest buffer a Rust allocation can hold (`isize::MAX`). */
  const MAX_ALLOCATION: int := 0x7fff_ffff_ffff_ffff
  type Buffer = s: seq<Byte> | |s| <= MAX_ALLOCATION

  type Bytes20 = s: seq<Byte> | |s| == 20 witness seq(20, _ => 0)
  type Bytes32 = s: seq<Byte> | |s| == 32 witness seq(32, _ => 0)

  lemma Regroup<T>(x: seq<T>, y: seq<T>, z: seq<T>)
    ensures x + y + z == x + (y + z)
  {
  }

  lemma ThreeParts<T>(s: seq<T>, i: nat, j: nat)
    requires i <= j <= |s|
    ensures s == s[..i] + s[i..j] + s[j..]
  {
  }

  function Pow256(k: nat): (p: nat)
    ensures p >= 1
  {
    if k == 0 then 1 else 256 * Pow256(k - 1)
  }

  /** The number a big-endian byte string denotes. */
  function FromBE(b: seq<Byte>): nat {
    if b == [] then 0 else FromBE(b[..|b| - 1]) * 256 + b[|b| - 1]
  }

  /** The shortest big-endian numeral; zero is the empty string. */
  function ToBE(n: nat): seq<Byte> {
    if n == 0 then [] else ToBE(n / 256) + [n % 256]
  }

  /** The big-endian numeral of exactly `width` bytes. */
  function FixedBE(width: nat, n: nat): (b: seq<Byte>)
    ensures |b| == width
  {
    if width == 0 then [] else FixedBE(width - 1, n / 256) + [n % 256]
  }

  lemma {:induction false} FromToBE(n: nat)
    ensures FromBE(ToBE(n)) == n
  {
    if n != 0 {
      FromToBE(n / 256);
      assert ToBE(n)[..|ToBE(n)| - 1] == ToBE(n / 256);
    }
  }

  /** A numeral without a leading zero is the shortest one of its value. */
  lemma {:induction false} ToFromBE(b: seq<Byte>)
    requires b == [] || b[0] != 0
    ensures ToBE(FromBE(b)) == b
  {
    if b != [] {
      var init := b[..|b| - 1];
      ToFromBE(init);
      assert b == init + [b[|b| - 1]];
      assert FromBE(b) / 256 == FromBE(init);
    }
  }

  /** The shortest numeral has no leading zero, so `ToFromBE` applies to it. */
  lemma {:induction false} ToBEHasNoLeadingZero(n: nat)
    requires n > 0
    ensures ToBE(n) != [] && ToBE(n)[0] != 0
  {
    if n >= 256 {
      ToBEHasNoLeadingZero(n / 256);
    }
  }

  lemma {:induction false} FromBEBound(b: seq<Byte>)
    ensures FromBE(b) < Pow256(|b|)
  {
    if b != [] {
      FromBEBound(b[..|b| - 1]);
    }
  }

  /** `ToBE(n)` has exactly `k` bytes when `n` has `k` base-256 digits. */
  lemma {:induction false} ToBELength(n: nat, k: nat)
    requires n < Pow256(k)
    ensures |ToBE(n)| <= k
    ensures k > 0 && n >= Pow256(k - 1) ==> |ToBE(n)| == k
  {
    if k > 0 && n != 0 {
      ToBELength(n / 256, k - 1);
    }
  }

  lemma {:induction false} FixedFromBE(b: seq<Byte>)
    ensures FixedBE(|b|, FromBE(b)) == b
  {
    if b != [] {
      FixedFromBE(b[..|b| - 1]);
      assert b == b[..|b| - 1] + [b[|b| - 1]];
    }
  }

  lemma {:induction false} FromFixedBE(width: nat, n: nat)
    requires n < Pow256(width)
    ensures FromBE(FixedBE(width, n)) == n
  {
    if width > 0 {
      FromFixedBE(width - 1, n / 256);
      assert FixedBE(width, n)[..width - 1] == FixedBE(width - 1, n / 256);
    }
  }

  lemma Pow256Double(k: nat)
    ensures Pow256(2 * k) == Pow256(k) * Pow256(k)
  {
    if k > 0 {
      Pow256Double(k - 1);
      var p := Pow256(k - 1);
      assert Pow256(2 * k) == 256 * (256 * (p * p));
      assert Pow256(k) * Pow256(k) == (256 * p) * (256 * p);
    }
  }

  lemma Pow256Widths()
    ensures Pow256(1) == 0x100 && Pow256(2) == 0x1_0000 && Pow256(3) == 0x100_0000
    ensures Pow256(4) == 0x1_0000_0000
    ensures Pow256(8) == TWO_64 && Pow256(16) == TWO_128 && Pow256(32) == TWO_256
  {
    assert Pow256(1) == 0x100;
    assert Pow256(2) == 0x1_0000;
    assert Pow256(3) == 0x100_0000;
    Pow256Double(2);
    Pow256Double(4);
    Pow256Double(8);
    Pow256Double(16);
  }
}
