/**
 The `cosmos` address of 20 account bytes: the data part of Bech32 (BIP-173). The six checksum
 groups come from a function the caller supplies; nothing here depends on which one.
 */
module Bech32 {
  import opened Bytes

  type Group = n: int | 0 <= n < 32
  type Checksum = g: seq<Group> | |g| == 6 witness [0, 0, 0, 0, 0, 0]

  const PREFIX := "cosmos1"
  const CHARSET := "qpzry9x8gf2tvdw0s3jn54khce6mua7l"

  function Symbol(g: Group): (c: char)
    ensures c in CHARSET
  {
    CHARSET[g]
  }

  /** The last `k` five-bit groups of a number, most significant first. */
  function Groups(n: nat, k: nat): (g: seq<Group>)
    ensures |g| == k
  {
    if k == 0 then [] else Groups(n / 32, k - 1) + [n % 32]
  }

  /** 160 bits are exactly 32 groups of five: regrouping an account needs no padding bits. */
  function ToBase32(account: Bytes20): (g: seq<Group>)
    ensures |g| == 32
  {
    Groups(FromBE(account), 32)
  }

  function Symbols(groups: seq<Group>): (s: string)
    ensures |s| == |groups|
    ensures forall i :: 0 <= i < |s| ==> s[i] == CHARSET[groups[i]]
  {
    seq(|groups|, i requires 0 <= i < |groups| => Symbol(groups[i]))
  }

  function Address(account: Bytes20, checksum: seq<Group> -> Checksum): (s: string)
    ensures |s| == 45
  {
    var data := ToBase32(account);
    PREFIX + Symbols(data) + Symbols(checksum(data))
  }

  /** Where each symbol stands in the character set. */
  function GroupOf(c: char): Group {
    match c
    case 'q' => 0 case 'p' => 1 case 'z' => 2 case 'r' => 3 case 'y' => 4 case '9' => 5
    case 'x' => 6 case '8' => 7 case 'g' => 8 case 'f' => 9 case '2' => 10 case 't' => 11
    case 'v' => 12 case 'd' => 13 case 'w' => 14 case '0' => 15 case 's' => 16 case '3' => 17
    case 'j' => 18 case 'n' => 19 case '5' => 20 case '4' => 21 case 'k' => 22 case 'h' => 23
    case 'c' => 24 case 'e' => 25 case '6' => 26 case 'm' => 27 case 'u' => 28 case 'a' => 29
    case '7' => 30
    case _ => 31
  }

  lemma SymbolInjective(a: Group, b: Group)
    requires CHARSET[a] == CHARSET[b]
    ensures a == b
  {
    GroupOfSymbol(a);
    GroupOfSymbol(b);
  }

  lemma GroupOfSymbol(g: Group)
    ensures GroupOf(CHARSET[g]) == g
  {
  }

  lemma {:induction false} GroupsInjective(m: nat, n: nat, k: nat)
    requires Groups(m, k) == Groups(n, k)
    requires m < Pow32(k) && n < Pow32(k)
    ensures m == n
  {
    if k > 0 {
      assert Groups(m, k)[..k - 1] == Groups(m / 32, k - 1);
      assert Groups(n, k)[..k - 1] == Groups(n / 32, k - 1);
      assert Groups(m, k)[k - 1] == Groups(n, k)[k - 1];
      GroupsInjective(m / 32, n / 32, k - 1);
    }
  }

  function Pow32(k: nat): (p: nat)
    ensures p >= 1
  {
    if k == 0 then 1 else 32 * Pow32(k - 1)
  }

  /** Twenty bytes and thirty-two groups of five hold the same numbers. */
  lemma {:induction false} GroupsHoldBytes(k: nat)
    ensures Pow32(8 * k) == Pow256(5 * k)
  {
    if k > 0 {
      GroupsHoldBytes(k - 1);
      var n, m := 8 * (k - 1), 5 * (k - 1);
      assert Pow32(n + 1) == 32 * Pow32(n) && Pow32(n + 2) == 32 * Pow32(n + 1);
      assert Pow32(n + 3) == 32 * Pow32(n + 2) && Pow32(n + 4) == 32 * Pow32(n + 3);
      assert Pow32(n + 5) == 32 * Pow32(n + 4) && Pow32(n + 6) == 32 * Pow32(n + 5);
      assert Pow32(n + 7) == 32 * Pow32(n + 6) && Pow32(n + 8) == 32 * Pow32(n + 7);
      assert Pow256(m + 1) == 256 * Pow256(m) && Pow256(m + 2) == 256 * Pow256(m + 1);
      assert Pow256(m + 3) == 256 * Pow256(m + 2) && Pow256(m + 4) == 256 * Pow256(m + 3);
    }
  }

  lemma SymbolsInjective(x: seq<Group>, y: seq<Group>)
    requires Symbols(x) == Symbols(y)
    ensures x == y
  {
    assert |x| == |Symbols(x)| && |y| == |Symbols(y)|;
    forall i | 0 <= i < |x|
      ensures x[i] == y[i]
    {
      assert Symbols(x)[i] == CHARSET[x[i]] && Symbols(y)[i] == CHARSET[y[i]];
      SymbolInjective(x[i], y[i]);
    }
  }

  lemma Middle(a: string, b: string, c: string)
    ensures (a + b + c)[|a|..|a| + |b|] == b
  {
  }

  lemma AddressData(account: Bytes20, checksum: seq<Group> -> Checksum)
    ensures Address(account, checksum)[|PREFIX|..|PREFIX| + 32] == Symbols(ToBase32(account))
  {
    Middle(PREFIX, Symbols(ToBase32(account)), Symbols(checksum(ToBase32(account))));
  }

  lemma ToBase32Injective(a: Bytes20, b: Bytes20)
    requires ToBase32(a) == ToBase32(b)
    ensures a == b
  {
    GroupsHoldBytes(4);
    FromBEBound(a);
    FromBEBound(b);
    GroupsInjective(FromBE(a), FromBE(b), 32);
    FixedFromBE(a);
    FixedFromBE(b);
  }

  /** The address names the account: two accounts with one address are one account. */
  lemma AddressInjective(a: Bytes20, b: Bytes20, checksum: seq<Group> -> Checksum)
    requires Address(a, checksum) == Address(b, checksum)
    ensures a == b
  {
    AddressData(a, checksum);
    AddressData(b, checksum);
    hide Address, Symbols;
    SymbolsInjective(ToBase32(a), ToBase32(b));
    ToBase32Injective(a, b);
  }

  /** No address contains a quote, so the JSON string that carries it ends where it should. */
  lemma AddressIsQuoteFree(account: Bytes20, checksum: seq<Group> -> Checksum)
    ensures '"' !in Address(account, checksum)
  {
    assert '"' !in CHARSET && '"' !in PREFIX;
    var data := ToBase32(account);
    assert '"' !in Symbols(data);
    assert '"' !in Symbols(checksum(data));
  }

  // ---------------------------------------------------------------- the text by the standard

  lemma SmallMultiple(x: int, d: nat)
    ensures x == 0 || x * d >= d || x * d + d <= 0
  {
    if x >= 1 {
      assert (x - 1) * d >= 0;
    } else if x <= -1 {
      assert (-1 - x) * d >= 0;
    }
  }

  lemma QuotientIs(n: nat, d: nat, q: nat, r: nat)
    requires n == q * d + r && r < d
    ensures n / d == q
  {
    var e := n / d;
    assert (e - q) * d == r - n % d;
    SmallMultiple(e - q, d);
  }

  lemma DivideTwice(n: nat, b: nat)
    requires b > 0
    ensures n / 32 / b == n / (32 * b)
  {
    var q, r := n / 32 / b, n / 32 % b;
    assert n == 32 * (q * b + r) + n % 32;
    assert 32 * (q * b) == q * (32 * b);
    QuotientIs(n, 32 * b, q, 32 * r + n % 32);
  }

  /** The groups are the base-32 digits of the number, most significant first. */
  lemma {:induction false} GroupDigit(n: nat, k: nat, i: nat)
    requires i < k
    ensures Groups(n, k)[i] == n / Pow32(k - 1 - i) % 32
  {
    if i < k - 1 {
      GroupDigit(n / 32, k - 1, i);
      DivideTwice(n, Pow32(k - 2 - i));
    }
  }

  /** The text of an address, by the standard: prefix and separator, the thirty-two base-32 digits of
      the account read as a big-endian number, then the checksum of those digits. */
  lemma AddressByStandard(account: Bytes20, checksum: seq<Group> -> Checksum, i: nat)
    requires i < 45
    ensures Address(account, checksum)[i]
         == if i < 7 then "cosmos1"[i]
            else if i < 39 then CHARSET[FromBE(account) / Pow32(38 - i) % 32]
            else CHARSET[checksum(ToBase32(account))[i - 39]]
  {
    var data := ToBase32(account);
    if 7 <= i < 39 {
      GroupDigit(FromBE(account), 32, i - 7);
    }
    hide Groups, FromBE, Pow32, Symbols;
    Joined(PREFIX, Symbols(data), Symbols(checksum(data)), i);
  }

  lemma Joined(a: string, b: string, c: string, i: nat)
    requires i < |a| + |b| + |c|
    ensures (a + b + c)[i]
         == if i < |a| then a[i] else if i < |a| + |b| then b[i - |a|] else c[i - |a| - |b|]
  {
  }
}
