/** Padded base64, section 4 of RFC 4648. */
module Base64 {
  import opened Wrappers
  import opened Bytes

  type Sextet = n: int | 0 <= n < 64

  predicate InAlphabet(c: char) {
    'A' <= c <= 'Z' || 'a' <= c <= 'z' || '0' <= c <= '9' || c == '+' || c == '/'
  }

  function Symbol(n: Sextet): (c: char)
    ensures InAlphabet(c)
    ensures Value(c) == n
  {
    if n < 26 then 'A' + n as char
    else if n < 52 then 'a' + (n - 26) as char
    else if n < 62 then '0' + (n - 52) as char
    else if n == 62 then '+'
    else '/'
  }

  function Value(c: char): Sextet
    requires InAlphabet(c)
  {
    if 'A' <= c <= 'Z' then c as int - 'A' as int
    else if 'a' <= c <= 'z' then c as int - 'a' as int + 26
    else if '0' <= c <= '9' then c as int - '0' as int + 52
    else if c == '+' then 62
    else 63
  }

  function Encode(b: seq<Byte>): (s: string)
    ensures |s| == 4 * ((|b| + 2) / 3)
    ensures forall i :: 0 <= i < |s| ==> InAlphabet(s[i]) || s[i] == '='
  {
    if b == [] then ""
    else if |b| == 1 then
      Group1(b[0])
    else if |b| == 2 then
      Group2(b[0], b[1])
    else
      Group3(b[0], b[1], b[2]) + Encode(b[3..])
  }

  function Group1(x: Byte): (g: string)
    ensures |g| == 4 && forall i :: 0 <= i < 4 ==> InAlphabet(g[i]) || g[i] == '='
  {
    [Symbol(x / 4), Symbol(x % 4 * 16), '=', '=']
  }

  function Group2(x: Byte, y: Byte): (g: string)
    ensures |g| == 4 && forall i :: 0 <= i < 4 ==> InAlphabet(g[i]) || g[i] == '='
  {
    [Symbol(x / 4), Symbol(x % 4 * 16 + y / 16), Symbol(y % 16 * 4), '=']
  }

  function Group3(x: Byte, y: Byte, z: Byte): (g: string)
    ensures |g| == 4 && forall i :: 0 <= i < 4 ==> InAlphabet(g[i]) || g[i] == '='
  {
    [Symbol(x / 4), Symbol(x % 4 * 16 + y / 16), Symbol(y % 16 * 4 + z / 64), Symbol(z % 64)]
  }

  /** The bytes of one group of four symbols; `None` when it is not a group of the alphabet with
      correctly placed padding and zero padding bits. */
  function DecodeGroup(g: string): (r: Option<seq<Byte>>)
    requires |g| == 4
  {
    if !InAlphabet(g[0]) || !InAlphabet(g[1]) then None
    else
      var first := Value(g[0]) * 4 + Value(g[1]) / 16;
      if g[2] == '=' && g[3] == '=' then
        if Value(g[1]) % 16 != 0 then None else Some([first])
      else if !InAlphabet(g[2]) then None
      else
        var second := Value(g[1]) % 16 * 16 + Value(g[2]) / 4;
        if g[3] == '=' then
          if Value(g[2]) % 4 != 0 then None else Some([first, second])
        else if !InAlphabet(g[3]) then None
        else Some([first, second, Value(g[2]) % 4 * 64 + Value(g[3])])
  }

  function Decode(s: string): Option<seq<Byte>> {
    if s == "" then Some([])
    else if |s| < 4 then None
    else
      match (DecodeGroup(s[..4]), Decode(s[4..]))
      case (Some(x), Some(y)) => Some(x + y)
      case _ => None
  }

  lemma DecodeGroup1(x: Byte)
    ensures DecodeGroup(Group1(x)) == Some([x])
  {
    var g := Group1(x);
    assert Value(g[0]) * 4 + Value(g[1]) / 16 == x;
  }

  lemma DecodeGroup2(x: Byte, y: Byte)
    ensures DecodeGroup(Group2(x, y)) == Some([x, y])
  {
    var g := Group2(x, y);
    assert Value(g[0]) * 4 + Value(g[1]) / 16 == x;
    assert Value(g[1]) % 16 * 16 + Value(g[2]) / 4 == y;
  }

  lemma DecodeGroup3(x: Byte, y: Byte, z: Byte)
    ensures DecodeGroup(Group3(x, y, z)) == Some([x, y, z])
  {
    var g := Group3(x, y, z);
    assert Value(g[0]) * 4 + Value(g[1]) / 16 == x;
    assert Value(g[1]) % 16 * 16 + Value(g[2]) / 4 == y;
    assert Value(g[2]) % 4 * 64 + Value(g[3]) == z;
  }

  lemma DecodeStep(g: string, s: string, x: seq<Byte>, y: seq<Byte>)
    requires |g| == 4
    requires DecodeGroup(g) == Some(x) && Decode(s) == Some(y)
    ensures Decode(g + s) == Some(x + y)
  {
    assert (g + s)[..4] == g && (g + s)[4..] == s;
  }

  /** Decoding inverts encoding, whatever the length modulo three. */
  lemma {:induction false} DecodeEncode(b: seq<Byte>)
    ensures Decode(Encode(b)) == Some(b)
  {
    hide DecodeGroup, Group1, Group2, Group3;
    if b == [] {
    } else if |b| == 1 {
      DecodeGroup1(b[0]);
      DecodeStep(Group1(b[0]), "", [b[0]], []);
      assert Group1(b[0]) + "" == Group1(b[0]) && [b[0]] + [] == b;
    } else if |b| == 2 {
      DecodeGroup2(b[0], b[1]);
      DecodeStep(Group2(b[0], b[1]), "", [b[0], b[1]], []);
      assert Group2(b[0], b[1]) + "" == Group2(b[0], b[1]) && [b[0], b[1]] + [] == b;
    } else {
      DecodeGroup3(b[0], b[1], b[2]);
      DecodeEncode(b[3..]);
      DecodeStep(Group3(b[0], b[1], b[2]), Encode(b[3..]), [b[0], b[1], b[2]], b[3..]);
      assert b == [b[0], b[1], b[2]] + b[3..];
    }
  }

  // ---------------------------------------------------------------- the text by the standard

  const UPPER := "ABCDEFGHIJKLMNOPQRSTUVWXYZ"
  const LOWER := "abcdefghijklmnopqrstuvwxyz"
  const ALPHABET := UPPER + LOWER + "0123456789+/"

  const PLACES: seq<nat> := [128, 64, 32, 16, 8, 4, 2, 1]

  /** The `i`-th bit of a byte string, most significant first, with zeros after its end. */
  function Bit(b: seq<Byte>, i: nat): (bit: nat)
    ensures bit < 2
  {
    if i / 8 < |b| then b[i / 8] / PLACES[i % 8] % 2 else 0
  }

  /** The `k`-th group of six bits, read as a number. */
  function SixBits(b: seq<Byte>, k: nat): Sextet {
    32 * Bit(b, 6 * k) + 16 * Bit(b, 6 * k + 1) + 8 * Bit(b, 6 * k + 2)
    + 4 * Bit(b, 6 * k + 3) + 2 * Bit(b, 6 * k + 4) + Bit(b, 6 * k + 5)
  }

  lemma UpperCase(n: nat)
    requires n < 26
    ensures UPPER[n] == 'A' + n as char
  {
  }

  lemma LowerCase(n: nat)
    requires n < 26
    ensures LOWER[n] == 'a' + n as char
  {
  }

  lemma SymbolIsLetter(n: Sextet)
    ensures |ALPHABET| == 64 && Symbol(n) == ALPHABET[n]
  {
    if n < 26 {
      UpperCase(n);
      assert ALPHABET[n] == UPPER[n];
    } else if n < 52 {
      LowerCase(n - 26);
      assert ALPHABET[n] == LOWER[n - 26];
    } else {
      assert ALPHABET[n] == "0123456789+/"[n - 52];
    }
  }

  lemma BitLater(b: seq<Byte>, i: nat, j: nat)
    requires |b| >= 3 && j == i + 24
    ensures Bit(b, j) == Bit(b[3..], i)
  {
    assert j / 8 == i / 8 + 3 && j % 8 == i % 8;
  }

  lemma SixBitsLater(b: seq<Byte>, k: nat)
    requires |b| >= 3
    ensures SixBits(b, k + 4) == SixBits(b[3..], k)
  {
    hide Bit;
    var i, j := 6 * k, 6 * (k + 4);
    BitLater(b, i, j);
    BitLater(b, i + 1, j + 1);
    BitLater(b, i + 2, j + 2);
    BitLater(b, i + 3, j + 3);
    BitLater(b, i + 4, j + 4);
    BitLater(b, i + 5, j + 5);
  }

  /** The eight bits of a byte, from both ends. */
  lemma BitsOfByte(x: Byte)
    ensures x / 4 == 32 * (x / 128 % 2) + 16 * (x / 64 % 2) + 8 * (x / 32 % 2) + 4 * (x / 16 % 2)
                     + 2 * (x / 8 % 2) + x / 4 % 2
    ensures x / 16 == 8 * (x / 128 % 2) + 4 * (x / 64 % 2) + 2 * (x / 32 % 2) + x / 16 % 2
    ensures x / 64 == 2 * (x / 128 % 2) + x / 64 % 2
    ensures x % 4 == 2 * (x / 2 % 2) + x % 2
    ensures x % 16 == 8 * (x / 8 % 2) + 4 * (x / 4 % 2) + 2 * (x / 2 % 2) + x % 2
    ensures x % 64 == 32 * (x / 32 % 2) + 16 * (x / 16 % 2) + 8 * (x / 8 % 2) + 4 * (x / 4 % 2)
                      + 2 * (x / 2 % 2) + x % 2
  {
    assert x / 128 == x / 128 % 2;
    assert x / 64 == 2 * (x / 128) + x / 64 % 2;
    assert x / 32 == 2 * (x / 64) + x / 32 % 2;
    assert x / 16 == 2 * (x / 32) + x / 16 % 2;
    assert x / 8 == 2 * (x / 16) + x / 8 % 2;
    assert x / 4 == 2 * (x / 8) + x / 4 % 2;
    assert x / 2 == 2 * (x / 4) + x / 2 % 2;
    assert x == 2 * (x / 2) + x % 2;
  }

  lemma PlacesOfBits(b: seq<Byte>, j: nat)
    requires j < |b|
    ensures Bit(b, 8 * j) == b[j] / 128 % 2 && Bit(b, 8 * j + 1) == b[j] / 64 % 2
    ensures Bit(b, 8 * j + 2) == b[j] / 32 % 2 && Bit(b, 8 * j + 3) == b[j] / 16 % 2
    ensures Bit(b, 8 * j + 4) == b[j] / 8 % 2 && Bit(b, 8 * j + 5) == b[j] / 4 % 2
    ensures Bit(b, 8 * j + 6) == b[j] / 2 % 2 && Bit(b, 8 * j + 7) == b[j] % 2
  {
  }

  /** The four numbers of a first group. */
  lemma FirstGroup(b: seq<Byte>)
    requires b != []
    ensures SixBits(b, 0) == b[0] / 4
    ensures SixBits(b, 1) == b[0] % 4 * 16 + (if |b| > 1 then b[1] / 16 else 0)
    ensures |b| > 1 ==> SixBits(b, 2) == b[1] % 16 * 4 + (if |b| > 2 then b[2] / 64 else 0)
    ensures |b| > 2 ==> SixBits(b, 3) == b[2] % 64
  {
    BitsOfByte(b[0]);
    PlacesOfBits(b, 0);
    if |b| > 1 {
      BitsOfByte(b[1]);
      PlacesOfBits(b, 1);
    }
    if |b| > 2 {
      BitsOfByte(b[2]);
      PlacesOfBits(b, 2);
    }
    NoBits(b);
    hide Bit;
  }

  lemma NoBits(b: seq<Byte>)
    ensures forall i :: i >= 8 * |b| ==> Bit(b, i) == 0
  {
  }

  lemma EncodeFirst(b: seq<Byte>, k: nat)
    requires b != [] && k < 4
    ensures 6 * k >= 8 * |b| ==> Encode(b)[k] == '='
    ensures 6 * k < 8 * |b| ==> Encode(b)[k] == Symbol(SixBits(b, k))
  {
    hide Symbol, SixBits, Encode, InAlphabet;
    FirstGroup(b);
    EncodeHead(b);
    var head := Encode(b)[..4];
    assert Encode(b)[k] == head[k];
    assert k == 0 || k == 1 || k == 2 || k == 3;
  }

  lemma EncodeHead(b: seq<Byte>)
    requires b != []
    ensures Encode(b)[..4] == if |b| == 1 then Group1(b[0])
                              else if |b| == 2 then Group2(b[0], b[1])
                              else Group3(b[0], b[1], b[2])
  {
    hide Group1, Group2, Group3;
  }

  lemma EncodeLater(b: seq<Byte>, k: nat)
    requires 4 <= k < |Encode(b)|
    ensures |b| >= 3 && k - 4 < |Encode(b[3..])| && Encode(b)[k] == Encode(b[3..])[k - 4]
  {
    hide Group1, Group2, Group3;
  }

  /** What the encoder writes, by the standard: the letters of the six-bit groups of the bit string,
      the last one filled up with zeros, and then as many `=` as make the length a multiple of four. */
  lemma {:induction false} EncodeByStandard(b: seq<Byte>, k: nat)
    requires k < |Encode(b)|
    ensures Encode(b)[k] == if 6 * k < 8 * |b| then ALPHABET[SixBits(b, k)] else '='
  {
    hide *;
    if k < 4 {
      EncodeFirst(b, k);
      SymbolIsLetter(SixBits(b, k));
    } else {
      EncodeLater(b, k);
      SixBitsLater(b, k - 4);
      EncodeByStandard(b[3..], k - 4);
    }
  }
}
