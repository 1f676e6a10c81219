/**
 RLP (Appendix B of the Ethereum Yellow Paper) as the `alloy_rlp` crate reads and writes it.

 Every reader takes a `Tolerance`. `Strict` is the crate's reader, which refuses encodings that
 are not the shortest. `Lax` accepts long-form lengths, padded lengths and padded integers; it
 stands for any reader that the authorization codec's own re-encode comparison has to make safe.
 */
module Rlp {
  import opened Wrappers
  import opened Bytes

  datatype Tolerance = Strict | Lax

  datatype RlpError =
    | InputTooShort
    | NonCanonicalSingleByte
    | NonCanonicalSize
    | LeadingZero
    | Overflow
    | UnexpectedLength
    | UnexpectedList

  datatype Header = Header(list: bool, payloadLength: nat)

  // ---------------------------------------------------------------- writing

  /** The header of an item whose body has a length that fits 64 bits. */
  function EncodeHeader(h: Header): (r: seq<Byte>)
    requires h.payloadLength < TWO_64
    ensures 1 <= |r| <= 9
  {
    if h.payloadLength < 56 then
      [(if h.list then 0xC0 else 0x80) + h.payloadLength]
    else
      assert |ToBE(h.payloadLength)| <= 8 by {
        Pow256Widths();
        ToBELength(h.payloadLength, 8);
      }
      var length := ToBE(h.payloadLength);
      [(if h.list then 0xF7 else 0xB7) + |length|] + length
  }

  /** Both forms of a header by the standard: up to 55 bytes the length is added to 0x80 or 0xC0; a
      longer length follows as its shortest numeral, whose size is added to 0xB7 or 0xF7. */
  lemma HeaderByStandard(h: Header)
    requires h.payloadLength < TWO_64
    ensures var r, n := EncodeHeader(h), h.payloadLength;
            if n <= 55 then r == [if h.list then 0xC0 + n else 0x80 + n]
            else
              && r[0] == (if h.list then 0xF7 else 0xB7) + (|r| - 1)
              && |r| > 1 && r[1] != 0 && FromBE(r[1..]) == n
  {
    if h.payloadLength > 55 {
      ToBEHasNoLeadingZero(h.payloadLength);
      FromToBE(h.payloadLength);
      assert EncodeHeader(h)[1..] == ToBE(h.payloadLength);
    }
  }

  /** The header length the crate computes from the payload length alone. */
  function HeaderLength(h: Header): nat {
    if h.payloadLength < 56 then 1 else 1 + |ToBE(h.payloadLength)|
  }

  function EncodeString(s: Str): (r: seq<Byte>)
    ensures 1 <= |r| && |s| <= |r| <= |s| + 9
  {
    if |s| == 1 && s[0] < 0x80 then s else EncodeHeader(Header(false, |s|)) + s
  }

  function EncodeList(body: Str): (r: seq<Byte>)
    ensures |body| < |r| <= |body| + 9
  {
    EncodeHeader(Header(true, |body|)) + body
  }

  /** The crate's integer writer, which never builds the numeral of a small value. */
  function EncodeUint(n: U256): seq<Byte> {
    if n == 0 then [0x80]
    else if n < 0x80 then [n]
    else
      assert |ToBE(n)| <= 32 by {
        Pow256Widths();
        ToBELength(n, 32);
      }
      [0x80 + |ToBE(n)|] + ToBE(n)
  }

  /** The string items of a list body, one after the other. */
  function EncodeStrings(items: seq<Str>): seq<Byte> {
    if items == [] then [] else EncodeString(items[0]) + EncodeStrings(items[1..])
  }

  // ---------------------------------------------------------------- reading

  /** The header at the front of `buf` and the number of bytes it takes. A byte below 0x80 is
      its own one-byte string: its header takes no bytes. */
  function DecodeHeader(tolerance: Tolerance, buf: seq<Byte>): (r: Result<(Header, nat), RlpError>)
    ensures r.Success? ==>
              && r.value.0.payloadLength < TWO_64
              && r.value.1 + r.value.0.payloadLength <= |buf|
  {
    if buf == [] then Failure(InputTooShort)
    else
      var b := buf[0];
      if b < 0x80 then Success((Header(false, 1), 0))
      else if b <= 0xB7 then
        if b == 0x81 && |buf| < 2 then Failure(InputTooShort)
        else if b == 0x81 && tolerance.Strict? && buf[1] < 0x80 then Failure(NonCanonicalSingleByte)
        else Bounded(Header(false, b - 0x80), 1, buf)
      else if b <= 0xBF then DecodeLongHeader(tolerance, false, b - 0xB7, buf)
      else if b <= 0xF7 then Bounded(Header(true, b - 0xC0), 1, buf)
      else DecodeLongHeader(tolerance, true, b - 0xF7, buf)
  }

  function Bounded(h: Header, used: nat, buf: seq<Byte>): Result<(Header, nat), RlpError> {
    if |buf| < used + h.payloadLength then Failure(InputTooShort) else Success((h, used))
  }

  function DecodeLongHeader(tolerance: Tolerance, list: bool, lengthOfLength: nat, buf: seq<Byte>)
    : (r: Result<(Header, nat), RlpError>)
    requires 1 <= lengthOfLength <= 8
    ensures r.Success? ==>
              && r.value.0.payloadLength < TWO_64
              && r.value.1 + r.value.0.payloadLength <= |buf|
  {
    if |buf| < 1 + lengthOfLength then Failure(InputTooShort)
    else
      var length := buf[1..1 + lengthOfLength];
      if tolerance.Strict? && length[0] == 0 then Failure(LeadingZero)
      else if tolerance.Strict? && FromBE(length) < 56 then Failure(NonCanonicalSize)
      else
        assert FromBE(length) < TWO_64 by {
          FromBEWidths(length, lengthOfLength);
        }
        Bounded(Header(list, FromBE(length)), 1 + lengthOfLength, buf)
  }

  lemma Pow256Monotone(i: nat, j: nat)
    requires i <= j
    ensures Pow256(i) <= Pow256(j)
  {
    if i < j {
      Pow256Monotone(i, j - 1);
    }
  }

  /** The string item at the front of `buf`, and what follows it. */
  function DecodeString(tolerance: Tolerance, buf: seq<Byte>): (r: Result<(Str, seq<Byte>), RlpError>)
    ensures r.Success? ==> |r.value.0| + |r.value.1| <= |buf|
  {
    var (h, used) :- DecodeHeader(tolerance, buf);
    if h.list then Failure(UnexpectedList)
    else Success((buf[used..used + h.payloadLength], buf[used + h.payloadLength..]))
  }

  /** An unsigned integer of at most `width` bytes. */
  function DecodeUint(tolerance: Tolerance, width: nat, buf: seq<Byte>)
    : Result<(nat, seq<Byte>), RlpError>
  {
    var (s, rest) :- DecodeString(tolerance, buf);
    if |s| > width then Failure(Overflow)
    else if tolerance.Strict? && s != [] && s[0] == 0 then Failure(LeadingZero)
    else Success((FromBE(s), rest))
  }

  lemma FromBEWidths(s: seq<Byte>, width: nat)
    requires |s| <= width <= 32
    ensures FromBE(s) < TWO_256
    ensures width <= 16 ==> FromBE(s) < TWO_128
    ensures width <= 8 ==> FromBE(s) < TWO_64
  {
    FromBEBound(s);
    Pow256Monotone(|s|, width);
    Pow256Monotone(width, 32);
    if width <= 16 {
      Pow256Monotone(width, 16);
    }
    if width <= 8 {
      Pow256Monotone(width, 8);
    }
    Pow256Widths();
  }

  lemma DecodeUintBound(tolerance: Tolerance, width: nat, buf: seq<Byte>)
    requires width <= 32
    requires DecodeUint(tolerance, width, buf).Success?
    ensures var n := DecodeUint(tolerance, width, buf).value.0;
            n < TWO_256 && (width <= 16 ==> n < TWO_128) && (width <= 8 ==> n < TWO_64)
  {
    FromBEWidths(DecodeString(tolerance, buf).value.0, width);
  }

  /** A string of exactly `length` bytes. */
  function DecodeFixed(tolerance: Tolerance, length: nat, buf: seq<Byte>)
    : (r: Result<(seq<Byte>, seq<Byte>), RlpError>)
    ensures r.Success? ==> |r.value.0| == length
  {
    var (s, rest) :- DecodeString(tolerance, buf);
    if |s| != length then Failure(UnexpectedLength) else Success((s, rest))
  }

  // ---------------------------------------------------------------- writing, then reading

  /** Any reader recovers a written header, provided what follows is long enough and the header
      is the one a writer would choose. */
  lemma ReadEncodedHeader(tolerance: Tolerance, h: Header, rest: seq<Byte>)
    requires h.payloadLength < TWO_64
    requires |rest| >= h.payloadLength
    requires !h.list && h.payloadLength == 1 ==> rest[0] >= 0x80
    ensures DecodeHeader(tolerance, EncodeHeader(h) + rest) == Success((h, |EncodeHeader(h)|))
  {
    var n := h.payloadLength;
    var buf := EncodeHeader(h) + rest;
    if n >= 56 {
      ToBEHasNoLeadingZero(n);
      FromToBE(n);
      assert buf[1..1 + |ToBE(n)|] == ToBE(n);
    }
  }

  lemma ReadEncodedString(tolerance: Tolerance, s: Str, rest: seq<Byte>)
    ensures DecodeString(tolerance, EncodeString(s) + rest) == Success((s, rest))
  {
    if |s| == 1 && s[0] < 0x80 {
    } else {
      var header := EncodeHeader(Header(false, |s|));
      assert EncodeString(s) + rest == header + (s + rest);
      ReadEncodedHeader(tolerance, Header(false, |s|), s + rest);
      assert (header + (s + rest))[|header|..|header| + |s|] == s;
      assert (header + (s + rest))[|header| + |s|..] == rest;
    }
  }

  /** The integer writer's three branches are one rule: the string of the shortest numeral. */
  lemma UintIsItsNumeral(n: U256)
    ensures |ToBE(n)| <= 32 && EncodeUint(n) == EncodeString(ToBE(n))
  {
    Pow256Widths();
    ToBELength(n, 32);
    ToBEHasNoLeadingZeroIfPositive(n);
    if 0 < n < 256 {
      assert ToBE(n / 256) == [];
      assert ToBE(n) == [n];
    } else if n >= 256 {
      assert n / 256 > 0;
      ToBEHasNoLeadingZeroIfPositive(n / 256);
      assert |ToBE(n)| > 1;
    }
  }

  lemma ToBEHasNoLeadingZeroIfPositive(n: nat)
    ensures n > 0 ==> ToBE(n) != [] && ToBE(n)[0] != 0
  {
    if n > 0 {
      ToBEHasNoLeadingZero(n);
    }
  }

  /** Any reader recovers a written integer of the right width. */
  lemma ReadEncodedUint(tolerance: Tolerance, width: nat, n: U256, rest: seq<Byte>)
    requires n < Pow256(width)
    ensures DecodeUint(tolerance, width, EncodeUint(n) + rest) == Success((n, rest))
  {
    UintIsItsNumeral(n);
    ReadEncodedString(tolerance, ToBE(n), rest);
    ToBELength(n, width);
    FromToBE(n);
    ToBEHasNoLeadingZeroIfPositive(n);
  }

  /** Reading the items of a list body one after the other recovers each of them. */
  lemma ReadEncodedStrings(tolerance: Tolerance, items: seq<Str>, i: nat)
    requires i < |items|
    ensures EncodeStrings(items[i..]) == EncodeString(items[i]) + EncodeStrings(items[i + 1..])
    ensures DecodeString(tolerance, EncodeStrings(items[i..]))
         == Success((items[i], EncodeStrings(items[i + 1..])))
  {
    assert items[i..][1..] == items[i + 1..];
    ReadEncodedString(tolerance, items[i], EncodeStrings(items[i + 1..]));
  }

  /** List bodies of string items can be read back in only one way. */
  lemma {:induction false} EncodeStringsInjective(xs: seq<Str>, ys: seq<Str>)
    requires EncodeStrings(xs) == EncodeStrings(ys)
    ensures xs == ys
  {
    if xs == [] || ys == [] {
    } else {
      ReadEncodedString(Strict, xs[0], EncodeStrings(xs[1..]));
      ReadEncodedString(Strict, ys[0], EncodeStrings(ys[1..]));
      EncodeStringsInjective(xs[1..], ys[1..]);
      assert xs == [xs[0]] + xs[1..] && ys == [ys[0]] + ys[1..];
    }
  }

  lemma EncodeListInjective(x: Str, y: Str)
    requires EncodeList(x) == EncodeList(y)
    ensures x == y
  {
    ReadEncodedHeader(Strict, Header(true, |x|), x);
    ReadEncodedHeader(Strict, Header(true, |y|), y);
    var k := |EncodeHeader(Header(true, |x|))|;
    assert x == EncodeList(x)[k..];
    assert y == EncodeList(y)[k..];
  }

  // ---------------------------------------------------------------- reading strictly, then writing

  /** What the strict reader accepts as a header is either a bare byte or exactly the bytes the
      writer would have put there; so the computed header length is the number consumed. */
  lemma StrictHeaderIsCanonical(buf: seq<Byte>)
    requires DecodeHeader(Strict, buf).Success?
    ensures var (h, used) := DecodeHeader(Strict, buf).value;
            if used == 0 then h == Header(false, 1) && buf[0] < 0x80
            else
              && buf[..used] == EncodeHeader(h)
              && used == HeaderLength(h)
              && (!h.list && h.payloadLength == 1 ==> buf[used] >= 0x80)
  {
    var (h, used) := DecodeHeader(Strict, buf).value;
    var b := buf[0];
    if b >= 0x80 {
      if used > 1 {
        var length := buf[1..used];
        ToFromBE(length);
        assert buf[..used] == [b] + length;
      } else {
        assert buf[..1] == [b];
      }
    }
  }

  lemma StrictStringIsCanonical(buf: seq<Byte>)
    requires DecodeString(Strict, buf).Success?
    ensures var (s, rest) := DecodeString(Strict, buf).value;
            buf == EncodeString(s) + rest
  {
    StrictHeaderIsCanonical(buf);
    hide DecodeHeader, EncodeHeader, HeaderLength;
    var (h, used) := DecodeHeader(Strict, buf).value;
    var end := used + h.payloadLength;
    ThreeParts(buf, used, end);
    StringWriting(buf, used, end);
  }

  lemma StringWriting(buf: seq<Byte>, used: nat, end: nat)
    requires used <= end <= |buf| && end - used < TWO_64
    requires if used == 0 then end == 1 && buf[0] < 0x80
             else buf[..used] == EncodeHeader(Header(false, end - used))
                  && (end - used == 1 ==> buf[used] >= 0x80)
    ensures buf[..used] + buf[used..end] == EncodeString(buf[used..end])
  {
    hide EncodeHeader;
  }

  lemma StrictUintIsCanonical(width: nat, buf: seq<Byte>)
    requires width <= 32
    requires DecodeUint(Strict, width, buf).Success?
    ensures var (n, rest) := DecodeUint(Strict, width, buf).value;
            n < TWO_256 && buf == EncodeUint(n) + rest
  {
    DecodeUintBound(Strict, width, buf);
    StrictStringIsCanonical(buf);
    var (s, rest) := DecodeString(Strict, buf).value;
    ToFromBE(s);
    UintIsItsNumeral(FromBE(s));
  }
}
