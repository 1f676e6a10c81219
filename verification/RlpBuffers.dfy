/** The growing output vectors and the advancing input slices the codecs work on. */
module RlpBuffers {
  import opened Wrappers
  import opened Bytes
  import opened Rlp

  /** An output vector. */
  class Writer {
    var bytes: seq<Byte>

    constructor ()
      ensures bytes == []
    {
      bytes := [];
    }

    method Put(s: seq<Byte>)
      modifies this
      ensures bytes == old(bytes) + s
    {
      bytes := bytes + s;
    }

    method PutHeader(h: Header)
      requires h.payloadLength < TWO_64
      modifies this
      ensures bytes == old(bytes) + EncodeHeader(h)
    {
      if h.payloadLength < 56 {
        Put([(if h.list then 0xC0 else 0x80) + h.payloadLength]);
      } else {
        Pow256Widths();
        ToBELength(h.payloadLength, 8);
        var length := ToBE(h.payloadLength);
        Put([(if h.list then 0xF7 else 0xB7) + |length|]);
        Put(length);
      }
    }

    method PutString(s: Str)
      modifies this
      ensures bytes == old(bytes) + EncodeString(s)
    {
      if |s| != 1 || s[0] >= 0x80 {
        PutHeader(Header(false, |s|));
      }
      Put(s);
    }

    method PutUint(n: U256)
      modifies this
      ensures |ToBE(n)| <= 32 && bytes == old(bytes) + EncodeString(ToBE(n))
    {
      UintIsItsNumeral(n);
      if n == 0 {
        Put([0x80]);
      } else if n < 0x80 {
        Put([n]);
      } else {
        Put([0x80 + |ToBE(n)|]);
        Put(ToBE(n));
      }
    }
  }

  /** `r` with every reader error replaced by `e`: the conversion `?` applies to RLP errors. */
  function Convert<T, E>(r: Result<T, RlpError>, e: E): Result<T, E> {
    match r
    case Success(v) => Success(v)
    case Failure(_) => Failure(e)
  }

  /** An input slice that each read shortens. A failed read says nothing about what is left:
      every caller gives up. */
  class Cursor<E> {
    const tolerance: Tolerance
    const failure: E
    var rest: seq<Byte>

    constructor (tolerance: Tolerance, failure: E, buf: seq<Byte>)
      ensures this.tolerance == tolerance && this.failure == failure && rest == buf
    {
      this.tolerance := tolerance;
      this.failure := failure;
      rest := buf;
    }

    method TakeHeader() returns (r: Result<Header, E>)
      modifies this
      ensures match DecodeHeader(tolerance, old(rest))
              case Failure(_) => r == Failure(failure)
              case Success((h, used)) => r == Success(h) && rest == old(rest)[used..]
    {
      match DecodeHeader(tolerance, rest) {
        case Failure(_) => r := Failure(failure);
        case Success((h, used)) =>
          rest := rest[used..];
          r := Success(h);
      }
    }

    method TakeString() returns (r: Result<Str, E>)
      modifies this
      ensures match DecodeString(tolerance, old(rest))
              case Failure(_) => r == Failure(failure)
              case Success((s, left)) => r == Success(s) && rest == left
      ensures r.Success? ==> |rest| <= |old(rest)|
    {
      var h :- TakeHeader();
      if h.list {
        return Failure(failure);
      }
      var s := rest[..h.payloadLength];
      rest := rest[h.payloadLength..];
      ghost var used := DecodeHeader(tolerance, old(rest)).value.1;
      assert s == old(rest)[used..used + h.payloadLength];
      return Success(s);
    }

    method TakeUint(width: nat) returns (r: Result<nat, E>)
      modifies this
      ensures match DecodeUint(tolerance, width, old(rest))
              case Failure(_) => r == Failure(failure)
              case Success((n, left)) => r == Success(n) && rest == left
      ensures r.Success? ==> |rest| <= |old(rest)|
      ensures r.Success? && width <= 32 ==> r.value < TWO_256
      ensures r.Success? && width <= 16 ==> r.value < TWO_128
      ensures r.Success? && width <= 8 ==> r.value < TWO_64
    {
      var s :- TakeString();
      if |s| <= width <= 32 {
        FromBEWidths(s, width);
      }
      if |s| > width || (tolerance.Strict? && s != [] && s[0] == 0) {
        return Failure(failure);
      }
      return Success(FromBE(s));
    }

    method TakeFixed(length: nat) returns (r: Result<seq<Byte>, E>)
      modifies this
      ensures match DecodeFixed(tolerance, length, old(rest))
              case Failure(_) => r == Failure(failure)
              case Success((s, left)) => r == Success(s) && |s| == length && rest == left
      ensures r.Success? ==> |rest| <= |old(rest)|
    {
      var s :- TakeString();
      if |s| != length {
        return Failure(failure);
      }
      return Success(s);
    }
  }
}
