/** What a signature binds: the sign document names one operation, and a signature has one form. */
module SignDocument {
  import opened Wrappers
  import opened Bytes
  import opened Crypto
  import opened Authorization
  import opened Canonical
  import Base64
  import Bech32

  /** Two quote-free strings, each closed by a quote, are equal if the texts they open are. */
  lemma {:induction false} FirstQuote(x: string, u: string, y: string, v: string)
    requires '"' !in x && '"' !in y
    requires u != "" && v != "" && u[0] == '"' && v[0] == '"'
    requires x + u == y + v
    ensures x == y
  {
    if x == "" || y == "" {
      assert (x + u)[0] == (y + v)[0];
    } else {
      assert (x + u)[0] == (y + v)[0];
      assert (x + u)[1..] == x[1..] + u && (y + v)[1..] == y[1..] + v;
      FirstQuote(x[1..], u, y[1..], v);
      assert x == [x[0]] + x[1..] && y == [y[0]] + y[1..];
    }
  }

  lemma SameHead(head: string, u: string, v: string)
    requires head + u == head + v
    ensures u == v
  {
    assert u == (head + u)[|head|..] && v == (head + v)[|head|..];
  }

  /** The data string can be read off the document: nothing base64 writes closes it early. */
  lemma DocumentData(data: string, signer: string, data': string, signer': string)
    requires '"' !in data && '"' !in data'
    requires Document(data, signer) == Document(data', signer')
    ensures data == data'
  {
    var u := DOCUMENT_MIDDLE + (signer + DOCUMENT_TAIL);
    var v := DOCUMENT_MIDDLE + (signer' + DOCUMENT_TAIL);
    assert u[0] == '"' && v[0] == '"';
    SameHead(DOCUMENT_HEAD, data + u, data' + v);
    FirstQuote(data, u, data', v);
  }

  /** So can the signer string: the document determines both of its parts. */
  lemma DocumentSigner(data: string, signer: string, data': string, signer': string)
    requires '"' !in data && '"' !in data' && '"' !in signer && '"' !in signer'
    requires Document(data, signer) == Document(data', signer')
    ensures data == data' && signer == signer'
  {
    DocumentData(data, signer, data', signer');
    assert DOCUMENT_TAIL[0] == '"';
    SameHead(DOCUMENT_HEAD, data + (DOCUMENT_MIDDLE + (signer + DOCUMENT_TAIL)),
             data + (DOCUMENT_MIDDLE + (signer' + DOCUMENT_TAIL)));
    SameHead(data, DOCUMENT_MIDDLE + (signer + DOCUMENT_TAIL), DOCUMENT_MIDDLE + (signer' + DOCUMENT_TAIL));
    SameHead(DOCUMENT_MIDDLE, signer + DOCUMENT_TAIL, signer' + DOCUMENT_TAIL);
    FirstQuote(signer, DOCUMENT_TAIL, signer', DOCUMENT_TAIL);
  }

  /** A document names its signer's account: the address string in it belongs to one account. */
  lemma DocumentNamesSigner(crypto: Crypto, data: string, x: Bytes20, data': string, y: Bytes20)
    requires '"' !in data && '"' !in data'
    requires Document(data, Bech32.Address(x, crypto.checksum))
          == Document(data', Bech32.Address(y, crypto.checksum))
    ensures x == y
  {
    Bech32.AddressIsQuoteFree(x, crypto.checksum);
    Bech32.AddressIsQuoteFree(y, crypto.checksum);
    DocumentSigner(data, Bech32.Address(x, crypto.checksum), data', Bech32.Address(y, crypto.checksum));
    Bech32.AddressInjective(x, y, crypto.checksum);
  }

  lemma Base64IsQuoteFree(b: seq<Byte>)
    ensures '"' !in Base64.Encode(b)
  {
    var s := Base64.Encode(b);
    forall i | 0 <= i < |s|
      ensures s[i] != '"'
    {
      assert Base64.InAlphabet(s[i]) || s[i] == '=';
    }
  }

  /** Equal sign documents are documents of one operation: all ten fields are bound, whatever the
      operations are and whichever checksum the addresses carry. */
  lemma SignBytesInjective(crypto: Crypto, x: Operation, y: Operation)
    requires SignBytes(crypto, x) == SignBytes(crypto, y)
    ensures x == y
  {
    var p, q := Payload(x), Payload(y);
    Base64IsQuoteFree(p);
    Base64IsQuoteFree(q);
    hide Document, Payload;
    DocumentData(Base64.Encode(p), Bech32.Address(x.sender, crypto.checksum),
                 Base64.Encode(q), Bech32.Address(y.sender, crypto.checksum));
    Base64.DecodeEncode(p);
    Base64.DecodeEncode(q);
    PayloadInjective(x, y);
  }

  // ---------------------------------------------------------------- verification

  /** The 33 bytes of a compressed curve point. */
  ghost predicate CompressedPoint(crypto: Crypto, key: seq<Byte>) {
    |key| == 33 && key[0] in {2, 3} && crypto.onCurve(key)
  }

  /** A compressed point whose hash is the sender. */
  ghost predicate KeyOf(crypto: Crypto, key: seq<Byte>, sender: Bytes20) {
    CompressedPoint(crypto, key) && crypto.account(key) == sender
  }

  ghost predicate InDomain(op: Operation, genesis: Bytes32) {
    op.chainId == CHAIN_ID && op.genesisHash == genesis
  }

  /** 64 bytes that are two nonzero scalars below the order, the second in its lower half. */
  ghost predicate CanonicalSignature(signature: seq<Byte>) {
    && |signature| == 64
    && 0 < FromBE(signature[..32]) < ORDER
    && 0 < FromBE(signature[32..]) && 2 * FromBE(signature[32..]) < ORDER
  }

  /** Verification succeeds for exactly the authorized operations, and returns their sender. The
      half-order comparison is the statement that twice the scalar is below the odd order. */
  lemma VerifyExact(crypto: Crypto, op: Operation, key: seq<Byte>, signature: seq<Byte>,
                    genesis: Bytes32, sender: Bytes20)
    ensures Verify(crypto, op, key, signature, genesis) == Success(sender)
       <==> && WithinLimits(op) && InDomain(op, genesis)
            && sender == op.sender && KeyOf(crypto, key, sender)
            && CanonicalSignature(signature)
            && crypto.signed(key, SignBytes(crypto, op), FromBE(signature[..32]),
                             FromBE(signature[32..]))
  {
    hide SignBytes, FromBE;
  }

  /** The accepted and the refused fall apart exactly: which of the five errors comes out, for all
      inputs. The key and the sender are judged whatever the signature is, so a signature that is no
      pair of scalars is reported only under a key of the sender. */
  lemma VerifyErrorsExact(crypto: Crypto, op: Operation, key: seq<Byte>, signature: seq<Byte>,
                          genesis: Bytes32)
    ensures var r := Verify(crypto, op, key, signature, genesis);
            && (r == Failure(Limit) <==> !WithinLimits(op))
            && (r == Failure(Domain) <==> WithinLimits(op) && !InDomain(op, genesis))
            && (r == Failure(PublicKey) <==>
                  WithinLimits(op) && InDomain(op, genesis) && !CompressedPoint(crypto, key))
            && (r == Failure(Sender) <==>
                  && WithinLimits(op) && InDomain(op, genesis)
                  && CompressedPoint(crypto, key) && crypto.account(key) != op.sender)
            && (r == Failure(Signature) <==>
                  && WithinLimits(op) && InDomain(op, genesis) && KeyOf(crypto, key, op.sender)
                  && !(CanonicalSignature(signature)
                       && crypto.signed(key, SignBytes(crypto, op), FromBE(signature[..32]),
                                        FromBE(signature[32..]))))
            && r != Failure(Encoding)
  {
    hide SignBytes, FromBE, WithinLimits;
  }

  /** The same r with the negated s, the other scalar ECDSA itself would take. */
  function Negated(signature: seq<Byte>): (s: seq<Byte>)
    requires |signature| == 64 && FromBE(signature[32..]) <= ORDER
    ensures |s| == 64
  {
    signature[..32] + FixedBE(32, ORDER - FromBE(signature[32..]))
  }

  /** Of a signature and its negation at most one is accepted: the other is refused as a
      signature, before any curve arithmetic, whatever the ECDSA check would say. */
  lemma SignatureNotMalleable(crypto: Crypto, op: Operation, key: seq<Byte>, signature: seq<Byte>,
                              genesis: Bytes32)
    requires Verify(crypto, op, key, signature, genesis).Success?
    ensures |signature| == 64 && FromBE(signature[32..]) <= ORDER
    ensures Verify(crypto, op, key, Negated(signature), genesis) == Failure(Signature)
  {
    hide SignBytes;
    var s := FromBE(signature[32..]);
    Pow256Widths();
    FromFixedBE(32, ORDER - s);
    assert Negated(signature)[..32] == signature[..32];
    assert Negated(signature)[32..] == FixedBE(32, ORDER - s);
  }
}
