# Verified model of the Cosmos authorization codec and the payload builder

This project models two parts of the `reth-cosmos-dev` node and proves what the rest of the node
relies on.

**The authorization codec.** An operation is signed as a versioned RLP list inside an ADR-036
document and travels as `0x7e || RLP([payload, key, signature])`. The model covers the encoders and
decoders of `cosmos-auth`, the client's independent encoder, the signed container, the EIP-2718
envelope, the database form, the JSON record, signer recovery and the consensus rule. The claim
behind all of them is: one operation, one byte string, one sign document.

**The payload builder.** The builder walks the pool's best transactions under gas, size and blob
budgets and decides whether the block it built is worth delivering. The model covers the loop, the
pool iterator it steers, the sealing decision and the engine API conversions of the result.

| file | models |
|---|---|
| `Wrappers.dfy`, `Bytes.dfy` | results; bytes, integer widths, big-endian numerals |
| `Rlp.dfy`, `RlpBuffers.dfy` | the RLP reader and writer of `alloy_rlp`; output vectors and input cursors |
| `Base64.dfy`, `Bech32.dfy`, `Crypto.dfy` | the text encodings of the sign document; hashes and curve checks as function values |
| `Authorization.dfy`, `AuthorizationBuffers.dfy` | the codec as functions, and as the methods that compute them over buffers |
| `Canonical.dfy`, `StrictReading.dfy`, `SignDocument.dfy`, `AminoJson.dfy` | exactness, size and injectivity of the codec; what its re-encode comparisons do; what a signature binds; the sign document as sorted JSON |
| `ClientProtocol.dfy` | the TypeScript client's tree-shaped encoder |
| `CosmosSigned.dfy`, `Envelope.dfy`, `TxType.dfy`, `Storage.dfy` | the container, the envelope, type tags, the database form |
| `Evm.dfy`, `Consensus.dfy` | payload bytes to execution environment; block authorization |
| `Builder.dfy`, `BuilderLoop.dfy` | the selection as a pure recursion, and as the loop with machine-width accumulators |
| `BuilderLaws.dfy`, `BuilderVerdicts.dfy` | what every run keeps; the cause of every verdict, stop and marked sender |
| `PayloadLaws.dfy`, `Built.dfy` | the outcome of a build and the worth of its payload; its conversions |

How it is put together:

- Functions say what is computed; methods compute it the way the source does (vectors that grow,
  slices that shrink, accumulators that wrap) and are proved equal to them. The laws are lemmas about
  the functions, for all inputs.
- Readers take a `Tolerance`. `Strict` is the reader of `alloy_rlp`; `Lax` accepts padded lengths,
  long-form lengths and padded integers. The decoders also take `recheck`, which says whether they
  encode their result again and compare; the source always does. The methods pass `true`.
- The builder's specification keeps no counters: every budget is a total over the transactions
  included so far. The loop's counters wrap at 64 bits and its fees at 256, and the proof that they
  stand for the totals is part of the loop.
- Hashes, point parsing, ECDSA, the Bech32 checksum, the executor, the blob store and Ethereum's own
  codecs are parameters about which nothing is assumed, except that an executor is honest: a
  transaction it executed covered the base fee and used no more gas than its limits
  (`Builder.Contract`).
- A Rust buffer holds at most `isize::MAX` bytes; `Bytes.Buffer` says so, and it is what keeps RLP
  length fields within 64 bits.

Where the code and its description differ, or a natural reading fails:

- An operator's blob limit is raised to at least one (`src/payload/builder.rs:237-240`), so where the
  protocol's limit is zero (a schedule of zero blobs, or no schedule) the builder itself lets a blob
  through. `PayloadLaws.RespectsProtocolExact` says for which configurations no block of any pool
  exceeds the protocol's limit, and `PayloadLaws.BlobLimitExceeded` delivers a payload that does for
  every other one. Both are about an executor that has no blob limit of its own;
  `PayloadLaws.TransactionCapSuffices` says that an executor with the protocol's limit on each
  transaction (compare `src/evm.rs:166-168`) closes the gap.
- The size budget guards transactions as they are added, so a block without any can still be too
  large, through its withdrawals. `PayloadLaws.TooLargeExact` gives the exact condition, for headers
  up to 1,015 bytes; `PayloadLaws.WithdrawalsCanBeTooLarge` gives lists of withdrawals with which no
  build delivers a payload, the empty one included.
- PROTOCOL.md says scalar constraints are checked before expensive cryptography. The code hashes the
  key and parses its curve point before it looks at the signature scalars
  (`crates/cosmos-auth/src/lib.rs:147-157`); only the ECDSA verification comes after them. The model
  follows the code, and `SignDocument.VerifyErrorsExact` states what a caller can see of that order:
  a key that is no curve point or not the sender's is what is reported, whatever the signature is.

## Model

| member | source | states |
|---|---|---|
| Rlp.HeaderByStandard | crates/cosmos-auth/src/lib.rs:216-225 | the short and the long form of a header, for strings and lists, with the bases and limits of the standard |
| Rlp.UintIsItsNumeral | crates/cosmos-auth/src/lib.rs:75-90 | the integer writer's three branches all write the shortest big-endian numeral as a string, zero as the empty one |
| Rlp.StrictHeaderIsCanonical | src/primitives/envelope.rs:221-222 | a header the strict reader accepts is the one a writer would write, so the length computed from it is the number of bytes it took |
| RlpBuffers.Writer.PutUint | crates/cosmos-auth/src/lib.rs:79-89 | an integer is appended as the string of its numeral |
| RlpBuffers.Cursor.TakeUint | crates/cosmos-auth/src/lib.rs:99-113 | a read integer fits its width and the cursor moves past exactly its encoding |
| Base64.EncodeByStandard | crates/cosmos-auth/src/lib.rs:127 | every character written is the letter of its six bits of the byte string, the last group filled up with zero bits, and `=` after that |
| Base64.DecodeEncode | crates/cosmos-auth/src/lib.rs:127 | padded base64 decodes back to its bytes for every length modulo three, by a decoder that refuses nonzero padding bits |
| Bech32.AddressByStandard | crates/cosmos-auth/src/lib.rs:170-177 | prefix, the 32 base-32 digits of the account read as a big-endian number, then the checksum of those digits |
| Bech32.AddressInjective | crates/cosmos-auth/src/lib.rs:170-177 | an address names one account: regrouping 20 bytes into 32 groups loses nothing |
| Bech32.AddressIsQuoteFree | crates/cosmos-auth/src/lib.rs:170-177 | no address contains the quote that closes its JSON string |
| AuthorizationBuffers.WriteList | crates/cosmos-auth/src/lib.rs:216-225 | a list is its header and its fields |
| AuthorizationBuffers.ReadListBody | crates/cosmos-auth/src/lib.rs:227-233 | a list body is accepted only if the list fills the slice |
| AuthorizationBuffers.WritePayload | crates/cosmos-auth/src/lib.rs:76-91 | appending the twelve fields in order writes the payload |
| AuthorizationBuffers.ReadPayload | crates/cosmos-auth/src/lib.rs:93-120 | reading field by field, encoding again and comparing computes the payload decoder |
| AuthorizationBuffers.WriteWire | crates/cosmos-auth/src/lib.rs:179-187 | appending payload, key and signature writes the wire encoding |
| AuthorizationBuffers.ReadWire | crates/cosmos-auth/src/lib.rs:189-210 | reading, encoding again and comparing computes the wire decoder, with its errors |
| Canonical.DecodePayloadOfPayload | crates/cosmos-auth/src/lib.rs:93-120 | on the payload of any operation the decoder returns that operation, or the limit error exactly when size or limits are exceeded |
| Canonical.DecodePayloadExact | crates/cosmos-auth/src/lib.rs:93-120 | for a strict and a lax reader, the accepted payloads are exactly those of operations within limits |
| Canonical.DecodeWireOfEncodeWire | crates/cosmos-auth/src/lib.rs:189-210 | on the encoding of any operation, key and signature, of any sizes, which result or error comes out |
| Canonical.DecodeWireExact | crates/cosmos-auth/src/lib.rs:189-210 | for a strict and a lax reader, the accepted byte strings are exactly the encoder's image over operations within limits, 33-byte keys and 64-byte signatures |
| Canonical.WireWithinSizeLimit | crates/cosmos-auth/src/lib.rs:15-16 | every operation within limits encodes to at most 33,066 bytes, below the raw size limit, so no size gate refuses it |
| Canonical.SizeBoundAttained | crates/cosmos-auth/src/lib.rs:15-16 | an operation within limits attains 33,066 bytes |
| Canonical.PayloadInjective | crates/cosmos-auth/src/lib.rs:76-91 | equal payloads are payloads of one operation, within limits or not |
| Canonical.EncodeWireInjective | crates/cosmos-auth/src/lib.rs:179-187 | equal wire encodings have equal operation, key and signature, whatever the sizes |
| StrictReading.PayloadRecheckRedundant | crates/cosmos-auth/src/lib.rs:115-117 | with a strict reader the payload comparison never changes the result |
| StrictReading.RecheckRedundantWhenStrict | crates/cosmos-auth/src/lib.rs:206-208 | with a strict reader both comparisons together never change the result, errors included |
| StrictReading.LaxReaderNeedsRecheck | crates/cosmos-auth/src/lib.rs:206-208 | with a lax reader every authorization has a second byte string that is accepted without the comparisons and refused with them |
| StrictReading.LaxPayloadNeedsRecheck | crates/cosmos-auth/src/lib.rs:115-117 | with a lax reader every operation within limits has a second payload that is accepted without the payload comparison and refused with it |
| AminoJson.DocumentIsSortedJson | crates/cosmos-auth/src/lib.rs:122-131 | the signed text is the whitespace-free JSON of the document's tree, whose keys ascend |
| SignDocument.SignBytesInjective | crates/cosmos-auth/src/lib.rs:123-131 | equal sign documents force all ten fields equal, over all operations |
| SignDocument.DocumentNamesSigner | crates/cosmos-auth/src/lib.rs:123-131 | equal documents name one signing account |
| SignDocument.VerifyExact | crates/cosmos-auth/src/lib.rs:137-168 | verification succeeds, with the signed sender, exactly for operations within limits and domain, a compressed key of that sender and a low-S signature that ECDSA accepts |
| SignDocument.VerifyErrorsExact | crates/cosmos-auth/src/lib.rs:137-168 | which of the five errors comes out, for all inputs: limits, domain, key, sender and signature are judged in that order, the signature's scalars last |
| SignDocument.SignatureNotMalleable | crates/cosmos-auth/src/lib.rs:151-154 | when (r, s) is accepted, (r, n - s) is refused as a signature |
| ClientProtocol.PayloadsAgree | client/src/protocol.ts:49-70 | on operations both sides can write, the client encodes exactly those within the node's limits, byte for byte as the node |
| ClientProtocol.ClientPayloadExact | client/src/protocol.ts:37-70 | over unbounded integers and byte strings the client succeeds exactly when every field fits its width and the node's limits hold |
| ClientProtocol.ClientRawDecodes | client/src/protocol.ts:105-106 | the client's raw transaction is the one byte string the node decodes to the client's operation, key and signature |
| Cosmos.NewExact | src/primitives/cosmos.rs:17-42 | the constructor fails only on limits and lengths, its own decoding never; its result is valid and holds what it was given |
| Cosmos.ValidIsNew | src/primitives/cosmos.rs:8-15 | the valid containers, whose cached bytes and hash are those of their fields, are exactly the constructor's results |
| Cosmos.NewAfterDecode | src/primitives/envelope.rs:229-236 | after decoding succeeds, the second validation cannot fail and the cached bytes are the decoded ones |
| Cosmos.ScalarsRoundTrip | src/primitives/cosmos.rs:34-38 | 64 signature bytes survive the two 256-bit integers |
| Cosmos.VerifyTxExact | src/primitives/cosmos.rs:58-66 | a container verifies, as its sender's, if and only if its scalars are a low-S signature of its sign document that ECDSA accepts under a key of the sender, within limits and for this chain and genesis |
| Cosmos.DeserializeExact | src/primitives/cosmos.rs:81-114 | the accepted JSON records are exactly those valid containers write, field by field, each read back as its writer |
| Envelopes.TipExact | src/payload/builder.rs:350 | a tip is defined when the base fee is covered, and is the lesser of the priority fee and what the fee cap leaves |
| Envelopes.PriceCapped | src/primitives/cosmos.rs:156-162 | a sender never pays more than the fee cap, and exactly that under a higher base fee |
| Envelopes.PriceSplits | src/primitives/cosmos.rs:156-162 | once the base fee is covered, the effective price is base fee plus effective tip |
| Envelopes.LengthExact | src/primitives/envelope.rs:244-251 | the reported network length is the length of the network encoding |
| Envelopes.NetworkFramesTyped | src/primitives/envelope.rs:244-251 | a typed transaction travels as one RLP string, which a strict reader takes off the front of anything that follows |
| Envelopes.TypedDecodeExact | src/primitives/envelope.rs:215-239 | a Cosmos transaction comes out of the front of a buffer if and only if the buffer is its bytes and then what is left |
| Envelopes.TypedErrorsExact | src/primitives/envelope.rs:215-239 | which error a failed decoding returns; the encoding error means that the framed bytes are no valid transaction's |
| Envelopes.DecodeManyOfConcat | src/primitives/envelope.rs:215-239 | any concatenation of Cosmos transactions, followed by anything, decodes to those transactions in order and leaves what follows |
| Envelopes.ReadTyped | src/primitives/envelope.rs:215-239 | the probing decoder returns the transaction and moves the slice past it; when it fails it returns the decoder's error and leaves the slice alone |
| TxTypes.ToCompact | src/primitives/tx_type.rs:72-79 | the identifier returned and the byte pushed are the type's tag |
| TxTypes.TagExact | src/primitives/tx_type.rs:71-91 | a tag followed by anything reads back as its type and what follows; which other inputs a two-bit identifier accepts |
| Storage.ToTxCompact | src/primitives/storage.rs:12-26 | header, payload and key are appended as one list |
| Storage.ReadTxCompact | src/primitives/storage.rs:30-57 | the reader with its assertions, each a distinct panic |
| Storage.StorageExact | src/primitives/storage.rs:11-57 | reading panics on everything but the body of a valid transaction with its own signature, and from that returns the identical transaction and the rest |
| Storage.StoredRoundTrip | src/primitives/storage.rs:11-57 | tag, body and detached signature, followed by anything, read back as the transaction and what followed |
| Execution.ConvertExact | src/evm.rs:230-243 | payload bytes of type 0x7e convert, by any recovery method, exactly when they are the bytes of a valid transaction that is signed by its sender (low-S, ECDSA included), and the signer is that sender |
| Execution.ConvertEthereum | src/evm.rs:230-243 | all other payload bytes convert exactly when the Ethereum decoder of their type takes them whole and the Ethereum recovery of the same path names the signer |
| Execution.PayloadExecutesWhatWasSigned | src/evm.rs:69-95 | after conversion the caller assertion holds and the environment carries the fields of the one operation the bytes encode, and ECDSA accepts the signature of that operation's sign document under a key of the caller |
| Consensus.VerifyAuthorizations | src/consensus.rs:20-31 | a block passes if and only if the genesis matches and every Cosmos member is signed by its sender, ECDSA included |
| BuilderLoop.BestTransactions.Next | src/payload/builder.rs:250 | the next yielded transaction is the first whose sender is not marked, passing over blobs once they are skipped |
| BuilderLoop.Tally.Add | src/payload/builder.rs:393-412 | the new accumulators, each wrapped to its width, still stand for the totals over the included transactions |
| BuilderLoop.Tally.CountersExact | src/payload/builder.rs:251-267 | within budget the counters have not wrapped and the saturating subtractions do not saturate |
| BuilderLoop.RunTransaction | src/payload/builder.rs:350-391 | execution's result becomes inclusion, rejection, a nonce skip or an error, and only an executed transaction changes the block |
| BuilderLoop.Assess | src/payload/builder.rs:251-391 | the checks of one iteration, in order, compute the verdict of the specification |
| BuilderLoop.Finish | src/payload/builder.rs:415-484 | the final decision: abort, error or a better payload |
| BuilderLoop.DefaultEthereumPayload | src/payload/builder.rs:128-484 | for every pool and every honest executor the loop terminates with the outcome of the pure selection, a failed setup included |
| BuilderLaws.GreedyKeeps | src/payload/builder.rs:250-413 | gas, blob and size budgets hold from any state of the run on, every included transaction covers the base fee and has its tip and the right sidecar |
| BuilderLaws.FeesConserved | src/payload/builder.rs:350-406 | the gas the senders pay is base fee times gas used plus the accumulated fees |
| BuilderLaws.FeesNeverWrap | src/payload/builder.rs:405 | fewer than 2^64 transactions never wrap the 256-bit fees, in any fork; outside Amsterdam the fees stay below 2^192 |
| BuilderLaws.LogAccountsForBlock | src/payload/builder.rs:250-413 | every yielded transaction is included, rejected or skipped for its nonce, and the block holds exactly the included ones |
| BuilderLaws.BlockFollowsPool | src/payload/builder.rs:250-413 | the included transactions are a subsequence of pool order |
| BuilderLaws.RejectionEndsSender | src/payload/builder.rs:269-278 | after a rejection for anything but a low nonce, no later transaction of that sender is yielded, let alone included |
| BuilderLaws.FullBlobsEndBlobs | src/payload/builder.rs:393-399 | once a blob transaction fills the blob limit, no blob transaction is yielded |
| BuilderVerdicts.MaxBlobsExact | src/payload/builder.rs:231-240 | what the effective blob limit admits: what the schedule in force allows, under an operator's limit no more than that, but always one blob |
| BuilderVerdicts.JudgeExact | src/payload/builder.rs:251-391 | a transaction gets a verdict if and only if the verdict's own conditions hold: the budgets written out, the cancellation, the sidecar and the execution result |
| BuilderVerdicts.VerdictsJustified | src/payload/builder.rs:250-413 | every verdict of a run is explained by the block and the number of cancellation checks as they stood when it was given; the finished block replays, each transaction having executed on top of exactly the ones before it |
| BuilderVerdicts.StopsForCause | src/payload/builder.rs:280-282 | a run ends early only for a transaction of the pool met on top of the final block: cancelled when asked, a failing blob store, a fatal execution; every event but a gas rejection asked once |
| BuilderVerdicts.MarkedForCause | src/payload/builder.rs:269-278 | a sender is marked only if one of its transactions was rejected, or blobs are skipped and it sends some |
| BuilderVerdicts.RejectedIsMarked | src/payload/builder.rs:269-278 | a rejected sender is marked when the run ends |
| BuilderVerdicts.SkippingMeansFull | src/payload/builder.rs:393-399 | blobs are skipped only when the block holds exactly the limit |
| BuilderVerdicts.NobodyForgotten | src/payload/builder.rs:250-413 | when a run finishes, every pool transaction was yielded, or its sender had one rejected, or the block is full of blobs and the sender sends some |
| BuilderVerdicts.RejectionsStand | src/payload/builder.rs:251-318 | what the gas, size or blob budget turned away has no room on top of the finished block either |
| PayloadLaws.BlockFits | src/payload/builder.rs:286-300 | under Osaka, with a transaction included and a header of at most 1,015 bytes, the whole nested block is within the size limit |
| PayloadLaws.HeaderRoomIsTight | src/payload/builder.rs:286-300 | for a full block of at least 64 KiB of transactions, 1,015 is the exact bound |
| PayloadLaws.BlockLengthExact | src/payload/builder.rs:468-473 | the compared length is the length of the block's bytes |
| PayloadLaws.TooLargeOnlyIfEmpty | src/payload/builder.rs:468-473 | the final size error needs a block without transactions or a header over 1,015 bytes |
| PayloadLaws.TooLargeExact | src/payload/builder.rs:468-473 | a sealed block with a header of at most 1,015 bytes is too large if and only if, under Osaka, header and withdrawals alone are, and then it is empty |
| PayloadLaws.WithdrawalsCanBeTooLarge | src/payload/builder.rs:468-473 | under Osaka, with 335,545 to 2^32 copies of a 25-byte withdrawal no build of any pool delivers a payload, and the empty build fails with the size error |
| PayloadLaws.SidecarsComplete | src/payload/builder.rs:302-348 | one sidecar per included blob transaction, in order, each the one the store holds for it |
| PayloadLaws.BundleComplete | src/payload/builder.rs:410-412 | the collection is of the fork's kind and drops no sidecar |
| PayloadLaws.BetterPayload | src/payload/builder.rs:462-483 | a delivered payload holds the block's transactions, sidecars and fees, the sealed header and access list, and the requests from Prague on; its fees exceed the best payload's |
| PayloadLaws.ConversionsOfBuilt | src/payload/built.rs:74-171 | a delivered payload converts to exactly the versions of its fork (both, without blobs), with the store's sidecars, its requests and its access list |
| PayloadLaws.ReportedFees | src/payload/builder.rs:477-483 | in every fork the reported fees are what senders pay beyond the burned base fee |
| PayloadLaws.EmptyBuildExact | src/payload/builder.rs:101-124 | the empty build never lacks its payload: only a setup stage, sealing or the size check fails it, each with its own error |
| PayloadLaws.OutcomeExact | src/payload/builder.rs:415-484 | every outcome of a build with its exact condition; a finished block is given up if and only if its fees do not exceed the best payload's |
| PayloadLaws.BestWins | src/payload/builder.rs:415-421 | after any series of builds the best payload is worth at least what each build would have delivered on its own |
| PayloadLaws.FeesOnlyImprove | src/payload/builder.rs:415-421 | over any series of builds the payloads replacing one another have strictly increasing fees |
| PayloadLaws.BlobLimitRespectsProtocol | src/payload/builder.rs:231-240 | the effective blob limit is within the protocol's exactly when no operator limit is set or the protocol allows a blob |
| PayloadLaws.BlobsWithinProtocol | src/payload/builder.rs:231-240 | in those cases every block is within the protocol's limit |
| PayloadLaws.RespectsProtocolExact | src/payload/builder.rs:231-240 | no block of any pool under any honest executor exceeds the protocol's blob limit, if and only if no operator limit is set, the protocol allows a blob, or withdrawals leave no room for a blob transaction |
| PayloadLaws.BlobLimitExceeded | src/payload/builder.rs:231-240 | for every other configuration a payload above the protocol's limit is delivered |
| PayloadLaws.TransactionCapSuffices | src/payload/builder.rs:231-240 | under an executor with the protocol's limit on each transaction every block keeps it, whatever the operator's limit |

## Left out

- SHA-256, RIPEMD-160, Keccak-256, curve arithmetic, ECDSA and the Bech32 checksum polynomial: parameters, with no claim about collisions or forgeries.
- JSON escaping and parsing: the strings of the sign document need no escaping, and the RPC form is a record.
- Ethereum transaction encodings, recovery and storage: data and parameters of the model.
- The compact envelope's flag byte and compression around the stored tag and body: upstream code.
- Network decoding of the envelope: upstream code over the typed decoder modelled here.
- EVM execution, state roots and the three ways of obtaining one, caches, hooks and logging: sealing is one function of the executed transactions, and execution one of what was executed before.
- Pool internals, RPC, node wiring, and the environment set-up in `src/evm.rs`: delegation. That a build's own setup can fail is modelled, what it sets up is not.
- The receipt builder, the missing-payload switch and the remaining engine conversions: they copy fields.
- PayloadLaws.ReportedFees: under Amsterdam it takes a pool of fewer than 2^64 transactions, since total gas used is not itself budgeted there; no memory holds a larger one.
- BuilderLoop.Tally.CountersExact: covers the counters the gas check of the active fork reads; the others wrap in the model as they do in a release build. Blob counts and lengths are unbounded in the model.
- BuilderLoop.BestTransactions.Next: walks a fixed list; the source's iterator may also yield transactions that reach the pool while the builder runs.
