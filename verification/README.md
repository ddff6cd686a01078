# Proofs about the Go sources of ssbc

A Dafny model of seven parts of the repository, with proofs of what they are for. The algorithms that work in place
are methods over arrays and classes, proved against functions that say in mathematics what they compute; the laws
that relate several functions, and what holds over whole runs, are lemmas about these functions.

| part | files | source |
|---|---|---|
| Ed25519 arithmetic | `Scalars`, `Field`, `FieldBytes`, `FieldOps`, `Points`, `PointBytes`, `Groups`, `Recoding`, `ScalarMult` | `crypto/ed25519/internal/edwards25519` |
| RLP codec | `Rlp`, `RlpEncode`, `RlpDecode`, `RlpRaw` | `crypto/rlp` |
| block agreement | `Agreement`, `AgreementRuns`, `AgreementTrans`, `AgreementNode` | `lib/net`, `common/block.go` |
| DER builder and reader | `Der`, `DerBuilder`, `DerReader` | `crypto/cryptobyte` |
| MySQL packets | `MySqlPackets`, `MySqlBuffer` | `lib/go-sql-driver/mysql` |
| Merkle trees | `Merkle`, `MerkleTree` | `common/merkle_tree.go`, `lib/net/blockhandler.go` |
| RC2 | `Rc2`, `Rc2Vectors` | `crypto/pkcs12/internal/rc2` |

`Bits`, `Words`, `BigEndians`, `Sequences` and `Results` hold what several parts share. `dafny verify dfyconfig.toml` checks everything.

How to read the models:

- Machine words are unbounded integers. Where the source must not overflow, every intermediate value passes through
  a function such as `Int64` whose precondition says that it fits; where it wraps, the model reduces explicitly.
  Specifications write the or-ing of disjoint bits and masking as sums and remainders; the methods `LoadThree`,
  `LoadFour`, `OrShifted` and `Masked21` of `Bits`, which the Ed25519 code calls, compute with the bitwise operators
  and are proved to give these. `Words` does the same for the branch-free tests and moves on an int32.
  `Rc2Vectors` follows one key and block through literal words, on which bit vectors give the same as `BitAnd` and `Xor`.
- `Range(limbs, n)` says that field limbs are within n/20 of 2^25 and 2^24. The bound 66 for the inputs of `FeMul`
  and the squarings is the 1.65 that the point formulas need; the comments in the source say 1.1.
- The scalar multiplications work in any abelian group. The tables `bi` and `base` are parameters that are required
  to hold the multiples they are meant to hold.
- The agreement protocol is a state machine. A step handles one broadcast at one node, together with the goroutine it
  starts; broadcasts may be lost or overtake each other, and reach a node at most once. `AgreementNode` has the
  handlers as methods on the fields they update, proved to make exactly these steps.
- A builder's continuations are trees of what they write. A network takes or delivers bytes in pieces of any size
  and can fail.

Where the code differs from what its comments or its design promise:

- `slide` drops the carry out of the top digit, so that a scalar that does not fit in the sliding windows loses 2^256
  (`Recoding.Slide`). The result of `GeDoubleScalarMultVartime` is right exactly when what both scalars lose, times
  their points, adds up to zero (`ScalarMult.ExactlyWhen`). A top byte of at most 127 is enough to lose nothing;
  2^255 + 2^251 loses 2^256 (`Recoding.SlideFallsShort`).
- Elements of 2^32 - 6 to 2^32 - 2 bytes of content can be built but not read (`Der.LongestRefused`).
- `writePacket` asks for a retry on another connection when the network fails between two chunks, although the
  comment says that nothing was written then. It is true of payloads of one chunk only
  (`MySqlPackets.NoWriteWrittenNothing`).
- A second flip of the double buffer before the first one was carried out by a fill leads back to the buffer in use.
  Whether slices in it are safe from the next fill depends on that alone: a flip leads away from the buffer in use if
  and only if the last one was carried out (`MySqlBuffer.Buffer.Flip`). If it was, reads leave the buffer alone
  (`MySqlBuffer.Buffer.ReadAfterFlip`); if not, every successful read that needs a fill within the size of the buffer
  overwrites it (`MySqlBuffer.Buffer.ReadAfterUnsettledFlip`, `MySqlBuffer.Buffer.ReadAcrossFlips`).
- A fill that fails has lost the bytes that it had read, since the length is not updated. The stream of a
  later read lacks exactly these, so that it is a continuation if and only if there were none. When the network did
  not fail but came to its end too early, all that was still to come is lost (`MySqlBuffer.Buffer.Fill`).
  `MySqlBuffer.Buffer.Run` therefore ends at the first failed read.
- `writeCommandLongData` delivers a nonempty argument only if `maxAllowedPacket` is more than 8
  (`MySqlPackets.DataArrives`, `MySqlPackets.LoopEnds`). At 8 a turn of its loop changes nothing, and it sends commands
  without data for as long as the network takes them (`MySqlPackets.SendingWithoutData`); below that it sends at most
  a piece of a command and panics (`MySqlPackets.SendingPanics`).
- `VerifyContent` compares neither with the recorded root of the tree nor a node's hash with its children's recorded
  hashes, contrary to its comment: the recorded hashes of a node and its grandchildren decide
  (`MerkleTree.Tree.VerifyContent`). What is documented is never missed, and a leaf that verifies is as documented if
  and only if the left-out comparisons hold (`MerkleTree.Tree.WhenVerifyContentIsRight`), as they do in a tree as
  built. A tree with any wrong root recorded verifies its first leaf (`MerkleTree.WrongRootVerifies`).
- With a single node the gates of the agreement protocol never open, since the first entry of a collection is put in
  without the test for completeness: no run of one node proposes, votes or stores
  (`AgreementRuns.SingleNodeStuck`). Two nodes are enough for runs in which all nodes store any number of blocks
  (`AgreementRuns.EveryHeight`, `AgreementRuns.TwoNodesNeeded`).
- The set of transactions that `receiveTran` calls common is the union of what the nodes announced. It is what they have
  in common if and only if all announced the same (`AgreementTrans.UnionIsCommon`, `AgreementTrans.UnionIsMore`).

## Model

| member | source | states |
|---|---|---|
| Scalars.ScMulAdd | crypto/ed25519/internal/edwards25519/edwards25519.go:1026-1449 | For all 32-byte a, b and c the output is exactly (a b + c) mod L, canonical; no int64 intermediate overflows; s may be any of the inputs |
| Scalars.ScReduce | crypto/ed25519/internal/edwards25519/edwards25519.go:1457-1773 | For all 64-byte s the output is exactly s mod L, canonical; no int64 intermediate overflows |
| Scalars.MultiplyAdd | crypto/ed25519/internal/edwards25519/edwards25519.go:1065-1088 | The 23 column sums make up a b + c, and no product and no partial sum on the way overflows an int64 |
| Scalars.ScMinimal | crypto/ed25519/internal/edwards25519/edwards25519.go:1780-1793 | True if and only if the scalar is below the group order, so every output of ScMulAdd and ScReduce passes (RFC 8032, section 5.1.7) |
| Scalars.LastPasses | crypto/ed25519/internal/edwards25519/edwards25519.go:1654-1740 | The last two folding passes leave the residue modulo L between 0 and L - 1, in twelve limbs of 21 bits |
| Field.FeCombine | crypto/ed25519/internal/edwards25519/edwards25519.go:260-347 | Keeps the value modulo 2^255 - 19 and brings int64 columns down to limbs within 1.1 of 2^25 and 2^24; no intermediate overflows |
| Field.FeMul | crypto/ed25519/internal/edwards25519/edwards25519.go:376-427 | h is f g modulo 2^255 - 19, for limbs up to 1.65 of 2^26 and 2^25, with reduced limbs and without int32 or int64 overflow; h may be f or g |
| Field.MulColumns | crypto/ed25519/internal/edwards25519/edwards25519.go:377-425 | The ten column sums make up the product of the values modulo 2^255 - 19, and each fits in an int64 |
| Field.FeSquare | crypto/ed25519/internal/edwards25519/edwards25519.go:475-478 | h is f^2 modulo 2^255 - 19 under the bounds of FeMul; h may be f |
| Field.FeSquare2 | crypto/ed25519/internal/edwards25519/edwards25519.go:490-505 | h is 2 f^2 modulo 2^255 - 19 under the same bounds: doubling the columns does not overflow either; h may be f |
| FieldBytes.FeFromBytes | crypto/ed25519/internal/edwards25519/edwards25519.go:94-130 | The value is that of the 32 bytes with the top bit ignored, and the limbs are reduced |
| FieldBytes.FeToBytes | crypto/ed25519/internal/edwards25519/edwards25519.go:132-219 | Writes the unique representative in [0, 2^255 - 19), for limbs up to 1.1 of 2^26 and 2^25, and leaves h with that value |
| FieldBytes.QuotientIsExact | crypto/ed25519/internal/edwards25519/edwards25519.go:135-147 | The estimated quotient q is exactly h divided by 2^255 - 19, rounded down |
| FieldBytes.FeIsNegative | crypto/ed25519/internal/edwards25519/edwards25519.go:221-225 | The lowest bit of the canonical representative |
| FieldBytes.RoundTrip | crypto/ed25519/internal/edwards25519/edwards25519.go:94-219 | FeFromBytes followed by FeToBytes returns the bytes, top bit cleared, if and only if they encode a number below 2^255 - 19 |
| FieldBytes.LoadStore | crypto/ed25519/internal/edwards25519/edwards25519.go:94-219 | Loading and storing writes the residue modulo 2^255 - 19 of the low 255 bits, which is the source itself with its top bit cleared if and only if that is canonical |
| Bits.LoadThree | crypto/ed25519/internal/edwards25519/edwards25519.go:77-83 | Or-ing the shifted bytes gives the little-endian value of the three bytes |
| Bits.LoadFour | crypto/ed25519/internal/edwards25519/edwards25519.go:85-92 | The same for four bytes |
| FieldOps.FeAdd | crypto/ed25519/internal/edwards25519/edwards25519.go:29-40 | Adds values and bounds; dst may be a or b |
| FieldOps.FeSub | crypto/ed25519/internal/edwards25519/edwards25519.go:42-53 | Subtracts values and adds bounds; dst may be a or b |
| FieldOps.FeNeg | crypto/ed25519/internal/edwards25519/edwards25519.go:247-258 | Negates the value within the same bounds |
| FieldOps.FeCMove | crypto/ed25519/internal/edwards25519/edwards25519.go:63-75 | f becomes g if b is 1 and stays as it is if b is 0; f may be g |
| FieldOps.FeInvert | crypto/ed25519/internal/edwards25519/edwards25519.go:507-560 | The chain of 254 squarings and 11 products computes exactly z^(p - 2) for p = 2^255 - 19; out may be z |
| FieldOps.FePow22523 | crypto/ed25519/internal/edwards25519/edwards25519.go:562-614 | The chain computes exactly z^((p - 5) / 8); out may be z |
| FieldOps.TwoHundredFiftyOnes | crypto/ed25519/internal/edwards25519/edwards25519.go:527-557 | The middle of both chains takes an exponent of 50 binary ones to one of 250 |
| FieldOps.InverseByFermat | crypto/ed25519/internal/edwards25519/edwards25519.go:507-560 | Given Fermat's little theorem for z, what FeInvert computes is the inverse of z |
| Points.CurveConstants | crypto/ed25519/internal/edwards25519/const.go:10-18 | 121666 d = -121665, and the limbs of d2 are 2 d, modulo 2^255 - 19 |
| Points.SumIsSum | crypto/ed25519/internal/edwards25519/edwards25519.go:783-797 | The coordinates that geAdd computes satisfy the cross-multiplied addition law of RFC 8032, section 5.1.4, for all extended points, and their denominators are those of the law |
| Points.DoubledIsSum | crypto/ed25519/internal/edwards25519/edwards25519.go:658-670 | The coordinates that Double computes are those of the sum of the point with itself, for points on the curve |
| Points.JoinedIsExtended | crypto/ed25519/internal/edwards25519/edwards25519.go:770-775 | ToExtended gives an extended point, X Y = Z T, and the same affine point |
| Points.GeAdd | crypto/ed25519/internal/edwards25519/edwards25519.go:783-797 | r holds the sum, by the addition law, in limbs that the next operation accepts |
| Points.GeSub | crypto/ed25519/internal/edwards25519/edwards25519.go:799-813 | r holds the sum with the negated second point |
| Points.GeMixedAdd | crypto/ed25519/internal/edwards25519/edwards25519.go:815-828 | r holds the sum with a precomputed point |
| Points.GeMixedSub | crypto/ed25519/internal/edwards25519/edwards25519.go:830-843 | r holds the sum with a negated precomputed point |
| Points.ProjectiveGroupElement.Double | crypto/ed25519/internal/edwards25519/edwards25519.go:658-670 | r holds the doubled point; on the curve that is the sum of the point with itself |
| Points.ExtendedGroupElement.Double | crypto/ed25519/internal/edwards25519/edwards25519.go:689-693 | The same for extended coordinates |
| Points.ExtendedGroupElement.ToCached | crypto/ed25519/internal/edwards25519/edwards25519.go:695-700 | Y + X, Y - X, Z and 2 d T, with bounds that geAdd accepts |
| Points.CompletedGroupElement.ToExtended | crypto/ed25519/internal/edwards25519/edwards25519.go:770-775 | The same point in extended coordinates with X Y = Z T |
| Points.CompletedGroupElement.ToProjective | crypto/ed25519/internal/edwards25519/edwards25519.go:764-768 | The same affine point in projective coordinates |
| Points.PreComputedGroupElement.CMove | crypto/ed25519/internal/edwards25519/edwards25519.go:943-947 | The limbs of the other point if b is 1, else nothing changes: the point held is the chosen one |
| Points.PreComputedGroupElement.Negate | crypto/ed25519/internal/edwards25519/edwards25519.go:958-961 | Exchanging the two sums and negating the third field gives the negated point |
| Points.SelectPoint | crypto/ed25519/internal/edwards25519/edwards25519.go:949-962 | On limbs, with a row that stands for x, 2 x, ..., 8 x in an abelian group, the eight conditional moves and the last negation leave t with a point that stands for b x: entry b - 1 of the row, the negated entry -b - 1, or the neutral element |
| Points.NegatedIsInverse | crypto/ed25519/internal/edwards25519/edwards25519.go:958-961 | Whatever is the sum of a point of the curve and its negative, by the cross-multiplied law, has x 0 and y 1: it is the neutral element |
| PointBytes.ToBytes | crypto/ed25519/internal/edwards25519/edwards25519.go:672-680 | The 32 bytes are y Z^(p - 2) modulo p with the lowest bit of x Z^(p - 2) above it (RFC 8032, section 5.1.2) |
| PointBytes.ProjectiveToBytes | crypto/ed25519/internal/edwards25519/edwards25519.go:672-680 | The same for a projective point |
| PointBytes.ExtendedToBytes | crypto/ed25519/internal/edwards25519/edwards25519.go:708-716 | The same for an extended point |
| PointBytes.EncodingIsInjective | crypto/ed25519/internal/edwards25519/edwards25519.go:672-716 | Points of the curve have the same encoding if and only if they are the same affine point, whatever their coordinates, for Z other than 0 |
| PointBytes.SignDeterminesX | crypto/ed25519/internal/edwards25519/edwards25519.go:672-680 | On the curve, y and the lowest bit of x determine x |
| Recoding.CarryFrom | crypto/ed25519/internal/edwards25519/edwards25519.go:859-865 | Adding 1 to a digit, carrying upwards, adds its weight to the value, less 2^256 if the carry runs past the top |
| Recoding.SlideAt | crypto/ed25519/internal/edwards25519/edwards25519.go:852-870 | The loop over b for one nonzero digit keeps the value and leaves an odd digit within 15 with zeros behind it |
| Recoding.Slide | crypto/ed25519/internal/edwards25519/edwards25519.go:845-873 | Every nonzero digit is odd and within 15, and the digits have the value of a, less 2^256 exactly when a does not fit |
| Recoding.TopByteFits | crypto/ed25519/internal/edwards25519/edwards25519.go:845-873 | A top byte of at most 127 is enough to fit |
| Recoding.HalfFits | crypto/ed25519/internal/edwards25519/edwards25519.go:845-873 | Numbers up to half of the range fit in general |
| Recoding.SlideFallsShort | crypto/ed25519/internal/edwards25519/edwards25519.go:845-873 | 2^255 + 2^251 does not fit: the carry out of the top digit is dropped |
| Recoding.RadixSixteen | crypto/ed25519/internal/edwards25519/edwards25519.go:970-987 | The signed radix-16 digits are all in [-8, 8] and have the value of a, when a[31] is at most 127 |
| Recoding.CarryDigit | crypto/ed25519/internal/edwards25519/edwards25519.go:981-986 | One carry keeps the value of its two digits and leaves a carry of 0 or 1 |
| ScalarMult.OddTable | crypto/ed25519/internal/edwards25519/edwards25519.go:884-895 | In every abelian group, entry i of the table is (2 i + 1) A |
| ScalarMult.Evaluate | crypto/ed25519/internal/edwards25519/edwards25519.go:897-928 | Skipping leading zeros, doubling and adding table entries sums the digits of both scalars, in every abelian group |
| ScalarMult.GeDoubleScalarMultVartime | crypto/ed25519/internal/edwards25519/edwards25519.go:879-928 | The result is u A + v B for the values u and v of the recoded scalars; it is a A + b B if and only if what the scalars lose, times their points, adds up to zero, and so when both top bytes are at most 127 |
| ScalarMult.ExactlyWhen | crypto/ed25519/internal/edwards25519/edwards25519.go:879-928 | For any two scalars, the combination of the recoded values is the combination of the scalars if and only if the multiples by 2^256 of the points whose scalars do not fit add up to zero |
| ScalarMult.SelectPoint | crypto/ed25519/internal/edwards25519/edwards25519.go:949-962 | The conditional moves and the negation select exactly d times the point of the row, for -8 <= d <= 8 |
| Words.Equal | crypto/ed25519/internal/edwards25519/edwards25519.go:932-937 | The exclusive-or, less 1, shifted down, is 1 exactly for equal numbers |
| Words.Negative | crypto/ed25519/internal/edwards25519/edwards25519.go:939-941 | The shifted and masked word is the sign of every int32 |
| Words.Absolute | crypto/ed25519/internal/edwards25519/edwards25519.go:949-951 | The masked subtraction gives the absolute value without overflow |
| Words.Moved | crypto/ed25519/internal/edwards25519/edwards25519.go:63-75 | The masks of FeCMove replace an int32 exactly when b is 1 |
| ScalarMult.HalvesMakeValue | crypto/ed25519/internal/edwards25519/edwards25519.go:992-1013 | Even digits and 16 times the odd digits make up the recoded value |
| ScalarMult.GeScalarMultBase | crypto/ed25519/internal/edwards25519/edwards25519.go:970-1014 | The odd pass, four doublings and the even pass sum to a B in every abelian group, when a[31] is at most 127 |
| Rlp.ParseEncode | crypto/rlp/decode.go:841-927 | Decoding the encoding of any nested item returns the item and stops at its end, whatever follows (Yellow Paper, appendix B) |
| Rlp.EncodeParse | crypto/rlp/decode.go:841-927 | Whatever is accepted re-encodes to exactly the bytes it was read from |
| Rlp.PrefixFree | crypto/rlp/encode.go:147-181 | No encoding is a proper prefix of another, and different items have different encodings |
| Rlp.KnownEncodings | crypto/rlp/encode.go:98-181 | The headers at the edges of their forms as literal bytes: empty, small byte, 55 and 56 bytes, a size of two bytes, for strings and lists |
| RlpEncode.IntSize | crypto/rlp/encode.go:590-596 | The least number of bytes of the integer |
| RlpEncode.HeadSize | crypto/rlp/encode.go:98-103 | The exact size of the header that PutHead writes, for strings and lists |
| RlpEncode.PutInt | crypto/rlp/encode.go:532-586 | Writes the shortest big-endian form, without leading zeros, and nothing else |
| RlpEncode.PutHead | crypto/rlp/encode.go:107-115 | Writes exactly the header of the specification |
| RlpEncode.EncBuf.EncodeStringHeader | crypto/rlp/encode.go:147-156 | Appends the header of a string of the size |
| RlpEncode.EncBuf.EncodeString | crypto/rlp/encode.go:158-166 | Appends the encoding of the string, a small single byte as itself |
| RlpEncode.EncBuf.ListEnd | crypto/rlp/encode.go:174-181 | The recorded size becomes that of the content with all inner headers |
| RlpEncode.EncBuf.EncodeItem | crypto/rlp/encode.go:138-181 | Appends the string data and the list headers of any nested item, with exact sizes |
| RlpEncode.EncBuf.WriteUint | crypto/rlp/encode.go:345-359 | Appends the encoding of the shortest byte string of the integer |
| RlpEncode.MergeItem | crypto/rlp/encode.go:187-203 | Merging the string data and headers of an item at their offsets gives its recursive encoding |
| RlpEncode.EncBuf.ToBytes | crypto/rlp/encode.go:187-203 | The returned bytes are the merged data and headers |
| RlpEncode.EncodeToBytes | crypto/rlp/encode.go:54-62 | For every nested item the result equals the recursive specification |
| RlpEncode.ToWriter | crypto/rlp/encode.go:205-227 | The writer receives the same bytes, or a prefix of them if a write fails, which is reported |
| RlpEncode.EncReader.Next | crypto/rlp/encode.go:263-294 | The next nonempty piece, which with the pieces to come makes up what remained |
| RlpEncode.EncReader.Read | crypto/rlp/encode.go:238-258 | Fills any buffer with the next bytes of the encoding, reports EOF exactly when the rest fits, and terminates |
| RlpEncode.EncodeToReader | crypto/rlp/encode.go:69-78 | The announced size is that of the encoding, and the reader delivers the encoding |
| RlpDecode.Stream.WillRead | crypto/rlp/decode.go:955-973 | Reading is refused exactly when the frame or the input limit has no room; inside a list the error is never ErrValueTooLarge; frames stay nested |
| RlpDecode.Stream.ReadUint | crypto/rlp/decode.go:903-927 | Accepts exactly the big-endian integers without leading zeros |
| RlpDecode.Stream.ReadKind | crypto/rlp/decode.go:841-901 | Reads exactly the header that the specification parses |
| RlpDecode.Stream.PeekKind | crypto/rlp/decode.go:808-839 | The header is read once and kept; a failure means that no value can be parsed here, and the error is EOF at the end of the input, EOL at the end of a list, and the size error of the list or the input when the header is good but its content has no room |
| RlpDecode.Stream.Bytes | crypto/rlp/decode.go:586-607 | Succeeds exactly on a canonical string, returns its content and consumes it |
| RlpDecode.Stream.Uint | crypto/rlp/decode.go:641-672 | Succeeds exactly on canonical integers of the width, and returns the value |
| RlpDecode.Stream.Raw | crypto/rlp/decode.go:610-632 | The rebuilt header and the content are exactly the bytes consumed |
| RlpDecode.Stream.List | crypto/rlp/decode.go:695-706 | Enters the list whose header stands there, and pushes a frame that lies within the enclosing one |
| RlpDecode.Stream.ListEnd | crypto/rlp/decode.go:711-726 | Succeeds exactly at the end of the list, and advances the enclosing frame by its size |
| RlpDecode.Stream.DecodeInterface | crypto/rlp/decode.go:462-484 | Accepts exactly what the specification parses, returns the same item and consumes its bytes, whether or not the header was read before |
| RlpDecode.Stream.DecodeListSlice | crypto/rlp/decode.go:258-270 | The same for a list whose header has been read |
| RlpDecode.Stream.DecodeSliceElems | crypto/rlp/decode.go:273-300 | Decodes elements to the end of the list exactly when all of it parses |
| RlpDecode.DecodeBytes | crypto/rlp/decode.go:72-86 | Accepts exactly the encodings of items: the result re-encodes to the input, and every encoding is decoded to its item |
| RlpDecode.UintDecodes | crypto/rlp/decode.go:641-672 | The encoding of every integer of a width decodes to that integer |
| RlpDecode.UintEncodes | crypto/rlp/decode.go:641-672 | Every accepted integer re-encodes to the bytes it was read from and fits its width |
| RlpRaw.ReadKind | crypto/rlp/raw.go:70-109 | Agrees with the specification on kind and sizes, and on what is refused |
| RlpRaw.Split | crypto/rlp/raw.go:23-29 | Content and rest of the first value, exactly when there is one |
| RlpRaw.SplitEncoding | crypto/rlp/raw.go:23-53 | An encoded item in front of anything splits into its content and what follows |
| RlpRaw.CountValues | crypto/rlp/raw.go:58-68 | Succeeds if and only if the bytes are values, one behind the other, and then with their number, which is the same for every way to cut them; a value is a small byte, or any content of a string or list under its shortest header |
| RlpRaw.CountEncodings | crypto/rlp/raw.go:58-68 | The content of an encoded list counts as many values as the list has items |
| RlpRaw.ListSize | crypto/rlp/raw.go:17-19 | The size of an encoded list with the given content size |
| Agreement.RunsKeepVoting | lib/net/byzantiumhandler.go:68-152 | In every state of every run: chains follow the proposals, round counters match the chain length, collections hold one vote of each sender, verdicts follow from complete collections, stored blocks are endorsed |
| Agreement.ChainsArePrefixes | lib/net/byzantiumhandler.go:105-152 | In every reachable state, of the chains of any two nodes one is a prefix of the other |
| Agreement.OneProposalPerHeight | lib/net/rtbitarry.go:34-89 | The leader proposes at most one block per height, at most one ahead of its chain; the counters give the number of stored blocks |
| Agreement.StoredBlocksAreVerified | lib/net/recBlockVoteRound2.go:34-94 | Behind every stored block but the first stand positive verdicts of more than 3/4 of the nodes, and positive votes of more than 3/4 of the nodes, each of which saw its own current hash as the block's previous hash |
| Agreement.OneVoteAndVerdictEach | lib/net/recBlockVoteRound1.go:36-110 | Each node sends at most one vote and at most one verdict on a block hash |
| Agreement.FirstVote | lib/net/receiveBlock.go:50-96 | A node that votes on a block has not voted on it before |
| Agreement.FirstVerdict | lib/net/recBlockVoteRound1.go:66-110 | The gate opens once: a node that completes the collection on a block has not completed one before |
| Agreement.ProposalContinues | lib/net/rtbitarry.go:62-89 | A proposal of the leader continues its chain by one, and nothing was proposed beyond it before |
| Agreement.CheckedBlockIsNext | lib/net/byzantiumhandler.go:68-79 | A block that passes the check on the previous hash is the proposal that comes next for this node |
| Agreement.VotesAtMostNodes | lib/net/recBlockVoteRound1.go:58-66 | A collection on one block never has more votes than there are nodes |
| Agreement.StoreKeepsNode | lib/net/byzantiumhandler.go:105-152 | Storing the pending block keeps the chain a prefix of the proposals and the counters in step |
| Agreement.HandleKeepsNode | lib/net/byzantiumhandler.go:68-152 | Every handler keeps the invariants of its node |
| AgreementRuns.SingleNodeStuck | lib/net/rtbitarry.go:34-89 | In every run of one node nothing is ever proposed, voted on, judged or stored |
| AgreementRuns.StoringRun | lib/net/recBlockVoteRound2.go:34-94 | For every configuration of two or more nodes there is a run at whose end a node has stored a block beyond the first one |
| AgreementRuns.EveryHeight | lib/net/byzantiumhandler.go:105-152 | For every height h and every configuration of two or more nodes there is a run at whose end every node has stored the same h blocks and is in round h mod 10 with 4000 + 200 (h / 10) transactions a block: storing goes on across the change of the big round |
| AgreementRuns.TwoNodesNeeded | lib/net/recBlockVoteRound1.go:36-110 | In some run a block, vote or verdict is sent, and in some run a block is stored, if and only if there are at least two nodes |
| AgreementTrans.TransactionsWereAnnounced | lib/net/rtbitarry.go:34-159 | In every state of every run, each transaction of a proposed block was announced by some node, and is in the block once |
| AgreementTrans.StoredWereAnnounced | lib/net/rtbitarry.go:34-159 | The same for every block that any node has stored |
| AgreementTrans.UnionIsCommon | lib/net/rtbitarry.go:60-71 | The collected set is what all announcements have in common if and only if they have the same hashes |
| AgreementTrans.UnionIsMore | lib/net/rtbitarry.go:60-71 | Two announcements for which it is not |
| AgreementNode.Server.ReceiveTran | lib/net/rtbitarry.go:34-89 | The handler makes exactly the step of the protocol model: it collects, and at the gate lists the known transactions of the collection, which is what a proposed block has |
| AgreementNode.CommonHashes | lib/net/rtbitarry.go:60-71 | The nested loops build the union of all announcements |
| AgreementNode.Server.GenerateFromCommonTx | lib/net/rtbitarry.go:124-159 | The list has every known hash of the set exactly once |
| AgreementNode.Server.Checkblock | lib/net/byzantiumhandler.go:68-79 | Exactly the check of the protocol model; reads only |
| AgreementNode.Server.ReceiveBlock | lib/net/receiveBlock.go:50-110 | Exactly the step: a block on the current hash that is not pending already becomes the pending block, and the vote is whether it is signed |
| AgreementNode.Server.Vote1 | lib/net/recBlockVoteRound1.go:36-110 | Exactly the step: the vote is put behind those of its key, and vote number `nodes`, unless it is the first, brings the verdict whether 4 times the positive votes are more than 3 times the nodes |
| AgreementNode.Server.Checks | lib/net/byzantiumhandler.go:81-93 | Exactly the test whether nothing is left to store for a hash |
| AgreementNode.Server.CheckAndStore | lib/net/byzantiumhandler.go:105-152 | Exactly the step: if the pending block has the hash and is not the current one, it ends the chain and becomes the current one, and the round goes up by one, or from 9 to 0 with 200 transactions more; else nothing changes |
| AgreementNode.Server.Vote2 | lib/net/recBlockVoteRound2.go:34-94 | Exactly the step: the chain grows by the pending block if and only if this is verdict number `nodes` on its hash and not the first, it is not the current block, and 4 times the positive verdicts are more than 3 times the nodes |
| Der.ParseBuilt | crypto/cryptobyte/asn1.go:681-751 | Reading an element in front of anything recovers tag, content and the end, for contents up to 2^32 - 7 bytes (X.690, sections 8.1.3 and 10.1) |
| Der.LongestRefused | crypto/cryptobyte/asn1.go:733-742 | The five longer contents that can be built are refused by the reader, whose 32-bit length includes the header |
| Der.BuildParsed | crypto/cryptobyte/asn1.go:681-751 | Whatever is read is the one minimal encoding of its tag and content |
| Der.ElementRead | crypto/cryptobyte/builder.go:206-282 | An element that was built around its children is read back as the bytes of the children, one behind the other |
| Der.BytesInOrder | crypto/cryptobyte/builder.go:284-299 | Trees in a row have a form if and only if both parts have, and then the forms follow each other |
| Der.PrefixedRead | crypto/cryptobyte/string.go:98-121 | The content of any trees behind a length prefix of any size is read back, and what follows is left |
| Der.PrefixedWritten | crypto/cryptobyte/builder.go:206-282 | Whatever is read behind a length prefix can be built, and its one form is what was read |
| Der.KnownElements | crypto/cryptobyte/builder.go:226-265 | The headers of elements with 127, 128 and 0x1234 bytes of content, as literal bytes |
| Der.KnownPrefix | crypto/cryptobyte/builder.go:267-275 | 0x1234 bytes behind a prefix of two bytes stand behind 12 34 |
| Der.KnownIntegers | crypto/cryptobyte/asn1.go:37-49 | The contents 7f, 00 80, 80 and ff 7f for 127, 128, -128 and -129 |
| Der.SignedRoundTrip | crypto/cryptobyte/asn1.go:37-49 | Every integer reads back from its INTEGER content, which is minimal (X.690, section 8.3) |
| Der.MinimalIsSignedBytes | crypto/cryptobyte/asn1.go:286-299 | Content that passes the check is exactly the content written for its value |
| Der.SignedLength | crypto/cryptobyte/asn1.go:331-334 | At most k bytes are written exactly for the values of 8 k bits |
| DerBuilder.Builder.Add | crypto/cryptobyte/builder.go:284-299 | Appends, and does nothing after an error |
| DerBuilder.Builder.PutLength | crypto/cryptobyte/builder.go:267-275 | Writes the low bytes of the length into the reserved place and returns what did not fit |
| DerBuilder.Builder.MakeRoom | crypto/cryptobyte/builder.go:226-265 | The content is moved up by exactly the length bytes missing, and bytes in front are left alone |
| DerBuilder.Builder.Move | crypto/cryptobyte/builder.go:257-262 | The copy inside one slice, from the end, moves the content unchanged |
| DerBuilder.Builder.FlushChild | crypto/cryptobyte/builder.go:206-282 | The parent gets the child's content behind its length, minimal for ASN.1, or an error if it does not fit |
| DerBuilder.Builder.AddLengthPrefixed | crypto/cryptobyte/builder.go:177-204 | A nested continuation adds exactly its flushed encoding, at every level |
| DerBuilder.Builder.Build | crypto/cryptobyte/asn1.go:217-228 | For every tree the builder appends the recursive encoding, or fails exactly when there is none |
| DerBuilder.Marshal | crypto/cryptobyte/builder.go:61-67 | A whole message equals the recursive DER encoding of its tree |
| DerBuilder.IntegerContent | crypto/cryptobyte/asn1.go:37-64 | The loop over the shifted value writes the minimal two's complement |
| DerBuilder.MarshalInt64 | crypto/cryptobyte/asn1.go:22-49 | Every int64 under a low tag is the element with its minimal content; other tags fail |
| DerBuilder.MarshalUint64 | crypto/cryptobyte/asn1.go:52-64 | Every uint64 is an element with identifier octet 02 and its minimal content of up to nine bytes |
| DerReader.String.Read | crypto/cryptobyte/string.go:26-33 | Takes n bytes, or fails and leaves the position |
| DerReader.String.ReadUnsigned | crypto/cryptobyte/string.go:84-96 | The big-endian value of up to four bytes, without losing bits in a uint32 |
| DerReader.String.ReadLengthPrefixed | crypto/cryptobyte/string.go:98-121 | Exactly the content that the specification parses behind a length of at most four bytes |
| DerReader.PrefixRoundTrip | crypto/cryptobyte/string.go:98-121 | What a builder wrote behind a length prefix is read as the content of its children, and what follows is left |
| DerReader.String.ReadASN1 | crypto/cryptobyte/asn1.go:681-751 | Exactly the element that the specification parses, with or without header; on failure nothing is consumed |
| DerReader.CheckASN1Integer | crypto/cryptobyte/asn1.go:286-299 | True exactly for content without a superfluous first byte |
| DerReader.ASN1Signed | crypto/cryptobyte/asn1.go:331-344 | The shifts, which wrap at 64 bits, compute two's complement for up to eight bytes, whatever the variable held before |
| DerReader.SignExtends | crypto/cryptobyte/asn1.go:340-342 | Shifting to the top and back extends the sign and drops what was there before |
| DerReader.ASN1Unsigned | crypto/cryptobyte/asn1.go:354-369 | Accepts exactly the values in [0, 2^64), and adds them to what the variable held, shifted up by their length; a variable that held 0 ends with the value |
| DerReader.UnsignedExactlyWhen | crypto/cryptobyte/asn1.go:365-368 | The variable ends with the value if and only if what it held is shifted out |
| DerReader.WordFits | crypto/cryptobyte/asn1.go:356-364 | The two tests on length and first byte leave exactly the unsigned 64-bit values |
| DerReader.ReadInt64 | crypto/cryptobyte/asn1.go:323-379 | Accepts exactly a minimal INTEGER of the tag that fits in an int64 |
| DerReader.ReadUint64 | crypto/cryptobyte/asn1.go:346-352 | Accepts exactly a minimal INTEGER that fits in a uint64 |
| DerReader.ReadWritten | crypto/cryptobyte/asn1.go:323-379 | What was written for a number is read as that number, and what follows is left |
| DerReader.WriteRead | crypto/cryptobyte/asn1.go:323-379 | What is read as a number is written back as the same bytes |
| DerReader.WordsRoundTrip | crypto/cryptobyte/asn1.go:22-64 | Every int64 and every uint64 survives being marshalled and read, in front of anything |
| MySqlPackets.ParseFrames | lib/go-sql-driver/mysql/packets.go:27-89 | The frames of any payload, in front of anything and after earlier chunks, are read as the payload and no further; only a lone empty payload is refused (MySQL Internals Manual, section "MySQL Packets") |
| MySqlPackets.FramesParsed | lib/go-sql-driver/mysql/packets.go:27-89 | What is read has one framing: the bytes consumed are the frames of the payload |
| MySqlPackets.AfterCounts | lib/go-sql-driver/mysql/packets.go:141-158 | The sequence byte after a payload has counted its chunks modulo 256 |
| MySqlPackets.FirstHeader | lib/go-sql-driver/mysql/packets.go:92-178 | The first frame has the sequence byte in its fourth byte behind the little-endian length, which is ff ff ff in front of the first 0xffffff bytes of a longer payload |
| MySqlPackets.Conn.WritePacket | lib/go-sql-driver/mysql/packets.go:92-178 | The network gets the frames of the original payload, or as many of their bytes as it takes, although headers overwrite payload that was sent; the outcome and the untouched rest of the buffer are stated exactly |
| MySqlPackets.NoWriteWrittenNothing | lib/go-sql-driver/mysql/packets.go:164-176 | A retry is asked for only when nothing was written if and only if the payload has one chunk: the test for the first chunk holds on all of them |
| MySqlPackets.Conn.ReadPacket | lib/go-sql-driver/mysql/packets.go:27-89 | Reads from the double buffer exactly what the frames specification reads from the stream |
| MySqlPackets.Transmit | lib/go-sql-driver/mysql/packets.go:27-178 | For every payload, limit and network: if all of it is sent, a connection that reads these bytes in any pieces gets exactly the payload, or a refusal if it is empty |
| MySqlPackets.WriteCommandLongData | lib/go-sql-driver/mysql/packets.go:855-904 | For every argument, limit and network, one buffer is cut into commands, each overwriting bytes that were sent. With a limit of more than 8 the network gets exactly the commands for the argument, or as many of their bytes as it takes |
| MySqlPackets.DataArrives | lib/go-sql-driver/mysql/packets.go:855-904 | An argument gets through some network if and only if it is empty or the limit is more than 8 |
| MySqlPackets.LoopEnds | lib/go-sql-driver/mysql/packets.go:868-899 | The loop ends within some number of turns if and only if nothing is to be sent or the limit is more than 8 |
| MySqlPackets.NeverEnds | lib/go-sql-driver/mysql/packets.go:868-899 | At a limit of 8 a turn leaves the remaining length as it is; below it every turn is a fault; in no number of turns does the loop end |
| MySqlPackets.SendingWithoutData | lib/go-sql-driver/mysql/packets.go:868-899 | At a limit of 8, commands without data fill whatever room the network has, and the outcome is that of the write that fails |
| MySqlPackets.SendingPanics | lib/go-sql-driver/mysql/packets.go:868-899 | Below 8, the network gets the beginning of a command, or nothing, and the program panics once that is sent |
| MySqlPackets.LongDataCollected | lib/go-sql-driver/mysql/packets.go:855-904 | For every statement below 2^32, parameter below 2^16, argument and limit above 8, a server that reads the commands by byte 18 and the little-endian numbers behind it gets exactly statement, parameter and argument, or nothing for an empty argument |
| MySqlPackets.CommandRead | lib/go-sql-driver/mysql/packets.go:878-889 | One command is read as its statement, its parameter and its data |
| MySqlPackets.FirstCommand | lib/go-sql-driver/mysql/packets.go:868-876 | The first command takes as much of the argument as there is, or as the limit allows |
| MySqlBuffer.Net.ReadAtLeast | lib/go-sql-driver/mysql/buffer.go:83-113 | Reads until enough has come, in pieces of any size, keeping what is there and losing nothing; it gives up only when the network fails or nothing is left to come |
| MySqlBuffer.Buffer.Fill | lib/go-sql-driver/mysql/buffer.go:54-113 | Moves unread bytes to the target, grows it if needed, and reads on; nothing else is overwritten; the stream is kept, and on failure it is the old one without the bytes lost, which are all that were to come unless the network failed |
| MySqlBuffer.Buffer.ReadNext | lib/go-sql-driver/mysql/buffer.go:116-128 | The slice holds the next bytes of the stream, and idx + length stays within the buffer |
| MySqlBuffer.Buffer.Flip | lib/go-sql-driver/mysql/buffer.go:49-51 | Counts the flip; it leads away from the buffer in use if and only if the last flip was carried out |
| MySqlBuffer.Buffer.Run | lib/go-sql-driver/mysql/buffer.go:49-128 | Over any reads and flips up to the first read that fails, what is returned is a prefix of the stream, in order |
| MySqlBuffer.Buffer.ReadAfterFlip | lib/go-sql-driver/mysql/buffer.go:49-128 | After a flip, any reads leave the buffer that was in use untouched, provided the flip before was carried out |
| MySqlBuffer.Buffer.ReadAfterUnsettledFlip | lib/go-sql-driver/mysql/buffer.go:49-128 | In every state where the flip before was not carried out, a flip and a successful read that needs a fill within the size of the buffer leave the bytes to come at the start of the buffer that was in use |
| MySqlBuffer.Buffer.ReadAcrossFlips | lib/go-sql-driver/mysql/buffer.go:49-128 | A slice read between two such flips is replaced by later bytes of the stream |
| Merkle.NewMerkleTree | common/merkle_tree.go:20-54 | The level list ends in the root of the leaf hashes, and every inner node has the hash of its children; the empty list gives the hash of nothing |
| Merkle.PaddedRoot | lib/net/blockhandler.go:438-447 | Repeating an odd last leaf does not change the root of two or more leaves |
| Merkle.RootOfFive | common/merkle_tree.go:20-54 | The root of five leaves, spelled out: pairs in their order, and the last node of a level with itself if it has no partner |
| Merkle.RootBinds | common/merkle_tree.go:20-54 | Equally many leaves with the same root are the same, or at some place of the two trees different pairs of hashes have the same hash |
| Merkle.RootDoesNotBindLength | common/merkle_tree.go:36-44 | Three leaves and the same with the last repeated have one root |
| Merkle.PathBinds | lib/net/blockhandler.go:396-421 | Two paths of one shape to the same root start at the same hash, or at some step of both different joined hashes have the same hash |
| MerkleTree.BuildersAgree | lib/net/blockhandler.go:426-491 | Both builders give the same root for two or more leaves, and for a single one only by accident of the hash |
| MerkleTree.BuildLevel | lib/net/blockhandler.go:462-489 | A node over every pair, the last one over itself if needed, and parent links of all nodes below |
| MerkleTree.BuildIntermediate | lib/net/blockhandler.go:462-491 | Terminates for two or more nodes, with linked and rightly hashed levels up to one root |
| MerkleTree.BuildWithContent | lib/net/blockhandler.go:426-456 | Leaves for the contents, the last repeated if their number is odd, under a linked and rightly hashed tree; an error for none |
| MerkleTree.NewTree | lib/net/blockhandler.go:363-376 | The recorded root is the root of the padded leaves |
| MerkleTree.VerifyNode | lib/net/blockhandler.go:326-346 | The hash of a subtree depends on its leaves only, whatever hashes are recorded in between |
| MerkleTree.Tree.VerifyTree | lib/net/blockhandler.go:531-541 | True if and only if the recorded root is the root of the leaves |
| MerkleTree.Tree.VerifyContent | lib/net/blockhandler.go:546-579 | True if and only if a leaf has the content and, above the first such leaf, all recorded hashes are those of the grandchildren |
| MerkleTree.Tree.ContentVerifies | lib/net/blockhandler.go:546-579 | In a tree as built, the content of any leaf verifies |
| MerkleTree.Tree.WhenVerifyContentIsRight | lib/net/blockhandler.go:543-579 | A leaf with rightly calculated hashes up to the expected root always verifies; one that verifies has them if and only if the recorded hashes beside its path and the recorded root are right, and then the answer is whether the calculated root is the expected one |
| MerkleTree.RootDecides | lib/net/blockhandler.go:543-579 | With rightly recorded hashes beside the path, the code's test amounts to a calculated critical path that ends in the hash of the root node |
| MerkleTree.WrongRootVerifies | lib/net/blockhandler.go:543-579 | For any two contents and any wrong root there is a linked tree on which the answer is true and the expected root is not the calculated one |
| MerkleTree.Tree.GetMerklePath | lib/net/blockhandler.go:396-421 | Found exactly for contents of leaves, and folding the path over the content's hash gives the recorded root. There is one entry for every level below the root: 1 and the hash on the right beside a left child, 0 and the hash on the left beside a right one, and 1 also where both have the same hash |
| MerkleTree.Tree.RebuildTree | lib/net/blockhandler.go:500-513 | New nodes, but the same contents and the same root |
| MerkleTree.Tree.RebuildTreeWith | lib/net/blockhandler.go:518-527 | The tree of the new contents, or no change for none |
| MerkleTree.RecordedIsComputed | lib/net/blockhandler.go:350-361 | In a tree as built every recorded hash is the one computed from the leaves |
| Rc2.RoundTrip | crypto/pkcs12/internal/rc2/rc2.go:83-271 | For every key table and block, Decrypt undoes Encrypt and Encrypt undoes Decrypt (RFC 2268, sections 3 and 4) |
| Rc2.BytesRoundTrip | crypto/pkcs12/internal/rc2/rc2.go:83-271 | The same for the eight bytes of a block |
| Rc2Vectors.Vector | crypto/pkcs12/internal/rc2/rc2.go:36-178 | With the table of the source, the key of 33 bytes and 129 effective bits of RFC 2268, section 5, encrypts eight zero bytes as 5b 78 d3 a4 3d ff f1 f1 |
| Rc2Vectors.VectorDecrypted | crypto/pkcs12/internal/rc2/rc2.go:36-271 | With the same key these eight bytes are decrypted as zeros |
| Rc2Vectors.KeysOfVector | crypto/pkcs12/internal/rc2/rc2.go:50-77 | The key table of this key, from all its 128 stretched and 128 expanded bytes |
| Rc2.MaskBits | crypto/pkcs12/internal/rc2/rc2.go:98-113 | Every bit that a mixing step adds to the key word is that of one word where the selecting word has a 1, and that of the other where it has a 0 |
| Rc2.RotationsCancel | crypto/pkcs12/internal/rc2/rc2.go:79-81 | A rotation by 16 - b undoes one by b |
| Rc2.MixUnmix | crypto/pkcs12/internal/rc2/rc2.go:93-113 | One unmixing round undoes one mixing round, and the other way round |
| Rc2.MashUnmash | crypto/pkcs12/internal/rc2/rc2.go:115-118 | One unmashing round undoes one mashing round, and the other way round |
| Rc2.Cipher.Encrypt | crypto/pkcs12/internal/rc2/rc2.go:83-178 | The loops over the key index make five, six and five mixing rounds with two mashing rounds; dst may be src |
| Rc2.Cipher.Decrypt | crypto/pkcs12/internal/rc2/rc2.go:180-271 | The loops with the index running back undo these in reverse; dst may be src |
| Rc2.Cipher.MixRounds | crypto/pkcs12/internal/rc2/rc2.go:92-113 | The loop ends with the index behind its last key word, after exactly the rounds in between |
| Rc2.Cipher.UnmixRounds | crypto/pkcs12/internal/rc2/rc2.go:187-209 | The same backwards |
| Rc2.ExpandKey | crypto/pkcs12/internal/rc2/rc2.go:50-77 | The buffer is stretched forwards, masked, and filled backwards, in place |
| Rc2.EffectiveKeyDecides | crypto/pkcs12/internal/rc2/rc2.go:54-68 | Keys whose stretched forms agree in the last t1 bits encrypt alike |
| Rc2.EffectiveBits | crypto/pkcs12/internal/rc2/rc2.go:55-64 | The bits that count are t1 in number |

## Left out

- Ed25519: SHA-512, signing and verification, `FeIsNonZero`, and the decoding of points (`FromBytes`), which needs square roots modulo p.
- Ed25519 hypotheses: that 2^255 - 19 is prime and Fermat's theorem, that the curve points form a group, and the contents of the tables `bi` and `base`.
- FieldOps.InverseByFermat: takes Fermat's theorem for z as a hypothesis.
- PointBytes.EncodingIsInjective: takes as hypotheses that a product is zero modulo p only if a factor is, and Fermat's theorem.
- ScalarMult.GeScalarMultBase: group elements are values, so that the scalar loops and the point formulas are connected through the addition law and not by one program.
- Points.GeAdd: the result is stated to satisfy the cross-multiplied addition law; that the curve's denominators are never zero needs that d is not a square.
- RLP: decoding and encoding of Go structs, pointers, arrays and big integers through reflection, nil interfaces, raw values, and the pool of encoding buffers.
- RlpDecode.Stream.PeekKind: does not say with which of the errors a header that is cut off or not canonical is refused.
- RlpDecode.Stream.DecodeSliceElems: the growth of the slice by reflection is an append.
- RlpEncode.EncReader.Next: a returned header is a value, where the source returns a slice of a scratch buffer that the next header overwrites.
- RlpEncode.EncodeToBytes: the encoding is shorter than 2^64 bytes, as every byte slice is.
- Agreement: the interleaving of the map operations inside one handler, the Redis variants, HTTP, logging and timing.
- Agreement.RunsKeepVoting: distinct blocks are assumed to have distinct and nonempty hashes, and `Testflag` to be empty; transactions are their hashes, signatures and Merkle roots of blocks are not computed.
- AgreementRuns.EveryHeight: announcements come in at any time; that the leader asks for them by itself only up to `MaxTransInBlock` transactions a block is not modelled.
- Agreement.StoredBlocksAreVerified: votes are identified by the broadcast that carries them; that a sender can be forged is outside of the model.
- DER: fixed-size builders, panics of continuations, `Unwrite`, big integers, object identifiers, times, bit strings, booleans and optional elements.
- MySqlPackets.Conn.WritePacket: the check for stale connections, write deadlines and cancellation.
- MySqlPackets.Conn.ReadPacket: cancellation; a failing network always ends in ErrInvalidConn.
- MySqlBuffer.Buffer.Fill: read deadlines; `takeBuffer` and its relatives, which lend the buffer for writing, are left out.
- MySQL: authentication, TLS, connection strings and the decoding of rows.
- Merkle: the hash is a function parameter, content is a byte string with equality and cannot fail to hash, and hash slices are never appended to in place.
- MerkleTree.BuildIntermediate: required of the caller are two nodes; for fewer the source does not terminate, and it is never called so.
- Rc2.ExpandKey: the table is a parameter, and `Rc2Vectors.PI_TABLE` is that of the source; empty keys and effective lengths outside of 1 to 1024 bits, on which the source panics, are excluded.
