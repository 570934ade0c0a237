# Ed25519 and the tagged cache, verified

This project models two parts of the repository in Dafny and proves what they are for.

**The Ed25519 stack** (`src/ed25519-donna`, the portable 64-bit code) is modelled from machine words up to the public
functions. Every layer is proved against the one below, so the results compose:

- 51-bit limb arithmetic modulo p = 2^255 - 19, with every 64- and 128-bit intermediate shown to fit its word;
- 56-bit limb arithmetic modulo the group order L, with Barrett reduction and the two signed-digit recodings;
- the branch-free idioms: masks, exclusive-or selections, conditional moves and swaps (`Bitwise`, `Conditional`);
- the twisted Edwards formulas on limb coordinates, tied to affine points of the curve;
- variable-base and fixed-base scalar multiplication, point packing and unpacking, and streaming SHA-512, whose constants
  are derived from the primes and whose definition gives the published hash of "abc";
- key generation, signing and verification: every signature made with a key is accepted with its public key;
- batch verification: the index heap, the Bos-Carter loop, the final multiplication and the driver, and what the neutral
  test of a batch decides about its signatures.

**The tagged cache** (`src/ripple/basics/TaggedCache.h`) is modelled as a class whose methods are proved against a state
machine with explicit reference counts, and the state machine is then reasoned about over arbitrary runs.

## How to read it

- Machine words are integers with range types (`Words`); an assignment to such a type is a proof that nothing overflows.
  Shifts and masks by constants are written as divisions and remainders by powers of two; `Bitwise` defines exclusive or,
  and, and or on numbers for the masks that are computed.
- `Val` and `SVal` give the number a limb vector stands for. `Partial` and `Full` say that limb coordinates stand for an
  affine point, without or with a correct T coordinate. Methods carry the affine points as ghost parameters.
- Definitions over the field use `Product` and `Multiple`, which multiply by repeated addition. They are plain products and
  multiples (`ProductIs`, `MultipleIs`); the recursive form keeps large nonlinear terms folded until a lemma asks for them.
- The curve group is built, not assumed: `Edwards` proves closure, commutativity, the neutral element, inverses and
  completeness of the addition law.
- Facts from number theory that the code relies on and does not compute are predicates without free variables. They appear
  as hypotheses, in `requires` clauses or left of an implication, and nowhere else. `PrimeFacts`: p has no zero divisors and Fermat's little theorem holds.
  `NonSquare`: d is not a square modulo p. `Associative`: the addition law is associative. `CurveFacts` is their
  conjunction. `BaseOrder`: multiples of L annihilate the base point. `ExactOrder`: nothing else does. `PrimeOrder`:
  everything between 0 and L has an inverse modulo L, that is, L is prime.
- The contents of the two precomputed tables are the hypotheses `SlidingTable` and `BaseTable`. The curve constants d, 2d,
  sqrt(-1), L, mu and the base point are checked by computation; the base point is determined by 5 y = 4 and an even x.
- The specification functions are tied to something other than the code: the hash to its published constants and example
  (`Sha512Constants`, `Sha512Example`), keys, signatures and acceptance to equations with the hashed bytes written out
  (`KeyEquation`, `SignatureIs`, `VerificationEquation`), encodings to that of the base point (`BaseEncoding`), the cache
  operations to laws about the state before them (`CacheLaws`).
- In places a translation of the source's comments has swallowed statements: the power chains
  (`curve25519-donna-helpers.h`), conditional swaps and the root computation (`ed25519-donna-impl-base.h`), the heap
  structure (`ed25519-donna-batchverify.h`). The statement named in the comment is what is modelled.

Verify everything with `dafny verify dfyconfig.toml --resource-limit 2000000 --verification-time-limit 0`.

## Findings

- The final multiplication (`MultiScalarFinal.Final`) adds the leading bit twice: for a scalar s above 1 it returns
  (m + 2^bits(m)) P, where m is the value of the low four limbs. `FactorIsScalar` gives the exact condition under which
  this is s P; five coefficients of 2 leave the scalar 2, for which it takes the multiple 6 (`TwoIsTakenSixTimes`). If m is
  0 and s is above 1, the limb search runs off the front of the scalar; the model returns `None`.
- The Bos-Carter loop takes in its 128-bit scalars exactly when two of the first scalars are not zero and these have no
  common divisor of more than 128 bits (`AllTakePart`); 5, 0, 0, 1, 1 are scalars that fail it (`ShortOnesLeftOut`). Otherwise
  the result covers only the first part of the sum (`Reached`). The value it leaves is the greatest common divisor of the
  coefficients that took part, so with coprime coefficients the result is the sum (`MultiScalarmult`).
- Neither of the two harms a batch test on points of order L whose coefficients all take part: the test then passes exactly
  when the weighted sum is neutral (`SumDecides`, `VerdictDecided`), so a batch of accepted signatures passes (`GoodPasses`).
- The batch test and the single verifier do not agree. The batch test sees only the residual S B - h A - R of a signature:
  with all others balanced, a batch passes exactly when the residual of the one left is neutral or its random value is 0
  (`OneInDoubt`). The single verifier also wants the top bits of S clear and R in its canonical form (`AcceptedBalances`). So
  the form of an accepted signature with its S modulo L plus 2 L is rejected alone, and is reported valid in a batch of
  otherwise accepted signatures (`LongFormBalances`, `LongFormPasses`).
- For keys outside the subgroup of order L, the weighted sum of accepted signatures is the opposite of a torsion term that
  reducing r h modulo L loses (`AcceptedSum`); with coprime coefficients that all take part the batch passes exactly when that
  term is neutral (`CoprimeAccepted`). A key can encode the point of order two (`KeyOfOrderTwo`); a batch with such keys passes
  exactly when the quotients r h / L of their signatures add up to an even number (`OrderTwoDecides`).
- The limb count never drops below limb 2 before the 128-bit scalars join, and never wraps (`NextLimbsize`, `Round`).
- The single verifier accepts S up to 2^253, so the accepted S for a given R, key and message are one whole residue class
  modulo L below that bound (`AcceptedScalars`); S + L gives a second accepted signature wherever it fits (`SecondForm`).
- `canonicalize` breaks the cache's count exactly when it stores a null pointer (`CanonicalizedAccounted`), as on an empty
  cache (`NullIsCounted`).
- A sweep that finds one object under several stale keys drops exactly one of them; the others stay as dead weak entries
  until the next sweep (`OneDropped` in `Swept`), as with one object under two keys (`DeadEntryStays`).
- Outgrowing the target size makes the cache keep entries longer, not shorter, exactly when the target age is under a second
  and the map was within its target (`CutoffGrows`, `ShortAgeGrows`).

## Model

| member | source | states |
|---|---|---|
| Curve25519.Mul | src/ed25519-donna/curve25519-donna-64bit.h:116-180 | for limbs below 2^54 no intermediate overflows, the value is congruent to the product modulo p, and the output limbs are reduced |
| Curve25519.Square | src/ed25519-donna/curve25519-donna-64bit.h:246-293 | the same for the square, computed with the doubled cross products |
| Curve25519.SquareTimes | src/ed25519-donna/curve25519-donna-64bit.h:189-243 | for every count of at least 1 the value is congruent to the 2^count-th power, with the limb bounds kept through the loop |
| Curve25519.Add | src/ed25519-donna/curve25519-donna-64bit.h:36-52 | the value of the sum, limb by limb, without overflow |
| Curve25519.AddReduce | src/ed25519-donna/curve25519-donna-64bit.h:55-63 | congruent to the sum, with carried limbs |
| Curve25519.Sub | src/ed25519-donna/curve25519-donna-64bit.h:73-79 | congruent to the difference; no limb underflows when 2p covers the subtrahend |
| Curve25519.SubAfterBasic | src/ed25519-donna/curve25519-donna-64bit.h:83-89 | congruent to the difference; no limb underflows when 4p covers the subtrahend |
| Curve25519.SubReduce | src/ed25519-donna/curve25519-donna-64bit.h:92-100 | congruent to the difference, with carried limbs |
| Curve25519.Neg | src/ed25519-donna/curve25519-donna-64bit.h:104-112 | congruent to the negative, with carried limbs |
| Curve25519Bytes.Expand | src/ed25519-donna/curve25519-donna-64bit.h:297-328 | the value of the bytes with the top bit dropped, in 51-bit limbs |
| Curve25519Bytes.Contract | src/ed25519-donna/curve25519-donna-64bit.h:335-383 | for limbs below 2^63, exactly the 32 little-endian bytes of the value modulo p |
| Curve25519Bytes.ContractUnique | src/ed25519-donna/curve25519-donna-64bit.h:335-383 | two limb vectors give the same bytes if and only if they are congruent modulo p |
| Curve25519Bytes.ExpandContract | src/ed25519-donna/curve25519-donna-64bit.h:297-383 | reading and writing back reduces modulo p; canonical bytes come back unchanged |
| PowerChains.Pow250 | src/ed25519-donna/curve25519-donna-helpers.h:23-48 | the addition chain raises z^(2^5 - 1) to z^(2^250 - 1), for limbs below 2^54 |
| PowerChains.Recip | src/ed25519-donna/curve25519-donna-helpers.h:55-70 | z^(2^255 - 21) for every z with limbs below 2^54, reduced or not |
| PowerChains.PowTwo252m3 | src/ed25519-donna/curve25519-donna-helpers.h:77-91 | z^(2^252 - 3) for every z with limbs below 2^54, reduced or not |
| ScalarModM.LtModmIsLess | src/ed25519-donna/modm-donna-64bit.h:48-50 | the sign-bit comparison is the order on limbs |
| ScalarModM.Reduce | src/ed25519-donna/modm-donna-64bit.h:53-73 | subtracts L exactly when the value is at least L |
| ScalarModM.BarrettBound | src/ed25519-donna/modm-donna-64bit.h:76-118 | the quotient estimate from the truncated product is at most two below the quotient |
| ScalarModM.Barrett | src/ed25519-donna/modm-donna-64bit.h:76-118 | for every x below 2^512, given as x >> 248 and x mod 2^264, the result is x mod L |
| ScalarModM.Add256 | src/ed25519-donna/modm-donna-64bit.h:122-132 | the sum with one conditional subtraction of L, and the sum modulo L for reduced inputs |
| ScalarModM.Mul256 | src/ed25519-donna/modm-donna-64bit.h:135-161 | the product modulo L, for all five-limb inputs |
| ScalarBytes.Expand256 | src/ed25519-donna/modm-donna-64bit.h:164-198 | the value of up to 64 bytes modulo L |
| ScalarBytes.ExpandRaw256 | src/ed25519-donna/modm-donna-64bit.h:201-214 | the value of 32 bytes, unreduced |
| ScalarBytes.Contract256 | src/ed25519-donna/modm-donna-64bit.h:217-222 | 32 bytes with the value of the scalar |
| ScalarBytes.ExpandContract256 | src/ed25519-donna/modm-donna-64bit.h:164-222 | reading and writing back gives the residue modulo L; 32 bytes below L come back unchanged |
| Recoding.SlidingWindow | src/ed25519-donna/modm-donna-64bit.h:252-291 | for every scalar below 2^255 and width 2 to 7: the digits sum to the scalar, non-zero digits are odd, bounded by 2^(w-1) - 1 and at least w apart; the carry stays inside the 256 digits |
| Recoding.CarryUp | src/ed25519-donna/modm-donna-64bit.h:279-285 | the carry loop adds one unit at its position and stops at the first zero bit |
| Window4.Contract256Window4 | src/ed25519-donna/modm-donna-64bit.h:225-249 | for every scalar below 2^255 the 64 digits lie in [-8, 8] and sum to the scalar in radix 16 |
| ScalarBatch.SubBatch | src/ed25519-donna/modm-donna-64bit.h:300-311 | the difference, when no limb above limbsize is set and the first scalar is not smaller |
| ScalarBatch.LtBatch | src/ed25519-donna/modm-donna-64bit.h:316-327 | true exactly when the first scalar is smaller |
| ScalarBatch.LteBatch | src/ed25519-donna/modm-donna-64bit.h:331-342 | true exactly when the first scalar is not larger |
| ScalarBatch.IsZeroBatch | src/ed25519-donna/modm-donna-64bit.h:346-352 | true exactly for the value 0 |
| ScalarBatch.IsOneBatch | src/ed25519-donna/modm-donna-64bit.h:356-362 | true exactly for the value 1 |
| ScalarBatch.IsAtMost128Bits | src/ed25519-donna/modm-donna-64bit.h:366-374 | true exactly for values below 2^128 |
| Edwards.Complete | src/ed25519-donna/ed25519-donna-impl-base.h:43-60 | with p prime and d not a square, no denominator of the addition law vanishes on two curve points |
| Edwards.PlusOnCurve | src/ed25519-donna/ed25519-donna-impl-base.h:43-60 | the affine sum of two curve points is a curve point |
| Edwards.PlusUnique | src/ed25519-donna/ed25519-donna-impl-base.h:43-60 | the cross-multiplied equations of the addition law determine the affine sum |
| Edwards.CurveAbelian | src/ed25519-donna/ed25519-donna-impl-base.h:43-77 | the curve points form an abelian group under the addition law |
| GroupElements.P1p1ToPartial | src/ed25519-donna/ed25519-donna-impl-base.h:15-19 | completed coordinates to projective ones of the same point, leaving T as it was |
| GroupElements.P1p1ToFull | src/ed25519-donna/ed25519-donna-impl-base.h:22-27 | completed coordinates to extended ones of the same point, with X Y = Z T |
| GroupElements.FullToPniels | src/ed25519-donna/ed25519-donna-impl-base.h:30-35 | the cached form of the same point |
| GroupElements.AddP1p1 | src/ed25519-donna/ed25519-donna-impl-base.h:43-60 | completed coordinates of the affine sum |
| GroupElements.DoubleP1p1 | src/ed25519-donna/ed25519-donna-impl-base.h:64-77 | completed coordinates of the affine double |
| GroupElements.Nielsadd2P1p1 | src/ed25519-donna/ed25519-donna-impl-base.h:80-98 | completed coordinates of the sum with a table point, or the difference when the sign bit is set |
| GroupElements.PnielsaddP1p1 | src/ed25519-donna/ed25519-donna-impl-base.h:101-120 | the same for a cached projective point |
| GroupElements.DoublePartial | src/ed25519-donna/ed25519-donna-impl-base.h:123-127 | the double, without T |
| GroupElements.Double | src/ed25519-donna/ed25519-donna-impl-base.h:130-134 | the double, with T |
| GroupElements.GeAdd | src/ed25519-donna/ed25519-donna-impl-base.h:137-141 | the sum, with T |
| GroupElements.Nielsadd2 | src/ed25519-donna/ed25519-donna-impl-base.h:144-161 | the sum with a table point, in place |
| GroupElements.Pnielsadd | src/ed25519-donna/ed25519-donna-impl-base.h:164-186 | the cached form of the sum with a cached point |
| PointCodec.Pack | src/ed25519-donna/ed25519-donna-impl-base.h:195-204 | the 32-byte encoding of the affine point, for any Z whose (p-2)-th power inverts it |
| PointCodec.UnpackNegative | src/ed25519-donna/ed25519-donna-impl-base.h:207-256 | a success gives a curve point with Z = 1, T = x y, the encoded y and the opposite sign; with p prime it succeeds exactly when some x completes y to a curve point |
| PointCodec.CandidateWorks | src/ed25519-donna/ed25519-donna-impl-base.h:218-249 | when u/v is a square, the candidate root or sqrt(-1) times it is a root |
| PointCodec.DecodeOfEncode | src/ed25519-donna/ed25519-donna-impl-base.h:195-256 | decoding the encoding of a point gives its negative |
| PointCodec.EncodeOfDecode | src/ed25519-donna/ed25519-donna-impl-base.h:195-256 | for a canonical y, encoding a decoded point changes only the sign bit: flipped when x is not 0, cleared when it is |
| PointCodec.Repack | src/ed25519-donna/ed25519-donna-impl-base.h:195-256 | unpacking and packing again does that to the bytes, without p being prime |
| PointCodec.EncodingInjective | src/ed25519-donna/ed25519-donna-impl-base.h:195-204 | two curve points with the same encoding are equal |
| PointCodec.DecodeUnique | src/ed25519-donna/ed25519-donna-impl-base.h:207-256 | at most one point decodes from given bytes |
| PointCodec.Verify | src/ed25519-donna/ed25519-donna.h:76-82 | the collected differences of the bytes, less one and shifted, are 1 exactly when the byte strings are equal |
| ScalarMult.BuildTable | src/ed25519-donna/ed25519-donna-impl-base.h:281-284 | the i-th table entry is the cached form of (2i + 1) P |
| ScalarMult.Evaluate | src/ed25519-donna/ed25519-donna-impl-base.h:286-309 | the digit loop yields v1 P + v2 B for the values v1, v2 of the digits, with every table index in range |
| ScalarMult.DoubleScalarmult | src/ed25519-donna/ed25519-donna-impl-base.h:271-310 | s1 P + s2 B for every curve point P and all scalars below 2^255 |
| Bitwise.WindowEqual | src/ed25519-donna/ed25519-donna-impl-base.h:317-319 | the branch-free comparison is 1 exactly for equal words |
| Bitwise.MaskNegates | src/ed25519-donna/ed25519-donna-impl-base.h:324-326 | adding and exclusive-oring the sign mask gives the absolute value of the digit |
| Bitwise.MaskSelects | src/ed25519-donna/modm-donna-64bit.h:66-72 | the masked exclusive or selects the difference when nothing was borrowed and the original otherwise |
| Conditional.MoveConditionalBytes | src/ed25519-donna/curve25519-donna-64bit.h:389-405 | the row is replaced exactly when the flag is set |
| Conditional.SwapConditional | src/ed25519-donna/curve25519-donna-64bit.h:409-418 | the two field elements change places exactly when the flag is set |
| FixedBase.ChooseNiels | src/ed25519-donna/ed25519-donna-impl-base.h:322-346 | the table row for the digit, negated for a negative digit and neutral for 0, through the masks, moves and swaps of the source |
| FixedBase.ScalarmultBase | src/ed25519-donna/ed25519-donna-impl-base.h:354-382 | s B for every scalar below 2^255: odd digits, four doublings, even digits, and the position-0 rows scaled by d |
| Sha512.ShortChIsCh | src/ed25519-donna/ed25519-hash.h:78-78 | the shorter form of Ch is that of section 4.1.3 of FIPS 180-4 |
| Sha512.ShortMajIsMaj | src/ed25519-donna/ed25519-hash.h:79-79 | the shorter form of Maj is that of section 4.1.3 of FIPS 180-4 |
| Sha512.StepInPlace | src/ed25519-donna/ed25519-hash.h:86-96 | the macro's register assignments are one round of section 6.4.2 of FIPS 180-4 |
| Sha512.CompressBlock | src/ed25519-donna/ed25519-hash.h:106-109 | schedule, 80 rounds and final additions are the compression function |
| Sha512.CountBlock | src/ed25519-donna/ed25519-hash.h:110-111 | the two counter words count bits modulo 2^128: the carry test sees exactly the wrap-around |
| Sha512.Hasher.Blocks | src/ed25519-donna/ed25519-hash.h:99-114 | the chaining value becomes the fold of the compression over the blocks, and the counter grows by their bits |
| Sha512.Hasher.constructor | src/ed25519-donna/ed25519-hash.h:117-129 | the state of the empty message |
| Sha512.Hasher.Update | src/ed25519-donna/ed25519-hash.h:132-159 | the state is that of the concatenated message, however it is cut: chaining value, bit counter and buffered tail |
| Sha512.PadIsLastBlocks | src/ed25519-donna/ed25519-hash.h:162-176 | the fold over the padded message is the chaining value continued over the tail and the padding |
| Sha512.LengthField | src/ed25519-donna/ed25519-hash.h:163-175 | counter words and buffered bytes give the 128-bit length of the padding |
| Sha512.Hasher.Final | src/ed25519-donna/ed25519-hash.h:162-186 | the digest of the FIPS-padded whole message |
| Sha512.HashAll | src/ed25519-donna/ed25519-hash.h:189-194 | the hash of one buffer |
| Sha512.PadShape | src/ed25519-donna/ed25519-hash.h:162-176 | the padded message is the message, a one bit, as few zeros as fill whole blocks with the length, and the length in bits modulo 2^128 |
| Sha512.PadInjective | src/ed25519-donna/ed25519-hash.h:162-176 | messages of fewer than 2^128 bits differ after padding if they differ before |
| Sha512Constants.PrimesInOrder | src/ed25519-donna/ed25519-hash.h:25-46 | the list behind the constants starts with 2, and each entry is the next prime after the one before |
| Sha512Constants.ConstantsAreRoots | src/ed25519-donna/ed25519-hash.h:25-46 | each of the 80 round constants is the first 64 bits of the fraction of the cube root of its prime |
| Sha512Constants.InitialWordsAreRoots | src/ed25519-donna/ed25519-hash.h:117-129 | each of the 8 initial words is the first 64 bits of the fraction of the square root of its prime |
| Sha512Example.HashOfAbc | src/ed25519-donna/ed25519-hash.h:99-194 | the hash of "abc" is the published one, all 64 bytes |
| Ed25519.ClampValue | src/ed25519-donna/ed25519.c:38-41 | the clamped scalar is 2^254 and exactly the bits 3 to 253 of the hash, and the second half of the hash is kept |
| Ed25519.ExtSk | src/ed25519-donna/ed25519.c:37-42 | the hash of the key with the three clamping operations |
| Ed25519.Hram | src/ed25519-donna/ed25519.c:45-52 | the hash of R, the key and the message, fed in three pieces |
| Ed25519.PublicKey | src/ed25519-donna/ed25519.c:55-65 | the encoding of a B for the secret scalar a |
| Ed25519.KeyEquation | src/ed25519-donna/ed25519.c:37-65 | the public key encodes (2^254 + the bits 3 to 253 of the hash of the secret key) B, and nothing else does |
| Ed25519.Sign | src/ed25519-donna/ed25519.c:69-101 | R encodes r B for the hashed nonce r, and S is r + H(R, A, M) a modulo L |
| Ed25519.SignatureIs | src/ed25519-donna/ed25519.c:69-101 | what Sign returns is R = r B and S = r + h a modulo L, both ways, with the bytes hashed for r and h written out |
| Ed25519.SignOpen | src/ed25519-donna/ed25519.c:104-126 | accepts exactly when the top bits of S are clear, the key decodes and R encodes S B - H(R, A, M) A |
| Ed25519.SignedIsAccepted | src/ed25519-donna/ed25519.c:55-126 | every signature made with a key is accepted with its public key, for every key and message |
| Ed25519.SignThenOpen | src/ed25519-donna/ed25519.c:55-126 | key generation, signing and verification run one after the other end in acceptance |
| Ed25519.VerificationEquation | src/ed25519-donna/ed25519.c:109-125 | a signature is accepted if and only if the top bits of S are clear and S B = R + H(R, A, M) A for a point A that the key decodes to and a point R that the first half encodes, with the bytes hashed written out |
| Ed25519.Moduli | src/ed25519-donna/modm-donna-64bit.h:18-32 | p and L are the numbers of RFC 8032, in decimal |
| Ed25519.BaseDetermined | src/ed25519-donna/ed25519-donna-64bit-tables.h:9-14 | the base point is the only curve point with 5 y = 4 and an even x |
| Ed25519.BaseEncoding | src/ed25519-donna/ed25519-donna-impl-base.h:195-256 | the base point encodes to 0x58 followed by 31 bytes 0x66, which decode to its negative |
| Ed25519.AcceptedScalars | src/ed25519-donna/ed25519.c:109-125 | given one accepted signature, another S for the same R, key and message is accepted if and only if it is below 2^253 and congruent modulo L |
| Ed25519.AcceptedForms | src/ed25519-donna/ed25519.c:109-125 | writing another S of the same residue into an accepted signature keeps it accepted if and only if the new S is below 2^253 |
| Ed25519.SecondForm | src/ed25519-donna/ed25519.c:109-125 | every accepted signature with S below 2^253 - L has a different accepted one, with S + L |
| Ed25519.SignatureUnique | src/ed25519-donna/ed25519.c:69-101 | key and message determine the signature |
| HeapOrder.RisingStep | src/ed25519-donna/ed25519-donna-batchverify.h:52-56 | swapping a node with a smaller parent moves the only disorder to the parent |
| HeapOrder.SinkingStep | src/ed25519-donna/ed25519-donna-batchverify.h:72-78 | moving the larger child up past the root's value keeps the rest in order |
| HeapOrder.TopTwo | src/ed25519-donna/ed25519-donna-batchverify.h:107-113 | the root and its larger child hold the two largest values of the heap |
| BatchHeap.Heap.HeapSwap | src/ed25519-donna/ed25519-donna-batchverify.h:33-38 | the two entries change places and no other changes |
| BatchHeap.Heap.InsertNext | src/ed25519-donna/ed25519-donna-batchverify.h:42-58 | the heap stays ordered, and its entries the indices below its size, each once |
| BatchHeap.Heap.UpdatedRoot | src/ed25519-donna/ed25519-donna-batchverify.h:62-87 | for every odd size of at least 3, order broken only at the root is restored and the entries stay a permutation |
| BatchHeap.Heap.Build | src/ed25519-donna/ed25519-donna-batchverify.h:91-96 | an ordered heap of the first count scalars |
| BatchHeap.Heap.Extend | src/ed25519-donna/ed25519-donna-batchverify.h:100-103 | an ordered heap of all scalars up to the new count |
| BatchHeap.Heap.GetTop2 | src/ed25519-donna/ed25519-donna-batchverify.h:107-113 | the index of the largest scalar and of the largest among the others |
| WeightedSums.CarterStepTotal | src/ed25519-donna/ed25519-donna-batchverify.h:192-193 | subtracting one coefficient from another and adding the points the other way keeps the sum of multiples |
| WeightedSums.CarterStepDivisors | src/ed25519-donna/ed25519-donna-batchverify.h:192-192 | the step keeps the common divisors of the coefficients |
| MultiScalar.CarterStep | src/ed25519-donna/ed25519-donna-batchverify.h:192-194 | the two updates and the heap repair: new scalar, new point, nothing else changed, order restored |
| MultiScalar.NextLimbsize | src/ed25519-donna/ed25519-donna-batchverify.h:182-183 | the limb count still covers every scalar, does not wrap, and keeps limb 2 while the largest scalar is at least 2^127 |
| MultiScalar.ExtendHeap | src/ed25519-donna/ed25519-donna-batchverify.h:186-190 | the 128-bit scalars join within the current limb count, and sum, divisors and order are kept |
| MultiScalar.Round | src/ed25519-donna/ed25519-donna-batchverify.h:182-194 | one iteration keeps the sum and the common divisors, and the sum of the scalars strictly decreases |
| MultiScalar.Exhaust | src/ed25519-donna/ed25519-donna-batchverify.h:162-195 | the loop ends with one value left; all scalars take part exactly under the condition `AllTakePart` on the input |
| MultiScalarFinal.FactorIsScalar | src/ed25519-donna/ed25519-donna-batchverify.h:117-158 | the multiple the final step takes is the scalar's own if and only if the scalar is at most 1, or its two leading bits are bits 224 and 223 |
| MultiScalarFinal.Final | src/ed25519-donna/ed25519-donna-batchverify.h:117-158 | the exact multiple returned for every scalar, and exactly when the limb search stays inside the scalar |
| MultiScalarFinal.MultiScalarmult | src/ed25519-donna/ed25519-donna-batchverify.h:162-198 | the point left times the greatest common divisor of the coefficients is the sum, what annihilates all points annihilates it, and what is returned is the stated multiple of that point; with coprime coefficients that all take part it is the sum |
| MultiScalarFinal.CoprimeLeavesSum | src/ed25519-donna/ed25519-donna-batchverify.h:162-198 | with coprime coefficients that all take part the scalar left is 1 and the point left is the sum |
| MultiScalarFinal.TwoIsTakenSixTimes | src/ed25519-donna/ed25519-donna-batchverify.h:117-158 | coefficients that all take part and leave 2, for which the multiple taken is 6 |
| MultiScalarFinal.ShortOnesLeftOut | src/ed25519-donna/ed25519-donna-batchverify.h:172-190 | coefficients of which the short ones never take part |
| BatchVerify.IsNeutral | src/ed25519-donna/ed25519-donna-batchverify.h:204-212 | true exactly for the neutral point |
| BatchSetup.SetupScalars | src/ed25519-donna/ed25519-donna-batchverify.h:229-248 | the entries hold the sum of r s modulo L, each r h modulo L and each r, none overwritten while still needed |
| BatchSetup.SetupPoints | src/ed25519-donna/ed25519-donna-batchverify.h:251-257 | base point, negated keys and negated R in place; with p prime it fails exactly when some key or R has no point |
| BatchVerify.TryBatch | src/ed25519-donna/ed25519-donna-batchverify.h:229-260 | decoded exactly when every key and R has a point; neutral exactly when the multiple Factor(s) of the point p left is neutral, where s p is the weighted sum and s the greatest common divisor |
| BatchVerify.DoBatch | src/ed25519-donna/ed25519-donna-batchverify.h:226-276 | a batch that passes changes neither flags nor result, any other gets the verdicts of the single verifier, and the second bit is set exactly when a decoded batch fails; a good batch passes |
| BatchVerify.SignOpenBatch | src/ed25519-donna/ed25519-donna-batchverify.h:215-284 | a signature is reported valid exactly when it is accepted alone or its batch passed; the first bit of the result is set exactly when some signature is reported invalid, the second exactly when some decoded batch failed; the result is 0 when all signatures are accepted and all batches good |
| BatchEquation.AcceptedBalances | src/ed25519-donna/ed25519-donna-batchverify.h:229-260 | for a decoded key and R, the single verifier accepts exactly when the top bits of S are clear, R is canonical and the residual that the batch adds up is neutral |
| BatchEquation.BatchSum | src/ed25519-donna/ed25519-donna-batchverify.h:229-260 | for every decoded batch, the weighted sum plus what the reductions lose is the sum of the residuals weighted by the random values |
| BatchEquation.AcceptedSum | src/ed25519-donna/ed25519-donna-batchverify.h:229-260 | when every signature of a batch is accepted alone, the weighted sum is the opposite of the torsion term of its keys, for all random values, and neutral exactly when that is |
| BatchEquation.SumDecides | src/ed25519-donna/ed25519-donna-batchverify.h:259-260 | on points of order L with coefficients that all take part, the test is passed if and only if the weighted sum is neutral, whatever scalar is left |
| BatchEquation.VerdictDecided | src/ed25519-donna/ed25519-donna-batchverify.h:229-260 | such a batch passes if and only if its weighted sum is neutral, whatever run explains the verdict |
| BatchEquation.PassedIffCancelled | src/ed25519-donna/ed25519-donna-batchverify.h:229-260 | such a batch passes if and only if the residuals weighted by the random values add up to nothing |
| BatchEquation.GoodPasses | src/ed25519-donna/ed25519-donna-batchverify.h:226-276 | a batch of accepted signatures by keys of order L, whose coefficients all take part, passes |
| BatchVerdicts.OneInDoubt | src/ed25519-donna/ed25519-donna-batchverify.h:226-276 | with every other signature balanced, as accepted ones are, such a batch passes if and only if nothing remains of the one left or its random value is 0 |
| BatchVerdicts.OneRandomValue | src/ed25519-donna/ed25519-donna-batchverify.h:229-260 | with everything else fixed, at most one of the 2^128 random values for a signature that does not balance lets such a batch pass |
| BatchVerdicts.SameVerdict | src/ed25519-donna/ed25519-donna-batchverify.h:235-241 | the verdict depends on each S only modulo L |
| BatchVerdicts.LongFormBalances | src/ed25519-donna/ed25519.c:109-111 | for every accepted signature, a form of it that the single verifier rejects although nothing remains of it |
| BatchVerdicts.LongFormPasses | src/ed25519-donna/ed25519-donna-batchverify.h:226-276 | a good batch with one signature in that form passes, so a rejected signature is reported valid |
| BatchVerdicts.CoprimeDecides | src/ed25519-donna/ed25519-donna-batchverify.h:259-260 | with coprime coefficients that all take part, on points of any order, a batch passes if and only if its weighted sum is neutral |
| BatchVerdicts.CoprimeAccepted | src/ed25519-donna/ed25519-donna-batchverify.h:243-260 | such a batch of accepted signatures passes if and only if the torsion term of its keys is neutral |
| BatchVerdicts.MultiplesOfOrderTwo | src/ed25519-donna/ed25519-donna-batchverify.h:243-248 | the multiples of the point (0, -1) alternate, and those by L q are neutral exactly for even q |
| BatchVerdicts.KeyOfOrderTwo | src/ed25519-donna/ed25519-donna-impl-base.h:207-256 | 32 bytes that decode to that point |
| BatchVerdicts.OrderTwoDecides | src/ed25519-donna/ed25519-donna-batchverify.h:243-260 | a batch of accepted signatures whose keys have order L or are that point passes if and only if the quotients r h / L of the latter add up to an even number |
| TaggedCache.Cache.constructor | src/ripple/basics/TaggedCache.h:83-98 | the empty cache, accounted for |
| TaggedCache.Cache.Clear | src/ripple/basics/TaggedCache.h:158-163 | an empty map and a count of 0; hits and misses stay |
| TaggedCache.Cache.Reset | src/ripple/basics/TaggedCache.h:165-172 | an empty map and all counters 0 |
| TaggedCache.Cache.Sweep | src/ripple/basics/TaggedCache.h:174-265 | for every order of visits: newer strong entries stay, live weak entries stay, dead ones go, stale strong entries go or become weak, and which of them |
| TaggedCache.Cache.Del | src/ripple/basics/TaggedCache.h:267-292 | the entry leaves the cache, and leaves the map unless it is valid and its object is held elsewhere |
| TaggedCache.Cache.Canonicalize | src/ripple/basics/TaggedCache.h:308-367 | the new state, the caller's pointer and the flag in each of the six cases |
| TaggedCache.Cache.Fetch | src/ripple/basics/TaggedCache.h:369-403 | the object if it is cached or still alive, with the counters and the extra holder |
| TaggedCache.Cache.RefreshIfPresent | src/ripple/basics/TaggedCache.h:440-485 | true exactly when the key has a live object, which is then cached and current |
| CacheLaws.FetchLaw | src/ripple/basics/TaggedCache.h:369-403 | an object is returned exactly when the key has one, and it is that one; it is then cached as of now; hits, misses, holders and every other key are accounted for |
| CacheLaws.CanonicalizeLaw | src/ripple/basics/TaggedCache.h:308-367 | without replace the key's own object comes back exactly when it has one, otherwise the caller's; the flag tells whether it had one; holders and other keys are accounted for |
| CacheLaws.DeleteLaw | src/ripple/basics/TaggedCache.h:267-292 | the key stays exactly when valid and its object is held by something other than its own pointer; the flag tells whether it was cached |
| CacheLaws.InvalidIsGone | src/ripple/basics/TaggedCache.h:267-403 | a fetch after del(key, false) returns nothing, even while someone holds the object |
| CacheLaws.RefreshLaw | src/ripple/basics/TaggedCache.h:440-485 | the flag tells whether the key has an object, which is then cached as of now; otherwise no entry is left |
| CacheLaws.ObjectIsHeld | src/ripple/basics/TaggedCache.h:538-561 | a key has an object exactly when the caller, its own entry or another entry holds the target of its weak pointer |
| CacheLaws.SweptAlive | src/ripple/basics/TaggedCache.h:212-248 | a sweep frees exactly the objects that only stale entries hold |
| CacheLaws.SweptWeak | src/ripple/basics/TaggedCache.h:215-227 | a sweep drops exactly the weak entries whose object is dead |
| CacheLaws.RunCached | src/ripple/basics/TaggedCache.h:174-485 | an object in the cache that no sweep finds stale and nothing takes out is returned by every fetch, as a hit, and by every canonicalize, whoever holds it |
| CacheRuns.CanonicalizedAccounted | src/ripple/basics/TaggedCache.h:308-367 | accounting is kept if and only if no null pointer is stored |
| CacheRuns.NullIsCounted | src/ripple/basics/TaggedCache.h:316-323 | an accounted state and a null pointer at which accounting is lost |
| CacheRuns.CutoffAge | src/ripple/basics/TaggedCache.h:186-204 | how old an entry must be for the sweep: the target age within the target size; over it, at least a second and the target age in the proportion of the two sizes, without division |
| CacheRuns.CutoffGrows | src/ripple/basics/TaggedCache.h:186-204 | with more entries the cutoff is no earlier if and only if the map was over its target before, or still is not, or the target age is at least a second |
| CacheRuns.ShortAgeGrows | src/ripple/basics/TaggedCache.h:186-204 | two states at which a larger map has an earlier cutoff |
| CacheRuns.DeadEntryStays | src/ripple/basics/TaggedCache.h:225-246 | a state with one object under two stale keys: after any sweep exactly one key is left, and its object is dead |
| CacheRuns.SweptStrong | src/ripple/basics/TaggedCache.h:212-248 | after a sweep the strong entries are exactly the strong ones newer than the cutoff |
| CacheRuns.SweptKeepsHeld | src/ripple/basics/TaggedCache.h:212-248 | a sweep drops no key whose object is held outside |
| CacheRuns.UsedIsCurrent | src/ripple/basics/TaggedCache.h:308-485 | what fetch, canonicalize or refresh returns or finds is cached under its key with the current time; a failed refresh leaves no entry |
| CacheRuns.RecentSurvives | src/ripple/basics/TaggedCache.h:186-248 | a sweep leaves alone every cached entry used within the target age and the last second |
| CacheRuns.RunAccounted | src/ripple/basics/TaggedCache.h:158-485 | in every state of every run with non-null data, the count is the number of strong entries and each strong pointer equals its weak target |
| CacheRuns.RunCanonical | src/ripple/basics/TaggedCache.h:174-485 | while someone outside holds a key's object and nothing gives it up on purpose, every fetch and non-replacing canonicalize of the key returns that object |
| CacheRuns.RunDead | src/ripple/basics/TaggedCache.h:174-485 | an object whose last pointer is gone is never returned to life by the cache |

## Left out

- Number theory: that p and L are prime, that d is not a square, associativity of the addition law and the order of the base point are hypotheses, not results.
- Table contents: the sliding-window and fixed-base tables are assumed to hold the multiples their names say.
- Aliasing of limb vectors: field elements, scalars and points are passed and returned as values; the source writes them through pointers, sometimes onto an operand. Arrays are kept for digits, the heap, its scalars and points, the hash buffer and the validity flags.
- Timing: the branch-free idioms are proved to select what they should; that they take constant time is not modelled.
- MultiScalarFinal.Final: where the limb search would read before the scalar, the model returns nothing; `BatchVerify.TryBatch` then goes on as for a point that is not neutral.
- BatchVerify.SignOpenBatch: random values are inputs, so every choice is covered and no probability is stated; `BatchVerdicts.OneRandomValue` is the counting form, for one value at a time.
- Random bytes, the OpenSSL and custom hash variants, the SSE2 and assembly code, the 32-bit limb code and the fuzz drivers.
- The curve25519 base-point multiplication at the end of ed25519.c: it would reuse the fixed-base result with one more division.
- CacheRuns.CutoffAge: target size and age are natural numbers and the product of the two does not wrap.
- TaggedCache.Cache.Canonicalize: a caller's pointer must be among the pointers held outside; `insert` and `retrieve`, which wrap canonicalize and fetch, are not modelled, and the comment on insert's return value contradicts its code.
- Locks, logging, metrics, hash seeding, `getKeys` and the getters of the cache: each public method is one atomic step.
- The rest of the repository: containers, parsers, configuration, networking and node scripts.
