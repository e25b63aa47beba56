# Arithmetic, signatures, hashes and id lists under LIGO

LIGO builds on vendored C libraries: libsecp256k1, parts of HACL*, BLAKE2b and the id lists of LMDB. This project models
the algorithms in them that are hard to see to be right, and proves that each computes what it is there for.

| files | what they model |
|---|---|
| `Wrappers`, `Octets` | optional values, octets and messages in pieces |
| `Arith`, `Groups`, `Scalars` | integers modulo n, powers of two, bit windows, commutative groups and linear combinations |
| `Wnaf`, `WnafFixed`, `WnafConst` | the three signed-digit recodings of a scalar |
| `OddTables`, `Strauss`, `Pippenger`, `EcmultConst`, `EcmultGen`, `Batch` | scalar multiplication: interleaved, by buckets, in constant time, of the generator with blinding, and in batches within a bounded scratch space |
| `Limbs32`, `ScalarProduct`, `ScalarFold`, `Scalar8x32`, `ScalarBits` | scalars of eight 32-bit words modulo the secp256k1 order |
| `BignumQ` | Barrett reduction modulo the Ed25519 order |
| `FieldProduct`, `Field5x52`, `FieldProduct26`, `Field10x26` | field elements of five 52-bit and of ten 26-bit limbs |
| `Poly1305`, `Poly1305x32`, `Poly1305Answer` | the one-time authenticator with three 44-bit and with five 26-bit limbs, and a known tag |
| `Ecdsa`, `Der` | signing, verifying, recovering, and the strict encoding of signatures |
| `Blake2b`, `Sha256` | streaming hashes, and two implementations of SHA-256 that must agree |
| `Blake2bAnswer`, `Sha256Answer` | where the constants of both hashes come from, what their operations do to single bits, and a known digest of each |
| `Ladder` | the double-buffered Montgomery ladder and inversion by powers in Curve25519 |
| `MidlSort`, `MidlLists`, `MidlGrow` | sorting, merging, searching and growing lists of ids |

Code that changes arrays or structures in place is a method or a class with its frame, proved against a specification on
values; limb arithmetic is proved twice over, that no machine word overflows and that the value is right. Where the code
falls short of its purpose for some inputs, a lemma gives the exact condition: `Field5x52.FirstSumFits`,
`Field10x26.FirstSumFits26`, `WnafFixed.RecodeFixed`, `Poly1305x64.LengthDecides`, `MidlSort.MidpointsFit`,
`MidlGrow.NeedExact`, `MidlGrow.RangeExact`. `Ecdsa.SigSign` states what the code leaves to its caller.

`dafny verify dfyconfig.toml` checks the whole project.

## Model

| member | source | states |
|---|---|---|
| Groups.MulMul | vendors/tezos-modded/vendors/ocaml-secp256k1/src/ecmult_impl.h:337-485 | multiplying twice multiplies by the product, for every commutative group and all integers; the law that every window method rests on |
| Groups.MulCongruent | vendors/tezos-modded/vendors/ocaml-secp256k1/src/ecmult_impl.h:337-485 | in a group killed by its order, multiples depend only on the scalar modulo the order |
| Groups.CombScale | vendors/tezos-modded/vendors/ocaml-secp256k1/src/ecmult_impl.h:655-709 | scaling every coefficient of a linear combination scales its value: the step from one window to the next |
| Wnaf.WindowDigit | vendors/tezos-modded/vendors/ocaml-secp256k1/src/ecmult_impl.h:289-302 | one window read from the scalar with its incoming carry gives an odd digit of absolute value below 2^(w-1); a carry leaves only from a full window, and then the last bit read is set |
| Wnaf.Recode | vendors/tezos-modded/vendors/ocaml-secp256k1/src/ecmult_impl.h:262-311 | for every scalar, width and length: digits are 0 or odd with absolute value below 2^(w-1), non-zero digits are at least w apart, nothing non-zero lies at or above the returned count, and the weighted digit sum is the scalar, or the scalar minus n when its top bit is set, whenever that number fits the length |
| Wnaf.SignedFits | vendors/tezos-modded/vendors/ocaml-secp256k1/src/ecmult_impl.h:262-311 | 256 positions always suffice, so the final carry is 0 for every scalar |
| WnafFixed.SizeUnique | vendors/tezos-modded/vendors/ocaml-secp256k1/src/ecmult_impl.h:50 | the digit count is the only number of width-w windows that just covers the scalar |
| WnafFixed.NextEven | vendors/tezos-modded/vendors/ocaml-secp256k1/src/ecmult_impl.h:603-607 | an even window borrows 2^w from the digit below and becomes odd, and the weighted sum still equals the bits read so far |
| WnafFixed.RecodeWindows | vendors/tezos-modded/vendors/ocaml-secp256k1/src/ecmult_impl.h:595-612 | all WNAF_SIZE(w) digits become odd with absolute value below 2^w, including the windows above the last non-zero one, and sum to the signed working value |
| WnafFixed.RecodeFixed | vendors/tezos-modded/vendors/ocaml-secp256k1/src/ecmult_impl.h:568-615 | for a non-zero scalar the digits are all odd, bounded and sum to s modulo n. The zero scalar leaves digit 0 unwritten: the sum is congruent to s if and only if s is not 0 or the old digit happens to be 0 modulo n |
| WnafConst.SkewScalar | vendors/tezos-modded/vendors/ocaml-secp256k1/src/ecmult_const_impl.h:62-87 | flipping high scalars and adding 1 or 2 gives an odd number below n/2 + 2 which, with the sign and the skew, is the scalar modulo n; n-1 included |
| WnafConst.ConstStep | vendors/tezos-modded/vendors/ocaml-secp256k1/src/ecmult_const_impl.h:90-107 | the pending digit stays positive, so the sign in the loop is always 1, and the invariant on the weighted sum moves one window up |
| WnafConst.RecodeConst | vendors/tezos-modded/vendors/ocaml-secp256k1/src/ecmult_const_impl.h:51-113 | for every scalar and width: WNAF_SIZE(w)+1 odd, hence non-zero, digits below 2^w whose weighted sum minus the returned skew is the scalar modulo n, and whose absolute sum stays below n/2 + 2 |
| OddTables.OddMultiplesTable | vendors/tezos-modded/vendors/ocaml-secp256k1/src/ecmult_impl.h:79-112 | entry i holds (2i+1) times the point |
| OddTables.TableGetMultiplies | vendors/tezos-modded/vendors/ocaml-secp256k1/src/ecmult_impl.h:161-170 | for every odd n with |n| < 2^(w-1) the lookup, negating for negative n, stays inside the table and is n times the point |
| Strauss.Compact | vendors/tezos-modded/vendors/ocaml-secp256k1/src/ecmult_impl.h:353-384 | dropping zero scalars and points at infinity keeps the value of the linear combination; every kept entry is recoded, non-infinite, and bounded by the common bit count |
| Strauss.BuildTables | vendors/tezos-modded/vendors/ocaml-secp256k1/src/ecmult_impl.h:385-411 | consecutive blocks of the shared table hold the odd multiples of the kept points, none overwriting another |
| Strauss.AddPosition | vendors/tezos-modded/vendors/ocaml-secp256k1/src/ecmult_impl.h:469-478 | adding the digits of one bit position for all points turns the combination of doubled upper parts into that of the parts from this position on |
| Strauss.Chain | vendors/tezos-modded/vendors/ocaml-secp256k1/src/ecmult_impl.h:444-480 | the double-and-add chain gives the combination of all recoded scalars modulo the order |
| Strauss.StraussWnaf | vendors/tezos-modded/vendors/ocaml-secp256k1/src/ecmult_impl.h:337-485 | for any number of points and scalars, zeros and infinities included, and an optional generator scalar: exactly the sum of na_i * A_i plus ng * G |
| Strauss.Ecmult | vendors/tezos-modded/vendors/ocaml-secp256k1/src/ecmult_impl.h:487-505 | na * A + ng * G for every point and all scalars |
| Pippenger.DigitBucket | vendors/tezos-modded/vendors/ocaml-secp256k1/src/ecmult_impl.h:678-685 | every odd digit falls in one bucket below 2^window, whose weight with the sign put on the point is the digit |
| Pippenger.FillBuckets | vendors/tezos-modded/vendors/ocaml-secp256k1/src/ecmult_impl.h:658-686 | after one column the buckets, weighted 1, 3, 5, ..., hold the combination of the column digits and the points |
| Pippenger.SweepTotal | vendors/tezos-modded/vendors/ocaml-secp256k1/src/ecmult_impl.h:692-704 | the weighted bucket sum is twice the sum of the suffix totals above bucket 0 plus the total: an independent definition of what the running sum computes |
| Pippenger.Sweep | vendors/tezos-modded/vendors/ocaml-secp256k1/src/ecmult_impl.h:688-708 | one sweep turns r into 2^(window+1) * r plus the weighted bucket sum |
| Pippenger.RecodeRow | vendors/tezos-modded/vendors/ocaml-secp256k1/src/ecmult_impl.h:644-646 | a new point writes its own row of digits and leaves the rows already written as they were |
| Pippenger.Windows | vendors/tezos-modded/vendors/ocaml-secp256k1/src/ecmult_impl.h:655-709 | all columns from the top one down give the combination of the recoded scalars |
| Pippenger.PippengerWnaf | vendors/tezos-modded/vendors/ocaml-secp256k1/src/ecmult_impl.h:634-711 | exactly the sum of sc_i * pt_i for every list of scalars and points, zeros and infinities included |
| EcmultConst.PrefixSmall | vendors/tezos-modded/vendors/ocaml-secp256k1/src/ecmult_const_impl.h:173-191 | every upper part of the digits has a non-zero value x with 8|x| < n, so none of the doublings of a window starts at infinity |
| EcmultConst.LookupConst | vendors/tezos-modded/vendors/ocaml-secp256k1/src/ecmult_const_impl.h:16-35 | the scan over the whole table gives n times the point, and that is not infinity |
| EcmultConst.WindowConst | vendors/tezos-modded/vendors/ocaml-secp256k1/src/ecmult_const_impl.h:174-191 | one window of doublings that must not start at infinity and one addition take x * A to (n + 2^w x) * A |
| EcmultConst.Horner | vendors/tezos-modded/vendors/ocaml-secp256k1/src/ecmult_const_impl.h:160-191 | the digits are evaluated to their weighted sum times the point |
| EcmultConst.EcmultConst | vendors/tezos-modded/vendors/ocaml-secp256k1/src/ecmult_const_impl.h:116-231 | q * A for every scalar q, with 0 and n-1 among them: the correction subtracts exactly skew * A |
| EcmultGen.FillRow | vendors/tezos-modded/vendors/ocaml-secp256k1/src/ecmult_gen_impl.h:63-71 | row j holds U_j + i * 16^j * G for i = 0..15, and earlier rows stay |
| EcmultGen.NextOffset | vendors/tezos-modded/vendors/ocaml-secp256k1/src/ecmult_gen_impl.h:72-78 | the offset coefficients double, and the one after row 62 makes them sum to zero |
| EcmultGen.OffsetSumStep | vendors/tezos-modded/vendors/ocaml-secp256k1/src/ecmult_gen_impl.h:72-78 | the closed form of the partial sums of the offset coefficients; after 64 rows it is 0 |
| EcmultGen.RowsFinite | vendors/tezos-modded/vendors/ocaml-secp256k1/src/ecmult_gen_impl.h:80-86 | when no sum of an offset and a multiple of G is infinity, no table entry is, as the stored form of a point requires |
| EcmultGen.BuildTable | vendors/tezos-modded/vendors/ocaml-secp256k1/src/ecmult_gen_impl.h:55-86 | every row is right, the 64 offsets sum to infinity, and no entry is infinity |
| EcmultGen.BlindCancels | vendors/tezos-modded/vendors/ocaml-secp256k1/src/ecmult_gen_impl.h:124-156 | initial + sum of offsets + (gn + blind) * G is gn * G whenever initial is -(blind * G) |
| EcmultGen.GenContext.Build | vendors/tezos-modded/vendors/ocaml-secp256k1/src/ecmult_gen_impl.h:21-92 | building a context establishes the invariant once; building again changes nothing |
| EcmultGen.GenContext.Select | vendors/tezos-modded/vendors/ocaml-secp256k1/src/ecmult_gen_impl.h:131-146 | the masked scan over the row picks entry (j, bits) whatever was selected before |
| EcmultGen.GenContext.Multiply | vendors/tezos-modded/vendors/ocaml-secp256k1/src/ecmult_gen_impl.h:124-156 | gn * G in every valid context, whatever the blinding; every entry added is finite |
| EcmultGen.GenContext.Blind | vendors/tezos-modded/vendors/ocaml-secp256k1/src/ecmult_gen_impl.h:159-208 | re-blinding keeps the table and the invariant initial = -(blind * G) for every drawn scalar, with or without reset |
| EcmultGen.GenContext.CloneFrom | vendors/tezos-modded/vendors/ocaml-secp256k1/src/ecmult_gen_impl.h:98-113 | a clone has its own table with the same contents and the same blinding, and is valid |
| EcmultGen.GenContext.Clear | vendors/tezos-modded/vendors/ocaml-secp256k1/src/ecmult_gen_impl.h:115-122 | a cleared context is an unbuilt one with blinding 0; its initial point is whatever the cleared structure stands for |
| Batch.WindowBounds | vendors/tezos-modded/vendors/ocaml-secp256k1/src/ecmult_impl.h:717-805 | the two window tables are inverse: n points use window w exactly when n lies between the bounds of w-1 and w |
| Batch.SpaceForPoints | vendors/tezos-modded/vendors/ocaml-secp256k1/src/ecmult_impl.h:938-945 | a linear space demand fits if and only if the count is at most the computed quotient |
| Batch.WindowFits | vendors/tezos-modded/vendors/ocaml-secp256k1/src/ecmult_impl.h:933-945 | within one window the counts that fit are exactly those up to the quotient |
| Batch.PippengerMaxPoints | vendors/tezos-modded/vendors/ocaml-secp256k1/src/ecmult_impl.h:923-957 | the answer is exact: a count is at most the result if and only if it and all smaller counts fit, each with its own bucket window |
| Batch.StraussMaxPoints | vendors/tezos-modded/vendors/ocaml-secp256k1/src/ecmult_impl.h:557-559 | a count is at most the result if and only if its scratch demand fits |
| Batch.CallSumSplit | vendors/tezos-modded/vendors/ocaml-secp256k1/src/ecmult_impl.h:960-1009 | the callback sum over n + m indices is the sum over the first n plus the sum over the rest |
| Batch.PippengerBatch | vendors/tezos-modded/vendors/ocaml-secp256k1/src/ecmult_impl.h:839-911 | succeeds if and only if there is nothing to do, or the scratch space suffices and every callback succeeds; then each index was called once in order and the result is ng * G plus the callback sum |
| Batch.StraussBatch | vendors/tezos-modded/vendors/ocaml-secp256k1/src/ecmult_impl.h:516-550 | the same for the Strauss batch and its scratch demand |
| Batch.EvenBatches | vendors/tezos-modded/vendors/ocaml-secp256k1/src/ecmult_impl.h:991-992 | spreading n points over the fewest batches gives non-empty batches within the limit that cover n exactly, and all but the last are needed |
| Batch.SameCap | vendors/tezos-modded/vendors/ocaml-secp256k1/src/ecmult_impl.h:983-990 | the capped largest count is determined by the scratch size, so the plan is |
| Batch.MakePlan | vendors/tezos-modded/vendors/ocaml-secp256k1/src/ecmult_impl.h:983-1002 | a plan exists if and only if one point fits and either the batches are long enough for buckets or Strauss has room; every batch then fits its own scratch demand |
| Batch.PlanSumsFit | vendors/tezos-modded/vendors/ocaml-secp256k1/src/ecmult_impl.h:991-1000 | with at most 2^63 - 1 points, and points and memory together below 2^64, none of the sums rounded up in a plan wraps around |
| Batch.MultiVar | vendors/tezos-modded/vendors/ocaml-secp256k1/src/ecmult_impl.h:960-1009 | succeeds if and only if n is 0, or a plan exists and all callbacks succeed; then callback indices 0..n-1 are each visited once in order, G enters once, and the result is ng * G plus the callback sum |
| Limbs32.MulAdd | vendors/tezos-modded/vendors/ocaml-secp256k1/src/scalar_8x32_impl.h:266-278 | adding a 32 x 32 product to the 96-bit accumulator loses no carry below the stated limit |
| Limbs32.MulAddFast | vendors/tezos-modded/vendors/ocaml-secp256k1/src/scalar_8x32_impl.h:281-292 | the short form is exact whenever the sum stays below 2^64 |
| Limbs32.MulAdd2 | vendors/tezos-modded/vendors/ocaml-secp256k1/src/scalar_8x32_impl.h:295-314 | adding twice a product loses none of its three carries below the stated limit |
| Limbs32.SumAdd | vendors/tezos-modded/vendors/ocaml-secp256k1/src/scalar_8x32_impl.h:317-323 | adding a word is exact while the sum stays below 2^96 |
| Limbs32.Extract | vendors/tezos-modded/vendors/ocaml-secp256k1/src/scalar_8x32_impl.h:334-339 | extracting splits the accumulator into its low word and the rest, exactly |
| ScalarProduct.ColumnsAreProduct | vendors/tezos-modded/vendors/ocaml-secp256k1/src/scalar_8x32_impl.h:491-577 | the fifteen schoolbook columns, weighted by powers of 2^32, sum to the product |
| ScalarProduct.TopFits | vendors/tezos-modded/vendors/ocaml-secp256k1/src/scalar_8x32_impl.h:491-577 | the last column and the carry into it fit the 64 bits of the short accumulator |
| ScalarProduct.Mul512 | vendors/tezos-modded/vendors/ocaml-secp256k1/src/scalar_8x32_impl.h:491-577 | the sixteen words written are the product, for all inputs |
| ScalarProduct.Sqr512 | vendors/tezos-modded/vendors/ocaml-secp256k1/src/scalar_8x32_impl.h:579-637 | the doubled cross products give the square, so sqr_512(a) and mul_512(a, a) write the same words |
| ScalarFold.FoldValue | vendors/tezos-modded/vendors/ocaml-secp256k1/src/scalar_8x32_impl.h:358-466 | the columns of low + high * (2^256 - n) sum to that number |
| ScalarFold.FirstFold | vendors/tezos-modded/vendors/ocaml-secp256k1/src/scalar_8x32_impl.h:358-421 | 512 bits fold to 385 with the value kept modulo n and top word at most 1 |
| ScalarFold.HighAtMost | vendors/tezos-modded/vendors/ocaml-secp256k1/src/scalar_8x32_impl.h:423-425 | what lies above 2^256 after the first fold is at most 2^256 - n |
| ScalarFold.SecondFold | vendors/tezos-modded/vendors/ocaml-secp256k1/src/scalar_8x32_impl.h:423-466 | 385 bits fold to 258 with the value kept and the ninth word at most 2 |
| ScalarFold.CarryChain | vendors/tezos-modded/vendors/ocaml-secp256k1/src/scalar_8x32_impl.h:469-486 | eight sums are carried through a 64-bit accumulator that never overflows: limbs and carry together are the number |
| Scalar8x32.CheckOverflow | vendors/tezos-modded/vendors/ocaml-secp256k1/src/scalar_8x32_impl.h:75-91 | the limb-by-limb comparison is exactly: the value is at least n |
| Scalar8x32.IsHighLimbs | vendors/tezos-modded/vendors/ocaml-secp256k1/src/scalar_8x32_impl.h:220-236 | the limb-by-limb comparison is exactly: the value exceeds n/2 |
| Scalar8x32.Reduce | vendors/tezos-modded/vendors/ocaml-secp256k1/src/scalar_8x32_impl.h:93-113 | adds the complement of n when asked, modulo 2^256 |
| Scalar8x32.OneReduction | vendors/tezos-modded/vendors/ocaml-secp256k1/src/scalar_8x32_impl.h:487-488 | below 2n, counting the carry and the overflow together gives at most 1, and one conditional subtraction gives the residue |
| Scalar8x32.FoldsReduce | vendors/tezos-modded/vendors/ocaml-secp256k1/src/scalar_8x32_impl.h:349-489 | the three folds subtract a known multiple of n |
| Scalar8x32.AddLimbs | vendors/tezos-modded/vendors/ocaml-secp256k1/src/scalar_8x32_impl.h:115-137 | the sum modulo n, and the returned flag says whether n was subtracted |
| Scalar8x32.NegateLimbs | vendors/tezos-modded/vendors/ocaml-secp256k1/src/scalar_8x32_impl.h:196-214 | the negative modulo n, with 0 staying 0 |
| Scalar8x32.CondNegate | vendors/tezos-modded/vendors/ocaml-secp256k1/src/scalar_8x32_impl.h:238-260 | negates modulo n exactly when asked and returns the sign |
| Scalar8x32.Reduce512 | vendors/tezos-modded/vendors/ocaml-secp256k1/src/scalar_8x32_impl.h:349-489 | the residue modulo n in [0, n) of every 512-bit number |
| Scalar8x32.MulLimbs | vendors/tezos-modded/vendors/ocaml-secp256k1/src/scalar_8x32_impl.h:647-651 | a * b modulo n in [0, n) for all 256-bit limb vectors |
| Scalar8x32.SqrLimbs | vendors/tezos-modded/vendors/ocaml-secp256k1/src/scalar_8x32_impl.h:669-673 | a * a modulo n in [0, n) for all 256-bit limb vectors |
| ScalarBits.TailIsQuotient | vendors/tezos-modded/vendors/ocaml-secp256k1/src/scalar_8x32_impl.h:59-73 | the words from k on are the value divided by 2^(32k) |
| ScalarBits.GetBits | vendors/tezos-modded/vendors/ocaml-secp256k1/src/scalar_8x32_impl.h:59-62 | the window of bits of the value, for every window inside one word, empty ones included |
| ScalarBits.GetBitsVar | vendors/tezos-modded/vendors/ocaml-secp256k1/src/scalar_8x32_impl.h:64-73 | the window of bits of the value, for windows inside a word and across two |
| ScalarBits.ShrInt | vendors/tezos-modded/vendors/ocaml-secp256k1/src/scalar_8x32_impl.h:653-667 | the value divided by 2^n, and the bits shifted out are the remainder |
| ScalarBits.CaddBit | vendors/tezos-modded/vendors/ocaml-secp256k1/src/scalar_8x32_impl.h:139-163 | adds 2^bit exactly when asked, whichever word the bit lies in, with the carry rippling through all words |
| BignumQ.Constants | vendors/tezos-modded/vendors/ocaml-hacl/src/Hacl_Ed25519.c:2077-2095 | the stored limbs are the group order of section 5.1 of RFC 8032 and the floor of 2^512 divided by it |
| BignumQ.ColumnsAreProduct | vendors/tezos-modded/vendors/ocaml-hacl/src/Hacl_Ed25519.c:2249-2302 | the nine columns of 56-bit limbs sum to the product |
| BignumQ.MulFive | vendors/tezos-modded/vendors/ocaml-hacl/src/Hacl_Ed25519.c:2249-2302 | the wide product, no column overflowing 128 bits |
| BignumQ.Carry | vendors/tezos-modded/vendors/ocaml-hacl/src/Hacl_Ed25519.c:2304-2371 | carrying nine wide columns into ten limbs keeps the value |
| BignumQ.LowMulFive | vendors/tezos-modded/vendors/ocaml-hacl/src/Hacl_Ed25519.c:2189-2247 | the product modulo 2^264 |
| BignumQ.Div248 | vendors/tezos-modded/vendors/ocaml-hacl/src/Hacl_Ed25519.c:2384-2398 | the floor of t / 2^248 |
| BignumQ.Div264 | vendors/tezos-modded/vendors/ocaml-hacl/src/Hacl_Ed25519.c:2400-2414 | the floor of t / 2^264 |
| BignumQ.Mod264 | vendors/tezos-modded/vendors/ocaml-hacl/src/Hacl_Ed25519.c:2373-2382 | t modulo 2^264 |
| BignumQ.SubMod264 | vendors/tezos-modded/vendors/ocaml-hacl/src/Hacl_Ed25519.c:2128-2155 | the difference modulo 2^264, borrows read off the top bit of a wrapped subtraction |
| BignumQ.SubmConditional | vendors/tezos-modded/vendors/ocaml-hacl/src/Hacl_Ed25519.c:2157-2187 | subtracts the order once if and only if the value reaches it |
| BignumQ.QuotientClose | vendors/tezos-modded/vendors/ocaml-hacl/src/Hacl_Ed25519.c:2416-2431 | for every t < 2^512 the estimated quotient is the true one or one less |
| BignumQ.RemainderLow | vendors/tezos-modded/vendors/ocaml-hacl/src/Hacl_Ed25519.c:2433-2462 | the remainder computed modulo 2^264 is the true difference, and one conditional subtraction finishes it |
| BignumQ.BarrettExact | vendors/tezos-modded/vendors/ocaml-hacl/src/Hacl_Ed25519.c:2445-2478 | the whole scheme is t modulo q for every t < 2^512, stated on integers |
| BignumQ.BarrettQuotient | vendors/tezos-modded/vendors/ocaml-hacl/src/Hacl_Ed25519.c:2416-2431 | the quotient estimate lands in its slice of the shared buffer and the constants there survive |
| BignumQ.BarrettRemainder | vendors/tezos-modded/vendors/ocaml-hacl/src/Hacl_Ed25519.c:2433-2443 | the difference modulo 2^264 lands in its slice of the shared buffer |
| BignumQ.BarrettReduction | vendors/tezos-modded/vendors/ocaml-hacl/src/Hacl_Ed25519.c:2445-2478 | t modulo q with all limbs below 2^56, for every t < 2^512 |
| BignumQ.MulModq | vendors/tezos-modded/vendors/ocaml-hacl/src/Hacl_Ed25519.c:2480-2490 | x * y modulo q, fully reduced |
| BignumQ.AddModq | vendors/tezos-modded/vendors/ocaml-hacl/src/Hacl_Ed25519.c:2492-2541 | (x + y) modulo q, fully reduced |
| FieldProduct.UpperColumns | vendors/tezos-modded/vendors/ocaml-secp256k1/src/field_5x52_int128_impl.h:41-76 | columns 3, 4 and 8 fold without overflowing 128 bits and keep the value modulo p, with the stated bit bounds |
| FieldProduct.BottomColumn | vendors/tezos-modded/vendors/ocaml-secp256k1/src/field_5x52_int128_impl.h:78-101 | columns 0 and 5 with the four carried bits fold at weight 2^48, value kept modulo p |
| FieldProduct.MiddleColumn | vendors/tezos-modded/vendors/ocaml-secp256k1/src/field_5x52_int128_impl.h:103-118 | one low and one high column fold, value kept, carries bounded |
| FieldProduct.TopLimbs | vendors/tezos-modded/vendors/ocaml-secp256k1/src/field_5x52_int128_impl.h:140-151 | the last limbs absorb the remaining carries; the top one has 49 bits |
| FieldProduct.FoldColumns | vendors/tezos-modded/vendors/ocaml-secp256k1/src/field_5x52_int128_impl.h:18-153 | nine columns become five limbs differing from them by a multiple of p |
| FieldProduct.ColumnsAreProduct | vendors/tezos-modded/vendors/ocaml-secp256k1/src/field_5x52_int128_impl.h:18-153 | the nine columns sum to the product |
| FieldProduct.MulInner | vendors/tezos-modded/vendors/ocaml-secp256k1/src/field_5x52_int128_impl.h:18-153 | for 56-bit limbs with a 52-bit top: no accumulator overflow, output limbs within the weak bounds, value a * b modulo p |
| FieldProduct.SqrInner | vendors/tezos-modded/vendors/ocaml-secp256k1/src/field_5x52_int128_impl.h:155-275 | the same for the square |
| Field5x52.FirstSumFits | vendors/tezos-modded/vendors/ocaml-secp256k1/src/field_5x52_impl.h:33-51 | the first sum of normalization fits 64 bits for every element of magnitude m if and only if m is at most 2047, although magnitude 2048 passes the check |
| Field5x52.FirstPass | vendors/tezos-modded/vendors/ocaml-secp256k1/src/field_5x52_impl.h:54-76 | one pass subtracts a multiple of p and lands in [0, 2p) |
| Field5x52.AtLeastPExact | vendors/tezos-modded/vendors/ocaml-secp256k1/src/field_5x52_impl.h:78-80 | the limb test for a final reduction is exactly: the value is at least p |
| Field5x52.SecondPass | vendors/tezos-modded/vendors/ocaml-secp256k1/src/field_5x52_impl.h:82-94 | the final reduction gives the normalized limbs |
| Field5x52.Fe.Normalize | vendors/tezos-modded/vendors/ocaml-secp256k1/src/field_5x52_impl.h:54-95 | the value becomes the unique representative in [0, p) with canonical limbs |
| Field5x52.Fe.NormalizeWeak | vendors/tezos-modded/vendors/ocaml-secp256k1/src/field_5x52_impl.h:97-119 | value kept modulo p, magnitude 1, below 2p |
| Field5x52.Fe.NormalizeVar | vendors/tezos-modded/vendors/ocaml-secp256k1/src/field_5x52_impl.h:121-163 | the branching form gives the same representative |
| Field5x52.Fe.NormalizesToZero | vendors/tezos-modded/vendors/ocaml-secp256k1/src/field_5x52_impl.h:165-186 | true if and only if the value is 0 modulo p, element unchanged |
| Field5x52.Fe.NormalizesToZeroVar | vendors/tezos-modded/vendors/ocaml-secp256k1/src/field_5x52_impl.h:188-227 | the early-exit form decides the same |
| Field5x52.Fe.CmpVar | vendors/tezos-modded/vendors/ocaml-secp256k1/src/field_5x52_impl.h:267-284 | orders normalized elements by value |
| Field5x52.Fe.NegateFrom | vendors/tezos-modded/vendors/ocaml-secp256k1/src/field_5x52_impl.h:372-387 | the negative modulo p with magnitude m + 1, no limb going below zero, in place or not |
| Field5x52.Fe.AddTo | vendors/tezos-modded/vendors/ocaml-secp256k1/src/field_5x52_impl.h:402-416 | values and magnitudes add exactly |
| Field5x52.Fe.MulFrom | vendors/tezos-modded/vendors/ocaml-secp256k1/src/field_5x52_impl.h:418-432 | the product modulo p with magnitude 1, for magnitudes up to 8, also when the result is the first operand |
| Field5x52.Fe.SqrFrom | vendors/tezos-modded/vendors/ocaml-secp256k1/src/field_5x52_impl.h:434-445 | the square modulo p with magnitude 1 |
| Field5x52.Fe.ToStorage | vendors/tezos-modded/vendors/ocaml-secp256k1/src/field_5x52_impl.h:474-482 | four 64-bit words with the same value |
| Field5x52.Fe.FromStorage | vendors/tezos-modded/vendors/ocaml-secp256k1/src/field_5x52_impl.h:484-494 | the inverse: a normalized element with the stored value |
| FieldProduct26.FoldLimb | vendors/tezos-modded/vendors/ocaml-secp256k1/src/field_10x26_impl.h:574-583 | one round of the two accumulators: a low and a high column fold with the value kept and the carries bounded |
| FieldProduct26.FoldThird | vendors/tezos-modded/vendors/ocaml-secp256k1/src/field_10x26_impl.h:660-732 | columns 6 to 8 and 16 to 18 fold inside 64 bits; the largest accumulator stays within 0x9000016FBFFFC2F8, as the source asserts and the proof does |
| FieldProduct26.Bottom | vendors/tezos-modded/vendors/ocaml-secp256k1/src/field_10x26_impl.h:750-787 | the last carries wrap to the bottom limbs, value kept modulo p, limb 2 at most 2 * (2^26 - 1) |
| FieldProduct26.FoldColumns26 | vendors/tezos-modded/vendors/ocaml-secp256k1/src/field_10x26_impl.h:461-788 | nineteen columns become ten limbs differing from them by a multiple of p |
| FieldProduct26.ColumnsAreProduct26 | vendors/tezos-modded/vendors/ocaml-secp256k1/src/field_10x26_impl.h:461-788 | the nineteen columns sum to the product |
| FieldProduct26.MulInner26 | vendors/tezos-modded/vendors/ocaml-secp256k1/src/field_10x26_impl.h:461-788 | for 30-bit limbs with a 26-bit top: no 64-bit overflow, output within the weak bounds, value a * b modulo p |
| FieldProduct26.SqrInner26 | vendors/tezos-modded/vendors/ocaml-secp256k1/src/field_10x26_impl.h:790-1062 | the same for the square |
| Field10x26.FirstSumFits26 | vendors/tezos-modded/vendors/ocaml-secp256k1/src/field_10x26_impl.h:43-52 | the first sum fits 32 bits for every element of magnitude m if and only if m is at most 31 |
| Field10x26.AtLeastPExact26 | vendors/tezos-modded/vendors/ocaml-secp256k1/src/field_10x26_impl.h:66-77 | the limb test for a final reduction is exactly: the value is at least p |
| Field10x26.Fe26.Normalize | vendors/tezos-modded/vendors/ocaml-secp256k1/src/field_10x26_impl.h:43-96 | the value becomes the unique representative in [0, p) with canonical limbs |
| Field10x26.Fe26.NormalizeWeak | vendors/tezos-modded/vendors/ocaml-secp256k1/src/field_10x26_impl.h:98-127 | value kept modulo p, magnitude 1, below 2p |
| Field10x26.Fe26.NormalizesToZero | vendors/tezos-modded/vendors/ocaml-secp256k1/src/field_10x26_impl.h:185-212 | true if and only if the value is 0 modulo p |
| Field10x26.Fe26.MulFrom | vendors/tezos-modded/vendors/ocaml-secp256k1/src/field_10x26_impl.h:1065-1079 | the product modulo p with magnitude 1, for magnitudes up to 8 |
| Field10x26.Fe26.SqrFrom | vendors/tezos-modded/vendors/ocaml-secp256k1/src/field_10x26_impl.h:1081-1092 | the square modulo p with magnitude 1 |
| PolySpec.EvalIsPolynomial | vendors/tezos-modded/vendors/ocaml-hacl/src/Hacl_Poly1305_64.c:155-194 | absorbing block by block is the polynomial of section 2.5 of RFC 8439 in r, modulo 2^130 - 5 |
| PolySpec.EvalAppend | vendors/tezos-modded/vendors/ocaml-hacl/src/Hacl_Poly1305_64.c:167-239 | a message cut at a block boundary can be absorbed in two parts |
| Poly1305x64.ColumnsValue | vendors/tezos-modded/vendors/ocaml-hacl/src/Hacl_Poly1305_64.c:108-133 | the three columns, with the top limb wrapped as 20 times the lowest, are the product modulo p |
| Poly1305x64.MulShiftReduce | vendors/tezos-modded/vendors/ocaml-hacl/src/Hacl_Poly1305_64.c:121-133 | the loop that shifts the operand while accumulating computes those columns without overflow |
| Poly1305x64.Fmul | vendors/tezos-modded/vendors/ocaml-hacl/src/Hacl_Poly1305_64.c:135-153 | the product modulo p, accumulator bounds restored |
| Poly1305x64.AddAndMultiply | vendors/tezos-modded/vendors/ocaml-hacl/src/Hacl_Poly1305_64.c:155-165 | acc becomes (acc + block) * r modulo p within the accumulator bounds, so the bounds hold after any number of blocks |
| Poly1305x64.LoadLimbs | vendors/tezos-modded/vendors/ocaml-hacl/src/Hacl_Poly1305_64.c:167-194 | sixteen octets load as three limbs with the same little-endian value |
| Poly1305x64.State.Init | vendors/tezos-modded/vendors/ocaml-hacl/src/Hacl_Poly1305_64.c:409-437 | the key limbs hold the number of the sixteen key octets with exactly the top four bits of octets 3, 7, 11 and 15 and the low two bits of octets 4, 8 and 12 cleared, and nothing is absorbed |
| PolyKey.ClampIsOctets | vendors/tezos-modded/vendors/ocaml-hacl/src/Hacl_Poly1305_64.c:409-420 | the clamping mask on the 128-bit number clears those bits of the octets and no others, for every key (section 2.5 of RFC 8439) |
| PolyAnswer.KnownTag | vendors/tezos-modded/vendors/ocaml-hacl/src/Hacl_Poly1305_64.c:301-401 | the key and message of section 2.5.2 of RFC 8439 give its sixteen tag octets |
| PolyAnswer.ToBytesOfNumber | vendors/tezos-modded/vendors/ocaml-hacl/src/Hacl_Poly1305_64.c:380-390 | writing the number of any octets in little-endian order gives the octets back |
| Poly1305x64.State.UpdateBlock | vendors/tezos-modded/vendors/ocaml-hacl/src/Hacl_Poly1305_64.c:167-194 | one full block, with its 2^128 bit, is absorbed |
| Poly1305x64.State.ProcessLastBlock | vendors/tezos-modded/vendors/ocaml-hacl/src/Hacl_Poly1305_64.c:196-239 | a short last block is absorbed with its closing 1 octet and zero filling |
| Poly1305x64.State.Update | vendors/tezos-modded/vendors/ocaml-hacl/src/Hacl_Poly1305_64.c:445-459 | whole blocks are absorbed in order |
| Poly1305x64.State.UpdateLast | vendors/tezos-modded/vendors/ocaml-hacl/src/Hacl_Poly1305_64.c:462-474 | the last octets are absorbed and the accumulator becomes the canonical residue |
| Poly1305x64.State.Finish | vendors/tezos-modded/vendors/ocaml-hacl/src/Hacl_Poly1305_64.c:477-499 | the sum with the second key half modulo 2^128 in little-endian order |
| Poly1305x64.SmallCarry | vendors/tezos-modded/vendors/ocaml-hacl/src/Hacl_Poly1305_64.c:241-276 | after wrapping the top carry the second limb still fits, so one more carry suffices |
| Poly1305x64.LastPass | vendors/tezos-modded/vendors/ocaml-hacl/src/Hacl_Poly1305_64.c:241-276 | the canonical residue in [0, 2^130 - 5) for every accumulator within bounds |
| Poly1305x64.GteMask | vendors/tezos-modded/vendors/ocaml-hacl/src/kremlib_base.h:168-178 | the mask comparison is the order for arguments below 2^63, and every limb is below that |
| Poly1305x64.AuthenticatedIsInput | vendors/tezos-modded/vendors/ocaml-hacl/src/Hacl_Poly1305_64.c:346-353 | the one-shot form cuts the offset of the last partial block to 32 bits: the message it authenticates is the input if and only if the input is shorter than 2^32 octets, or has no partial block, or the octets at the cut offset repeat the true ones |
| Poly1305x64.LengthDecides | vendors/tezos-modded/vendors/ocaml-hacl/src/Hacl_Poly1305_64.c:346-353 | all messages of a length are authenticated as they stand if and only if the length is below 2^32 or a multiple of 16 |
| Poly1305x64.WrongTag | vendors/tezos-modded/vendors/ocaml-hacl/src/Hacl_Poly1305_64.c:346-353 | 2^32 zero octets and a one, under the key 1, 0, ..., 0: the tag returned is not the tag of the message |
| Poly1305x64.OneTimeAuth | vendors/tezos-modded/vendors/ocaml-hacl/src/Hacl_Poly1305_64.c:301-401 | the tag of the message so authenticated, for every length below 2^64 |
| Poly1305x64.Streaming | vendors/tezos-modded/vendors/ocaml-hacl/src/Hacl_Poly1305_64.c:403-499 | every split into whole blocks and a last part gives the tag of the whole message |
| Poly1305x32.ColumnsValue | vendors/tezos-modded/vendors/ocaml-hacl/src/Hacl_Poly1305_32.c:103-128 | the five columns are the product modulo p |
| Poly1305x32.State.Init | vendors/tezos-modded/vendors/ocaml-hacl/src/Hacl_Poly1305_32.c:482-512 | the five key limbs hold the number of the key octets clamped in the same way |
| Poly1305x32.Fmul | vendors/tezos-modded/vendors/ocaml-hacl/src/Hacl_Poly1305_32.c:130-145 | the product modulo p, no 64-bit overflow, bounds restored |
| Poly1305x32.LoadLimbs | vendors/tezos-modded/vendors/ocaml-hacl/src/Hacl_Poly1305_32.c:160-196 | sixteen octets load as five overlapping reads with the same little-endian value |
| Poly1305x32.ThirdPass | vendors/tezos-modded/vendors/ocaml-hacl/src/Hacl_Poly1305_32.c:253-323 | the third carry pass changes nothing once the limbs are canonical |
| Poly1305x32.LastPass | vendors/tezos-modded/vendors/ocaml-hacl/src/Hacl_Poly1305_32.c:253-323 | the canonical residue for every accumulator within bounds |
| Poly1305x32.OneTimeAuth | vendors/tezos-modded/vendors/ocaml-hacl/src/Hacl_Poly1305_32.c:422-468 | the tag, for every length below 2^64, with the same cut offset |
| Poly1305x32.Streaming | vendors/tezos-modded/vendors/ocaml-hacl/src/Hacl_Poly1305_32.c:481-593 | every split into whole blocks and a last part gives the tag of the whole message |
| Poly1305x32.SameTag | vendors/tezos-modded/vendors/ocaml-hacl/src/Hacl_Poly1305_32.c:422-468 | the one-shot functions of the 3-limb and the 5-limb version return the same tag for every message and key |
| Poly1305x32.FourTags | vendors/tezos-modded/vendors/ocaml-hacl/src/Hacl_Poly1305_32.c:422-604 | one-shot and streaming, 3-limb and 5-limb: all four return the same tag, for every split of every message whose length the one-shot functions can take |
| Ecdsa.TwoCases | vendors/tezos-modded/vendors/ocaml-secp256k1/src/ecdsa_impl.h:214-232 | x modulo n is r if and only if x is r, or r is below p - n and x is r + n |
| Ecdsa.EqXExact | vendors/tezos-modded/vendors/ocaml-secp256k1/src/group_impl.h:252-258 | for w the square of the z part, w * xr is congruent to the x part if and only if xr is the affine x-coordinate |
| Ecdsa.EqX | vendors/tezos-modded/vendors/ocaml-secp256k1/src/group_impl.h:252-258 | the test on Jacobian coordinates decides whether xr is the x-coordinate |
| Ecdsa.SigVerify | vendors/tezos-modded/vendors/ocaml-secp256k1/src/ecdsa_impl.h:201-269 | accepts if and only if r and s are non-zero and some finite point R with x-coordinate r modulo n has s R = m G + r Q (section 4.1.4 of SEC 1), without inverting a coordinate |
| Ecdsa.VerifiesSolvable | vendors/tezos-modded/vendors/ocaml-secp256k1/src/ecdsa_impl.h:201-269 | validity by way of the inverse of s is solvability of s R = m G + r Q by a finite point whose x-coordinate is r modulo n; every other signature is rejected |
| Ecdsa.Signed | vendors/tezos-modded/vendors/ocaml-secp256k1/src/ecdsa_impl.h:271-311 | every signature made with non-zero nonce, r and s is valid under sk * G, and its recovery id, flipped with a negated s, gives sk * G back |
| Ecdsa.SigSign | vendors/tezos-modded/vendors/ocaml-secp256k1/src/ecdsa_impl.h:271-311 | succeeds if and only if s is not 0; then 0 < s <= n/2, the signature is valid if and only if r is not 0 (left to the caller to check), and recovery returns sk * G |
| Ecdsa.SigRecover | vendors/tezos-modded/vendors/ocaml-secp256k1/src/recovery.h:87-121 | returns the recovered key of section 4.1.6 of SEC 1 exactly, and the signature is valid under any key it returns |
| Ecdsa.RecoveredVerifies | vendors/tezos-modded/vendors/ocaml-secp256k1/src/recovery.h:87-121 | any recovered key accepts the signature |
| Ecdsa.ClaimedOfKey | vendors/tezos-modded/vendors/ocaml-secp256k1/src/recovery.h:110-119 | deriving a key from a nonce point and verifying under it leads back to that point, for every point |
| Ecdsa.KeyOfClaimed | vendors/tezos-modded/vendors/ocaml-secp256k1/src/recovery.h:110-119 | deriving a key from the point that verification computes leads back to the key, for every key |
| Ecdsa.RecoveryExact | vendors/tezos-modded/vendors/ocaml-secp256k1/src/recovery.h:87-121 | recovery under an id below 4 returns Q if and only if Q is not infinity, the signature is valid under Q, and the id is that of the point verification computes: x at least n, and y odd |
| Ecdsa.BothSignsVerify | vendors/tezos-modded/vendors/ocaml-secp256k1/src/ecdsa_impl.h:301-309 | s and n - s verify together, so the low-s rule loses no validity |
| Der.ReadLen | vendors/tezos-modded/vendors/ocaml-secp256k1/src/ecdsa_impl.h:49-97 | reads the one minimal definite length that stands at the cursor, narrowed to int, a long form only when it lies within the input; reports failure only when no minimal length that fits the rest stands there, and the cursor never passes the end (section 8.1.3 of X.690) |
| Der.LengthUnique | vendors/tezos-modded/vendors/ocaml-secp256k1/src/ecdsa_impl.h:49-97 | two minimal length encodings at one place are the same length |
| Der.ContentValue | vendors/tezos-modded/vendors/ocaml-secp256k1/src/ecdsa_impl.h:125-142 | the value of a two's-complement content, and 0 for every negative one and every one of n or more |
| Der.ParseInteger | vendors/tezos-modded/vendors/ocaml-secp256k1/src/ecdsa_impl.h:99-143 | an integer is read if and only if a minimal one stands there, and its value is returned, 0 for a negative one and one of n or more (section 8.3 of X.690) |
| Der.IntUnique | vendors/tezos-modded/vendors/ocaml-secp256k1/src/ecdsa_impl.h:99-143 | two integer encodings at one place have the same content |
| Der.SigParse | vendors/tezos-modded/vendors/ocaml-secp256k1/src/ecdsa_impl.h:145-175 | accepted if and only if the octets are exactly the encoding, with nothing behind it, of two minimal integers whose body has fewer than 2^31 octets; the values are theirs, and 0 for an integer that is negative or n or more |
| Der.EncodingUnique | vendors/tezos-modded/vendors/ocaml-secp256k1/src/ecdsa_impl.h:145-175 | an octet string encodes at most one pair of contents |
| Der.Content | vendors/tezos-modded/vendors/ocaml-secp256k1/src/ecdsa_impl.h:177-186 | the shortest non-negative content of a scalar, at most 33 octets |
| Der.ContentUnique | vendors/tezos-modded/vendors/ocaml-secp256k1/src/ecdsa_impl.h:177-186 | a non-negative number has one minimal content |
| Der.SigSerialize | vendors/tezos-modded/vendors/ocaml-secp256k1/src/ecdsa_impl.h:177-199 | writes the encoding of both scalars if and only if it fits, reports the size needed either way, and leaves the other octets alone |
| Der.SerializeThenParse | vendors/tezos-modded/vendors/ocaml-secp256k1/src/ecdsa_impl.h:145-199 | parsing what was serialized gives the scalars back, for all scalars |
| Der.ParseThenSerialize | vendors/tezos-modded/vendors/ocaml-secp256k1/src/ecdsa_impl.h:145-199 | serializing what was parsed gives the octets back, for every accepted string whose integers are non-negative and below n, and for every one whose two scalars come out non-zero |
| Der.OneEncoding | vendors/tezos-modded/vendors/ocaml-secp256k1/src/ecdsa_impl.h:131-175 | no two strings parse to the same pair of non-zero scalars |
| Der.KnownEncodings | vendors/tezos-modded/vendors/ocaml-secp256k1/src/ecdsa_impl.h:177-199 | the eight octets of the signature (1, 1), and two lengths in long form |
| Blake2Answer.KnownDigest | vendors/tezos-modded/vendors/ocaml-blake2/src/blake2b-ref.c:177-300 | the 64-octet digest of 0x61 0x62 0x63 is that of appendix A of RFC 7693: all twelve rounds, worked out by half rounds |
| Blake2Facts.RowsPermute | vendors/tezos-modded/vendors/ocaml-blake2/src/blake2b-ref.c:30-44 | every row of the message schedule is a permutation: each of the sixteen words comes at the place given for it |
| Blake2Facts.RowsRepeat | vendors/tezos-modded/vendors/ocaml-blake2/src/blake2b-ref.c:42-43 | the last two rounds use the message words in the order of the first two |
| Blake2Facts.InitialValues | vendors/tezos-modded/vendors/ocaml-blake2/src/blake2b-ref.c:22-28 | the initial value holds the first 64 fractional bits of the square roots of the first eight primes (section 2.6 of RFC 7693) |
| Blake2Facts.RotrAt | vendors/tezos-modded/vendors/ocaml-blake2/src/blake2b-ref.c:153-163 | each bit of a word rotated by 32, 24, 16 or 63 is the bit that many places further up, round the end |
| Blake2Facts.StartsDiffer | vendors/tezos-modded/vendors/ocaml-blake2/src/blake2b-ref.c:185-198 | the working vector starts with the hash and the initial value; the counter and the flags change one word each |
| Blake2Facts.InitialHashAt | vendors/tezos-modded/vendors/ocaml-blake2/src/blake2b-ref.c:72-118 | the parameters change only the first word of the initial value: digest length, key length, fanout 1 and depth 1 |
| Blake2Spec.ChainAppend | vendors/tezos-modded/vendors/ocaml-blake2/src/blake2b-ref.c:177-216 | the chain value of a longer message is one compression away, with the byte count as counter (section 3.3 of RFC 7693) |
| Blake2b.State.IncrementCounter | vendors/tezos-modded/vendors/ocaml-blake2/src/blake2b-ref.c:66-70 | the two counter words together count up exactly, the carry included |
| Blake2b.MixInPlace | vendors/tezos-modded/vendors/ocaml-blake2/src/blake2b-ref.c:153-163 | the in-place quarter step is the mixing function G |
| Blake2b.StepInPlace | vendors/tezos-modded/vendors/ocaml-blake2/src/blake2b-ref.c:165-175 | the right columns and diagonals with the permuted message words |
| Blake2b.State.Compress | vendors/tezos-modded/vendors/ocaml-blake2/src/blake2b-ref.c:177-216 | the compression function of the loaded block, counter and flags |
| Blake2b.State.CompressBlock | vendors/tezos-modded/vendors/ocaml-blake2/src/blake2b-ref.c:221-246 | one block moves the chain value and the counter on together |
| Blake2b.State.Blocks | vendors/tezos-modded/vendors/ocaml-blake2/src/blake2b-ref.c:229-243 | whole blocks are compressed from the input as long as more follows; the rest is held back |
| Blake2b.State.Update | vendors/tezos-modded/vendors/ocaml-blake2/src/blake2b-ref.c:221-246 | for every state and every input: the chain covers the message up to the octets held back, of which there are 1 to 128 after any non-empty message, and the counter counts the compressed ones |
| Blake2b.State.Final | vendors/tezos-modded/vendors/ocaml-blake2/src/blake2b-ref.c:248-270 | the last block is compressed only here, zero-filled and flagged; a second call or a short output is refused without any change |
| Blake2b.State.Init | vendors/tezos-modded/vendors/ocaml-blake2/src/blake2b-ref.c:98-117 | the parameter block is mixed into the initial value |
| Blake2b.State.InitKey | vendors/tezos-modded/vendors/ocaml-blake2/src/blake2b-ref.c:120-151 | a key is absorbed as one zero-filled block |
| Blake2b.Blake2b | vendors/tezos-modded/vendors/ocaml-blake2/src/blake2b-ref.c:273-300 | the digest of RFC 7693 when the sizes are allowed, an error exactly when not |
| Blake2b.Pieces | vendors/tezos-modded/vendors/ocaml-blake2/src/blake2b-ref.c:221-270 | every split of the input over updates gives the one-shot digest |
| Sha256Words.ChForms | vendors/tezos-modded/vendors/ocaml-secp256k1/src/hash_impl.h:16 | the multiplexer form of Ch is the exclusive-or form of the standard |
| Sha256Words.MajForms | vendors/tezos-modded/vendors/ocaml-secp256k1/src/hash_impl.h:17 | the or-form of Maj is the exclusive-or form of the standard |
| Sha256Words.SwapLoads | vendors/tezos-modded/vendors/ocaml-secp256k1/src/hash_impl.h:30-34 | loading little-endian and swapping is loading big-endian |
| Sha256Answer.KnownDigest | vendors/tezos-modded/vendors/ocaml-secp256k1/src/hash_impl.h:36-163 | the 32-octet digest of 0x61 0x62 0x63 is that of the standard: all 64 rounds, worked out four at a time |
| Sha256Facts.BigSigma0At | vendors/tezos-modded/vendors/ocaml-secp256k1/src/hash_impl.h:18 | bit j of the result is the exclusive or of bits j + 2, j + 13 and j + 22 of the word, round the end |
| Sha256Facts.BigSigma1At | vendors/tezos-modded/vendors/ocaml-secp256k1/src/hash_impl.h:19 | the same for j + 6, j + 11 and j + 25 |
| Sha256Facts.SmallSigma0At | vendors/tezos-modded/vendors/ocaml-secp256k1/src/hash_impl.h:20 | bit j is the exclusive or of bits j + 7 and j + 18, round the end, and of bit j + 3 where there is one |
| Sha256Facts.SmallSigma1At | vendors/tezos-modded/vendors/ocaml-secp256k1/src/hash_impl.h:21 | the same for j + 17, j + 19 and j + 10 |
| Sha256Facts.ChAt | vendors/tezos-modded/vendors/ocaml-secp256k1/src/hash_impl.h:16 | where the first word has a one the result is the second word, elsewhere the third |
| Sha256Facts.RoundConstants | vendors/tezos-modded/vendors/ocaml-secp256k1/src/hash_impl.h:53-119 | each round constant holds the first 32 fractional bits of the cube root of its prime (section 4.2.2 of FIPS 180-4) |
| Sha256Facts.InitialWords | vendors/tezos-modded/vendors/ocaml-secp256k1/src/hash_impl.h:36-45 | the initial hash holds the first 32 fractional bits of the square roots of the first eight primes (section 5.3.3 of FIPS 180-4) |
| Sha256Facts.PadLeast | vendors/tezos-modded/vendors/ocaml-secp256k1/src/hash_impl.h:149-157 | the padding fills up to whole blocks with 9 to 72 octets, the fewest that hold its marker and the length |
| Sha256Streaming.Roll | vendors/tezos-modded/vendors/ocaml-secp256k1/src/hash_impl.h:70-119 | overwriting word t mod 16 in place yields word t of the 64-word schedule and keeps the last sixteen |
| Sha256Streaming.Renamed | vendors/tezos-modded/vendors/ocaml-secp256k1/src/hash_impl.h:53-119 | rotating the register names instead of moving the registers is the same round |
| Sha256Streaming.Transform | vendors/tezos-modded/vendors/ocaml-secp256k1/src/hash_impl.h:49-129 | the rolling 16-word transform is the compression function over the full schedule (section 6.2.2 of FIPS 180-4) |
| Sha256Streaming.Sha256.Write | vendors/tezos-modded/vendors/ocaml-secp256k1/src/hash_impl.h:131-147 | for every state and every chunk: the chain covers the whole blocks of the message so far, and the buffer its rest |
| Sha256Streaming.LengthBytes | vendors/tezos-modded/vendors/ocaml-secp256k1/src/hash_impl.h:149-157 | the two 32-bit length words are the 64-bit bit length |
| Sha256Streaming.Sha256.Finalize | vendors/tezos-modded/vendors/ocaml-secp256k1/src/hash_impl.h:149-163 | the digest of the whole message with the padding of section 5.1.1 of FIPS 180-4 |
| Sha256Full.State.FillSchedule | vendors/tezos-modded/vendors/ocaml-hacl/src/Hacl_SHA2_256.c:159-187 | the stored 64 words are the schedule of the block |
| Sha256Full.State.Update | vendors/tezos-modded/vendors/ocaml-hacl/src/Hacl_SHA2_256.c:159-242 | one block is compressed and the block counter moves on |
| Sha256Full.State.UpdateMulti | vendors/tezos-modded/vendors/ocaml-hacl/src/Hacl_SHA2_256.c:244-251 | whole blocks are compressed in order |
| Sha256Full.State.UpdateLast | vendors/tezos-modded/vendors/ocaml-hacl/src/Hacl_SHA2_256.c:253-278 | the rest with its padding, in one or two blocks, completes the fold over the padded message |
| Sha256Full.PadLengths | vendors/tezos-modded/vendors/ocaml-hacl/src/Hacl_SHA2_256.c:253-278 | both implementations place the same number of zero octets |
| Sha256Full.Hash | vendors/tezos-modded/vendors/ocaml-hacl/src/Hacl_SHA2_256.c:286-297 | the one-shot digest |
| Sha256Full.BothDigests | vendors/tezos-modded/vendors/ocaml-hacl/src/Hacl_SHA2_256.c:286-297 | every split over the streaming writer gives the digest of the one-shot hash |
| Ladder.SwapConditional | vendors/tezos-modded/vendors/ocaml-hacl/src/Hacl_Curve25519.c:476-505 | the buffers are exchanged exactly when the bit is set |
| Ladder.PairStep | vendors/tezos-modded/vendors/ocaml-hacl/src/Hacl_Curve25519.c:571-586 | from ([m]Q, [m+1]Q) and a bit b, swapping, doubling, adding with base difference Q and swapping back give ([2m+b]Q, [2m+b+1]Q) |
| Ladder.SmallLoopStep | vendors/tezos-modded/vendors/ocaml-hacl/src/Hacl_Curve25519.c:571-586 | the step writes the next pair into the other two buffers, though the formulas clobber their inputs |
| Ladder.SmallLoopDoubleStep | vendors/tezos-modded/vendors/ocaml-hacl/src/Hacl_Curve25519.c:588-601 | two steps bring the live pair back to the first buffers |
| Ladder.SmallLoop | vendors/tezos-modded/vendors/ocaml-hacl/src/Hacl_Curve25519.c:603-621 | an octet is consumed from its top bit down |
| Ladder.BigLoop | vendors/tezos-modded/vendors/ocaml-hacl/src/Hacl_Curve25519.c:623-641 | octets are consumed from the last one down, the live pair holding the prefix |
| Ladder.Cmult | vendors/tezos-modded/vendors/ocaml-hacl/src/Hacl_Curve25519.c:643-654 | the result represents [k]Q for the little-endian k of any octet string (section 5 of RFC 7748) |
| Ladder.ScalarMult | vendors/tezos-modded/vendors/ocaml-hacl/src/Hacl_Curve25519.c:807-831 | the result represents [k]Q for the number k of the secret clamped in a copy (section 5 of RFC 7748) |
| Ladder.ClampKeeps | vendors/tezos-modded/vendors/ocaml-hacl/src/Hacl_Curve25519.c:807-831 | clamping keeps octets 1 to 30, the upper five bits of octet 0 and the lower six of octet 31, and fixes the others |
| Ladder.ClampedRange | vendors/tezos-modded/vendors/ocaml-hacl/src/Hacl_Curve25519.c:807-831 | a clamped scalar is a multiple of 8 in [2^254, 2^255) |
| Inversion.SquareTimes | vendors/tezos-modded/vendors/ocaml-hacl/src/Hacl_Curve25519.c:309-316 | repeated squaring multiplies the exponent by 2^count |
| Inversion.Crecip | vendors/tezos-modded/vendors/ocaml-hacl/src/Hacl_Curve25519.c:318-353 | the addition chain computes z^(p-2) modulo p, the inverse exponent for p = 2^255 - 19 |
| MidlSort.InsertOne | vendors/tezos-modded/vendors/ocaml-lmdb/src/midl.c:233-240 | the scan guarded only by index 1 never crosses l, because everything left of l dominates |
| MidlSort.InsertionSort | vendors/tezos-modded/vendors/ocaml-lmdb/src/midl.c:232-240 | the segment becomes descending and a permutation of itself, nothing else moves |
| MidlSort.Scan | vendors/tezos-modded/vendors/ocaml-lmdb/src/midl.c:259-262 | the two unguarded scans stop inside the segment, and what they passed is on the right side of the pivot |
| MidlSort.MidpointsFit | vendors/tezos-modded/vendors/ocaml-lmdb/src/midl.c:245 | the ends of all stretches long enough to be split add up inside an int if and only if the list has at most 2^30 + 3 IDs |
| MidlSort.LargestCountOverflows | vendors/tezos-modded/vendors/ocaml-lmdb/src/midl.c:245 | with 2^31 - 1 IDs the first midpoint overflows for every list |
| MidlSort.CountRearranged | vendors/tezos-modded/vendors/ocaml-lmdb/src/midl.c:220-279 | rearranging keeps the number of IDs that are at least a given one |
| MidlSort.LongerListsOverflow | vendors/tezos-modded/vendors/ocaml-lmdb/src/midl.c:244-276 | for every larger count some list makes a midpoint overflow: its first split leaves the last nine slots to be worked on next |
| MidlSort.Partition | vendors/tezos-modded/vendors/ocaml-lmdb/src/midl.c:245-266 | the segment is permuted so that all elements up to the pivot dominate all behind it, and the pivot is the median of the first, middle and last element |
| MidlSort.SplitKeeps | vendors/tezos-modded/vendors/ocaml-lmdb/src/midl.c:267-276 | replacing a segment by its two parts keeps all pending segments disjoint and ordered among each other |
| MidlSort.DepthBound | vendors/tezos-modded/vendors/ocaml-lmdb/src/midl.c:223-224 | with the larger part pushed, sizes halve down the stack, so 64 entries suffice for any int count |
| MidlSort.PartitionStep | vendors/tezos-modded/vendors/ocaml-lmdb/src/midl.c:244-277 | one partition keeps the sorting invariant, stays inside the stack and shrinks the work left |
| MidlSort.Sort | vendors/tezos-modded/vendors/ocaml-lmdb/src/midl.c:220-279 | for every list of at most 2^30 + 3 IDs: a descending permutation of the input, the count and all cells behind it unchanged, and the loop ends |
| MidlLists.Search | vendors/tezos-modded/vendors/ocaml-lmdb/src/midl.c:34-67 | an index between 1 and count + 1 that separates the larger ids from the others |
| MidlLists.SplitIsFirstAtMost | vendors/tezos-modded/vendors/ocaml-lmdb/src/midl.c:34-67 | in a strictly descending list that index is the first one whose id is at most the wanted id, and no other index is |
| MidlLists.MoveSmaller | vendors/tezos-modded/vendors/ocaml-lmdb/src/midl.c:207-208 | the sentinel in slot 0 stops the inner scan, and no unread cell is overwritten |
| MidlLists.MergeOne | vendors/tezos-modded/vendors/ocaml-lmdb/src/midl.c:205-210 | merging one id keeps the invariant that the write index runs ahead of the unread cells by the ids still to merge |
| MidlLists.XMerge | vendors/tezos-modded/vendors/ocaml-lmdb/src/midl.c:201-213 | the list becomes the descending multiset union of both, in place, cells behind it unchanged |
| MidlGrow.NeedSuffices | vendors/tezos-modded/vendors/ocaml-lmdb/src/midl.c:143-155 | the rounded size covers the request if and only if the 32-bit sum does not wrap |
| MidlGrow.NeedCanFail | vendors/tezos-modded/vendors/ocaml-lmdb/src/midl.c:143-155 | a request for which the wrapped size is too small |
| MidlGrow.NeedExact | vendors/tezos-modded/vendors/ocaml-lmdb/src/midl.c:143-155 | after a request all IDs have room if and only if they fit already or the rounded sum does not wrap, the 32-bit sum of the counts included |
| MidlGrow.RangeExact | vendors/tezos-modded/vendors/ocaml-lmdb/src/midl.c:185-199 | a range has room if and only if nothing has to grow or its length is below 2^31, because the growth is passed on as an int |
| MidlGrow.RangeCanFail | vendors/tezos-modded/vendors/ocaml-lmdb/src/midl.c:185-199 | 2^31 IDs for an empty list: the growth is negative and they have no room |
| MidlGrow.Idl.Alloc | vendors/tezos-modded/vendors/ocaml-lmdb/src/midl.c:104-112 | an empty list of the asked capacity |
| MidlGrow.Idl.Grow | vendors/tezos-modded/vendors/ocaml-lmdb/src/midl.c:131-141 | capacity grows by the asked number, contents kept |
| MidlGrow.Idl.Need | vendors/tezos-modded/vendors/ocaml-lmdb/src/midl.c:143-155 | contents kept and room for num more, without change when there is room already, otherwise at the rounded size |
| MidlGrow.NeedRounded | vendors/tezos-modded/vendors/ocaml-lmdb/src/midl.c:143-155 | without wrap-around the rounded size is the multiple of 256 next below a quarter more than what is needed, and 258 |
| MidlGrow.Idl.Append | vendors/tezos-modded/vendors/ocaml-lmdb/src/midl.c:157-169 | the id is added at the end; a full list grows by MDB_IDL_UM_MAX, any other keeps its capacity |
| MidlGrow.Idl.AppendRange | vendors/tezos-modded/vendors/ocaml-lmdb/src/midl.c:185-199 | n ids are added at the end in descending order down to id, for every n for which there is room; when it grows, it does so by n with its low 17 bits set |
| MidlGrow.RangeDescends | vendors/tezos-modded/vendors/ocaml-lmdb/src/midl.c:185-199 | the appended range descends and holds id .. id+n-1 when it does not wrap |
| MidlGrow.PairSearch | vendors/tezos-modded/vendors/ocaml-lmdb/src/midl.c:281-314 | the first index whose key is at least the wanted one |
| MidlGrow.PairInsert | vendors/tezos-modded/vendors/ocaml-lmdb/src/midl.c:316-345 | -1 exactly for a key already present, -2 exactly when full, both without change; otherwise the pair is inserted in order |

## Left out

- Jacobian coordinates, the shared Z denominator and the curve formulas of `group_impl.h`: points are elements of an abstract commutative group with n * P = 0, and field polynomial identities are not proved.
- EcmultConst.EcmultConst: besides the group laws it takes every non-infinite point to have order n, which is what makes the doublings and additions without an infinity case safe; it asks for a non-infinite point, as the table builder does.
- Branches for the endomorphism: lambda splitting is not part of this model.
- `field_5x52_asm_impl.h`, `num_gmp_impl.h`, the scratch allocator's memory and the inverse of a scalar: inverses are taken by their law s * (1/s) = 1 modulo n, and scratch frames as counters that succeed exactly when the size is at most the maximum.
- EcmultGen.GenContext.Build: asks that no sum of an offset and a multiple of G is infinity; that the fixed nothing-up-my-sleeve point meets this is not proved.
- EcmultGen.GenContext.Blind: the retry loop over drawn seeds is not modelled; the drawn scalar is any non-zero one.
- Wnaf.Recode: at width 31 the carry times 2^31 is taken as an integer, while the code shifts a signed 32-bit one.
- Batch.MultiVar: additions such as n + max_points - 1 are taken without wrap-around of `size_t`; Batch.PlanSumsFit gives bounds under which they have none.
- MidlLists.Search: its comment in the source says the first id at least the wanted one; the lists descend, and the code finds the first id at most the wanted one.
- MidlSort.Sort: asks for at most 2^30 + 3 IDs, which MidlSort.MidpointsFit, MidlSort.LongerListsOverflow and MidlSort.LargestCountOverflows show to be exactly the counts for which no list makes the int midpoint overflow.
- MidlGrow.Idl.Need: asks for what MidlGrow.NeedExact shows to be exactly when the code meets its purpose.
- MidlGrow.Idl.AppendRange: asks for what MidlGrow.RangeExact shows to be exactly when there is room.
- MidlGrow.Idl.Grow: asks for a non-negative int.
- Failure of `malloc` and `realloc` in the id lists, `mdb_midl_insert`, `mdb_midl_append_list` and the three-field lists `mdb_mid3l_*`, which repeat the two-field ones.
- Field5x52.Fe.Normalize: asks for magnitude at most 2047, which Field5x52.FirstSumFits shows to be exactly where the first sum cannot wrap; the same limit stands in the other normalizing methods.
- Field10x26.Fe26.Normalize: asks for magnitude at most 31, which Field10x26.FirstSumFits26 shows to be exactly where the first sum cannot wrap.
- Negation, addition, comparison and storage of 10x26 elements, `set_b32`/`get_b32` of both fields, of scalars, and `mul_shift_var`: no new argument.
- ScalarBits.GetBitsVar: a window of no bits at a word boundary is not covered; there the code shifts a word by its whole width.
- BignumQ.MulModq: asks for a product below 2^512, the range Barrett's constants are made for; the callers pass reduced numbers or 256-bit ones.
- BignumQ.AddModq: asks for a sum below twice the order; the callers pass reduced numbers.
- Point compression, hashing and key handling of Ed25519 around the arithmetic modulo the order.
- Poly1305x64.OneTimeAuth: the one-shot code keeps key limbs and accumulator in one array of six words; the model keeps two arrays.
- Ecdsa.SigSign: asks for a non-zero nonce, as its caller guarantees. Whether a nonce with r = 0 exists for the actual curve is not known to the model; the source leaves both conditions to its caller.
- Poly1305x64.Streaming: the number of blocks in one part is not bounded by the 32 bits of its argument.
- Der.ReadLen: input below 2^63 octets, as every object in memory is. A length is narrowed to `int`, as in the code.
- Der.ContentValue: the scalar import from 32 octets is the function SetB32, whose limb form is not part of this model.
- Der.SigParse: a body of 2^31 octets or more is refused, as the narrowing to `int` makes the code do.
- Exclusive-or and mask selections are modelled as conditionals, and disjoint bitwise or as a sum whose operands are shown not to overlap.
- Sha256Streaming.Sha256.Finalize: messages below 2^61 octets, the bound of the standard.
- Sha256Full.Hash: messages below 2^32 octets, the width of its length argument; the block counter is a field of its own instead of word 136.
- Blake2b.State.Init: a wrong output size is an error in the code; the model states that error at the one-shot entry. Inputs there are below 2^64 octets, the width of `size_t`.
- Unrolled rounds of SHA-256 and BLAKE2b are loops over the round number with the same order of steps.
- Ladder.Cmult: the Montgomery formulas are taken by their laws on represented points, the addition law for the one base that every step passes. The formulas read the x part of the base alone, so the law is about a finite base with z part 1 and an x part other than 0; for the base with x part 0 nothing is claimed. The formulas themselves, the limb arithmetic of Curve25519, `fexpand` and `fcontract` are not part of this model.
- Inversion.Crecip: squaring and multiplication are taken modulo p on integers; that z^(p-2) inverts z is Fermat's theorem and not proved.
- HMAC and the RFC 6979 generator, SHA-384 and SHA-512, Salsa20, ChaCha20, the NaCl wrappers, the OCaml stubs, the database engine and the LIGO compiler itself.
- Constant running time and clearing of memory.
