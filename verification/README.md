# Crypto core and loader layouts of Linux 2.6, modelled in Dafny

The project models the scatterlist cipher driver, the digests and HMAC, the block and stream ciphers of
`linux/crypto`, and the layout and state machines of a few loader and compatibility routines in `linux/fs`.
Code that updates state is written as methods on classes and arrays and proved against functions; what those
functions mean is proved as lemmas.

- **Scatterlists and block modes** (`BlockModes`, `Scatterwalk`, `Overlap`, `Cipher`). The cursor of scatterwalk.c works on one
  linear memory, so source and destination may overlap. What the driver computes is stated for every overlap, and
  proved equal to the flat ECB and CBC modes, for every block function, iv and memory, if and only if the two lists
  share bytes compatibly.
- **Digests** (`BlockStream`, `Md`, `Sha1`, `Sha256`, `Sha512`, `Michael`, `Whirlpool`, `Counters`, `Digest`, `Hmac`,
  `HmacSha1`, `HmacSha2`, `HmacMd`).
  Any sequence of updates equals the padded fold. Where a 32-bit length is computed too narrowly, the exact
  condition under which the count stays right is a lemma, with an input that breaks it.
- **AES** (`Gf256`, `AesSpec`, `AesTables`, `Aes`, `AesCipher`, `AesBlocks`). The generated tables are proved to be the field tables
  of FIPS 197, the T-table rounds to be its rounds, and decryption to undo encryption.
- **Serpent** (`BitSlice`, `SerpentBoxes`, `Serpent`, `SerpentSpec`). The register program, renaming and all, is proved to be
  the published cipher on rows of bits with S-boxes as tables, and decryption its inverse.
- **Other ciphers** (`Tea`, `Blowfish`, `Cast`, `Twofish`, `Arc4`) for all tables and subkeys.
- **Core dump** (`ElfCore`, `ElfDump`), **argument strings and stack tables** (`ArgStrings`, `StackTables`), **ioctl32
  table** (`Ioctl32`), **flat shared libraries** (`FlatLoader`), **directory records** (`Getdents`).

Conventions: memory is one array of bytes and pages are mapped linearly (page times page size plus offset). Words are
stored least significant byte first where the code stores host words. Integers that can wrap are reduced explicitly.
`dafny verify dfyconfig.toml` checks the whole project.

Where code and its own comments differ, the code is followed: the comment above the SHA-256 index speaks of a modulus of
128 where the code uses 64 (linux/crypto/sha256.c:257-258), and XTEA is this repository's variant
(linux/crypto/tea.c:155-159), for which only the round trip and the number of rounds
are stated. SHA-384 declares an HMAC block size of 96 (linux/crypto/sha512.c:26) where the block of the hash is 128; the result
for crypto_hmac is stated with 96, so it is not the HMAC-SHA-384 of section 2 of RFC 2104.

## Model

| member | source | states |
|---|---|---|
| Scatterwalk.WalkableExactly | linux/crypto/scatterwalk.c:49-90 | the cursor passes exactly the bytes a segment stands for, if and only if the segment starts in the page it names or never leaves the page it starts in |
| Scatterwalk.UnwalkableExample | linux/crypto/scatterwalk.c:58-86 | a two-byte segment whose second byte is fetched from the wrong page |
| Scatterwalk.InPageIsRemainder | linux/crypto/scatterwalk.c:58 | the offset within a page is the remainder by the page size, for every offset |
| Scatterwalk.Walk.constructor | linux/crypto/scatterwalk.c:49-61 | a cursor at the start of a list has all of the list's bytes ahead of it |
| Scatterwalk.Walk.StartSegment | linux/crypto/scatterwalk.c:49-61 | the bytes ahead are those of the list from the given segment on, zero-length segments included |
| Scatterwalk.Walk.PageDone | linux/crypto/scatterwalk.c:68-90 | crossing to the next page or segment drops exactly the finished page from the bytes ahead, and makes progress even on empty stretches |
| Scatterwalk.Walk.Done | linux/crypto/scatterwalk.c:92-97 | finishing a block keeps the bytes ahead unchanged and the cursor valid while bytes remain |
| Scatterwalk.Walk.WhichBuf | linux/crypto/scatterwalk.c:31-39 | the page is used directly if and only if the whole block lies in what is left of it and does not cross a page boundary, and then the block is contiguous in memory; otherwise the scratch block |
| Scatterwalk.ForwardAhead | linux/crypto/scatterwalk.c:103-124 | as a function on cursors: whatever pages and segments a copy of n bytes crosses, the bytes ahead afterwards are those ahead before without the first n |
| Scatterwalk.Walk.CopyIn | linux/crypto/scatterwalk.c:103-124 | the scratch block receives exactly the next bytes of the list, across pages and segments, and the cursor advances past them |
| Scatterwalk.Walk.CopyOut | linux/crypto/scatterwalk.c:103-124 | exactly the next addresses of the list receive the scratch block, in order; on a page nothing is copied |
| Scatterwalk.GatherScattered | linux/crypto/scatterwalk.c:41-47 | bytes stored at distinct addresses are read back |
| Scatterwalk.ScatterFrame | linux/crypto/scatterwalk.c:41-47 | nothing outside the named addresses changes |
| Cipher.XorBlock | linux/crypto/cipher.c:27-39 | the in-place XOR of two blocks is the byte-wise one |
| Cipher.CbcEncryptProcess | linux/crypto/cipher.c:107-110 | one step of CBC encryption: output block and new chaining value, wherever source and destination lie |
| Cipher.CbcDecryptProcess | linux/crypto/cipher.c:111-120 | one step of CBC decryption for any two buffers, overlapping or not: through the stack block the chaining value becomes the ciphertext; otherwise, with both buffers in memory, what the source buffer holds after the plaintext was stored |
| Cipher.UnnoticedAliasExample | linux/crypto/scatterwalk.h:36-43 | two one-segment lists that name the same 16 bytes by different pages: the comparison does not notice it, and for every block function, memory and iv the chaining value left by CBC decryption is the plaintext where the mode leaves the ciphertext |
| Cipher.EcbProcess | linux/crypto/cipher.c:123-127 | one step of ECB |
| Cipher.Choose | linux/crypto/scatterwalk.h:36-43 | where both buffers are, and that sharing is missed exactly when both are in memory and page or offset differ; the bytes ahead of both cursors stay as they are |
| Cipher.CryptBlock | linux/crypto/cipher.c:73-89 | one turn of the loop, whatever the lists share: one block read from memory as it is, transformed and stored, both cursors moved by one block |
| Cipher.Crypt | linux/crypto/cipher.c:47-96 | for every pair of walkable lists, overlapping in any way, memory and iv afterwards are those of the block-by-block run; when the lists share bytes compatibly they are the mode of section 6.1 or 6.2 of NIST SP 800-38A over the flattened source, stored over the flattened destination, and its chaining value; a length that is not whole blocks gives -EINVAL and changes nothing |
| Cipher.CryptExactly | linux/crypto/cipher.c:47-121 | crypt gives the mode for every block function, iv and memory if and only if the lists are compatible: no byte stored in a block is a source byte of a later one, and in CBC decryption a block whose two buffers are in memory and not taken for the same shares no byte with its destination; for destinations that name no byte twice |
| Overlap.InterleavedIsFlat | linux/crypto/cipher.c:69-95 | reading and writing block by block equals reading everything first, when the lists are compatible |
| Overlap.RightExactly | linux/crypto/cipher.c:69-121 | the same equivalence on address sequences, with the block function, iv and memory that show an incompatible run going wrong |
| Overlap.Spoils | linux/crypto/cipher.c:69-121 | once a later source byte or the chaining value is spoilt, or will be, the run on the probing block function ends with a wrong byte or a wrong chaining value |
| Cipher.DisjointIsCompatible | linux/crypto/cipher.c:47-51 | disjoint lists are compatible |
| Cipher.SameListIsCompatible | linux/crypto/cipher.c:77-78 | one and the same list as source and destination is compatible, however it is cut and whatever its offsets |
| Cipher.CanonicalIsCompatible | linux/crypto/cipher.c:77-78 | two lists whose segments start in the pages they name may share bytes position by position, however each cuts them up |
| Cipher.SameIsCompatible | linux/crypto/cipher.c:77-78 | so the same bytes in the same order are compatible, cut up in two ways |
| Cipher.CbcThereAndBack | linux/crypto/cipher.c:160-198 | encryption into one list and decryption into another returns the text, for any three segmentations that share bytes compatibly and any inverse pair of block functions |
| Cipher.CbcTwoCalls | linux/crypto/cipher.c:160-178 | two consecutive calls equal one call on the concatenation, because the iv is carried |
| BlockModes.CbcRoundTrip | linux/crypto/cipher.c:98-121 | on flat strings, CBC decryption undoes CBC encryption and both end with the same chaining value |
| BlockModes.EcbRoundTrip | linux/crypto/cipher.c:123-127 | the same for ECB |
| BlockModes.RunConcat | linux/crypto/cipher.c:98-121 | a mode over a concatenation is the mode over the parts, the chaining value carried |
| BlockModes.CbcEncryptBlocks | linux/crypto/cipher.c:107-110 | each ciphertext block is the block function of the plaintext block XORed with the ciphertext before it |
| BlockModes.CbcEncryptLeavesLastBlock | linux/crypto/cipher.c:110 | the chaining value left behind is the last ciphertext block |
| BlockModes.CbcDecryptLeavesLastBlock | linux/crypto/cipher.c:117 | the chaining value left behind by decryption is the last block of the ciphertext |
| Gf256.MulAssociates | linux/crypto/aes.c:116-124 | multiplication in GF(2^8) as section 4.2 of FIPS 197 defines it is associative; with its companions the field laws the tables rely on |
| Gf256.EveryNonZeroIsAPower | linux/crypto/aes.c:162-173 | every non-zero field element is a power of 3, so the log table is total |
| Gf256.InverseExactly | linux/crypto/aes.c:181-187 | the inverse used for the S-box is the multiplicative inverse, 0 mapped to 0 |
| AesTables.GenLogPow | linux/crypto/aes.c:166-173 | after the loop pow_tab holds the powers of 3 and log_tab the logarithms of all non-zero bytes, with both entries for 1 accounted for |
| AesTables.FMultIsProduct | linux/crypto/aes.c:116-124 | table multiplication through logs, with the byte carry folded back, is the field product |
| AesTables.GenSBox | linux/crypto/aes.c:181-187 | sbx_tab is the S-box of section 5.1.1 of FIPS 197 and isb_tab its inverse, for all 256 bytes |
| AesTables.Tables.constructor | linux/crypto/aes.c:156-225 | all generated tables are the FIPS 197 ones: each entry of ft, fl, it and il is the S-box or inverse S-box byte multiplied into its column position |
| AesTables.Tables.GenRcon | linux/crypto/aes.c:175-179 | rco_tab holds the round constants, the powers of x |
| Aes.ForwardMix | linux/crypto/aes.c:126-130 | four table look-ups in ft and their XOR are SubBytes, ShiftRows and MixColumns of one column |
| Aes.ForwardSub | linux/crypto/aes.c:144-148 | four look-ups in fl are SubBytes and ShiftRows of one column |
| Aes.InverseMix | linux/crypto/aes.c:132-136 | four look-ups in it are InvSubBytes and InvShiftRows followed by InvMixColumns of one column |
| Aes.InverseSub | linux/crypto/aes.c:150-154 | four look-ups in il are InvSubBytes and InvShiftRows of one column |
| Aes.ImixColIsInvMix | linux/crypto/aes.c:227-237 | imix_col on a packed word is InvMixColumns of its column |
| AesCipher.Expand128 | linux/crypto/aes.c:241-247 | loop4 run ten times gives the key expansion of section 5.2 of FIPS 197 |
| AesCipher.Expand192 | linux/crypto/aes.c:249-257 | loop6 run eight times gives the key expansion |
| AesCipher.Expand256 | linux/crypto/aes.c:259-270 | loop8 run seven times gives the key expansion; the four words past the schedule are E[60] to E[63] |
| AesCipher.Context.SetKey | linux/crypto/aes.c:272-324 | a key of 16, 24 or 32 bytes gives the expanded key in E and its InvMixColumns image in D, any other length -EINVAL and no change |
| AesCipher.Context.EncryptRound | linux/crypto/aes.c:328-333 | one macro round is one round of the FIPS 197 cipher |
| AesCipher.Context.DecryptRound | linux/crypto/aes.c:381-386 | one macro round with the mixed key is one round of the inverse cipher, by linearity of InvMixColumns |
| AesCipher.Context.Encrypt | linux/crypto/aes.c:341-377 | aes_encrypt is the cipher of section 5.1 of FIPS 197 for every key and block |
| AesCipher.Context.Decrypt | linux/crypto/aes.c:394-431 | aes_decrypt is the inverse cipher of section 5.3 of FIPS 197 for every key and block |
| AesCipher.Context.EncryptDecrypt | linux/crypto/aes.c:341-431 | decryption returns the block that was encrypted, for every key size and key |
| AesBlocks.EncryptBlock | linux/crypto/aes.c:341-377 | a keyed context computes the AES block function of its key |
| AesBlocks.DecryptBlock | linux/crypto/aes.c:394-431 | and its inverse |
| AesBlocks.AesInverts | linux/crypto/aes.c:341-431 | under every key AES is an inverse pair of block functions as the CBC round trip over scatterlists requires |
| AesBlocks.CbcThereAndBack | linux/crypto/cipher.c:160-198 | with AES under any key, CBC encryption from one scatterlist to a second and decryption to a third return the text |
| AesBlocks.CbcInPlace | linux/crypto/cipher.c:160-198 | and so they do in place on any list that names no byte twice |
| AesSpec.CipherInverts | linux/crypto/aes.c:341-431 | the FIPS 197 inverse cipher undoes the cipher for every round-key sequence |
| AesSpec.MixColumnInverts | linux/crypto/aes.c:227-237 | InvMixColumns undoes MixColumns, from the field laws |
| AesSpec.SubByteInverts | linux/crypto/aes.c:181-187 | the inverse S-box undoes the S-box |
| SerpentBoxes.BoxIsTable | linux/crypto/serpent.c:70-142 | each of the eight bit-sliced macros S0 to S7 computes its published table on every bit position, output registers renamed as in the source |
| SerpentBoxes.BoxInverts | linux/crypto/serpent.c:70-212 | each SIi undoes Si on all 2^128 inputs, with the register permutation of both |
| BitSlice.BitsDetermine | linux/crypto/serpent.c:70-212 | words that agree in every bit are equal, which lifts the one-bit statements to words |
| SerpentBoxes.BoxUndone | linux/crypto/serpent.c:70-212 | and each Si undoes SIi |
| SerpentSpec.LinearRows | linux/crypto/serpent.c:50-59 | bit by bit, the linear transformation of the macro LK is the one of the Serpent specification: rotations, shifts and sums of rows of bits |
| SerpentSpec.IsSerpent | linux/crypto/serpent.c:370-426 | the 32 rounds of the code are the published cipher, on rows of bits with S-boxes as tables, for every block and expanded key |
| SerpentSpec.DecipherIsInverse | linux/crypto/serpent.c:428-479 | decryption gives the block that the published cipher encrypts to the one given |
| SerpentSpec.DecipherIsUnique | linux/crypto/serpent.c:428-479 | and no other block is encrypted to it |
| Serpent.LInverts | linux/crypto/serpent.c:61-68 | the transformation of the macro KL undoes the linear transformation |
| Serpent.LUndone | linux/crypto/serpent.c:50-68 | and the linear transformation undoes it |
| Serpent.LinearInverts | linux/crypto/serpent.c:50-68 | KL undoes LK under the same round key |
| Serpent.CipherInverts | linux/crypto/serpent.c:370-479 | decryption undoes encryption through all 32 rounds, for every expanded key of 132 words |
| Serpent.DecipherInverts | linux/crypto/serpent.c:370-479 | encryption undoes decryption |
| Serpent.EncryptRounds0 | linux/crypto/serpent.c:389-396 | the first eight lines, with registers renamed line by line, are eight rounds |
| Serpent.EncryptRounds8 | linux/crypto/serpent.c:397-404 | the next eight lines, starting from the registers the first eight left, are eight more rounds |
| Serpent.EncryptRounds16 | linux/crypto/serpent.c:405-412 | the third eight lines likewise |
| Serpent.EncryptRounds24 | linux/crypto/serpent.c:413-420 | the last eight lines are rounds 25 to 31 and the final round, and the renaming ends with the registers in order |
| Serpent.DecryptRounds0 | linux/crypto/serpent.c:442-449 | the first eight lines of decryption undo the last eight rounds |
| Serpent.DecryptRounds8 | linux/crypto/serpent.c:450-457 | the next eight lines undo the eight rounds before |
| Serpent.DecryptRounds16 | linux/crypto/serpent.c:458-465 | the third eight lines likewise |
| Serpent.DecryptRounds24 | linux/crypto/serpent.c:466-473 | the last eight lines end in the registers the source writes out |
| Serpent.Encrypt | linux/crypto/serpent.c:370-426 | serpent_encrypt is the cipher by rounds |
| Serpent.Decrypt | linux/crypto/serpent.c:428-479 | serpent_decrypt is the inverse cipher by rounds |
| Serpent.TnepresEncrypt | linux/crypto/serpent.c:513-531 | tnepres_encrypt is Serpent between two reversals of the block |
| Serpent.TnepresDecrypt | linux/crypto/serpent.c:533-551 | tnepres_decrypt likewise |
| Serpent.RoundTrip | linux/crypto/serpent.c:370-551 | the register programs of both ciphers return every block under every expanded key |
| BlockStream.FoldAppend | linux/crypto/sha1.c:119-137 | folding a compression function over a message can be interrupted anywhere, the leftover carried: the law behind every streaming update |
| BlockStream.GapIsLeast | linux/crypto/sha1.c:160-161 | the padding ends where the length field begins, and no shorter padding does |
| BlockStream.Absorb | linux/crypto/sha256.c:266-281 | the buffering loop shared by the SHA files: state and buffer afterwards are the fold and the leftover of buffered bytes plus data |
| BlockStream.BoundExactly | linux/crypto/sha1.c:127-132 | the 32-bit loop bound never wraps if and only if buffered bytes and length together stay below 2^32, which is what the updates below ask for |
| BigEndian.Store32 | linux/crypto/sha1.c:168-174 | taking bytes off the low end, last first, stores the word most significant byte first |
| BigEndian.PutWord32 | linux/crypto/sha1.c:65-66 | loading what was stored gives the word back |
| Md.Context.constructor | linux/crypto/md5.c:149-158 | a fresh context holds the empty message |
| Md.Context.Update | linux/crypto/md5.c:160-188 | for every 32-bit length the context then holds the message with the data appended |
| Md.Context.Final | linux/crypto/md5.c:190-214 | the digest is the encoded fold over the message padded as in sections 3.1 and 3.2 of RFC 1321, one or two final blocks |
| Md.Digest | linux/crypto/md4.c:165-219 | any cutting of a message into updates gives the same digest; md4.c has the same code |
| Md.LengthWords | linux/crypto/md5.c:206-207 | the two stored words are the 64-bit length in bits, low word first |
| Sha1Block.Blk | linux/crypto/sha1.c:39-40 | overwriting slot i mod 16 gives word i of the 80-word schedule and keeps the last 16 words in place |
| Sha1Block.Line | linux/crypto/sha1.c:43-51 | a macro with renamed registers and the source's boolean forms is one step of section 6.1.2 of FIPS 180-2 |
| Sha1Block.FiveLines | linux/crypto/sha1.c:76-95 | after five lines every register has its own name again |
| Sha1Block.Transform | linux/crypto/sha1.c:59-105 | sha1_transform is the SHA-1 compression function for every state and block |
| Sha1.CountedExactly | linux/crypto/sha1.c:125 | the 64-bit count stays 8 times the length if and only if an update is shorter than 2^29 bytes |
| Sha1.CountedCounterexample | linux/crypto/sha1.c:125 | an update of 2^29 bytes adds nothing to the count |
| Sha1.Context.constructor | linux/crypto/sha1.c:107-117 | a fresh context holds the empty message |
| Sha1.Context.Update | linux/crypto/sha1.c:119-137 | for every length with which the 32-bit index arithmetic does not wrap, state and buffer hold the longer message whatever the count does; the count is stepped as computed in 32 bits |
| Sha1.Context.Final | linux/crypto/sha1.c:141-178 | what is hashed is the message, its padding and the count as it was before the padding |
| Sha1.Digest | linux/crypto/sha1.c:107-178 | any cutting into updates shorter than 2^29 bytes gives the SHA-1 of the message |
| Counters.StepPairExactly | linux/crypto/sha256.c:261-264 | the two-word count stays exact if and only if the update is shorter than 2^29 bytes or the low word carries |
| Counters.StepPairCounterexample | linux/crypto/sha256.c:261-264 | an update of 2^29 bytes to a fresh context leaves the count at zero |
| Counters.StepQuadExactly | linux/crypto/sha512.c:205-210 | the four-word count stays exact if and only if there is no carry and the update is shorter than 2^29 bytes, or there is one and the last addition does not itself carry |
| Counters.StepQuadCounterexample | linux/crypto/sha512.c:205-210 | the same update leaves the four-word count at zero |
| Counters.RunsExact | linux/crypto/sha512.c:201-210 | in every run of updates shorter than 2^29 bytes the two-word and the four-word count are 8 times the total modulo 2^64 and 2^128 |
| Counters.Index | linux/crypto/sha256.c:258 | the index taken from the low word is the length modulo the block size, whatever the lengths of the updates |
| Sha256Block.Line | linux/crypto/sha256.c:93-94 | a pair of lines with the source's Ch and Maj is one step of section 6.2.2 of FIPS 180-2 |
| Sha256Block.EightLines | linux/crypto/sha256.c:93-108 | eight lines with renamed registers are eight shifting-register steps |
| Sha256Block.Transform | linux/crypto/sha256.c:74-235 | sha256_transform is the SHA-256 compression function for every state and block |
| Sha256.Context.Update | linux/crypto/sha256.c:252-282 | as for SHA-1, with the two-word count stepped by the source's carry test |
| Sha256.Context.Final | linux/crypto/sha256.c:284-323 | what is hashed is the message, its padding and the count before the padding |
| Sha256.LengthFieldIsLength | linux/crypto/sha256.c:293-302 | the eight stored bytes are the 64-bit length when the count is exact |
| Sha256.Digest | linux/crypto/sha256.c:237-323 | any cutting into updates shorter than 2^29 bytes gives the SHA-256 of the message |
| Sha512Block.EightLines | linux/crypto/sha512.c:135-153 | one turn of the loop is eight shifting-register steps of section 6.3.2 of FIPS 180-2 |
| Sha512Block.Transform | linux/crypto/sha512.c:116-160 | sha512_transform is the SHA-512 compression function for every state and block |
| Sha512.Context.Update | linux/crypto/sha512.c:194-232 | as for SHA-256, with 128-byte blocks and the four-word count |
| Sha512.Context.Final | linux/crypto/sha512.c:234-295 | what is hashed is the message, its padding and the count before the padding |
| Sha512.LengthFieldIsLength | linux/crypto/sha512.c:250-270 | the sixteen stored bytes are the 128-bit length when the count is exact |
| Sha512.Digest512 | linux/crypto/sha512.c:162-295 | any cutting into updates shorter than 2^29 bytes gives the SHA-512 of the message |
| Sha512.Digest384 | linux/crypto/sha512.c:178-306 | likewise SHA-384: the other initial state and the first 48 bytes |
| Michael.PaddedIsLeast | linux/crypto/michael_mic.c:120 | the padding is the least one with 0x5a and at least four zeros that makes whole words |
| Michael.LastWordIsPadded | linux/crypto/michael_mic.c:121-134 | the four cases write the padded last word |
| Michael.Context.SetKey | linux/crypto/michael_mic.c:145-157 | a key of eight bytes is loaded; any other length is refused and changes nothing |
| Michael.Context.Update | linux/crypto/michael_mic.c:80-112 | for every length the context then holds the longer message |
| Michael.Context.Final | linux/crypto/michael_mic.c:115-142 | the output is the fold of the block function over the padded message |
| Michael.Digest | linux/crypto/michael_mic.c:73-157 | with a good key any cutting of a message gives its code |
| Whirlpool.AddBytesIsAdd | linux/crypto/wp512.c:1019-1024 | digit-by-digit addition with carry is addition modulo 256^32 |
| Whirlpool.Context.AddLength | linux/crypto/wp512.c:1018-1024 | the carry loop, which stops early, adds the bit count to the 32-byte length |
| Whirlpool.Context.Push | linux/crypto/wp512.c:1025-1038 | one turn of the loop appends one byte: the slot is zero, so OR stores; the shifts by 0 and 8 do nothing and everything |
| Whirlpool.Context.PushLast | linux/crypto/wp512.c:1039-1056 | the last byte or none |
| Whirlpool.Context.Update | linux/crypto/wp512.c:1003-1062 | for every 32-bit length, what is appended is the data up to its length modulo 2^29; the bit buffer, its position and the length stay consistent |
| Whirlpool.Context.Final | linux/crypto/wp512.c:1064-1104 | the digest is the encoded fold over the padded message with its 256-bit length |
| Whirlpool.Digest | linux/crypto/wp512.c:991-1104 | any cutting into updates shorter than 2^29 bytes gives the hash of the message |
| Digest.Tfm.UpdateSegment | linux/crypto/digest.c:33-51 | for every offset, also at or past the end of the page, the pieces fed make up exactly the segment, and the loop ends |
| Digest.Tfm.Update | linux/crypto/digest.c:26-53 | the pieces fed make up exactly the bytes of the list, whatever the pages |
| Digest.Tfm.Digest | linux/crypto/digest.c:69-84 | for an algorithm that computes h however a message is cut, the result is h of the bytes of the list |
| Digest.StreamComputes | linux/crypto/digest.c:26-58 | every block-buffering digest is such an algorithm |
| Hmac.HashKey | linux/crypto/hmac.c:24-33 | the digest of the key replaces its first bytes |
| Hmac.PadBlock | linux/crypto/hmac.c:67-71 | clearing, copying and XORing gives the key block of section 2 of RFC 2104 |
| Hmac.Init | linux/crypto/hmac.c:56-79 | afterwards the key in memory fits in a block and is the hashed key if it did not, and the digest has been fed the inner pad |
| Hmac.Update | linux/crypto/hmac.c:81-85 | the digest is fed the bytes of the list |
| Hmac.Final | linux/crypto/hmac.c:87-120 | with a key length that fits, which Init guarantees, the running inner digest is not rehashed and the out buffer receives the outer digest |
| Hmac.Hmac | linux/crypto/hmac.c:122-128 | for every digest with digestsize at most blocksize, every key length and every list, the out buffer receives the HMAC of section 2 of RFC 2104 |
| HmacSha1.ComputesSha1 | linux/crypto/hmac.c:122-128 | SHA-1 as modelled is an algorithm of the kind the HMAC result is stated for, with the FIPS 180-2 hash as its function |
| HmacSha1.Mac | linux/crypto/hmac.c:122-128 | crypto_hmac with sha1 leaves HMAC-SHA-1 in the out buffer |
| Digest.PaddedComputes | linux/crypto/digest.c:69-84 | every digest that pads by length, hashes and encodes is such an algorithm |
| HmacSha2.ComputesSha256 | linux/crypto/sha256.c:237-323 | SHA-256 is one |
| HmacSha2.ComputesSha384 | linux/crypto/sha512.c:178-329 | SHA-384 is one, whose declared block size of 96 is not that of its blocks |
| HmacSha2.ComputesSha512 | linux/crypto/sha512.c:162-295 | SHA-512 is one |
| HmacMd.ComputesMd | linux/crypto/md5.c:149-214 | MD4 and MD5 are, whatever their compression function |
| HmacSha2.Mac256 | linux/crypto/hmac.c:122-128 | crypto_hmac with sha256 leaves HMAC-SHA-256 in the out buffer |
| HmacSha2.Mac512 | linux/crypto/hmac.c:122-128 | with sha512 it leaves HMAC-SHA-512 |
| HmacSha2.Mac384 | linux/crypto/hmac.c:122-128 | with sha384 it leaves the construction of RFC 2104 over SHA-384 with the declared block size of 96 |
| HmacSha2.Mac384IsShort | linux/crypto/sha512.c:26 | which is not HMAC-SHA-384: with a key that fits, each hash is fed 32 bytes less than with the block size of 128 |
| HmacSha2.Update256 | linux/crypto/sha256.c:252-282 | an update of the SHA-256 context is an update of its algorithm |
| HmacSha2.Final256 | linux/crypto/sha256.c:284-323 | and its final step the final step |
| HmacSha2.Update512 | linux/crypto/sha512.c:194-232 | the same for SHA-512 |
| HmacSha2.Final512 | linux/crypto/sha512.c:234-295 | the same for SHA-512 |
| HmacSha2.Update384 | linux/crypto/sha512.c:194-232 | the same for SHA-384 |
| HmacSha2.Final384 | linux/crypto/sha512.c:297-306 | the same for SHA-384 |
| HmacMd.Update | linux/crypto/md5.c:160-188 | the same for the MD contexts |
| HmacMd.Final | linux/crypto/md5.c:190-214 | the same for the MD contexts |
| HmacSha1.Update | linux/crypto/sha1.c:119-137 | an update of the SHA-1 context is an update of that algorithm |
| HmacSha1.Final | linux/crypto/sha1.c:141-178 | its final step is the final step of that algorithm |
| ElfCore.DumpFile.Write | linux/fs/binfmt_elf.c:1101-1104 | writing appends to the bytes up to the position |
| ElfCore.DumpFile.Seek | linux/fs/binfmt_elf.c:1106-1114 | a forward seek moves the position and leaves the file as it is; the gap reads as zeros once something is written behind it |
| ElfCore.WriteNote | linux/fs/binfmt_elf.c:1163-1179 | from an aligned position a note takes exactly notesize bytes and leaves the position aligned; the file ends with its last byte, the padding skipped |
| ElfCore.NotesRoundTrip | linux/fs/binfmt_elf.c:1147-1179 | every sequence of notes is recovered from its image by the sizes in the headers |
| ElfDump.ThreadStatus | linux/fs/binfmt_elf.c:1331-1358 | the notes of a thread and the size counted for them agree |
| ElfDump.AuxvWords | linux/fs/binfmt_elf.c:1485-1488 | the words up to and including the first AT_NULL pair |
| ElfDump.WriteHeaders | linux/fs/binfmt_elf.c:1527-1547 | the first pass writes one header per area with the running offset |
| ElfDump.WriteArea | linux/fs/binfmt_elf.c:1574-1605 | the second pass over an area writes or skips each of its pages |
| ElfDump.CoreDump | linux/fs/binfmt_elf.c:1505-1612 | the dump is complete if and only if what it counts stays within the limit; then the file is the image, headers, notes, gap and areas, up to the last byte written, with nothing but zeros missing, and the final file position equals the offset the first pass computed, as the sanity check asks, if and only if every dumped area is a whole number of pages |
| ElfDump.FileEndExactly | linux/fs/binfmt_elf.c:1566-1605 | the whole image is in the file if and only if the last page visited was written; with no page to visit, if and only if the notes end where the data would start |
| ElfDump.ShortFileExample | linux/fs/binfmt_elf.c:1580-1586 | an area whose only page is missing: the file ends before the bytes its program header names |
| ElfDump.FileReadable | linux/fs/binfmt_elf.c:1525-1605 | what each program header in the file points to reads as the bytes of its area, what lies behind the end of the file read as zeros; and without that proviso when the last page visited was written |
| ElfDump.NotesAt | linux/fs/binfmt_elf.c:1509-1522 | in the image the notes fill exactly the range of the PT_NOTE header and read back |
| ElfDump.NotesInFile | linux/fs/binfmt_elf.c:1509-1564 | and so they do in the file, what lies behind its end read as zeros; without that proviso when the last page visited was written |
| ElfDump.HeaderAt | linux/fs/binfmt_elf.c:1527-1547 | the i-th slot of the program header table is the header of the i-th area |
| ElfDump.SegmentAt | linux/fs/binfmt_elf.c:1570-1605 | where an area's bytes are; that is its p_offset if and only if all dumped areas before it are whole pages |
| ElfDump.CoreReadable | linux/fs/binfmt_elf.c:1525-1605 | when dumped areas are whole pages, the header table and the bytes it points to are those of the areas |
| ElfDump.EndExactly | linux/fs/binfmt_elf.c:1527-1605 | the image is as long as the offset of the first pass if and only if every dumped area is a whole number of pages |
| ElfDump.UnalignedExample | linux/fs/binfmt_elf.c:1574-1577 | what that condition keeps out, and the kernel never maps: a one-byte area would be dumped as a page |
| Ioctl32.Search | linux/fs/compat.c:324-332 | walking a chain finds its first node for a command, or none |
| Ioctl32.Append | linux/fs/compat.c:286-292 | walking to the end and linking a node appends it to the chain |
| Ioctl32.Table.constructor | linux/fs/compat.c:266-268 | an empty table |
| Ioctl32.Table.Insert | linux/fs/compat.c:278-293 | the node joins the chain of its bucket; chains stay acyclic, disjoint and in their buckets |
| Ioctl32.Table.Init | linux/fs/compat.c:295-309 | it fails exactly if a built-in node comes linked; otherwise the entry of a command is the first built-in node for it |
| Ioctl32.Table.Register | linux/fs/compat.c:312-342 | given memory it succeeds if and only if the command has no entry, and adds only that entry; otherwise the map is unchanged |
| Ioctl32.Table.Unregister | linux/fs/compat.c:353-399 | it succeeds if and only if the entry is not built in, and removes only that entry; otherwise nothing changes |
| Ioctl32.Table.Lookup | linux/fs/compat.c:483-486 | the lookup returns the entry of the command |
| Ioctl32.Run | linux/fs/compat.c:312-399 | any sequence of registrations, removals and lookups answers, and leaves the table, as the same sequence does on the partial map the table stands for |
| Ioctl32.Lifetime | linux/fs/compat.c:295-399 | from the empty table on: after initialisation any such sequence answers as the map of the first built-in nodes does |
| Ioctl32.BuiltinsStay | linux/fs/compat.c:343-346 | no run removes, changes or adds a built-in entry |
| Ioctl32.FirstRemoved | linux/fs/compat.c:365-391 | taking out the only node for a command removes that command from the map and no other |
| FlatLoader.Loader.CalcReloc | linux/fs/binfmt_flat.c:303-370 | an address other than the failure value is the resolved one, in a loaded library that is not younger when both are dated; within a closed set of libraries a good reference never fails and nothing outside the set is loaded |
| FlatLoader.Loader.Place | linux/fs/binfmt_flat.c:345-364 | the checks of date and range and the address computed agree with resolution among all files |
| FlatLoader.Loader.LoadLibrary | linux/fs/binfmt_flat.c:766-792 | a missing file fails; otherwise the file is loaded |
| FlatLoader.Loader.LoadFile | linux/fs/binfmt_flat.c:666-757 | the library is entered before it is relocated, so cyclic references end; on success it and everything it pulled in are completely relocated |
| FlatLoader.Loader.RelocateGot | linux/fs/binfmt_flat.c:688-698 | on success every non-zero table word is the resolved address of what it named |
| FlatLoader.Loader.RelocateList | linux/fs/binfmt_flat.c:711-741 | on success every pointer is relocated in place, its own location being inside the library |
| FlatLoader.Loader.LoadBinary | linux/fs/binfmt_flat.c:826-828 | loading succeeds if and only if some closed set of libraries contains the program; then exactly the least such set is loaded, each library once |
| FlatLoader.StartChain | linux/fs/binfmt_flat.c:853-867 | the pushed return addresses start the loaded libraries in ascending id and then the program |
| FlatLoader.AddressInside | linux/fs/binfmt_flat.c:350-364 | a resolved address is in the text of its library, or in its data up to and including its end |
| FlatLoader.CycleExample | linux/fs/binfmt_flat.c:303-370 | two libraries that refer to each other form a closed set |
| FlatLoader.ResolveLoaded | linux/fs/binfmt_flat.c:345-364 | resolution against the loaded libraries agrees with resolution against all files |
| ArgStrings.Mapped | linux/fs/compat.c:1370-1380 | whatever a fresh page holds, after the two clearings and the copy it is zero around the piece; an old page changes only there |
| ArgStrings.Bprm.Piece | linux/fs/compat.c:1344-1383 | one page's worth of a string is stored, and no other byte of the area changes |
| ArgStrings.Bprm.CopyOne | linux/fs/compat.c:1341-1387 | one string is stored across pages and no other byte changes |
| ArgStrings.Bprm.CopyStrings | linux/fs/compat.c:1318-1396 | copied last to first, the strings lie one after another in order below what was there, which is unchanged; given pages, it succeeds if and only if all can be read and fit |
| ArgStrings.Bprm.CopyAll | linux/fs/compat.c:1473-1484 | arguments, environment and file name lie in that order from the final position up |
| StackTables.PutPointers | linux/fs/binfmt_elf.c:259-282 | the scan for NULs puts the start of every string into the table |
| StackTables.StackRoundBelow | linux/fs/binfmt_elf.c:133-136 | the tables start at a multiple of 16 and end at or below the strings, leaving less than 16 bytes |
| StackTables.ElfTables | linux/fs/binfmt_elf.c:139-289 | below the strings comes the platform string with its NUL and below it, without overlap and aligned to 16, argc, the pointer tables with their NULLs and the auxiliary vector in this order, for all counts; nothing else of memory changes |
| StackTables.AoutTables | linux/fs/binfmt_aout.c:204-260 | the same layout without auxiliary vector, aligned to words, below the strings |
| StackTables.PointersLead | linux/fs/binfmt_elf.c:259-282 | the i-th pointer leads to the i-th string |
| StackTables.ExecStack | linux/fs/compat.c:1473-1484 | end to end: given pages, it succeeds if and only if the strings fit in the argument area; then, with the area mapped at any base and the tables reaching below it, every argv and envp pointer of the new stack leads to the string given to execve |
| Getdents.RecLenRoom | linux/fs/compat.c:867-869 | records are multiples of four and the NUL of the name and the type byte are different bytes |
| Getdents.WriteRecord | linux/fs/compat.c:963-973 | the fields of a record, and no byte outside it |
| Getdents.Callback.FillDir | linux/fs/compat.c:947-986 | an entry is taken if and only if its record fits in what is left; then the previous d_off is its offset |
| Getdents.GetDents | linux/fs/compat.c:988-1021 | what is taken is the longest prefix that fits; the result is the sum of its record lengths, at most count, or 0 or -EINVAL if nothing was taken, and the last d_off is the directory position |
| Getdents.ReadsBackExactly | linux/fs/compat.c:947-1021 | going by d_reclen recovers inode numbers, offsets, names and types of the entries taken, if and only if every record length fits in 16 bits |
| Getdents.ListAll | linux/fs/compat.c:988-1021 | for every 32-bit buffer size, calling until the directory is exhausted gets to the end if and only if every record fits in the buffer, its size taken as signed; and then every entry is read exactly once and in order, if and only if every record length fits in 16 bits |
| Getdents.FitsExactly | linux/fs/compat.c:933-938 | that is, names of at most 65520 bytes |
| Getdents.TruncatedExample | linux/fs/compat.c:965-966 | a name of 65521 bytes gets the record length 0 |
| Arc4.Context.constructor | linux/crypto/arc4.c:27-49 | the key schedule of the textbook cipher, x one ahead of its index |
| Arc4.Context.Crypt | linux/crypto/arc4.c:51-70 | one byte: the state steps as in the textbook and the output is the input XOR the generated byte |
| Arc4.StepsKeep | linux/crypto/arc4.c:51-70 | in every run the box stays a permutation of 0 to 255 |
| Arc4.ScheduledPermutes | linux/crypto/arc4.c:37-46 | so it is after every step of the key schedule |
| Arc4.PermutationMeans | linux/crypto/arc4.c:34-35 | every value is in the box exactly once |
| Arc4.CryptStream | linux/crypto/arc4.c:51-70 | the output of a stream fed in pieces is the stream XOR a keystream of key and position only |
| Arc4.RoundTrip | linux/crypto/arc4.c:27-70 | a second context with the same key decrypts, however both streams are cut |
| Tea.TeaEncrypt | linux/crypto/tea.c:66-91 | the loop is 32 rounds with sums of 1 to 32 deltas |
| Tea.TeaDecrypt | linux/crypto/tea.c:93-121 | 32 rounds undone, from the sum delta << 5 |
| Tea.XteaEncrypt | linux/crypto/tea.c:144-164 | the loop guarded by the sum ends after exactly 32 rounds |
| Tea.XteaDecrypt | linux/crypto/tea.c:166-186 | the loop guarded by the sum ends after exactly 32 rounds undone |
| Tea.SumsDiffer | linux/crypto/tea.c:155 | because delta is odd, no two of 2^32 consecutive sums are equal, so the loops guarded by the sum cannot end early |
| Tea.RoundTrip | linux/crypto/tea.c:66-186 | both ciphers return every block under every key |
| Blowfish.Mirror | linux/crypto/blowfish.c:363-394 | decryption after k rounds holds the halves of encryption after 16 - k |
| Blowfish.NetworkInverts | linux/crypto/blowfish.c:319-394 | with the subkeys reversed the network undoes itself, for all tables and subkeys |
| Blowfish.Blocks | linux/crypto/blowfish.c:319-348 | the unrolled lines are sixteen rounds and the last two subkeys |
| Blowfish.RoundTrip | linux/crypto/blowfish.c:350-394 | decryption returns every block |
| Cast.Cast5Encrypt | linux/crypto/cast5.c:581-648 | twelve or sixteen rounds and the exchange of halves |
| Cast.Cast5Decrypt | linux/crypto/cast5.c:650-704 | the same rounds in reverse order |
| Cast.Cast5RoundTrip | linux/crypto/cast5.c:581-704 | decryption returns every block, in both round counts, for all tables and subkeys |
| Cast.QuadRoundsInvert | linux/crypto/cast6.c:430-445 | Q and QBAR undo each other |
| Cast.Cast6Encrypt | linux/crypto/cast6.c:447-487 | six forward and six reverse quad-rounds, in place |
| Cast.Cast6Decrypt | linux/crypto/cast6.c:489-529 | the kinds exchanged and the order reversed, in place |
| Cast.Cast6RoundTrip | linux/crypto/cast6.c:447-529 | decryption returns every block, for all tables and subkeys |
| Twofish.RoundInverts | linux/crypto/twofish.c:591-604 | DECROUND undoes ENCROUND, rotations by addition included |
| Twofish.CycleInverts | linux/crypto/twofish.c:609-615 | DECCYCLE undoes ENCCYCLE |
| Twofish.Encrypt | linux/crypto/twofish.c:804-836 | whitening, eight cycles, exchange, whitening |
| Twofish.Decrypt | linux/crypto/twofish.c:839-871 | the inverse in reverse order |
| Twofish.RoundTrip | linux/crypto/twofish.c:804-871 | decryption returns every block, for all tables and subkeys |

## Left out

- Cipher.Crypt: requires a non-null iv (a null iv makes cbc_process return without writing), a block function that reads its input before it writes its output, and lists whose segments the cursor can walk; crypto_yield and kmap types are not modelled.
- Cipher.CryptExactly: the direction from a right result to compatible lists is for destinations that name no byte twice, because a later store to the same byte can hide a wrong one.
- AesCipher.Context.SetKey: E has 64 words; in the C structure the four words past the AES-256 schedule fall on D, which is rewritten right afterwards.
- Md.Context.Update: the compression functions of MD4 and MD5 are a parameter; le32 conversions are the identity on the little-endian machine modelled.
- Md.Context.Final: the wiping of contexts after the digest is not modelled, here or in the other digests.
- Sha1.Context.Update: lengths that take buffered bytes and data together to 2^32 are excluded, because exactly there the 32-bit index arithmetic wraps; likewise Sha256 and Sha512.
- Whirlpool.Context.Final: the compression function is a parameter; the truncated variants wp384 and wp256 only copy fewer bytes.
- Hmac.Hmac: requires the key, the hmac block, the out buffer and the text not to overlap where one is written before another is read.
- ElfDump.CoreDump: failing writes and allocation are not modelled, only the size limit; offsets are unbounded integers; extra program headers and extended floating-point notes are left out.
- FlatLoader.Loader.LoadFile: reading headers and mapping are summed up in a status and addresses per file; relocation entries are given with the pointer found at their location; old-format relocations, the data-segment pointer tables and zeroing of bss are left out.
- FlatLoader.Loader.RelocateList: memory is not modelled, writes are a log; two entries on one word, overlapping unaligned words, and an entry on a word of the global offset table, where the second relocation would read what the first wrote, are not captured.
- StackTables.ExecStack: mapping the area can fail for want of memory, and addresses below the stack's limit can fault; both are left out. The rest of the address space below the area is taken as zeros before the tables are built.
- ArgStrings.Bprm.CopyStrings: faults in the middle of copying a string that could be measured are not modelled.
- StackTables.ElfTables: faults while writing the stack, strings without a NUL and upward-growing stacks are left out.
- Getdents.GetDents: faults while writing the user buffer are left out; names contain no NUL.
- Ioctl32.Table.Unregister: the semaphore and freeing of memory are not modelled.
- Key schedules of Serpent, Blowfish, CAST5, CAST6 and Twofish: subkeys and tables are arbitrary, so the round trips cover them.
- Byte order of cipher blocks (u32_in, be32_to_cpu and their inverses) outside AES: the ciphers are stated on words.
- Khazad, Anubis, DES, deflate, crc32c and the test driver.
- The rest of fs/compat.c, program mapping in binfmt_elf.c and binfmt_aout.c, decompression in binfmt_flat.c.
