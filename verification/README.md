# Verified model of the byte, scan and address engines of ghidrust-core

This project models the parts of `ghidrust-core` that transform bytes, scan haystacks, walk code and map addresses,
and proves what they promise. The loops and in-place updates of the source are Dafny methods over arrays, classes and
sequences, each proved against a specification function or a description of its result; the theorems are lemmas about
those specifications.

* **DEFLATE** (`Words`, `Sorting`, `BitReader`, `Huffman`, `HuffmanTable`, `HuffmanDecode`, `Deflate`, `Inflate`,
  `RoundTrip`, `Parsing`, `DeflateTables`, `Refusals`, `Containers`, `RawStreams`). `Deflate` writes RFC 1951 down as an
  encoder from blocks of tokens to bits. The buffered reader refines a plain bit sequence, the table construction refines
  the canonical code, and the decoder refines a function on bits; `RoundTrip` proves that this function undoes the
  encoder, `Parsing` that it takes nothing but what the encoder writes, as long as the codes it is sent meet the Kraft
  inequality, and `DeflateTables` gives the format's tables in closed form. `Refusals` names what is refused.
  `Containers` takes wrappers off, and `RawStreams` says when a bare stream is mistaken for a wrapped one.
* **Ciphers** (`Gf`, `MixMatrix`, `Aes`, `Counter`, `Modes`, `AesModes`, `Des`, `Blowfish`, `BlockModes`, `Ciphers`,
  `Streams`, `Rc4`, `ChaCha`). Every cipher is shown to undo its encryption for all keys and lengths. The five modes
  are one chain of steps, so that a step that undoes another gives a mode that undoes another.
* **Recipes** (`Base64`, `Recipe`). Baking a recipe peels any tower of layers that the operations undo.
* **Bulk scans** (`BulkScan`, `GpuSchedule`). The parallel, tiled and GPU forms return the list of the sequential one.
  Parallel work is a loop that picks the remaining pieces in any order.
* **Code** (`DisasmFlow`, `DisasmLinear`, `FunctionTable`). The decoder is a deterministic function of the address; the
  walks, body growth and the function table are proved over it. Breadth-first order is defined without a queue: each
  address is the first new one among the successors of those before it, and told again over the instructions alone.
* **PE images** (`PeMap`, `PeFiles`). The loader, the memory image and the address translators, and exactly when they
  agree; `PeFiles` writes files with any headers of either kind.

Words of 16, 32 and 64 bits are natural numbers cut with `Low` or `% 2^n`, or bit-vectors; saturating and checked
additions are written out. `Options`, `Words` and `Sorting` are shared.

Seven properties do not hold of the code as it stands. Each has an input on which it fails, and the exact condition is
proved instead:

* the tiled scan gives the oracle's list: not with a minimum length of zero (`BulkScan.TiledAgreesIff`);
* the GPU path gives the oracle's list: not with a minimum of zero, and not from 2^32 bytes on
  (`GpuSchedule.GpuAgreesOnIff`, `GpuSchedule.GpuAgreesIff`);
* GCM decryption follows NIST SP 800-38D: not once the 32-bit part of the counter wraps
  (`AesModes.GcmCounterAgreesIff`, `AesModes.GcmAgreesIff`);
* raw DEFLATE can be given to `inflate_auto`: not if it begins like a zlib header (`RawStreams.RawPassesIff`);
* the two address translators agree: not at the last address of the address space (`PeMap.TranslatorsAgreeIff`);
* memory holds the file byte that an address translates to: not where sections overlap or raw data runs past the file
  (`PeMap.MemoryIsFileIff`);
* the documentation of `function_containing` calls its answer the tightest function: resolution picks the shortest one,
  and the two differ on functions that cross (`FunctionTable.LookupsAgreeIff`) and at the last address
  (`FunctionTable.LookupsAtLast`).

## Model

| member | source | states |
|---|---|---|
| BitReading.BitReader.Consumed | crates/ghidrust-core/src/inflate.rs:108-113 | the position and buffer count always say how many bits are gone (8*pos - bitcnt), and the bits left are the stream from there |
| BitReading.BitReader.constructor | crates/ghidrust-core/src/inflate.rs:116-123 | a new reader has the whole stream left |
| BitReading.BitReader.Fill | crates/ghidrust-core/src/inflate.rs:125-132 | buffering changes nothing that is left to read, and leaves more than 24 bits in the buffer or no byte unread |
| BitReading.BitReader.Bits | crates/ghidrust-core/src/inflate.rs:134-143 | gives the next n bits as a number and removes exactly those; fails exactly when fewer remain, and then consumes nothing |
| BitReading.BitReader.AlignByte | crates/ghidrust-core/src/inflate.rs:145-151 | drops bits up to the next byte boundary of the stream, never a whole byte |
| BitReading.BitReader.Byte | crates/ghidrust-core/src/inflate.rs:153-167 | gives the next whole byte after aligning, from the buffer or from the data; fails exactly when none is left |
| Canonical.CodeFits | crates/ghidrust-core/src/inflate.rs:188-196 | with lengths that meet the Kraft inequality, each canonical code of section 3.2.2 of RFC 1951 fits its own length |
| Canonical.PrefixFree | crates/ghidrust-core/src/inflate.rs:188-196 | with such lengths no code word begins another |
| HuffmanTable.CountLengths | crates/ghidrust-core/src/inflate.rs:182-187 | the counts in place are the numbers of codes of each length, zero lengths left out |
| HuffmanTable.FirstCodes | crates/ghidrust-core/src/inflate.rs:190-196 | the first codes in place follow the 16-bit recurrence, wrap-around included |
| HuffmanTable.AssignCodes | crates/ghidrust-core/src/inflate.rs:197-205 | walking the symbols hands out consecutive codes per length, in 16 bits |
| HuffmanTable.FromLengths | crates/ghidrust-core/src/inflate.rs:177-213 | builds the table, or refuses exactly when some length exceeds 15 |
| HuffmanTable.NoWrap | crates/ghidrust-core/src/inflate.rs:191-196 | with lengths that meet the Kraft inequality the 16-bit recurrence never wraps: it gives the codes of RFC 1951 |
| HuffmanTable.WrapsAt16 | crates/ghidrust-core/src/inflate.rs:190-196 | for any lengths, over-subscribed ones too, the first codes are those of the standard modulo 65536 |
| HuffmanTable.CodeIsU16 | crates/ghidrust-core/src/inflate.rs:197-205 | every code of such lengths fits u16 |
| HuffmanTable.SymbolAtRank | crates/ghidrust-core/src/inflate.rs:206-212 | sorting puts each symbol where the decoder looks for it: by length, then by code |
| HuffmanDecode.ReverseBits | crates/ghidrust-core/src/inflate.rs:240-247 | reverses the given number of low bits |
| HuffmanDecode.Decode | crates/ghidrust-core/src/inflate.rs:215-238 | the bit-by-bit loop over reversed codes is the search on plain bits, on every table and input, and moves the reader exactly past what it read |
| HuffmanDecode.DecodesExactly | crates/ghidrust-core/src/inflate.rs:215-238 | a symbol is decoded if and only if the next bits are its code word, most significant code bit first, and exactly those bits are consumed |
| Deflate.FixedWellFormed | crates/ghidrust-core/src/inflate.rs:249-268 | both fixed codes meet the Kraft inequality |
| Deflate.EveryCopyHasToken | crates/ghidrust-core/src/inflate.rs:270-284 | the length and distance tables of the decoder reach every length from 3 to 258 and every distance from 1 to 32768; the values themselves are fixed by `DeflateTables.LengthTable` and `DeflateTables.DistanceTable` |
| DeflateTables.LengthTable | crates/ghidrust-core/src/inflate.rs:270-276 | the length table in closed form: one value a code up to 10, then four codes to each number of extra bits, and 258 alone |
| DeflateTables.DistanceTable | crates/ghidrust-core/src/inflate.rs:277-284 | the distance table in closed form: two codes to each number of extra bits |
| DeflateTables.OneToken | crates/ghidrust-core/src/inflate.rs:270-284 | a copy has one token, but for length 258, which codes 284 and 285 both reach |
| DeflateTables.OrderOfLengths | crates/ghidrust-core/src/inflate.rs:285-287 | code length code lengths come in the order repeats, zero, then outwards from 8 |
| DeflateTables.FixedLiteralCode | crates/ghidrust-core/src/inflate.rs:249-264 | the fixed literal codes and their lengths are those listed in section 3.2.6 of RFC 1951 |
| DeflateTables.FixedDistanceCode | crates/ghidrust-core/src/inflate.rs:266-268 | the fixed distance codes are their own five-bit numbers |
| Inflate.FixedLit | crates/ghidrust-core/src/inflate.rs:249-264 | the fixed literal code that the loops fill in is the one of section 3.2.6 of RFC 1951 |
| Inflate.FixedDist | crates/ghidrust-core/src/inflate.rs:266-268 | the fixed distance code is thirty-two codes of five bits |
| Inflate.ReadDynamicTables | crates/ghidrust-core/src/inflate.rs:289-344 | the table reader, with its in-place length array, refines the reading of a bit sequence: same tables, same bits left, same errors |
| Inflate.DecodeHuffmanBlock | crates/ghidrust-core/src/inflate.rs:346-389 | the block loop refines the reading of a bit sequence, errors included, and ends on every input; what that reading takes is exactly tokens and an end-of-block code (`RoundTrip.ReadsTokens`, `Parsing.TokensTaken`) |
| Inflate.CopyStored | crates/ghidrust-core/src/inflate.rs:76-86 | a stored block is copied when its length and complement match and its bytes are there |
| Inflate.InflateRaw | crates/ghidrust-core/src/inflate.rs:69-106 | the whole decoder over the buffered reader refines one function of the input bits, and ends on every input; `Parsing.TakenIff` says what that function gives |
| RoundTrip.CopyIsPeriodic | crates/ghidrust-core/src/inflate.rs:346-389 | byte-by-byte copying from a distance repeats the last bytes with that period, also where distance is less than length |
| RoundTrip.ReadsTokens | crates/ghidrust-core/src/inflate.rs:346-389 | a block of any tokens, coded with any two prefix codes, is decoded to its LZ77 expansion, leaving the bits that follow |
| RoundTrip.ReadsRuns | crates/ghidrust-core/src/inflate.rs:300-340 | any valid run-length coding of code lengths is undone, with runs that cross from literal to distance lengths |
| RoundTrip.ReadsHeader | crates/ghidrust-core/src/inflate.rs:289-344 | reading a dynamic header of section 3.2.7 of RFC 1951 gives back exactly the two codes it was written for |
| RoundTrip.ReadsBlock | crates/ghidrust-core/src/inflate.rs:72-97 | a stored, fixed or dynamic block is read back to its output, leaving the bits that follow |
| RoundTrip.InflateUndoesDeflate | crates/ghidrust-core/src/inflate.rs:69-106 | any sequence of stored, fixed and dynamic blocks comes back as its expansion, whatever follows the last block; it is refused exactly when the output passes 64 MiB before the last block |
| RoundTrip.DeflateFitsBytes | crates/ghidrust-core/src/inflate.rs:69-106 | every such sequence of blocks can be stored in bytes that the decoder takes back |
| Parsing.TokensTaken | crates/ghidrust-core/src/inflate.rs:346-389 | whatever the block loop takes is the coding of tokens that reach no further back than the output, with their expansion as the result |
| Parsing.RunsTaken | crates/ghidrust-core/src/inflate.rs:300-340 | whatever the length reader takes is a run-length coding of the lengths it returns |
| Parsing.HeaderTaken | crates/ghidrust-core/src/inflate.rs:289-344 | every dynamic header that is read, with codes that meet the Kraft inequality, is one of section 3.2.7 of RFC 1951 |
| Parsing.StoredTaken | crates/ghidrust-core/src/inflate.rs:76-86 | a stored block that is taken has a length, its complement and that many bytes after the padding |
| Parsing.BlockTaken | crates/ghidrust-core/src/inflate.rs:72-97 | a block that is taken is a block of the format, with that block's output |
| Parsing.StreamTaken | crates/ghidrust-core/src/inflate.rs:69-106 | whatever is inflated is a sequence of blocks within the cap, and the result is what they stand for |
| Parsing.TakenIff | crates/ghidrust-core/src/inflate.rs:69-106 | where dynamic codes meet the Kraft inequality, an input is inflated to a result if and only if it is blocks of RFC 1951, within the cap, that stand for that result, and any bits after the last one |
| Refusals.SmallComesBack | crates/ghidrust-core/src/inflate.rs:99-104 | whatever stands for at most 67,108,864 bytes comes back |
| Refusals.LargeIsRefused | crates/ghidrust-core/src/inflate.rs:99-104 | a first block of more than 67,108,864 bytes that is not the last is refused |
| Refusals.TypeThreeRefused | crates/ghidrust-core/src/inflate.rs:96-96 | block type 3 is refused, whatever follows |
| Refusals.ComplementRefused | crates/ghidrust-core/src/inflate.rs:76-86 | a stored block whose lengths are not complements is refused as such |
| Refusals.FarCopyRefused | crates/ghidrust-core/src/inflate.rs:375-380 | a copy from before the beginning of the output is refused as such |
| Refusals.SymbolRefused | crates/ghidrust-core/src/inflate.rs:384-386 | literal symbols from 286 on are refused as such |
| Refusals.DistanceSymbolRefused | crates/ghidrust-core/src/inflate.rs:368-370 | distance symbols from 30 on are refused as such |
| Refusals.RunRefused | crates/ghidrust-core/src/inflate.rs:311-338 | a run past the lengths announced is refused as such |
| Containers.Gunzip | crates/ghidrust-core/src/inflate.rs:31-66 | inflates what the gzip wrapper holds, or refuses the wrapper |
| Containers.GunzipUndoesGzip | crates/ghidrust-core/src/inflate.rs:31-66 | a gzip wrapper of RFC 1952 with any optional fields is taken off to exactly its payload |
| Containers.OnlyGzipIsTaken | crates/ghidrust-core/src/inflate.rs:31-66 | what is taken for gzip, with no reserved flag set, is a gzip member around the payload that is inflated |
| Containers.InflateAuto | crates/ghidrust-core/src/inflate.rs:4-29 | inflates the payload of whichever wrapper is recognised |
| Containers.AutoUndoesZlib | crates/ghidrust-core/src/inflate.rs:4-29 | a zlib wrapper of RFC 1950, with or without a dictionary id, is taken off to exactly its payload |
| Containers.AutoIs | crates/ghidrust-core/src/inflate.rs:4-29 | which inputs are taken for gzip or zlib, by their first two bytes, and which of their bytes are inflated, short trailers included |
| RawStreams.NeverGzip | crates/ghidrust-core/src/inflate.rs:4-29 | no DEFLATE stream begins like gzip: that would be block type 3 |
| RawStreams.RawPassesIff | crates/ghidrust-core/src/inflate.rs:4-29 | raw DEFLATE is inflated as it is exactly unless it is taken for zlib: a non-final stored block first, with a one for its first padding bit, whose padding and length happen to be a multiple of 31 |
| RawStreams.AutoReadsRaw | crates/ghidrust-core/src/inflate.rs:4-29 | every other raw stream of blocks comes back as its expansion, under the same cap |
| RawStreams.RawMistaken | crates/ghidrust-core/src/inflate.rs:4-29 | a well-formed stream that is taken for zlib and loses its first bytes |
| Gf.TimesAdds | crates/ghidrust-core/src/decode_bake.rs:120-136 | multiplication in GF(2^8), defined as polynomial product and division by x^8+x^4+x^3+x+1, distributes over addition |
| Gf.Mul | crates/ghidrust-core/src/decode_bake.rs:120-136 | the shift-and-add loop is multiplication in GF(2^8) (section 4.2 of FIPS 197) for every pair of bytes |
| MixMatrix.MixInverse | crates/ghidrust-core/src/decode_bake.rs:206-218 | the two MixColumns matrices are inverse on every column |
| Aes.ShiftRowsRotates | crates/ghidrust-core/src/decode_bake.rs:190-204 | the byte moves rotate row r by r places, and back |
| Aes.AesShiftRows | crates/ghidrust-core/src/decode_bake.rs:226-240 | the assignments in place are ShiftRows of section 5.1.2 of FIPS 197 |
| Aes.AesInvShiftRows | crates/ghidrust-core/src/decode_bake.rs:190-204 | the assignments in place are InvShiftRows |
| Aes.AesMixColumns | crates/ghidrust-core/src/decode_bake.rs:242-254 | the in-place column loop multiplies every column by the MixColumns matrix |
| Aes.AesInvMixColumns | crates/ghidrust-core/src/decode_bake.rs:206-218 | the in-place column loop multiplies every column by the inverse matrix |
| Aes.InverseInverts | crates/ghidrust-core/src/decode_bake.rs:175-182 | the table built from any permutation of bytes undoes it |
| Aes.AesInvSbox | crates/ghidrust-core/src/decode_bake.rs:175-182 | the loop builds that table |
| Aes.AesKeyExpand128 | crates/ghidrust-core/src/decode_bake.rs:144-173 | byte by byte: the first round key is the key; each later byte is that of the round key before added to the byte one word back, and in a first word to the substituted byte of the rotated last word, with 2^(r-1) in GF(2^8) added to the first |
| Aes.AesEncryptBlock128 | crates/ghidrust-core/src/decode_bake.rs:256-270 | the in-place rounds compute the cipher of section 5.1 of FIPS 197 |
| Aes.AesDecryptBlock128 | crates/ghidrust-core/src/decode_bake.rs:272-286 | the in-place rounds compute the inverse cipher of section 5.3 of FIPS 197 |
| Aes.EncryptsBytes | crates/ghidrust-core/src/decode_bake.rs:256-270 | every encryption is a run of ten rounds in which each byte is that of four substituted bytes along a diagonal, mixed with the field coefficients 2, 3, 1, 1, and the round key, without mixing in the last round |
| Aes.DecryptUndoesEncrypt | crates/ghidrust-core/src/decode_bake.rs:256-286 | decryption undoes encryption for every block, every eleven round keys and every substitution with its inverse |
| Aes.DecryptsEncrypted | crates/ghidrust-core/src/decode_bake.rs:256-286 | the same with the inverse table the source builds, for every permutation of bytes |
| Counter.IncrementBe | crates/ghidrust-core/src/decode_bake.rs:404-411 | the early-exit loop in place is the carry of a big-endian increment |
| Counter.IncrementBytes | crates/ghidrust-core/src/decode_bake.rs:404-411 | incrementing the low n bytes of a number gives the low n bytes of its successor, wrapping at 256^n |
| Counter.AdvanceAdds | crates/ghidrust-core/src/decode_bake.rs:404-411 | i increments add i modulo 256 to the length to the big-endian value |
| Counter.CountersDiffer | crates/ghidrust-core/src/decode_bake.rs:336-361 | counter blocks never repeat within 2^128 steps |
| Modes.ChainUndoes | crates/ghidrust-core/src/decode_bake.rs:300-402 | one step that recovers chunk and state makes a whole mode that recovers every message, a short last chunk included |
| Modes.CbcUndoes | crates/ghidrust-core/src/decode_bake.rs:317-335 | CBC decryption undoes section 6.2 of NIST SP 800-38A for any block permutation and whole blocks |
| Modes.CfbUndoes | crates/ghidrust-core/src/decode_bake.rs:362-384 | CFB decryption undoes section 6.3 of NIST SP 800-38A for any block function and any length |
| Modes.OfbUndoes | crates/ghidrust-core/src/decode_bake.rs:385-399 | OFB is its own inverse for any length |
| Modes.CtrUndoes | crates/ghidrust-core/src/decode_bake.rs:336-361 | counter mode is its own inverse for any length |
| Modes.CtrByte | crates/ghidrust-core/src/decode_bake.rs:351-359 | byte i of block b is the data byte added to byte i of the encryption of the counter plus b |
| AesModes.ModeUndoes | crates/ghidrust-core/src/decode_bake.rs:288-402 | every mode decrypts what NIST SP 800-38A encrypts, for every key, IV, permutation and permitted length |
| AesModes.AesDecrypt | crates/ghidrust-core/src/decode_bake.rs:288-402 | gives plaintext exactly when key, length and IV suit the mode; otherwise the refusal names the first check that fails; the plaintext is fixed byte by byte, mode by mode, by the five lemmas that follow, over the round keys of `Aes.AesKeyExpand128` |
| AesModes.EcbModeByte | crates/ghidrust-core/src/decode_bake.rs:309-316 | ECB: each byte is that of the decrypted block |
| AesModes.CbcModeByte | crates/ghidrust-core/src/decode_bake.rs:317-335 | CBC: each byte is that of the decrypted block with the ciphertext block before, or the IV, added |
| AesModes.CfbModeByte | crates/ghidrust-core/src/decode_bake.rs:362-384 | CFB: each byte has the encryption of the ciphertext block before, or of the IV, added |
| AesModes.OfbModeByte | crates/ghidrust-core/src/decode_bake.rs:385-399 | OFB: each byte of block b has the IV encrypted b + 1 times added |
| AesModes.CtrModeByte | crates/ghidrust-core/src/decode_bake.rs:336-361 | counter mode and GCM: each byte of block b has the encryption of the first counter plus b added |
| AesModes.FirstCounters | crates/ghidrust-core/src/decode_bake.rs:336-350 | the first counter is the IV, or a 12-byte nonce followed by 1 in 32 bits; GCM starts one later, modulo 2^128 |
| AesModes.CtrNonceByte | crates/ghidrust-core/src/decode_bake.rs:336-361 | with a 12-byte nonce, block b of counter mode uses the nonce and a 32-bit b + 1 |
| AesModes.GcmByte | crates/ghidrust-core/src/decode_bake.rs:336-361 | with a 12-byte IV, block b of the GCM path uses the IV followed by b + 2 while b + 2 is below 2^32 |
| AesModes.GcmCounterAgreesIff | crates/ghidrust-core/src/decode_bake.rs:336-361 | its counter block is the one of section 6.5 of NIST SP 800-38D exactly while the 32-bit part has not wrapped: the source carries on into the IV |
| AesModes.GcmAgreesIff | crates/ghidrust-core/src/decode_bake.rs:336-361 | whole messages: GCM decryption is GCTR of section 6.5 of NIST SP 800-38D exactly if no data reaches the block where the 32-bit counter wraps, or only a part of that block is there and the two keystreams agree on it |
| AesModes.LongGcmDiffers | crates/ghidrust-core/src/decode_bake.rs:336-361 | a message of 2^36 - 16 zeros or more on which they differ, for every key, IV and permutation |
| AesModes.OpensSealed | crates/ghidrust-core/src/decode_bake.rs:288-402 | the same round trip with all refusals in place: what was encrypted under a key, IV and length that fit is accepted and comes back |
| BlockModes.DecryptBlockMode | crates/ghidrust-core/src/decode_bake.rs:704-746 | the generic eight-byte mode: refusals in order, otherwise the ECB or CBC plaintext for any block decryption |
| BlockModes.ModeUndone | crates/ghidrust-core/src/decode_bake.rs:704-746 | whole messages come back in both modes, for any block cipher on eight bytes |
| BlockModes.DecipheredByte | crates/ghidrust-core/src/decode_bake.rs:704-746 | each byte is that of the decrypted block, in CBC with the block before or the IV added |
| BlockModes.TransformsAre | crates/ghidrust-core/src/decode_bake.rs:748-774 | Triple-DES decryption is decryption, encryption, decryption under the third, second and first key part; encryption the other way round |
| Des.DesPermute | crates/ghidrust-core/src/decode_bake.rs:656-660 | the shift-and-or fold in a 64-bit word loses no bit: output bit j is input bit table[j] |
| Des.PermuteUndone | crates/ghidrust-core/src/decode_bake.rs:656-660 | a permutation table undoes another wherever it points back |
| Des.TablesUndo | crates/ghidrust-core/src/decode_bake.rs:577-586 | the final permutation is the inverse of the initial one, both ways |
| Des.InitialPermutation | crates/ghidrust-core/src/decode_bake.rs:577-581 | the initial permutation gathers the bits of equal place in each byte, even places first |
| Des.RoundsUndone | crates/ghidrust-core/src/decode_bake.rs:691-702 | Feistel rounds with the keys reversed lead back, for any round function and any keys |
| Des.DesCryptBlock | crates/ghidrust-core/src/decode_bake.rs:691-702 | the loop over halves computes the permuted rounds on big-endian blocks, with the keys reversed for decryption |
| Des.BlockRun | crates/ghidrust-core/src/decode_bake.rs:691-702 | a block goes through sixteen rounds, right half to left and left half plus round function to right, keys in order or backwards, between the permutations, with the halves exchanged at the end |
| Des.DesDecryptUndoesEncrypt | crates/ghidrust-core/src/decode_bake.rs:691-702 | with the decrypt flag the block function undoes itself without it, and the other way round, for every key schedule and round function |
| Des.TripleDesUndone | crates/ghidrust-core/src/decode_bake.rs:755-774 | decrypt-encrypt-decrypt undoes encrypt-decrypt-encrypt of section 3.1 of NIST SP 800-67 |
| Des.TripleDesBlock | crates/ghidrust-core/src/decode_bake.rs:769-773 | the closure of the source composes the three passes in that order |
| BlockModes.DesInverse | crates/ghidrust-core/src/decode_bake.rs:748-753 | DES blocks decrypt what they encrypt, as the block mode needs it |
| BlockModes.TripleDesInverse | crates/ghidrust-core/src/decode_bake.rs:755-774 | the same for Triple-DES |
| BlockModes.BlowfishInverse | crates/ghidrust-core/src/decode_bake.rs:842-852 | the same for Blowfish |
| BlockModes.DesDecryptData | crates/ghidrust-core/src/decode_bake.rs:748-753 | refusals in order (key, data, mode, IV), otherwise the plaintext under the key schedule |
| BlockModes.TripleDesDecryptData | crates/ghidrust-core/src/decode_bake.rs:755-774 | all accepted data is decrypted by decrypt-encrypt-decrypt under the three key parts in the mode asked for; in particular a message encrypted under the same key, IV and mode comes back; other key sizes and unfit inputs are refused |
| BlockModes.BlowfishDecryptData | crates/ghidrust-core/src/decode_bake.rs:842-852 | the same for Blowfish with keys of 1 to 56 bytes |
| BlockModes.OpensSealed | crates/ghidrust-core/src/decode_bake.rs:704-852 | DES, Triple-DES and Blowfish messages come back whenever key, IV and length fit |
| Blowfish.RoundsUndone | crates/ghidrust-core/src/decode_bake.rs:819-840 | the rounds backward, between shifted whitening keys, lead back, for any number of rounds |
| Blowfish.DecryptUndoesEncrypt | crates/ghidrust-core/src/decode_bake.rs:813-840 | decrypting words undoes encrypting them, for any P array and any S arrays |
| Blowfish.BlockUndone | crates/ghidrust-core/src/decode_bake.rs:829-840 | the same on big-endian blocks of eight bytes |
| Blowfish.EncryptRun | crates/ghidrust-core/src/decode_bake.rs:819-827 | encryption is sixteen rounds with the first sixteen subkeys in order, then the last two on the exchanged halves |
| Blowfish.BoxesAt | crates/ghidrust-core/src/decode_bake.rs:813-817 | the round function looks the boxes up at the four bytes of the word: two added, the third mixed in, the fourth added |
| Blowfish.Cipher.EncryptWords | crates/ghidrust-core/src/decode_bake.rs:819-827 | the loop with its swaps is sixteen rounds, the last swap undone, and two whitenings |
| Blowfish.Cipher.DecryptWords | crates/ghidrust-core/src/decode_bake.rs:829-840 | the downward loop is the same with the keys backward |
| Blowfish.Cipher.DecryptBytes | crates/ghidrust-core/src/decode_bake.rs:829-840 | the block form reads and writes big-endian words |
| Rc4.ScheduledPermutes | crates/ghidrust-core/src/decode_bake.rs:101-106 | key scheduling keeps the table a permutation of all 256 byte values after every step |
| Rc4.KeystreamPermutes | crates/ghidrust-core/src/decode_bake.rs:107-116 | so does every keystream byte |
| Rc4.CryptTwice | crates/ghidrust-core/src/decode_bake.rs:97-118 | RC4 is its own inverse for every key and length |
| Rc4.KeyRun | crates/ghidrust-core/src/decode_bake.rs:101-106 | the table comes from the identity by 256 exchanges, each at the running sum of table and key bytes |
| Rc4.StreamRun | crates/ghidrust-core/src/decode_bake.rs:107-116 | each byte is added to the entry at the sum of the two entries its step exchanged |
| Rc4.Rc4 | crates/ghidrust-core/src/decode_bake.rs:97-118 | both loops in place compute the cipher; an empty key is refused |
| ChaCha.QuarterRoundAt | crates/ghidrust-core/src/decode_bake.rs:1016-1025 | the eight statements in place are the quarter round of section 2.1 of RFC 8439 on four places |
| ChaCha.BlockStream | crates/ghidrust-core/src/decode_bake.rs:994-1009 | ten double rounds in place and the serialised sum are the block function of section 2.3 |
| ChaCha.CryptTwice | crates/ghidrust-core/src/decode_bake.rs:978-1014 | ChaCha20 is its own inverse |
| ChaCha.QuarterSteps | crates/ghidrust-core/src/decode_bake.rs:1016-1025 | the quarter round is four half-steps of sum, mix and left turn by 16, 12, 8 and 7 places |
| ChaCha.BlockRun | crates/ghidrust-core/src/decode_bake.rs:994-1009 | a block is twenty rounds on columns and diagonals in turn, then the sum with the start, least significant byte first |
| ChaCha.InitialBytes | crates/ghidrust-core/src/decode_bake.rs:978-993 | the state starts with the constant text, the key, the counter and the nonce |
| ChaCha.CryptByte | crates/ghidrust-core/src/decode_bake.rs:994-1012 | byte i of block b is added to byte i of the block numbered counter + b |
| ChaCha.ChaCha20 | crates/ghidrust-core/src/decode_bake.rs:978-1014 | byte k is added to the keystream of block counter + k/64; succeeds exactly when the sizes are right and counter + ceil(len/64) is below 2^32 |
| Base64.DecodeUndoesEncode | crates/ghidrust-core/src/decode_bake.rs:39-85 | any bytes come back from sections 4 and 5 of RFC 4648: either alphabet, padded or not, white space anywhere |
| Base64.RefusedIffBad | crates/ghidrust-core/src/decode_bake.rs:52-63 | refused exactly when some byte is in neither alphabet, not padding and not white space |
| Base64.BadIs | crates/ghidrust-core/src/decode_bake.rs:40-63 | refused are all bytes but letters, digits, `+ / - _ =` and white space |
| Base64.AlphabetIs | crates/ghidrust-core/src/decode_bake.rs:40-50 | the alphabets run over capitals, small letters, digits and two more |
| Base64.QuadIs | crates/ghidrust-core/src/decode_bake.rs:67-82 | four characters are a 24-bit number; its three bytes are given, without those that padding stands for |
| Base64.FillUpIs | crates/ghidrust-core/src/decode_bake.rs:64-66 | missing padding is filled up, at most three characters |
| Base64.DecodesInParts | crates/ghidrust-core/src/decode_bake.rs:67-84 | a whole number of quadruples decodes on its own, whatever follows, so padding inside the text ends nothing |
| Base64.B64Decode | crates/ghidrust-core/src/decode_bake.rs:39-85 | the three loops compute the decoding, and name the first bad byte |
| Recipe.XorKeyTwice | crates/ghidrust-core/src/decode_bake.rs:87-95 | a repeating key added twice changes nothing, an empty one included |
| Recipe.XorKeyFirst | crates/ghidrust-core/src/decode_bake.rs:87-95 | the key is added from its beginning |
| Recipe.XorKeyAgain | crates/ghidrust-core/src/decode_bake.rs:87-95 | after each whole length of the key it starts again |
| Recipe.RotatedIs | crates/ghidrust-core/src/decode_bake.rs:1164-1171 | ROT13 turns letters halfway round their alphabet, within their case, and changes nothing else |
| Recipe.ReversedParts | crates/ghidrust-core/src/decode_bake.rs:1172-1176 | reversal puts the parts of its input in the opposite order |
| Recipe.WrappersTaken | crates/ghidrust-core/src/decode_bake.rs:1187-1188 | gunzip takes nothing but gzip; inflating takes gzip as gunzip does, and what begins like neither wrapper as a bare stream |
| Recipe.RefusedKeys | crates/ghidrust-core/src/decode_bake.rs:97-100 | which keys, nonces, counters and lengths RC4 and ChaCha20 refuse, and in which order they look |
| Recipe.BakeOne | crates/ghidrust-core/src/decode_bake.rs:1194-1222 | one operation is applied, or fails and leaves the input |
| Recipe.BakeInTwoSteps | crates/ghidrust-core/src/decode_bake.rs:1194-1222 | a recipe in two parts runs the second on what the first leaves; a failure in the first is the result |
| Recipe.AppliedIsPrefix | crates/ghidrust-core/src/decode_bake.rs:1194-1222 | the operations applied are a prefix of the recipe, all of it exactly on success |
| Recipe.OpPeels | crates/ghidrust-core/src/decode_bake.rs:1027-1190 | each operation undoes the layer it is for: base64, XOR, RC4, ChaCha20, AES, DES, Triple-DES and Blowfish in every mode, ROT13, reversal, gzip and zlib around any DEFLATE blocks |
| Recipe.BakePeelsTower | crates/ghidrust-core/src/decode_bake.rs:1194-1222 | baking peels any tower of such layers, outermost first, back to the innermost bytes |
| Recipe.Bake | crates/ghidrust-core/src/decode_bake.rs:1194-1222 | the loop computes the bytes reached, the operations applied and the first failure |
| Ciphers.OpensSealed | crates/ghidrust-core/src/decode_bake.rs:288-852 | as operations on bytes: every block cipher in every mode opens what it sealed under a key and IV that suit it |
| Ciphers.Decipher | crates/ghidrust-core/src/decode_bake.rs:1086-1163 | the four decryption operations give the opened bytes or the first refusal |
| BulkScan.RunsAreAll | crates/ghidrust-core/src/bulk_scan.rs:81-117 | the left-to-right walk lists exactly the maximal runs that are long enough, once each, in order |
| BulkScan.AllRunsUnique | crates/ghidrust-core/src/bulk_scan.rs:81-117 | that description fixes the list |
| BulkScan.PrintableCharacters | crates/ghidrust-core/src/bulk_scan.rs:70-72 | printable are tab and everything from space to tilde |
| BulkScan.ScanRange | crates/ghidrust-core/src/bulk_scan.rs:81-117 | a range scan lists exactly the maximal runs that start in the range, wherever they end |
| BulkScan.ScanSeq | crates/ghidrust-core/src/bulk_scan.rs:75-77 | the sequential scan is the oracle; it lists nothing for a minimum of zero |
| BulkScan.ScanParallel | crates/ghidrust-core/src/bulk_scan.rs:120-155 | chunks scanned in any order, sorted and deduplicated, give the oracle's list for every input, minimum and thread count |
| BulkScan.CollectedAll | crates/ghidrust-core/src/bulk_scan.rs:141-148 | sorting and deduplicating the hits of any cover, overlapping or not, gives all runs |
| BulkScan.ScanTiled | crates/ghidrust-core/src/bulk_scan.rs:366-415 | the mask filled tile by tile in any order, then compacted, gives the runs of the flags |
| BulkScan.TiledAgreesIff | crates/ghidrust-core/src/bulk_scan.rs:366-415 | the tiled scan equals the oracle exactly when the minimum is positive, the input is under 512 bytes or nothing is printable |
| BulkScan.TiledListsAtZero | crates/ghidrust-core/src/bulk_scan.rs:366-415 | from 512 bytes on, a letter and a minimum of zero make them differ |
| BulkScan.PatternScanIsAll | crates/ghidrust-core/src/bulk_scan.rs:158-170 | the sequential pattern scan lists exactly the matches, once each, in order, and nothing for an empty needle |
| BulkScan.PatternSeq | crates/ghidrust-core/src/bulk_scan.rs:158-170 | the loop computes that list, for empty and overlong needles too |
| BulkScan.PatternParallel | crates/ghidrust-core/src/bulk_scan.rs:173-216 | the parallel pattern scan gives the same list for every input and thread count |
| GpuSchedule.PlanChunks | crates/ghidrust-core/src/bulk_scan.rs:275-288 | the chunks add up to the total, each from 1 to the limit |
| GpuSchedule.HandledOnce | crates/ghidrust-core/src/bulk_scan.rs:585-613 | each byte is handled by one invocation of one dispatch and by no other |
| GpuSchedule.NoOverflow | crates/ghidrust-core/src/bulk_scan.rs:466-471 | below 2^32 bytes no invocation number overflows 32 bits |
| GpuSchedule.PackWords | crates/ghidrust-core/src/bulk_scan.rs:488-491 | the or-ing loop packs four bytes a word, least significant first |
| GpuSchedule.UnpacksByte | crates/ghidrust-core/src/bulk_scan.rs:471-474 | the kernel's shift and mask read byte i back out of its word |
| GpuSchedule.MarkAll | crates/ghidrust-core/src/bulk_scan.rs:482-613 | all dispatches, each with its invocations in any order, set exactly the flags of the printable bytes among the first len mod 2^32 |
| GpuSchedule.GpuScan | crates/ghidrust-core/src/bulk_scan.rs:482-656 | marking, then compaction, gives the runs of the flags of the first len mod 2^32 bytes, and nothing when there are none |
| GpuSchedule.GpuAgreesOnIff | crates/ghidrust-core/src/bulk_scan.rs:482-656 | on one input it equals the oracle exactly if every long enough run ends within the first len mod 2^32 bytes; for a minimum of zero, if none of these is printable |
| GpuSchedule.GpuAgreesIff | crates/ghidrust-core/src/bulk_scan.rs:482-656 | on all inputs of a length the GPU path equals the oracle exactly below 2^32 bytes or when no run can be long enough; for a minimum of zero exactly for lengths that are zero modulo 2^32 |
| GpuSchedule.GpuMissesLong | crates/ghidrust-core/src/bulk_scan.rs:482-484 | an input of 2^32 bytes or more on which it does not |
| GpuSchedule.GpuListsAtZero | crates/ghidrust-core/src/bulk_scan.rs:482-656 | letters of any length that is not zero modulo 2^32 differ with a minimum of zero |
| DisasmFlow.DisasmFlow | crates/ghidrust-core/src/disasm.rs:397-500 | the worklist ends; its result is that of the addresses visited in breadth-first order until the listing is full or nothing new waits: which instructions, how many holes, which hole first, which reason; the listing is in address order without repeats, in bounds and reached from the start; below the limit it is complete and its holes are exactly the reached ones; the stop reason names something really met; no listing exactly when nothing reached can be listed. Over the instructions themselves: what an instruction branches or falls through to, in bounds, is listed, a skipped hole, another entry, padding or a hole that ends the walk, unless the listing is cut; and everything listed but the start is led to by something listed or follows a skipped hole |
| DisasmFlow.FlowOnce | crates/ghidrust-core/src/disasm.rs:397-500 | the request fixes the whole result, also where the limit cuts the listing |
| DisasmFlow.NearestFirst | crates/ghidrust-core/src/disasm.rs:406-480 | an address is visited only after all that are fewer steps from the start |
| DisasmFlow.FoundBefore | crates/ghidrust-core/src/disasm.rs:406-480 | the start is visited first, and everything else once, after something whose instruction leads there, or the byte before if that is a skipped hole |
| DisasmFlow.DiscoveryOrder | crates/ghidrust-core/src/disasm.rs:406-480 | visits follow the order of discovery: by which visited address found them first, and for one instruction its targets in their order, then the fallthrough |
| DisasmFlow.NearestListed | crates/ghidrust-core/src/disasm.rs:406-480 | a returned listing that was cut by the limit leaves out nothing nearer to the start than what it lists |
| DisasmFlow.FirstGapNearest | crates/ghidrust-core/src/disasm.rs:447-456 | the first hole that is returned is a nearest one |
| DisasmFlow.ReasonIsLast | crates/ghidrust-core/src/disasm.rs:413-480 | the reason is that of the last visited address in bounds that was barred: another entry before padding, padding before a hole |
| DisasmFlow.ClosedHoldsPath | crates/ghidrust-core/src/disasm.rs:410-480 | a set that holds the start and the successors of its members holds everything reached |
| DisasmFlow.FewerThan | crates/ghidrust-core/src/disasm.rs:405-410 | the visited set cannot outgrow the address space, so the walk ends even over wrapping addresses |
| DisasmLinear.WalkLine | crates/ghidrust-core/src/disasm.rs:262-395 | both straight-line walks stop after the step where a limit, a halt or a hole ends them, with the matching listing, hole count and reason |
| DisasmLinear.DescribesOnce | crates/ghidrust-core/src/disasm.rs:262-395 | that description fixes the result |
| DisasmLinear.StepIs | crates/ghidrust-core/src/disasm.rs:262-309 | a step goes past the instruction, or one byte past a hole, in 64 bits, and collects the one or counts the other |
| DisasmLinear.StepLimit | crates/ghidrust-core/src/disasm.rs:262-275 | a walk that ends short of its limit went eight steps an instruction, or met a hole that it does not skip |
| DisasmLinear.StopIs | crates/ghidrust-core/src/disasm.rs:318-395 | why a bounded walk ends: the bound before another entry, that before padding, that before a hole |
| DisasmLinear.BoundedIsPrefix | crates/ghidrust-core/src/disasm.rs:318-395 | the bounded walk is the plain walk cut at the first bound, entry or padding, and its reason is that one |
| DisasmLinear.MetIsChain | crates/ghidrust-core/src/disasm.rs:262-309 | without skipping, each instruction starts where the one before it ends |
| FunctionTable.GrowFunction | crates/ghidrust-core/src/pe_functions.rs:219-274 | the loop computes the grown end, with or without a hard end, wherever the walk itself stays below 2^64 |
| FunctionTable.HardEndClamps | crates/ghidrust-core/src/pe_functions.rs:219-274 | growth under a hard end h is unbounded growth cut to max(min(grown, h), entry + 1) |
| FunctionTable.GrownIs | crates/ghidrust-core/src/pe_functions.rs:219-274 | the grown end is where the walk from the entry stops: past the first return, or where 16 bad bytes in a row, padding, unmapped memory or 4096 steps end it |
| FunctionTable.GrowthTrace | crates/ghidrust-core/src/pe_functions.rs:219-274 | every entry has such a walk, over whole instructions and single bad bytes |
| FunctionTable.CreatedOk | crates/ghidrust-core/src/pe_functions.rs:165-207 | creating or refreshing a function keeps entries in order and unique |
| FunctionTable.CreatedOnlyGrows | crates/ghidrust-core/src/pe_functions.rs:165-207 | no function is lost, shortened or otherwise changed but the one asked for |
| FunctionTable.CreatedHas | crates/ghidrust-core/src/pe_functions.rs:165-207 | the function is in the table afterwards, at least as long as asked for or as grown |
| FunctionTable.CreatedExactly | crates/ghidrust-core/src/pe_functions.rs:165-207 | the entry, end and kind the function gets, new or refreshed |
| FunctionTable.CreateTwice | crates/ghidrust-core/src/pe_functions.rs:165-207 | creating again with the same arguments changes nothing |
| FunctionTable.Program.CreateFunction | crates/ghidrust-core/src/pe_functions.rs:165-207 | the method changes the table as described and returns the entry it then holds |
| FunctionTable.SuspectMeansTruncated | crates/ghidrust-core/src/bounds_honesty.rs:64-105 | a range is suspect only if growth goes past its end, and that growth is what is suggested |
| FunctionTable.SuspectIff | crates/ghidrust-core/src/bounds_honesty.rs:64-105 | a range is suspect exactly if growth passes its end by the short span and it is short with a bound as its stop or an unclean end, or of few instructions |
| FunctionTable.DecompileSuspectIff | crates/ghidrust-core/src/bounds_honesty.rs:108-133 | the decompiler's range is suspect exactly if it is short and decoding or growth goes well past it |
| FunctionTable.CreateClearsSuspicion | crates/ghidrust-core/src/bounds_honesty.rs:64-105 | after creating the function without an end, the check is honest for every instruction count and stop reason |
| FunctionTable.CreateAndDecompile | crates/ghidrust-core/src/bounds_honesty.rs:108-133 | the decompiler's check is then suspect exactly for a short body decoded well past its end |
| FunctionTable.ResolveHolds | crates/ghidrust-core/src/resolve.rs:148-203 | on every path an answer names a function of the table, with its end, whose interval holds the address |
| FunctionTable.ResolveAgain | crates/ghidrust-core/src/resolve.rs:148-203 | a second call finds the same function and leaves the table unchanged, after the exact, covering, unwind-range and synthesised paths |
| FunctionTable.ResolveAnswers | crates/ghidrust-core/src/resolve.rs:108-203 | which function an address gets: the entry itself; else the shortest around it, later starts first, with all candidates; else the first unwind range around it, whole; else one grown from the address |
| FunctionTable.AnalyzedFirst | crates/ghidrust-core/src/resolve.rs:159-203 | the analyzers run on an empty table and once more when what is there does not know the address; only then is a function made, and nothing else is lost or changed |
| FunctionTable.RefusedUntouched | crates/ghidrust-core/src/resolve.rs:148-179 | an address that is refused changes nothing |
| FunctionTable.FailsExactly | crates/ghidrust-core/src/resolve.rs:148-179 | resolution fails exactly for addresses outside all blocks and for addresses outside executable blocks that are no entry, and otherwise only if the analyzers fail; the no-containing-function answer cannot occur |
| FunctionTable.CoveredHolds | crates/ghidrust-core/src/resolve.rs:108-144 | the exact entry or the tightest covering function really covers the address |
| FunctionTable.Program.TryResolveCovering | crates/ghidrust-core/src/resolve.rs:108-144 | the lookup computes that answer, with its candidates, or none |
| FunctionTable.Program.ResolveFunction | crates/ghidrust-core/src/resolve.rs:148-203 | the method changes the table step by step to what resolution describes, keeping it in order, and its answer is the one that `FunctionTable.ResolveAnswers` describes over the unwind ranges and the table |
| FunctionTable.ContainingIs | crates/ghidrust-core/src/program.rs:283-291 | the other lookup names the function that starts last among those around the address, or none |
| FunctionTable.LookupsAgreeIff | crates/ghidrust-core/src/program.rs:283-291 | the other lookup, by latest start, agrees with resolution exactly at entries and where every two functions of the table around the address of which the later is the longer are followed by one that starts later still and holds the address |
| FunctionTable.LookupsAtLast | crates/ghidrust-core/src/program.rs:283-291 | at the last address of all it finds nothing, also where an entry is there |
| FunctionTable.NestedLookupsAgree | crates/ghidrust-core/src/program.rs:283-291 | functions that nest properly give one answer at every address |
| FunctionTable.CrossingLookupsDiffer | crates/ghidrust-core/src/program.rs:283-291 | two crossing functions on which the lookups differ |
| PeMap.LoadPe | crates/ghidrust-core/src/pe.rs:35-122 | the section loop builds exactly the sections and zero-filled buffers the headers call for, or refuses the file |
| PeMap.RvaToFileOffset | crates/ghidrust-core/src/imports.rs:161-188 | the loop finds the first header with raw data at a relative address |
| PeMap.TranslatesByHeader | crates/ghidrust-core/src/imports.rs:161-188 | in a loaded file a relative address translates through the first header with raw data there |
| PeMap.TranslatorsAgreeIff | crates/ghidrust-core/src/program.rs:249-260 | in a loaded program va_to_file_offset(base + rva) equals rva_to_file(rva) for every rva that does not wrap, exactly unless it is the last address of the address space and some header has raw data there |
| PeFiles.LastAddressDiffers | crates/ghidrust-core/src/program.rs:249-260 | a file that loads, on which they differ there: the saturated end leaves the last address out |
| PeFiles.FileLoads | crates/ghidrust-core/src/pe.rs:35-122 | a file with any base, entry and list of section headers, with an optional header of either kind, loads with just these, so the conditions below are about real files |
| PeFiles.LoadsIff | crates/ghidrust-core/src/pe.rs:35-87 | a file loads exactly if both signatures are there, the magic is 0x10b or 0x20b, and all headers lie in the file |
| PeFiles.Permissions | crates/ghidrust-core/src/pe.rs:88-118 | a block can be executed, read and written by bits 29, 30 and 31 of the section flags, and what can be executed can be read |
| PeFiles.SectionExtent | crates/ghidrust-core/src/pe.rs:80-118 | every byte of a section's virtual size and raw size is in memory, and no other |
| PeMap.ReadsFirstSpanning | crates/ghidrust-core/src/program.rs:230-242 | a read succeeds exactly inside some section, and comes out of the buffer of the first section that spans the address |
| PeMap.MemoryIsFileIff | crates/ghidrust-core/src/program.rs:230-260 | for every loaded file a byte read from memory is the file byte of its address exactly under a condition on the section table: the raw data fits the file or is zero there, and no other section puts a different byte at the address |
| PeMap.MemoryIsFile | crates/ghidrust-core/src/program.rs:230-242 | in particular, where sections do not overlap and raw data lies in the file, each byte read is the file byte of its address, or zero past the raw data |
| PeFiles.TruncatedRawDiffers | crates/ghidrust-core/src/program.rs:230-260 | a file that loads, with one section whose raw data runs past its end: memory holds zero where the translation names a byte of the file |
| PeFiles.OverlapDiffers | crates/ghidrust-core/src/program.rs:230-260 | a file that loads, with two overlapping sections on which memory and translation part |

## Left out

- Over-subscribed code lengths: the table builder accepts them and its 16-bit sums wrap in release builds; the model wraps too (`HuffmanTable.WrapsAt16`), and the code theorems ask for the Kraft inequality. Debug builds would stop with an overflow instead.
- Code 16 with no length before it is not part of RFC 1951; the source repeats zero, and the format description here admits it with that meaning, so the round trip covers it too.
- The copies of the inflater's two impossible symbol checks are dropped where no decoded symbol can reach them.
- The inflater's growing output vector is a sequence passed in and out, since the source only pushes and reads it.
- CRC-32, Adler-32 and GCM tags: the source does not check them. GCM with a 16-byte IV is modelled as written, without a claim about the standard.
- The AES substitution table is any table; the theorems ask for a permutation of bytes. AES inverse substitution is the same loop with the inverse table.
- Des.DesDecryptUndoesEncrypt: the round function with its E, P and S tables, and the key schedule with PC1, PC2 and its shifts, are arbitrary, because the theorem holds for all of them.
- Blowfish key setup: it only computes P and S arrays, and the theorems hold for every such pair.
- Mode names and operation names are constructors; parsing of names, JSON arguments and keys is not part of this model.
- Error texts are constructors. A recipe result keeps the reached bytes, the applied operations and the failure, not their hexadecimal or UTF-8 forms.
- Recipe.OpPeels: hexadecimal, `from_charcode`, `url_decode`, `html_entity_decode` and UTF-16 decoding have no layer, because they work on Unicode text, and the single-byte XOR search none, because it guesses; as operations of a recipe they are arbitrary functions of the bytes.
- Magic search, printable ratios and window entropy, which are floating-point scoring.
- Adapter selection, buffers, read-back and panic fallback of the GPU path, and thread-pool scheduling beyond the order of the pieces.
- ASCII string extraction from program blocks, timing harnesses and preferred-mode state.
- Instruction decoding, branch targets and mnemonics: an image gives each address an instruction, its targets and whether control falls through.
- DisasmLinear.WalkLine: both walks are one loop with a flag, because the source's two loops differ only in the stop checks.
- FunctionTable.GrowFunction: a walk that runs past 2^64 is not asked for; there the source's additions overflow.
- FunctionTable.Program.ResolveFunction: analyzers are any function on the table that keeps it in order and unique, and may fail; no decoded instruction runs past 2^64, where the source's additions would overflow; function names are not kept.
- Unwind-table and export parsing, import parsing and `filter_imports`; the unwind ranges are given to resolution as a list.
- PeMap.MemoryIsFile: is the special case of sections that do not overlap and raw data inside the file; `PeMap.MemoryIsFileIff` covers every loaded file.
- The name and format label of a program, section names, block permissions beyond the three flags, RTTI, edits, projects, servers and user interfaces.
