# BEN encoder core, modelled in Dafny

The `ben` crate ("binary ensemble") stores ensembles of district assignment
vectors compactly. One assignment vector is one sample: it gives each node the
label of its district. This project models the encoding core of
`src/encode/mod.rs`:

- **BEN blocks** (`encode_ben_vec_from_rle`). A block stores the run-length
  encoding of one vector. It starts with a six-byte header: the bit width of the
  values, the bit width of the run lengths, and the payload size in bytes as a
  big-endian 32-bit word. After the header come the payload bits. Every run is
  written as its value and then its length, together MSB-first, and the last byte
  is padded with zero bits. The encoder keeps a carry accumulator
  (`remainder`, `remainder_bits`) and emits every byte as soon as it is complete.
- **ben32 lines** (`encode_ben_32_line`). This is the byte-aligned form that the
  XBEN compressor reads. Each run becomes one big-endian 32-bit word
  `(value << 16) | count`, and a zero word ends the line.
- **BEN files** (`jsonl_encode_ben`, and the header check of
  `encode_ben_to_xben`). A file is the text `STANDARD BEN FILE` followed by
  one block per input line that has an `"assignment"` array. A reader checks that
  the first 17 bytes are that text. If fewer than 17 bytes exist it fails with
  `UnexpectedEof`; if the bytes differ it fails with `InvalidData`.

Integers are unbounded in the model:

- shifts become `* Pow2(n)` or `/ Pow2(n)`;
- or-ing disjoint bit fields becomes `+`;
- masks become `% Pow2(n)`;
- `as u8` becomes `% 0x100`.

The contracts show that none of these overflow the Rust types. Bit strings are
`seq<bool>`, most significant bit first.

Each encoder is a method with loops and loop invariants. Its postcondition ties
the output to a pure specification function: `BenBlock`, `Ben32Line` or
`BenFileBytes`. Lemmas then prove what those functions promise:

- the header layout;
- the payload contents;
- round trips through decoders written as the model's own inverses;
- the worked example in the documentation of `jsonl_encode_ben`.

Files (one module each): `wrappers.dfy` (Option, Result), `ints.dfy` (bytes,
powers of two, big-endian words), `seqs.dfy` (sequence facts), `run_length.dfy`
(runs, run-length encoding), `bit_packing.dfy` (bit strings, byte packing,
unpacking), `ben_block.dfy`, `ben32.dfy`, `ben_file.dfy`, `ben_examples.dfy`.

## Model

| member | source | states |
|---|---|---|
| BenBlockCodec.EncodeBenVecFromRle | src/encode/mod.rs:172-227 | The encoder writes exactly `BenBlock(rleVec)`: the header, then the runs packed with the widths that the header announces. |
| BenBlockCodec.WriteHeader | src/encode/mod.rs:173-188 | The six header bytes are the two widths and the big-endian byte count. The widths it returns are `ValueBits` and `LengthBits`. |
| BenBlockCodec.PackRuns | src/encode/mod.rs:190-224 | The bytes the run loop and the final flush emit are the MSB-first concatenation of every run's value and length, zero-padded to whole bytes. The loop invariant keeps `remainder_bits < 8` and `remainder < 2^remainder_bits`. |
| BenBlockCodec.PushField | src/encode/mod.rs:194-215 | One field through the accumulator: the emitted bytes, followed by the bits still held, spell the old held bits followed by the field. Fewer than 8 bits stay held. |
| BenBlockCodec.DrainBytes | src/encode/mod.rs:200-205 | The `while n_bits_left >= 8` loop emits whole bytes and keeps fewer than 8 bits. Emitted bits plus kept bits equal the accumulator. |
| BenBlockCodec.JoinField | src/encode/mod.rs:194-198 | `remainder << width`, or-ed with the field, is the held bits followed by the field and stays below 2^23, so the `u32` never overflows. |
| BenBlockCodec.DrainStep | src/encode/mod.rs:201-204 | `(new_val >> n) as u8` is the top byte of the accumulator, and the mask keeps the low `n` bits. Together they split the accumulator's bits. |
| BenBlockCodec.FlushByte | src/encode/mod.rs:221-224 | `(remainder << (8 - remainder_bits)) as u8` is the held bits followed by zero bits, and it fits a byte. |
| BenBlockCodec.FlushRemainder | src/encode/mod.rs:217-224 | With the final partial byte, or with none when no bits are held, the payload is exactly the padded packing of all the bits. |
| BenBlockCodec.PushRun | src/encode/mod.rs:193-219 | One iteration of the run loop appends that run's value bits and length bits to the stream. |
| BenBlockCodec.SourceByteCount | src/encode/mod.rs:179-184 | The source's `n_bytes` (a division, plus one when a remainder exists) equals `ceil(bits / 8)` and fits a `u32`. |
| BenBlockCodec.BitLength | src/encode/mod.rs:177-178 | `16 - leading_zeros(x)` is the least `r <= 16` with `x < 2^r`. |
| BenBlockCodec.LeadingZeros | src/encode/mod.rs:177-178 | For `x` held in `w` bits, `leading_zeros` is at most `w`, `x` fits in the remaining `w - r` bits, and the highest of those bits is set. |
| BenBlockCodec.BitLengthIs | src/encode/mod.rs:177-178 | Any `k >= 1` with `2^(k-1) <= x < 2^k` is the bit length of `x`. |
| BenBlockCodec.MaxValue | src/encode/mod.rs:175 | The result bounds every run's value, and some run has that value. |
| BenBlockCodec.MaxLength | src/encode/mod.rs:176 | The result bounds every run's length, and some run has that length. |
| BenBlockCodec.Widths | src/encode/mod.rs:175-178 | The value width is in 1..16 and the length width is at most 16. They are the least widths that hold every value and every length. The length width is at least 1 when every length is. |
| BenBlockCodec.WidthsOfMaxima | src/encode/mod.rs:175-178 | Maxima with bit lengths `vb` and `lb` give exactly those header widths. |
| BenBlockCodec.BlockLayout | src/encode/mod.rs:179-188 | The block is `6 + n_bytes` bytes long. Bytes 0 and 1 are the widths, and bytes 2..5 read big-endian as the payload length. `n_bytes` is the least whole number of bytes that holds the bits. The payload is the run bits followed by zero padding. |
| BenBlockCodec.BitCountIsPayloadLength | src/encode/mod.rs:179-184 | `assign_bits * len` is the number of payload bits before padding. |
| BenBlockCodec.WholeByteBlock | src/encode/mod.rs:180-188 | When the run bits fill whole bytes, the block is the two widths, the big-endian length, and then exactly those bytes. |
| BenBlockCodec.ShortBlock | src/encode/mod.rs:186-188 | With fewer than 256 payload bytes, the count word is `[0, 0, 0, n]`. |
| BenBlockCodec.BlockRoundTrip | src/encode/mod.rs:172-227 | Decoding a block gives back exactly its runs and leaves the bytes after it untouched, so blocks can be concatenated. |
| BenBlockCodec.GoldenBlockOne | src/encode/mod.rs:256-271 | The runs `[(1,3),(2,3)]` encode to `[2,2,0,0,0,1,123]`. |
| BenBlockCodec.GoldenBlockTwo | src/encode/mod.rs:256-271 | The runs `[(1,2),(2,2),(1,1),(2,1)]` encode to `[2,2,0,0,0,2,106,89]`. |
| BenBlockCodec.FixtureOneWidths | src/encode/mod.rs:175-178 | Those first runs get 2-bit values and 2-bit lengths. |
| BenBlockCodec.FixtureTwoWidths | src/encode/mod.rs:175-178 | So do the second runs. |
| BenBlockCodec.FixtureOnePayloadBits | src/encode/mod.rs:193-219 | The fields `01 11 10 11` of the first runs make the byte 123. |
| BenBlockCodec.FixtureTwoPayloadBits | src/encode/mod.rs:193-219 | The fields of the second runs make the bytes 106 and 89. |
| BitPacking.PackBytes | src/encode/mod.rs:200-224 | Packing gives `ceil(n / 8)` bytes whose bits are the input followed by zero padding. |
| BitPacking.PackedPayload | src/encode/mod.rs:200-224 | Bytes that spell the bits plus fewer than 8 zero bits are exactly the packing. |
| BitPacking.BitsSplit | src/encode/mod.rs:194 | `hi << m`, or-ed with `lo`, in `n + m` bits is `hi` in `n` bits followed by `lo` in `m` bits. |
| BitPacking.FieldBits | src/encode/mod.rs:194-207 | One run's bits: the value in `vb` bits joined at line 194, then the length in `lb` bits joined at line 207, `vb + lb` bits in all. |
| BitPacking.FromBitsOfBits | src/encode/mod.rs:194 | Reading back the bits of `x < 2^w` gives `x`. |
| BitPacking.RunBitsAppend | src/encode/mod.rs:193-219 | The bit stream of two run lists is the first list's bits followed by the second's. |
| BitPacking.UnpackRunBits | src/encode/mod.rs:193-224 | Reading fields back from the payload bits recovers the runs, whatever zero padding follows. |
| BitPacking.BitsOfBytesInjective | src/encode/mod.rs:200-224 | Different byte strings have different bit strings. |
| Ints.BigEndian32 | src/encode/mod.rs:188 | `to_be_bytes` gives four bytes that read back to the number. |
| Ints.CeilDiv8 | src/encode/mod.rs:180-184 | The source's two-branch `n_bytes` equals `(p + 7) / 8`. |
| Ints.CeilDiv8Bounds | src/encode/mod.rs:180-184 | `8 * n_bytes - 8 < p <= 8 * n_bytes`. |
| RunLength.Rle | src/encode/mod.rs:54-77 | Run-length encoding has at most as many runs as nodes, and none exactly when there are no nodes. |
| RunLength.Step | src/encode/mod.rs:62-70 | One node of the counting loop adds at most one run and always leaves an open run; `StepShape` states which runs it keeps and changes. |
| RunLength.StepShape | src/encode/mod.rs:62-70 | One node keeps every closed run, gives the open run the node's label, and adds no run exactly when the label repeats. A repeat grows the count by one; a new label opens a run of one. |
| RunLength.RleExpand | src/encode/mod.rs:54-77 | Expanding the runs gives back the assignment vector. |
| RunLength.RleMaximal | src/encode/mod.rs:54-77 | Every run has at least one node, and neighbouring runs have different labels. |
| RunLength.RleOfExpand | src/encode/mod.rs:54-77 | Run-length encoding is the inverse of expansion on maximal run lists. |
| RunLength.RleTotalLength | src/encode/mod.rs:54-77 | The counts add up to the number of nodes. |
| RunLength.RlePrefix | src/encode/mod.rs:54-77 | The runs of a prefix are the runs of the whole with at most the last one shortened, so runs already written never change. |
| RunLength.RleSnoc | src/encode/mod.rs:62-70 | One more node either lengthens the last run (same label) or opens a run of one. |
| RunLength.RleSnocSame | src/encode/mod.rs:62-63 | The same label again grows the last run's count by one. |
| RunLength.RleSnocNew | src/encode/mod.rs:64-69 | A new label appends a run of one. |
| RunLength.RleAppendRun | src/encode/mod.rs:54-77 | Appending `j` copies of a new label appends the single run `(v, j)`. |
| RunLength.RlePrefixU16 | src/encode/mod.rs:63 | When the whole vector's counts fit a `u16`, so do those of every prefix, so `count += 1` cannot overflow. |
| RunLength.ExpandSnoc | src/encode/mod.rs:54-77 | Expanding one more run appends its copies. |
| RunLength.ExpandLength | src/encode/mod.rs:54-77 | The expansion is as long as the counts add up to. |
| Ben32.EncodeBen32Line | src/encode/mod.rs:46-81 | The line is `Ben32Line(Rle(assignVec))`: one word per run, then the zero word, `4 * (runs + 1)` bytes in all. An empty vector gives exactly `[0,0,0,0]`. |
| Ben32.WordOf | src/encode/mod.rs:65 | The word of a run fits a `u32`, with the value as its high half and the count as its low half. |
| Ben32.Word | src/encode/mod.rs:66 | `to_be_bytes` of the word gives four bytes that read back big-endian as that word. |
| Ben32.Words | src/encode/mod.rs:65-66 | What `ret` accumulates: the words of all runs, in order, four bytes per run. |
| Ben32.LoopStart | src/encode/mod.rs:56-60 | The first node opens a run of one with its label and writes nothing; the loop state then holds for the one-node prefix. |
| Ben32.CountNode | src/encode/mod.rs:62-70 | The same label grows the open run and writes nothing. A new label writes the open run's word and opens a run of one. The loop state stays tied to the runs of the prefix read so far. |
| Ben32.LoopExtend | src/encode/mod.rs:62-63 | `count += 1` keeps the loop state. |
| Ben32.LoopClose | src/encode/mod.rs:64-69 | Writing the word and resetting keeps the loop state. |
| Ben32.LoopFinish | src/encode/mod.rs:73-77 | The last run's word completes the words of all runs. |
| Ben32.WordFields | src/encode/mod.rs:65-66 | A word reads back as the value in the high half and the count in the low half. It is the zero word only for the run `(0, 0)`. |
| Ben32.WordsNotSentinel | src/encode/mod.rs:65-79 | Every run word has a count of at least 1 in its low half, so none is the zero sentinel. |
| Ben32.WordsAppend | src/encode/mod.rs:54-77 | The words of two run lists are the first's words followed by the second's. |
| Ben32.Ben32RoundTrip | src/encode/mod.rs:46-81 | Reading words up to the zero word gives back the runs and leaves what follows. |
| Ben32.Ben32Layout | src/encode/mod.rs:46-81 | A line is `4 * (runs + 1)` bytes and ends in the sentinel. The counts add up to the number of nodes. The line reads back to the runs, and they expand to the vector. |
| BenFile.MagicIsText | src/encode/mod.rs:276 | The magic bytes are the 17 characters of `STANDARD BEN FILE`. |
| BenFile.JsonlEncodeBen | src/encode/mod.rs:274-298 | The output is the magic text, then one block per line that has an assignment vector, in order. |
| BenFile.BlocksSnoc | src/encode/mod.rs:278-296 | Each further line appends its block, or nothing when it has no assignment vector. |
| BenFile.BlocksCons | src/encode/mod.rs:278-296 | The blocks split at the first line too. |
| BenFile.ReadMagic | src/encode/mod.rs:315-323 | Fewer than 17 bytes gives `UnexpectedEof`, and a mismatch gives `InvalidData`. Otherwise it succeeds, and the input is the magic followed by the rest. Each of these holds in both directions. |
| BenFile.ReadMagicOfFile | src/encode/mod.rs:274-323 | Every file the encoder writes passes the header check, leaving exactly its blocks. |
| BenFile.DecodeFirstBlock | src/encode/mod.rs:172-227 | A block in front of decodable blocks adds its runs in front of theirs. |
| BenFile.LineRoundTrip | src/encode/mod.rs:284-295 | One line's block decodes to that line's runs, or to nothing when the line has no assignment. |
| BenFile.BlocksRoundTrip | src/encode/mod.rs:274-298 | All the blocks decode to the runs of every assignment vector, in order. |
| BenFile.ExpandSampleRuns | src/encode/mod.rs:284-292 | Expanding those runs gives the assignment vectors back. |
| BenFile.FileRoundTrip | src/encode/mod.rs:274-298 | Decoding a written file gives every assignment vector, in input order. |
| BenExamples.RleSampleOne | src/encode/mod.rs:256-262 | `[1,1,1,2,2,2]` has the runs `[(1,3),(2,3)]`. |
| BenExamples.RleSampleTwo | src/encode/mod.rs:256-262 | `[1,1,2,2,1,2]` has the runs `[(1,2),(2,2),(1,1),(2,1)]`. |
| BenExamples.RleOfTwoRuns | src/encode/mod.rs:54-77 | Two runs with different labels, written out, run-length encode back to themselves. |
| BenExamples.RleOfFourRuns | src/encode/mod.rs:54-77 | The same holds for four runs. |
| BenExamples.TwoLineFile | src/encode/mod.rs:278-296 | The blocks of two lines are the first line's block followed by the second's. |
| BenExamples.SampleBlocks | src/encode/mod.rs:256-271 | The two documented lines are encodable, and their blocks are `[2,2,0,0,0,1,123]` then `[2,2,0,0,0,2,106,89]`. |
| BenExamples.SampleFile | src/encode/mod.rs:256-271 | The whole documented output is the magic text followed by those two blocks. |

## Left out

- XZ/LZMA2 compression (`jsonl_encode_xben`, `xz_compress`, and the part of `encode_ben_to_xben` after the header check). These call the foreign `xz2` library.
- I/O. Readers, writers, line iteration, `read_exact` and `io::Error` are not modelled. An encoder returns the bytes it would write, and an input is a byte sequence.
- JSON parsing. A line is already parsed into `Option<seq<u16>>`: `None` when it has no `"assignment"` array. The `as_u64().unwrap() as u16` truncation and the JSON parse panic happen before the model's input. `encode_ben_32_line` calls `as_array().unwrap()` on the `"assignment"` field, so on the XBEN path a line without that array panics, while `jsonl_encode_ben` skips it. `Ben32.EncodeBen32Line` takes the vector itself, so that difference lies outside the model.
- Progress printing (`print!`, `eprintln!`).
- The `relabel`, `translate`, `decode` and `utils` modules are not part of this model. `assign_to_rle` (in `utils`) is represented by `RunLength.Rle`. Its recursion mirrors the counting loop of `encode_ben_32_line`. The decoders `DecodeBlock`, `UnpackRuns`, `ReadBen32Line` and `DecodeBenFile` belong to the model, not to the crate. They are the inverses used to state the round trips.
- BenBlockCodec.EncodeBenVecFromRle: requires `Encodable`. This excludes three cases:
  - an empty run list, which panics at the `unwrap`;
  - run lengths beyond `u16`;
  - `assign_bits * len` of 2^32 or more, where `rle_vec.len() as u32` truncates or the `u32` multiply overflows.
  
  The model does not state what a release build would produce after wrap-around.
- Ben32.EncodeBen32Line: requires every run to fit a `u16`, because `count += 1` overflows beyond 65535. The model leaves out the wrap-around a release build would perform.
- BenFile.JsonlEncodeBen: requires every line to be encodable, as the block encoder does. `LineBlock` gives an empty block for other lines only to keep the specification function total; the encoder never reaches that case.
