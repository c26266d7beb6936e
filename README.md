# On-device Whisper transcription: a verified model of its inference core

This project models the inference path of the pte-whisper-android app in Dafny:

- **Log-mel front end** (`MelSpec`, module `Mel`, with the 512-point FFT in module `Fft`):
  - normalises a PCM buffer to 30 s;
  - cuts it into 400-sample frames every 160 samples, zero-padded to 512;
  - runs the in-place radix-2 FFT (copy, bit-reversal swaps, butterfly passes);
  - projects each power spectrum onto the triangular mel filterbank;
  - writes the band-major 80 x 3000 matrix of log energies, with -11 in the columns no frame reaches.
- **Tokenizer** (`SimpleTokenizer`, modules `Tokenizer` and `Text`):
  - the id-to-string table;
  - the three-id transcription prompt;
  - the `<|...|>` test;
  - `decode`: stop at end-of-text, skip special ids, replace the BPE markers, collapse runs of spaces, trim.
- **Encoder search** (module `EncoderShape`):
  - the two layout helpers that transpose or crop the mel matrix;
  - the twelve candidate input layouts, tried in order;
  - `tryEncForward`;
  - `encodeAuto`, with its destroy, reload and single retry after the "Inputs can not be set mid execution" error.
- **Greedy decoding** (module `Greedy`):
  - the decoder call with its swapped-argument fallback;
  - the argmax over the last logits row;
  - the loop of at most 224 steps that records every id but feeds back only the non-special ones.
- **Inference result classification** (module `Engine`): `validateMelShape`, `forwardBlocking` and `firstTensorOrNull`.
- **The activity** (module `Activity`): `transcribeOnce`, on a `Transcriber` object that holds the encoder and decoder handles.

The ExecuTorch engine is an abstract runtime. `Module.forward` is a function from a handle and an input array to either a thrown exception or an output array. `toTensor` fails on a value that is not a tensor.

The encoder load that the search performs is a sequence of results: the `k`-th load returns `load(k)`.

Doubles are exact reals. The Hann window, the integer mel-bin edges, the twiddle tables and the natural logarithm are parameters.

Each imperative routine of the app is a Dafny method with the app's loops and arrays:

- the FFT works in place on two arrays;
- `logMel` fills a window buffer, a spectrum matrix and the output array;
- the layout helpers fill a fresh array, one with `System.arraycopy`;
- the tokenizer builds its table in an array;
- `encodeAuto` and the decoding loop keep their local state.

Each method is proved against a specification function. The properties the app relies on are proved as lemmas about those functions.

Two behaviours of the code that a reader may not expect:

- **A special token does not end decoding.** The greedy loop records a special id, skips feeding it back and goes on. It does not stop, so every decoding that finishes has exactly 224 ids (`Greedy.GreedyLength`, `Activity.TranscriptShape`).
- **`whisperEncoder` is replaced only by a successful retry.** It changes only when the retry right after a reload succeeds (MainActivity.kt:335-336). If that retry fails, `whisperEncoder` keeps the handle that was just destroyed. A later layout that succeeds on the reloaded handle does not store it either (`EncoderShape.ResultOfLastCall`, `EncoderShape.NegotiationResult`).

## Model

| member | source | states |
|---|---|---|
| Mel.Normalize | app/src/main/java/com/example/ptewhisper/MelSpec.kt:100-103 | the buffer has exactly `target` samples: the first `target` of `pcm` when it is long enough, otherwise all of `pcm` followed by zeros |
| Mel.NormalizePadding | app/src/main/java/com/example/ptewhisper/MelSpec.kt:100-103 | appending a zero to a short buffer, or cutting a long one to `target`, does not change the normalised buffer |
| Mel.TruncDiv | app/src/main/java/com/example/ptewhisper/MelSpec.kt:105 | Kotlin `Int` division: the remainder `a - q * b` is smaller than `b` in size and has the sign of `a`, so the quotient rounds toward zero |
| Mel.FrameCountExact | app/src/main/java/com/example/ptewhisper/MelSpec.kt:105 | when a window fits, `nFrames` is at least 1, its last frame fits and the next would not: exactly the frames whose window lies in the buffer |
| Mel.FrameFits | app/src/main/java/com/example/ptewhisper/MelSpec.kt:113 | every earlier frame fits when a later one does |
| Mel.DefaultFrames | app/src/main/java/com/example/ptewhisper/MelSpec.kt:60-63 | with the defaults the buffer has 480000 samples and 2998 frames, and the parameters are runnable |
| Mel.ClampBin | app/src/main/java/com/example/ptewhisper/MelSpec.kt:79 | `coerceIn(0, nFreqs - 1)`: the edge is below 257, kept when already in range, 0 below, 256 above |
| Mel.AtLeastOne | app/src/main/java/com/example/ptewhisper/MelSpec.kt:85 | `coerceAtLeast(1)`: the argument when it is at least 1, otherwise 1, so no ramp divides by zero |
| Mel.WeightBounds | app/src/main/java/com/example/ptewhisper/MelSpec.kt:84-89 | every filter weight lies in [0, 1] |
| Mel.WeightSupport | app/src/main/java/com/example/ptewhisper/MelSpec.kt:81-91 | a non-zero weight lies strictly inside the rising ramp or on the falling ramp, hence in `[left, right)` for ordered edges |
| Mel.AdjacentFiltersSum | app/src/main/java/com/example/ptewhisper/MelSpec.kt:83-89 | on `[center, right)` the falling ramp of one filter and the rising ramp of the next add up to one |
| Mel.MelFilterbank | app/src/main/java/com/example/ptewhisper/MelSpec.kt:73-92 | `nMels` rows (two fewer than the edges) of `nFreqs` weights each |
| Mel.FilterbankShape | app/src/main/java/com/example/ptewhisper/MelSpec.kt:79-91 | each weight of the bank lies in [0, 1], and is zero outside the clamped `[bins[m], bins[m+2])` when the edges are ordered |
| Mel.FilterbankCrossFade | app/src/main/java/com/example/ptewhisper/MelSpec.kt:81-91 | on the clamped `[bins[m+1], bins[m+2])`, filters `m` and `m + 1` sum to one |
| Mel.BuildFilterRow | app/src/main/java/com/example/ptewhisper/MelSpec.kt:82-90 | the zeroed row after the rising and falling loops is the triangle with those edges |
| Mel.BuildMelFilter | app/src/main/java/com/example/ptewhisper/MelSpec.kt:81-91 | the rows built one filter at a time form the filterbank of the edges |
| Mel.Frame | app/src/main/java/com/example/ptewhisper/MelSpec.kt:115-116 | the 512-sample window buffer holds the windowed samples from `offset` on and zeros from `winLength` to 512 |
| Mel.FillWindow | app/src/main/java/com/example/ptewhisper/MelSpec.kt:115-116 | after the two loops `winPad` is exactly that frame: zero from `winLength` to 512 |
| Mel.Power | app/src/main/java/com/example/ptewhisper/MelSpec.kt:122-125 | only the bins `0 .. nFft/2` are kept: 257 values |
| Mel.StorePower | app/src/main/java/com/example/ptewhisper/MelSpec.kt:121-125 | only row `frame` of the spectrum changes, and it receives the 257 squared magnitudes |
| Mel.SpecRow | app/src/main/java/com/example/ptewhisper/MelSpec.kt:113-128 | a spectrum row has 257 values |
| Mel.SpecRows | app/src/main/java/com/example/ptewhisper/MelSpec.kt:105-106 | the spectrum has exactly `nFrames` rows, row `f` being the power spectrum of the frame at `f * hopLength` (zeros when it does not fit) |
| Mel.LaterFramesEmpty | app/src/main/java/com/example/ptewhisper/MelSpec.kt:113 | once a frame does not fit, no later frame fits, so the rows the loop leaves untouched are the allocated zeros |
| Mel.Spectrogram | app/src/main/java/com/example/ptewhisper/MelSpec.kt:105-128 | the framing loop allocates `nFrames x 257` and leaves row `f` equal to the power spectrum of the FFT of frame `f` |
| Mel.BandEnergy | app/src/main/java/com/example/ptewhisper/MelSpec.kt:139-141 | skipping zero weights leaves the band energy equal to the full dot product of filter and row |
| Mel.Matrix | app/src/main/java/com/example/ptewhisper/MelSpec.kt:131-132 | the output has `nMels * 3000` cells |
| Mel.CellIndex | app/src/main/java/com/example/ptewhisper/MelSpec.kt:143 | every index of the flat output is a cell `(q / 3000, q % 3000)` inside the matrix |
| Mel.MatrixLayout | app/src/main/java/com/example/ptewhisper/MelSpec.kt:143 | cell `(m, t)` is stored at index `m * 3000 + t`, which is in range |
| Mel.LogMelOf | app/src/main/java/com/example/ptewhisper/MelSpec.kt:131-132 | the output of `logMel` has `nMels * 3000` values |
| Mel.LogMelCells | app/src/main/java/com/example/ptewhisper/MelSpec.kt:131-145 | cell `(m, t)` is `ln(energy of frame t under filter m + 1e-10)` for a frame the loop produced and -11 for every later column |
| Mel.WriteStep | app/src/main/java/com/example/ptewhisper/MelSpec.kt:143 | writing cell `(m, t)` extends the written part of column `t` by one band and touches nothing else |
| Mel.ColumnDone | app/src/main/java/com/example/ptewhisper/MelSpec.kt:138-144 | a column written for all bands counts as done |
| Mel.ProjectFrame | app/src/main/java/com/example/ptewhisper/MelSpec.kt:137-144 | the band loop for column `t` writes exactly that column's log energies |
| Mel.FloorCells | app/src/main/java/com/example/ptewhisper/MelSpec.kt:132-136 | every cell of a column at or past `min(3000, nFrames)` holds -11 |
| Mel.Project | app/src/main/java/com/example/ptewhisper/MelSpec.kt:130-146 | the -11-filled output after the projection loops is the log-mel matrix of the spectrum rows |
| Mel.MelSpec.constructor | app/src/main/java/com/example/ptewhisper/MelSpec.kt:59-92 | the instance keeps its parameters and window, and its filter bank is the one built from the bin edges |
| Mel.MelSpec.LogMel | app/src/main/java/com/example/ptewhisper/MelSpec.kt:98-147 | `logMel` returns the log-mel matrix of the normalised 30 s buffer |
| Fft.SizeFacts | app/src/main/java/com/example/ptewhisper/MelSpec.kt:7 | 512 is `2^9`, and `N shr 1` is `2^8` |
| Fft.RevBound | app/src/main/java/com/example/ptewhisper/MelSpec.kt:21-30 | a reversed 9-bit index is below 512 |
| Fft.RevTop | app/src/main/java/com/example/ptewhisper/MelSpec.kt:21-30 | reversing moves the top bit to the bottom |
| Fft.RevRev | app/src/main/java/com/example/ptewhisper/MelSpec.kt:21-30 | reversing twice gives the index back |
| Fft.RevStep | app/src/main/java/com/example/ptewhisper/MelSpec.kt:23-25 | the "clear leading ones, set first zero" update of `j` turns `rev(i)` into `rev(i + 1)` |
| Fft.RevStepEven | app/src/main/java/com/example/ptewhisper/MelSpec.kt:23-25 | from an even `i`, `rev(i + 1)` is `rev(i)` plus the top bit |
| Fft.RevStepOdd | app/src/main/java/com/example/ptewhisper/MelSpec.kt:23-25 | from an odd `i`, the update clears the top bit and carries into the rest |
| Fft.RevBoundAll | app/src/main/java/com/example/ptewhisper/MelSpec.kt:26 | every reversed 9-bit index is below 512, so each `j` the loop swaps with indexes the buffer |
| Fft.BitReversed | app/src/main/java/com/example/ptewhisper/MelSpec.kt:20-30 | the permuted buffer has 512 values |
| Fft.BitReversedInvolution | app/src/main/java/com/example/ptewhisper/MelSpec.kt:20-30 | the bit-reversal permutation undoes itself |
| Fft.BitReversedZeros | app/src/main/java/com/example/ptewhisper/MelSpec.kt:19-30 | permuting the zeroed imaginary buffer leaves it zero |
| Fft.ReversedIncrement | app/src/main/java/com/example/ptewhisper/MelSpec.kt:23-25 | the `while (j >= bit)` loop and `j += bit` compute the reversed-order increment |
| Fft.HalveBit | app/src/main/java/com/example/ptewhisper/MelSpec.kt:24 | one pass of that loop keeps the increment it computes |
| Fft.ReversedSuccessor | app/src/main/java/com/example/ptewhisper/MelSpec.kt:22-25 | at step `i` the loop's update starts from `rev(i - 1)` and ends at `rev(i)` |
| Fft.NextReversed | app/src/main/java/com/example/ptewhisper/MelSpec.kt:22-25 | the update of `j` at step `i` yields `rev(i)`, an in-range index |
| Fft.RevN | app/src/main/java/com/example/ptewhisper/MelSpec.kt:26 | `rev` is a permutation of `0 .. 511` |
| Fft.Placed | app/src/main/java/com/example/ptewhisper/MelSpec.kt:22-30 | the origin of each position during the swap loop is a position of the buffer |
| Fft.PlacedStep | app/src/main/java/com/example/ptewhisper/MelSpec.kt:26-29 | swapping `i` and `rev(i)` when `i < rev(i)` moves the placement from step `i` to step `i + 1` |
| Fft.Swap | app/src/main/java/com/example/ptewhisper/MelSpec.kt:27-28 | exchanging two cells keeps the multiset and changes only those two |
| Fft.FirstPlacement | app/src/main/java/com/example/ptewhisper/MelSpec.kt:21-22 | index 0 is its own reverse, so the buffer is correctly placed before step 1 |
| Fft.SwapStep | app/src/main/java/com/example/ptewhisper/MelSpec.kt:26-29 | the conditional swap at step `i` extends the placed prefix to `i + 1` |
| Fft.SwapPair | app/src/main/java/com/example/ptewhisper/MelSpec.kt:26-29 | both buffers are swapped at the same pair and stay permutations of their old contents |
| Fft.AllOnes | app/src/main/java/com/example/ptewhisper/MelSpec.kt:22 | 511 is its own reverse, so the loop can stop at `N - 2` |
| Fft.LastPlacement | app/src/main/java/com/example/ptewhisper/MelSpec.kt:22-30 | after the last step the buffer is the bit-reversal permutation of the original |
| Fft.BitReverse | app/src/main/java/com/example/ptewhisper/MelSpec.kt:20-30 | both buffers end as the bit-reversal permutation of their contents, with their multisets preserved |
| Fft.NextPassLength | app/src/main/java/com/example/ptewhisper/MelSpec.kt:32-54 | `len shl 1` is the next pass length, or past 512 exactly after the last pass |
| Fft.PassIndex | app/src/main/java/com/example/ptewhisper/MelSpec.kt:34-43 | in a pass, the partner `p + half` is below 512 and the twiddle index is below 256 |
| Fft.NextBlock | app/src/main/java/com/example/ptewhisper/MelSpec.kt:37-52 | each block of `len` starting at a multiple of `len` fits in the buffer |
| Fft.TwiddleIndex | app/src/main/java/com/example/ptewhisper/MelSpec.kt:40-41 | `k = j2 * step` stays below `N/2` |
| Fft.Pass | app/src/main/java/com/example/ptewhisper/MelSpec.kt:34-53 | one pass produces two 512-value buffers |
| Fft.Passes | app/src/main/java/com/example/ptewhisper/MelSpec.kt:32-55 | the passes of lengths 2 to 512 produce two 512-value buffers |
| Fft.Zeros | app/src/main/java/com/example/ptewhisper/MelSpec.kt:19 | `outIm[i] = 0.0` for every `i` |
| Fft.Fft | app/src/main/java/com/example/ptewhisper/MelSpec.kt:17-56 | the transform of a 512-sample frame gives 512 real and 512 imaginary values |
| Fft.ButterflyAt | app/src/main/java/com/example/ptewhisper/MelSpec.kt:39-51 | the butterfly at `(i + j2, i + j2 + half)` produces the pass's values at both positions from the values before the pass |
| Fft.Butterfly | app/src/main/java/com/example/ptewhisper/MelSpec.kt:42-49 | `u + t` at the top and `u - t` at the bottom; no other cell changes |
| Fft.BlockStep | app/src/main/java/com/example/ptewhisper/MelSpec.kt:42-50 | one butterfly extends the finished part of its block by one pair |
| Fft.ButterflyStep | app/src/main/java/com/example/ptewhisper/MelSpec.kt:40-50 | iteration `j2` of the inner loop finishes pair `j2` of the block |
| Fft.Butterflies | app/src/main/java/com/example/ptewhisper/MelSpec.kt:38-51 | the `j2` loop finishes every pair of its block |
| Fft.BlockFinished | app/src/main/java/com/example/ptewhisper/MelSpec.kt:36-53 | a finished block extends the finished part of the pass to the next block |
| Fft.PassComplete | app/src/main/java/com/example/ptewhisper/MelSpec.kt:37-53 | when every block is finished the buffers hold the pass |
| Fft.ButterflyPass | app/src/main/java/com/example/ptewhisper/MelSpec.kt:34-53 | the block loop of one `len` turns the buffers into that pass's result |
| Fft.FftReal | app/src/main/java/com/example/ptewhisper/MelSpec.kt:17-56 | `fftReal` leaves the transform of the 512 samples from `offset`: copy with zeroed imaginary part, bit reversal, the passes |
| Tokenizer.OptInt | app/src/main/java/com/example/ptewhisper/SimpleTokenizer.kt:32-35 | the configured value when the key is present, the default otherwise |
| Tokenizer.Table | app/src/main/java/com/example/ptewhisper/SimpleTokenizer.kt:19-20 | the table has exactly `size` slots |
| Tokenizer.TableStores | app/src/main/java/com/example/ptewhisper/SimpleTokenizer.kt:22-26 | an entry with an id in range that no later entry reuses is stored at that id |
| Tokenizer.TableUnassigned | app/src/main/java/com/example/ptewhisper/SimpleTokenizer.kt:20-26 | a slot no entry names stays `""` |
| Tokenizer.BuildTable | app/src/main/java/com/example/ptewhisper/SimpleTokenizer.kt:19-27 | the loop over the vocabulary builds the table of the entries, with as many slots as entries, dropping out-of-range ids |
| Tokenizer.Lookup | app/src/main/java/com/example/ptewhisper/SimpleTokenizer.kt:45 | the stored string for an id in range, `""` for any other |
| Tokenizer.SpecialForm | app/src/main/java/com/example/ptewhisper/SimpleTokenizer.kt:43-47 | an out-of-range id is never special; an id in range is special exactly when its string opens with the less-than and bar pair and closes with the bar and greater-than pair, the three-character marker included |
| Tokenizer.SimpleTokenizer.IsSpecial | app/src/main/java/com/example/ptewhisper/SimpleTokenizer.kt:43-47 | an id outside the table is not special; an id in range is special exactly when its string opens with the less-than and bar pair and closes with the bar and greater-than pair |
| Tokenizer.Clean | app/src/main/java/com/example/ptewhisper/SimpleTokenizer.kt:56-59 | `Ġ` and then `▁` become spaces, and then every `ÃĤ` becomes `Ĥ`; without an `Ã` only the two substitutions happen; no `Ġ` or `▁` survives |
| Tokenizer.RawStep | app/src/main/java/com/example/ptewhisper/SimpleTokenizer.kt:51-60 | a non-EOS id appends its piece before the output of the rest |
| Tokenizer.RawStopsAtEos | app/src/main/java/com/example/ptewhisper/SimpleTokenizer.kt:52 | ids appended after an EOS do not change the builder's contents |
| Tokenizer.RawConcat | app/src/main/java/com/example/ptewhisper/SimpleTokenizer.kt:51-61 | before any EOS the output of a concatenation is the concatenation of the outputs |
| Tokenizer.RawSingle | app/src/main/java/com/example/ptewhisper/SimpleTokenizer.kt:52-60 | an EOS, special or out-of-range id contributes nothing; any other id contributes its cleaned string |
| Tokenizer.DroppedIds | app/src/main/java/com/example/ptewhisper/SimpleTokenizer.kt:53-54 | a special or out-of-range id anywhere can be deleted without changing the output |
| Tokenizer.DecodeIgnoresAfterEos | app/src/main/java/com/example/ptewhisper/SimpleTokenizer.kt:49-62 | the decoded text ignores everything after the first EOS |
| Tokenizer.DecodeShape | app/src/main/java/com/example/ptewhisper/SimpleTokenizer.kt:62 | the decoded text has no two consecutive spaces and no whitespace at either end |
| Tokenizer.AppendStep | app/src/main/java/com/example/ptewhisper/SimpleTokenizer.kt:53-60 | appending a non-EOS id's piece keeps the loop invariant for the next id |
| Tokenizer.AppendTokens | app/src/main/java/com/example/ptewhisper/SimpleTokenizer.kt:50-61 | the `break`/`continue` loop builds the pieces of the ids before the first EOS |
| Tokenizer.SimpleTokenizer.constructor | app/src/main/java/com/example/ptewhisper/SimpleTokenizer.kt:13-36 | the table is built from the vocabulary and each special id is the configured value or its default |
| Tokenizer.SimpleTokenizer.PromptIdsAuto | app/src/main/java/com/example/ptewhisper/SimpleTokenizer.kt:38-41 | exactly `[sotId, transcribeId, noTsId]` in that order |
| Tokenizer.SimpleTokenizer.Decode | app/src/main/java/com/example/ptewhisper/SimpleTokenizer.kt:49-63 | `decode` returns the collapsed and trimmed pieces of the ids before the first EOS |
| Tokenizer.DefaultPrompt | app/src/main/java/com/example/ptewhisper/SimpleTokenizer.kt:33-40 | without those keys in the configuration the prompt is `[50258, 50359, 50363]` |
| Text.ContainsAt | app/src/main/java/com/example/ptewhisper/MainActivity.kt:331 | `contains` finds an occurrence at any position |
| Text.ReplaceAllAvoids | app/src/main/java/com/example/ptewhisper/SimpleTokenizer.kt:57-59 | `replace` introduces no character that is in neither the string nor the replacement |
| Text.ReplaceAllAbsent | app/src/main/java/com/example/ptewhisper/SimpleTokenizer.kt:59 | `replace` leaves a string unchanged when the first character of the pattern does not occur in it |
| Text.ReplaceCharIsSubstitute | app/src/main/java/com/example/ptewhisper/SimpleTokenizer.kt:57-58 | replacing a one-character pattern changes exactly its occurrences, one for one |
| Text.ReplaceIsOnePass | app/src/main/java/com/example/ptewhisper/SimpleTokenizer.kt:59 | a single `replace` pass can leave its pattern behind: "ÃÃĤ" becomes "ÃĤ" |
| Text.DropSpaces | app/src/main/java/com/example/ptewhisper/SimpleTokenizer.kt:62 | a suffix that does not start with a space, only spaces cut off |
| Text.Collapse | app/src/main/java/com/example/ptewhisper/SimpleTokenizer.kt:62 | the result is empty exactly when the input is, starts with the same character, and has no two consecutive spaces |
| Text.NonSpaces | app/src/main/java/com/example/ptewhisper/SimpleTokenizer.kt:62 | the characters other than spaces, none of them a space |
| Text.NonSpacesDrop | app/src/main/java/com/example/ptewhisper/SimpleTokenizer.kt:62 | leading spaces hold no other characters |
| Text.CollapseKeepsNonSpaces | app/src/main/java/com/example/ptewhisper/SimpleTokenizer.kt:62 | collapsing keeps every other character, in order |
| Text.CollapseFixed | app/src/main/java/com/example/ptewhisper/SimpleTokenizer.kt:62 | a string without double spaces is left unchanged, so collapsing is idempotent |
| Text.DropSpacesAppend | app/src/main/java/com/example/ptewhisper/SimpleTokenizer.kt:62 | cutting the leading spaces of `a + x` cuts those of `a`, or all of `a` and those of `x` when `a` is only spaces |
| Text.CollapseExtraSpace | app/src/main/java/com/example/ptewhisper/SimpleTokenizer.kt:62 | a space before a text that already starts with a space does not change the collapsed result |
| Text.CollapseMerge | app/src/main/java/com/example/ptewhisper/SimpleTokenizer.kt:62 | `Regex(" +")` matches the whole run: two spaces between two texts collapse to the same result as one |
| Text.TrimStart | app/src/main/java/com/example/ptewhisper/SimpleTokenizer.kt:62 | a suffix not starting with whitespace, only whitespace cut off |
| Text.TrimEnd | app/src/main/java/com/example/ptewhisper/SimpleTokenizer.kt:62 | a prefix not ending with whitespace, only whitespace cut off |
| Text.Trim | app/src/main/java/com/example/ptewhisper/SimpleTokenizer.kt:62 | the result neither starts nor ends with whitespace |
| Text.NoDoubleSpaceSlice | app/src/main/java/com/example/ptewhisper/SimpleTokenizer.kt:62 | a slice of a string without double spaces has none |
| Text.TrimKeepsNoDoubleSpace | app/src/main/java/com/example/ptewhisper/SimpleTokenizer.kt:62 | trimming after collapsing creates no double space |
| Engine.MessageOr | app/src/main/java/com/example/ptewhisper/ExecuTorchSafe.kt:69 | the exception's message, or the fallback when it has none |
| Engine.Describe | app/src/main/java/com/example/ptewhisper/MainActivity.kt:253 | the error text is the exception's class name, then ": ", then its message, or "null" when it has none |
| Engine.ValidateMelShape | app/src/main/java/com/example/ptewhisper/ExecuTorchSafe.kt:13-15 | a shape is accepted exactly when it is `[1, 80, n]` with `n` at least 1 |
| Engine.ToTensor | app/src/main/java/com/example/ptewhisper/ExecuTorchSafe.kt:77 | converting succeeds exactly on a tensor value and gives that tensor |
| Engine.ForwardBlocking | app/src/main/java/com/example/ptewhisper/ExecuTorchSafe.kt:54-71 | NOT_LOADED iff no module; BAD_INPUT iff a module and no inputs; EMPTY_OUTPUT iff forward returned nothing; RUNTIME iff forward threw; Success carries exactly the non-empty outputs |
| Engine.RuntimeMessage | app/src/main/java/com/example/ptewhisper/ExecuTorchSafe.kt:67-70 | a throwing forward gives RUNTIME with its message, or "Unknown" |
| Engine.ForwardNotConsulted | app/src/main/java/com/example/ptewhisper/ExecuTorchSafe.kt:59-64 | without a module or inputs the result does not depend on the runtime; `loadMethod` and the method name never affect it |
| Engine.FirstTensorOrNull | app/src/main/java/com/example/ptewhisper/ExecuTorchSafe.kt:76-78 | null for an empty array or a first value that is not a tensor; otherwise that first tensor |
| EncoderShape.TimeMajor | app/src/main/java/com/example/ptewhisper/MainActivity.kt:225 | the time-major layout has `T * 80` values |
| EncoderShape.TimeMajorAt | app/src/main/java/com/example/ptewhisper/MainActivity.kt:224-233 | `out[t*80 + m] = in[m*3000 + t]` for `t < min(T, 3000)`, 0 for the other columns |
| EncoderShape.TimeStep | app/src/main/java/com/example/ptewhisper/MainActivity.kt:230 | storing band `m` of column `t` extends the filled prefix by one cell |
| EncoderShape.TimeTail | app/src/main/java/com/example/ptewhisper/MainActivity.kt:225-228 | the zero-initialised cells past column 3000 already hold the layout |
| EncoderShape.Mel80xTToTx80 | app/src/main/java/com/example/ptewhisper/MainActivity.kt:224-233 | the nested loops produce the time-major layout |
| EncoderShape.BandMajor | app/src/main/java/com/example/ptewhisper/MainActivity.kt:236 | the cropped layout has `80 * T` values |
| EncoderShape.BandMajorAt | app/src/main/java/com/example/ptewhisper/MainActivity.kt:235-245 | `out[m*T + t] = in[m*3000 + t]` for `t < min(T, 3000)`, 0 for the other columns |
| EncoderShape.BandStep | app/src/main/java/com/example/ptewhisper/MainActivity.kt:239-243 | copying `min(T, 3000)` values of source row `m` to `m*T` fills row `m` |
| EncoderShape.ArrayCopy | app/src/main/java/com/example/ptewhisper/MainActivity.kt:242 | `System.arraycopy` replaces exactly the `length` cells from `dstPos` with the source range |
| EncoderShape.CopyOne | app/src/main/java/com/example/ptewhisper/MainActivity.kt:242 | one element copy extends the copied range by one |
| EncoderShape.Put | app/src/main/java/com/example/ptewhisper/MainActivity.kt:242 | one cell is written and no other changes |
| EncoderShape.SpliceNone | app/src/main/java/com/example/ptewhisper/MainActivity.kt:242 | before the copy the destination is unchanged |
| EncoderShape.SpliceStep | app/src/main/java/com/example/ptewhisper/MainActivity.kt:242 | writing element `k` of the range gives the splice of `k + 1` elements |
| EncoderShape.CopyRow | app/src/main/java/com/example/ptewhisper/MainActivity.kt:239-243 | pass `m` of the row loop fills row `m` of the cropped layout |
| EncoderShape.Mel80x3000CropTo80xT | app/src/main/java/com/example/ptewhisper/MainActivity.kt:235-245 | the row copies produce the cropped band-major layout |
| EncoderShape.LayoutsTranspose | app/src/main/java/com/example/ptewhisper/MainActivity.kt:224-245 | the two layouts are transposes of each other |
| EncoderShape.CropFullIsIdentity | app/src/main/java/com/example/ptewhisper/MainActivity.kt:235-245 | cropping to 3000 columns returns the matrix unchanged, so passing it directly is the same |
| EncoderShape.ShapeOf | app/src/main/java/com/example/ptewhisper/MainActivity.kt:264-320 | a batched layout has rank 3, any other rank 2 |
| EncoderShape.DataOf | app/src/main/java/com/example/ptewhisper/MainActivity.kt:264-320 | each layout's data has `80 * T` values |
| EncoderShape.Inputs | app/src/main/java/com/example/ptewhisper/MainActivity.kt:264-320 | one or two inputs, the first the float tensor of the layout's data and shape |
| EncoderShape.CandidateShapes | app/src/main/java/com/example/ptewhisper/MainActivity.kt:264-320 | the data of each layout has as many values as its shape holds |
| EncoderShape.ValidShapes | app/src/main/java/com/example/ptewhisper/ExecuTorchSafe.kt:13-15 | of the twelve layouts exactly `1x80x3000` and `1x80x256` pass `validateMelShape` |
| EncoderShape.BuildInputs | app/src/main/java/com/example/ptewhisper/MainActivity.kt:264-320 | `spec.inputs()` built with the layout helpers gives the layout's inputs |
| EncoderShape.TryEncForward | app/src/main/java/com/example/ptewhisper/MainActivity.kt:247-255 | a tensor exactly when forward returned and its first output is a tensor (as `firstTensorOrNull` would find it); "empty output" for no outputs; otherwise the error text of the exception that forward threw or that the conversion raised |
| EncoderShape.Classify | app/src/main/java/com/example/ptewhisper/MainActivity.kt:325-331 | a tensor is a success; a failure asks for a reload exactly when its text contains the mid-execution error |
| EncoderShape.Logged | app/src/main/java/com/example/ptewhisper/MainActivity.kt:322-344 | earlier calls and destroys are prepended; result, adopted handle and loads are unchanged |
| EncoderShape.RoundShape | app/src/main/java/com/example/ptewhisper/MainActivity.kt:324-342 | a pass calls its layout once, and a second time only after a mid-execution failure and a successful load, on the loaded handle; it returns a tensor exactly when its last call produced one |
| EncoderShape.NegotiateStep | app/src/main/java/com/example/ptewhisper/MainActivity.kt:322-344 | the search is one pass followed by the search from the next layout, unless the pass returned |
| EncoderShape.AttemptOnLayout | app/src/main/java/com/example/ptewhisper/MainActivity.kt:324 | the attempt on layout `i` is `tryEncForward` on that layout's inputs |
| EncoderShape.NegotiationStart | app/src/main/java/com/example/ptewhisper/MainActivity.kt:322-323 | without a handle nothing is called, destroyed or returned; with one the first call is the current layout on it |
| EncoderShape.NegotiationOrder | app/src/main/java/com/example/ptewhisper/MainActivity.kt:322-344 | the layouts are called in order; a layout is repeated only right after a mid-execution failure, on a reloaded handle, and never a third time |
| EncoderShape.NegotiationNoSkip | app/src/main/java/com/example/ptewhisper/MainActivity.kt:322-344 | the first call is on the layout the search starts from, and each call is on the layout of the call before or the next one: no layout is skipped |
| EncoderShape.NegotiationExhausts | app/src/main/java/com/example/ptewhisper/MainActivity.kt:322-345 | with a handle and a layout left, a call is made, and a search that returns null made its last call on the last layout or made a reload that failed |
| EncoderShape.NegotiationTriesAll | app/src/main/java/com/example/ptewhisper/MainActivity.kt:322-345 | when every reload succeeds, a search that returns null made its last call on the last layout, so with `NegotiationNoSkip` it tried every layout |
| EncoderShape.OrderStep | app/src/main/java/com/example/ptewhisper/MainActivity.kt:324-341 | one pass's calls placed before the later calls keep the order and justify their repeat |
| EncoderShape.PairCons | app/src/main/java/com/example/ptewhisper/MainActivity.kt:334 | the two calls of a retried pass come first and second |
| EncoderShape.OrderCons | app/src/main/java/com/example/ptewhisper/MainActivity.kt:322-324 | a call on layout `i` before calls from `i + 1` on keeps the order |
| EncoderShape.RetryCons | app/src/main/java/com/example/ptewhisper/MainActivity.kt:331-334 | the failed call before its retry keeps the order and justifies the repeat |
| EncoderShape.RangeCons | app/src/main/java/com/example/ptewhisper/MainActivity.kt:322 | the calls stay on layouts from `i` on |
| EncoderShape.AscendingCons | app/src/main/java/com/example/ptewhisper/MainActivity.kt:322 | the calls stay in layout order |
| EncoderShape.JustifiedCons | app/src/main/java/com/example/ptewhisper/MainActivity.kt:322-324 | a call on a new layout adds no unjustified repeat |
| EncoderShape.JustifiedRetry | app/src/main/java/com/example/ptewhisper/MainActivity.kt:331-334 | the retry is justified by the mid-execution failure before it |
| EncoderShape.JustifiedShift | app/src/main/java/com/example/ptewhisper/MainActivity.kt:322-344 | a repeat that was justified stays justified when a call is put in front |
| EncoderShape.NegotiationResult | app/src/main/java/com/example/ptewhisper/MainActivity.kt:325-345 | every call but the last failed; the search returns the last call's tensor when it produced one and null otherwise; `whisperEncoder` is replaced by the last call's handle exactly when that call returned a tensor as the retry of its layout |
| EncoderShape.ResultNone | app/src/main/java/com/example/ptewhisper/MainActivity.kt:323 | with no handle, or past the last layout, the search ends with no call and returns null, which satisfies the result property |
| EncoderShape.ResultLater | app/src/main/java/com/example/ptewhisper/MainActivity.kt:339-344 | the result property of the search from the next layout carries over to a pass that returns nothing |
| EncoderShape.ResultNow | app/src/main/java/com/example/ptewhisper/MainActivity.kt:325-338 | a pass that returns a tensor ends the search with that tensor, which satisfies the result property |
| EncoderShape.ResultFinal | app/src/main/java/com/example/ptewhisper/MainActivity.kt:325-338 | the returning pass's last call produced the tensor, and the handle is stored only after a retry |
| EncoderShape.ResultStep | app/src/main/java/com/example/ptewhisper/MainActivity.kt:328-343 | a pass whose calls all failed, placed before the rest of the search, keeps the rest's result property |
| EncoderShape.ResultCons | app/src/main/java/com/example/ptewhisper/MainActivity.kt:328-343 | failed calls on an earlier layout, placed before a search that satisfies the result property, keep it: the last call and whether it was a retry do not change |
| Greedy.DecoderOutputs | app/src/main/java/com/example/ptewhisper/MainActivity.kt:181-192 | the outputs of `(ids, encoder output)`; only when that call throws, those of the swapped call; null when both throw |
| Greedy.ArgMaxPrefix | app/src/main/java/com/example/ptewhisper/MainActivity.kt:200-205 | the argmax is one of the positions scanned |
| Greedy.ArgMaxPrefixIsFirstMax | app/src/main/java/com/example/ptewhisper/MainActivity.kt:200-205 | the strict `>` scan ends on the first position of a largest value |
| Greedy.ArgMaxCharacterised | app/src/main/java/com/example/ptewhisper/MainActivity.kt:200-205 | the argmax is the first largest value of the row, and no other position is |
| Greedy.ArgMax | app/src/main/java/com/example/ptewhisper/MainActivity.kt:200-205 | the `bestId` scan computes the argmax of the row from `start`, the first largest value (`Greedy.ArgMaxCharacterised`), and 0 when the vocabulary is empty |
| Greedy.StepPicksMax | app/src/main/java/com/example/ptewhisper/MainActivity.kt:194-205 | a step that yields an id read float logits; the id is 0 for an empty vocabulary, otherwise the first largest value of the row at `max(shape[1] - 1, 0) * vocab` of a rank-3 tensor, or at 0 for any other rank, which lies inside the data |
| Greedy.DecodeOnce | app/src/main/java/com/example/ptewhisper/MainActivity.kt:179-205 | one step: null when no outputs or no first tensor, an exception on an empty shape, int data or a row past the end, otherwise the argmax |
| Greedy.NonSpecialFilters | app/src/main/java/com/example/ptewhisper/MainActivity.kt:208-213 | the ids fed back are exactly the generated ids that are not special |
| Greedy.GreedyMatchesRef | app/src/main/java/com/example/ptewhisper/MainActivity.kt:176-214 | the loop that grows `tokens` id by id always feeds the decoder the prompt followed by the non-special generated ids, in order |
| Greedy.RefStop | app/src/main/java/com/example/ptewhisper/MainActivity.kt:181-194 | a null or an exception ends both forms of the loop the same way |
| Greedy.RefStep | app/src/main/java/com/example/ptewhisper/MainActivity.kt:207-213 | after one id both loops continue from the same state: a special id is recorded but not fed back |
| Greedy.GreedyLength | app/src/main/java/com/example/ptewhisper/MainActivity.kt:178-207 | a decoding that finishes records exactly one id per step after its starting ids |
| Greedy.GenerateStep | app/src/main/java/com/example/ptewhisper/MainActivity.kt:179-213 | one pass of `repeat`: the step's id is recorded and one step is used; null or an exception ends the decoding |
| Greedy.Generate | app/src/main/java/com/example/ptewhisper/MainActivity.kt:165-214 | the loop gives the greedy decoding from the tokenizer's prompt with 224 steps |
| Activity.TranscriptShape | app/src/main/java/com/example/ptewhisper/MainActivity.kt:165-216 | a transcript decodes exactly 224 generated ids, has no double spaces and no whitespace at either end |
| Activity.LoggedNothing | app/src/main/java/com/example/ptewhisper/MainActivity.kt:322 | nothing is logged before the loop |
| Activity.LoggedTwice | app/src/main/java/com/example/ptewhisper/MainActivity.kt:322-344 | logging two passes one after the other is logging their calls and destroys together |
| Activity.TryLayout | app/src/main/java/com/example/ptewhisper/MainActivity.kt:324-342 | one pass of the loop on a layout, with its destroy, reload and retry |
| Activity.LogFinished | app/src/main/java/com/example/ptewhisper/MainActivity.kt:325-338 | a pass that returns a tensor ends the search with what is logged so far |
| Activity.LogAdvance | app/src/main/java/com/example/ptewhisper/MainActivity.kt:328-343 | a pass that returns nothing moves its calls and destroys to the log, keeping the invariant |
| Activity.LogEmpty | app/src/main/java/com/example/ptewhisper/MainActivity.kt:322-345 | past the last layout or without a handle the search returns null after what is logged |
| Activity.Advance | app/src/main/java/com/example/ptewhisper/MainActivity.kt:322-344 | one pass either ends the search with its result or keeps the loop invariant on the next layout |
| Activity.Negotiate | app/src/main/java/com/example/ptewhisper/MainActivity.kt:322-345 | the loop over the twelve layouts is the specified search |
| Activity.Transcriber.constructor | app/src/main/java/com/example/ptewhisper/MainActivity.kt:36-42 | the handles and components as given, with no load, destroy or call made |
| Activity.Transcriber.EncodeAuto | app/src/main/java/com/example/ptewhisper/MainActivity.kt:257-346 | returns the search's tensor; loads, destroys and calls are appended; `whisperEncoder` changes only to a successfully retried reloaded handle |
| Activity.Transcriber.TranscribeOnce | app/src/main/java/com/example/ptewhisper/MainActivity.kt:153-217 | null with nothing changed when either handle is missing; otherwise the log-mel matrix, the encoder search, and null, the decoded 224 ids, or an exception, as the search and the loop end |

## Left out

- Floating point. Doubles and floats are exact reals. `toFloat()` narrowing, rounding, NaN and infinities are not modelled. The argmax starting at negative infinity is a value below every real.
- The numerics the app only calls:
  - the Hann window values (`cos`);
  - `hzToMel`/`melToHz` (`ln`, `pow`);
  - the floor and `toInt` that give the bin edges;
  - the twiddle tables (`cos`, `sin`);
  - the natural logarithm of a band energy.

  They are parameters: `hann`, `rawBins`, `tw` and `ln`.
- Mel.MelSpec.LogMel: the FFT size is fixed at 512, as `FFT512` hard-wires it. A `MelSpec` with another `nFft` is not modelled.
- Mel.MelSpec.LogMel: requires a non-zero hop, a window of at most 512 samples and a non-negative frame count. With other parameters the app throws (division by zero, an index past `winPad`, a negative array size), and those exceptions are not modelled. The app constructs `MelSpec(16_000)`, which meets these conditions (`Mel.DefaultFrames`).
- Activity.Transcriber.TranscribeOnce: requires the default `MelSpec` parameters, which the app uses, so that the matrix has the 80 x 3000 values the encoder search expects.
- Kotlin `Int` overflow and the `Long`-to-`Int` truncation of `shape.last().toInt()` and `shape[1].toInt()` are not modelled. Integers are unbounded.
- Strings are sequences of Unicode characters. The UTF-16 code units of Kotlin strings are not modelled. The markers the tokenizer replaces are single characters in both.
- Reading and parsing `tokenizer.json` and `config.json` (`JSONObject`, `getInt`, `optInt` on non-integer values) are not modelled. The vocabulary is given as its entries in iteration order, and the configuration as a map to integers.
- ModelLoader.kt (asset copying and `Module.load`) is not part of this model. The encoder loads that `encodeAuto` performs are the sequence `load(k)`.
- AudioMic.kt, the UI, the permission flow and the coroutines that load models, record and unload are not part of this model.
- `forwardWithTimeout` is not modelled: its timeout needs coroutines. It classifies outcomes as `forwardBlocking` does.
- Engine.ForwardBlocking: the `cause` of an `Error` is not kept, and the `Log` calls are dropped.
- `encodeAuto`'s layout descriptions and all `Log` calls are dropped, since they only reach the log. A failed `destroy()` is ignored, as `runCatching` ignores it.
- Activity.Transcriber.EncodeAuto: the search runs on the local handle and `whisperEncoder` is assigned once the loop returns. The app assigns it just before returning, and nothing reads it in between, so the two orders are equivalent.
- Activity.Transcriber.EncodeAuto: the `calls` field is ghost. It records the forward calls for the specification and does not exist in the app.
