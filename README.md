# blendend core, modelled in Dafny

blendend binds the Blend2D 2D graphics engine to Erlang/Elixir through
native functions (NIFs). Most NIFs only decode their arguments and hand the
work to Blend2D. The parts modelled here are the ones the library computes
itself:

- the three-pass box blur, its packing of a strided image into a tight
  buffer, and its unpacking back into the image (`BoxBlur`, `BlurImage`);
- the path flattener: it subdivides quadratic and cubic Bézier segments
  until they are flat enough, and walks a path's command stream
  (`PathFlatten`, `PathWalk`, with real-number lemmas in `RealArith`);
- the random generator: splitmix64 seeding, the xoshiro256** step, the
  63-bit mask, the signed-difference sum, seed decoding and the batch
  count checks (`Rand`);
- the hand-written Base64 encoder of `canvas_to_png_base64` and the
  fill-rule atom table (`Canvas`);
- the pixel loops of the image NIFs: mask extraction with integer luma,
  BGRA to RGBA reordering, and the row copy before a blur (`ImageOps`);
- the effects helpers: the integer hash, the `rand01_2i` scale, the option
  parsers, the style-list filters and the watercolour mask loop (`Effects`,
  `EffectOptions`, `WatercolorMask`);
- style parsing and application, with its precedence rules (`Styles`);
- the NIF templates: list parsing, shape arity and the save/restore
  discipline around every draw (`Templates`);
- glyph-run slicing and inspection (`GlyphRuns`);
- OpenType tag packing, feature lists, glyph bounds and glyph outlines
  (`Fonts`);
- colour construction (`Colors`).

Erlang terms are a datatype (`Terms.Term`), with one decoder per `enif_get_*`
call the core uses. Blend2D objects whose fields the code updates are
classes: the drawing context's call log, the canvas fill rule, a path's
command list, the generator state, the blur scratch buffers, and the image
pixel bytes. Pixel loops work on `array<Byte>` and are proved against
functions on sequences. Results from Blend2D that the model cannot compute
are parameters of the method that would receive them: a codec's output, an
allocation's success, a draw call's result.

Two unbounded types stand in for machine types. Doubles are exact `real`s.
Integer widths are written out (`WrapU32`, `bv32`, `bv64`) in the random
generator, the hashes, the glyph-run offsets and the font tags; the blur's
C `int` arithmetic is taken as unbounded (see "## Left out").

## Model

| member | source | states |
|---|---|---|
| BoxBlur.FloorSqrt | c_src/images/blur.cpp:16-17 | the result is the integer floor of the square root: `k² <= x < (k+1)²` |
| BoxBlur.RoundHalfAway | c_src/images/blur.cpp:21-22 | `std::round`: the result is within one half of `x`, with halves rounded away from zero |
| BoxBlur.LowerBoxWidth | c_src/images/blur.cpp:16-19 | `wl` is odd and at least 1, and it is the largest odd width whose square does not exceed the ideal width squared |
| BoxBlur.BoxSizes | c_src/images/blur.cpp:13-30 | three box widths, each `wl` or `wl + 2`, each odd and at least 1, in non-decreasing order |
| BoxBlur.ClampInt | c_src/images/blur.cpp:32-38 | the result lies in `[lo, hi]`; it is `v` inside the range, `lo` below it and `hi` above it |
| BoxBlur.WindowSum | c_src/images/blur.cpp:69-92 | a window of edge-clamped samples sums to 0 when empty and to at most `255 ×` its width |
| BoxBlur.WindowSlide | c_src/images/blur.cpp:84-91 | moving the window one step adds the entering clamped sample and drops the leaving one |
| BoxBlur.WindowBetween | c_src/images/blur.cpp:69-81 | a window over samples in `[a, b]` sums to between `a` and `b` times its width |
| BoxBlur.BoxAverageBetween | c_src/images/blur.cpp:80-81 | the rounded box average `(sum + dia/2) / dia` lies between the line's smallest and largest sample, so it fits a byte |
| BoxBlur.RoundedMeanBetween | c_src/images/blur.cpp:80-81 | the rounded mean of `dia` samples in `[a, b]` lies in `[a, b]` |
| BoxBlur.IdxDecode | c_src/images/blur.cpp:62-127 | the offset of channel `c` of pixel `(x, y)` decodes back to `y`, `x` and `c`, so distinct channels never share a byte |
| BoxBlur.IdxEncode | c_src/images/blur.cpp:62-127 | every byte of a tight buffer is one channel of one pixel |
| BoxBlur.PassSamples | c_src/images/blur.cpp:62-127 | each byte of a pass is the rounded mean of its own channel's clamped window along its own line |
| BoxBlur.PassUnique | c_src/images/blur.cpp:62-127 | any buffer that holds the pass's sample at every byte is the pass |
| BoxBlur.PassBetween | c_src/images/blur.cpp:62-127 | a pass keeps every byte inside any bounds `[a, b]` that hold all of its input |
| BoxBlur.PrimeSums | c_src/images/blur.cpp:71-76 | the priming loop leaves one window sum per channel over positions `[-r, r]`, clamped to the line |
| BoxBlur.SlideSums | c_src/images/blur.cpp:84-91 | the sliding step moves every channel's window sum from position `at` to `at + 1` |
| BoxBlur.LinesSlide | c_src/images/blur.cpp:84-91 | adding the entering pixel and removing the leaving one keeps every channel's sum centred one step on |
| BoxBlur.PassPixel | c_src/images/blur.cpp:80-81 | at pixel `at`, the rounded mean of each channel's window sum is the pass's byte for that channel |
| BoxBlur.StepPixel | c_src/images/blur.cpp:78-92 | one pixel iteration writes exactly that pixel's bytes of the pass and slides the sums on |
| BoxBlur.BoxBlurRowH | c_src/images/blur.cpp:67-93 | one row iteration writes row `y` of the horizontal pass and no other byte |
| BoxBlur.BoxBlurH | c_src/images/blur.cpp:62-94 | `box_blur_h` writes the horizontal pass `BoxH` of the tight source into `dst`; bytes past the buffer are unchanged |
| BoxBlur.BoxBlurColumnV | c_src/images/blur.cpp:99-126 | one column iteration writes column `x` of the vertical pass and no other byte |
| BoxBlur.BoxBlurV | c_src/images/blur.cpp:96-127 | `box_blur_v` writes the vertical pass `BoxV` of the tight source into `dst`; bytes past the buffer are unchanged |
| BlurImage.BlurChannels | c_src/images/blur.cpp:139-145 | PRGB32 has 4 channels and A8 has 1; any other format has none and is refused |
| BlurImage.EffExtent | c_src/images/blur.cpp:153-154 | the requested extent is used when it lies in `(0, size]`; otherwise the full extent is used |
| BlurImage.PackedAt | c_src/images/blur.cpp:170-180 | byte `j` of row `y` lands at `y * rowBytes + j` of the tight buffer |
| BlurImage.UnpackedInside | c_src/images/blur.cpp:195-204 | unpacking writes tight byte `y * rowBytes + j` to byte `j` of row `y` |
| BlurImage.UnpackedOutside | c_src/images/blur.cpp:195-204 | unpacking leaves every byte outside the leading part of each row unchanged |
| BlurImage.UnpackPacked | c_src/images/blur.cpp:170-204 | packing the rows and unpacking them straight back restores the image |
| BlurImage.PackUnpacked | c_src/images/blur.cpp:170-204 | packing an unpacked image reads the tight buffer back |
| BlurImage.PackedTight | c_src/images/blur.cpp:171-172 | with no row padding, packing is one copy of the prefix, as the single `memcpy` does |
| BlurImage.UnpackedTight | c_src/images/blur.cpp:195-196 | with no row padding, unpacking is one copy over the prefix |
| BlurImage.BlurPassesBetween | c_src/images/blur.cpp:185-190 | the three rounds keep every byte inside any bounds that hold the input |
| BlurImage.BlurPassesUniform | c_src/images/blur.cpp:185-190 | a uniform buffer is a fixed point of the three rounds |
| BlurImage.BlurRounds | c_src/images/blur.cpp:185-190 | the round loop leaves `BlurPasses` of the packed buffer in the first scratch buffer |
| BlurImage.PackRows | c_src/images/blur.cpp:170-180 | the packing copy fills the tight buffer with `Packed` of the image, by one copy or one per row |
| BlurImage.UnpackRows | c_src/images/blur.cpp:195-204 | the copy back leaves the pixel bytes equal to `Unpacked` of the image and the buffer |
| BlurImage.Grow | c_src/images/blur.cpp:161-164 | growing a buffer keeps its old bytes and zero-fills the new ones |
| BlurImage.BlurScratch.Reserve | c_src/images/blur.cpp:160-164 | both scratch buffers hold at least `n` bytes afterwards; a buffer that is already large enough is not replaced |
| BlurImage.BlurImageInPlace | c_src/images/blur.cpp:130-207 | the result code and the new pixel bytes are those of `Blur`: a non-positive sigma fails first, an empty image succeeds untouched, other formats fail, and the rest are blurred |
| BlurImage.BlurKeepsOutside | c_src/images/blur.cpp:153-204 | only the leading `eff_w * channels` bytes of the first `eff_h` rows can change; padding and the rest of the image stay as they were |
| BlurImage.BlurRegion | c_src/images/blur.cpp:170-204 | on success, the sub-rectangle read back into a tight buffer is the three-round blur of the old sub-rectangle |
| BlurImage.BlurBetween | c_src/images/blur.cpp:130-207 | every new pixel byte lies within any bounds that hold all old ones |
| BlurImage.BlurUniform | c_src/images/blur.cpp:130-207 | a uniform image comes out unchanged, whatever the sigma and sub-rectangle |
| PathFlatten.CmdFromTerm | c_src/geometries/path.cpp:30-71 | an atom of fewer than 32 bytes that names a command decodes to that command's code; any other term is refused |
| PathFlatten.CmdFromTermRoundTrip | c_src/geometries/path.cpp:30-71 | every command code has a name, and the name decodes back to it |
| PathFlatten.ParseRange | c_src/geometries/path.cpp:127-152 | a range is accepted only when `start <= end`, from a 2-tuple or else from a map with `first` and `last` |
| PathFlatten.ParseRangeEncodings | c_src/geometries/path.cpp:116-152 | both encodings of an ordered 64-bit range decode back to it, and a reversed range is refused |
| PathFlatten.QuadFlatness | c_src/geometries/path.cpp:1721-1732 | flatness is non-negative, and it is 0 when the chord has zero length |
| PathFlatten.CubicFlatness | c_src/geometries/path.cpp:1734-1751 | flatness is non-negative, and it is 0 when the chord has zero length |
| PathFlatten.QuadFlatIff | c_src/geometries/path.cpp:1721-1732 | the square-free test holds exactly when `quadFlatness(p0, p1, p2) <= tol` |
| PathFlatten.CubicFlatIff | c_src/geometries/path.cpp:1734-1751 | the square-free test holds exactly when `cubicFlatness(p0, p1, p2, p3) <= tol` |
| PathFlatten.NegativeNeverFlat | c_src/geometries/path.cpp:1756 | a negative tolerance is never met |
| PathFlatten.SplitQuadCascade | c_src/geometries/path.cpp:1761-1766 | the halves are the ones the `mix` cascade of `flattenQuadRecursive` builds |
| PathFlatten.SplitCubicCascade | c_src/geometries/path.cpp:1781-1790 | the halves are the ones the `mix` cascade of `flattenCubicRecursive` builds |
| PathFlatten.SplitQuadSameCurve | c_src/geometries/path.cpp:1761-1766 | the two halves of a split quadratic trace the two halves of the same curve |
| PathFlatten.SplitCubicSameCurve | c_src/geometries/path.cpp:1781-1790 | the two halves of a split cubic trace the two halves of the same curve |
| PathFlatten.QuadPiecesEnd | c_src/geometries/path.cpp:1753-1767 | a finished subdivision emits at least one line, and its last point is the segment's end point |
| PathFlatten.CubicPiecesEnd | c_src/geometries/path.cpp:1769-1791 | a finished subdivision emits at least one line, and its last point is the segment's end point |
| PathFlatten.NegativeToleranceNeverCompletes | c_src/geometries/path.cpp:1753-1791 | with a negative tolerance, subdivision never finishes at any depth |
| PathFlatten.QuadSplitSpread | c_src/geometries/path.cpp:1761-1766 | each split divides a quadratic's spread by 16 |
| PathFlatten.CubicSplitSpread | c_src/geometries/path.cpp:1781-1790 | each split divides a cubic's spread by at least 10 |
| PathFlatten.QuadCompletes | c_src/geometries/path.cpp:1753-1767 | a quadratic whose spread is below `tol² · 10^fuel` is flattened within `fuel` splits |
| PathFlatten.CubicCompletes | c_src/geometries/path.cpp:1769-1791 | a cubic whose spread is below `tol² · 10^fuel` is flattened within `fuel` splits |
| PathFlatten.QuadLeavesFlat | c_src/geometries/path.cpp:1756-1758 | every sub-segment a subdivision keeps passed the flatness test |
| PathFlatten.QuadPiecesChords | c_src/geometries/path.cpp:1753-1767 | the emitted polyline starts at `p0`, and each line is the chord of the matching kept sub-segment |
| PathFlatten.CubicPiecesChords | c_src/geometries/path.cpp:1769-1791 | the emitted polyline starts at `p0`, and each line is the chord of the matching kept sub-segment |
| PathFlatten.FlattenQuad | c_src/geometries/path.cpp:1753-1767 | the method appends to `dst` exactly the lines of the quadratic's subdivision |
| PathFlatten.FlattenCubic | c_src/geometries/path.cpp:1769-1791 | the method appends to `dst` exactly the lines of the cubic's subdivision |
| PathWalk.FlattenPath | c_src/geometries/path.cpp:1793-1865 | `dst` is cleared and then holds exactly the commands `FlattenFrom` gives for `src`; the result code is that walk's outcome |
| PathWalk.FlatPathFixed | c_src/geometries/path.cpp:1810-1822 | a path of moves, lines and closes is reproduced command for command, whatever the tolerance |
| PathWalk.WalkOutputFlat | c_src/geometries/path.cpp:1810-1857 | a walk that succeeds emits only `move_to`, `line_to` and `close`, never a curve |
| PathWalk.FlattenIdempotent | c_src/geometries/path.cpp:1793-1865 | flattening a flattened path changes nothing |
| PathWalk.MalformedCurveFails | c_src/geometries/path.cpp:1824-1839 | a curve command without its continuation fails the walk with `BL_ERROR_INVALID_STATE` |
| PathWalk.NegativeToleranceHangs | c_src/geometries/path.cpp:1824-1849 | with a negative tolerance, the first well-formed curve never finishes, at any fuel |
| PathWalk.WalkCompletes | c_src/geometries/path.cpp:1793-1865 | with a positive tolerance and enough fuel, the walk ends by flattening or rejecting the path |
| PathWalk.PathFlattenNif | c_src/geometries/path.cpp:1867-1897 | `path_flatten` as written: each argument check in order, then the walk; no reply when the walk does not end |
| PathWalk.PathFlattenNifChecked | c_src/geometries/path.cpp:1867-1897 | with the tolerance required to be positive, every call replies, with the flattened path or an error |
| Rand.SplitMix64 | c_src/rand/rand.cpp:20-26 | the seed advances by `0x9E3779B97F4A7C15`, and the output is the mix of the new seed |
| Rand.SplitMixFinalInverse | c_src/rand/rand.cpp:23-25 | the splitmix64 output function is a bijection on 64-bit words |
| Rand.SplitMixFinalZero | c_src/rand/rand.cpp:23-25 | only the zero word mixes to zero |
| Rand.SeedStateNonZero | c_src/rand/rand.cpp:28-33 | seeding never produces the all-zero state |
| Rand.StepInverse | c_src/rand/rand.cpp:38-45 | the xoshiro256** state update is a bijection on states |
| Rand.StepKeepsNonZero | c_src/rand/rand.cpp:38-45 | a non-zero state never steps to the all-zero state |
| Rand.ScrambleInjective | c_src/rand/rand.cpp:37 | the output scrambler `rotl(s1 * 5, 7) * 9` is injective |
| Rand.Mask63Keeps | c_src/rand/rand.cpp:50-53 | a word below 2^63 passes the mask unchanged |
| Rand.Mask63DropsTop | c_src/rand/rand.cpp:50-53 | a word with its top bit set loses exactly 2^63 |
| Rand.SumU1UDiff | c_src/rand/rand.cpp:55-59 | the result is `u1 + d` modulo 2^64, for both signs of the signed difference `d` |
| Rand.RandState.Seed | c_src/rand/rand.cpp:28-33 | the four words are four successive splitmix64 outputs from the seed |
| Rand.RandState.NextU64 | c_src/rand/rand.cpp:35-48 | the result is the scrambled old `s1`, and the state is the old state stepped once |
| Rand.RandState.NextU63 | c_src/rand/rand.cpp:50-53 | the result is below 2^63, is the masked 64-bit output, and the state steps once |
| Rand.SeedOf | c_src/rand/rand.cpp:201-208 | an unsigned 64-bit seed is taken as is, a signed one is reinterpreted as its bit pattern, and anything else fails |
| Rand.SeedOfWord | c_src/rand/rand.cpp:201-208 | every 64-bit word is accepted as the seed it denotes |
| Rand.SeedOfSigned | c_src/rand/rand.cpp:203-207 | a negative integer seeds exactly as its two's-complement word does |
| Rand.RandNew | c_src/rand/rand.cpp:195-217 | badarg when `argc != 1`, then the seed error, then the allocation error; on success the state is seeded from `SeedOf` |
| Rand.DrawsInOrder | c_src/rand/rand.cpp:253-255 | sample `i` is the sampler applied to the state left by the `i` earlier samples |
| Rand.DrawsPrefix | c_src/rand/rand.cpp:253-255 | the samples of a shorter batch are a prefix of those of a longer one |
| Rand.CountFits | c_src/rand/rand.cpp:241-243 | a 32-bit count never exceeds `SIZE_MAX / sizeof(float)` |
| Rand.RandNormalBatch | c_src/rand/rand.cpp:219-258 | the checks come in order; a zero count gives an empty binary and leaves the state alone; otherwise exactly `count` samples are written in index order |
| Canvas.IndexOfDigit | c_src/canvas/canvas.cpp:513-514 | every 6-bit index is recovered from its alphabet character, so the table has no repeats |
| Canvas.Sextet3 | c_src/canvas/canvas.cpp:523-525 | the first character of a group is the top six bits of its first byte |
| Canvas.Sextet0 | c_src/canvas/canvas.cpp:523-528 | the last sextet of a group is the low six bits of its third byte |
| Canvas.GroupsIsCeiling | c_src/canvas/canvas.cpp:517-522 | the loop runs `ceil(n / 3)` times, which is the reserved `(n + 2) / 3 * 4` characters over four |
| Canvas.EncodeBase64 | c_src/canvas/canvas.cpp:513-529 | the loop's output is `Base64(data)`, whose length is four characters per group (`GroupsIsCeiling` gives `ceil(len / 3)` groups) |
| Canvas.Base64Alphabet | c_src/canvas/canvas.cpp:513-528 | every output character is in the 64-character alphabet or is `=` |
| Canvas.Base64Padding | c_src/canvas/canvas.cpp:527-528 | padding follows section 4 of RFC 4648: none when `len % 3 == 0`, `==` when one byte is left, `=` when two are |
| Canvas.DecodeEncodeGroup | c_src/canvas/canvas.cpp:523-528 | each group decodes back to the bytes it encodes |
| Canvas.DecodeBase64 | c_src/canvas/canvas.cpp:513-529 | decoding undoes the encoding, for every byte string |
| Canvas.Base64Injective | c_src/canvas/canvas.cpp:513-529 | different byte strings never share a Base64 text |
| Canvas.ToPngBase64 | c_src/canvas/canvas.cpp:493-536 | badarg, then the canvas error, then the codec error; on success the reply is the Base64 text of the PNG bytes |
| Canvas.FillRuleOf | c_src/canvas/canvas.cpp:477-487 | `non_zero` and `nonzero` give NON_ZERO, `even_odd` and `evenodd` give EVEN_ODD, and any other name is refused |
| Canvas.SetFillRule | c_src/canvas/canvas.cpp:462-491 | each error in order; the rule changes exactly when the reply is `ok`, and then to the named rule |
| ImageOps.MaskSourceArg | c_src/images/image.cpp:46-60 | no channel argument selects red; red, green, blue and alpha select bytes 2, 1, 0 and 3; `luma` selects luma; any other atom is an error |
| ImageOps.LumaBetween | c_src/images/image.cpp:101-107 | the luma `(54r + 183g + 19b) >> 8` lies between the smallest and largest channel, so it fits a byte |
| ImageOps.LumaOfGray | c_src/images/image.cpp:106 | a gray pixel's luma is its gray level |
| ImageOps.LumaMonotone | c_src/images/image.cpp:106 | the luma grows with each channel |
| ImageOps.MaskImageAt | c_src/images/image.cpp:97-113 | mask byte `x` of row `y` is the selected channel, or the luma, of source pixel `x` of row `y` |
| ImageOps.MaskImageOutside | c_src/images/image.cpp:97-113 | row padding of the mask keeps its value |
| ImageOps.MaskImageGray | c_src/images/image.cpp:101-107 | the luma mask of a gray image is the gray image itself |
| ImageOps.ExtractMask | c_src/images/image.cpp:97-113 | after the loop the A8 bytes are `MaskImage` of the source |
| ImageOps.SwizzleTwice | c_src/images/image.cpp:196-203 | the reordering swaps bytes 0 and 2, so applying it twice is the identity |
| ImageOps.RgbaByteAt | c_src/images/image.cpp:184-204 | byte `c` of pixel `x` of row `y` of the tight output is byte `Swizzle(c)` of that source pixel; rows are `w * 4` bytes apart |
| ImageOps.RgbaAt | c_src/images/image.cpp:184-204 | read back through the reordering, the output gives every pixel byte of the image |
| ImageOps.SwapToRgba | c_src/images/image.cpp:184-205 | a new buffer of `w * 4 * h` bytes holding `Rgba` of the image |
| ImageOps.CopiedInside | c_src/images/image.cpp:247-252 | byte `j` of row `y` of the copy is byte `j` of row `y` of the source |
| ImageOps.CopiedOutside | c_src/images/image.cpp:247-252 | bytes outside the copied part of each row keep their value |
| ImageOps.CopyRows | c_src/images/image.cpp:247-252 | the destination becomes `Copied` of the source, and the source is not modified |
| ImageOps.ReadMaskFromData | c_src/images/image.cpp:34-120 | arity, binary, channel, codec, conversion, data and allocation are checked in order, and on success the mask is `MaskImage` of the source |
| ImageOps.DecodeQoi | c_src/images/image.cpp:144-212 | each error in order; on success the reply holds `w`, `h` and `Rgba` of the blitted image |
| ImageOps.BlurTarget | c_src/images/image.cpp:232 | PRGB32 and A8 are kept, and every other format becomes PRGB32 |
| ImageOps.ImageBlur | c_src/images/image.cpp:215-272 | invalid arguments, then a non-positive sigma, are refused before any allocation; the source image is never modified |
| Effects.HashU32Inverse | c_src/canvas/effects.cpp:230-237 | `hash_u32` is a bijection on 32-bit words: `UnhashU32` undoes it |
| Effects.HashU32Injective | c_src/canvas/effects.cpp:230-237 | distinct words hash to distinct words |
| Effects.Top24 | c_src/canvas/effects.cpp:248 | the integer `(h >> 8) & 0xFFFFFF` is below 2^24 |
| Effects.Rand01 | c_src/canvas/effects.cpp:246-249 | `rand01_2i` lies in `[0, 1)` |
| EffectOptions.ResolutionOf | c_src/canvas/effects.cpp:95-103 | a resolution is accepted exactly when it is a float in `(0, 1]`, and the value kept is that float |
| EffectOptions.ParseBlurOpts | c_src/canvas/effects.cpp:33-109 | with no argument, or a non-list, nothing changes and the result is true; otherwise the options are the fold of the entries, and the result is their validity |
| EffectOptions.BlurValidIff | c_src/canvas/effects.cpp:42-108 | the blur options end valid exactly when they started valid and every entry is acceptable |
| EffectOptions.ParsedBlurMode | c_src/canvas/effects.cpp:56-81 | fill and stroke are those of the last accepted mode, or the starting ones when none was accepted; `mode_set` records whether one was |
| EffectOptions.LastModeDraws | c_src/canvas/effects.cpp:59-73 | every accepted mode draws the fill, the stroke or both |
| EffectOptions.BlurResolutionRange | c_src/canvas/effects.cpp:95-103 | a resolution in `(0, 1]` stays in `(0, 1]` whatever the list holds |
| EffectOptions.WatercolorKeyIff | c_src/canvas/effects.cpp:224-228 | exactly seven keys are watercolour keys, and they are the keys the parser acts on |
| EffectOptions.ParseWatercolorOpts | c_src/canvas/effects.cpp:131-222 | shaped like the blur parser: nothing changes without a list; otherwise the fold of the entries, and their validity |
| EffectOptions.DefaultWatercolorInRange | c_src/canvas/effects.cpp:111-120 | the defaults lie in the accepted ranges |
| EffectOptions.WatercolorRangePreserved | c_src/canvas/effects.cpp:154-216 | no entry takes an option out of its range: `bleed_sigma >= 0`, granulation in `[0, 1]`, `noise_scale > 0`, octaves in `[1, 8]`, `strength >= 0`, resolution in `(0, 1]` |
| EffectOptions.WatercolorValidIff | c_src/canvas/effects.cpp:140-221 | the watercolour options end valid exactly when they started valid and every entry is acceptable |
| EffectOptions.FilterStyleList | c_src/canvas/effects.cpp:329-357 | the rebuilt list is the well-formed entries whose key the effect does not claim, in their original order |
| EffectOptions.KeptMember | c_src/canvas/effects.cpp:329-357 | an entry survives the filter exactly when it is in the list and the filter keeps it |
| EffectOptions.KeptLength | c_src/canvas/effects.cpp:329-357 | the filter never lengthens the list |
| EffectOptions.FilteredStyle | c_src/canvas/effects.cpp:329-366 | the filtered list describes the same style as the unfiltered one |
| EffectOptions.FilteredStyleOk | c_src/canvas/effects.cpp:329-366 | the filtered list parses cleanly exactly when every kept entry is acceptable |
| EffectOptions.BlurPathPlan | c_src/canvas/effects.cpp:309-373 | the argument checks of `canvas_blur_path` in order; without a mode, fill and stroke follow the style, with fill forced on when neither is set |
| EffectOptions.BlurPlanChecked | c_src/canvas/effects.cpp:309-373 | a blur that passes its checks draws the fill or the stroke, with a positive sigma, a resolution in `(0, 1]` and the style of the unfiltered list |
| EffectOptions.WatercolorPlanOf | c_src/canvas/effects.cpp:458-507 | the argument checks of `canvas_watercolor_fill_path` in order, and the options and style they give |
| EffectOptions.WatercolorPlanChecked | c_src/canvas/effects.cpp:458-507 | a watercolour fill that passes its checks has every option in range and the style of the unfiltered list |
| WatercolorMask.ScaleAtMost | c_src/canvas/effects.cpp:650-653 | `(p * mm + 127) / 255` never exceeds `p`, so the cast to a byte loses nothing |
| WatercolorMask.ScaleEnds | c_src/canvas/effects.cpp:650-653 | a level of 255 keeps the byte, and a level of 0 clears it |
| WatercolorMask.ScaleMono | c_src/canvas/effects.cpp:650-653 | scaling is monotone in the byte it scales |
| WatercolorMask.LevelRounds | c_src/canvas/effects.cpp:643-646 | the byte level is the clamped factor times 255, rounded half up, so it never leaves `[0, 255]` |
| WatercolorMask.LevelOfPlainMask | c_src/canvas/effects.cpp:632-647 | without grain and at full strength, the level of a mask byte is the byte itself |
| WatercolorMask.TintKeepsPremultiplied | c_src/canvas/effects.cpp:650-653 | a colour byte no larger than the alpha byte stays no larger after both are scaled |
| WatercolorMask.TintedInside | c_src/canvas/effects.cpp:617-655 | byte `c` of pixel `x` of row `y` is that byte masked by mask byte `x` of row `y` |
| WatercolorMask.ZeroMaskClears | c_src/canvas/effects.cpp:622-628 | where the mask byte is 0, all four patch bytes become 0 |
| WatercolorMask.FullMaskKeeps | c_src/canvas/effects.cpp:632-653 | a fully covered pixel without grain and at full strength comes through unchanged |
| WatercolorMask.MaskedStaysPremultiplied | c_src/canvas/effects.cpp:617-655 | a premultiplied pixel stays premultiplied after masking |
| WatercolorMask.ApplyMask | c_src/canvas/effects.cpp:617-655 | after the loop the patch bytes are `TintImage` of the old patch and the mask |
| Styles.FillPrecedence | c_src/styles/styles.h:81-123 | the fill paint in force is the pattern if set, else the gradient, else the colour; without any of them, no fill call is made |
| Styles.StrokeOfApplyStroke | c_src/styles/styles.h:96-110 | `apply_stroke` leaves the colour in force if set, else the gradient, else the pattern |
| Styles.StrokePrecedence | c_src/styles/styles.h:96-123 | the stroke paint in force is the colour if set, else the gradient, else the pattern |
| Styles.FillCallIff | c_src/styles/styles.h:64-123 | `apply` makes a fill call exactly when the style has a fill |
| Styles.StrokeCallIff | c_src/styles/styles.h:69-123 | `apply` touches the stroke state exactly when the style has a stroke |
| Styles.CapOf | c_src/styles/styles.h:198-220 | a known cap name selects its cap, and any other atom selects BUTT |
| Styles.JoinOf | c_src/styles/styles.h:221-240 | a known join name selects its join, and any other atom selects MITER_CLIP |
| Styles.ParseStyle | c_src/styles/styles.h:126-302 | no argument at the index accepts and changes nothing; a non-list is refused and changes nothing; a list gives `StyleAfter` of its entries, and the result is true exactly when every entry is acceptable |
| Styles.ParsedFillSlots | c_src/styles/styles.h:158-169 | each fill slot holds the last fill of its kind, and a later fill of one kind does not clear another |
| Styles.ParsedStrokeSlots | c_src/styles/styles.h:170-179 | each stroke slot holds the last stroke of its kind |
| Styles.ParsedFillPaint | c_src/styles/styles.h:81-169 | drawing with a parsed list fills with the last pattern, else the last gradient, else the last colour, whatever their order |
| Styles.ParsedStrokePaint | c_src/styles/styles.h:96-179 | drawing with a parsed list strokes with the last colour, else the last gradient, else the last pattern |
| Styles.UnknownKeysIgnored | c_src/styles/styles.h:297-299 | entries with a key `parse_style` does not know change nothing |
| Styles.CompOpUnknown | c_src/styles/styles.h:255-291 | an unknown `comp_op` name selects SRC_OVER and sets `has_comp_op` |
| Styles.CapJoinMarkStroke | c_src/styles/styles.h:198-240 | a `stroke_cap` or `stroke_join` entry always marks stroke options as given, known name or not |
| Templates.PointOf | c_src/nif/nif_templates.h:28-49 | a point decodes exactly from a 2-tuple of floats |
| Templates.RectOf | c_src/nif/nif_templates.h:52-74 | a rect decodes exactly from a 4-tuple of floats |
| Templates.BoxOf | c_src/nif/nif_templates.h:77-99 | a box decodes exactly from a 4-tuple of floats |
| Templates.ParseList | c_src/nif/nif_templates.h:28-49 | a non-list gives nothing; a list gives the decoded longest prefix of well-formed elements, which is never longer than the list |
| Templates.DecodedPrefixUnique | c_src/nif/nif_templates.h:28-49 | the longest decodable prefix is unique, so the result is determined by the list |
| Templates.DecodedPrefixWhole | c_src/nif/nif_templates.h:28-49 | a list whose every element decodes is parsed whole |
| Templates.ApplySetsOnly | c_src/styles/styles.h:112-123 | applying a style never saves, restores or draws |
| Templates.BracketBalanced | c_src/nif/nif_templates.h:150-252 | a bracketed segment saves once at its start, restores once at its end, and draws once exactly when it drew |
| Templates.ShapeBody | c_src/nif/nif_templates.h:155-247 | array shapes draw the parsed prefix; single shapes need every argument to be a float and the arity of their kind, else the numeric or arity error |
| Templates.ShapeArgs | c_src/nif/nif_templates.h:138-147 | with `argc >= 3` a trailing list is the style and is not counted as a number |
| Templates.DrawShape | c_src/nif/nif_templates.h:122-258 | badarg and the canvas error leave the context untouched; otherwise the log grows by one bracketed segment, with the style's setters and at most one draw, and the reply reflects the draw |
| Templates.DrawTextOrGlyph | c_src/nif/nif_templates.h:307-391 | canvas, font and coordinate errors leave the context untouched; every later path saves once and restores once |
| Templates.ShapeSaveRestore | c_src/nif/nif_templates.h:150-252 | every shape draw that passes the canvas check saves once and restores once |
| Templates.TextSaveRestore | c_src/nif/nif_templates.h:337-385 | every text or glyph draw that passes its checks saves once and restores once |
| GlyphRuns.SliceFits | c_src/text/glyph_run.cpp:149-150 | the range check accepts exactly when `start + count <= size`, without any wrap-around |
| GlyphRuns.NaiveSumWraps | c_src/text/glyph_run.cpp:149-150 | the sum form in 32-bit arithmetic would accept a range that runs past the end, and the subtraction form rejects it |
| GlyphRuns.DataOffset | c_src/text/glyph_run.cpp:162-169 | with a non-negative stride and no wrap, the byte offset advances by exactly `start * advance` |
| GlyphRuns.SliceNifOutcome | c_src/text/glyph_run.cpp:135-174 | a slice fails with `glyph_run_slice_out_of_range` exactly when `start + count > size`; a success has size `count`, shares the source's owner, takes one more reference on it and changes no other count |
| GlyphRuns.PrependGlyphs | c_src/text/glyph_run.cpp:91-123 | the first loop builds the run's glyphs reversed |
| GlyphRuns.Reverse | c_src/text/glyph_run.cpp:125-130 | the second loop reverses its list |
| GlyphRuns.Inspect | c_src/text/glyph_run.cpp:75-133 | the glyphs are returned in iteration order |
| GlyphRuns.InspectSliced | c_src/text/glyph_run.cpp:135-174 | the slice's glyphs are the source's glyphs `start .. start + count` |
| GlyphRuns.SliceOfSlice | c_src/text/glyph_run.cpp:135-174 | slicing a slice is one slice from the summed start |
| GlyphRuns.SliceWhole | c_src/text/glyph_run.cpp:135-174 | the slice over the whole range is the run itself |
| Fonts.TagBytesOfMake | c_src/text/font.cpp:176-183 | splitting a packed tag gives back its four bytes |
| Fonts.MakeOfTagBytes | c_src/text/font.cpp:176-183 | packing the bytes of a tag gives back the tag |
| Fonts.TagToCstr | c_src/text/font.cpp:176-183 | the buffer holds the tag's four bytes, most significant first, then a NUL |
| Fonts.CstrOfMakeTag | c_src/text/font.cpp:176-183 | the text of a packed tag is its four bytes in order, then the NUL |
| Fonts.TagFromTerm | c_src/text/font.cpp:224-245 | a binary is accepted only with size 4; an atom only with length 4 |
| Fonts.BinaryTagBytes | c_src/text/font.cpp:227-233 | a four-byte binary's bytes come back out of its tag, in order |
| Fonts.AtomTagBytes | c_src/text/font.cpp:235-242 | an atom's four bytes come back out of its tag, in order |
| Fonts.AsWrittenSignExtends | c_src/text/font.cpp:235-241 | with a signed `char`, the bytes 61 62 C3 A9 pack to FFFFFFA9, not 6162C3A9 |
| Fonts.AsWrittenAtomDiffers | c_src/text/font.cpp:235-241 | the atom `'abé'` gives different tags as written and as corrected |
| Fonts.AsWrittenAgreesOnAscii | c_src/text/font.cpp:235-241 | for ASCII bytes the written form packs the same tag |
| Fonts.ParseFeatures | c_src/text/font.cpp:266-289 | the loop ends with the settings `FeaturesAfter` gives: every entry set in turn, or the error of the first bad one |
| Fonts.SettleOkIff | c_src/text/font.cpp:266-289 | the settings are built exactly when every entry succeeds |
| Fonts.SettleLastWins | c_src/text/font.cpp:266-289 | every tag set holds the value of its last occurrence |
| Fonts.FeaturesOkIff | c_src/text/font.cpp:266-289 | the settings are built exactly when every entry is well formed and accepted |
| Fonts.FeaturesFirstError | c_src/text/font.cpp:266-289 | a failure is the error of the first bad entry, and every entry before it is good |
| Fonts.CreateWithFeatures | c_src/text/font.cpp:247-301 | arity, face, size and each feature entry are checked in order, each with its own error, before any font is created |
| Fonts.CollectGlyphIds | c_src/text/font.cpp:370-381 | the ids are collected in order, and the first malformed one gives badarg |
| Fonts.BoxList | c_src/text/font.cpp:388-401 | built from the back, the list holds box `i` at position `i` |
| Fonts.GlyphBounds | c_src/text/font.cpp:326-408 | one id gives one box; an empty list gives `[]`; a list gives the boxes in the same order; anything else is badarg |
| Fonts.BoundsKeepOrder | c_src/text/font.cpp:356-404 | the list form answers box `i` for id `i` |
| Fonts.GlyphOutlines | c_src/text/font.cpp:410-455 | badarg unless four arguments, then the invalid font, glyph id, matrix and path errors in that order, each leaving the path alone; after the checks the path is cleared, then holds the glyph's outline; on failure it stays cleared |
| Colors.Clamp255 | c_src/styles/color.cpp:20-23 | each component is clamped into `[0, 255]`, and components already in range are unchanged |
| Colors.ClampIdempotent | c_src/styles/color.cpp:20-23 | clamping an already clamped component changes nothing |
| Colors.ClampMonotone | c_src/styles/color.cpp:20-23 | clamping keeps order |
| Colors.ColorNif | c_src/styles/color.cpp:7-29 | badarg exactly when `argc != 4`; `invalid_color_component` exactly when a component is not a C `int`; otherwise the clamped components |
| Colors.ComponentsRoundTrip | c_src/styles/color.cpp:7-51 | components already in `[0, 255]` read back unchanged through `color_components` |
| Colors.ColorFixedPoint | c_src/styles/color.cpp:7-51 | rebuilding a colour from its components gives the same colour |

## Left out

- BoxBlur.BoxSizes: the cast of `floor(wIdeal)` to a C `int` (blur.cpp:15) is taken as exact; it is undefined in the source once sigma passes about 1.07e9.
- BoxBlur.BoxBlurH: the window sums (`std::vector<int>`, blur.cpp:63-91) are unbounded integers; the source's sums overflow a C `int` once 255 * (2 * radius + 1) reaches 2^31 (sigma above about 4e6), so the model agrees with the source only below that.
- BoxBlur.BoxBlurV: the same unbounded window sums as `BoxBlur.BoxBlurH`, with the same bound on the radius.
- Rand.RandNormalBatch: `size_t` is taken to be 64 bits, so the `rand_count_too_large` error (rand.cpp:241-243) cannot occur for a 32-bit count and is not modelled; `Rand.CountFits` proves the guard always passes.
- Doubles are exact reals. Rounding, NaN and infinities are not modelled, so a NaN tolerance or sigma is not a case here.
- Blend2D itself is outside the model: codecs, allocation, format conversion, blits, bounding boxes and draw calls. Their outcomes are parameters.
- The thread-local scratch images of the effects are not modelled.
- The noise of the watercolour effect and the coverage mask drawn by Blend2D are parameters. The mask loop is proved for any mask and any level function.
- The floating-point arithmetic in front of the byte level `static_cast<int>(mf * 255 + 0.5)` is modelled over reals.
- Erlang lists are proper lists. The NIF calls that reject an improper list are modelled as taking a sequence.
- Effects.Top24: the integer is computed as the word divided by 256, the same value as the shift and mask.
- Effects.MixIn: the combining step of `hash_2i` is modelled, but its injectivity is not proved.
- EffectOptions.BlurPathPlan: the `memcpy` of four terms from `argv` reads `argv[3]` even when `argc == 3`. The model gives the list argument only when it exists.
- EffectOptions.FilterStyleList: malformed entries are dropped by the effects' filters before `parse_style` sees them, as in the source. The blur filter passes `resolution` through to the style, where it is ignored.
- Templates.DrawShape: the result of `parse_style` is ignored, as in the source. The model requires `argc <= 9`; every registered shape NIF has at most 8 arguments.
- Templates.DrawTextOrGlyph: the text and glyph-run draws are one parameter, the engine's result.
- GlyphRuns: `glyph_run_new` and `glyph_run_info` are not modelled; they only copy engine data.
- GlyphRuns.InspectSliced: requires non-negative advances and no 32-bit wrap of the offsets. It also requires placement data, or a zero placement stride: the source offsets a null placement address too, and the engine's iterator is taken to test placement by that address.
- GlyphRuns.SliceOfSlice: requires non-negative advances and no wrap, like InspectSliced.
- Fonts: `font_get_feature_settings`, the matrix NIFs and the other font and face NIFs are not modelled. They only forward engine data.
- Fonts.CreateWithFeatures: the `(float)` conversion of the size is not modelled. A non-list feature argument yields no features, as the source's loop does.
- Fonts.GlyphBounds: the list length is an unbounded count, not an `unsigned int`.
- Fonts.GlyphOutlines: on failure the path is modelled as cleared. The engine's partial output is not modelled.
- Rand: the ziggurat samplers `normal`, `exponential` and `exp_overhang` use doubles, `std::exp` and tables that are not part of this model. `rand_normal_batch` takes them as one sampler function over the state.
- PathFlatten: a subdivision's depth is bounded by a fuel parameter, and running out of fuel means the recursion does not return. With a positive tolerance, QuadFuel, CubicFuel and WalkFuel give enough fuel.

## Findings

| source | as written | input that shows it | evidently intended | confidence | as-written member | corrected member |
|---|---|---|---|---|---|---|
| c_src/geometries/path.cpp:1867-1890 | `path_flatten` accepts any float tolerance and recurses while `flatness <= tol` fails | a path with one quadratic segment and tolerance `-1.0`: no segment is ever flat, so `flattenQuadRecursive` never returns | a tolerance that is not positive is refused before the walk | high; not executed | PathWalk.NegativeToleranceHangs | PathWalk.PathFlattenNifChecked |
| c_src/text/font.cpp:235-241 | the atom's `char`s are passed to `BL_MAKE_TAG`, so a byte of 0x80 or more sign-extends where `char` is signed | the atom `'abé'` (bytes 61 62 C3 A9) packs to FFFFFFA9 instead of 6162C3A9 | each byte is taken as unsigned, as the binary form does | medium; not executed; depends on `char` being signed | Fonts.AsWrittenAtomDiffers | Fonts.AtomTagBytes |
