# LED matrix controller — a Dafny model

This project models the core of a Raspberry-Pi LED-matrix controller in
Dafny and proves properties of that model. The controller exists in two
generations: the legacy tree (`main.py`, `ribbapi.py`, `display/`,
`animation/`, `server/`, `common/`, `scripts/`) and the rewrite under
`led_matrix/`. Both are modelled side by side, and where the two
generations share a rule the model states it once and proves that both
follow it.

The model has these modules, one per concern of the system:

- `LedLayout`, `Apa102` and `LegacyApa102`: the APA102 strip drivers. They
  cover which LED sits at each matrix coordinate, for every wiring, reading
  direction and origin; the colour-byte permutation; the brightness start
  bytes; and the SPI byte stream `show` sends.
- `DisplayBuffer`: the legacy display base class's frame buffer and its
  bounds-checked writes.
- `TextScroll`: the scrolling text animation. It covers glyph bitmap
  unpacking, padding and the scrolling windows.
- `Blinkenlights`: the `.blm` animation. It covers the parser, crop and pad,
  the frame generators, the duration and the variant-file checks.
- `Gameframe`: the Gameframe animation. It covers `config.ini` defaults,
  frame order and centring, the panning window generator and the
  variant-folder checks.
- `Clock`: the seven-segment digit table, the digital clock layout and the
  analog face's drawing operations.
- `RgbColor`: the `Color` value of both generations and its `#rrggbb` form.
- `Tpm2Net`: the TPM2.net receivers of both generations. It covers the
  header guards as written and the assembly of multi-packet frames.
- `AnimationEvents`: the control queue, with its duplicate dropping and task
  counting.
- `AnimationControl`: the animation base. It covers the repeat countdown and
  the per-animation controller that creates, starts, pauses, resumes and
  stops animation threads.
- `MainControl`: the main animation controller. It holds the current
  animation and the stack of paused animations.
- `Schedule`: the table of scheduled animations.
- `LegacyMain` and `RibbaPiControl`: the legacy application objects.
- `ConfigFile`, `ConfigTable` and `MainConfig`: the rewrite's configuration
  reader and writer, the table filter and the day/night settings.
- `HttpForms`: the web interface's cron ranges, selector pattern and form
  checks.
- `Structures`: the legacy `Structure` records.
- `CreateConfig`: the configuration create/update script.
- `PyText` and `Wrappers`: the parts of Python's text and integer semantics
  the code relies on, and the shared `Option`/`Result` types.

Code that changes state step by step is modelled as classes with
`modifies` frames and loops with invariants. Examples are the drivers'
table-building loops, the receivers' buffer index, the controllers'
thread maps and the schedule table. Pure rules are modelled as functions,
with lemmas about them.

Threads, timers, clocks, random draws, sockets and files do not appear in
the model. Each becomes a parameter or an abstract field, as the module
comments say: whether a thread is alive, the current time, the sun times,
the UUIDs handed out, random indices, and the lines of a file.

## Model

| member | source | states |
|---|---|---|
| LedLayout.OuterStep | led_matrix/display/apa102.py:98-111 | every outer line is visited at one step of the outer loop, whether the range runs forwards or reversed |
| LedLayout.InnerPos | led_matrix/display/apa102.py:131-143 | the position along a line is the inner count or its mirror `inner-1-count`, and stays inside the line |
| LedLayout.InnerPosInvolution | led_matrix/display/apa102.py:131-143 | mirroring a line twice gives back the inner count, so the walk along each line is a permutation |
| LedLayout.LedIndex | led_matrix/display/apa102.py:145 | the LED index stored for a coordinate of the matrix is below `width*height` |
| LedLayout.CoordOf | led_matrix/display/apa102.py:146-152 | the coordinate driven by an LED below `width*height` lies inside the matrix |
| LedLayout.CoordOfLedIndex | led_matrix/display/apa102.py:84-155 | every coordinate is the coordinate of its own LED (the map is injective) |
| LedLayout.LedIndexOfCoord | led_matrix/display/apa102.py:84-155 | every LED below `width*height` is the LED of its coordinate (the map is onto) |
| LedLayout.LedIndexBijective | led_matrix/display/apa102.py:84-155 | for every wire mode, orientation and origin the pixel-to-LED map is a bijection from the matrix onto `0..width*height-1`; the legacy builder at display/apa102.py:86-139 is the same loop |
| LedLayout.RowBlocks | led_matrix/display/apa102.py:92-97 | horizontally, the row visited at outer step `s` holds exactly the LEDs `s*width .. s*width+width-1` (`led_index = j + current_outer_count*inner`) |
| LedLayout.FirstLedAtOrigin | led_matrix/display/apa102.py:101-143 | LED 0 sits in the corner the origin names: top row iff a top origin, left column iff a left origin, for every wire mode and orientation |
| LedLayout.ColorOffsets | led_matrix/display/apa102.py:157-172 | for each of the six colour types `(red, green, blue)` is a permutation of 1, 2, 3; the legacy table at display/apa102.py:141-152 is the same |
| LedLayout.ByteIndicesInPixel | led_matrix/display/apa102.py:174-184 | the byte indices of pixel `p` are `[4p, 4p+red, 4p+green, 4p+blue]`: four distinct indices inside `4p..4p+3`, start byte first |
| LedLayout.GatheredOrderOfOffsets | led_matrix/display/apa102.py:160-172 | the channel each wire slot receives after the gather is the one whose offset names that slot |
| LedLayout.GatheredOrderSelfInverse | led_matrix/display/apa102.py:160-169 | for RGB, RBG, GRB and BGR the channels reach the wire in the order the type's name gives |
| LedLayout.GatheredOrderRotationsSwapped | led_matrix/display/apa102.py:166-172 | as written, a GBR strip is sent the BRG order and a BRG strip the GBR order |
| LedLayout.WireOffsets | led_matrix/display/apa102.py:157-172 | corrected offsets: a permutation of 1, 2, 3 whose gather sends every colour type its named channel order |
| LedLayout.EndFrame | led_matrix/display/apa102.py:46-47 | the end frame is `(n+15)//16` bytes of 0xFF, at least n/2 one-bits for n LEDs; the legacy frame at display/apa102.py:63-64 is the same |
| LedLayout.StartFrame | led_matrix/display/apa102.py:45 | the start frame is four zero bytes |
| LedLayout.StartByteLowBits | led_matrix/display/apa102.py:261-263 | for every integer level, the low byte of `(b & ~0xE0) | 0xE0` is 0xE0 plus the level's five low bits |
| LedLayout.StartByteOfByte | display/apa102.py:198-200 | on a byte, `(b & ~0xE0) | 0xE0` is `(b & 0x1F) | 0xE0` |
| LedLayout.StartByteOfIs | display/apa102.py:198-200 | `(b & ~0xE0) | 0xE0` keeps everything above the low byte and the five low bits, and sets bits 5 to 7 |
| Apa102.PixelCoordRoundTrip | led_matrix/display/apa102.py:186-188 | `pixel_row = p // width`, `pixel_col = p - pixel_row*width` is a coordinate of the matrix whose row-major index is `p` |
| Apa102.PixelIndexRoundTrip | led_matrix/display/apa102.py:186-188 | a coordinate's row-major index is a pixel index whose coordinate is that coordinate |
| Apa102.PixelOfLed | led_matrix/display/apa102.py:186-198 | the pixel an LED shows is a pixel of the matrix |
| Apa102.LedOfPixel | led_matrix/display/apa102.py:190-195 | the LED stored for pixel `p` shows pixel `p`, and it is the only LED that does |
| Apa102.BuildLedMap | led_matrix/display/apa102.py:84-155 | the nested counter loops leave every cell `(row, col)` holding the LED index of that coordinate |
| Apa102.FillLine | led_matrix/display/apa102.py:112-154 | one pass of the inner loop writes the cells of the current outer line and keeps the ones written before |
| Apa102.BuildByteTable | led_matrix/display/apa102.py:174-198 | the byte-index table holds, in LED `led`'s block, the four byte indices of the pixel that LED shows |
| Apa102.StorePixel | led_matrix/display/apa102.py:178-198 | one pixel step fills the block of the LED that shows that pixel and keeps the blocks filled before |
| Apa102.TableComplete | led_matrix/display/apa102.py:174-198 | once all `width*height` pixels are stored, every LED's block is filled |
| Apa102.WriteBlock | led_matrix/display/apa102.py:198 | the slice assignment writes the four entries of one block and nothing else |
| Apa102.Frame4 | led_matrix/display/apa102.py:238 | the start bytes concatenated with the colour bytes along the last axis hold four bytes per pixel |
| Apa102.Frame4At | led_matrix/display/apa102.py:238 | byte `4p` of the concatenated frame is pixel `p`'s start byte, bytes `4p+1..4p+3` its red, green and blue |
| Apa102.Gather | led_matrix/display/apa102.py:270 | `take` gives one byte per table entry: the source byte that entry indexes |
| Apa102.TableInRange | led_matrix/display/apa102.py:270 | every entry of a built table indexes a byte of the frame, so the gather is well defined |
| Apa102.TableSlots | led_matrix/display/apa102.py:174-198 | LED `led`'s four table entries are `4p` and `4p+red/green/blue` for the pixel `p` it shows |
| Apa102.StreamSlot | led_matrix/display/apa102.py:272-276 | byte `4+q` of the sent stream is the frame byte table entry `q` points to |
| Apa102.StreamAt | led_matrix/display/apa102.py:269-276 | LED `led` is sent its pixel's start byte, then that pixel's channels in the order its table entries pick |
| Apa102.StreamLayout | led_matrix/display/apa102.py:265-277 | the stream is 4 zero bytes, then 4 bytes per LED (start byte and the pixel's channels), then the end frame |
| Apa102.BrightnessMask | led_matrix/display/apa102.py:261-263 | the mask has the top three bits set and the level's five low bits |
| Apa102.StartByteAfterIsMeet | led_matrix/display/apa102.py:50-55 | as written, after any series of `set_brightness` calls from the full 0xFF start, the top three bits stay set and the start byte has no bit any earlier mask lacked |
| Apa102.BrightnessCannotRise | led_matrix/display/apa102.py:261-263 | dimming to level 8 and then asking for level 31 leaves the start byte at 0xE8, not 0xFF |
| Apa102.Display.constructor | led_matrix/display/apa102.py:44-64 | a new driver holds the LED map and byte table of its wiring and colour type and start bytes of 0xFF |
| Apa102.Display.SetBrightness | led_matrix/display/apa102.py:248-263 | every start byte is ANDed with the mask, so it can only lose bits, and the top three bits stay set |
| Apa102.Display.SetBrightnessAssigned | led_matrix/display/apa102.py:260-263 | corrected update: every start byte becomes `0xE0 | (level & 0x1F)` |
| Apa102.Display.Show | led_matrix/display/apa102.py:265-277 | the sent bytes are `4 + 4n + (n+15)//16` long: start frame, per LED its start byte and its pixel's channels, end frame |
| LegacyApa102.BrightnessLevel | display/apa102.py:212-214 | `int((b/100)*31)` truncates toward zero; a percentage in 0..100 gives a level in 0..31 |
| LegacyApa102.StartByte | display/apa102.py:198-200 | the start byte is 0xE0 plus the level's five low bits |
| LegacyApa102.Display.constructor | display/apa102.py:45-77 | a new driver has a zeroed buffer, the level of the given percentage and the tables of its wiring |
| LegacyApa102.Display.SetBrightness | display/apa102.py:212-214 | the new level replaces the old one |
| LegacyApa102.Display.BrightnessBytes | display/apa102.py:198-203 | one start byte per pixel, each `(brightness & 0x1F) | 0xE0` |
| LegacyApa102.Display.Show | display/apa102.py:216-227 | the sent bytes are `4 + 4n + (n+15)//16` long: start frame, per LED the start byte and its pixel's channels, end frame |
| TextScroll.UnpackMonoBitmap | led_matrix/animations/text.py:188-206 | the result is `rows` by `width`; the value at (y, x) is 255 if bit `7 - x%8` of byte `y*pitch + x/8` is set and 0 otherwise, i.e. most significant bit first; the legacy unpacking at animation/text.py:125-137 is the same |
| TextScroll.UnpackRow | led_matrix/animations/text.py:194-204 | the byte loop of one row sets every column of that row to its bit's value and leaves the other rows alone |
| TextScroll.UnpackByte | led_matrix/animations/text.py:201-204 | the bit loop sets the (at most eight) columns the byte covers to 255 or 0 by their bit, most significant first, and nothing else |
| TextScroll.MonoPixelInByte | led_matrix/animations/text.py:196-203 | a column covered by byte `b` of its row takes bit `x - 8b` of that byte |
| TextScroll.VerticalPadding | led_matrix/animations/text.py:242-247 | a text lower than the matrix gets `v0 = (H-h)//2` rows above and `H-h-v0` below, so the padded height is `H`; a text at least as high is not padded; the legacy padding at animation/text.py:166-170 is the same |
| TextScroll.Pad | led_matrix/animations/text.py:249-252 | constant zero padding: the result is the image placed at (top, left) on a black canvas of the padded size |
| TextScroll.WindowStarts | led_matrix/animations/text.py:255 | `range(0, limit, step)`: the starts are `0, step, 2*step, ...`, exactly those below the limit |
| TextScroll.Window | led_matrix/animations/text.py:259 | `buf[0:h, left:left+w]` is an `h` by `w` image whose pixel (y, x) is pixel (y, left+x) of the buffer |
| TextScroll.Padded | led_matrix/animations/text.py:240-252 | the padded text is at least the matrix height and `height + tw + width + pps` wide |
| TextScroll.Frames | led_matrix/animations/text.py:231-259 | no frames unless `steps_per_second > 0` and `pixels_per_step >= 1`; otherwise one matrix-sized frame per start `k*pps` below the padded width less the matrix width, and frame `k` shows the text shifted left by `k*pps` |
| TextScroll.LastFrameBlank | led_matrix/animations/text.py:240-259 | the last frame of a pass is black: the text has scrolled out |
| TextScroll.ScrollsLeft | led_matrix/animations/text.py:255-259 | each frame is the previous one moved `pixels_per_step` columns to the left |
| TextScroll.EveryColumnShown | led_matrix/animations/text.py:240-259 | with a step no wider than the matrix, every column of every text row appears in some frame |
| TextScroll.NewTextAnimation | led_matrix/animations/text.py:44-63 | a steps-per-second of 0 raises ZeroDivisionError, and only it; any other value builds an animation with the frames of one pass still to yield, an unset stop event and an empty queue |
| TextScroll.TextAnimation.constructor | led_matrix/animations/text.py:231-259 | a new animation (with a steps-per-second other than 0) has the frames of one pass still to yield, an unset stop event and an empty queue |
| TextScroll.TextAnimation.RenderNextFrame | led_matrix/animations/text.py:261-275 | while frames remain and no stop, the next frame is put and `True` returned; otherwise nothing is put, `False` is returned, and the generator restarts exactly when another iteration is due |
| TextScroll.TextAnimation.Stop | led_matrix/animations/text.py:256-257 | the stop event is set, which ends the generator |
| TextScroll.Animate | animation/text.py:158-181 | the legacy loop puts exactly the frames of one pass, cut short at the stop event; nothing when the speed is not positive or the step is below one pixel |
| Blinkenlights.Flush | led_matrix/animations/blm.py:116-118 | the pending frame is appended with the current hold exactly when it has rows |
| Blinkenlights.Parse | led_matrix/animations/blm.py:100-135 | a successful parse yields at least one frame; a file without frames raises AttributeError |
| Blinkenlights.LoadFrames | led_matrix/animations/blm.py:100-135 | the line loop of `__load_frames` returns what the grammar gives: `#` lines skipped, `@N` flushes and sets the hold, other non-empty stripped lines become rows, the last frame is flushed at the end; the legacy `load_frames` at animation/blm.py:63-83 is the same |
| Blinkenlights.FeedAllAppend | led_matrix/animations/blm.py:109-126 | feeding a concatenation of lines feeds the parts one after the other |
| Blinkenlights.IgnoredLineChangesNothing | led_matrix/animations/blm.py:110-113 | a comment or blank line can be inserted anywhere without changing the parse |
| Blinkenlights.FeedKeepsGood | led_matrix/animations/blm.py:110-126 | one line keeps every frame non-empty and every row stripped, non-empty and neither a comment nor a hold line |
| Blinkenlights.FlushKeepsGood | led_matrix/animations/blm.py:116-118 | flushing keeps every frame non-empty with good rows |
| Blinkenlights.AppendRowKeepsGood | led_matrix/animations/blm.py:125-126 | appending a good row keeps the accumulator good |
| Blinkenlights.FeedAllKeepsGood | led_matrix/animations/blm.py:109-126 | any run of lines keeps the accumulator good |
| Blinkenlights.ParsedFramesGood | led_matrix/animations/blm.py:100-135 | the parser returns a non-empty list of non-empty frames whose rows are stripped, non-empty and neither comments nor hold lines |
| Blinkenlights.FeedRow | led_matrix/animations/blm.py:125-126 | a stripped line starting with neither `#` nor `@` becomes a row of the pending frame |
| Blinkenlights.FeedHold | led_matrix/animations/blm.py:115-123 | `@N` flushes the pending frame with the previous hold and starts an empty frame with hold N |
| Blinkenlights.FeedNoHold | led_matrix/animations/blm.py:110-126 | a line that is not an `@` line adds at most one row and changes neither the frames nor the hold |
| Blinkenlights.FeedAllFirst | led_matrix/animations/blm.py:109 | the lines are fed in order, the first one first |
| Blinkenlights.RowsAccumulate | led_matrix/animations/blm.py:109-126 | lines without an `@` line only add their rows to the pending frame |
| Blinkenlights.RowsOfFirst | led_matrix/animations/blm.py:125-126 | the rows of a run are the first line's row followed by the rest's |
| Blinkenlights.NoHoldLinesOneFrame | led_matrix/animations/blm.py:105-133 | a file without `@` lines is one frame with hold 0, or raises AttributeError when it has no rows |
| Blinkenlights.TotalHoldAppend | led_matrix/animations/blm.py:78-84 | the total hold of a concatenation is the sum of the totals |
| Blinkenlights.IntrinsicDuration | led_matrix/animations/blm.py:78-84 | the loop returns the sum of the holds in milliseconds, not negative when no hold is; the legacy duration at animation/blm.py:47-51 is the same |
| Blinkenlights.Colored | led_matrix/animations/blm.py:161-170 | the converted frame is as large as the text frame, 1 becomes the foreground, 0 the background colour |
| Blinkenlights.Offsets | led_matrix/animations/blm.py:179-183 | `abs(d//2)` and `abs(d) - abs(d//2)` add up to `abs(d)`; an odd surplus is cut one more at the end, an odd shortfall padded one more at the start |
| Blinkenlights.Fit | led_matrix/animations/blm.py:172-203 | the intended fit is a matrix-sized image |
| Blinkenlights.FitCentres | led_matrix/animations/blm.py:176-203 | a frame at least as large as the matrix covers it; a smaller one is padded with at most one row of difference between the two sides |
| Blinkenlights.CropRows | led_matrix/animations/blm.py:189-190 | `array[top:-bottom]` keeps the rows between the two cuts |
| Blinkenlights.CropCols | led_matrix/animations/blm.py:191-192 | `array[:, left:-right]` keeps the columns between the two cuts |
| Blinkenlights.KeptRows | led_matrix/animations/blm.py:179-190 | a frame higher than the matrix keeps exactly `height` centred rows; a lower one is kept whole |
| Blinkenlights.KeptCols | led_matrix/animations/blm.py:182-192 | a frame wider than the matrix keeps exactly `width` centred columns; a narrower one is kept whole |
| Blinkenlights.PasteRows | led_matrix/animations/blm.py:196-199 | the row paste succeeds iff the frame is as wide as the matrix or one pixel wide; then the frame sits `top` rows down on the padding |
| Blinkenlights.PasteCols | led_matrix/animations/blm.py:200-203 | the column paste succeeds iff the frame is as high as the matrix (or one row) and as wide as the slot cut at the right edge (or one column) |
| Blinkenlights.FitAsWrittenFails | led_matrix/animations/blm.py:189-203 | as written, a frame smaller than the matrix in both directions raises ValueError; every other frame gets the centred fit |
| Blinkenlights.FitPadBoth | led_matrix/animations/blm.py:196-203 | a frame lower and narrower than the matrix cannot be pasted |
| Blinkenlights.FitCropBoth | led_matrix/animations/blm.py:189-192 | a frame at least as large as the matrix is cropped to the centred fit |
| Blinkenlights.CropBothIsFit | led_matrix/animations/blm.py:189-192 | keeping the centred rows and then the centred columns gives the intended fit |
| Blinkenlights.CropBothPixels | led_matrix/animations/blm.py:189-192 | after both crops, pixel (y, x) is the frame's pixel `(top+y, left+x)` |
| Blinkenlights.CroppedIsFit | led_matrix/animations/blm.py:189-192 | the centred part of a frame at least as large as the matrix is the intended fit |
| Blinkenlights.CropPixel | led_matrix/animations/blm.py:189-192 | the centred pixel of a large frame is the fit's pixel |
| Blinkenlights.FitCropRowsPadCols | led_matrix/animations/blm.py:189-203 | a higher but narrower frame is cropped in rows and padded in columns to the centred fit |
| Blinkenlights.CropRowsPadColsPixels | led_matrix/animations/blm.py:189-203 | the crop-then-column-paste leaves the fit's pixels |
| Blinkenlights.FitPadRowsCropCols | led_matrix/animations/blm.py:189-203 | a lower but wider frame is cropped in columns and padded in rows to the centred fit |
| Blinkenlights.PadRowsCropColsPixels | led_matrix/animations/blm.py:189-203 | the crop-then-row-paste leaves the fit's pixels |
| Blinkenlights.PadRowsCropColsPixel | led_matrix/animations/blm.py:196-199 | one pixel of the crop-then-row-paste is the fit's pixel |
| Blinkenlights.PadRows | animation/blm.py:133-141 | `np.pad` of the rows puts the frame `top` rows down between padding rows |
| Blinkenlights.PadCols | animation/blm.py:146-155 | `np.pad` of the columns puts the frame `left` columns across between padding columns |
| Blinkenlights.LegacyRows | animation/blm.py:120-144 | the legacy row step pads or crops so that the frame is exactly `height` rows, centred |
| Blinkenlights.LegacyCols | animation/blm.py:122-158 | the legacy column step pads or crops so that the frame is exactly `width` columns, centred |
| Blinkenlights.FitLegacy | animation/blm.py:118-158 | the legacy pad/crop gives every frame the centred fit of the matrix's size |
| Blinkenlights.LegacyFitsCentred | animation/blm.py:118-158 | padding or cropping rows, then columns, is the centred fit |
| Blinkenlights.ComposeFit | animation/blm.py:118-158 | shifting the rows and then the columns places the frame as the centred fit does |
| Blinkenlights.GoodFramesShaped | led_matrix/animations/blm.py:172-174 | every parsed frame has a first row with a first character |
| Blinkenlights.RenderedFrameSpec | led_matrix/animations/blm.py:159-205 | the rewrite renders a frame iff it converts and is not smaller than the matrix in both directions, and then yields the centred fit |
| Blinkenlights.LegacyFrame | animation/blm.py:103-161 | the legacy generator yields a matrix-sized image for a frame iff it converts |
| Blinkenlights.LegacyStep | animation/blm.py:103-161 | a frame adds nothing when it does not convert, and its hold and a matrix-sized image otherwise |
| Blinkenlights.LegacyPassFits | animation/blm.py:98-161 | a legacy pass yields at most one image per frame, each filling the matrix, and drops only unconvertible frames |
| Blinkenlights.RewriteMatchesLegacy | led_matrix/animations/blm.py:154-205 | where the rewrite renders every frame, it yields exactly what the legacy generator yields |
| Blinkenlights.LegacyRenderedFrames | animation/blm.py:98-161 | the legacy generator, drained, yields the hold and fitted image of every convertible frame in order |
| Blinkenlights.BlmAnimation.constructor | led_matrix/animations/blm.py:55-76 | a new animation starts its generator at the first frame with an empty queue |
| Blinkenlights.BlmAnimation.RenderNextFrame | led_matrix/animations/blm.py:137-152 | the next frame is rendered, put and its hold becomes the speed, returning `True`; a failing frame raises and ends the generator; with no frame left nothing is put, `False` is returned and the generator restarts exactly when another iteration is due |
| Blinkenlights.VariantExtension | led_matrix/animations/blm.py:223-227 | a file is accepted iff the text after its last dot lowercases to `blm` |
| Blinkenlights.VariantFiles.constructor | led_matrix/animations/blm.py:217-221 | the controller knows its directory and the files in it |
| Blinkenlights.VariantFiles.AddDynamicVariant | led_matrix/animations/blm.py:223-232 | a refused name writes nothing; an accepted one writes the file at its resolved path |
| Blinkenlights.VariantFiles.RemoveDynamicVariant | led_matrix/animations/blm.py:237-242 | only a file inside the BLM directory is removed; nothing outside it ever is |
| Gameframe.Get | led_matrix/animations/gameframe.py:70-77 | `parser.get` finds a value iff the section has the option, and it is that value |
| Gameframe.Boolean | led_matrix/animations/gameframe.py:71 | `getboolean` of a value that is none of the boolean words raises ValueError |
| Gameframe.IntOption | led_matrix/animations/gameframe.py:70 | a missing option gives the fallback; a present one its integer, or ValueError when it is no integer |
| Gameframe.BoolOption | led_matrix/animations/gameframe.py:71 | a missing option gives the fallback; a present one is read with `getboolean` |
| Gameframe.ReadConfig | led_matrix/animations/gameframe.py:45-79 | without `config.ini` the defaults (hold 100, loop, no moves, no move loop, no pan off); otherwise the options read, and the next folder as named, if any |
| Gameframe.ReadConfigLegacy | animation/gameframe.py:87-109 | without `config.ini` the same defaults as the rewrite |
| Gameframe.NoOptionsGiveDefaults | animation/gameframe.py:88-109 | a `config.ini` without the sections gives the defaults in both generations |
| Gameframe.FlagTextRead | led_matrix/animations/gameframe.py:71-75 | `true` and `false` read back as the flag written |
| Gameframe.TrueTextRead | led_matrix/animations/gameframe.py:71 | `getboolean("true")` is True |
| Gameframe.FalseTextRead | led_matrix/animations/gameframe.py:71 | `getboolean("false")` is False |
| Gameframe.IniOfOptions | led_matrix/animations/gameframe.py:70-77 | each option of a written configuration is found where the reader looks for it |
| Gameframe.ReadMotionRoundTrip | led_matrix/animations/gameframe.py:70-75 | the six options of a written configuration read back unchanged |
| Gameframe.ReadConfigRoundTrip | led_matrix/animations/gameframe.py:57-79 | reading back a written configuration gives it back, next folder included |
| Gameframe.LegacyRejectsNextFolder | animation/gameframe.py:108-109 | as written, the legacy reader raises ValueError for a next folder that is a name, which the rewrite reads |
| Gameframe.EffectiveRepeat | led_matrix/animations/gameframe.py:108-109 | the repeat is kept when the animation loops or move-loops and forced to 0 (one pass) otherwise; the legacy rule at animation/gameframe.py:38-39 is the same |
| Gameframe.StemKeys | led_matrix/animations/gameframe.py:145-146 | every file's stem converts to an integer, or the first that does not raises ValueError |
| Gameframe.FrameOrder | led_matrix/animations/gameframe.py:141-180 | the frames are the files sorted by the number in their stem, stably; a stem that is no number raises ValueError, and no file at all raises AttributeError; the legacy order at animation/gameframe.py:71-85 is the same |
| Gameframe.SortByKeys | led_matrix/animations/gameframe.py:145-146 | the insertion sort orders every file index by key, ties by position, and keeps every index |
| Gameframe.InsertKeepsMembers | led_matrix/animations/gameframe.py:145-146 | inserting the next index keeps every earlier index |
| Gameframe.InsertKeepsOrder | led_matrix/animations/gameframe.py:145-146 | inserting the next index after every index with a key no larger keeps the order stable |
| Gameframe.Half | led_matrix/animations/gameframe.py:167-168 | `int(d / 2)` truncates toward zero |
| Gameframe.Pasted | led_matrix/animations/gameframe.py:163-170 | `paste` on a background: the matrix pixel is the frame's pixel where the frame covers it, the background elsewhere |
| Gameframe.Centred | led_matrix/animations/gameframe.py:161-170 | a still frame becomes a matrix-sized image |
| Gameframe.CentredFrame | led_matrix/animations/gameframe.py:161-170 | a frame no larger than the matrix is shown whole with margins that differ by at most one pixel; a larger one is cut by half its surplus |
| Gameframe.GlobalCrop | led_matrix/animations/gameframe.py:157-160 | no crop offset without a positive move |
| Gameframe.LoadedFrame | led_matrix/animations/gameframe.py:150-172 | a moving animation keeps the whole image; a still one is centred on the matrix |
| Gameframe.PadSides | led_matrix/animations/gameframe.py:200-204 | pan-off padding keeps the height |
| Gameframe.PadAbove | led_matrix/animations/gameframe.py:206-210 | pan-off padding triples the height |
| Gameframe.CursorAt | led_matrix/animations/gameframe.py:214-232 | the `k`-th cut starts `k*abs(move)` along from the start offset, measured from the right edge for `move_x >= 0` and from the bottom for `move_y < 0` |
| Gameframe.StillFramesOnePass | led_matrix/animations/gameframe.py:257-276 | without movement one pass shows each frame once, in order, and ends after the last |
| Gameframe.StillCursor | led_matrix/animations/gameframe.py:212-224 | without movement every frame is cut at the start offset and the pan neither ends nor has room |
| Gameframe.RestartsWhileMoving | led_matrix/animations/gameframe.py:257-276 | after the last frame, with room left to pan, the list starts over iff the animation loops or move-loops and moves |
| Gameframe.PanEnds | led_matrix/animations/gameframe.py:234-239 | a horizontal pan ends once it has moved across the frame |
| Gameframe.NextIndex | led_matrix/animations/gameframe.py:257-274 | the frame index walks the list cyclically |
| Gameframe.Advance | led_matrix/animations/gameframe.py:195-276 | one turn of the generator loop yields the `k`-th cut, advances `x` and `y` by `abs(move)` and the index cyclically, and ends as the pan and loop rules say |
| Gameframe.GameframeAnimation.constructor | led_matrix/animations/gameframe.py:82-113 | the crop offsets are set for a positive move, the repeat is forced to 0 unless looping, the speed is the hold |
| Gameframe.GameframeAnimation.Next | led_matrix/animations/gameframe.py:182-228 | nothing from an empty list or an ended generator; an empty cut ends it; otherwise the `k`-th cut is yielded |
| Gameframe.GameframeAnimation.RenderNextFrame | led_matrix/animations/gameframe.py:278-292 | a yielded frame is put and `True` returned; otherwise `False`, and the generator restarts exactly when another iteration is due |
| Gameframe.AppendShot | animation/gameframe.py:111-176 | appending the next cut keeps the drained frames equal to the generator's cuts |
| Gameframe.LegacyRenderedFrames | animation/gameframe.py:111-176 | the legacy generator, from (0, 0) and without the empty-cut check, yields the cuts in order and stops exactly where the pan or loop rules end it |
| Gameframe.Component | led_matrix/animations/gameframe.py:326 | a path component is a prefix of its name, the name itself when it has no slash |
| Gameframe.CheckedPath | led_matrix/animations/gameframe.py:322-337 | the path checked for an existing variant lies directly inside the gameframe directory |
| Gameframe.ExtractPath | led_matrix/animations/gameframe.py:322-332 | extraction happens at or below the gameframe directory |
| Gameframe.ExtractedPaths | led_matrix/animations/gameframe.py:342 | every entry is written below the extraction path |
| Gameframe.ExtractedInside | led_matrix/animations/gameframe.py:342 | extraction writes only inside the gameframe directory |
| Gameframe.VariantTree.constructor | led_matrix/animations/gameframe.py:303-307 | the controller knows its directory and the paths in it |
| Gameframe.VariantTree.AddDynamicVariant | led_matrix/animations/gameframe.py:309-348 | a non-zip name, an empty zip or an existing variant leave the tree unchanged; otherwise the entries are extracted, under a new directory when the zip has no root directory; nothing outside the gameframe directory changes |
| Gameframe.VariantTree.Extract | led_matrix/animations/gameframe.py:339-342 | `mkdir` then `extractall` add exactly the base and the entries' paths |
| Gameframe.VariantTree.RemoveDynamicVariant | led_matrix/animations/gameframe.py:350-355 | a directory inside the gameframe directory is removed with everything below it; anything else is left alone |
| Clock.Middle | led_matrix/animations/clock.py:70-75 | the middle index of `v` pixels is `(v-1)/2`: for a positive size it lies on the image and the part after it is as long as the part before it or one longer |
| Clock.TruncDiv | led_matrix/animations/clock.py:163 | `int(a / b)` truncates toward zero: floor division for non-negative `a`, its mirror for negative `a` |
| Clock.ColorAt | led_matrix/animations/clock.py:99-107 | a pixel no operation covers keeps the background; otherwise it has the colour of the last operation drawn over it (later operations paint over earlier ones) |
| Clock.Paint | led_matrix/animations/clock.py:57 | the frame is `height` rows of `width` pixels, each the colour the drawing operations leave there on the background |
| Clock.SegmentTable | led_matrix/animations/clock.py:117-153 | 8 lights all seven segments, 1 only the two right ones, and every digit except 0, 1 and 7 lights the middle bar |
| Clock.NonDigitDark | led_matrix/animations/clock.py:117-153 | a value outside 0..9 lights no segment |
| Clock.DigitOfSegments | led_matrix/animations/clock.py:117-153 | the segment pattern of every digit reads back as that digit |
| Clock.SegmentsDistinct | led_matrix/animations/clock.py:117-153 | two different digits never light the same segments |
| Clock.SegmentLine | led_matrix/animations/clock.py:119-153 | every segment is a horizontal or vertical line in the digit's colour that stays inside the digit's box |
| Clock.DrawSegments | led_matrix/animations/clock.py:117-153 | at most one line per segment checked, all axis-aligned, in the colour, inside the box, and a line for every lit segment |
| Clock.DigitOps | led_matrix/animations/clock.py:111-153 | drawing a digit draws only axis-aligned lines in its colour inside its box, one for each of its segments |
| Clock.TwoDigits | led_matrix/animations/clock.py:156-157 | the zero-padded text of an hour or minute below 100 yields its tens and its units digits |
| Clock.PaddedDigits | led_matrix/animations/clock.py:156-157 | `str(n).zfill(2)` of a number below 100 is its tens character followed by its units character |
| Clock.DigitCharParses | led_matrix/animations/clock.py:171-182 | `int` of one digit character is that digit |
| Clock.SingleDigitText | led_matrix/animations/clock.py:156-157 | a number below 10 prints as one character and is padded with a single `0` |
| Clock.DoubleDigitText | led_matrix/animations/clock.py:156-157 | a number from 10 to 99 needs no padding: its text is its tens then its units |
| Clock.LayoutFits | led_matrix/animations/clock.py:162-193 | on a matrix at least 7 by 3 the four digits have positive size, sit pairwise one column apart, the hours left of the middle column, the minutes ending at the right edge, rows 1 to height-2, and both divider points are on the matrix |
| Clock.DigitOffColumn | led_matrix/animations/clock.py:111-153 | a digit drawn wholly left or right of a column sets no pixel of that column |
| Clock.DigitsBesideDivider | led_matrix/animations/clock.py:168-182 | none of the four digits touches the middle column where the divider sits |
| Clock.DividerPixels | led_matrix/animations/clock.py:184-193 | in the painted frame both divider pixels show the divider colour when the divider is shown and the background when it is not |
| Clock.DividerColors | led_matrix/animations/clock.py:184-193 | the same at the level of the drawing operations: the last operation over each divider point is the divider exactly when it is shown |
| Clock.LegacyLayoutAgrees | animation/clock.py:124-140 | when `mid_x - 1` is even the legacy real-valued character width and left edges equal the rewrite's integer ones |
| Clock.LegacyDividerBlinks | animation/clock.py:146-152 | the legacy divider shows on even seconds exactly as the rewrite's does with blinking seconds; without blinking the rewrite always shows it |
| Clock.MaxHand | led_matrix/animations/clock.py:61-62 | the long hand is one more than the smaller middle coordinate, at least 1 on a non-empty matrix |
| Clock.HourHand | led_matrix/animations/clock.py:89 | the hour hand is half the long hand, rounded up |
| Clock.AnalogOps | led_matrix/animations/clock.py:96-109 | the analog face is three operations ending with the centre point in the divider colour |
| Clock.ClockAnimation.constructor | led_matrix/animations/clock.py:43-68 | keeps the size, variant, colours and blinking flag with an empty queue; one frame a second for analog, ten for digital, no speed set otherwise |
| Clock.ClockAnimation.RenderNextFrame | led_matrix/animations/clock.py:197-216 | puts exactly the face of the current time for the variant and continues; with no variant puts nothing and stops |
| RgbColor.NewColor | led_matrix/common/color.py:7-18 | three ints are kept as given; a `#` string is parsed, raising ValueError only on bad hexadecimal; any other argument gives black |
| RgbColor.PilTuple | led_matrix/common/color.py:39-40 | the tuple rebuilds the same colour |
| RgbColor.HexByteShape | led_matrix/common/color.py:20-24 | each byte component is written as two lower-case hexadecimal digits that parse back to it |
| RgbColor.HexDigitCount | led_matrix/common/color.py:21-23 | a byte needs one or two hexadecimal digits before padding |
| RgbColor.PadOne | led_matrix/common/color.py:21-23 | `zfill(2)` puts one `0` in front of a single digit |
| RgbColor.HexValueShape | led_matrix/common/color.py:20-24 | the hex value of a byte colour is seven characters: `#` and the red, green and blue pairs at 1:3, 3:5 and 5:7 |
| RgbColor.ParseHexValue | led_matrix/common/color.py:11-24 | parsing the hex value of a byte colour gives the colour back |
| RgbColor.HexPair | led_matrix/common/color.py:12-14 | a two-digit pair written for a byte reads back through `int(s[i:i+2], 16)` |
| RgbColor.HexRoundTrip | led_matrix/common/color.py:11-24 | `Color(c.hex_value)` equals `c` for every byte colour |
| RgbColor.HexValueStartsWithHash | led_matrix/common/color.py:20-24 | every hex value starts with `#`, so the constructor takes the parsing branch |
| RgbColor.ToInt | common/color.py:4-6 | `int` keeps an int and raises TypeError on a list or on None |
| RgbColor.LegacyNewColor | common/color.py:2-21 | with neither one nor three arguments the colour is black; three ints are kept; the components are left unset exactly for one argument that is neither a list nor a `#` string |
| RgbColor.LegacyHexValue | common/color.py:39-45 | reading the hex value raises AttributeError exactly when the components were never set |
| RgbColor.LegacyAgrees | common/color.py:2-17 | both generations build the same colour from three ints and the same colour or error from a `#` string |
| RgbColor.LegacyHexRoundTrip | common/color.py:13-17 | the legacy constructor rebuilds a byte colour from its hex value, which is the same text in both generations |
| RgbColor.LegacyOneString | common/color.py:7-17 | a single `#` string is parsed; any other single string leaves the components unset |
| RgbColor.LegacyPlainStringUnset | common/color.py:13-21 | a single plain string leaves the legacy colour unset so `hex_value` raises AttributeError, where the rewrite gives black |
| ConfigFile.Cast | led_matrix/config/file.py:87-94 | a cast gives a value of the target type; text keeps its text, an int its value and a bool its truth; only `int` of text that is no integer fails, with ValueError |
| ConfigFile.GetValue | led_matrix/config/file.py:65-94 | outside a section RuntimeError, and only there; a missing key, `None`, a repeated key or a bare key read as anything but bool gives the default; a scalar of the target type is returned as it is |
| ConfigFile.Values | led_matrix/config/file.py:96-197 | a section reader that succeeds yields one value per call, each of its call's target type |
| ConfigFile.DefaultsOf | led_matrix/config/file.py:96-197 | the defaults of a reader's calls, one per call and in call order |
| ConfigFile.MissingSectionDefaults | led_matrix/config/file.py:65-85 | a section absent from the file reads as every call's default |
| ConfigFile.HardwareOf | led_matrix/config/types.py:4-6 | `Hardware(s)` succeeds exactly for "APA102" and "COMPUTER", and raises ValueError otherwise |
| ConfigFile.HardwareName | led_matrix/config/types.py:4-6 | the value written for a hardware kind reads back as that kind |
| ConfigFile.ColorTypeOf | led_matrix/config/types.py:9-15 | `LEDColorType(i)` succeeds exactly for 1 to 6, and raises ValueError otherwise |
| ConfigFile.ColorTypeValue | led_matrix/config/types.py:9-15 | the number written for a colour order reads back as that order |
| ConfigFile.WireModeOf | led_matrix/config/types.py:18-20 | `LEDWireMode(i)` succeeds exactly for 1 and 2 |
| ConfigFile.WireModeValue | led_matrix/config/types.py:18-20 | the number written for a wire mode reads back as that mode |
| ConfigFile.OrientationOf | led_matrix/config/types.py:23-25 | `LEDOrientation(i)` succeeds exactly for 1 and 2 |
| ConfigFile.OrientationValue | led_matrix/config/types.py:23-25 | the number written for an orientation reads back as it |
| ConfigFile.OriginOf | led_matrix/config/types.py:28-32 | `LEDOrigin(i)` succeeds exactly for 1 to 4 |
| ConfigFile.OriginValue | led_matrix/config/types.py:28-32 | the number written for an origin reads back as it |
| ConfigFile.MainSpecs | led_matrix/config/file.py:96-126 | the main reader makes nine calls, each with a default of its own type |
| ConfigFile.DefaultAnimationSpecs | led_matrix/config/file.py:138-151 | the default-animation reader makes four well-typed calls |
| ConfigFile.Apa102Specs | led_matrix/config/file.py:158-171 | the APA102 reader makes four well-typed calls |
| ConfigFile.ComputerSpecs | led_matrix/config/file.py:179-186 | the computer reader makes two well-typed calls |
| ConfigFile.ScheduleSpecs | led_matrix/config/file.py:191-195 | the schedule reader makes one well-typed call |
| ConfigFile.ConfigReader.constructor | led_matrix/config/file.py:42-52 | the reader starts on the parsed file outside any section |
| ConfigFile.ConfigReader.EnterSection | led_matrix/config/file.py:54-63 | entering a `with self.__section(...)` block sets the current section and makes the block's calls inside it; the reader that entered resets it only when the whole block succeeds |
| ConfigFile.ConfigReader.Read | led_matrix/config/file.py:199-214 | reads the five sections in order, the first error propagating; no section is left current exactly when it succeeds |
| ConfigFile.ConfigReader.ReadMain | led_matrix/config/file.py:96-136 | reads the main section as the main-settings function does, the hardware name and the listen address checked; the section is reset exactly when the read succeeds, so a failed conversion leaves it set |
| ConfigFile.ConfigReader.ReadDefaultAnimation | led_matrix/config/file.py:138-156 | reads the default-animation section; the section is reset exactly when the read succeeds |
| ConfigFile.ConfigReader.ReadApa102 | led_matrix/config/file.py:158-176 | reads the APA102 section, each number converted to its enumeration; the section is reset exactly when the read succeeds |
| ConfigFile.ConfigReader.ReadComputer | led_matrix/config/file.py:179-189 | reads the computer section; the section is reset exactly when the read succeeds |
| ConfigFile.ConfigReader.ReadScheduledAnimations | led_matrix/config/file.py:191-197 | reads the schedule-table text; the section is reset exactly when the read succeeds |
| ConfigFile.EmptyFileReadsDefaults | led_matrix/config/file.py:199-214 | a file with none of the five sections reads as the dataclass defaults |
| ConfigFile.MissingMainReadsDefault | led_matrix/config/file.py:96-136 | without a MAIN section the main settings are the defaults |
| ConfigFile.MissingDefaultAnimationReadsDefault | led_matrix/config/file.py:138-156 | without a DEFAULTANIMATION section the default animation is the default one |
| ConfigFile.MissingApa102ReadsDefault | led_matrix/config/file.py:158-176 | without an APA102 section the LED layout is the default one |
| ConfigFile.MissingComputerReadsDefault | led_matrix/config/file.py:179-189 | without a COMPUTER section margin and LED size are the defaults |
| ConfigFile.MissingScheduleReadsDefault | led_matrix/config/file.py:191-197 | without a SCHEDULEDANIMATIONS section the table is the empty one |
| ConfigFile.Written | led_matrix/config/file.py:343-364 | the writer emits exactly five sections, in the order MAIN, DEFAULTANIMATION, APA102, COMPUTER, SCHEDULEDANIMATIONS |
| ConfigFile.AsIni | led_matrix/config/file.py:238-341 | every setting is written as a single scalar |
| ConfigFile.ValuesReadBack | led_matrix/config/file.py:65-94 | a section holding each key with a value of its own type reads back exactly those values |
| ConfigFile.WrittenSectionReadsBack | led_matrix/config/file.py:230-341 | each written section reads back the values written into it |
| ConfigFile.WrittenSections | led_matrix/config/file.py:343-364 | the written sections have distinct names and each has distinct keys |
| ConfigFile.MainOfValid | led_matrix/config/file.py:96-136 | the main settings are built exactly when the hardware name and the listen address are valid, otherwise ValueError, and they hold the values read |
| ConfigFile.MainReadsBack | led_matrix/config/file.py:230-269 | the written MAIN section, with a listen address that is an IP address, reads back as the same main settings |
| ConfigFile.DefaultAnimationReadsBack | led_matrix/config/file.py:271-292 | the written DEFAULTANIMATION section reads back the same values |
| ConfigFile.Apa102ReadsBack | led_matrix/config/file.py:294-324 | the written APA102 section reads back the same LED layout |
| ConfigFile.ComputerAndScheduleReadBack | led_matrix/config/file.py:326-341 | the written COMPUTER and SCHEDULEDANIMATIONS sections, taken as written, read back the same values |
| ConfigFile.WrittenReadsBack | led_matrix/config/file.py:199-364 | a file holding exactly what the writer writes, with a listen address that is an IP address, reads back as the settings written |
| ConfigFile.Reread | led_matrix/config/file.py:222-228 | a written value comes back as written exactly when it is no text or a text without the value delimiter "," and other than the keywords True, False and None |
| ConfigFile.PlainWrittenReadsBack | led_matrix/config/file.py:216-228 | when every written text is plain, the parser reads the written file back as written, and it reads back as the settings written |
| ConfigFile.DelimitedScheduleReadsDefault | led_matrix/config/file.py:75-85 | a schedule table holding "," is read back as a list, so the reader gives the default table |
| ConfigFile.InvalidListenIpUnreadable | led_matrix/config/file.py:119-123 | settings whose listen address is no IP address are written, but the written file then fails to read with ValueError |
| IpAddress.ParseOctet | led_matrix/config/file.py:119-123 | an IPv4 octet that parses is below 256 |
| IpAddress.ParseV4 | led_matrix/config/file.py:119-123 | an IPv4 address that parses has four octets, each below 256 |
| IpAddress.Check | led_matrix/config/file.py:119-123 | `ip_address` accepts exactly the IPv4 and the IPv6 address texts, keeping the text, and raises ValueError for anything else |
| IpAddress.OctetRoundTrip | led_matrix/config/file.py:119-123 | the decimal text of every number below 256 parses back as that number |
| IpAddress.OctetCanonical | led_matrix/config/file.py:119-123 | an octet text that parses is the decimal text of its value |
| IpAddress.V4RoundTrip | led_matrix/config/file.py:119-123 | the dotted text of any four octets parses back as those octets |
| IpAddress.V4Canonical | led_matrix/config/file.py:119-123 | an IPv4 text that parses is already the dotted text of its octets, so `str(ip_address(s))` is `s` |
| IpAddress.NoColonNotV6 | led_matrix/config/file.py:119-123 | a text without a colon is no IPv6 address |
| IpAddress.LoopbackAccepted | led_matrix/config/file.py:119-123 | the default listen address 127.0.0.1 is the IPv4 address 127, 0, 0, 1 |
| IpAddress.NamesRefused | led_matrix/config/file.py:119-123 | a host name and the empty text raise ValueError |
| IpAddress.ThreeOctetsRefused | led_matrix/config/file.py:119-123 | three octets raise ValueError |
| IpAddress.LeadingZeroRefused | led_matrix/config/file.py:119-123 | an octet with a leading zero raises ValueError |
| IpAddress.LargeOctetRefused | led_matrix/config/file.py:119-123 | an octet above 255 raises ValueError |
| ConfigTable.LookupVariant | led_matrix/config/__init__.py:106-109 | the enumeration lookup succeeds exactly for a member name, giving that member |
| ConfigTable.Loaded | led_matrix/config/__init__.py:93-111 | a loaded entry keeps its job, cron and name; it has a parameter exactly when the animation has a parameter class and a variant exactly when it has a variant enumeration; it fails exactly when the stored variant names no member |
| ConfigTable.LoadTable | led_matrix/config/__init__.py:75-113 | the loaded table is no longer than the stored one and names only animations that exist |
| ConfigTable.Known | led_matrix/config/__init__.py:86-91 | the stored entries of existing animations, no more of them than stored |
| ConfigTable.LoadKeepsKnownInOrder | led_matrix/config/__init__.py:86-113 | entries of missing animations are skipped; the others are kept in their order with job, cron and name unchanged |
| ConfigTable.GetScheduledAnimationsTable | led_matrix/config/__init__.py:75-113 | the loop computes exactly the table load |
| ConfigTable.ErrorPersists | led_matrix/config/__init__.py:86-113 | once one entry fails to load the whole load fails with that error |
| ConfigTable.DefaultAnimationParameter | led_matrix/config/__init__.py:51-56 | no parameter without a parameter class; otherwise the stored one |
| ConfigTable.DefaultAnimationVariant | led_matrix/config/__init__.py:61-66 | no variant without an enumeration; otherwise the stored name, and an error exactly when it names no member |
| MainConfig.DayOrNight | led_matrix/config/settings.py:67-87 | in day time (night setting disabled, or between sunrise and sunset inclusive) the day value, otherwise the night value |
| MainConfig.NextSunTimes | led_matrix/config/settings.py:58-65 | today's sunrise and sunset until today's sunset has passed, tomorrow's after it |
| MainConfig.MainSettings.constructor | led_matrix/config/settings.py:15-56 | the given size and brightness values, the documented defaults for colour temperature and servers, the sun times picked as by the refresh, and the pixel count width times height fixed once |
| MainConfig.MainSettings.RefreshSunsetSunrise | led_matrix/config/settings.py:58-65 | the sun times become today's or tomorrow's as by the sunset rule; every setting is left unchanged |
| MainConfig.MainSettings.Brightness | led_matrix/config/settings.py:75-80 | always the day brightness while the night setting is -1; otherwise the day value exactly in day time and the night value at night, never -1 unless the day value is |
| MainConfig.MainSettings.ColorTemperature | led_matrix/config/settings.py:82-87 | the day colour temperature while the night setting is disabled; with distinct values the day one exactly in day time |
| MainConfig.NightSwitchesBoth | led_matrix/config/settings.py:67-87 | with distinct day and night values brightness and colour temperature take their night values at the same moments |
| AnimationEvents.NeverDropped | led_matrix/animation/event.py:106-134 | the rewrite never drops a start event, the legacy queue never drops a stop event |
| AnimationEvents.FirstIndex | led_matrix/animation/event.py:143 | the position `list.remove` takes out: an occurrence of the event with none before it |
| AnimationEvents.RemoveFirst | led_matrix/animation/event.py:143 | removing an event from the tracked list shortens it by exactly one |
| AnimationEvents.EventQueue.constructor | led_matrix/animation/event.py:99-104 | a new queue is empty, tracks nothing, counts no task and has nothing done or chained |
| AnimationEvents.EventQueue.Put | led_matrix/animation/event.py:106-134 | `None` is always queued; an event is queued and tracked exactly when it duplicates no tracked event (same resumed thread, or same stopped animation; in main.py:599-618 same resumed thread or same raw start settings); the task count rises by one either way |
| AnimationEvents.EventQueue.PutCounted | led_matrix/animation/event.py:106-134 | the same put, counting only a queued item, keeps every counted task queued or in hand |
| AnimationEvents.EventQueue.Keep | led_matrix/animation/event.py:107-130 | the duplicate scan keeps an item exactly when it is `None` or duplicates no tracked event |
| AnimationEvents.EventQueue.Get | led_matrix/animation/controller.py:271 | `get` takes the oldest queued item and holds it in hand |
| AnimationEvents.EventQueue.TaskDone | led_matrix/animation/event.py:136-145 | at zero tasks ValueError and nothing changes; otherwise one task fewer, and an event is removed from the tracked list and marked done, or ValueError when it is not tracked |
| AnimationEvents.EventQueue.Chain | led_matrix/animation/event.py:54-56 | the event's follower becomes the given event, other links unchanged |
| AnimationEvents.EventQueue.RemainingMeansPending | led_matrix/animation/event.py:147-150 | with honest counting, tasks remain exactly while something is queued or in hand |
| AnimationEvents.ReleasedFollowsChain | led_matrix/animation/event.py:47-52 | a waiter on a chained event is released only once the event chained to it is done |
| AnimationEvents.DroppedStopStaysUnfinished | led_matrix/animation/event.py:106-155 | two stops of the same animation: the second is dropped but counted, so after the first is processed nothing is queued and yet a task remains |
| AnimationEvents.DroppedStopCounted | led_matrix/animation/event.py:106-155 | counting only queued items, the same sequence leaves no task |
| MainControl.Registered | led_matrix/animation/controller.py:41-65 | the controllers are the loaded ones plus the dummy; a loaded controller of the dummy's name replaces it |
| MainControl.New | led_matrix/animation/controller.py:29-80 | a default animation name that no controller has raises KeyError, and only that; otherwise the controllers are the registered ones, the default name and settings are kept, nothing is current and nothing paused, and the control queue is a new, empty rewrite queue |
| MainControl.MainController.constructor | led_matrix/animation/controller.py:29-80 | for a known default name: the controllers are the registered ones, the default name and settings are kept, nothing is current and nothing paused, and the control queue is a new, empty rewrite queue |
| MainControl.MainController.OnLastElementProcessed | led_matrix/animation/controller.py:82-94 | the most recently paused animation is popped and a resume event for it put; with none paused a start of the default animation, without pausing, is put; the queue appends the event exactly when it duplicates no tracked event (a start is always appended) and counts one more unfinished task either way |
| MainControl.MainController.StartAnimation | led_matrix/animation/controller.py:101-139 | an unknown animation changes nothing; otherwise the new thread is started with its settings and its controller becomes current; when asked to pause, a running current animation is paused and pushed with the paused thread, its controller left not running; otherwise the stack is cleared and the old thread stopped |
| MainControl.MainController.Launch | led_matrix/animation/controller.py:133-135 | the new thread of the started animation's controller is started (current, running and alive, its threads and paused set unchanged) and that controller becomes current; the pause stack and every other controller are unchanged |
| MainControl.MainController.SuspendCurrent | led_matrix/animation/controller.py:114-132 | with pausing, the current controller is paused as its own `pause` does and the thread it yields is pushed; otherwise the stack is emptied, nothing is current and that controller is stopped as its `stop` does; other controllers and the new thread are untouched |
| MainControl.MainController.StopCurrent | led_matrix/animation/controller.py:141-153 | the current controller is stopped as its `stop` does, so it runs nothing, and nothing is current, unless a stop event names another animation, when nothing changes; other controllers are untouched |
| MainControl.MainController.ResumeAnimation | led_matrix/animation/controller.py:155-157 | the named controller becomes current; a paused thread moves back to its threads with its settings, leaves the paused set and is current and running; an unknown thread leaves that controller unchanged; every other controller is untouched |
| MainControl.MainController.OnAnimationFinished | led_matrix/animation/controller.py:96-99 | with tasks still counted in the control queue nothing happens; with none, the last-element rule runs: the top of the pause stack is popped into a resume event, or with nothing paused a start of the default animation is put and always queued, and one task is counted |
| MainControl.MainController.ThreadFinished | led_matrix/animation/abstract.py:477-482 | a thread's end: its controller no longer has it alive and stops running, other controllers are untouched, and then an event is put exactly when no task was left, a start of the default animation when nothing is paused |
| MainControl.MainController.StopAnimation | led_matrix/animation/controller.py:214-233 | nothing is put with no current animation or another name; otherwise a stop event for the current animation is put, appended exactly when it duplicates no tracked event, and counted |
| MainControl.MainController.Process | led_matrix/animation/controller.py:269-297 | one turn of the run loop keeps the controller's invariant: every current or paused animation is a registered controller |
| MainControl.MainController.Dispatch | led_matrix/animation/controller.py:278-294 | dispatching an event by its type keeps the controller's invariant |
| MainControl.MainController.IsAnimationRunning | led_matrix/animation/controller.py:244-253 | false for an unknown name, otherwise whether that controller is running |
| MainControl.MainController.CurrentAnimationName | led_matrix/animation/controller.py:255-260 | "" when nothing is current, otherwise the current controller's own name |
| AnimationControl.Passes | led_matrix/animation/abstract.py:80-82 | -1 means forever and is the only value without a bound; a positive repeat gives exactly that many passes, anything else one pass |
| AnimationControl.Repeat.constructor | led_matrix/animation/abstract.py:98-99 | the countdown starts one below the repeat value |
| AnimationControl.Repeat.IsNextIteration | led_matrix/animation/abstract.py:176-188 | never another pass for repeat 0, always for -1, otherwise exactly while passes remain |
| AnimationControl.Repeat.CountDown | led_matrix/animation/abstract.py:137-141 | a finished pass lowers the remaining count by one |
| AnimationControl.Run | led_matrix/animation/abstract.py:117-155 | the run loop begins at least one pass and never more than the repeat setting allows; given enough turns it makes exactly that many passes and puts every frame of each |
| AnimationControl.Controller.constructor | led_matrix/animation/abstract.py:213-232 | a new controller has no threads, nothing paused, nothing current and is not running |
| AnimationControl.Controller.CreateAnimation | led_matrix/animation/abstract.py:382-399 | the new thread is registered under its fresh UUID, which is returned |
| AnimationControl.Controller.Start | led_matrix/animation/abstract.py:401-414 | an unknown UUID changes nothing; otherwise that thread becomes current, running and alive |
| AnimationControl.Controller.Pause | led_matrix/animation/abstract.py:416-432 | a running, alive current thread moves from the active to the paused threads, nothing stays current and its UUID is returned; otherwise nothing changes and `None` is returned |
| AnimationControl.Controller.Resume | led_matrix/animation/abstract.py:434-445 | an unknown paused UUID changes nothing; otherwise the thread moves back to the active threads, becomes current and runs |
| AnimationControl.Controller.Stop | led_matrix/animation/abstract.py:447-456 | an alive current thread is stopped, joined and unregistered and nothing is current or running; otherwise nothing changes |
| AnimationControl.Controller.Finished | led_matrix/animation/abstract.py:477-479 | a finished thread is no longer alive and the running flag is released; the on-finish callable that follows is `MainControl.MainController.ThreadFinished` |
| AnimationControl.Controller.AddDynamicVariant | led_matrix/animation/abstract.py:331-343 | the request reaches the animation's hook exactly when it accepts dynamic variants |
| AnimationControl.Controller.RemoveDynamicVariant | led_matrix/animation/abstract.py:351-370 | as written: the request reaches the hook exactly when dynamic variants are accepted and some member has the variant's name, whatever its value |
| AnimationControl.Controller.RemoveDynamicVariantMatching | led_matrix/animation/abstract.py:351-370 | as intended: the request reaches the hook exactly when dynamic variants are accepted and some member has the variant's name and value |
| AnimationControl.NameOnlyMatch | led_matrix/animation/abstract.py:362-366 | a name-and-value match is a name match, but a variant with a member's name and another path passes only the name test |
| LegacyMain.Main.constructor | main.py:222-227 | the application starts with the configured day and night brightness and nothing handed to the display |
| LegacyMain.Main.ApplyBrightness | main.py:478-495 | given values replace the stored ones; the day value is applied when the night setting is -1 or the time is between sunrise and sunset, the night value otherwise; it reaches the display only once the display exists |
| LegacyMain.SameRuleAsRewrite | main.py:484-488 | the legacy brightness choice is the rewrite's `brightness` property for the same settings and time |
| LegacyMain.AnimationController.constructor | main.py:641-654 | the legacy controller starts with no current animation and no stop event |
| LegacyMain.AnimationController.CreateStopEvent | main.py:788-811 | no event exactly when nothing is current or another animation is named; otherwise a stop event with the current animation's settings is put and returned |
| LegacyMain.AnimationController.CurrentAnimationName | main.py:827-832 | "" when idle, otherwise the name of the current animation's defaults |
| Schedule.FindJob | led_matrix/main.py:323-330 | the first entry carrying the job id, or none exactly when no entry carries it |
| Schedule.FormatSkipsPlain | main.py:420 | `%`-formatting copies a prefix without `%` unchanged and formats the rest |
| Schedule.NotFoundMessage | main.py:420 | the legacy not-found message raises ValueError for every id; with `%s` it reads `No scheduled animation with ID '<id>' found!` |
| Schedule.BadConversion | main.py:420 | `%'` is no conversion, so formatting the legacy message fails with ValueError |
| Schedule.TailAfterConversion | led_matrix/main.py:333 | `%s` is replaced by the id and the rest copied |
| Schedule.ScheduleTable.constructor | led_matrix/main.py:97-133 | the loaded table holds the saved jobs in their saved order |
| Schedule.ScheduleTable.ScheduleAnimation | led_matrix/main.py:267-294 | the entry, with the scheduler's new job id, is appended at the end and the table saved |
| Schedule.ScheduleTable.RemoveScheduledAnimation | led_matrix/main.py:312-337 | the first entry with the id is deleted and the table saved; with none, nothing changes and nothing is saved, and the legacy code (main.py:407-423) raises ValueError building its warning |
| Schedule.ScheduleTable.ModifyScheduledAnimation | led_matrix/main.py:343-387 | the first entry with the new entry's id is replaced in place and the table saved; otherwise as for removal |
| Schedule.ScheduleTable.WarnNotFound | main.py:419-420 | the not-found warning raises ValueError exactly in the legacy application |
| Schedule.RemoveKeepsOthers | led_matrix/main.py:323-330 | removing a job drops only the first entry with its id and keeps all others in order |
| HttpForms.InValues | led_matrix/server/http_server.py:31-64 | a value is offered for a cron category exactly when it lies in that category's `range` |
| HttpForms.CronRanges | led_matrix/server/http_server.py:31-64 | the offered values: seconds and minutes 0-59, hours 0-23, weekdays 0-6, weeks 1-53, days 1-31, months 1-12, years from the current year to ten years on |
| PyText.Split | led_matrix/server/http_server.py:253 | splitting on a separator always gives at least one part |
| PyText.SplitNoSep | led_matrix/server/http_server.py:253 | a text without the separator splits into itself alone |
| PyText.SplitAfterPart | led_matrix/server/http_server.py:253 | a separator-free part followed by the separator splits off as the first part |
| PyText.SplitJoin | led_matrix/server/http_server.py:253 | splitting separator-joined separator-free parts gives the parts back |
| HttpForms.NoComma | led_matrix/server/http_server.py:68 | the decimal text of a number holds no comma |
| HttpForms.IntToStringInjective | led_matrix/server/http_server.py:68 | different numbers have different decimal texts |
| HttpForms.ValidNumberValue | led_matrix/server/http_server.py:67-68 | every valid number text reads back by `int` as a value in the category's range, and is that value's own text |
| HttpForms.AcceptedValues | led_matrix/server/http_server.py:67-86 | every text the selector pattern accepts is a comma list of in-range values readable by `int`, with no value twice |
| HttpForms.Texts | led_matrix/server/http_server.py:68 | one text per value |
| HttpForms.SelectionAccepted | led_matrix/server/http_server.py:67-86 | conversely, every non-empty selection of distinct in-range values, joined by commas, is accepted by the pattern |
| HttpForms.CronValue | led_matrix/server/http_server.py:243-257 | a category is set exactly when its field is in the form and every comma part reads as an integer, and then it holds the field's text unchanged; otherwise it is `None` |
| HttpForms.CronStructure | led_matrix/server/http_server.py:242-257 | the cron structure has an entry for each of the eight categories and no other |
| HttpForms.ParseCronForm | led_matrix/server/http_server.py:242-257 | the loop over the categories builds exactly that cron structure |
| HttpForms.AcceptedSelectionKept | led_matrix/server/http_server.py:67-86 | a selection the browser's pattern accepts passes the server's check and is stored as sent |
| HttpForms.OutOfRangeSecondKept | led_matrix/server/http_server.py:252-257 | the server's check is weaker than the pattern: a second of `99`, which the pattern refuses, is stored |
| HttpForms.ParseNinetyNine | led_matrix/server/http_server.py:253 | `int("99")` is 99 |
| HttpForms.NewInput | led_matrix/server/http_server.py:102-117 | booleans become checkboxes, integers and floats number fields (step `any` only for floats, `1` otherwise), colours colour fields showing their hex text, everything else text fields showing the value |
| HttpForms.ColorInputReadsBack | led_matrix/server/http_server.py:115-117 | the hex text a colour field shows reads back as the same colour |
| HttpForms.FormInt | led_matrix/server/http_server.py:376-377 | an integer field gives its parsed value, and the default when it is missing or not an integer |
| HttpForms.FormBool | led_matrix/server/http_server.py:400 | a boolean field is set exactly when it is present and non-empty |
| HttpForms.TempByName | led_matrix/server/http_server.py:378-379 | a colour temperature is looked up by name, the current one when the field is missing; an unknown name is a KeyError |
| HttpForms.SaveMainTab | led_matrix/server/http_server.py:371-405 | the day brightness and tpm2net switch come from the form; the night brightness from the form only when the night setting is enabled, otherwise -1 with the night colour temperature kept; each saved colour temperature is the form's name when sent and the current one otherwise; it fails exactly when a looked-up colour temperature name is unknown |
| HttpForms.NightOffShowsDay | led_matrix/server/http_server.py:383-397 | with night mode switched off in the form, the saved settings give the day brightness at every time of day |
| HttpForms.PreviewBrightness | led_matrix/server/http_server.py:439-445 | the preview is applied exactly when the field holds an integer of at least 0, and with that value |
| Structures.Keys | common/structure.py:37 | the names of a parameter map, one per entry, in order |
| Structures.Get | common/structure.py:50-55 | a lookup finds a value exactly when the name is a key |
| Structures.IndexOf | common/structure.py:50-55 | the first position of a present key holds the value a lookup returns |
| Structures.Put | common/structure.py:115-116 | after `p[k] = v` the key holds `v`, every other key is unchanged, an existing key keeps its place and a new key is appended |
| Structures.PutDistinct | common/structure.py:115-116 | assigning a key never creates a duplicate key |
| Structures.DistinctTail | common/structure.py:13-37 | a map free of duplicates stays so without its first entry, which does not recur |
| Structures.UpdateAll | common/structure.py:20-27 | `update` keeps a map free of duplicates |
| Structures.UpdateAllGet | common/structure.py:20-27 | after `p.update(q)` a key has q's value when q has it and p's otherwise |
| Structures.PublicData | common/structure.py:22-27 | the members of a class body are at most its bindings |
| Structures.Names | common/structure.py:22-27 | the names a class body binds, in its order |
| Structures.DistinctCons | common/structure.py:13-37 | prefixing a key that does not occur keeps a map free of duplicates |
| Structures.PublicDataGet | common/structure.py:22-27 | a body's members are among its names without repetition, and each member has the value the body binds it to |
| Structures.MergeBases | common/structure.py:18-20 | merging base maps free of duplicates gives one free of duplicates |
| Structures.MergeBasesGet | common/structure.py:18-20 | after merging the bases a name has the value of the last base that has it |
| Structures.CollectMembers | common/structure.py:13-16 | the library's own base classes collect no members |
| Structures.MemberRule | common/structure.py:13-37 | a class's members are free of duplicates; a member of its own body has the body's value, any other name the value of the last structure base that has it |
| Structures.StructureClass.constructor | common/structure.py:35-37 | a new structure class holds the collected members and no other attributes |
| Structures.StructureClass.GetAttr | common/structure.py:53-57 | a member reads from the parameter map; any other name reads an ordinary attribute and fails when there is none |
| Structures.StructureClass.SetAttr | common/structure.py:62-69 | assigning a member on the class raises AttributeError and changes nothing; any other name is set as an ordinary attribute |
| Structures.StructureClass.DelAttr | common/structure.py:71-77 | deleting a member, or a missing attribute, raises AttributeError and changes nothing; any other attribute is removed |
| Structures.Instance.constructor | common/structure.py:96-103 | an instance starts on its own copy of the class's parameter map |
| Structures.Instance.GetAttr | common/structure.py:105-109 | a member reads from the instance's own map; any other name reads an ordinary attribute |
| Structures.Instance.SetAttr | common/structure.py:111-118 | with the read-only mixin assigning a member raises AttributeError and changes nothing; otherwise a member is written to the instance's own map and any other name is an ordinary attribute; the class's map never changes |
| Structures.InstancesAreIndependent | common/structure.py:99-101 | a write through one instance changes neither the class nor a second instance of it |
| Structures.RawValue | common/structure.py:126-132 | a raw value is never a structure, and values that are no structure are unchanged |
| Structures.RawDict | common/structure.py:126-132 | the raw dict keeps the names in order |
| Structures.RawDictValues | common/structure.py:126-132 | the raw dict keeps names and order, holds no structure, turns each structure into its own raw dict and keeps every other value |
| Structures.RawDictFlat | common/structure.py:126-132 | a map without structure values is its own raw dict |
| Structures.KindOf | common/structure.py:156-162 | the type recorded for a default is the class itself when the default is a class, else the class of the default |
| Structures.CastInt | common/structure.py:199-200 | `int()` gives an integer: an integer unchanged, a text exactly when it reads as one |
| Structures.CastStr | common/structure.py:199-200 | `str()` gives a text: a text unchanged, an integer its decimal text |
| Structures.CastBool | common/structure.py:199-200 | `bool()` gives a boolean, a boolean unchanged |
| Structures.CastDict | common/structure.py:199-200 | `dict()` gives a dict: a dict unchanged, a structure its member pairs |
| Structures.ByValue | common/structure.py:194 | the position found is the first member with that value, and none is found only when no member has it |
| Structures.CastEnum | common/structure.py:191-197 | an enumeration default yields a member of that enumeration: a member kept as is, else looked up by value first and by name second, KeyError when neither matches |
| Structures.SetValue | common/structure.py:178-181 | a member whose default is None stores any value unchanged |
| Structures.SetStruct | common/structure.py:182-189 | a structure default yields an instance of its class: an instance is kept, a dict builds one |
| Structures.SetKnown | common/structure.py:172-174 | a keyword naming no member changes nothing |
| Structures.SetValueIdempotent | common/structure.py:178-200 | storing the value a typed set produced stores it unchanged |
| Structures.ApplyKwargsKeys | common/structure.py:168-176 | keyword arguments keep the member names and their order |
| Structures.KnownKwargs | common/structure.py:173 | the keywords kept all name members |
| Structures.UnknownKwargsIgnored | common/structure.py:172-174 | keyword arguments naming no member have no effect |
| Structures.TypedInstance.constructor | common/structure.py:96-103 | a typed instance starts on the class's defaults |
| Structures.TypedInstance.Apply | common/structure.py:168-176 | the keyword loop succeeds exactly when the typed sets do and then holds their result; on failure the error is the failing set's |
| Structures.TypedInstance.SetAttr | common/structure.py:202-206 | a member goes through the typed set, storing the converted value or failing with the members unchanged; any other name becomes an ordinary attribute |
| Structures.ApplyErrorPersists | common/structure.py:172-174 | once a keyword argument fails the whole construction fails with that error |
| DisplayBuffer.ToBytes | display/abstract.py:63 | conversion to `uint8` succeeds exactly when every value is a number, and then keeps their count with each number taken modulo 256 |
| DisplayBuffer.Wrap | display/abstract.py:63 | a number stored in a byte keeps its value modulo 256 |
| DisplayBuffer.ByteOf | display/abstract.py:63 | a value from 0 to 255 becomes the byte of that value |
| DisplayBuffer.Resized | display/abstract.py:64 | resizing gives exactly the requested length: the data where it reaches, zero bytes after |
| DisplayBuffer.Display.constructor | display/abstract.py:11-19 | a new display has its size and brightness and an all-zero buffer of height × width × 3 bytes |
| DisplayBuffer.Display.SetBuffer | display/abstract.py:26-31 | an array of exactly the buffer's shape replaces the buffer; anything else leaves it unchanged |
| DisplayBuffer.Display.ClearBuffer | display/abstract.py:33-35 | clearing zeros every byte and keeps the shape |
| DisplayBuffer.Display.SetPixelAtIndex | display/abstract.py:46-52 | an index outside the pixels changes nothing; otherwise exactly the three bytes of that pixel take the colour |
| DisplayBuffer.Display.SetPixelAtCoord | display/abstract.py:54-59 | a coordinate outside the matrix changes nothing; otherwise exactly the three bytes of pixel (x, y), in row-major order, take the colour |
| DisplayBuffer.Display.SetBufferWithFlatValues | display/abstract.py:61-69 | when a value cannot be converted the buffer is unchanged; otherwise it holds the values modulo 256, cut or padded with zeros to the buffer's size |
| RibbaPiControl.NextSource | ribbapi.py:177-186 | the generator yields from the gameframes only when they are active and then stands before the BLM check, from the BLMs only when they are active and then stands before the final check, and yields nothing only from the final check, returning to the start |
| RibbaPiControl.NothingOnlyWhenInactive | ribbapi.py:180-186 | a `next` yields nothing exactly when neither gameframes nor BLMs are active, and yields from a kind only when it is active |
| RibbaPiControl.BothActiveAlternate | ribbapi.py:180-186 | with both kinds active two consecutive `next`s yield one from each kind |
| RibbaPiControl.OneActiveRepeats | ribbapi.py:180-186 | with exactly one kind active every `next` yields from it |
| RibbaPiControl.SequentialNext | ribbapi.py:194-196 | the sequential step stays inside the selection: the following entry, wrapping from the last to the first |
| RibbaPiControl.IndexAfter | ribbapi.py:189-196 | the index never falls below its start value -1 |
| RibbaPiControl.SequentialOrder | ribbapi.py:189-196 | starting from -1 the sequential generator shows entries 0, 1, …, n-1, 0, …: the k-th animation is entry k mod n |
| RibbaPiControl.RibbaPi.constructor | ribbapi.py:59-90 | a new application has gameframes and clock active, BLMs, moodlight and random play off, every installed animation selected, both indices at -1, the clock due every 600 seconds from now and nothing current or interrupted |
| RibbaPiControl.RibbaPi.DisableAnimations | ribbapi.py:113-118 | every activation flag and random play are off and nothing else changes |
| RibbaPiControl.RibbaPi.NextGameframe | ribbapi.py:188-203 | an empty selection yields nothing and keeps the index; otherwise the index moves to the drawn entry when playing at random or the next one in turn, and that folder is yielded with the gameframe repeat |
| RibbaPiControl.RibbaPi.NextBlm | ribbapi.py:205-220 | the same walk over the BLM selection with the BLM repeat |
| RibbaPiControl.RibbaPi.NextFromGenerators | ribbapi.py:177-186 | the kind `NextSource` chooses yields the entry at its drawn or next sequential index, with that kind's repeat, moving only that index; an empty selection or no active kind yields nothing |
| RibbaPiControl.RibbaPi.GetNextAnimation | ribbapi.py:248-269 | an interrupted animation comes first and is forgotten; then the clock when it is due, noting the time; then the moodlight with its mode; otherwise the generator `NextSource` chooses yields its next entry |
| RibbaPiControl.RibbaPi.StopCurrentAnimation | ribbapi.py:288-292 | a running animation is asked to stop and, when resuming is asked for, remembered as interrupted; with nothing running nothing changes |
| RibbaPiControl.RibbaPi.SetMoodlightMode | ribbapi.py:271-282 | only while a moodlight is current: modes 1, 2 and 3 pick its pattern, every other kind and random play are switched off, the moodlight stays on and a running animation is asked to stop; otherwise nothing changes |
| RibbaPiControl.MoodMode | ribbapi.py:273-278 | mode 1 is `colorwheel`, 2 `cyclecolors`, 3 `wish_down_up`, any other keeps the current pattern |
| Tpm2Net.FrameSize | led_matrix/server/tpm2_net.py:60 | the frame size is the big-endian 16-bit number in bytes 2 and 3 |
| Tpm2Net.ReadHeader | led_matrix/server/tpm2_net.py:52-67 | the header guards as written: empty data raises IndexError; short data with the start byte is ignored; data of 8 bytes or more is ignored exactly when its length disagrees with the frame size and it ends with 0x36; a read header is the packet's own; a well-formed packet is always read |
| Tpm2Net.CheckedHeader | led_matrix/server/tpm2_net.py:55-64 | the guards as their comments describe them: a header is read exactly when the packet is well formed, and never raises |
| Tpm2Net.ForeignPacketAccepted | led_matrix/server/tpm2_net.py:56-64 | as written, a packet with a wrong start byte is read, and a one-byte packet with another start byte raises; the checked reading refuses both |
| Tpm2Net.WellFormedRead | led_matrix/server/tpm2_net.py:52-67 | a well-formed packet survives `strip()` unchanged and its header is read |
| Tpm2Net.FromBuffer | led_matrix/server/tpm2_net.py:87-89 | reading the frame from offset 6 succeeds exactly when the count is the whole frame size and the data is long enough, and gives those bytes; otherwise ValueError |
| Tpm2Net.Tpm2NetServer.constructor | led_matrix/server/tpm2_net.py:24-44 | the rewrite's receiver starts at index 0, trusting the sender, with no dummy started and nothing received or shown |
| Tpm2Net.Tpm2NetServer.ProcessRequest | led_matrix/server/tpm2_net.py:46-106 | handling a request leaves the state and outcome `Process` gives |
| Tpm2Net.Tpm2NetServer.TakeData | led_matrix/server/tpm2_net.py:69-97 | a data packet leaves the state and outcome `DataStep` gives |
| Tpm2Net.Tpm2NetServer.TimedOut | led_matrix/server/tpm2_net.py:121-136 | after the timeout, with a packet received, the dummy is stopped, the timestamp cleared and the sender trusted again; otherwise nothing changes |
| Tpm2Net.OnlyDataFramesAct | led_matrix/server/tpm2_net.py:99-106 | ignored packets, commands, responses and unknown packet types change neither receiver and raise nothing |
| Tpm2Net.RewriteStep | led_matrix/server/tpm2_net.py:69-97 | a well-formed data packet starts the dummy and notes a sender counting from 0; it succeeds exactly when the index plus the frame size reaches the frame and the packet holds at least the frame minus one byte, then advancing the index and showing the frame on the last packet; otherwise it raises ValueError with the index and the shown frames unchanged |
| Tpm2Net.ProcessData | led_matrix/server/tpm2_net.py:69 | a well-formed data packet reaches the data branch |
| Tpm2Net.PacketZeroMisbehaves | led_matrix/server/tpm2_net.py:80-83 | a packet numbered 0 marks the sender misbehaving and starts the dummy; it succeeds exactly when it carries the whole frame, and is then shown exactly when it is the only packet |
| Tpm2Net.SinglePacketShown | led_matrix/server/tpm2_net.py:80-94 | a single packet carrying the whole frame is shown |
| Tpm2Net.SplitFrameRaises | led_matrix/server/tpm2_net.py:85-91 | as written, a frame split over two packets is never shown: each packet raises ValueError before the index advances |
| Tpm2Net.Put | server/tpm2_net.py:110-114 | writing into the buffer keeps its size |
| Tpm2Net.PutExact | server/tpm2_net.py:110-114 | writing exactly as many values as positions puts them there in order and keeps the rest |
| Tpm2Net.PacketValues | server/tpm2_net.py:114 | `data[6:-1]` of a well-formed packet is its payload, of the announced size |
| Tpm2Net.LegacyHandle | server/tpm2_net.py:82-125 | the legacy handler as written keeps the buffer size |
| Tpm2Net.FixedHandle | server/tpm2_net.py:105-107 | the legacy handler with packet 0 recorded as misbehaving instead of raising keeps the buffer size |
| Tpm2Net.FixedAgreesOffZero | server/tpm2_net.py:105-106 | the corrected handler differs from the written one only on packet 0 |
| Tpm2Net.LegacyTpm2NetServer.constructor | server/tpm2_net.py:10-31 | the legacy receiver starts with a black buffer of the frame size, index 0, trusting the sender |
| Tpm2Net.LegacyTpm2NetServer.Handle | server/tpm2_net.py:82-125 | handling a request leaves the state and outcome `LegacyHandle` gives and keeps the buffer size |
| Tpm2Net.LegacyTpm2NetServer.TakeData | server/tpm2_net.py:97-117 | a data packet leaves the state and outcome of the written data branch |
| Tpm2Net.LegacyTpm2NetServer.TimedOut | server/tpm2_net.py:66-73 | after the timeout, with a packet received, the dummy is stopped, the timestamp cleared and the sender trusted again; otherwise nothing changes |
| Tpm2Net.FixedStep | server/tpm2_net.py:97-117 | a well-formed data packet succeeds, notes a sender counting from 0, resets the index on the first packet, puts its payload at the index, advances the index by the frame size and shows the buffer on the last packet |
| Tpm2Net.DispatchData | server/tpm2_net.py:97 | a well-formed data packet reaches the data branch |
| Tpm2Net.LegacySinglePacketShown | server/tpm2_net.py:105-117 | one packet carrying a whole frame is shown by the legacy receiver as its payload, the same frame the rewrite shows |
| Tpm2Net.SplitFrameShown | server/tpm2_net.py:105-117 | two packets of one frame numbered from 1 are shown once, as their payloads joined |
| Tpm2Net.ZeroBasedStream | server/tpm2_net.py:105-117 | for a sender numbering from 0, as written packet 0 raises AttributeError and the frame is never shown; with packet 0 recorded the frame is shown after packet 1 |
| Tpm2Net.TwoPackets | server/tpm2_net.py:105-117 | two packets of one frame, numbered from 0 or from 1, are put side by side and shown joined |
| Tpm2Net.FirstOfTwo | server/tpm2_net.py:105-115 | the first of two packets leaves its payload at the start of the buffer and the index after it, showing nothing |
| Tpm2Net.FirstPacketStep | server/tpm2_net.py:105-115 | the first of two packets writes its payload from position 0 and shows nothing |
| Tpm2Net.SecondOfTwo | server/tpm2_net.py:110-117 | the second packet completes the buffer behind the first payload and shows the whole |
| Tpm2Net.PutPrefix | server/tpm2_net.py:110-114 | values written from the start are the buffer's new prefix |
| Tpm2Net.PutTail | server/tpm2_net.py:110-114 | values filling the buffer behind its prefix complete it |
| PyText.TrimLeft | led_matrix/animations/blm.py:110 | the leading characters dropped by `strip()` are all white space and the first one kept is not |
| PyText.TrimRight | led_matrix/animations/blm.py:110 | the trailing characters dropped by `strip()` are all white space and the last one kept is not |
| PyText.StripKeepsUnpadded | led_matrix/server/tpm2_net.py:52 | text that neither starts nor ends with white space is unchanged by `strip()` |
| PyText.SliceIndex | led_matrix/common/color.py:12-14 | a slice bound is clamped to the text: negative bounds count from the end, bounds past either end stop there |
| PyText.SliceInRange | led_matrix/common/color.py:12-14 | a slice within the text is the plain sub-sequence, of the expected length |
| PyText.DigitCharRoundTrip | led_matrix/common/color.py:21-23 | a digit written by `format(n, 'x')` reads back as the same digit |
| PyText.ZFill | led_matrix/common/color.py:21-23 | `zfill` leaves text at least as long as the width unchanged in length and pads shorter text to exactly the width |
| PyText.AfterLast | led_matrix/animations/gameframe.py:311 | the text after the last separator is a suffix without the separator, preceded by the separator when it is shorter than the whole |
| PyText.BeforeLast | led_matrix/animations/gameframe.py:326-332 | the text before the last separator, joined with the separator and the text after it, is the whole; without a separator both parts are the whole |
| PyText.LowerAscii | led_matrix/animations/gameframe.py:311 | lower-casing keeps the length, turns capital ASCII letters into small ones and keeps every other character |
| PyText.LowerAsciiKeepsLower | led_matrix/animations/gameframe.py:311 | text without capital letters is its own lower case |
| PyText.IntToStringEnds | led_matrix/animations/clock.py:156-157 | `str(x)` is never empty and neither starts nor ends with white space |
| PyText.ParseIntToString | led_matrix/server/http_server.py:68 | `int(str(x))` is x for every integer |
| PyText.ParseDigitText | led_matrix/common/color.py:12-14 | `int(s, base)` reads a plain run of digits as its value |
| PyText.ParseHexZFill | led_matrix/common/color.py:12-24 | the two-digit hex text of a number reads back by `int(…, 16)` as that number |
| CreateConfig.MergedShape | scripts/create_config.py:122-132 | the updated configuration has exactly the template's sections and, in each, exactly the template's options |
| CreateConfig.MergedValues | scripts/create_config.py:128-132 | an option keeps the old file's value when the old file has it in the same section, and the template's value otherwise |
| CreateConfig.OldOnlyDropped | scripts/create_config.py:128-132 | sections and options only the old file has are dropped |
| CreateConfig.DisjointKeepsTemplate | scripts/create_config.py:128-132 | an old file sharing no option with the template yields the template unchanged |
| CreateConfig.SelfUpdateKeepsTemplate | scripts/create_config.py:122-132 | updating a file that already equals the template writes the template again |
| CreateConfig.ConfigParser.constructor | scripts/create_config.py:123-125 | a parser that read the template holds exactly the template |
| CreateConfig.ConfigParser.HasSection | scripts/create_config.py:129 | a section is present exactly when the parser has it |
| CreateConfig.ConfigParser.HasOption | scripts/create_config.py:131 | an option is present exactly when its section is present and holds it |
| CreateConfig.ConfigParser.Set | scripts/create_config.py:132 | setting an option gives it the value and changes nothing else |
| CreateConfig.ConfigParser.UseOldValues | scripts/create_config.py:128-132 | the copy loop leaves the parser holding the template merged with the old values |
| CreateConfig.ConfigParser.UseOldSection | scripts/create_config.py:130-132 | the inner loop copies one old section's shared options, extending the merge by that section |
| CreateConfig.MergedUpToNone | scripts/create_config.py:128 | before the loop the parser holds the template |
| CreateConfig.SectionUpToNone | scripts/create_config.py:130 | before the inner loop the section is the template's |
| CreateConfig.SetKeepsUpTo | scripts/create_config.py:131-132 | copying a shared option extends the section's progress by that option |
| CreateConfig.SkipOption | scripts/create_config.py:131 | an option the template lacks is skipped without effect |
| CreateConfig.SkipSection | scripts/create_config.py:129 | a section the template lacks is skipped without effect |
| CreateConfig.SectionDone | scripts/create_config.py:130-132 | once all of a section's old options are handled the section is merged |
| CreateConfig.MergedAll | scripts/create_config.py:128-132 | once all old sections are handled the whole configuration is merged |
| CreateConfig.CreateOrUpdate | scripts/create_config.py:109-144 | a path that exists but is no file raises ValueError, and only such a path does; an existing file is rewritten as the template merged with its values; a missing file is created from the template |

## Left out

- Floating point: the gamma tables, logarithmic brightness percentages, the rewrite APA102 driver's lowering of every channel by `ceil(v/32 * offset)` when the brightness ceiling offset is positive (`Apa102.Display.Show` takes the lowered channels as its parameter), the analog clock's `cos`/`sin` hand end points (given as parameters), the moodlight colour generators and float-valued durations (modelled in integer milliseconds where needed).
- Foreign libraries: FreeType text rendering (the rendered text comes in as an image), PIL and NumPy image work beyond the reshapes and crops modelled on sequences, pygame displays, astral sun times (given as parameters), the JSON (de)serialisers, and bottle's request and form plumbing beyond `FormsDict.get` with a type.
- Threads, timers and blocking: `is_alive` is a set the model keeps, `queue.get` requires a non-empty queue, the TPM2.net timeout timers become one `TimedOut` step, and the main loops are modelled one turn at a time.
- I/O: reading and writing files, the SPI device, sockets, directory globbing (replaced by the lists or sets of names it yields), logging and the Alpine remount.
- Randomness: the random index in `ribbapi.py`'s generators is a parameter of the step.
- The order of options in a file written by `scripts/create_config.py`, its INI parsing, and the `[DEFAULT]` section's inheritance.
- `Structures.CastStr`: it models `str()` only for texts and integers; the `repr` of other objects is not modelled.
- Python `Enum` equality with booleans and integers; aliasing of shallow copies. The legacy buffer and the `Structure` maps are values that are reassigned.
- The `name` and `parent` attributes of `NestedStructure`.
- The option labels of `CRON_DICT`. `__parse_cron_form` is modelled up to the cron structure; the animation part of the form is not part of this model.
- The `ColorTemp` enumeration's colour values. The legacy colour temperatures are modelled by name; the rewrite's day/night settings keep a temperature as its number of kelvin.
- The legacy `set_next_animation` and the frame and text queues of `ribbapi.py`.
- `AnimationControl.Controller.CreateAnimation`: does not model `_validate_animation_settings` (led_matrix/animation/abstract.py:466-475), which converts the variant and builds the parameter before the animation is created; both steps can raise, and the model creates the animation from settings taken as valid.
- The legacy `display/abstract.py` test pattern and benchmark: they depend on float slicing and on timing.
- The legacy `animation/blm.py` `animate` loop: it uses attributes that the legacy base class does not define.
- `MainControl.MainController.Process`: states only that the controller's invariant is kept. The outcome of each event type is stated by the member it dispatches to.
- `MainControl.MainController.Dispatch`: states only that the controller's invariant is kept, for the same reason.
- `AnimationControl.Run`: does not model pausing inside the run loop, nor the loop ending when rendering a frame raises.
- `Structures.SetValue`: its own contract states only the `None`-default case. The other cases are stated by `CastInt`, `CastStr`, `CastBool`, `CastDict`, `CastEnum` and `SetStruct`.
- `Tpm2Net.LegacyHandle`, `Tpm2Net.FixedHandle`: their own contracts state only that the buffer keeps its size. What a packet does is stated by `FixedStep`, `FixedAgreesOffZero` and the packet-sequence lemmas.
- `TextScroll.TextAnimation.constructor`: requires a steps-per-second other than 0; the ZeroDivisionError for 0 is modelled by `TextScroll.NewTextAnimation`.
- `Structures.SetStruct`: treats every structure default as a `TypedStructure` class and keeps only an instance of exactly that class. Python's `isinstance` also keeps an instance of a subclass, and a default that is a plain `Structure` class raises TypeError when it is called with keyword arguments; neither is modelled.
- `Structures.StructureClass.constructor`: names of the class body that start with "_" or are bound to functions, properties, class methods or static methods stay ordinary class attributes in Python; the model leaves them out, so `GetAttr` refuses them.
- `ComputerAndScheduleReadBack`: reads the file as written. What the parser makes of a written text is modelled by `ConfigFile.Reread`, as far as the writer's value delimiter "," and its keywords decide it; `ConfigFile.DelimitedScheduleReadsDefault` shows that a table holding "," comes back as the default.
- `WrittenReadsBack`: reads the file as written, for the same reason; `ConfigFile.PlainWrittenReadsBack` states the round trip for the texts the parser keeps. The parser's own quoting and escaping, and its reading of texts that look like numbers, are not modelled.
- `IpAddress.Check`: parses IPv4 texts to their octets but only checks IPv6 texts. The settings keep the listen address as its text; `str(ip_address(s))` is `s` for IPv4 (`IpAddress.V4Canonical`), while an IPv6 text written back after a read may be written in its compressed form.
- `ConfigFile.MainOf`: when both the hardware name and the listen address are invalid, the source raises at the hardware name first; both raise ValueError, so the result is the same.
- `PyText.ParseInt`: accepts ASCII digits with an optional sign and single underscores between digits; the other Unicode decimal digits Python's `int()` accepts are not modelled.
- `CreateConfig.ConfigParser.UseOldValues`: does not model `ConfigParser`'s interpolation, which raises on reading an old value holding a stray "%".
- `ConfigTable.LookupVariant`: looks a variant up by name only; the JSON enumeration decoder also accepts the member's value.

## Findings

| source | as written | input that shows it | evidently intended | confidence | as-written member | corrected member |
|---|---|---|---|---|---|---|
| led_matrix/server/tpm2_net.py:56-64 | `not data_length >= 8 and data[0] == 0x9c` and `not (...) and data[-1] == 0x36` bind as `(not ...) and ...` | `00 DA 00 01 01 01 AB 36` is read as a data packet; the one-byte packet `01` raises IndexError | ignore every packet that is too short, lacks the start byte, has the wrong length or lacks the end byte | high, not executed | Tpm2Net.ForeignPacketAccepted | Tpm2Net.CheckedHeader |
| server/tpm2_net.py:53-55 | `self.server.is_misbehaving = True` assigns to a property without a setter | a data packet numbered 0 raises AttributeError; a sender numbering 0 and 1 of 2 never gets a frame shown | record that the sender counts from 0, as the rewrite does | high, not executed | Tpm2Net.ZeroBasedStream | Tpm2Net.FixedHandle |
| led_matrix/server/tpm2_net.py:85-91 | `np.frombuffer(data, count=upper, offset=6).reshape(shape)` on the current packet only | a frame split over two packets of half the frame each: both raise ValueError and nothing is shown | assemble the packets of a frame into one buffer and show it after the last, as the legacy receiver does | high, not executed | Tpm2Net.SplitFrameRaises | Tpm2Net.SplitFrameShown |
| led_matrix/display/apa102.py:166-172 | offsets `[4p, 4p+red, 4p+green, 4p+blue]` are gathered with `take` | colour type GBR: the strip receives blue, red, green | every strip receives its channels in its named order | medium, not executed | LedLayout.GatheredOrderRotationsSwapped | LedLayout.WireOffsets |
| led_matrix/display/apa102.py:261-263 | `self.__led_frame_start_array &= ...` | level 8, then level 31: the start byte stays 0xE8 | each call sets the start byte to `0xE0 \| (level & 0x1F)` | high, not executed | Apa102.BrightnessCannotRise | Apa102.Display.SetBrightnessAssigned |
| led_matrix/animations/blm.py:189-203 | the row pad pastes the frame over the full width before the columns are padded | a 2×2 frame on a 4×4 matrix raises ValueError | pad both directions, centring the frame | high, not executed | Blinkenlights.FitAsWrittenFails | Blinkenlights.Fit |
| led_matrix/animations/blm.py:48-52 | `_BlmFrame` records `is_valid = False` when its text does not convert, but `__rendered_frames` (159-164) never checks it | a frame with a character that is no digit leaves `frame` unset, and rendering it raises AttributeError instead of skipping it | skip frames that do not convert, as the legacy generator does | medium, not executed | Blinkenlights.RenderedFrameSpec | Blinkenlights.LegacyFrame |
| led_matrix/animation/event.py:106-134 | `_put` drops a duplicate, but `Queue.put` still counts it as an unfinished task | two stops of the same animation: after the first is processed nothing is queued and yet `are_tasks_remaining` stays true | count only queued items | high, not executed | AnimationEvents.DroppedStopStaysUnfinished | AnimationEvents.DroppedStopCounted |
| led_matrix/animation/abstract.py:364-365 | `v.value == v.value` compares the member with itself | a variant with a member's name but another path is removed | compare the member's value with the given variant's value | high, not executed | AnimationControl.NameOnlyMatch | AnimationControl.Controller.RemoveDynamicVariantMatching |
| animation/gameframe.py:108-109 | `nextFolder` is read with `getboolean` | `nextFolder = other_animation` raises ValueError | read the folder name, as the rewrite does | medium, not executed | Gameframe.LegacyRejectsNextFolder | Gameframe.ReadConfig |
| main.py:420 | the message `'%' found!` contains a `%` without a conversion | removing a job id that is not in the table raises ValueError while formatting the message | `No scheduled animation with ID '<id>' found!` | high, not executed | Schedule.BadConversion | Schedule.NotFoundMessage |
| common/color.py:13-21 | a single string without `#` sets no component | `Color("red").hex_value` raises AttributeError | black, as for every other unrecognised argument | low, not executed | RgbColor.LegacyPlainStringUnset | RgbColor.NewColor |
