# Digit scanner core, modelled in Dafny

This project models the core of the PEA-number scanner page `src/pages/Mobile.tsx`. A
camera stream is sampled by a repeating timer. Each tick crops a centred region of
interest from the frame, binarises it, and hands it to a text recogniser. The
recogniser's text is normalised to at most 32 digits. A reading is accepted as the
result only when the last (up to three) non-empty readings agree and the confidence is
at least 50. A single-flight flag keeps two recognitions from overlapping.

Modules, one per part of the pipeline:

- `Geometry` (`geometry.dfy`): the region of interest (`getROI`) and the size of the canvas the region is drawn into.
- `Conditioner` (`conditioner.dfy`): the binarisation loop, in place on an RGBA byte array, with its specification `Binarized`.
- `TextNormalizer` (`normalizer.dfy`): `trim`, the look-alike replacements, the digit filter and `slice(0, 32)`.
- `Stability` (`stability.dfy`): the sliding window of readings and the confirmed result with its confidence, as pure functions.
- `Scanner` (`scanner.dfy`): the class `DigitScanner`. It holds the page's flags (`streaming`, `ready`, `scanning`, the busy guard, the timer), the window and the result. Its methods are the camera and scan buttons, `stopCamera` and the recognition pass.
- `Sending` (`sending.dfy`): the choice of the value the send button posts.
- `Wrappers` (`wrappers.dfy`): `Option`.

The recognition pass is asynchronous: it awaits the recogniser. The model splits it at
that point. `BeginPass` is everything up to the call: the busy check, the region, the
canvas, binarisation, and raising the guard. `FinishPass` is what runs once the
recogniser settles: normalising, the filter update, and lowering the guard. A tick that
arrives in between is a `BeginPass` while the guard is up. The recogniser's answer is a
parameter (`Recognition`): a text and a confidence (either may be missing), or a throw.

Points where the code's behaviour is easy to misread:

- The code confirms a reading as soon as the window agrees, even when it holds fewer than three entries. The very first non-empty reading with confidence of at least 50 is confirmed on its own (`Stability.FirstReadConfirms`).
- `stopCamera` does not clear the busy guard. A pass in flight still completes and may still update the result.
- There is no polarity-inversion option and no prefix extraction. Only one field is tracked.
- The confidence gate is always on, at 50, applied to the confidence rounded to one decimal.

## Model

| member | source | states |
|---|---|---|
| `Geometry.GetROI` | src/pages/Mobile.tsx:98-108 | no region exactly when there is no video or its width or height is 0; otherwise the region lies inside the frame |
| `Geometry.ROIShape` | src/pages/Mobile.tsx:103-107 | the region is centred (right/bottom margin equals the left/top one or exceeds it by 1), starts inside the frame, is floor(0.7·width) by floor(0.25·height), and has positive width iff width ≥ 2 and positive height iff height ≥ 4 |
| `Geometry.CanvasSize` | src/pages/Mobile.tsx:117-118 | the canvas is at most 640 wide and no larger than the region, has pixels across iff the region does, equals the region when the region is at most 640 wide, and is exactly 640 wide for a wider region |
| `Geometry.ScaledHeight` | src/pages/Mobile.tsx:118 | the scaled canvas height never exceeds the region's height and equals it when the width is unchanged |
| `Geometry.CanvasAspect` | src/pages/Mobile.tsx:117-118 | the canvas keeps the region's aspect ratio up to truncation of the height |
| `Geometry.CanvasNonEmpty` | src/pages/Mobile.tsx:103-118 | a canvas with pixels needs a frame of at least 2 by 4; for frames up to 915 wide that is also enough |
| `Geometry.WideShallowFrameHasEmptyCanvas` | src/pages/Mobile.tsx:103-118 | a 1280 by 4 frame gives a region 896 by 1 and a canvas 640 by 0, which the later read-back rejects |
| `Conditioner.Level` | src/pages/Mobile.tsx:127-129 | a pixel's level is 0 or 255 |
| `Conditioner.LevelIsSumThreshold` | src/pages/Mobile.tsx:127-129 | a pixel turns white exactly when r+g+b ≥ 468 (the stretched mean exceeds 160) |
| `Conditioner.Binarized` | src/pages/Mobile.tsx:126-131 | binarising keeps the buffer's length |
| `Conditioner.BinarizedAppend` | src/pages/Mobile.tsx:126-131 | binarisation works pixel by pixel: it distributes over concatenation |
| `Conditioner.BinarizedAt` | src/pages/Mobile.tsx:126-131 | byte j of output pixel p is the input's alpha byte (j = 3) or else the level of input pixel p |
| `Conditioner.BinarizedPixels` | src/pages/Mobile.tsx:125-131 | each output pixel has three equal colour bytes in {0, 255}, white iff the stretched grey exceeds 160 iff r+g+b ≥ 468, and keeps its alpha byte |
| `Conditioner.LevelOfLevel` | src/pages/Mobile.tsx:127-129 | a grey pixel that is already black or white keeps its level |
| `Conditioner.BinarizedByteFixed` | src/pages/Mobile.tsx:126-131 | a pixel whose colour bytes are equal and black or white is left unchanged by binarising |
| `Conditioner.BinarizedIdempotent` | src/pages/Mobile.tsx:126-131 | binarising a binarised buffer yields the same buffer |
| `Conditioner.SetPixel` | src/pages/Mobile.tsx:127-130 | the three colour bytes of one pixel become its level; every other byte, the alpha byte included, is kept |
| `Conditioner.BinarizeInPlace` | src/pages/Mobile.tsx:124-131 | the in-place loop leaves the array equal to `Binarized` of its old contents |
| `TextNormalizer.TrimStart` | src/pages/Mobile.tsx:137 | the result is no longer than the text and does not start with white space |
| `TextNormalizer.TrimStartCuts` | src/pages/Mobile.tsx:137 | the result is a suffix of the text and what was cut off is white space |
| `TextNormalizer.TrimEnd` | src/pages/Mobile.tsx:137 | the result is no longer than the text and does not end with white space |
| `TextNormalizer.TrimEndCuts` | src/pages/Mobile.tsx:137 | the result is a prefix of the text and what was cut off is white space |
| `TextNormalizer.Trim` | src/pages/Mobile.tsx:137 | the result is no longer than the text and neither starts nor ends with white space |
| `TextNormalizer.TrimSplit` | src/pages/Mobile.tsx:137 | the trimmed text is a stretch of the text with only white space before and after it |
| `TextNormalizer.TrimIdempotent` | src/pages/Mobile.tsx:137 | trimming twice is trimming once |
| `TextNormalizer.TrimEmpty` | src/pages/Mobile.tsx:137 | a text trims to empty iff it is all white space |
| `TextNormalizer.ReplaceAll` | src/pages/Mobile.tsx:140 | the same length, with each target character replaced and every other character kept |
| `TextNormalizer.KeepDigits` | src/pages/Mobile.tsx:141 | only ASCII digits remain, and no more characters than the input had |
| `TextNormalizer.Slice` | src/pages/Mobile.tsx:141 | a prefix of at most n characters, the whole text when it is short enough |
| `TextNormalizer.ReadDigits` | src/pages/Mobile.tsx:137-141 | the reading is a digit string of at most 32 characters |
| `TextNormalizer.DigitsOfAppend` | src/pages/Mobile.tsx:140-141 | the reference digits of a concatenation are the concatenation of the reference digits |
| `TextNormalizer.DigitsOfSpace` | src/pages/Mobile.tsx:137-141 | white space stands for no digit |
| `TextNormalizer.DigitsOfTrimStart` | src/pages/Mobile.tsx:137-141 | trimming the start never changes which digits are read |
| `TextNormalizer.DigitsOfTrimEnd` | src/pages/Mobile.tsx:137-141 | trimming the end never changes which digits are read |
| `TextNormalizer.DigitsOfTrim` | src/pages/Mobile.tsx:137-141 | trimming never changes which digits are read |
| `TextNormalizer.SubstituteThenFilter` | src/pages/Mobile.tsx:140-141 | the two replacements followed by the filter give the in-order digits and look-alikes (O→0; I, l, \|→1) of the text |
| `TextNormalizer.ReadDigitsIsReference` | src/pages/Mobile.tsx:137-141 | the reading is the first 32 reference digits of the raw text |
| `TextNormalizer.DigitsOfDigitString` | src/pages/Mobile.tsx:141 | a digit string stands for itself |
| `TextNormalizer.ReadDigitsOfDigits` | src/pages/Mobile.tsx:141 | a digit text reads as its first 32 digits |
| `TextNormalizer.ReadDigitsIdempotent` | src/pages/Mobile.tsx:137-141 | normalising a reading again changes nothing |
| `TextNormalizer.DigitsOfEmpty` | src/pages/Mobile.tsx:140-141 | no reference digits iff the text has no digit and no look-alike |
| `TextNormalizer.ReadDigitsEmpty` | src/pages/Mobile.tsx:137-143 | the reading is empty (and the filter skipped) iff the raw text holds no digit and no look-alike letter |
| `TextNormalizer.ReadDigitsLookAlikes` | src/pages/Mobile.tsx:140-141 | "O1l23" reads as "01123" |
| `TextNormalizer.ReadDigitsStray` | src/pages/Mobile.tsx:137-141 | " 4I\|x5\n" reads as "4115" |
| `Stability.RoundConfidence` | src/pages/Mobile.tsx:148 | the rounded confidence is a whole number of tenths within 0.05 of the raw one (half rounded up), so it is `Math.round(10c)/10` |
| `Stability.RoundedGate` | src/pages/Mobile.tsx:148-150 | the rounded confidence passes the gate of 50 iff the raw confidence is at least 49.95 |
| `Stability.LastN` | src/pages/Mobile.tsx:144-145 | the last min(n, length) elements |
| `Stability.Slide` | src/pages/Mobile.tsx:144-145 | push then shift keeps the last three entries of the window plus the new reading |
| `Stability.Observe` | src/pages/Mobile.tsx:143-153 | an empty reading changes nothing; the filter's invariant (bounded window of non-empty readings, a confirmed result exactly when a confidence of at least 50 is recorded) is preserved |
| `Stability.SlideShape` | src/pages/Mobile.tsx:144-145 | after a slide the new reading is last, preceded by the old window with its oldest entry dropped exactly when it was full |
| `Stability.SlideDrawsFrom` | src/pages/Mobile.tsx:144-145 | every entry after a slide was in the window or is the new reading |
| `Stability.ObserveDrawsFrom` | src/pages/Mobile.tsx:143-153 | every reading held after an observation was held before or is the observed one |
| `Stability.ConfirmationRule` | src/pages/Mobile.tsx:143-153 | a non-empty reading becomes the newest of the last three; it is confirmed with its confidence iff every window entry equals it and the confidence is at least 50, otherwise the previous result and confidence persist |
| `Stability.AgreementLooksBackTwo` | src/pages/Mobile.tsx:144-147 | the window agrees after a reading iff the up to two newest entries already there equal it |
| `Stability.LastNOfLastN` | src/pages/Mobile.tsx:144-145 | cutting to the last n before appending does not change the last n after appending |
| `Stability.WindowIsRecentReadings` | src/pages/Mobile.tsx:143-145 | after any sequence of readings the window is the last three non-empty readings, in order |
| `Stability.ResultComesFromReads` | src/pages/Mobile.tsx:147-153 | the result and confidence after any sequence of readings are the initial ones or those of one of the readings, whose confidence passed the gate |
| `Stability.SlideEnds` | src/pages/Mobile.tsx:144-145 | after a slide the window ends with the new reading, preceded by the previous newest entry |
| `Stability.SlideAfterTwoAgreeing` | src/pages/Mobile.tsx:144-147 | a window ending in two copies of a reading slides to three copies of it |
| `Stability.ThreeAgreeingReadsConfirm` | src/pages/Mobile.tsx:143-153 | three consecutive equal non-empty readings with confidence ≥ 50 confirm that reading from any state |
| `Stability.FirstReadConfirms` | src/pages/Mobile.tsx:143-153 | the first non-empty reading confirms on its own with a one-entry window |
| `Stability.DivergentReadKeepsResult` | src/pages/Mobile.tsx:143-153 | after "123", "123", "124" the result stays "123" |
| `Stability.EmptyReadIsSkipped` | src/pages/Mobile.tsx:143-153 | after "123", "", "123", "123" the window is three "123"s and "123" is confirmed |
| `Stability.ConfidenceGate` | src/pages/Mobile.tsx:148-153 | three "77"s at confidence 40 confirm nothing; at 60 they confirm "77" |
| `Scanner.CanvasOf` | src/pages/Mobile.tsx:115-118 | a pass has a canvas exactly when it has a region of interest |
| `Scanner.DigitScanner.constructor` | src/pages/Mobile.tsx:17-29 | all flags off, empty window, empty result, no confidence, no alert |
| `Scanner.DigitScanner.WorkerLoaded` | src/pages/Mobile.tsx:40-56 | a loaded recogniser sets `ready`; a failed load shows the recogniser alert |
| `Scanner.DigitScanner.StopCamera` | src/pages/Mobile.tsx:79-87 | afterwards scanning, the timer and streaming are all off whatever they were, so a second call changes nothing; the guard, window and result are not touched |
| `Scanner.DigitScanner.ToggleCamera` | src/pages/Mobile.tsx:62-77 | a running camera is stopped; otherwise a granted stream turns streaming on and a refused one shows the camera alert |
| `Scanner.DigitScanner.ToggleScan` | src/pages/Mobile.tsx:162-173 | nothing changes unless streaming and ready; otherwise scanning flips and the timer is installed exactly when scanning |
| `Scanner.DigitScanner.BeginPass` | src/pages/Mobile.tsx:111-135 | a pass starts iff the guard is down, the recogniser is ready and the canvas has pixels; then the canvas buffer is binarised and the guard raised; otherwise the guard and buffer are unchanged (skipped while busy, with no recogniser or no region; aborted on an empty canvas) |
| `Scanner.ObserveHoldsReadings` | src/pages/Mobile.tsx:137-153 | a consistent filter whose window and result are digit strings of at most 32 digits stays one after any observation of such a reading |
| `Scanner.DigitScanner.PushReading` | src/pages/Mobile.tsx:144-145 | `push` followed by `shift` beyond three entries leaves the window equal to `Slide` of the old one |
| `Scanner.DigitScanner.ObserveReading` | src/pages/Mobile.tsx:143-154 | the window, result and confidence become `Observe` of the old ones with the rounded confidence, keeping the invariant |
| `Scanner.DigitScanner.FinishPass` | src/pages/Mobile.tsx:134-159 | the guard is lowered; a throw leaves window and result untouched; a result feeds its normalised text and rounded confidence (missing text as "", missing confidence as 0) to the filter |
| `Scanner.DigitScanner.RunPass` | src/pages/Mobile.tsx:111-160 | a pass reaches the recogniser exactly when the guard is down, the recogniser is ready and the canvas has pixels; such a pass ends with the buffer binarised and the guard down; any other pass changes neither the guard, the filter nor the canvas buffer |
| `Sending.SelectAsWritten` | src/pages/Mobile.tsx:185-187 | the page picks the forced value, else the test field, else (when that is empty) the result; it sends that value trimmed, or nothing exactly when it is all white space; a sent value is non-empty and already trimmed |
| `Sending.BlankTestFieldHidesResult` | src/pages/Mobile.tsx:186-187 | with a non-empty all-white-space test field nothing is sent, whatever the result |
| `Sending.Select` | src/pages/Mobile.tsx:186-187 | a forced or test value that is not blank is sent, trimmed; nothing is sent exactly when both it and the result are blank; a sent value is non-empty and already trimmed |
| `Sending.SelectKeepsResult` | src/pages/Mobile.tsx:186-187 | with a non-blank result something is always sent, and it is the result when the chosen value is blank |
| `Sending.SelectAgreesOutsideBlank` | src/pages/Mobile.tsx:186 | the corrected selection equals the page's except for a chosen value of white space alone |

## Left out

- Camera and browser input/output are not modelled: `getUserMedia`, video playback, releasing the tracks, `drawImage`, `getImageData`/`putImageData`, the clipboard, and the `fetch` to the spreadsheet script. The stream's success is a parameter of `ToggleCamera`. The frame size is a parameter of the pass. The canvas's RGBA buffer is an array handed to `BeginPass`, with its pixel contents unconstrained.
- The recogniser's lifecycle is not modelled: `createWorker`, `setParameters` (whitelist `0123456789OIl|`, single-line mode), `terminate`, the unmount `cancelled` flag and the unmount cleanup. Its answer to `recognize` is the parameter `outcome`. `ready` stands for the worker being present.
- The video element, the canvas element and the 2D context are taken to exist. The early returns for their absence (lines 69, 113-114, 119) are not modelled, except for a missing video, which yields no region.
- Floating point is not modelled. `Math.floor(v * 0.7)` is `v * 7 / 10`. In doubles the two differ for some widths: 720 * 0.7 is 503.99999999999994, so a 720-wide frame gets a 503-wide region on the page and a 504-wide one in `Geometry.GetROI`. The same happens, for example, for widths 90, 170, 180, 330 to 360, 650 to 730, 1290 to 1460, 2570 to 2920 and 5130 to 5850, in steps of 10. The contrast factor 1.15 and `Math.round(c * 10) / 10` are exact on reals. A scaled canvas height is truncated toward zero, and 0/0 is taken as 0.
- The timer's 500 ms period and React's scheduling are not modelled. This covers batched state updates, closures over stale state, and the side effect inside the `setScanning` updater. The timer is a flag installed exactly while scanning.
- Strings are sequences of Unicode code points rather than UTF-16 code units. This can only matter for trimming or slicing text outside the Basic Multilingual Plane. Such characters never survive the digit filter, so readings are unaffected.
- The alert texts are the `Alert` values, not their strings.
- The test-field button that sets the result directly (line 264) is not modelled. Neither is editing the test field; its content is a parameter of `Sending.Select`. That button stores any typed text, trimmed, as the result and leaves the confidence as it was. So `Scanner.DigitScanner.Valid` (a result of at most 32 digits, empty exactly when no confidence is recorded) holds only for the states the scanner reaches on its own.
- The overlay, the modal, routing (`src/App.tsx`, `src/pages/Modal.tsx`), `src/pages/Sheet.tsx` and `backend/server.js` are not modelled. They are presentation and network glue.

## Findings

| source | as written | input that shows it | evidently intended | confidence | as-written member | corrected member |
|---|---|---|---|---|---|---|
| src/pages/Mobile.tsx:186 | `((forceValue ?? testPea) \|\| result).trim()` picks the test field whenever it is non-empty, then trims it | test field `" "`, result `"123"`, main send button: nothing is sent and the page reports that there is no number | a blank test field falls back to the confirmed result, as the test-field buttons at lines 265 and 270 already treat `testPea.trim()` as empty | medium, not executed | `Sending.BlankTestFieldHidesResult` | `Sending.SelectKeepsResult` |
