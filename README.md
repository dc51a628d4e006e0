# Virtual try-on core, modelled in Dafny

This project models the deterministic core of a virtual try-on shop. A
shopper's photo and a catalogue product become one preview image, along one
of two paths:

- **Local pipeline** (`src/lib/tryOnEngine.ts`, module `TryOnEngine` and
  module `BackgroundRemoval`):
  - default overlay rectangles for watches and clothing;
  - the eyewear rectangle derived from the eye landmarks of a detected face;
  - the chroma-key pass `removeBackground`. It averages the four corner
    pixels of a product image into a background colour. It then lowers each
    pixel's alpha byte, in place, by its colour distance to that colour.
- **Remote handler** (`supabase/functions/virtual-try-on/index.ts`, module
  `VirtualTryOn`):
  - request admission: CORS preflight, required fields, API key, and the
    data-URL pattern of the user image (a restricted form of the `data:`
    URL of RFC 2397, section 3);
  - the category prompt;
  - the retry loop on HTTP 429 (Too Many Requests, RFC 6585 section 4),
    with exponential backoff;
  - how the last upstream outcome becomes the response: rate limited,
    access denied, a thrown error caught as 429 or 500, or the result image.
- **Image downscale** (`src/lib/imageUtils.ts`, module `ImageUtils`): the
  target size computed by `compressImage`.
- **Catalogue** (`src/lib/products.ts`, module `Products`): the 14-entry
  product list, `getProductById` and `getProductsByCategory`.

Module `Common` holds `Option`, `Result` and `Round`, which is JavaScript's
`Math.round` on exact reals.

Modelling choices:

- `removeBackground` works on the canvas's RGBA bytes as an `array<Byte>`.
  `RemoveBackground` is a method that runs the source's two loops, the
  corner loop `SampleCorners` and the pixel loop `KeyPixels`. It is proved
  against the specification function `StripBackground`.
- The source's distance tests `sqrt(d2) < 60` and `sqrt(d2) < 90` are
  decided exactly on the integer squared distance: `d2 < 3600` and
  `d2 < 8100`.
- The feathered alpha `Math.round(255 * (d - 60) / 30)` is computed exactly
  on integers by `FeatherAlpha`. `FeatherAlphaIsRoundedRamp` proves it
  equal to the real formula for every real `d >= 0` with `d * d == d2`. No
  square-root function is postulated.
- The retry loop of the handler is the method `FetchWithRetry`. It is
  proved equal to the recursive specification `RetryFrom`, whose shape is
  proved by `RetryShape`.
- `fetch` is an oracle `upstream: nat -> FetchOutcome`. It maps each
  0-based attempt to the reply (status, body text, JSON reading) or to the
  network error of that call.
- The `setTimeout` waits are recorded as a list of delays in milliseconds.
- The API key from the environment is a parameter, `apiKey: Option<string>`.
- `Math.hypot` and `Math.atan2` are function parameters of the eyewear
  computation. The face detector's result is an input:
  `Option<EyeLandmarks>`, with `None` when no face was found.

## Model

| member | source | states |
|---|---|---|
| Common.Round | src/lib/imageUtils.ts:18-19 | `Math.round` gives the integer within half a unit of x, rounding halves up |
| TryOnEngine.DefaultOverlayPosition | src/lib/tryOnEngine.ts:79-104 | Watch: corner at (0.15 w, 0.55 h), a square of side 0.3 min(w, h). Clothing: 1.2 x 1.5 times that size, horizontally centred (x + width/2 = w/2), top at 0.3 h. Both have angle 0 |
| TryOnEngine.DefaultOverlayHasPositiveSize | src/lib/tryOnEngine.ts:84-103 | for positive image sides, both default rectangles have positive width and height |
| TryOnEngine.WatchPlacementExample | src/lib/tryOnEngine.ts:84-93 | a 1000x800 photo puts the watch at (150, 440) with side 240 |
| TryOnEngine.SumBetween | src/lib/tryOnEngine.ts:42-47 | the `reduce` sum of n values in [lo, hi] lies in [n lo, n hi] |
| TryOnEngine.Mean | src/lib/tryOnEngine.ts:42-47 | the mean of a non-empty list lies between its least and its greatest value |
| TryOnEngine.EyeCentre | src/lib/tryOnEngine.ts:41-48 | each coordinate of an eye centre is the `reduce` sum of that coordinate over the eye's landmarks divided by their number |
| TryOnEngine.EyeCentreWithinLandmarks | src/lib/tryOnEngine.ts:41-48 | each coordinate of an eye centre lies between the least and the greatest of that coordinate over the eye's landmarks |
| TryOnEngine.EyewearRectangle | src/lib/tryOnEngine.ts:50-71 | width is 2.4 eye distances and height 0.45 of the width; the rectangle is centred on the midpoint of the eye centres; its angle is atan2 of the eye offset |
| TryOnEngine.EyewearPosition | src/lib/tryOnEngine.ts:30-72 | no rectangle exactly when no face was detected; otherwise the rectangle for the centres of the two eyes |
| TryOnEngine.EyewearHasPositiveSize | src/lib/tryOnEngine.ts:50-62 | distinct eye centres give a rectangle of positive width and height, given that hypot is positive off the origin |
| TryOnEngine.EyewearExample | src/lib/tryOnEngine.ts:40-72 | eyes at (100, 200) and (160, 200) give the rectangle (58, 167.6, 144, 64.8) |
| BackgroundRemoval.SamplePositions | src/lib/tryOnEngine.ts:123-128 | four sample offsets: top-left, top-right, bottom-left and bottom-right pixel |
| BackgroundRemoval.CornerSums | src/lib/tryOnEngine.ts:130-138 | the accumulation counts at most one sample per offset; it counts none exactly when no offset passes the bounds guard, and all of them exactly when every offset does |
| BackgroundRemoval.SampleCorners | src/lib/tryOnEngine.ts:130-138 | the corner loop leaves the buffer alone and yields the sums and count of the in-bounds samples |
| BackgroundRemoval.BackgroundColour | src/lib/tryOnEngine.ts:139-141 | no background colour exactly when no sample was counted (which for a w x h buffer happens only with a side of 0, rejected earlier by `StripBackground`); otherwise each channel is within half a unit of that channel's mean over the samples |
| BackgroundRemoval.RoundedMean | src/lib/tryOnEngine.ts:139-141 | `Math.round(sum / count)` is within half a unit of the mean sum / count |
| BackgroundRemoval.RoundedMeanOfFour | src/lib/tryOnEngine.ts:139-141 | `Math.round(sum / 4)` equals the integer formula (sum + 2) div 4 |
| BackgroundRemoval.CornerSumsOfFour | src/lib/tryOnEngine.ts:130-138 | four in-bounds offsets contribute all their colour bytes and a count of 4 |
| BackgroundRemoval.BackgroundIsCornerMean | src/lib/tryOnEngine.ts:123-141 | for w, h >= 1 every corner is a whole in-bounds pixel, and the background colour is the rounded mean of the four corner colours |
| BackgroundRemoval.CornersAreWholePixels | src/lib/tryOnEngine.ts:123-132 | for w, h >= 1 the four sample offsets start whole pixels inside the buffer |
| BackgroundRemoval.MeanOfCorners | src/lib/tryOnEngine.ts:130-141 | four whole in-bounds pixels give the channel-wise rounded mean of their colours |
| BackgroundRemoval.SquareIsProduct | src/lib/tryOnEngine.ts:148-150 | the recursive square used for `** 2` equals x * x |
| BackgroundRemoval.SquareIncreasing | src/lib/tryOnEngine.ts:148-150 | squaring is strictly increasing on non-negative integers |
| BackgroundRemoval.Distance2 | src/lib/tryOnEngine.ts:147-150 | the squared distance is 0 exactly when the pixel has the background colour |
| BackgroundRemoval.FeatherAlpha | src/lib/tryOnEngine.ts:154-157 | for 3600 <= d2 < 8100 the feather a satisfies (2a + 1019)^2 <= 289 d2 < (2a + 1021)^2 |
| BackgroundRemoval.FeatherAlphaIsRoundedRamp | src/lib/tryOnEngine.ts:156-157 | the integer feather equals `Math.round(255 * (d - 60) / 30)` for the true distance d |
| BackgroundRemoval.FeatherAlphaMonotone | src/lib/tryOnEngine.ts:154-157 | a larger distance never feathers to a smaller alpha |
| BackgroundRemoval.KeyedAlpha | src/lib/tryOnEngine.ts:147-158 | a pixel's new alpha never exceeds its old alpha |
| BackgroundRemoval.AlphaForDistance2 | src/lib/tryOnEngine.ts:152-158 | the alpha rule on the squared distance never raises alpha |
| BackgroundRemoval.KeyedAlphaByDistance | src/lib/tryOnEngine.ts:143-158 | for the true distance d: alpha 0 below 60; min(old, rounded ramp) in [60, 90); unchanged from 90 on |
| BackgroundRemoval.AlphaByDistance | src/lib/tryOnEngine.ts:143-158 | the same three-way rule, for any squared distance and its root |
| BackgroundRemoval.KeyedByte | src/lib/tryOnEngine.ts:146-158 | a byte at a colour offset (not 3 mod 4) is left as it was, and no byte is raised |
| BackgroundRemoval.KeyAll | src/lib/tryOnEngine.ts:146-159 | keying keeps the length and every colour byte, and raises no byte |
| BackgroundRemoval.StripBackground | src/lib/tryOnEngine.ts:110-159 | fails with `IndexSizeError` exactly when a side is 0 (`getImageData` on an empty canvas); otherwise the keyed buffer, as long as the input |
| BackgroundRemoval.RemoveBackground | src/lib/tryOnEngine.ts:110-159 | reports the throw exactly when `StripBackground` fails, leaving the buffer alone; otherwise the corner loop and the pixel loop turn the buffer in place into `StripBackground` of its old contents |
| BackgroundRemoval.KeyPixels | src/lib/tryOnEngine.ts:146-159 | the pixel loop turns the buffer in place into `KeyAll` of its old contents against the background colour |
| BackgroundRemoval.KeyStep | src/lib/tryOnEngine.ts:146-159 | one round of the pixel loop extends the keyed prefix by one pixel and leaves the rest as the input |
| BackgroundRemoval.KeyPixel | src/lib/tryOnEngine.ts:147-158 | one pass of the pixel loop writes the keyed alpha at offset i + 3 and changes no other byte |
| BackgroundRemoval.KeyedPixel | src/lib/tryOnEngine.ts:146-159 | in the keyed buffer, a pixel keeps its colour bytes and its alpha byte is the keyed alpha |
| BackgroundRemoval.SolidColourBecomesTransparent | src/lib/tryOnEngine.ts:123-159 | an image of one solid colour ends with every alpha byte 0 |
| BackgroundRemoval.SolidBackground | src/lib/tryOnEngine.ts:123-141 | the background colour of a solid image is its colour |
| BackgroundRemoval.SolidKeysTransparent | src/lib/tryOnEngine.ts:146-153 | keying a solid image against its own colour clears every alpha byte |
| BackgroundRemoval.SolidPixelTransparent | src/lib/tryOnEngine.ts:147-153 | each pixel of a solid image is at distance 0 from its colour and keys to alpha 0 |
| BackgroundRemoval.ForegroundKeepsAlpha | src/lib/tryOnEngine.ts:152-158 | a pixel at squared distance >= 90 * 90 from the background keeps its alpha |
| ImageUtils.ScaleRatio | src/lib/imageUtils.ts:17 | `min(max / width, max / height)` is max over the longer side; a side of 0 never wins the minimum |
| ImageUtils.ScaleSide | src/lib/imageUtils.ts:18-19 | a scaled side is rounded to within half a pixel |
| ImageUtils.TargetDimensions | src/lib/imageUtils.ts:13-20 | a fitting image keeps its size; otherwise each side is its product with max / longer side, rounded |
| ImageUtils.DefaultTargetDimensions | src/lib/imageUtils.ts:5-8 | with the default bound of 768, an image within it keeps its size |
| ImageUtils.ScaledSideBound | src/lib/imageUtils.ts:16-19 | a side scaled by max / longer and rounded does not exceed max nor grow, and the longer side becomes max exactly |
| ImageUtils.DownscaleBounds | src/lib/imageUtils.ts:16-20 | after scaling, the longer side is exactly maxDimension, neither side exceeds it, and no side grows |
| ImageUtils.ThinImageCollapses | src/lib/imageUtils.ts:16-19 | a 10000x1 image at the default bound gets target size 768x0 |
| ImageUtils.ClampedTargetDimensions | src/lib/imageUtils.ts:16-20 | corrected size: a side of at least one pixel stays at least one pixel, no side grows, and a scaled side stays within the bound |
| Products.FindById | src/lib/products.ts:211-213 | `find` gives the first entry with the id, or nothing exactly when no entry has it |
| Products.GetProductById | src/lib/products.ts:211-213 | the result is a catalogue entry with the asked id, and is absent exactly when no entry has that id |
| Products.FindOwnId | src/lib/products.ts:211-213 | with distinct ids, looking up an entry's own id returns that entry |
| Products.CatalogueIdsDistinct | src/lib/products.ts:31-209 | no two catalogue entries share an id |
| Products.GetProductByOwnId | src/lib/products.ts:211-213 | every catalogue entry is found by its own id |
| Products.FilterByCategory | src/lib/products.ts:217 | the entries of that category and no others, as an order-preserving subsequence |
| Products.GetProductsByCategory | src/lib/products.ts:215-218 | "all" gives the whole catalogue; any other string gives exactly its category's entries, in catalogue order |
| Products.CategoriesPartition | src/lib/products.ts:215-218 | the three category lists' lengths add up to the length of the input |
| Products.OwnCategoryKeepsAll | src/lib/products.ts:217 | each entry occurs in its own category's list as often as in the input |
| Products.UnknownCategoryIsEmpty | src/lib/products.ts:215-218 | a string that is neither "all" nor a category name lists nothing |
| Products.CatalogueEntries | src/lib/products.ts:31-209 | the catalogue has 14 entries; each is available for try-on, costs more than 0, and is marked down from its original price where it shows one |
| Products.CatalogueByCategory | src/lib/products.ts:215-218 | the three category lists split the catalogue, and every entry is listed under its own category |
| VirtualTryOn.SelectTemplate | supabase/functions/virtual-try-on/index.ts:10-17 | "eyewear", "watch" and "clothing" each select their own template, and only that string selects it; any other string gets the generic one |
| VirtualTryOn.Render | supabase/functions/virtual-try-on/index.ts:11-17 | the product name appears verbatim right after the template's opening words |
| VirtualTryOn.BuildTryOnPrompt | supabase/functions/virtual-try-on/index.ts:9-18 | "eyewear" and "watch" get their own opening, the product name, their own body and the closing instruction to keep the person unchanged; "clothing" gets its opening, the name and its body with no such closing; any other category gets the generic opening, the name, the generic body and the closing |
| VirtualTryOn.RenderSignature | supabase/functions/virtual-try-on/index.ts:11-17 | the characters near the end of a prompt identify its template |
| VirtualTryOn.RenderInjective | supabase/functions/virtual-try-on/index.ts:9-18 | a prompt determines both its template and the product name |
| VirtualTryOn.PromptDeterminesProduct | supabase/functions/virtual-try-on/index.ts:9-18 | two requests get the same prompt only with the same product name and a category selecting the same template |
| VirtualTryOn.WordRun | supabase/functions/virtual-try-on/index.ts:48 | the greedy `\w+` run: all word characters, followed by a non-word character or the end |
| VirtualTryOn.ParseDataUrl | supabase/functions/virtual-try-on/index.ts:48-56 | a match yields an `image/\w+` mime type and a payload without line terminators, and the input is their data URL |
| VirtualTryOn.SplitDataUrl | supabase/functions/virtual-try-on/index.ts:48 | a string with the pattern's prefix, word run and `;base64,` is the data URL of its two captures |
| VirtualTryOn.ParseDataUrlComplete | supabase/functions/virtual-try-on/index.ts:48-56 | every well-formed (mime, data) pair is recovered from its data URL |
| VirtualTryOn.DataUrlParts | supabase/functions/virtual-try-on/index.ts:48 | where the prefix, the subtype's word run, `;base64,` and the payload sit in a data URL |
| VirtualTryOn.WordRunOfWord | supabase/functions/virtual-try-on/index.ts:48 | the word run of a word followed by a non-word character is that word |
| VirtualTryOn.ParseDataUrlExact | supabase/functions/virtual-try-on/index.ts:48-56 | a string matches exactly when it is the data URL of a well-formed pair |
| VirtualTryOn.CaughtResponse | supabase/functions/virtual-try-on/index.ts:137-147 | a caught error answers 429 exactly when its message contains "429" or "quota", else 500, with the message as the error |
| VirtualTryOn.SkipPrefix | supabase/functions/virtual-try-on/index.ts:141 | a prefix without the first letter of a word cannot start an occurrence of it |
| VirtualTryOn.ExtractionErrorsAre500 | supabase/functions/virtual-try-on/index.ts:115-147 | each of the three extraction errors is answered 500 with its message |
| VirtualTryOn.FreeOfStatusWords | supabase/functions/virtual-try-on/index.ts:141 | a message with no '4' and no 'q' is answered 500 |
| VirtualTryOn.BackoffDelay | supabase/functions/virtual-try-on/index.ts:83 | every wait is at least 2000 ms |
| VirtualTryOn.BackoffSchedule | supabase/functions/virtual-try-on/index.ts:83 | the waits are 2000, 4000 and 8000 ms, each twice the one before |
| VirtualTryOn.RetryFrom | supabase/functions/virtual-try-on/index.ts:59-89 | a run from attempt k ends after call number k + 1 at the earliest and call number 4 at the latest, and waits once after each of its calls but the last |
| VirtualTryOn.RetryShape | supabase/functions/virtual-try-on/index.ts:59-89 | the loop makes 1 to 4 calls and stops at the first non-429 outcome or after attempt 3. The last outcome is its last call's, every earlier call was a 429, and after attempt j it waited BackoffDelay(j) and at no other time |
| VirtualTryOn.RetryDelays | supabase/functions/virtual-try-on/index.ts:81-85 | the waits of a run from attempt k are the backoff delays of attempts k, k + 1, ... in order |
| VirtualTryOn.RetryGoesOn | supabase/functions/virtual-try-on/index.ts:81-86 | going round again after a 429 moves that attempt's wait from the rest of the run to the waits already made |
| VirtualTryOn.RetryStops | supabase/functions/virtual-try-on/index.ts:81-88 | leaving the loop after a call makes that call's outcome the last and adds no wait |
| VirtualTryOn.FetchWithRetry | supabase/functions/virtual-try-on/index.ts:59-89 | the imperative loop with `continue` and `break` computes exactly `RetryFrom(upstream, 0)` |
| VirtualTryOn.RateLimitedThroughout | supabase/functions/virtual-try-on/index.ts:82-99 | four 429s in a row: 4 calls, waits of 2, 4 and 8 s (14 s in all), answered 429 with retryAfterSeconds 30 |
| VirtualTryOn.StopsAtFirstNonRateLimited | supabase/functions/virtual-try-on/index.ts:82-88 | if call j <= 3 is the first that is not a 429, the loop makes j + 1 calls, answers call j, and waits BackoffDelay(i) after each i < j |
| VirtualTryOn.Digit | supabase/functions/virtual-try-on/index.ts:109 | a decimal digit character with the given value |
| VirtualTryOn.StatusText | supabase/functions/virtual-try-on/index.ts:109 | a status prints as three decimal digits whose value is the status |
| VirtualTryOn.StatusTextIs429 | supabase/functions/virtual-try-on/index.ts:109 | a status prints as "429" exactly when it is 429 |
| VirtualTryOn.ApiErrorMessage | supabase/functions/virtual-try-on/index.ts:109 | the thrown message is the fixed opening, the three status digits, "): " and then the upstream body text |
| VirtualTryOn.ApiErrorMentions | supabase/functions/virtual-try-on/index.ts:109-141 | for a status other than 429, the thrown message contains "429" (or "quota") exactly when the upstream body does |
| VirtualTryOn.ApiErrorMentions429 | supabase/functions/virtual-try-on/index.ts:109-141 | for a status other than 429, the thrown message contains "429" exactly when the upstream body does |
| VirtualTryOn.ApiErrorMentionsQuota | supabase/functions/virtual-try-on/index.ts:109-141 | the thrown message contains "quota" exactly when the upstream body does |
| VirtualTryOn.StatusAndBody429 | supabase/functions/virtual-try-on/index.ts:109 | after the opening, three digits other than 429, "): " and the body hold "429" exactly when the body does |
| VirtualTryOn.DigitsBeforeClose | supabase/functions/virtual-try-on/index.ts:109 | three digits other than "429" followed by ')' start no occurrence of "429" |
| VirtualTryOn.FirstParts | supabase/functions/virtual-try-on/index.ts:120 | the first candidate's parts are present exactly when it has content with parts, and are then those parts |
| VirtualTryOn.FindImagePart | supabase/functions/virtual-try-on/index.ts:125 | `parts.find` gives the first part with inline data, or none exactly when no part has any |
| VirtualTryOn.ExtractImage | supabase/functions/virtual-try-on/index.ts:115-128 | each of the three errors exactly when its condition holds (checked in order); otherwise the inline data of the first image part; errors are only those three |
| VirtualTryOn.ReplyResponse | supabase/functions/virtual-try-on/index.ts:62-147 | the answer status is 200, 402, 429 or 500, and 200 exactly with a success body; an upstream 429 gets the rate-limit body with a 30 s hint; 402 and 403 get 402 with the access-denied message; any other non-2xx status is answered as the caught `ApiErrorMessage(status, text)`; a network failure, a 2xx body that is not JSON and a failed extraction are answered as the caught error with their message; an extracted image is answered 200 with `DataUrl(mimeType, data)` |
| VirtualTryOn.UpstreamStatusClassification | supabase/functions/virtual-try-on/index.ts:91-109 | a failure status is answered 402 exactly for 402 and 403. It is answered 429 exactly for 429 or a body mentioning "429" or "quota", with a retry hint only for an upstream 429. Anything else gets 500 |
| VirtualTryOn.SuccessfulReplyClassification | supabase/functions/virtual-try-on/index.ts:112-136 | an ok reply is answered 200 exactly when its body is JSON with an image part; a failed extraction is answered 500 with its message |
| VirtualTryOn.DataUrl | supabase/functions/virtual-try-on/index.ts:130 | the data URL is "data:", the mime type, ";base64," and the data, in that order and nothing else |
| VirtualTryOn.ResultImageReparses | supabase/functions/virtual-try-on/index.ts:130 | the result data URL re-matches the request pattern with the reply's mime type and data |
| VirtualTryOn.Admit | supabase/functions/virtual-try-on/index.ts:20-56 | the handler calls the model exactly when the request is not a preflight, its body is JSON, both fields are truthy, the key is set and the image matches. The call carries the category prompt and the two captures of the user image. A preflight is answered 200 "ok"; a body that is not JSON is answered as the caught error with its message; with both fields present, a missing key is answered 500 with its message |
| VirtualTryOn.MissingFieldsComeFirst | supabase/functions/virtual-try-on/index.ts:28-41 | a missing user image or product id is answered 400 whatever the key |
| VirtualTryOn.ImageFormatDecides | supabase/functions/virtual-try-on/index.ts:48-56 | with fields and key present, 400 "Invalid image format" exactly when the image is not a well-formed data URL; otherwise the call carries its captures |
| VirtualTryOn.Serve | supabase/functions/virtual-try-on/index.ts:20-148 | an answered request makes no call. Otherwise it sends the admitted request, the retry loop's calls and waits happen, and the answer is the response to the loop's last outcome |

## Left out

- `compositeImage` (canvas drawing, shadow, blending, JPEG encoding) is
  not part of this model. `loadFaceModels` and the face detector are not
  either: the detector's landmarks are an input.
- Floating point: all arithmetic is exact (reals and integers).
  `Math.round` is `Round`, and the feathered alpha is exact.
- TryOnEngine.EyewearPosition: `Math.hypot` and `Math.atan2` are arbitrary
  function parameters.
- TryOnEngine.EyewearHasPositiveSize assumes that hypot is positive away
  from the origin, because hypot is a parameter.
- TryOnEngine.EyewearPosition requires at least one landmark per eye. With
  none, the source divides 0 by 0 and gets NaN coordinates.
- BackgroundRemoval.RemoveBackground requires the buffer length to be
  4 * w * h. The canvas's image data always has that length.
- Image loading, canvas drawing and `toDataURL` in `compressImage` are not
  modelled. Neither is the JPEG quality (`DefaultQuality`), which does not
  affect the size.
- ImageUtils.TargetDimensions: one NaN case differs. With maxDimension 0
  and a side of 0, the source computes 0 / 0 = NaN, so its `Math.min` and
  both sides are NaN. The model yields 0 for both sides.
- BackgroundRemoval.RemoveBackground: the thrown `IndexSizeError` is the
  result `false` (and `Failure` of `StripBackground`). What the caller
  `compositeImage` does with it is not part of this model.
- Products: the `image` field holds the asset's import path, standing in
  for the URL the bundler substitutes at build time.
- Products: the display-only `description` and `features` fields of each
  entry are not part of the model.
- VirtualTryOn: not modelled:
  - `serve`, the CORS headers, `Deno.env`, `console` logging and the wait
    itself;
  - the URL and the JSON encoding of the model request. The request is
    the record `GeminiRequest`.
- VirtualTryOn.Fields: request fields are optional strings. Non-string JSON
  values, and the difference between `null` and a missing field, are not
  modelled.
- VirtualTryOn.GeminiReply: the reply is the decoded record the handler
  inspects. A `null` candidate and non-object parts are not modelled.
- VirtualTryOn.CaughtResponse: the message of a network error or a JSON
  parse error is an input. The fallback "Unknown error" for a thrown
  non-Error value is not modelled.
- VirtualTryOn.SelectTemplate: keys inherited from `Object.prototype`
  (for example "toString") would select a function value in the source's
  lookup record. They are not modelled: such a category gets the generic
  prompt.
- VirtualTryOn.ResultImageReparses holds only when the reply's mime type
  has the `image/\w+` form and its data is non-empty without line breaks.
  The handler does not check this.

## Findings

| source | as written | input that shows it | evidently intended | confidence | as-written member | corrected member |
|---|---|---|---|---|---|---|
| src/lib/imageUtils.ts:18-19 | each scaled side is rounded with `Math.round`, which can round a very short side down to 0 pixels | a 10000x1 image at the default bound 768 gets a 768x0 canvas, which has no pixels | a side of at least one pixel keeps at least one pixel after scaling | not executed | ImageUtils.ThinImageCollapses | ImageUtils.ClampedTargetDimensions |
