# Image resizer: fit geometry and size-option store

A Dafny model of the logic of `AppComponent` in the Angular image resizer
(`src/app/app.component.ts`). The component lets the user pick a target box
(three presets or a custom size typed as `"{width},{height}"` or `"{side}"`),
remembers the choice in `localStorage`, and for each dropped image computes
an aspect-preserving, never-upscaling fit into the box, draws it centred on
a canvas, and records the original and the fitted size.

Modules, one per part of the component:

- `Wrappers`: `Option`, standing for `null`/`undefined`.
- `Geometry`: `resize` and the geometry of `resizeImage` over exact
  rationals (`real`): content size, centring offsets, canvas size, fill and
  draw rectangles; `Math.round`.
- `CustomSize`: the regular expression `(\d+)(,(\d+))?` of
  `parseCustomSize`, the digit-to-number conversion, and the range check.
- `SizeStore`: the catalog, the selected id and `localStorage` as a value
  (`Session`), with the transitions of `selectOption`, `parseCustomSize`,
  `handleCustomSize`, `sizeButtonClick`, the constructor body and
  `clearStorage`, plus the persistence lemmas (what a page reload restores).
- `FileList`: the per-file step of `prepareFilesList`: the type filter, the
  target lookup with its 500 by 500 default, and the record it appends.
- `App`: the class `AppComponent`, whose fields the handlers assign; each
  method is specified by the matching transition of `SizeStore` or
  `FileList`.

Edge cases of the code, modelled as written (several differ from what a
reader of the component's intent might expect):

- The constructor restores any stored id, even one no option has:
  `filter(...)` returns an array, and an array is always truthy.
- A lone number has only its width range-checked (`height` is `undefined`,
  `height !== null` holds, and both comparisons with `undefined` are false).
  Since the height then becomes the width, every accepted size is still in
  range on both axes (`CustomSize.Parse`'s contract).
- `parseCustomSize` is not free of side effects: on a range error it selects
  the first preset and stores that id. Replaying a stored custom size that is
  out of range at start-up therefore resets the selection to `"1"`.
- A text without any digit makes `sz.match` return `null`, and reading
  `matches[1]` throws. The model returns this as `threw`: nothing has changed
  at that point, and the exception also skips the `selectOption` at the end
  of `sizeButtonClick` and aborts the constructor body.
- The 500 by 500 default applies only when no option has the selected id.
  Selecting the custom option before any size was accepted resizes into a
  `null` box: the canvas gets no pixels, `toDataURL` returns `"data:,"`,
  and `atob` throws on it while the record is being built, so no file is
  recorded at all (`FileList.UnsetCustomRecordsNothing`).
- The byte count `sizeNew` strips only a PNG or JPEG data URL prefix. A
  browser that encodes the file's own type in another format (WebP in
  Chromium and Firefox) produces a preview whose prefix stays, `atob`
  throws, and that file is never recorded; a type the browser cannot
  encode falls back to PNG and is recorded (`FileList.EncodedTypeDecides`).
- The image-type filter is a substring test (`indexOf('image')`), not a
  prefix test.
- `selectOption` does not check that the option is in the catalog.
- Canvas sizes are whole numbers: assigning `w` to `canvas.width`
  truncates it (the Web IDL `unsigned long` conversion), so with `crop` the
  canvas is the fitted size rounded down, not the fitted size itself. The
  attribute is reflected, so a converted value above 2^31 - 1 sets the
  default instead (300 wide, 150 high).

## Model

| member | source | states |
|---|---|---|
| `Geometry.Resize` | src/app/app.component.ts:226-241 | no contract of its own: its properties are the Resize lemmas below |
| `Geometry.MaxRatioExceedsOne` | src/app/app.component.ts:228-231 | the larger of the two ratios exceeds one exactly when the image does not fit the box |
| `Geometry.ResizeScale` | src/app/app.component.ts:228-233 | when scaling down, both sides are divided by one ratio m > 1 with m times the box at least the image on each axis and equal on one |
| `Geometry.ResizeFitsBox` | src/app/app.component.ts:226-237 | the content never exceeds the box on either axis and is never larger than the image |
| `Geometry.ResizeKeepsFittingImage` | src/app/app.component.ts:231-237 | the content keeps the image's own size if and only if the image already fits (no upscaling) |
| `Geometry.ResizeFillsDominantAxis` | src/app/app.component.ts:228-233 | when scaling down, the axis with the larger ratio to its target equals that target exactly |
| `Geometry.ResizeKeepsAspect` | src/app/app.component.ts:231-236 | w times image height equals h times image width in both branches |
| `Geometry.ResizeCentres` | src/app/app.component.ts:238-240 | the offsets are non-negative and the two margins on each axis are equal |
| `Geometry.ResizeExample` | src/app/app.component.ts:226-241 | a 4000 by 2000 image in a 500 by 500 box is drawn 500 by 250 at (0, 125) |
| `Geometry.ToUnsignedLong` | src/app/app.component.ts:203-208 | the Web IDL conversion is below 2^32, is the integer part of a number in [0, 2^32), and is 0 for a number in (-1, 0] |
| `Geometry.CanvasSize` | src/app/app.component.ts:203-208 | a canvas side set from a number in [0, 2^31) is its integer part, within one pixel below the number; one in [2^31, 2^32) gives the attribute's default |
| `Geometry.JsRound` | src/app/app.component.ts:179-180 | Math.round gives the integer r with r - 1/2 <= x < r + 1/2 |
| `Geometry.JsRoundBelow` | src/app/app.component.ts:179-180 | a number at most an integer rounds to at most that integer, and an integer rounds to itself |
| `Geometry.ResizeImage` | src/app/app.component.ts:199-224 | no contract of its own: its properties are the ResizeImage lemmas below |
| `Geometry.ResizeImageDrawsFittedContent` | src/app/app.component.ts:205-222 | whatever crop is, the image is drawn at the size resize fitted it to, the returned dimensions are the draw rectangle, and without crop they are the fitted dimensions themselves |
| `Geometry.ResizeImageCropTrimsPadding` | src/app/app.component.ts:206-211 | with crop the draw starts at (0, 0), the returned offsets are 0, and the canvas is the content size truncated, so the drawing covers it |
| `Geometry.ResizeImageLetterboxes` | src/app/app.component.ts:203-218 | without crop the canvas is the box and the content is drawn centred in it with equal margins |
| `Geometry.ResizeImageFill` | src/app/app.component.ts:212-215 | the whole box is filled exactly when the background is not "transparent" |
| `CustomSize.DigitRun` | src/app/app.component.ts:104 | greedy `\d+`: the result is a prefix of digits that the next character does not extend |
| `CustomSize.HeightGroup` | src/app/app.component.ts:104 | the optional `,(\d+)` group, when present, is a non-empty digit string |
| `CustomSize.Match` | src/app/app.component.ts:104 | a successful match has a non-empty all-digit group 1 and, if present, a non-empty all-digit group 3 |
| `CustomSize.Number` | src/app/app.component.ts:109-110 | no contract of its own: NumberOfDecimal states that it reads back the decimal notation |
| `CustomSize.Decimal` | src/app/app.component.ts:77-80 | the decimal notation a user types for a size is a non-empty digit string |
| `CustomSize.Check` | src/app/app.component.ts:109-137 | the range checks accept only widths and heights in [50, 5000] |
| `CustomSize.Parse` | src/app/app.component.ts:102-138 | every accepted custom size is in [50, 5000] on both axes |
| `CustomSize.DigitRunOf` | src/app/app.component.ts:104 | a digit run followed by a non-digit is consumed whole |
| `CustomSize.MatchSkipsPrefix` | src/app/app.component.ts:104 | the regex is unanchored: leading text without digits does not change the match |
| `CustomSize.MatchNoneIffNoDigits` | src/app/app.component.ts:104 | `match` returns null if and only if the text has no digit |
| `CustomSize.MatchFirstRun` | src/app/app.component.ts:104-110 | group 1 is the first maximal digit run and group 3 the digit run after a comma right behind it, if any |
| `CustomSize.HeightGroupOf` | src/app/app.component.ts:104 | a comma followed by a maximal digit run forms group 3 |
| `CustomSize.NumberOfDecimal` | src/app/app.component.ts:109-110 | `Number` of the decimal notation of n is n |
| `CustomSize.ParseNoMatchIffNoDigits` | src/app/app.component.ts:104-109 | parsing hits the null match if and only if the text has no digit |
| `CustomSize.ParseSkipsPrefix` | src/app/app.component.ts:104 | text before the first digit does not change the result |
| `CustomSize.ParseRun` | src/app/app.component.ts:104-137 | a text starting with a digit run is range-checked on that run's number and on the optional height group's number |
| `CustomSize.ParseWidthHeight` | src/app/app.component.ts:109-132 | "w,h" plus text not extending h gives (w, h) when both are in range, else a rejection naming each bad dimension |
| `CustomSize.ParseSide` | src/app/app.component.ts:109-137 | "n" plus text that is neither digits nor ",digits" gives (n, n) when n is in range, else a rejection of the width only |
| `CustomSize.ParseExampleWidthHeight` | src/app/app.component.ts:77-78 | "250,350" parses to 250 by 350 |
| `CustomSize.ParseExampleSide` | src/app/app.component.ts:79 | "250" parses to 250 by 250 |
| `CustomSize.ParseExampleNarrow` | src/app/app.component.ts:112-115 | "10,500" is rejected for its width only |
| `CustomSize.ParseExampleNoDigits` | src/app/app.component.ts:104-109 | "abc" hits the null match |
| `CustomSize.ParseExampleSurrounded` | src/app/app.component.ts:104-110 | "size 300x200" parses to 300 by 300: leading and trailing text are ignored |
| `SizeStore.CustomIndex` | src/app/app.component.ts:94 | the entry the handler edits is the first one flagged custom |
| `SizeStore.WithCustom` | src/app/app.component.ts:94-96 | setting the custom dimensions keeps the presets as declared and the catalog well formed |
| `SizeStore.Initial` | src/app/app.component.ts:25-34 | the declared catalog is well formed |
| `SizeStore.ParseCustom` | src/app/app.component.ts:123-126 | the fallback selection of parseCustomSize keeps the catalog well formed |
| `SizeStore.HandleCustom` | src/app/app.component.ts:85-100 | handleCustomSize keeps the presets as declared and the custom slot unset or in range |
| `SizeStore.ButtonClick` | src/app/app.component.ts:69-83 | sizeButtonClick keeps the catalog well formed |
| `SizeStore.Hydrate` | src/app/app.component.ts:36-44 | the constructor body keeps the catalog well formed |
| `SizeStore.Select` | src/app/app.component.ts:64-67 | no contract of its own: SelectIdempotent and SelectPersists state its properties |
| `SizeStore.Clear` | src/app/app.component.ts:46-48 | no contract of its own: App.AppComponent.ClearStorage carries it out and states that only the storage changes |
| `SizeStore.Reload` | src/app/app.component.ts:18-44 | no contract of its own: ReloadPersists, ReloadRestores, ReloadIdempotent and ReloadRestoresAnyId state its properties |
| `SizeStore.SelectIdempotent` | src/app/app.component.ts:64-67 | selecting the same option twice equals selecting it once |
| `SizeStore.HandleCustomOutcome` | src/app/app.component.ts:85-100 | null changes nothing; no digits throws and changes nothing; a range error changes no option, leaves customSize alone and selects "1"; success sets only the custom slot's dimensions to the parsed ones and stores the raw text |
| `SizeStore.ButtonClickSelects` | src/app/app.component.ts:69-74 | the click throws if and only if the custom prompt gave text without digits (and then changes nothing); otherwise the clicked option ends selected and stored |
| `SizeStore.WellFormedShape` | src/app/app.component.ts:25-30 | a well-formed catalog is the declared one with only the custom dimensions replaced |
| `SizeStore.SelectPersists` | src/app/app.component.ts:64-67 | selectOption keeps the stored record in step with the selection and custom slot |
| `SizeStore.HandleCustomPersists` | src/app/app.component.ts:85-99 | handleCustomSize keeps the stored record in step |
| `SizeStore.ButtonClickPersists` | src/app/app.component.ts:69-74 | sizeButtonClick keeps the stored record in step |
| `SizeStore.ReloadPersists` | src/app/app.component.ts:36-44 | loading from a record whose custom text (if any) parses leaves the session in step with the record |
| `SizeStore.ReloadRestores` | src/app/app.component.ts:36-44 | reloading from a record in step with a session rebuilds exactly that session |
| `SizeStore.ReloadIdempotent` | src/app/app.component.ts:36-44 | a second page load from what the first one stored gives the same result |
| `SizeStore.ReloadRestoresAnyId` | src/app/app.component.ts:37-40 | a stored id is restored whether or not an option has it, unless the stored custom text is out of range |
| `SizeStore.ReloadUnknownIdExample` | src/app/app.component.ts:38 | a stored id "9", which no option has, is restored |
| `SizeStore.ReloadCustomExample` | src/app/app.component.ts:36-44 | a stored "300,300" with the custom id selected reloads as a selected 300 by 300 custom target |
| `FileList.IndexFrom` | src/app/app.component.ts:148 | indexOf returns the first occurrence at or after the start, or -1 when there is none |
| `FileList.IndexOf` | src/app/app.component.ts:148 | indexOf from the start gives the first occurrence, or -1 |
| `FileList.IsImageType` | src/app/app.component.ts:148 | no contract of its own: IndexOfMissing and IsImageTypeExamples show it is a substring test |
| `FileList.IndexOfMissing` | src/app/app.component.ts:148 | indexOf is -1 if and only if the text occurs at no position |
| `FileList.FindId` | src/app/app.component.ts:163 | the option found is the first with the id, and none is found only when no option has it |
| `FileList.ResolveTarget` | src/app/app.component.ts:163-170 | no contract of its own: ResolveTargetUsable and ResolveTargetFallback state its properties |
| `FileList.ResolveTargetUsable` | src/app/app.component.ts:163-170 | over a well-formed catalog the target sides are both set, between 1 and 5000, or both null |
| `FileList.ResolveTargetFallback` | src/app/app.component.ts:163-170 | the box is 500 by 500 when no option has the selected id, and otherwise the first matching option's dimensions, null or not |
| `FileList.Processed` | src/app/app.component.ts:144-197 | the records appended are at most one per item, each for an item whose type contains "image" |
| `FileList.ToDataUrl` | src/app/app.component.ts:221 | a canvas without pixels gives "data:,"; otherwise the data URL has the requested type exactly when the browser encodes it (or it is PNG), and PNG otherwise |
| `FileList.Readable` | src/app/app.component.ts:181 | no contract of its own: `atob` accepts the preview only when the PNG or JPEG prefix was stripped |
| `FileList.CanvasOf` | src/app/app.component.ts:203-204 | no contract of its own: CanvasOfTarget states the canvas size |
| `FileList.Content` | src/app/app.component.ts:171-180 | no contract of its own: ContentFitsBox states its bounds |
| `FileList.FileStep` | src/app/app.component.ts:148-182 | no contract of its own: FileStepRecords states when it records a file and what the record holds |
| `FileList.CanvasOfTarget` | src/app/app.component.ts:203-204 | a set box gives a canvas of exactly its sides, a null box a canvas of 0 by 0 |
| `FileList.FileStepRecords` | src/app/app.component.ts:148-182 | a file is recorded if and only if its type contains "image" at some position, it decodes, the selected box is set, and its type is PNG or JPEG or one the browser cannot encode; the record keeps the file and its natural size and holds the rounded fitted size in the box |
| `FileList.IsImageTypeExamples` | src/app/app.component.ts:148 | "image/png" and "application/x-image" pass the type filter and "text/plain" does not |
| `FileList.ContentFitsBox` | src/app/app.component.ts:171-180 | the recorded new size lies within a set box and equals the natural size when the image fits |
| `FileList.UnsetCustomRecordsNothing` | src/app/app.component.ts:163-182 | with the unset custom option selected, no file is recorded |
| `FileList.EncodedTypeDecides` | src/app/app.component.ts:171-221 | a WebP file in a browser that encodes WebP is never recorded; a decoded PNG or JPEG file in a set box always is |
| `FileList.UnknownSelectionUsesDefault` | src/app/app.component.ts:163-180 | with an unknown or unset selection a recorded size lies within the 500 by 500 box |
| `App.AppComponent.constructor` | src/app/app.component.ts:18-34 | the fields start as the declared catalog, no selection, the stored record and no files |
| `App.AppComponent.Hydrate` | src/app/app.component.ts:36-44 | the constructor body performs SizeStore.Hydrate on the fields and keeps the catalog well formed |
| `App.AppComponent.ClearStorage` | src/app/app.component.ts:46-48 | clearStorage empties the stored record and nothing else |
| `App.AppComponent.SelectOption` | src/app/app.component.ts:64-67 | selectOption performs SizeStore.Select: the id is selected and stored, nothing else changes |
| `App.AppComponent.SizeButtonClick` | src/app/app.component.ts:69-74 | sizeButtonClick performs SizeStore.ButtonClick on the fields |
| `App.AppComponent.CreateCustomSize` | src/app/app.component.ts:76-83 | createCustomSize hands the prompt's answer to handleCustomSize |
| `App.AppComponent.HandleCustomSize` | src/app/app.component.ts:85-100 | handleCustomSize performs SizeStore.HandleCustom on the fields |
| `App.AppComponent.ParseCustomSize` | src/app/app.component.ts:102-138 | parseCustomSize returns the pure parse and on a range error selects the first preset |
| `App.AppComponent.PrepareFilesList` | src/app/app.component.ts:144-197 | the loop appends exactly FileList.Processed of the items to files and changes nothing else |
| `App.CustomSizeSession` | src/app/app.component.ts:36-99 | after a fresh page load, clicking the custom option and entering "250,350" leaves the custom target 250 by 350 and selected, and a reload from the stored record gives the same session |

## Left out

- `main-es5.js` is a compiled bundle of an older version; its `resize` and `resizeImage` duplicate the TypeScript source and are not part of this model.
- `src/app/dnd.directive.ts` (drag-and-drop events and the `fileOver` hint) is not part of this model; `onFileDropped` and `fileBrowseHandler` only call `prepareFilesList`.
- The pixels: canvas drawing, `fillRect`'s paint, `drawImage`'s scaling, the payload of `toDataURL`, the `preview` data URL and the value of the `atob` byte count `sizeNew` are browser calls; only their geometry, the data URL's type and whether `atob` throws are modelled.
- The `FileReader` and `Image.onload` callbacks run asynchronously and complete in any order; the model runs each file's step synchronously, in input order, against the selection current at that moment, and does not model completion order. The `setTimeout` reset of the file input is left out.
- `prompt` and `alert` are user interaction: the prompt's answer is a parameter, and the alerts appear only as the `widthBad`/`heightBad` flags of a range error.
- `formatBytes` is logarithm and `toFixed` floating-point formatting, not modelled.
- `console.log` calls and the `title` field have no effect on the modelled state.
- Geometry.Resize: computed over exact rationals, so JavaScript floating-point rounding of the ratios is not modelled; it requires a positive box, since with the `null` box of an unset custom slot no record is built (`FileList.FileStep` stops at the empty canvas), and the Infinity/NaN content size of that case is not modelled.
- Geometry.ToUnsignedLong: numbers are finite rationals, so the conversion of NaN and Infinity to 0 is not modelled.
- FileList.FileStep: which MIME types a browser's canvas encodes is browser-specific and is the parameter `encodable`, not a fixed set.
- Geometry.ResizeImage: the background is a string; a `CanvasGradient` or `CanvasPattern` background is not modelled.
- CustomSize.Number: reads digit strings exactly, where `Number` loses precision above 2^53; such numbers are far above 5000 and rejected either way.
- App.AppComponent.Hydrate: a constructor that throws stops the component from being created; the model returns `threw` and leaves what happens to the page out.
- App.AppComponent.SizeButtonClick: the option is passed as a value; the source passes the catalog object itself, which `handleCustomSize` may mutate before `selectOption` reads its (unchanged) id.
