# OCR upload tool: the logic it owns, in Dafny

The tool is a browser front end that turns an uploaded PDF or image into
text. Recognition (Tesseract) and PDF rasterisation (pdf.js) are foreign
libraries; what the repository itself decides is modelled here:

- `MonochromeFilter` (`filter.dfy`): the monochrome filter. The pixel pass
  rewrites an RGBA byte buffer in place, four bytes at a time. Each pixel
  becomes black, mid-grey or white by the sum of its red, green and blue
  bytes, and its alpha becomes 255. The middle band assigns the number
  127.5 to a `Uint8ClampedArray`. That store goes through ToUint8Clamp
  (ECMA-262, section 7.1.12), which rounds ties to even, so the byte kept
  is 128. The model writes that conversion out on half-integers (`ClampHalf`)
  and proves that it stores 128. Around the pass, the filter loops over the
  images. It produces one data URL per image, and a file named
  `filtered_page_<k+1>.png` for each image whose canvas yields a blob. It
  fails with its message when the canvas has no 2D context, and rejects when
  an image's pixels cannot be read back (a tainted or empty canvas).
- `Ocr` (`ocr.dfy`): `imageToText`. A missing list gets a fixed message
  and no worker. Otherwise one worker is created for Portuguese (`por`, engine
  mode 1), the images are recognised strictly one after another in index
  order, and the results are collected index by index. The worker is
  terminated after the loop, and only when no recognition rejected.
- `UploadLog` (`log_route.dfy`): the log endpoint. POST checks that filename,
  size, type and language are truthy (400 otherwise). It reads the log,
  treating an unreadable or missing file as empty, appends one record, rewrites
  the file and answers 201. Any exception is answered with 200. GET answers the
  records and their count.
- `PdfPages` (`pdf.dfy`): `pdfToImage`. It makes one PNG file per page, pages
  1 to n in order, named `<name before the first '.'>_page_<n>.png`. Any
  failure becomes the single error "Não foi possível processar o PDF".
- `Wrappers`, `Files`, `Decimal` (`common.dfy`): Option/Result, bytes and
  files, and the decimal numerals that `${n}` produces in file names, with
  their inverse.

Foreign calls become inputs. These are the canvas as it stands after each
image is drawn (its size, whether the image tainted it, and its pixels), the canvas encoders (`toDataUrl`, `toBlob`), whether
a 2D context exists, the page count of a parsed PDF and each page's rendered
blob, the recogniser, the request body, the clock reading and whether the
log file write succeeds.

The code keeps no per-page progress records, no aggregate progress, no
progress callback and no user-chosen language, and has no `finally` around
the worker: the language is fixed to `por` (src/lib/ocr.ts:7) and progress
goes only to the console.

## Model

| member | source | states |
|---|---|---|
| `MonochromeFilter.ColourTwice` | src/lib/filter.ts:37-39 | the number the loop picks (0, 127.5, 255), doubled; its meaning is stated by `LevelIsStoredColour` and `LevelBoundaries` |
| `MonochromeFilter.ClampHalf` | src/lib/filter.ts:39-43 | storing the number h/2 in the clamped array keeps 0 for h ≤ 0 and 255 for h ≥ 510; in between, the integer nearest h/2, taking the even one on a tie |
| `MonochromeFilter.Level` | src/lib/filter.ts:36-43 | the byte a pixel's channels get: 0 up to sum 255, 128 up to sum 510, 255 above; `LevelIsStoredColour` proves it is the clamped store of the loop's number |
| `MonochromeFilter.LevelIsStoredColour` | src/lib/filter.ts:36-43 | the three bands (0 up to sum 255, 128 up to sum 510, 255 above) are exactly what the clamped array stores for the loop's 0 / 127.5 / 255 |
| `MonochromeFilter.LevelBoundaries` | src/lib/filter.ts:36-43 | sum 0 stores 0, sum 765 stores 255, sum 383 stores 128 (127.5 rounded to even) |
| `MonochromeFilter.LevelMonotone` | src/lib/filter.ts:37-39 | a pixel with a larger channel sum never gets a darker level |
| `MonochromeFilter.LevelFixedPoint` | src/lib/filter.ts:36-43 | a grey pixel at an output level (sum 0, 384 or 765) keeps that level |
| `MonochromeFilter.Filtered` | src/lib/filter.ts:35-45 | the filtered buffer has the same length as the input |
| `MonochromeFilter.FilteredAppend` | src/lib/filter.ts:35 | the pass handles the pixels of two parts of a buffer independently: filtering a concatenation is concatenating the filtered parts |
| `MonochromeFilter.FilteredPixel` | src/lib/filter.ts:36-44 | every pixel's R, G and B become the level of its own sum, and its alpha becomes 255 |
| `MonochromeFilter.FilteredIdempotent` | src/lib/filter.ts:35-45 | filtering a filtered buffer gives it back unchanged |
| `MonochromeFilter.ThresholdPixel` | src/lib/filter.ts:36-44 | one loop step sets R = G = B = level of the old sum and alpha 255, and leaves every byte outside that pixel's four slots unchanged |
| `MonochromeFilter.ApplyThreshold` | src/lib/filter.ts:35-45 | the in-place loop leaves the buffer equal to `Filtered` of its old contents: same length, every pixel visited once |
| `MonochromeFilter.FilteredName` | src/lib/filter.ts:54 | the name of the file made from image k; its meaning is stated by `FilteredNameParts` |
| `MonochromeFilter.FilteredNameParts` | src/lib/filter.ts:54 | the name is `filtered_page_`, a numeral that reads back as k+1, then `.png` |
| `MonochromeFilter.FilteredNamesDistinct` | src/lib/filter.ts:54 | files made from different images get different names |
| `MonochromeFilter.Blobs` | src/lib/filter.ts:51-53 | one entry per image, in order: what `toBlob` yields for that image's canvas once it holds the filtered pixels |
| `MonochromeFilter.KeptFiles` | src/lib/filter.ts:51-58 | the files pushed for the first n images; its meaning is stated by `KeptFilesBound`, `KeptFilesInOrder` and `KeptFilesAll` |
| `MonochromeFilter.WithBlob` | src/lib/filter.ts:53 | the indices of the images whose canvas yields a blob: strictly increasing, each below n, and containing every such index |
| `MonochromeFilter.KeptFilesBound` | src/lib/filter.ts:51-58 | there are never more filtered files than images |
| `MonochromeFilter.KeptFilesInOrder` | src/lib/filter.ts:53-57 | there is one file per image with a blob, and file j is made from the j-th such image: named `filtered_page_{k+1}.png` after its index k, a PNG, holding its blob |
| `MonochromeFilter.KeptFilesAll` | src/lib/filter.ts:53-57 | when every blob exists there is one file per image, file k being image k's |
| `MonochromeFilter.Readable` | src/lib/filter.ts:34 | `getImageData` over the whole canvas succeeds only when the canvas is untainted and neither its width nor its height is 0 |
| `MonochromeFilter.FilterCanvas` | src/lib/filter.ts:34-46 | one image's pass leaves the canvas with the same size and the filtered pixels |
| `MonochromeFilter.ApplyBlackWhiteFilter` | src/lib/filter.ts:6-65 | succeeds exactly when there is a 2D context and every image's pixels can be read back; without a context it fails with the no-context message; otherwise it rejects at the first image whose canvas is tainted or has zero width or height, losing what was made before. On success there is one URL per image in input order, each the encoding of that image's canvas holding its filtered pixels; file j is made from the j-th image with a blob, in order, and there are never more files than URLs |
| `Decimal.FromNat` | src/lib/filter.ts:54 | the numeral of a number is non-empty, all digits, with no leading zero unless the number is 0 |
| `Decimal.ToNatFromNat` | src/lib/pdf.ts:66 | reading the numeral back gives the number |
| `Decimal.FromNatInjective` | src/lib/pdf.ts:66 | different numbers have different numerals |
| `Decimal.NumeralBetween` | src/lib/pdf.ts:66 | a numeral placed between a prefix and a suffix can be read back as the number |
| `Decimal.DelimitedInjective` | src/lib/pdf.ts:66 | names built from one prefix and suffix around a numeral are equal only for equal numbers |
| `PdfPages.BaseName` | src/lib/pdf.ts:66 | the base is a prefix of the name, holds no '.', and is followed by a '.' unless it is the whole name |
| `PdfPages.BaseNameUnique` | src/lib/pdf.ts:66 | those three properties determine the base: it is the text before the first '.' |
| `PdfPages.BaseNameExamples` | src/lib/pdf.ts:66 | "a.b.pdf" gives "a", a name without a dot is kept whole, a leading dot gives "" |
| `PdfPages.PageFileName` | src/lib/pdf.ts:66 | the name is the base name, `_page_`, a numeral that reads back as the page number, then `.png` |
| `PdfPages.PageFileNamesDistinct` | src/lib/pdf.ts:66 | different pages of one document get different file names |
| `PdfPages.PdfToImage` | src/lib/pdf.ts:41-80 | succeeds exactly when the document loads and every page renders; then one file per page, pages 1..n in order (none for 0 pages), file k named `base_page_{k+1}.png`, typed image/png, holding page k+1's blob, all names distinct; every failure is the one fixed message |
| `Ocr.Worker.constructor` | src/lib/ocr.ts:7 | a worker slot starts not created, with no image recognised |
| `Ocr.Worker.Create` | src/lib/ocr.ts:7 | a resolved call moves the worker from not created to created, with the given language and mode; a rejected call leaves no worker |
| `Ocr.Worker.Recognize` | src/lib/ocr.ts:11 | only a created worker recognises; the image is appended to those it has seen and the answer is the engine's for the worker's language |
| `Ocr.Worker.Terminate` | src/lib/ocr.ts:15 | only a created worker is terminated; a resolved call leaves it terminated, a rejected one leaves it created |
| `Ocr.ImageToText` | src/lib/ocr.ts:5-17 | a missing list gives "Imagem não encontrada" and leaves the worker untouched; a rejected `createWorker` ends the run with no worker; otherwise one worker for `por`, mode 1. When every recognition and the termination resolve, the output is as long as the input with output[i] the result for image i, the worker having seen the images exactly in index order and then terminated. A rejection at image k happens after images 0..k were handed over in order and leaves the worker created. A rejected `terminate` comes after all images were recognised, and the output is lost |
| `UploadLog.Truthy` | src/app/api/log/route.ts:25 | JavaScript truthiness; `FalsyValues` proves the falsy values are exactly undefined, null, false, 0 and "" |
| `UploadLog.FalsyValues` | src/app/api/log/route.ts:25 | a value is falsy exactly when it is undefined, null, false, 0 or "" |
| `UploadLog.HasRequiredFields` | src/app/api/log/route.ts:25 | the validation predicate; its meaning is stated by `ObjectBodyValidation`, `FalsyFieldsRejected` and `OptionalAndEmptyFields` |
| `UploadLog.Destructure` | src/app/api/log/route.ts:23 | reading the five fields out of the body; its meaning is stated by `NonObjectBodies` and `ObjectBodyValidation` |
| `UploadLog.Received` | src/app/api/log/route.ts:23 | the fields of a body that parses, or nothing when `req.json()` or the destructuring throws; stated by `NonObjectBodies` |
| `UploadLog.NonObjectBodies` | src/app/api/log/route.ts:23-27 | a body that is not JSON, and a JSON null, throw while the fields are read; any other value that is not an object fails the validation |
| `UploadLog.ObjectBodyValidation` | src/app/api/log/route.ts:23-27 | an object body passes the validation exactly when it has the keys filename, size, type and language, each with a truthy value |
| `UploadLog.ReadLogs` | src/app/api/log/route.ts:11-17 | the stored records, or none when the file is missing or unparsable; its meaning is stated by `LogStore.Get` and `LogStore.Post` |
| `UploadLog.FalsyFieldsRejected` | src/app/api/log/route.ts:25 | size 0, an empty filename, an absent size or a null language fail the validation |
| `UploadLog.OptionalAndEmptyFields` | src/app/api/log/route.ts:25 | status is not required; an empty language array passes |
| `UploadLog.EntryOf` | src/app/api/log/route.ts:31-38 | the record built from the received fields and the timestamp; `LogStore.Post` states that the appended record holds each field exactly as received |
| `UploadLog.LogStore.constructor` | src/app/api/log/route.ts:6 | the store starts with the given file |
| `UploadLog.LogStore.Post` | src/app/api/log/route.ts:21-51 | an unreadable body or a failed write answers 200 and leaves the log as it was; a falsy required field answers 400 and leaves the log as it was; otherwise the log becomes the old records (none if the file was missing or unparsable, which is then overwritten) followed by one new record holding the received fields and the timestamp, and the answer is 201 with that record |
| `UploadLog.LogStore.Get` | src/app/api/log/route.ts:54-58 | status 200, the records as read, and a count equal to their number; a missing or unparsable file gives count 0 and no records |
| `UploadLog.AppendKeepsEarlier` | src/app/api/log/route.ts:29-42 | after an append the log is one longer, ends with the new record, and every earlier record is in its place |

## Left out

- Loading an image from its URL, drawing it, `getImageData`, `putImageData`, `toDataURL` and `toBlob`: foreign canvas calls, so the model takes the drawn canvas (size, taint, pixels) and the encoders as inputs. The encoders see the whole canvas, so two images with the same bytes but different sizes can encode differently. `getImageData` rejecting is modelled as the error `PixelsUnreadable` with the image's index; the DOMException it carries is not. The canvas and image element that are reused across images are not modelled.
- The pixel pass assumes the buffer holds whole pixels (length a multiple of 4), as `ImageData` always does. The model does not tie that length to width × height.
- The asynchronous waits (`onload`, the `toBlob` callback, `await`): the model runs the same steps in the same order, synchronously.
- MonochromeFilter.ApplyBlackWhiteFilter: an image that fails to load is not modelled. The source waits only on `onload` and sets no `onerror` (src/lib/filter.ts:26-28), so such an image leaves the promise pending forever: no URLs, no files and no error. The model assumes every pixel buffer arrives.
- Tesseract itself (`createWorker`, `recognize`, `terminate`): the recogniser is the parameter `recognize`, and the worker is reduced to its lifecycle and its list of recognised images. The console logger is left out.
- Ocr.ImageToText: a rejected `terminate` is modelled as leaving the worker in the created state, since nothing then confirms that it was released.
- Ocr.ImageToText: other falsy values than a missing list (for example `0` or `""`) cannot be passed with the declared type and are not modelled.
- `loadPdfJs`, loading the script from the local path or the CDN: DOM and network I/O. A failure there, or in parsing the document, is the `pageCount` input being None.
- `PdfPages.PdfToImage`: a `toBlob` that yields null for a page is not modelled; the model's `render` yields a blob or fails. The viewport scale and canvas size are rendering details.
- The real file system and `new Date().toISOString()`: the log file is the field `LogStore.file`, and the time is the `timestamp` parameter.
- UploadLog.LogStore.Post, UploadLog.LogStore.Get: a log file that holds valid JSON other than an array is not modelled. For Post, `push` then throws and the answer is 200. For Get, a string such as "abc" answers its length as the count, and `null` makes reading `logs.length` throw. A failed write is modelled as leaving the file unchanged.
- JSON numbers are modelled as exact reals; only whether they are zero matters here.
- Concurrent requests to the log endpoint, which can lose updates: the model handles one request at a time.
- The React pages and components: presentation only.
