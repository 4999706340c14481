# File manager model

A Dafny model of the browser file manager in `script.js`. It covers the `FileManager` class and its
cloud-enabled subclass `EnhancedFileManager`:

- size validation of a selection (`handleFiles`);
- the sequential upload batch (`uploadFiles`) with the simulated per-file upload, whose progress grows
  by a random increment on every timer tick;
- the cloud per-file upload that replaces it in the subclass;
- appending cards for local and cloud files;
- deleting by name, including the re-render that pushes the kept entries onto the collection a
  second time;
- the case-insensitive search filter over the cards;
- the pure helpers: the icon chosen by MIME type, the preview fragment of a cloud card, the
  human-readable file size, and the overall-progress formula.

Modules, one concern each:

- `Wrappers`, `Text` (`text.dfy`): the `Option` type; prefix, suffix and substring tests, ASCII lower-casing, decimal rendering of naturals.
- `Records`, `MimeTypes` (`mime.dfy`): the file descriptors, `getFileIcon` as first-match
  classification over a rule table, `generatePreview`.
- `SizeFormat` (`size_format.dfy`): `formatFileSize`, with the unit found by repeated division by 1024
  and the value as a natural number of hundredths, rounded half up.
- `Progress` (`progress.dfy`): the overall-progress formula over `real`, and the simulated per-file
  progress over a stream of ticks.
- `FileList` (`file_list.dfy`): cards, validation, deletion, filtering, and what a whole batch adds,
  all as pure functions.
- `Manager` (`file_manager.dfy`): the class `FileManager`. Its fields are the collection `files`, the
  cards, the warnings shown, and the progress display. Each method modifies these fields the way the
  JavaScript method does. Each method's contract ties the new state to the functions of `FileList`.

One class stands for both JavaScript classes. Its constant `enhanced` says which one is meant.
Methods that exist only in the subclass require `enhanced`. The simulated upload requires
`!enhanced`, because the subclass overrides it.

The world outside the program becomes one parameter, an `Environment`:

- `ticks`: the random increments of the simulated upload, each in [0, 15);
- `outcomes`: how each cloud upload settles, resolved with a URL or rejected.

A stream shorter than the batch needs stands for a moment at which the awaited upload has not
settled yet. The batch then stops at that file and the progress bar stays up.

`alert` becomes an append to the `alerts` log. The progress bar is three fields: visibility, width
and text. A ghost log `reported` records every width the bar is set to.

## Model

| member | source | states |
|---|---|---|
| Text.ContainsIff | script.js:138-140 | the substring test `includes` holds exactly when the pattern occurs at some position |
| Text.ContainsEmpty | script.js:307 | every string includes the empty string |
| Text.Lower | script.js:306-307 | lower-casing keeps the length and maps each character on its own |
| Text.LowerHasNoUpper | script.js:306-307 | a lower-cased string has no upper-case letter |
| Text.LowerIdempotent | script.js:306-307 | lower-casing twice is lower-casing once |
| Text.NatToString | script.js:95 | a natural renders as a non-empty run of digits with no leading zero |
| Text.NatToStringRoundTrip | script.js:95 | reading the rendered digits back gives the number |
| MimeTypes.FileIcon | script.js:134-143 | `getFileIcon`: the chain of prefix and substring tests; it has no contract of its own, its meaning is stated by `FileIconIsFirstMatch` and `FileIconFolderIff` |
| MimeTypes.FirstMatchPicksFirst | script.js:134-143 | in a first-match table, the first rule whose test holds decides, whatever later rules say |
| MimeTypes.FirstMatchFallback | script.js:142 | with no rule selecting the folder icon, the folder icon comes out exactly when no rule holds |
| MimeTypes.FileIconIsFirstMatch | script.js:134-143 | `getFileIcon` is first-match classification over the prefixes image/, video/, audio/, then the substrings pdf, word, excel, spreadsheet |
| MimeTypes.FileIconFolderIff | script.js:134-143 | every type gets an icon, and the folder icon exactly when none of the seven tests holds |
| MimeTypes.FileIconPrefixWins | script.js:135-142 | image/png and image/pdf get the image icon (the prefix wins over the later pdf test), and "" gets the folder |
| MimeTypes.FileIconDocuments | script.js:138-139 | application/pdf gets the PDF icon and application/msword the Word icon |
| MimeTypes.ApplicationSpreadsheet | script.js:140-141 | an application/ type containing excel or spreadsheet, and neither pdf nor word, gets the spreadsheet icon |
| MimeTypes.FileIconExcel | script.js:140-141 | application/vnd.ms-excel gets the spreadsheet icon |
| MimeTypes.FileIconSpreadsheet | script.js:140-141 | application/vnd.oasis.opendocument.spreadsheet gets the spreadsheet icon |
| MimeTypes.GeneratePreview | script.js:278-287 | `generatePreview`: any preview it produces belongs to a file with a type and shows that file's URL |
| MimeTypes.GeneratePreviewCases | script.js:278-287 | an image preview exactly for a present type starting with image/; an embedded viewer exactly for the type application/pdf; none for an absent type; a preview shows the file's URL |
| MimeTypes.PdfIconWithoutPreview | script.js:278-287 | application/x-pdf gets the PDF icon but no preview: the icon tests a substring, the preview an exact value |
| SizeFormat.FormatFileSize | script.js:147-153 | `formatFileSize`: the text starts with a digit, and with 0 exactly for an empty file |
| SizeFormat.FormatFileSizeEndsWithUnit | script.js:152 | for a positive count the text ends with a space and the unit's name; in every case its last character is one of s, B, d |
| SizeFormat.UnitIndexBrackets | script.js:151 | for a positive count, the unit index i satisfies 1024^i <= bytes < 1024^(i+1) |
| SizeFormat.UnitIndexUnique | script.js:151 | no other index brackets the count |
| SizeFormat.UnitNamedIff | script.js:150-152 | the unit has a name exactly when the count is below 1024^4; at and above it the unit prints as "undefined" |
| SizeFormat.HundredthsNearest | script.js:152 | the rendered hundredths are the nearest to 100 * bytes / 1024^i, the larger one on a tie |
| SizeFormat.HundredthsRange | script.js:152 | the rendered value lies between 1.00 and 1024.00 |
| SizeFormat.RenderRoundTrip | script.js:152 | reading a rendered value back gives the same number of hundredths |
| SizeFormat.DecimalsRoundTrip | script.js:152 | the one or two digits printed after the point read back as the same hundredths |
| SizeFormat.RenderDropsTrailingZeros | script.js:152 | a whole value prints without a point, and a fractional one never ends in 0 |
| SizeFormat.FormatFileSizeExamples | script.js:147-153 | 0 gives "0 Bytes", 1 "1 Bytes" and 1024 "1 KB" |
| SizeFormat.FormatFileSizeFraction | script.js:147-153 | 1536 gives "1.5 KB": a half keeps one decimal and drops the trailing zero |
| SizeFormat.FormatFileSizeMegabyte | script.js:147-153 | 1048576 gives "1 MB" |
| SizeFormat.FormatFileSizeJustBelowMegabyte | script.js:147-153 | 1048575 stays in kilobytes and rounds up to "1024 KB" |
| Progress.OverallProgress | script.js:91-92 | the overall-progress formula, computed over exact reals; it has no contract of its own, its meaning is stated by the `Overall...` lemmas below |
| Progress.StatusText | script.js:95 | the text "Uploading current of total..." with both numbers in decimal; it has no contract of its own |
| Progress.OverallAsFraction | script.js:91-92 | the overall value is (100 * (current - 1) + p) / total |
| Progress.OverallBounded | script.js:91-92 | for 1 <= current <= total and 0 <= p <= 100 the overall value lies in [0, 100] |
| Progress.OverallMonotone | script.js:91-92 | the overall value never decreases as p grows |
| Progress.OverallAtCompletion | script.js:91-92 | at p = 100 the value is current * 100 / total, which is where file current + 1 starts |
| Progress.OverallAtEnd | script.js:91-92 | the last file of a batch, finished, shows 100 |
| Progress.AccumulatedMonotone | script.js:81 | the accumulated progress never decreases as ticks arrive |
| Progress.Finish | script.js:80-89 | the upload of one file ends at a tick position between where it started and the end of the stream |
| Progress.FinishIsFirstReach | script.js:80-89 | the upload ends on the first tick at which the accumulator reaches 100, and not before; without such a tick it is still running at the end of the stream |
| Progress.TickStep | script.js:81-96 | one more tick adds its increment to the accumulator and one more reported value; it is the finishing tick exactly when the accumulator reaches 100 |
| Progress.FinishNeedsSevenTicks | script.js:81-82 | no file finishes in fewer than seven ticks, since each adds less than 15 |
| Progress.FinishExtend | script.js:80-89 | a finish that has happened is not changed by later ticks |
| Progress.Completed | script.js:67-70 | at most the n files of the batch have finished |
| Progress.CompletedMonotone | script.js:67-70 | a later moment of the same batch has at least as many files finished |
| Progress.TickReportsShape | script.js:80-96 | the bar is set once per tick; the values never decrease, stay between where the file starts and where it finishes, and the last one is the clamped accumulator's overall value |
| FileList.Message | script.js:50 | the text of each warning, here the size warning and in the same way the upload-failure warning of line 273; it has no contract of its own, `MessageNamesFile` states what it promises |
| FileList.MessageNamesFile | script.js:270-273 | every warning, the failure warning here as the size warning of line 50, names the file it is about |
| FileList.CardIcon | script.js:106 | the icon glyph of a card, the cloud glyph for a cloud card (line 232); it has no contract of its own, `CardShowsKind` states what it promises |
| FileList.CardSize | script.js:107 | the size line of a card, with " • Cloud Storage" appended for a cloud card (line 234); it has no contract of its own, `CardShowsKind` states what it promises |
| FileList.CardShowsKind | script.js:232-234 | a card shows the cloud glyph, and a size line ending in " • Cloud Storage", exactly when it is a cloud card |
| FileList.LocalCards | script.js:122 | one card per file, in order, each shown |
| FileList.LocalFilesOfLocalCards | script.js:122-123 | reading the files back from their cards gives the files |
| FileList.Accepted | script.js:47-54 | the files `handleFiles` keeps; it has no contract of its own, its meaning is stated by `AcceptedMembers`, `AcceptedOrWarned` and `AcceptedAppend` |
| FileList.TooLargeAlerts | script.js:47-54 | the warnings `handleFiles` shows, in selection order; it has no contract of its own, its meaning is stated by `TooLargeAlertsName`, `AcceptedOrWarned` and `AcceptedAppend` |
| FileList.TooLargeAlertsName | script.js:49-50 | a warning is shown exactly for a file of the selection above 100 MiB, and it names that file |
| FileList.AcceptedAppend | script.js:47-54 | validating two selections one after the other is validating both together, for kept files and warnings alike |
| FileList.AcceptedMembers | script.js:47-53 | a file is kept exactly when it is in the selection and at most 100 MiB |
| FileList.AcceptedOrWarned | script.js:47-53 | every file is kept or warned about, never both; all are kept exactly when there is no warning |
| FileList.LimitIsInclusive | script.js:49 | a file of exactly 104,857,600 bytes is kept, and one byte more is refused with a warning |
| FileList.Without | script.js:128 | the filter of `deleteFile`; it has no contract of its own, its meaning is stated by `WithoutMembers`, `WithoutAppend` and `WithoutAbsent` |
| FileList.WithoutAppend | script.js:128 | the name filter works piecewise on a concatenation |
| FileList.WithoutMembers | script.js:128 | every entry with the name goes, not only the first, and every other entry stays |
| FileList.WithoutAbsent | script.js:128 | deleting a name no entry has keeps the entries as they are |
| FileList.WithoutIsSubMultiset | script.js:128 | the kept entries are a sub-multiset of the old ones; their order is kept by `WithoutAppend` |
| FileList.SecondDeleteDuplicates | script.js:127-131 | after a first delete has doubled the collection, a second delete keeps every surviving entry twice, so the re-render shows duplicate cards |
| FileList.Matches | script.js:306-307 | the search test: the lower-cased name includes the lower-cased query; its meaning is stated by `MatchIgnoresCase` and `EmptyQueryShowsAll` |
| FileList.Filtered | script.js:303-311 | the filter keeps the number of cards |
| FileList.FilteredShowsMatches | script.js:305-309 | each card keeps its content and is shown exactly when its lower-cased name contains the lower-cased query |
| FileList.EmptyQueryShowsAll | script.js:307 | an empty query shows every card |
| FileList.MatchIgnoresCase | script.js:306-307 | lower-casing the query or the name first changes no match |
| FileList.FilterLastQueryWins | script.js:303-311 | filtering only hides and shows, so only the last query counts |
| FileList.LocalFilesFiltered | script.js:303-311 | filtering does not change which files the cards show |
| FileList.CloudResult | script.js:266-270 | the card a settled cloud upload adds: one for a success, none for a failure; its meaning is stated by `CloudCardsMembers` and `CloudBatchAccounts` |
| FileList.FailureAlert | script.js:271-273 | the warning a settled cloud upload shows: one for a failure, none for a success; its meaning is stated by `FailureAlertsMembers` and `CloudBatchAccounts` |
| FileList.CloudBatchAccounts | script.js:250-275 | the cards and the warnings of the settled uploads together number the files; the cards are shown cloud cards without a preview and add no local file |
| FileList.CloudCardsMembers | script.js:264-270 | a batch shows a card exactly for each file whose upload resolved, with the file's name and size and the returned URL |
| FileList.FailureAlertsMembers | script.js:271-273 | a batch shows a warning exactly for each file whose upload was rejected, naming that file |
| FileList.PickedCards | script.js:213-217 | one cloud card per file the picker returns, in order |
| FileList.EmptyBatch | script.js:56-57 | an empty batch adds nothing and counts as finished |
| FileList.SimulatedBatchInOrder | script.js:67-70 | a simulated batch adds a prefix of the batch, in order, with a card for each; it adds the whole batch exactly when it finishes |
| Manager.FileManager.constructor | script.js:11 | a new manager has no files, no cards, no warnings and a hidden bar; the empty width and text are the page markup's initial state, which the script does not set |
| Manager.FileManager.UpdateProgress | script.js:168-171 | sets the bar's width and text and records the width; nothing else changes |
| Manager.FileManager.ShowProgress | script.js:156-158 | shows the bar; nothing else changes |
| Manager.FileManager.HideProgress | script.js:161-166 | hides the bar and resets it to 0 with the text "Upload complete!" |
| Manager.FileManager.AddFileToList | script.js:102-124 | appends the file to the collection and its card to the list |
| Manager.FileManager.AddCloudFileToList | script.js:225-248 | appends a cloud card; the collection is not touched |
| Manager.FileManager.OnUploadDone | script.js:213-217 | appends one cloud card per uploaded file, in order |
| Manager.FileManager.UploadSingleFile | script.js:77-99 | the file is appended, with its card, exactly when its progress reaches 100 within the ticks; every tick used reports the overall value with the text "Uploading current of total..." |
| Manager.FileManager.OnTick | script.js:80-96 | the timer callback adds the increment, caps the progress at 100 and appends the file exactly when it reaches 100, then sets the bar to the overall value with the text "Uploading current of total..." |
| Manager.FileManager.UploadSingleFileCloud | script.js:250-275 | on success appends exactly one cloud card with the file's name and size and the returned URL; on failure it only warns; the collection never changes |
| Manager.FileManager.UploadFiles | script.js:62-74 | the batch appends what its files add, in order; it is finished exactly when every file has settled, and only then is the bar hidden; the reported values are in order within [0, 100], and a simulated batch reaches 100 before the reset to 0; a cloud batch reports no value at all, since its `onProgress` updates are not modelled, so for it this ordering says nothing |
| Manager.FileManager.UploadEachSimulated | script.js:67-70 | with the simulated upload, the finished files and their cards are appended in batch order, and the batch is finished exactly when all of them are |
| Manager.FileManager.UploadEachDelegated | script.js:67-70 | with the cloud upload, a failure does not stop the batch; every settled file adds its card or its warning |
| Manager.FileManager.HandleFiles | script.js:46-59 | warns once per file above 100 MiB, in order; uploads the kept files in their order; leaves the bar alone when every file was refused |
| Manager.FileManager.DeleteFile | script.js:127-131 | the cards become the entries with another name, in order; the collection becomes those entries twice |
| Manager.FileManager.FilterFiles | script.js:303-311 | each card is shown exactly when it matches the query; the order of the cards, their content and the collection do not change |

## Left out

- DOM lookup, event listeners, drag highlighting, `innerHTML` templates and inline `onclick` strings (script.js:3-44, 103-121, 192-205, 290-301): user-interface wiring. A card is a record holding its file and a visibility flag. File names are assumed to hold no HTML markup or character references, so the heading the search filter reads back through `textContent` is the file name itself.
- The card's upload date (`new Date().toLocaleDateString()`): it depends on the clock.
- `setInterval`, and the one-second delay of `hideProgress`: timer scheduling. Ticks are an input sequence, and the hide takes effect at the end of the batch.
- `Math.random`: each tick's increment is an arbitrary input value in [0, 15).
- The Filestack client, its picker options and `client.upload`: external SDK and network calls. An upload's outcome is an input.
- Manager.FileManager.UploadSingleFileCloud: does not model the `onProgress` callback's updates of the bar, because the SDK's event values are not known. The formula it uses is the same `Progress.OverallProgress`.
- `console.error`, `navigator.clipboard` and `window.open`: foreign side effects. `alert` is kept only as the `alerts` log.
- SizeFormat: the floating-point `Math.log`, `Math.pow`, `toFixed` and `parseFloat` are modelled by their integer meaning, without claiming bit-exact agreement with IEEE doubles.
- Progress.OverallProgress: computed over exact reals, not doubles.
- Text.Lower: only lower-cases ASCII A-Z; `toLowerCase` also maps other scripts.
- Re-entrancy, when a second batch starts while one is still awaiting: this is async interleaving, and the code does not guard against it. Each method runs to its end before another starts.
- Manager.FileManager.UploadFiles: a batch that has not finished within the supplied ticks or outcomes is modelled as stopped there. The later continuation of that batch is not modelled.
