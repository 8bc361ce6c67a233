# Storyboard image intake and preview, in Dafny

A model of the two client-side components of a small web app. The user picks or drops image files. The app shows them as a grid-shaped "storyboard" card.

- **Selection intake** (`ImageUploader`, module `Intake`). It takes the file list of a picker change or of a drop. The list may be null. It keeps the files whose media type starts with `image/`, in their order. Then:
  - if no file is left, it sets the "No image files selected…" error and emits nothing;
  - if more files than `maxImages` are left, it sets an error naming the cap and still emits the first `maxImages` files;
  - otherwise it emits every kept file and leaves the error cleared.

  The error is cleared at the start of every call. The component also has a `dragIsOver` hover flag. It is modelled as the class `Intake.Uploader`. The field `uploads` records every list passed to `onImagesUpload`. The pure decision is `Intake.Submission`. What a call emits depends only on the files and the cap, never on earlier state, so picking the same files again emits the same list.
- **Preview composer** (`InstagramCardPreview`, module `Preview`). Each run of its effect for a file list is a `Preview.Batch`. The run holds the shared `newPreviews` list and `counter`. Each read completion is one call of `Batch.Complete`; completions may come in any order. The batch is published to the card's `imagePreviews` (a `Preview.Composer`) when it holds one preview per file. `Render` gives the grid: its column and row classes, one image cell per preview, and a blank filler cell when there are exactly three previews.
- **Host page** (module `Page`). It stores the emitted list, replacing the previous one wholesale.

`Decimal` renders integers the way a JavaScript template literal does for magnitudes below 10^21. Both the cap message (`${maxImages}`) and the preview ids (`${file.name}-${Date.now()}-${counter++}`) are built with it. `Wrappers.Option` stands for `null`.

Three behaviours of the code that a reader might expect to be otherwise:
- Stale completions might be expected to be discarded once the file list changes. The code has no guard: its effect cleanup is empty. Every run publishes to the same card once it is full. `Preview.SupersededBatchStillPublishes` shows a stale run overwriting a newer one.
- A failed read is not treated as an error. `onloadend` fires after a failed read too, so the failed file still counts toward completion, and its preview has a null `src` (`ReadResult` is `Option<string>`).
- An empty file list starts no read, so nothing is published and the card keeps its previous previews. The `Batch` constructor leaves the card unchanged, and no `Complete` call is possible with no files.

## Model

| member | source | states |
|---|---|---|
| Decimal.NatToString | src/components/InstagramCardPreview.tsx:25 | a counter value renders as a non-empty string of digits only, with no leading zero |
| Decimal.IntToString | src/components/ImageUploader.tsx:26 | an integral number renders non-empty; it starts with `-` exactly when negative; a non-negative one is all digits |
| Decimal.ParseIntToString | src/components/ImageUploader.tsx:26 | the rendering of any integer reads back as that integer |
| Decimal.IntToStringInjective | src/components/InstagramCardPreview.tsx:25 | different integers render as different strings |
| Intake.IsImage | src/components/ImageUploader.tsx:18 | a file is image-typed exactly when its media type is `image/` followed by anything |
| Intake.FilterImages | src/components/ImageUploader.tsx:18 | the filter keeps no more files than it got; every kept file comes from the input and is image-typed; every image-typed input file is kept |
| Intake.FilterImagesKeepsOrder | src/components/ImageUploader.tsx:18 | the kept files are exactly the files at the ascending list of all image-typed positions of the input |
| Intake.CapMessage | src/components/ImageUploader.tsx:26 | no contract of its own; `Intake.CapMessageNamesCap` states that the message names the cap |
| Intake.CapMessageNamesCap | src/components/ImageUploader.tsx:26 | the text between the cap message's fixed prefix and suffix reads back as `maxImages` |
| Intake.SlicePrefix | src/components/ImageUploader.tsx:27 | `slice(0, end)` gives a prefix of the list; its length is `min(end, length)` for a non-negative end and counts back from the end for a negative one |
| Intake.Submission | src/components/ImageUploader.tsx:14-30 | null list: no error, no emission; no image file: the no-images error, no emission; over the cap: the cap error and the first `maxImages` image files; within the cap: all image files, no error; the error is absent exactly in the null and within-cap cases; a negative cap: the cap error and the image files cut as `slice(0, maxImages)` cuts them; any emission is a prefix of the non-empty list of image files and all image-typed; for `maxImages >= 0` it is at most `maxImages` long |
| Intake.UploadKeepsSelectionOrder | src/components/ImageUploader.tsx:18-29 | every emitted file is image-typed and sits in the selection at ascending positions, so emission keeps the selection's relative order |
| Intake.Uploader.constructor | src/components/ImageUploader.tsx:7-12 | the hover flag starts false, the error null, no emission made; the cap is the one given, 4 if none is |
| Intake.Uploader.HandleFileProcessing | src/components/ImageUploader.tsx:14-31 | the error ends as `Submission` decides, replacing the previous one; at most one list is appended to the emissions, exactly the one `Submission` decides |
| Intake.Uploader.HandleDrop | src/components/ImageUploader.tsx:33-38 | the event is cancelled and stopped, the hover flag ends false, and the dropped files go through the same processing as the picker |
| Intake.Uploader.HandleDragOver | src/components/ImageUploader.tsx:40-44 | the event is cancelled and stopped and the hover flag becomes true |
| Intake.Uploader.HandleDragLeave | src/components/ImageUploader.tsx:46-50 | the event is cancelled and stopped and the hover flag becomes false |
| Intake.Uploader.HandleFileChange | src/components/ImageUploader.tsx:52-56 | the picked files are processed as `Submission` decides, and the input's value ends empty |
| Preview.PreviewId | src/components/InstagramCardPreview.tsx:25 | no contract of its own; `Preview.PreviewIdNamesCounter` and `Preview.PreviewIdsDistinct` state its properties |
| Preview.PreviewIdNamesCounter | src/components/InstagramCardPreview.tsx:25 | whatever the file name holds, the text after the id's last `-` is the counter's decimal rendering |
| Preview.PreviewIdsDistinct | src/components/InstagramCardPreview.tsx:20-25 | two ids built with different counter values differ, whatever the file names and timestamps |
| Preview.GetGridCols | src/components/InstagramCardPreview.tsx:45-50 | 1 column for at most one image, 2 for two, 3 for three, 2 for four or more |
| Preview.GetGridRows | src/components/InstagramCardPreview.tsx:52-55 | 1 row for at most two images, 2 rows otherwise |
| Preview.Render | src/components/InstagramCardPreview.tsx:58-93 | nothing is rendered exactly when there is no preview; otherwise the grid has the chosen classes, one image cell per preview in order, and one filler cell exactly when there are three; up to four previews the cells fill the first row, fit the grid, and reach the second row exactly when there are two rows |
| Preview.DistinctIndicesBound | src/components/InstagramCardPreview.tsx:21-30 | distinct completed file indices number at most the number of files, and when they number that many every file has completed |
| Preview.NumberedIdsDistinct | src/components/InstagramCardPreview.tsx:20-28 | previews numbered by completion have pairwise distinct ids |
| Preview.Composer.constructor | src/components/InstagramCardPreview.tsx:16 | the card starts with no previews and nothing published |
| Preview.Composer.SetImagePreviews | src/components/InstagramCardPreview.tsx:31 | the card's previews become the given list, and the publication is recorded |
| Preview.Batch.constructor | src/components/InstagramCardPreview.tsx:18-21 | a run starts with an empty batch and a zero counter, and publishes nothing |
| Preview.Batch.Complete | src/components/InstagramCardPreview.tsx:23-33 | one completion appends the file's preview (its name as `alt`, its read result as `src`, the counter in the id) and advances the counter; ids stay distinct; the batch never outgrows the file list; when it becomes full it is published whole and every file has completed, otherwise the card is unchanged |
| Preview.RunBatch | src/components/InstagramCardPreview.tsx:21-35 | for any completion order, the batch ends with one preview per file in completion order, and it is published exactly once, whole, on the last completion; an empty list publishes nothing |
| Preview.SupersededBatchStillPublishes | src/components/InstagramCardPreview.tsx:37-42 | a run for a superseded list that completes after the newer run still publishes, and its previews replace the newer ones |
| Page.Home.constructor | src/app/page.tsx:8 | the stored list starts empty |
| Page.Home.HandleImagesUpload | src/app/page.tsx:10-12 | the emitted list replaces the stored list |

## Left out

- JSX markup, inline styles, the SVG icon and the other CSS classes are presentation only. Of the card, only the grid classes, the cell list and the filler cell are modelled.
- The JSX handlers at src/components/ImageUploader.tsx:65-67 are `(e)=>handleDrop`. They return the handler without calling it, so in the running page a drop never reaches the processing path. The model covers the handlers themselves and does not claim that drag and drop works end to end.
- `FileReader.readAsDataURL` and `Date.now()` are browser calls. The read result and the timestamp are parameters of `Batch.Complete`.
- Real asynchrony and React's effect and hook machinery are not modelled. This includes dependency lists and re-render scheduling. Completions are sequential `Complete` calls in any order. Its precondition `i !in order` says that each reader fires `onloadend` once.
- The published list is the same JavaScript array that later callbacks would push to. A `seq` does not capture that sharing. It is not observable, since no callback of a run fires after the run's last completion.
- A fractional, NaN or infinite `maxImages` is not modelled; `maxImages` is an integer. With `Infinity`, `imageFiles.length > maxImages` is never true, so the cap would never apply. Negative and zero caps follow JavaScript's `slice`.
- Decimal.IntToString: JavaScript writes numbers of magnitude 10^21 or more in exponent notation (`1e+21`), and integers above 2^53 are not exact JavaScript numbers. The model writes every integer in full digits, so it matches the source's cap message and preview ids only below 10^21.
- Intake.Uploader.HandleFileChange: only the input's `value` is reset. Whether the browser also clears its file list, and how it fires change events, is not modelled.
- Version guarding across runs, cancellation, per-file timeouts and decode error policies are not modelled. The code has none of them.
