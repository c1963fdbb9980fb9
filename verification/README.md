# PhotoAnalyzerApp — a Dafny model of the photo pipeline

PhotoAnalyzerApp lets a user pick a photo. The app then:

- classifies the photo as portrait, landscape or square;
- asks the platform whether it shows a face;
- gives it a generated display name such as `beach-3`;
- stores a compressed copy;
- shows it in a searchable grid.

This project models the pure, sequential rules behind that flow and proves
their properties.

- **Orientations** (`orientations.dfy`): the three-way orientation enum, the
  size classifier, and the string tag stored for each orientation (decoding
  is total, with square as the fallback).
- **Names** (`names.dfy`): the 20-word name pool and the per-word counters.
  It also covers the generator that turns a pick into `lowercase(word)-count`,
  and runs of several generations.
- **Records** (`records.dfy`): the in-memory `ProcessedImage`, the persisted
  `StoredImage`, and the adapters between them. Image compression, image
  decoding and face counting are the function values of a `Platform`, and each
  of them may fail.
- **Pipeline** (`pipeline.dfy`): the view model's state and its transitions:
  - loading from the store (`compactMap` over the fetched records);
  - saving one record;
  - the start of `processImage`, its background analysis and its main-queue
    completion step;
  - the whole sequence run to completion.
- **Gallery** (`gallery.dfy`): the main screen's logic:
  - the case-insensitive search filter;
  - the tap that opens a cell;
  - the export button's first-match lookup;
  - the picker hand-off;
  - the table of cell heights.
- **HexColor** (`hex_color.dfy`): the byte extraction `(hex >> k) & 0xff` of
  `Color(hex:)`.
- Helpers: `Wrappers` (Option), `Text` (ASCII case mapping, substring
  containment, decimal rendering), `Sequences` (filter, compactMap, first
  index, subsequence).

## Behaviour worth knowing

- The completion step of `processImage` appends the new record to
  `processedImages` only, not to `allImages`
  (PhotoAnalyzerApp/PhotoAnalyzerApp/Screens/MainScreen/ViewModel/PhotoViewModel.swift:83).
  The search handler rebuilds the grid from `allImages`. So after typing a
  query and clearing it, a photo processed since the last load disappears from
  the grid until the next load. `Gallery.ClearedSearchDropsNewRecord` states
  this.
- A picture that cannot be compressed is not saved, and nothing is logged: the
  save returns early. A failed commit is only logged. The published state after
  the completion step depends on neither (`Pipeline.CompletionIgnoresPersistence`).
  After a failed commit, a relaunch before any later successful save does not
  see the record (`Pipeline.RelaunchAfterSave`). The record stays pending, so
  the next successful save commits it as well (`Pipeline.PendingCommittedLater`).
- No explicit failed state exists. Picker bytes that cannot be decoded simply
  never reach `processImage`, and the store is not touched (`Gallery.Ingest`).
- Loading has no error result. A fetch that throws leaves the state unchanged,
  and records whose bytes do not decode are dropped silently.
- The classifier accepts any sizes. Equal sides, including 0 x 0, are square.
- The name counters start empty at every launch, and loading does not rebuild
  them. So after a relaunch, the first picture that draws "Sunset" is named
  `sunset-1` again, even when a stored record already has that name. The
  export button takes the first record with the name in the detail view. It
  therefore exports the old loaded picture, while the detail view shows the new
  one (`Gallery.RelaunchExportFindsLoadedRecord`,
  `Gallery.RelaunchExportsOldPicture`). Names are distinct only within one
  launch (`Names.RunNamesDistinct`).

## Model

| member | source | states |
|---|---|---|
| Orientations.Classify | PhotoAnalyzerApp/PhotoAnalyzerApp/Screens/MainScreen/ViewModel/PhotoViewModel.swift:111-120 | Exactly one class applies: landscape iff width > height, portrait iff width < height, square iff the sides are equal (0 x 0 included) |
| Orientations.ClassifyTurned | PhotoAnalyzerApp/PhotoAnalyzerApp/Screens/MainScreen/ViewModel/PhotoViewModel.swift:111-120 | Swapping width and height swaps portrait and landscape and keeps square |
| Orientations.ClassifyScaleInvariant | PhotoAnalyzerApp/PhotoAnalyzerApp/Screens/MainScreen/ViewModel/PhotoViewModel.swift:111-120 | Scaling both sides by a positive factor keeps the class |
| Orientations.DecodeTag | PhotoAnalyzerApp/PhotoAnalyzerApp/Screens/MainScreen/ViewModel/PhotoViewModel.swift:39-44 | Decoding is total; it yields portrait iff the tag is "portrait", landscape iff the tag is "landscape", and square for every other tag |
| Orientations.TagRoundTrip | PhotoAnalyzerApp/PhotoAnalyzerApp/Screens/MainScreen/ViewModel/PhotoViewModel.swift:39-62 | Decoding the tag written for any orientation gives back that orientation |
| Orientations.EncodeTag | PhotoAnalyzerApp/PhotoAnalyzerApp/Screens/MainScreen/ViewModel/PhotoViewModel.swift:57-62 | The stored tag is always one of "portrait", "landscape" and "square"; with `TagRoundTrip` and `EncodeTagInjective` each orientation has its own tag, which decodes back to it |
| Orientations.EncodeTagInjective | PhotoAnalyzerApp/PhotoAnalyzerApp/Screens/MainScreen/ViewModel/PhotoViewModel.swift:57-62 | Different orientations are stored under different tags |
| Orientations.TagNormalises | PhotoAnalyzerApp/PhotoAnalyzerApp/Screens/MainScreen/ViewModel/PhotoViewModel.swift:39-62 | A tag survives decode-then-encode iff it is one of the three written tags; other tags are normalised |
| Names.PoolNonEmpty | PhotoAnalyzerApp/PhotoAnalyzerApp/Screens/MainScreen/ViewModel/PhotoViewModel.swift:26-31 | The pool holds 20 words, so `randomElement()` always yields a pool word and the "Image" fallback is never used |
| Names.PoolCapitalised | PhotoAnalyzerApp/PhotoAnalyzerApp/Screens/MainScreen/ViewModel/PhotoViewModel.swift:26-31 | Every pool word is one capital letter followed by lower-case ASCII letters |
| Names.GenerateName | PhotoAnalyzerApp/PhotoAnalyzerApp/Screens/MainScreen/ViewModel/PhotoViewModel.swift:105-109 | The chosen word's counter grows by exactly 1 from its default of 0, no other counter is added or changed, and the name is the lowered word, a dash and the updated count |
| Names.GeneratedNameWellFormed | PhotoAnalyzerApp/PhotoAnalyzerApp/Screens/MainScreen/ViewModel/PhotoViewModel.swift:105-109 | Every generated name has the shape `[a-z]+-[1-9][0-9]*` |
| Names.ParseRender | PhotoAnalyzerApp/PhotoAnalyzerApp/Screens/MainScreen/ViewModel/PhotoViewModel.swift:108 | Splitting a generated name at its dash gives back the lowered word and the count |
| Names.RenderInjective | PhotoAnalyzerApp/PhotoAnalyzerApp/Screens/MainScreen/ViewModel/PhotoViewModel.swift:108 | Two different (pool word, count) pairs never produce the same name |
| Names.RunCountersMonotone | PhotoAnalyzerApp/PhotoAnalyzerApp/Screens/MainScreen/ViewModel/PhotoViewModel.swift:107 | Over any run of generations, counters never decrease and no counter disappears |
| Names.RunNamesAbove | PhotoAnalyzerApp/PhotoAnalyzerApp/Screens/MainScreen/ViewModel/PhotoViewModel.swift:105-109 | Each name in a run uses a count above the count its word had when the run began |
| Names.FirstNameFresh | PhotoAnalyzerApp/PhotoAnalyzerApp/Screens/MainScreen/ViewModel/PhotoViewModel.swift:105-109 | The first name of a run differs from every later name of the run |
| Names.RunPrefixStep | PhotoAnalyzerApp/PhotoAnalyzerApp/Screens/MainScreen/ViewModel/PhotoViewModel.swift:105-109 | The k-th name of a run is the name one generation draws from the counters left by the first k generations |
| Names.PrefixCountersMonotone | PhotoAnalyzerApp/PhotoAnalyzerApp/Screens/MainScreen/ViewModel/PhotoViewModel.swift:107 | A longer prefix of a run leaves every counter at least as high as a shorter one |
| Names.RunCountNamed | PhotoAnalyzerApp/PhotoAnalyzerApp/Screens/MainScreen/ViewModel/PhotoViewModel.swift:105-109 | The k-th name of a run prints its word with `RunCount`, the word's counter after the first k generations plus one, and that count lies above the word's count at the start of the run |
| Names.SameWordIncreasing | PhotoAnalyzerApp/PhotoAnalyzerApp/Screens/MainScreen/ViewModel/PhotoViewModel.swift:105-109 | When a run draws the same word at positions i < j, the count printed at j is strictly larger than the one printed at i |
| Names.RunNamesDistinct | PhotoAnalyzerApp/PhotoAnalyzerApp/Screens/MainScreen/ViewModel/PhotoViewModel.swift:105-109 | The names of any run of generations are pairwise distinct |
| Text.Decimal | PhotoAnalyzerApp/PhotoAnalyzerApp/Screens/MainScreen/ViewModel/PhotoViewModel.swift:108 | A rendered counter is a non-empty string of digits with no leading zero when the counter is positive |
| Text.ParseDecimalRoundTrip | PhotoAnalyzerApp/PhotoAnalyzerApp/Screens/MainScreen/ViewModel/PhotoViewModel.swift:108 | Reading a rendered counter back gives the counter |
| Text.LowerInjectiveOnCapitalised | PhotoAnalyzerApp/PhotoAnalyzerApp/Screens/MainScreen/ViewModel/PhotoViewModel.swift:108 | `lowercased()` maps different capitalised words to different strings |
| Text.ContainsIff | PhotoAnalyzerApp/PhotoAnalyzerApp/Screens/MainScreen/View/ContentView.swift:206 | `contains` holds iff the query occurs at some position of the name, in both directions |
| Sequences.Filter | PhotoAnalyzerApp/PhotoAnalyzerApp/Screens/MainScreen/View/ContentView.swift:205-207 | The filter never grows the list and every kept element satisfies the predicate |
| Sequences.FilterCounts | PhotoAnalyzerApp/PhotoAnalyzerApp/Screens/MainScreen/View/ContentView.swift:205-207 | The result holds nothing the input does not, and each satisfying element is kept exactly as often as it occurs |
| Sequences.FilterIsSubsequence | PhotoAnalyzerApp/PhotoAnalyzerApp/Screens/MainScreen/View/ContentView.swift:205-207 | The filter keeps relative order: the result is a subsequence of the input |
| Sequences.FilterIdempotent | PhotoAnalyzerApp/PhotoAnalyzerApp/Screens/MainScreen/View/ContentView.swift:205-207 | Filtering twice with the same predicate equals filtering once |
| Sequences.CompactMap | PhotoAnalyzerApp/PhotoAnalyzerApp/Screens/MainScreen/ViewModel/PhotoViewModel.swift:37-46 | The result is no longer than the input, and each element is the successful image of some input |
| Sequences.CompactMapIsFilterThenMap | PhotoAnalyzerApp/PhotoAnalyzerApp/Screens/MainScreen/ViewModel/PhotoViewModel.swift:37-46 | compactMap equals keeping the inputs on which the function succeeds and unwrapping it on each, position by position |
| Sequences.FirstIndex | PhotoAnalyzerApp/PhotoAnalyzerApp/Screens/MainScreen/View/ContentView.swift:168 | A found index satisfies the predicate and no earlier index does; nothing is found iff no element satisfies it |
| Records.ToStored | PhotoAnalyzerApp/PhotoAnalyzerApp/Screens/MainScreen/ViewModel/PhotoViewModel.swift:56-63 | No stored record exists iff JPEG encoding fails; otherwise it carries the record's name, face flag, the tag that decodes to its orientation, and the encoded bytes |
| Records.Revive | PhotoAnalyzerApp/PhotoAnalyzerApp/Screens/MainScreen/ViewModel/PhotoViewModel.swift:38-45 | A stored record is dropped iff its bytes do not decode; otherwise it keeps its name and face flag, its orientation is the decoded tag, and its image is the decoded bytes |
| Records.StoreReviveRoundTrip | PhotoAnalyzerApp/PhotoAnalyzerApp/Screens/MainScreen/ViewModel/PhotoViewModel.swift:38-63 | Storing then reviving a record restores name, face flag and orientation, with the decoder's copy of the picture |
| Pipeline.Initial | PhotoAnalyzerApp/PhotoAnalyzerApp/Screens/MainScreen/ViewModel/PhotoViewModel.swift:15-32 | A new view model has empty lists, no selected picture, an empty `tempName`, the face, progress and detail flags off, and every word's counter at its default 0 |
| Pipeline.DecodeAll | PhotoAnalyzerApp/PhotoAnalyzerApp/Screens/MainScreen/ViewModel/PhotoViewModel.swift:37-46 | The loaded list is no longer than the fetch, and each loaded record is the revival of some fetched record |
| Pipeline.Load | PhotoAnalyzerApp/PhotoAnalyzerApp/Screens/MainScreen/ViewModel/PhotoViewModel.swift:34-53 | A fetch that throws changes nothing; otherwise `allImages == processedImages`, both are built from decodable fetched records, and no other field changes |
| Pipeline.LoadKeepsDecodable | PhotoAnalyzerApp/PhotoAnalyzerApp/Screens/MainScreen/ViewModel/PhotoViewModel.swift:37-49 | The loaded list has one entry per decodable stored record, in fetch order, each the revival of that record |
| Pipeline.LoadAllDecodable | PhotoAnalyzerApp/PhotoAnalyzerApp/Screens/MainScreen/ViewModel/PhotoViewModel.swift:37-49 | When every stored picture decodes, nothing is dropped and every record keeps its stored name, face flag and decoded orientation |
| Pipeline.Save | PhotoAnalyzerApp/PhotoAnalyzerApp/Screens/MainScreen/ViewModel/PhotoViewModel.swift:55-70 | Failed encoding inserts nothing. Otherwise exactly one record is appended with the record's name, face flag and orientation tag. A failed commit leaves the durable part unchanged |
| Pipeline.SaveThenLoad | PhotoAnalyzerApp/PhotoAnalyzerApp/Screens/MainScreen/ViewModel/PhotoViewModel.swift:34-70 | Loading what a save inserted ends with the saved record, up to the decoder's copy of the picture |
| Pipeline.RelaunchAfterSave | PhotoAnalyzerApp/PhotoAnalyzerApp/Screens/MainScreen/ViewModel/PhotoViewModel.swift:34-70 | A relaunch fetches only committed objects: after a failed commit it shows exactly what it showed before the save, and after a successful commit its list ends with the saved record |
| Pipeline.PendingCommittedLater | PhotoAnalyzerApp/PhotoAnalyzerApp/Screens/MainScreen/ViewModel/PhotoViewModel.swift:55-70 | After a failed commit the inserted record stays pending; the next successful save makes it durable, just before its own record |
| Pipeline.DetectFace | PhotoAnalyzerApp/PhotoAnalyzerApp/Screens/MainScreen/ViewModel/PhotoViewModel.swift:93-103 | A face is reported iff the request ran and found at least one face; every failure reads as "no face" |
| Pipeline.Analyse | PhotoAnalyzerApp/PhotoAnalyzerApp/Screens/MainScreen/ViewModel/PhotoViewModel.swift:76-79 | The background step reports a face iff the detector ran and found one, landscape iff width > height and portrait iff width < height. The chosen word's counter grows by one, the name prints the word with the new count, no other counter changes, and nothing outside the counters changes |
| Pipeline.Complete | PhotoAnalyzerApp/PhotoAnalyzerApp/Screens/MainScreen/ViewModel/PhotoViewModel.swift:81-89 | Exactly one record with the analysed name, face flag and orientation is appended to `processedImages`. `allImages` is unchanged. `tempName` and `tempFaceDetected` are published, `isProcessing` is false, `showingDetail` is true, and the record is saved |
| Pipeline.CompletionIgnoresPersistence | PhotoAnalyzerApp/PhotoAnalyzerApp/Screens/MainScreen/ViewModel/PhotoViewModel.swift:55-89 | The published state after completion is the same whether encoding or commit succeed or fail |
| Pipeline.Process | PhotoAnalyzerApp/PhotoAnalyzerApp/Screens/MainScreen/ViewModel/PhotoViewModel.swift:72-91 | A full run appends one record whose name is the generated name, whose face flag is the detector's answer and whose orientation is the classifier's; the counters advance, the UI flags settle, and the new record is saved to the store |
| Pipeline.ProcessAll | PhotoAnalyzerApp/PhotoAnalyzerApp/Screens/MainScreen/ViewModel/PhotoViewModel.swift:72-91 | Processing n pictures appends n records, keeps the earlier ones, and names them in order with the names of the generator run |
| Pipeline.ProcessAllNamesDistinct | PhotoAnalyzerApp/PhotoAnalyzerApp/Screens/MainScreen/ViewModel/PhotoViewModel.swift:105-109 | The records added by successive processing steps have pairwise distinct names |
| Gallery.SearchResults | PhotoAnalyzerApp/PhotoAnalyzerApp/Screens/MainScreen/View/ContentView.swift:201-209 | An empty query shows exactly `allImages`. Otherwise every shown record's lowered name contains the lowered query, and every matching record is shown as often as it occurs. Nothing outside `allImages` appears, and the original order is kept |
| Gallery.OnSearchChange | PhotoAnalyzerApp/PhotoAnalyzerApp/Screens/MainScreen/View/ContentView.swift:201-209 | A query change replaces only `processedImages`, with the search results over `allImages`; an empty query resets it to `allImages` |
| Gallery.SearchIdempotent | PhotoAnalyzerApp/PhotoAnalyzerApp/Screens/MainScreen/View/ContentView.swift:205-207 | Applying a query to its own results changes nothing |
| Gallery.SearchCaseInsensitive | PhotoAnalyzerApp/PhotoAnalyzerApp/Screens/MainScreen/View/ContentView.swift:206 | A query and its lowered form give the same results |
| Gallery.SearchShowsIff | PhotoAnalyzerApp/PhotoAnalyzerApp/Screens/MainScreen/View/ContentView.swift:205-207 | For a non-empty query, a record is shown iff the lowered query occurs somewhere in its lowered name |
| Gallery.Tap | PhotoAnalyzerApp/PhotoAnalyzerApp/Screens/MainScreen/View/ContentView.swift:107-112 | Tapping a cell selects its picture, publishes its name and face flag and opens the detail view; the lists and counters are untouched |
| Gallery.ExportTarget | PhotoAnalyzerApp/PhotoAnalyzerApp/Screens/MainScreen/View/ContentView.swift:168 | A found record is named `tempName` and no earlier record is; nothing is found iff no displayed record has that name |
| Gallery.TapThenExport | PhotoAnalyzerApp/PhotoAnalyzerApp/Screens/MainScreen/View/ContentView.swift:107-170 | After tapping a cell, export finds a record with the tapped name at or before that cell; with distinct names it is the tapped record |
| Gallery.ProcessThenExport | PhotoAnalyzerApp/PhotoAnalyzerApp/Screens/MainScreen/View/ContentView.swift:168 | Right after processing, export finds a record carrying the newly generated name |
| Gallery.ExportFindsOlderNamesake | PhotoAnalyzerApp/PhotoAnalyzerApp/Screens/MainScreen/View/ContentView.swift:168 | When a displayed record already carries the name the next processing step generates, export after that step returns a record from the earlier list, not the new one |
| Gallery.RelaunchExportFindsLoadedRecord | PhotoAnalyzerApp/PhotoAnalyzerApp/Screens/MainScreen/ViewModel/PhotoViewModel.swift:32-53 | After a relaunch and load, the first pick of a word is named with count 1; if a loaded record has that name, export returns a loaded record while the new picture is selected |
| Gallery.RelaunchExportsOldPicture | PhotoAnalyzerApp/PhotoAnalyzerApp/Screens/MainScreen/View/ContentView.swift:168 | With a store holding "sunset-1" for an old picture, processing a new picture drawn as "Sunset" selects the new picture but exports the old one |
| Gallery.ClearedSearchDropsNewRecord | PhotoAnalyzerApp/PhotoAnalyzerApp/Screens/MainScreen/View/ContentView.swift:201-203 | Clearing the search after processing shows the list as last loaded, so a newly processed record not in it is no longer shown |
| Gallery.Ingest | PhotoAnalyzerApp/PhotoAnalyzerApp/Screens/MainScreen/View/ContentView.swift:192-199 | Missing or undecodable picker bytes leave state and store untouched; decodable bytes run the whole of `processImage` on the decoded picture: exactly the record with the generated name, detected face flag and classified orientation is appended, the picture is selected, the counters advance and that record is saved |
| Gallery.HeightFor | PhotoAnalyzerApp/PhotoAnalyzerApp/Screens/MainScreen/View/ContentView.swift:217-223 | Every orientation has a cell height between 120 and 220 |
| Gallery.HeightOrdered | PhotoAnalyzerApp/PhotoAnalyzerApp/Screens/MainScreen/View/ContentView.swift:217-223 | Portrait (220) > square (160) > landscape (120), so heights tell the classes apart |
| Gallery.HeightMonotoneInAspect | PhotoAnalyzerApp/PhotoAnalyzerApp/Screens/MainScreen/View/ContentView.swift:217-223 | For pictures with positive sides, a relatively taller picture never gets a shorter cell |
| HexColor.Channels | PhotoAnalyzerApp/PhotoAnalyzerApp/Extension/ColorExtencion.swift:15-17 | Each channel is a byte (0..255): red is `hex / 2^16 mod 256` (bits 16-23), green `hex / 2^8 mod 256` (bits 8-15), blue `hex mod 256` (bits 0-7) |
| HexColor.HighBitsIgnored | PhotoAnalyzerApp/PhotoAnalyzerApp/Extension/ColorExtencion.swift:15-17 | `hex` and `hex mod 2^24` give the same channels |
| HexColor.Reassemble | PhotoAnalyzerApp/PhotoAnalyzerApp/Extension/ColorExtencion.swift:15-17 | `red * 65536 + green * 256 + blue == hex mod 2^24` |
| HexColor.PackRoundTrip | PhotoAnalyzerApp/PhotoAnalyzerApp/Extension/ColorExtencion.swift:15-17 | Packing three bytes as `0xRRGGBB` and extracting the channels gives the bytes back |

## Left out

- SwiftUI layout, modifiers, picker presentation, the placeholder view
  extension and the app entry point: view wiring with no stateable logic.
- The tap that dismisses the detail view and the reset of `selectedItem` after
  a pick: single flag assignments.
- Vision face detection: the PNG round trip, the request and its results are
  folded into `Platform.faceCount`, whose `None` stands for every failure
  path. The detector's internals are not visible.
- SwiftData: the context is two lists, one of inserted objects and one of
  committed objects. The fetch result, including its order, is an input to
  `Pipeline.Load`. Error logging is not modelled, nor is the main context's
  autosave, which may commit pending objects at other times.
- Pipeline.RelaunchAfterSave: it takes the relaunch fetch to return the
  committed objects in commit order. The fetch descriptor has no sort order,
  so "the list ends with the saved record" rests on that assumption.
- Pipeline.SaveThenLoad: it takes the fetch within the same launch to return
  every inserted object, committed or not, in insertion order. The fetch
  descriptor has no sort order, so that order is an assumption.
- JPEG/PNG encoding and `UIImage(data:)`: opaque, possibly failing functions
  of `Platform`. `Image` carries a size and an uninterpreted pixel payload.
- The `UUID` identifiers of `ProcessedImage` and `StoredImage`: they are random
  and nothing in the modelled logic reads them.
- `DispatchQueue` hand-offs and the picker `Task`: the steps are modelled in
  their sequential order. The unsynchronised `nameCount` race between two
  concurrent runs is a concurrency concern outside this model.
- `saveToPhotoLibrary`, with its authorization request, album write and alert
  fields (`showAlert`, `alertMessage`): platform I/O.
- Randomness: `randomElement()` is replaced by the index of the chosen word,
  given as an input.
- Floating point: the division of each channel by 255 and the `Double`
  opacity. Sizes are exact reals, since only comparisons matter.
- Unicode: `lowercased()` is ASCII case mapping, and `contains` is plain
  character-sequence containment, without Unicode canonical equivalence.
- Names.GenerateName: counters are unbounded naturals. Swift's `Int` would trap
  on overflow at 2^63 - 1 uses of one word.
- Pipeline.ProcessAll: every save in the run is taken to commit. Commit
  outcomes do not affect the published state (`Pipeline.CompletionIgnoresPersistence`).
