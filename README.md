# TrayCamera in Dafny

TrayCamera is a system-tray utility. Clicking its tray icon captures every
display whose menu item is checked. Each capture is saved as a PNG file in a
snapshot folder, named from the local date-time and the screen's label. After
the captures, the folder's `QuickView.html` page is regenerated: it shows every
PNG file in the folder.

This project models that core of `TrayCamera.kt` and proves what it does.

- `results.dfy` (module `Results`): `Option`, `Result` and the two exceptions
  the core can raise. The cut of a too-short time string raises
  `StringIndexOutOfBounds`. Writing a file where a directory of that name
  stands, one the write cannot delete, raises `NotAFile`.
- `strings.dfy` (module `Strings`): the Kotlin string operations the naming
  uses. These are `replace` of one character, `endsWith`, and the decimal
  rendering of a positive integer.
- `naming.dfy` (module `Naming`): the snapshot name. The three chained
  `replace` calls turn `:` and `.` into `-` and `T` into `__`. The cut
  `subSequence(0, 20)` raises when fewer than 20 characters remain. The file
  name is `time + "__" + name + ".png"`.
- `screens.dfy` (module `Screens`): the displays found at start-up, each paired
  with a checked menu item labelled `Screen k`, 1-based. Also the filter to the
  checked ones, in enumeration order, and the capture name `"Screen" + label`.
  So the display labelled "Screen 2" is captured under the name "ScreenScreen 2".
- `gallery.dfy` (module `Gallery`): the snapshot folder as a listing of
  entries (name, is-directory). It covers writing a snapshot, deleting the old
  page, and the page itself as a document. The document is a title, a banner
  and one figure per image, where each figure is a heading, an alt text and a
  source.
- `orchestrator.dfy` (module `Orchestrator`): the class `TrayCamera`. Its
  fields are the screens, the tray icon, the folder listing and the last page
  written. Its methods are `captureScreen`, `generateQuickViewHtml`, the
  deferred capture task and `cameraClick`. Each method is proved against the
  pure functions of the modules above. A ghost trace `events` records the
  order of what a click does: icon on, each saved file, the page, icon off.

How the model stands in for the environment:

- The clock (`LocalDateTime.now().toString()`) is an input. Each capture
  receives its own reading, because each `captureScreen` call reads the clock
  again.
- The file system is the listing of the snapshot folder. Every write deletes
  an old file of the same name first and then creates the file, so the
  written file is listed last. This holds for a snapshot (`ImageIO.write`) and
  for the page (`delete()`, then `printWriter()`).
- An exception inside the deferred task ends that task, as in
  `TrayCamera.kt:97-102`. No later capture runs, the page is not regenerated,
  and the icon stays "on". Continuing with the other screens after one fails
  would be a different design. The model follows the code.

## Model

| member | source | states |
|---|---|---|
| Strings.Replace | app/src/main/kotlin/traycamera/TrayCamera.kt:109-111 | A character is in the result exactly when it was in the input and is not the replaced one, or it comes from the replacement and the replaced character occurred |
| Strings.ReplaceLength | app/src/main/kotlin/traycamera/TrayCamera.kt:109-111 | Replacing changes the length by the number of occurrences times (replacement length - 1) |
| Strings.NatToString | app/src/main/kotlin/traycamera/TrayCamera.kt:53 | The rendering of `index + 1` is a non-empty string of decimal digits, one digit exactly for numbers below 10 |
| Strings.EndsWithSuffix | app/src/main/kotlin/traycamera/TrayCamera.kt:118 | `endsWith` holds exactly when the string is some string followed by the suffix |
| Strings.NatToStringInjective | app/src/main/kotlin/traycamera/TrayCamera.kt:53 | Different ordinals render to different decimal strings |
| Naming.Normalize | app/src/main/kotlin/traycamera/TrayCamera.kt:109-111 | The three chained replace calls as written leave no `:`, `.` or `T` |
| Naming.Normalized | app/src/main/kotlin/traycamera/TrayCamera.kt:109-111 | The rewritten time string grows by one character per `T` and contains no `:`, `.` or `T` |
| Naming.NormalizeIsPerCharacter | app/src/main/kotlin/traycamera/TrayCamera.kt:109-111 | The three chained whole-string replacements equal rewriting each character once; no pass feeds the next |
| Naming.TimeStr | app/src/main/kotlin/traycamera/TrayCamera.kt:108-112 | The cut succeeds exactly when the rewritten string has at least 20 characters; it is then the 20-character prefix of the rewritten string, free of `:`, `.` and `T`; otherwise it is the index exception carrying the rewritten length |
| Naming.FileName | app/src/main/kotlin/traycamera/TrayCamera.kt:113 | The file name splits back into the time part, then `__` and the capture name, and it ends in `.png` |
| Naming.SnapshotName | app/src/main/kotlin/traycamera/TrayCamera.kt:108-113 | The name exists exactly when the time part does; it is 20 time characters, then `__`, then the capture name, and it ends in `.png` |
| Naming.FileNameInjective | app/src/main/kotlin/traycamera/TrayCamera.kt:113 | Two file names built from 20-character time parts are equal only when their time parts and capture names are |
| Naming.SnapshotNamesDiffer | app/src/main/kotlin/traycamera/TrayCamera.kt:113 | Captures with different names never write the same file, even within the same second |
| Naming.IsoStampWithSeconds | app/src/main/kotlin/traycamera/TrayCamera.kt:108-112 | A reading `yyyy-MM-ddTHH:mm:ss` with any fraction gives the time part `yyyy-MM-dd__HH-mm-ss` |
| Naming.IsoStampMinuteAlignedFails | app/src/main/kotlin/traycamera/TrayCamera.kt:108-112 | A minute-aligned reading `yyyy-MM-ddTHH:mm`, which has no seconds, rewrites to 17 characters and the cut to 20 raises |
| Screens.Enumerate | app/src/main/kotlin/traycamera/TrayCamera.kt:49-55 | One screen per display, in enumeration order, each with its display and checked |
| Screens.Label | app/src/main/kotlin/traycamera/TrayCamera.kt:53 | A menu label is "Screen " followed by a non-empty run of decimal digits |
| Screens.LabelInjective | app/src/main/kotlin/traycamera/TrayCamera.kt:53 | Different positions get different menu labels |
| Screens.EnumerateLabels | app/src/main/kotlin/traycamera/TrayCamera.kt:49-55 | The display at position i is labelled "Screen i+1", and no two screens share a label |
| Screens.Enabled | app/src/main/kotlin/traycamera/TrayCamera.kt:92-93 | The kept screens are exactly the checked ones |
| Screens.EnabledConcat | app/src/main/kotlin/traycamera/TrayCamera.kt:92-93 | The filter works on each part of a concatenation separately, so it keeps enumeration order |
| Screens.EnabledEmpty | app/src/main/kotlin/traycamera/TrayCamera.kt:92-95 | Nothing is selected exactly when no menu item is checked |
| Screens.EnabledKeepsLabelsDistinct | app/src/main/kotlin/traycamera/TrayCamera.kt:92-93 | Distinct labels stay distinct among the checked screens |
| Screens.CaptureName | app/src/main/kotlin/traycamera/TrayCamera.kt:94 | The capture name starts with "Screen" and the rest of it is exactly the menu label, so the label can be read back from it |
| Screens.CaptureNames | app/src/main/kotlin/traycamera/TrayCamera.kt:94 | One capture action per selected screen |
| Screens.CaptureNamesDistinct | app/src/main/kotlin/traycamera/TrayCamera.kt:94 | Screens with distinct labels get distinct capture names |
| Screens.CaptureNameOfLabel | app/src/main/kotlin/traycamera/TrayCamera.kt:94 | The capture name repeats the word: the display at position i is captured as "ScreenScreen i+1" |
| Gallery.Store | app/src/main/kotlin/traycamera/TrayCamera.kt:113-114 | Writing a file fails exactly when a directory holds its name; otherwise the listing afterwards holds the old entries and the file, and the file is listed last |
| Gallery.StoreKeepsNamesUnique | app/src/main/kotlin/traycamera/TrayCamera.kt:114 | Writing a snapshot never makes two entries share a name |
| Gallery.Delete | app/src/main/kotlin/traycamera/TrayCamera.kt:119 | Deleting the page removes that file and nothing else |
| Gallery.DeleteKeepsNamesUnique | app/src/main/kotlin/traycamera/TrayCamera.kt:119 | Deleting keeps names unique |
| Gallery.ImageFiles | app/src/main/kotlin/traycamera/TrayCamera.kt:118 | The images are exactly the listed non-directories whose name ends in `.png` |
| Gallery.ImageFilesConcat | app/src/main/kotlin/traycamera/TrayCamera.kt:118 | The image filter keeps listing order |
| Gallery.ImageFilesDelete | app/src/main/kotlin/traycamera/TrayCamera.kt:118-119 | Deleting the page does not change which images are listed |
| Gallery.GalleryIsNotAnImage | app/src/main/kotlin/traycamera/TrayCamera.kt:118-119 | `QuickView.html` does not end in `.png` |
| Gallery.QuickView | app/src/main/kotlin/traycamera/TrayCamera.kt:133-140 | The page of a listing: its title and banner are "Tray Camera Quick View", it has one figure per image file, and each figure's heading, alt and source are one name, that of a listed PNG file |
| Gallery.QuickViewShowsImages | app/src/main/kotlin/traycamera/TrayCamera.kt:133-140 | The page's title and banner are "Tray Camera Quick View"; it has one figure per image, in listing order; heading, alt and source all equal the file name; every figure is a listed PNG file, every listed PNG file is shown, and the page never shows itself |
| Gallery.Regenerate | app/src/main/kotlin/traycamera/TrayCamera.kt:117-143 | Regeneration fails exactly when a directory holds the page's name |
| Gallery.RegenerateKeepsSnapshots | app/src/main/kotlin/traycamera/TrayCamera.kt:117-143 | Regeneration removes no entry except the page and adds only the page; every figure names a file still listed |
| Gallery.RegenerateKeepsNamesUnique | app/src/main/kotlin/traycamera/TrayCamera.kt:119 | Regeneration keeps names unique |
| Gallery.RegenerateIdempotent | app/src/main/kotlin/traycamera/TrayCamera.kt:117-143 | Regenerating again with no new snapshot gives the same listing and the same page |
| Gallery.StoredSnapshotIsShown | app/src/main/kotlin/traycamera/TrayCamera.kt:113-118 | A snapshot written under a `.png` name is shown on the next page |
| Orchestrator.FileNames | app/src/main/kotlin/traycamera/TrayCamera.kt:106-113 | One file name, or one naming exception, per capture action |
| Orchestrator.Capture | app/src/main/kotlin/traycamera/TrayCamera.kt:106-114 | A capture succeeds exactly when naming succeeded and no directory holds the name; then the listing gains that file and nothing else |
| Orchestrator.CaptureAll | app/src/main/kotlin/traycamera/TrayCamera.kt:98 | The captures save at most one file per action, and they complete exactly when every action saved |
| Orchestrator.CaptureAllSaved | app/src/main/kotlin/traycamera/TrayCamera.kt:98 | The saved files are the leading file names in action order; a stop means the next action's capture failed |
| Orchestrator.CaptureAllListing | app/src/main/kotlin/traycamera/TrayCamera.kt:98 | After the captures every saved file is listed, every earlier entry is still listed, and nothing else was added |
| Orchestrator.CaptureAllStopsAtFirstFailure | app/src/main/kotlin/traycamera/TrayCamera.kt:98 | With no directory in the way, exactly the actions before the first naming failure save, and the run completes exactly when none fails |
| Orchestrator.CaptureAllStopsAtFirstShortStamp | app/src/main/kotlin/traycamera/TrayCamera.kt:98-112 | With no directory in the way, a click saves exactly as many files as there are readings before the first one too short to cut |
| Orchestrator.CaptureAllSavesDistinctFiles | app/src/main/kotlin/traycamera/TrayCamera.kt:92-98 | One click never saves the same file twice when its capture names differ |
| Orchestrator.ClickSavesDistinctFiles | app/src/main/kotlin/traycamera/TrayCamera.kt:92-98 | With distinct menu labels, the screens captured in one click never share a file |
| Orchestrator.NothingCheckedNothingCaptured | app/src/main/kotlin/traycamera/TrayCamera.kt:91-95 | A click has no action exactly when no menu item is checked |
| Orchestrator.CapturesThenPage | app/src/main/kotlin/traycamera/TrayCamera.kt:97-99 | With readings that all carry seconds and no directory in the way, every action saves its named file in order, the page is written, and it shows every saved file |
| Orchestrator.CapturesKeepSnapshots | app/src/main/kotlin/traycamera/TrayCamera.kt:98-99 | Neither the captures nor the page write remove an entry other than the old page |
| Orchestrator.TrayCamera.constructor | app/src/main/kotlin/traycamera/TrayCamera.kt:49-55 | Start-up pairs every display with a checked item, the icon is off, no page has been written, and labels are distinct |
| Orchestrator.TrayCamera.SetEnabled | app/src/main/kotlin/traycamera/TrayCamera.kt:81 | Toggling a menu item changes that screen's check state and nothing else |
| Orchestrator.TrayCamera.CaptureScreen | app/src/main/kotlin/traycamera/TrayCamera.kt:106-115 | The capture succeeds exactly as the pure capture of its snapshot name does; on success the listing is the stored one and the saved file is recorded; on failure nothing changes |
| Orchestrator.TrayCamera.GenerateQuickViewHtml | app/src/main/kotlin/traycamera/TrayCamera.kt:117-144 | The loop over the images builds exactly the page of the old listing; the listing and page become those of the regeneration, or nothing changes when it fails |
| Orchestrator.TrayCamera.CaptureEach | app/src/main/kotlin/traycamera/TrayCamera.kt:98 | The loop over the actions ends in the listing and completion of the pure run of captures and records each saved file in order |
| Orchestrator.TrayCamera.CaptureTask | app/src/main/kotlin/traycamera/TrayCamera.kt:97-102 | The deferred task: captures, then page, then icon off when all succeed; otherwise it stops at the failure with the icon unchanged and no page |
| Orchestrator.TrayCamera.CameraClick | app/src/main/kotlin/traycamera/TrayCamera.kt:91-104 | No checked screen: nothing changes. Otherwise the icon goes on, the task runs, and the click ends in one of two states: abandoned with the icon on, or complete with the new page and the icon off. The event trace gives the order. The files saved in one click are all different |

## Left out

- Screen capture (`Robot.createScreenCapture`) and PNG encoding (`ImageIO.write`): native calls with no logic to model. A capture is modelled as the file entry it creates.
- `LocalDateTime.now()`: the clock readings are inputs to `CameraClick`, one per capture.
- Tray registration and the exit codes of `start` (`TrayCamera.kt:58-70`): platform calls and process exit.
- The popup menu layout and its About, Identify Screens, Open Image Folder and Exit items (`TrayCamera.kt:77-89`, `146-176`), and resource loading: user-interface plumbing.
- `SwingUtilities.invokeLater` and `Thread.sleep(250)`: the task runs at once, and the dwell time is not modelled.
- The HTML text of the page (head, comment, style sheet, markup): the page is modelled as its title, banner and figures.
- I/O failures other than a directory holding a snapshot's or the page's name, such as disk full or permissions.
- Gallery.Store: a directory holding the name of the file being written always makes the write fail. Both `ImageIO.write` (`TrayCamera.kt:114`) and `File.delete()` (`TrayCamera.kt:119`) first remove an empty directory of that name, and the write then succeeds. The listing does not record whether a directory is empty, so that case is not modelled. The same holds for `Gallery.Regenerate`, `Orchestrator.Capture` and `Orchestrator.TrayCamera.CaptureScreen`.
- Gallery.Regenerate: a directory named `QuickView.html` always makes the page write fail, as described for `Gallery.Store`.
- The order of the folder listing is platform-defined. The model fixes one order: a written file goes last.
- Orchestrator.TrayCamera.CameraClick: the screens are captured from the state at the start of the click. Menu toggles during the task are not modelled.
