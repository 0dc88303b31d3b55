# CAD-Inspection: the viewer page's session state, in Dafny

CAD-Inspection is a browser page. The user picks a CAD file and the page
previews it.
- A STEP file (`.stp`, `.step`) is imported and shown in a three.js scene.
- A SolidWorks part (`.sldprt`) gets a fallback surface. A stub preview viewer
  writes a notice there, and a "convert" button appears. Clicking it simulates a
  conversion: a placeholder model is shown and a dummy `.stp` file is offered for
  download.
- Any other file raises an alert.

This project models that state machine in five modules:

- `Platform` (platform.dfy) holds the browser and three.js objects the handlers
  touch:
  - a picked `File`, seen through its name;
  - a container `Element`, seen as the texts of its children;
  - an `Object3D`, whose `disposed` flag stands for the release of its meshes.
- `FileNames` (file_names.dfy) holds the two string expressions of main.js as pure
  functions:
  - `Extension`, the lower-cased last piece of `name.split('.')`, and its three-way
    `Classify`;
  - `DownloadName` and `LinkText`. They are built from
    `name.replace(/\.[^/.]+$/, "") + ".stp"`.

  The regular expression is stated as the predicate `ExtensionMatchAt`.
  `StripExtension` is tied to it in both directions.
- `RevViewer` (rev_viewer.dfy) is the preview stub `Viewer`: a class over a
  container whose `Load` appends one notice and whose `Dispose` empties it.
- `AppState` (app_state.dfy) has two parts:
  - the whole session state as one value, `View`. It holds the hidden flags of
    the page elements, the download link, the file input, the module-level
    variables of main.js, the models in the scene and the fallback container's
    children;
  - one pure transition function per handler and per asynchronous continuation.

  The lemmas state what the handlers promise, the two invariants they keep
  (`Consistent`, `SingleModel`) and two whole flows.
- `App` (app_session.dfy) is the imperative side. `Session` is a class whose fields
  are main.js's module-level state. Each handler is a method that updates those
  fields statement by statement, as main.js does, and is proved to reach exactly
  `F(old state)` for its transition function `F` in `AppState`.

The asynchronous parts of main.js are separate atomic methods, called later by the
event loop:
- the FileReader's `onload` (`OnStepFileRead`);
- the code after the importer's `await` (`OnStepImportSettled`);
- the code after `await revViewer.load` (`OnSldprtLoadSettled`);
- the `setTimeout` body (`OnConversionTimer`).

`HandleFileSelect` returns the continuation it leaves pending.

An unsupported file changes neither surface (main.js:108-111), so both keep
their visibility (`AppState.SelectUnsupported`).

## Model

| member | source | states |
|---|---|---|
| `FileNames.Extension` | main.js:94 | `file.name.split('.').pop().toLowerCase()`: the lower-cased last dot-separated piece (its properties are the lemmas below) |
| `FileNames.KindOfExtension` | main.js:96-110 | the comparisons of the extension with `stp` or `step` (STEP), then with `sldprt` (SLDPRT); anything else is unsupported |
| `FileNames.Classify` | main.js:94-110 | the branch handleFileSelect takes for a file name |
| `FileNames.StripExtension` | main.js:133 | `replace(/\.[^/.]+$/, "")`: the result is a prefix of the name, and when it is shorter the regular expression matches right after it |
| `FileNames.DownloadName` | main.js:133 | `stpFileName`: the stripped name followed by `.stp` |
| `FileNames.LinkText` | main.js:137 | the link label `Download ${stpFileName}` |
| `RevViewer.PreviewNotice` | vendor/rev-viewer/rev-viewer.js:8 | the notice text `Preview for "<file.name>" is not supported in this demo.` |
| `FileNames.Lower` | main.js:94 | `toLowerCase` keeps the length and lower-cases each character |
| `FileNames.Split` | main.js:94 | `split('.')` yields at least one piece; exactly one (the whole string) when there is no separator, at least two when there is one |
| `FileNames.JoinSplit` | main.js:94 | joining the pieces of `split` with the separator gives back the string |
| `FileNames.LastPieceIsFinalSegment` | main.js:94 | the piece `pop()` returns is the longest separator-free suffix: it ends the name, holds no dot, and is the whole name or follows a dot |
| `FileNames.LastPieceAfterSeparator` | main.js:94 | for any name `stem + "." + tail` with a dot-free tail, the last piece is the tail |
| `FileNames.ExtensionOfDotted` | main.js:94 | the extension of `stem.ext` is `ext` lower-cased, whatever the stem holds |
| `FileNames.ExtensionOfUndotted` | main.js:94 | a name without a dot is its own (lower-cased) extension |
| `FileNames.ExtensionHasNoDot` | main.js:94 | the extension never contains a dot |
| `FileNames.ClassifyStepExamples` | main.js:94-97 | `part.stp`, `PART.STEP` and the dot-less name `step` all take the STEP branch |
| `FileNames.ClassifyOtherExamples` | main.js:94-110 | `part.SLDPRT` takes the SLDPRT branch; `drawing.dwg` is unsupported |
| `FileNames.ClassifyUsesLastExtension` | main.js:94-110 | only the last extension counts: `archive.step.zip` is unsupported, `part.zip.step` is STEP |
| `FileNames.StripAtMatch` | main.js:133 | where `/\.[^/.]+$/` matches at index i, the replacement keeps exactly the text before i |
| `FileNames.StripFindsMatch` | main.js:133 | whenever the stripped name is shorter, the regular expression matches at the dot removed from |
| `FileNames.StripWithoutMatch` | main.js:133 | where the regular expression matches nowhere, the name is kept whole |
| `FileNames.MatchIsUnique` | main.js:133 | the regular expression can match at one index at most |
| `FileNames.DownloadNameReplacesExtension` | main.js:133-137 | `stem.ext` with a non-empty extension free of `.` and `/` is offered as `stem.stp`, labelled `Download stem.stp` |
| `FileNames.DownloadNameOfUndotted` | main.js:133 | a name without a dot gains `.stp` |
| `FileNames.DownloadNameIdempotent` | main.js:133 | converting an already converted name changes nothing |
| `FileNames.DownloadNameIsStep` | main.js:94-96 | the offered name would itself take the STEP branch |
| `FileNames.DownloadNameExamples` | main.js:133-137 | `part.sldprt` gives `part.stp`, `a.b.sldprt` gives `a.b.stp`, and the label is `Download part.stp` |
| `FileNames.DownloadNameOfNoext` | main.js:133 | `noext` gives `noext.stp` |
| `FileNames.DownloadNameWithoutExtension` | main.js:133 | `part.` gives `part..stp`; `v1.0/part` gives `v1.0/part.stp` (a dot before a slash is no extension) |
| `RevViewer.Viewer.constructor` | vendor/rev-viewer/rev-viewer.js:2-4 | stores the given container and adds no children to it |
| `RevViewer.Viewer.Load` | vendor/rev-viewer/rev-viewer.js:6-10 | appends exactly one notice, `Preview for "<name>" is not supported in this demo.`, after the existing children; with no container the promise is rejected and nothing changes |
| `RevViewer.Viewer.Dispose` | vendor/rev-viewer/rev-viewer.js:12-16 | leaves the container with no children (so a second call changes nothing); with no container it does nothing |
| `App.Session.constructor` | main.js:6-15 | the session starts in `Initial()`: the scene shown, everything else hidden or empty, no model, no preview viewer |
| `App.Session.Pick` | main.js:87 | the browser stores the picked file (or none) in the file input |
| `App.Session.ResetUI` | main.js:77-84 | the state becomes `Reset(old)`: convert button and link hidden, link href, download and text cleared, file name cleared |
| `App.Session.ShowThreeJsViewer` | main.js:196-204 | the state becomes `ShowScene(old)`: the scene shown, the fallback hidden, no preview viewer and an empty fallback container |
| `App.Session.ShowRevViewer` | main.js:206-209 | the state becomes `ShowFallback(old)` |
| `App.Session.LoadSldprtModel` | main.js:178-186 | whatever the fallback container held, it ends holding exactly the picked file's notice, from a fresh viewer on that container; the state becomes `SldprtLoadStarted(old)`, and the rest of the function is left pending, not rejected |
| `App.Session.HandleFileSelect` | main.js:86-111 | the state becomes `FileSelected(old)` and the continuation left pending is `Scheduled(old)`; on the SLDPRT path the viewer is a fresh one |
| `App.Session.OnStepFileRead` | main.js:147-156 | the old model leaves the scene and is disposed; the state becomes `StepFileRead(old)` |
| `App.Session.OnStepImportSettled` | main.js:158-175 | the state becomes `StepImportSettled(old, outcome)` for every outcome of the import |
| `App.Session.OnSldprtLoadSettled` | main.js:186-193 | the state becomes `SldprtLoadSettled(old, rejected)` |
| `App.Session.HandleConversion` | main.js:114-116 | the state becomes `ConversionClicked(old)` |
| `App.Session.OnConversionTimer` | main.js:119-144 | the state becomes `ConversionFinished(old, cube, href)` for a fresh placeholder `cube` |
| `AppState.ShowSceneEffects` | main.js:196-204 | afterwards the scene is visible, the fallback hidden, no preview viewer, an empty container, the models untouched; applying it twice equals applying it once |
| `AppState.ShowFallbackOpposite` | main.js:206-209 | gives exactly the opposite visibility of `showThreeJsViewer`, keeps the viewer, the container and the scene, and is idempotent |
| `AppState.LastSwitchWins` | main.js:196-209 | of two switches in a row the later one decides the visibility; scene after fallback is the same state as scene alone |
| `AppState.SelectWithoutFile` | main.js:87-88 | with no file selected nothing changes and nothing is left pending |
| `AppState.SelectResetsFirst` | main.js:88-93 | with a file, for every kind: the link ends hidden and empty, the file name is recorded, the convert button is shown iff SLDPRT, the loader stays shown iff supported |
| `AppState.SelectStep` | main.js:96-103 | a STEP file shows the scene, keeps the models and leaves the FileReader's `onload` pending |
| `AppState.SelectSldprt` | main.js:104-107 | a SLDPRT file shows the fallback with the convert button and exactly one notice from the new viewer, and leaves the load's settling pending |
| `AppState.SelectUnsupported` | main.js:108-111 | any other file keeps both surfaces' visibility, raises the unsupported-format alert and leaves the file in the input |
| `AppState.StepFileReadRemovesModel` | main.js:148-156 | the old model is out of the scene before the import starts, the scene loses nothing else, and no other part of the state changes |
| `AppState.StepImportOutcomes` | main.js:158-175 | on every outcome the loader is hidden and the input cleared; the current model changes exactly on a success with a root; each failure raises its own alert |
| `AppState.SldprtSettleCleansUp` | main.js:186-193 | on both outcomes the loader is hidden and the input cleared; only a rejection raises an alert |
| `AppState.ConversionFinishedEffects` | main.js:119-144 | the scene is shown, the placeholder replaces the previous model, the link is shown with the converted name and label, the conversion loader is hidden |
| `AppState.ConvertButtonStaysHidden` | main.js:114-144 | after a click and its timer the convert button and conversion loader are hidden and the link shown |
| `AppState.InitialIsConsistent` | main.js:6-15 | the initial state satisfies both invariants |
| `AppState.SwitchesKeepConsistent` | main.js:77-84 | exactly one surface is shown and a viewer exists only while the fallback is shown, before and after `resetUI`, either switch, and a pick |
| `AppState.SelectKeepsConsistent` | main.js:86-111 | `handleFileSelect` keeps that invariant, given the viewer it creates on the SLDPRT path |
| `AppState.LoadsKeepConsistent` | main.js:147-193 | the continuations of both loads keep it |
| `AppState.ConversionKeepsConsistent` | main.js:114-144 | the click and the timer keep it |
| `AppState.SelectKeepsSingleModel` | main.js:86-111 | picking and selecting a file keep the scene down to at most the current model |
| `AppState.ConversionKeepsSingleModel` | main.js:119-130 | settling a SLDPRT load, clicking and the timer keep that invariant |
| `AppState.StepLoadKeepsSingleModel` | main.js:147-164 | a STEP load run from `onload` to its end keeps that invariant; after `onload` the scene is empty |
| `AppState.OverlappingStepLoads` | main.js:147-164 | two STEP loads whose imports overlap both add their model, and the invariant breaks |
| `AppState.SldprtConversionFlow` | main.js:104-144 | picking a SLDPRT file, settling, clicking and the timer offer the file under `DownloadName(name)` labelled `LinkText(name)`, with only the placeholder in the scene |
| `AppState.StepFlow` | main.js:96-175 | picking a STEP file and a successful import leave the imported model as the only, framed, model, the loader hidden and the input cleared |

## Left out

- The three.js scene, renderer, camera, lights, orbit controls, `animate` and `onWindowResize` (main.js:20-75) are rendering glue. Only the set of models added to the scene is kept.
- `centerCamera` (main.js:211-230) is floating-point trigonometry. The camera is abstracted as `framedOn`, the object it was last framed on.
- The `occt-import-js` importer and its worker URL (main.js:3, 18, 158-160) are a foreign library. How the import settles is a parameter, `ImportOutcome`: resolved with a result, or rejected.
- Several browser services are not modelled:
  - `FileReader`, `Blob` and `URL.createObjectURL`. The object URL is the `href` parameter of `OnConversionTimer`.
  - `console.error`.
  - The 1500 ms delay. Each asynchronous continuation is an atomic method.
  - How an alert is displayed. Alerts are recorded in order, and `Alert.Message` gives each one's text.
- The mesh traversal in `loadStepModel` (main.js:150-155) is collapsed into the single `disposed` flag of the removed model.
- Overlapping asynchronous completions (a second file picked before the first load settles, or during a conversion) are not modelled as interleavings. `AppState.OverlappingStepLoads` shows the scene can then hold a model that is not the current one.
- The initial visibility of the page elements comes from index.html, which is not part of this model. The model assumes the scene is shown and the fallback, both loaders, the convert button and the link are hidden.
- vendor/rev-viewer/tools.js is never called and is not part of this model.
- `FileNames.Lower`: folds only the ASCII letters A-Z, while `toLowerCase` folds all of Unicode. The three extensions the dispatch compares against are ASCII, and no non-ASCII character lower-cases to one of their letters. So the dispatch comes out the same; no other string is lower-cased.
- `RevViewer.Viewer`: its `container` is a constant, because the stub never reassigns it.
- `App.Session.LoadSldprtModel`: the load is never rejected here, because the session's fallback container always exists. The rejection path of main.js:187-189 is reached through `OnSldprtLoadSettled(true)`.
