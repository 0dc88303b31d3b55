/** The state that main.js drives, as one value, and the effect of each
    handler and of each asynchronous continuation on it. The class
    App.Session holds the same state in mutable fields; each of its methods
    is proved to have exactly the effect stated here, and the lemmas below
    state what the handlers promise. */
module AppState {
  import opened Platform
  import opened FileNames
  import opened RevViewer

  /** The alerts main.js raises; Message gives the text shown. */
  datatype Alert = UnsupportedFormat | LoadFailed | ImportError | SldprtLoadError | ConversionDemo
  {
    function Message(): string
    {
      match this
      case UnsupportedFormat => "Unsupported file format."
      case LoadFailed => "Error: Could not load the model. Check the console for details."
      case ImportError => "An unexpected error occurred. Check the console for details."
      case SldprtLoadError =>
        "An unexpected error occurred while loading the SLDPRT file. Check the console for details."
      case ConversionDemo =>
        "SLDPRT to STP conversion is a complex process requiring a server-side converter.\n\n" +
        "This is a demonstration of the UI flow. A placeholder model is shown, and you can download a dummy STP file."
    }
  }

  /** How the importer's promise settles: resolved with a result (whose
      `root` may be missing), or rejected. */
  datatype ImportOutcome = Resolved(isSuccess: bool, root: Object3D?) | Rejected

  /** The continuation a file selection leaves behind: none, the FileReader's
      `onload` for a STEP file, or the rest of loadSldprtModel after its
      `await` (with whether the awaited promise was rejected). */
  datatype Pending = NoPending | PendingStepRead | PendingSldprtSettle(rejected: bool)

  /** The download link: whether it is hidden, its href, its download
      attribute and its text. */
  datatype Link = Link(hidden: bool, href: string, download: string, text: string)

  /** The page elements the handlers change: the `hidden` class of the scene
      container (viewer-container), of the fallback container
      (rev-viewer-container), of the two loaders and of the convert button;
      the download link; and the file held by the file input. */
  datatype Page = Page(
    sceneHidden: bool,
    fallbackHidden: bool,
    loaderHidden: bool,
    conversionLoaderHidden: bool,
    convertHidden: bool,
    link: Link,
    fileInput: Option<File>)

  /** The page together with main.js's module-level variables, the models in
      the scene, the object the camera was last framed on, and the children
      of the fallback container. */
  datatype View = View(
    page: Page,
    currentFileName: string,
    scene: set<Object3D>,
    currentModel: Object3D?,
    framedOn: Object3D?,
    revViewer: Viewer?,
    fallbackChildren: seq<string>,
    alerts: seq<Alert>)

  const ClearedLink := Link(true, "", "", "")

  /** The page after `init`: the scene is empty and shown, everything else is
      hidden or empty. */
  function Initial(): View
  {
    View(Page(false, true, true, true, true, ClearedLink, None), "", {}, null, null, null, [], [])
  }

  /** resetUI (main.js:77-84). */
  function Reset(v: View): View
  {
    v.(page := v.page.(convertHidden := true, link := ClearedLink), currentFileName := "")
  }

  /** showThreeJsViewer (main.js:196-204): show the scene, hide the fallback,
      dispose and forget the preview viewer and empty its container. */
  function ShowScene(v: View): View
  {
    v.(page := v.page.(sceneHidden := false, fallbackHidden := true),
       revViewer := null, fallbackChildren := [])
  }

  /** showRevViewer (main.js:206-209). */
  function ShowFallback(v: View): View
  {
    v.(page := v.page.(sceneHidden := true, fallbackHidden := false))
  }

  /** The part of loadSldprtModel that runs before its `await`
      (main.js:179-186): the old viewer is disposed and the container
      emptied, then a new viewer over the same container appends its notice. */
  function SldprtLoadStarted(v: View, file: File, viewer: Viewer?): View
  {
    v.(revViewer := viewer, fallbackChildren := [PreviewNotice(file)])
  }

  /** The browser stores the user's pick in the file input before it fires
      `change`; a cancelled dialog leaves no file. */
  function Picked(v: View, file: Option<File>): View
  {
    v.(page := v.page.(fileInput := file))
  }

  /** handleFileSelect (main.js:86-111), up to the point where it returns;
      `viewer` is the viewer created on the SLDPRT path. */
  function FileSelected(v: View, viewer: Viewer?): View
  {
    match v.page.fileInput
    case None => v
    case Some(f) => Dispatched(Prepared(v, f), f, viewer)
  }

  /** The steps of handleFileSelect that every selected file goes through
      (main.js:89-92): resetUI, show the loader, record the name. */
  function Prepared(v: View, f: File): View
  {
    var w := Reset(v);
    w.(page := w.page.(loaderHidden := false), currentFileName := f.name)
  }

  /** The three-way dispatch on the extension (main.js:94-110). */
  function Dispatched(w: View, f: File, viewer: Viewer?): View
  {
    match Classify(f.name)
    case StepFile => ShowScene(w)
    case SldprtFile =>
      var u := ShowFallback(w);
      SldprtLoadStarted(u.(page := u.page.(convertHidden := false)), f, viewer)
    case Unsupported => w.(page := w.page.(loaderHidden := true), alerts := w.alerts + [UnsupportedFormat])
  }

  /** What handleFileSelect leaves pending. */
  function Scheduled(v: View): Pending
  {
    match v.page.fileInput
    case None => NoPending
    case Some(f) =>
      match Classify(f.name)
      case StepFile => PendingStepRead
      case SldprtFile => PendingSldprtSettle(false)
      case Unsupported => NoPending
  }

  /** The FileReader's `onload` runs loadStepModel up to its `await`
      (main.js:148-160): the current model leaves the scene. */
  function StepFileRead(v: View): View
  {
    if v.currentModel == null then v
    else v.(scene := v.scene - {v.currentModel})
  }

  /** The `finally` blocks of loadStepModel and loadSldprtModel: hide the
      loader and clear the file input. */
  function Cleanup(v: View): View
  {
    v.(page := v.page.(loaderHidden := true, fileInput := None))
  }

  /** The rest of loadStepModel once the import settles (main.js:160-175). */
  function StepImportSettled(v: View, outcome: ImportOutcome): View
  {
    var w :=
      match outcome
      case Resolved(isSuccess, root) =>
        if isSuccess && root != null then
          v.(currentModel := root, scene := v.scene + {root}, framedOn := root)
        else
          v.(alerts := v.alerts + [LoadFailed])
      case Rejected => v.(alerts := v.alerts + [ImportError]);
    Cleanup(w)
  }

  /** The rest of loadSldprtModel after its `await` (main.js:187-193). */
  function SldprtLoadSettled(v: View, rejected: bool): View
  {
    Cleanup(if rejected then v.(alerts := v.alerts + [SldprtLoadError]) else v)
  }

  /** handleConversion up to its `setTimeout` (main.js:114-116). */
  function ConversionClicked(v: View): View
  {
    v.(page := v.page.(conversionLoaderHidden := false, convertHidden := true))
  }

  /** Replace the current model in the scene by `model` and frame the camera
      on it (main.js:121-130). */
  function PlaceModel(v: View, model: Object3D): View
  {
    var kept := if v.currentModel == null then v.scene else v.scene - {v.currentModel};
    v.(scene := kept + {model}, currentModel := model, framedOn := model)
  }

  /** The `setTimeout` body of handleConversion (main.js:119-144): `cube` is
      the new placeholder mesh and `href` the object URL of the dummy file. */
  function ConversionFinished(v: View, cube: Object3D, href: string): View
  {
    var w := PlaceModel(ShowScene(v), cube);
    var link := Link(false, href, DownloadName(w.currentFileName), LinkText(w.currentFileName));
    w.(page := w.page.(link := link, conversionLoaderHidden := true),
       alerts := w.alerts + [ConversionDemo])
  }

  // ---------------------------------------------------------------------------
  // Invariants

  /** Exactly one preview surface is visible; a preview viewer exists only
      while the fallback surface is shown; the fallback container holds at
      most one notice, and none without a viewer. */
  predicate Consistent(v: View)
  {
    v.page.sceneHidden != v.page.fallbackHidden &&
    (v.revViewer != null ==> !v.page.fallbackHidden) &&
    (v.revViewer == null ==> v.fallbackChildren == []) &&
    |v.fallbackChildren| <= 1
  }

  /** The scene holds no model other than the current one. */
  predicate SingleModel(v: View)
  {
    forall o :: o in v.scene ==> o == v.currentModel
  }

  // ---------------------------------------------------------------------------
  // The two display modes

  /** After showThreeJsViewer the scene is the visible surface, no preview
      viewer is left and the fallback container is empty; the models are
      untouched, and a second call changes nothing. */
  lemma ShowSceneEffects(v: View)
    ensures var r := ShowScene(v);
      !r.page.sceneHidden && r.page.fallbackHidden &&
      r.revViewer == null && r.fallbackChildren == [] &&
      r.scene == v.scene && r.currentModel == v.currentModel &&
      ShowScene(r) == r
  {
  }

  /** showRevViewer gives the opposite visibility of showThreeJsViewer, keeps
      the viewer, the container and the scene, and is idempotent too. */
  lemma ShowFallbackOpposite(v: View)
    ensures var r := ShowFallback(v);
      r.page.sceneHidden == !ShowScene(v).page.sceneHidden &&
      r.page.fallbackHidden == !ShowScene(v).page.fallbackHidden &&
      r.revViewer == v.revViewer && r.fallbackChildren == v.fallbackChildren &&
      r.scene == v.scene && r.currentModel == v.currentModel &&
      ShowFallback(r) == r
  {
  }

  /** Of two mode switches in a row, the later one decides the state. */
  lemma LastSwitchWins(v: View)
    ensures ShowScene(ShowFallback(v)) == ShowScene(v)
    ensures ShowFallback(ShowScene(v)).page == ShowFallback(v).page
  {
  }

  // ---------------------------------------------------------------------------
  // Selecting a file

  /** With no file selected the handler returns at once. */
  lemma SelectWithoutFile(v: View, viewer: Viewer?)
    requires v.page.fileInput == None
    ensures FileSelected(v, viewer) == v && Scheduled(v) == NoPending
  {
  }

  /** With a file, resetUI runs first: whatever the kind, the download link
      ends hidden and empty and the file name is recorded; only the SLDPRT
      path shows the convert button, and only an unsupported file hides the
      loader again. */
  lemma SelectResetsFirst(v: View, viewer: Viewer?)
    requires v.page.fileInput.Some?
    ensures var f := v.page.fileInput.value;
      var r := FileSelected(v, viewer);
      r.page.link == ClearedLink &&
      r.currentFileName == f.name &&
      r.page.convertHidden == (Classify(f.name) != SldprtFile) &&
      r.page.loaderHidden == (Classify(f.name) == Unsupported) &&
      r.page.conversionLoaderHidden == v.page.conversionLoaderHidden &&
      r.page.fileInput == v.page.fileInput
  {
  }

  /** A STEP file shows the scene, leaves the models alone for now and leaves
      the FileReader's `onload` pending. */
  lemma SelectStep(v: View, f: File, viewer: Viewer?)
    requires v.page.fileInput == Some(f) && Classify(f.name) == StepFile
    ensures var r := FileSelected(v, viewer);
      !r.page.sceneHidden && r.page.fallbackHidden &&
      r.revViewer == null && r.fallbackChildren == [] &&
      r.scene == v.scene && r.currentModel == v.currentModel &&
      r.alerts == v.alerts && Scheduled(v) == PendingStepRead
  {
  }

  /** A SLDPRT file shows the fallback with one notice from the new viewer,
      shows the convert button, and leaves the rest of the load pending. */
  lemma SelectSldprt(v: View, f: File, viewer: Viewer?)
    requires v.page.fileInput == Some(f) && Classify(f.name) == SldprtFile
    ensures var r := FileSelected(v, viewer);
      r.page.sceneHidden && !r.page.fallbackHidden && !r.page.convertHidden &&
      r.currentFileName == f.name &&
      r.revViewer == viewer && r.fallbackChildren == [PreviewNotice(f)] &&
      r.scene == v.scene && r.currentModel == v.currentModel &&
      r.alerts == v.alerts && Scheduled(v) == PendingSldprtSettle(false)
  {
  }

  /** Any other file changes neither surface, raises the alert, and leaves
      the file in the input. */
  lemma SelectUnsupported(v: View, f: File, viewer: Viewer?)
    requires v.page.fileInput == Some(f) && Classify(f.name) == Unsupported
    ensures var r := FileSelected(v, viewer);
      r.page.sceneHidden == v.page.sceneHidden &&
      r.page.fallbackHidden == v.page.fallbackHidden &&
      r.revViewer == v.revViewer && r.fallbackChildren == v.fallbackChildren &&
      r.scene == v.scene && r.currentModel == v.currentModel &&
      r.alerts == v.alerts + [UnsupportedFormat] &&
      r.page.fileInput == Some(f) && Scheduled(v) == NoPending
  {
  }

  // ---------------------------------------------------------------------------
  // Loading

  /** loadStepModel removes the old model from the scene before it awaits the
      import. */
  lemma StepFileReadRemovesModel(v: View)
    ensures var r := StepFileRead(v);
      r.currentModel == v.currentModel &&
      (v.currentModel != null ==> v.currentModel !in r.scene) &&
      r.scene <= v.scene && v.scene - r.scene <= {v.currentModel} &&
      r.page == v.page && r.alerts == v.alerts
    ensures StepFileRead(v) == v.(scene := StepFileRead(v).scene)
  {
  }

  /** On every outcome the loader ends hidden and the input cleared; the
      current model changes exactly when the result is a success with a root,
      and each failure raises its own alert. */
  lemma StepImportOutcomes(v: View, outcome: ImportOutcome)
    ensures var r := StepImportSettled(v, outcome);
      r.page.loaderHidden && r.page.fileInput == None &&
      r.page.sceneHidden == v.page.sceneHidden &&
      r.page.fallbackHidden == v.page.fallbackHidden &&
      match outcome
      case Resolved(isSuccess, root) =>
        if isSuccess && root != null then
          r.currentModel == root && r.scene == v.scene + {root} &&
          r.framedOn == root && r.alerts == v.alerts
        else
          r.currentModel == v.currentModel && r.scene == v.scene &&
          r.alerts == v.alerts + [LoadFailed]
      case Rejected =>
        r.currentModel == v.currentModel && r.scene == v.scene &&
        r.alerts == v.alerts + [ImportError]
  {
  }

  /** On both outcomes of the SLDPRT load the loader ends hidden and the input
      cleared, and the preview stays as it was. */
  lemma SldprtSettleCleansUp(v: View, rejected: bool)
    ensures var r := SldprtLoadSettled(v, rejected);
      r.page.loaderHidden && r.page.fileInput == None &&
      r.fallbackChildren == v.fallbackChildren && r.revViewer == v.revViewer &&
      r.alerts == (if rejected then v.alerts + [SldprtLoadError] else v.alerts)
  {
  }

  // ---------------------------------------------------------------------------
  // Conversion

  /** When the timer fires, the scene is shown with the placeholder in place
      of the previous model, and the download link is shown with the
      converted name. */
  lemma ConversionFinishedEffects(v: View, cube: Object3D, href: string)
    ensures var r := ConversionFinished(v, cube, href);
      !r.page.sceneHidden && r.page.fallbackHidden &&
      r.revViewer == null && r.fallbackChildren == [] &&
      r.currentModel == cube && r.framedOn == cube && cube in r.scene &&
      (v.currentModel != null && v.currentModel != cube ==> v.currentModel !in r.scene) &&
      r.page.link == Link(false, href, DownloadName(v.currentFileName),
                          "Download " + DownloadName(v.currentFileName)) &&
      r.page.conversionLoaderHidden &&
      r.page.convertHidden == v.page.convertHidden &&
      r.alerts == v.alerts + [ConversionDemo]
  {
  }

  /** A click followed by the timer leaves the convert button hidden and the
      conversion loader hidden again. */
  lemma ConvertButtonStaysHidden(v: View, cube: Object3D, href: string)
    ensures var r := ConversionFinished(ConversionClicked(v), cube, href);
      r.page.convertHidden && r.page.conversionLoaderHidden && !r.page.link.hidden
  {
  }

  // ---------------------------------------------------------------------------
  // Invariants kept by every step

  lemma InitialIsConsistent()
    ensures Consistent(Initial()) && SingleModel(Initial())
  {
  }

  lemma SwitchesKeepConsistent(v: View, file: Option<File>)
    requires Consistent(v)
    ensures Consistent(Picked(v, file)) && Consistent(Reset(v))
    ensures Consistent(ShowScene(v)) && Consistent(ShowFallback(v))
  {
  }

  /** The viewer matters only on the SLDPRT path, where handleFileSelect
      always creates one. */
  lemma SelectKeepsConsistent(v: View, viewer: Viewer?)
    requires Consistent(v)
    requires v.page.fileInput.Some? && Classify(v.page.fileInput.value.name) == SldprtFile ==>
               viewer != null
    ensures Consistent(FileSelected(v, viewer))
  {
  }

  lemma LoadsKeepConsistent(v: View, outcome: ImportOutcome, rejected: bool)
    requires Consistent(v)
    ensures Consistent(StepFileRead(v)) && Consistent(StepImportSettled(v, outcome))
    ensures Consistent(SldprtLoadSettled(v, rejected))
  {
  }

  lemma ConversionKeepsConsistent(v: View, cube: Object3D, href: string)
    requires Consistent(v)
    ensures Consistent(ConversionClicked(v)) && Consistent(ConversionFinished(v, cube, href))
  {
  }

  /** Picking and selecting a file keep the scene down to at most the
      current model. */
  lemma SelectKeepsSingleModel(v: View, file: Option<File>, viewer: Viewer?)
    requires SingleModel(v)
    ensures SingleModel(Picked(v, file)) && SingleModel(FileSelected(v, viewer))
  {
  }

  /** So do the SLDPRT settle, the convert click and its timer. */
  lemma ConversionKeepsSingleModel(v: View, rejected: bool, cube: Object3D, href: string)
    requires SingleModel(v)
    ensures SingleModel(SldprtLoadSettled(v, rejected))
    ensures SingleModel(ConversionClicked(v)) && SingleModel(ConversionFinished(v, cube, href))
  {
  }

  /** A STEP load that runs from `onload` to the end of its import before
      the next one starts keeps the scene down to at most the current model;
      after `onload` alone the scene is empty. */
  lemma StepLoadKeepsSingleModel(v: View, outcome: ImportOutcome)
    requires SingleModel(v)
    ensures StepFileRead(v).scene == {}
    ensures SingleModel(StepImportSettled(StepFileRead(v), outcome))
  {
    if v.currentModel == null {
      assert forall o :: o !in v.scene;
    }
  }

  /** Two STEP loads whose imports overlap both add their model: the scene
      then holds a model that is not the current one. */
  lemma OverlappingStepLoads(v: View, a: Object3D, b: Object3D)
    requires a != b
    ensures var r := StepImportSettled(StepImportSettled(StepFileRead(StepFileRead(v)),
                                                         Resolved(true, a)), Resolved(true, b));
      a in r.scene && r.currentModel == b && !SingleModel(r)
  {
  }

  // ---------------------------------------------------------------------------
  // Whole flows

  /** Picking a SLDPRT file, letting its load settle, clicking convert and
      letting the timer fire offers the file under its converted name, with
      the placeholder as the only model in the scene; with
      DownloadNameReplacesExtension, `part.sldprt` is offered as `part.stp`. */
  lemma SldprtConversionFlow(v: View, f: File, viewer: Viewer, cube: Object3D, href: string)
    requires SingleModel(v) && Classify(f.name) == SldprtFile
    ensures var s1 := FileSelected(Picked(v, Some(f)), viewer);
      var s2 := ConversionFinished(ConversionClicked(SldprtLoadSettled(s1, false)), cube, href);
      s2.page.link == Link(false, href, DownloadName(f.name), LinkText(f.name)) &&
      !s2.page.sceneHidden && s2.page.fallbackHidden && s2.page.convertHidden &&
      s2.page.loaderHidden && s2.page.conversionLoaderHidden &&
      s2.currentModel == cube && s2.scene == {cube}
  {
    var s0 := Picked(v, Some(f));
    var s1 := FileSelected(s0, viewer);
    var s3 := ConversionClicked(SldprtLoadSettled(s1, false));
    SelectSldprt(s0, f, viewer);
    assert s3.currentFileName == f.name;
    assert s3.scene == v.scene && s3.currentModel == v.currentModel;
    ConversionFinishedEffects(s3, cube, href);
  }

  /** Picking a STEP file and a successful import show the imported model
      as the only one in the scene, framed, with the loader hidden and the
      input cleared; ClassifyStepExamples shows that `PART.STEP` is such a
      file. */
  lemma StepFlow(v: View, f: File, viewer: Viewer?, root: Object3D)
    requires SingleModel(v) && Classify(f.name) == StepFile
    ensures var s1 := FileSelected(Picked(v, Some(f)), viewer);
      var s2 := StepImportSettled(StepFileRead(s1), Resolved(true, root));
      !s1.page.sceneHidden && s1.page.fallbackHidden && !s1.page.loaderHidden &&
      s2.currentModel == root && s2.scene == {root} && s2.framedOn == root &&
      s2.page.loaderHidden && s2.page.fileInput == None
  {
    var s0 := Picked(v, Some(f));
    var s1 := FileSelected(s0, viewer);
    SelectStep(s0, f, viewer);
    SelectResetsFirst(s0, viewer);
    assert SingleModel(s1);
    StepLoadKeepsSingleModel(s1, Resolved(true, root));
  }
}
