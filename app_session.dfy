/** The module-level state of main.js (main.js:6-15) as one session object,
    and its handlers as methods. Asynchronous continuations (the
    FileReader's `onload`, the code after each `await`, the `setTimeout`
    body) are separate methods that the event loop calls later. */
module App {
  import opened Platform
  import opened FileNames
  import opened RevViewer
  import opened AppState

  class Session {
    /** The state of the page elements main.js looks up at load time. */
    var page: Page
    var currentFileName: string
    var currentModel: Object3D?
    var revViewer: Viewer?
    /** The models added to the three.js scene (lights are left out). */
    var scene: set<Object3D>
    /** The object centerCamera last framed. */
    var framedOn: Object3D?
    /** Alerts shown so far, oldest first. */
    var alerts: seq<Alert>
    /** rev-viewer-container; its children are the preview notices. */
    const fallbackContainer: Element

    function Snapshot(): View
      reads this, fallbackContainer
    {
      View(page, currentFileName, scene, currentModel, framedOn, revViewer,
           fallbackContainer.children, alerts)
    }

    /** Any preview viewer works on the fallback container. */
    ghost predicate Valid()
      reads this
    {
      revViewer != null ==> revViewer.container == fallbackContainer
    }

    /** The state `init` (main.js:20-59) leaves. */
    constructor ()
      ensures Valid() && fresh(fallbackContainer)
      ensures Snapshot() == Initial()
    {
      page := Page(false, true, true, true, true, ClearedLink, None);
      currentFileName := "";
      currentModel, revViewer := null, null;
      scene := {};
      framedOn := null;
      alerts := [];
      fallbackContainer := new Element();
    }

    /** The browser stores the pick in the file input, then fires `change`. */
    method Pick(file: Option<File>)
      modifies this
      ensures Valid() == old(Valid())
      ensures Snapshot() == Picked(old(Snapshot()), file)
    {
      page := page.(fileInput := file);
    }

    method ResetUI()
      modifies this
      ensures Valid() == old(Valid())
      ensures Snapshot() == Reset(old(Snapshot()))
    {
      page := page.(convertHidden := true);
      page := page.(link := page.link.(hidden := true));
      page := page.(link := page.link.(href := ""));
      page := page.(link := page.link.(download := ""));
      page := page.(link := page.link.(text := ""));
      currentFileName := "";
    }

    method ShowThreeJsViewer()
      requires Valid()
      modifies this, fallbackContainer
      ensures Valid()
      ensures Snapshot() == ShowScene(old(Snapshot()))
    {
      page := page.(sceneHidden := false);
      page := page.(fallbackHidden := true);
      if revViewer != null {
        revViewer.Dispose();
        revViewer := null;
      }
      fallbackContainer.children := [];
    }

    method ShowRevViewer()
      modifies this
      ensures Valid() == old(Valid())
      ensures Snapshot() == ShowFallback(old(Snapshot()))
    {
      page := page.(sceneHidden := true);
      page := page.(fallbackHidden := false);
    }

    /** loadSldprtModel up to its `await`. */
    method LoadSldprtModel(file: File) returns (next: Pending)
      requires Valid()
      modifies this, fallbackContainer
      ensures Valid() && revViewer != null && fresh(revViewer)
      ensures Snapshot() == SldprtLoadStarted(old(Snapshot()), file, revViewer)
      ensures fallbackContainer.children == [PreviewNotice(file)]
      ensures next == PendingSldprtSettle(false)
    {
      if revViewer != null {
        revViewer.Dispose();
      }
      fallbackContainer.children := [];
      var viewer := new Viewer(fallbackContainer);
      revViewer := viewer;
      var ok := viewer.Load(file);
      next := PendingSldprtSettle(!ok);
    }

    /** The `change` handler, up to where it returns. */
    method HandleFileSelect() returns (next: Pending)
      requires Valid()
      modifies this, fallbackContainer
      ensures Valid()
      ensures old(page.fileInput).Some? && Classify(old(page.fileInput).value.name) == SldprtFile ==>
                revViewer != null && fresh(revViewer)
      ensures Snapshot() == FileSelected(old(Snapshot()), revViewer)
      ensures next == Scheduled(old(Snapshot()))
    {
      if page.fileInput.None? {
        return NoPending;
      }
      ghost var before := Snapshot();
      var file := page.fileInput.value;
      ResetUI();
      page := page.(loaderHidden := false);
      currentFileName := file.name;
      ghost var prepared := Snapshot();
      assert prepared == Prepared(before, file);
      var kind := KindOfExtension(Extension(file.name));
      match kind {
        case StepFile =>
          ShowThreeJsViewer();
          next := PendingStepRead;
        case SldprtFile =>
          ShowRevViewer();
          page := page.(convertHidden := false);
          next := LoadSldprtModel(file);
        case Unsupported =>
          alerts := alerts + [UnsupportedFormat];
          page := page.(loaderHidden := true);
          next := NoPending;
      }
      assert Snapshot() == Dispatched(prepared, file, revViewer);
    }

    /** The FileReader's `onload`: loadStepModel up to its `await`. The old
        model leaves the scene and its meshes are disposed. */
    method OnStepFileRead()
      modifies this, currentModel
      ensures Valid() == old(Valid())
      ensures Snapshot() == StepFileRead(old(Snapshot()))
      ensures old(currentModel) != null ==> old(currentModel).disposed
    {
      if currentModel != null {
        scene := scene - {currentModel};
        currentModel.disposed := true;
      }
    }

    /** loadStepModel after the import settles, including its `finally`. */
    method OnStepImportSettled(outcome: ImportOutcome)
      modifies this
      ensures Valid() == old(Valid())
      ensures Snapshot() == StepImportSettled(old(Snapshot()), outcome)
    {
      match outcome {
        case Resolved(isSuccess, root) =>
          if isSuccess && root != null {
            currentModel := root;
            scene := scene + {root};
            framedOn := root;
          } else {
            alerts := alerts + [LoadFailed];
          }
        case Rejected =>
          alerts := alerts + [ImportError];
      }
      page := page.(loaderHidden := true);
      page := page.(fileInput := None);
    }

    /** loadSldprtModel after its `await`, including its `finally`. */
    method OnSldprtLoadSettled(rejected: bool)
      modifies this
      ensures Valid() == old(Valid())
      ensures Snapshot() == SldprtLoadSettled(old(Snapshot()), rejected)
    {
      if rejected {
        alerts := alerts + [SldprtLoadError];
      }
      page := page.(loaderHidden := true);
      page := page.(fileInput := None);
    }

    /** The convert button's `click` handler, up to `setTimeout`. */
    method HandleConversion()
      modifies this
      ensures Valid() == old(Valid())
      ensures Snapshot() == ConversionClicked(old(Snapshot()))
    {
      page := page.(conversionLoaderHidden := false);
      page := page.(convertHidden := true);
    }

    /** The `setTimeout` body of handleConversion; `href` is the object URL
        the browser gives the dummy file. */
    method OnConversionTimer(href: string)
      requires Valid()
      modifies this, fallbackContainer
      ensures Valid() && currentModel != null && fresh(currentModel)
      ensures Snapshot() == ConversionFinished(old(Snapshot()), currentModel, href)
    {
      ShowThreeJsViewer();
      if currentModel != null {
        scene := scene - {currentModel};
      }
      var cube := new Object3D();
      currentModel := cube;
      scene := scene + {cube};
      framedOn := cube;
      var stpFileName := DownloadName(currentFileName);
      page := page.(link := page.link.(href := href));
      page := page.(link := page.link.(download := stpFileName));
      page := page.(link := page.link.(text := "Download " + stpFileName));
      page := page.(link := page.link.(hidden := false));
      page := page.(conversionLoaderHidden := true);
      alerts := alerts + [ConversionDemo];
    }
  }
}
