/** The preview stub of vendor/rev-viewer/rev-viewer.js: a viewer that
    shows, in the container it was given, a notice that the file cannot be
    previewed. */
module RevViewer {
  import opened Platform

  /** The text of the notice `load` adds (rev-viewer.js:8). */
  function PreviewNotice(file: File): string
  {
    "Preview for \"" + file.name + "\" is not supported in this demo."
  }

  class Viewer {
    /** The container handed to the constructor; the class never reassigns it. */
    const container: Element?

    /** Keeps the container and touches none of its children. */
    constructor (container: Element?)
      ensures this.container == container
      ensures container != null ==> container.children == old(container.children)
    {
      this.container := container;
    }

    /** Appends one notice after the existing children. With no container the
        append throws, and the promise `load` returns is rejected: `ok` is
        false and nothing changes. */
    method Load(file: File) returns (ok: bool)
      modifies container
      ensures ok <==> container != null
      ensures container != null ==> container.children == old(container.children) + [PreviewNotice(file)]
    {
      if container == null {
        return false;
      }
      container.children := container.children + [PreviewNotice(file)];
      ok := true;
    }

    /** Empties the container, if there is one; calling it again changes
        nothing more. */
    method Dispose()
      modifies container
      ensures container != null ==> container.children == []
    {
      if container != null {
        container.children := [];
      }
    }
  }
}
