/** The browser and three.js objects that main.js works on, reduced to the
    part of their state that main.js and the preview stub read or change. */
module Platform {

  datatype Option<T> = None | Some(value: T)

  /** A file chosen in the file picker; the handlers only look at its name
      (its bytes go to the importer, which is not part of this model). */
  datatype File = File(name: string)

  /** A DOM container element, seen as the text contents of its children. */
  class Element {
    var children: seq<string>

    constructor ()
      ensures children == []
    {
      children := [];
    }
  }

  /** A three.js object placed in the scene. `disposed` stands for the
      release of the geometry and material of every mesh inside it. */
  class Object3D {
    var disposed: bool

    constructor ()
      ensures !disposed
    {
      disposed := false;
    }
  }
}
