/**
 * A storage directory (data/datasets, data/models, uploads/...): file names
 * mapped to their bytes, changed in place by writes and removals.
 */
module Store {
  import opened Common

  type Files = map<string, seq<byte>>

  class Directory {
    var files: Files

    constructor (initial: Files)
      ensures files == initial
    {
      files := initial;
    }

    /** writeFileSync / file.save: creates or overwrites one file. */
    method Write(name: string, content: seq<byte>)
      modifies this
      ensures files == old(files)[name := content]
    {
      files := files[name := content];
    }

    /** os.remove: deletes one file. */
    method Remove(name: string)
      modifies this
      ensures files == old(files) - {name}
    {
      files := files - {name};
    }
  }
}
