/** The local repository's files as the program sees them: a mutable
    map from path to text that the per-template writers update. */
module WorkTree {

  class Tree {
    var files: map<string, string>

    constructor (initial: map<string, string>)
      ensures files == initial
    {
      files := initial;
    }

    /** `fs.writeFile(path, text)`: creates or replaces one file. */
    method WriteFile(path: string, text: string)
      modifies this
      ensures files == old(files)[path := text]
    {
      files := files[path := text];
    }
  }
}
