/** The engine's in-memory filesystem, as far as the sync path uses it. */
module TargetFs {
  import opened Common

  class FileSystem {
    /** Every directory path handed to `mkdir` or `mkdirTree`. */
    var dirs: set<string>
    /** Absolute path to file contents. */
    var files: map<string, Bytes>
    var cwd: string

    constructor ()
      ensures dirs == {} && files == map[] && cwd == "/"
    {
      dirs := {};
      files := map[];
      cwd := "/";
    }

    /** `FS.mkdir(path)` / `FS.mkdirTree(path)`: the directory exists afterwards. */
    method MkdirTree(path: string)
      modifies this
      ensures dirs == old(dirs) + {path}
      ensures files == old(files) && cwd == old(cwd)
    {
      dirs := dirs + {path};
    }

    /** `FS.writeFile(path, data)`: creates or replaces one file. */
    method WriteFile(path: string, data: Bytes)
      modifies this
      ensures files == old(files)[path := data]
      ensures dirs == old(dirs) && cwd == old(cwd)
    {
      files := files[path := data];
    }

    /** `FS.chdir(path)`. */
    method Chdir(path: string)
      modifies this
      ensures cwd == path
      ensures dirs == old(dirs) && files == old(files)
    {
      cwd := path;
    }
  }
}
