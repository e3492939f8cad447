/**
 * The part of Node's `fs` module the exporter uses, over an in-memory table of
 * files. A copy succeeds exactly when its source file exists; creating a
 * directory succeeds when it already exists or when the environment allows it.
 */
module FileSystem {
  import opened Wrappers

  type Path = string
  type Bytes = seq<bv8>

  datatype FsError =
    | NoSuchFile(path: Path)
    | CannotCreateDirectory(path: Path)

  class Fs {
    var files: map<Path, Bytes>
    var dirs: set<Path>
    /** Whether the environment lets a missing directory be created. */
    const canCreateDirs: bool

    constructor (files0: map<Path, Bytes>, dirs0: set<Path>, canCreate: bool)
      ensures files == files0 && dirs == dirs0 && canCreateDirs == canCreate
    {
      files, dirs, canCreateDirs := files0, dirs0, canCreate;
    }

    /** `fs.copyFileSync(src, dst)`: overwrites `dst` without warning. */
    method CopyFile(src: Path, dst: Path) returns (r: Outcome<FsError>)
      modifies this
      ensures dirs == old(dirs)
      ensures r.Pass? <==> src in old(files)
      ensures r.Pass? ==> files == old(files)[dst := old(files)[src]]
      ensures r.Fail? ==> files == old(files) && r == Fail(NoSuchFile(src))
    {
      if src in files {
        files := files[dst := files[src]];
        r := Pass;
      } else {
        r := Fail(NoSuchFile(src));
      }
    }

    /** `fs.mkdirSync(path, { recursive: true })`: an existing directory is not an error. */
    method Mkdir(path: Path) returns (r: Outcome<FsError>)
      modifies this
      ensures files == old(files)
      ensures r.Pass? <==> path in old(dirs) || canCreateDirs
      ensures r.Pass? ==> dirs == old(dirs) + {path}
      ensures r.Fail? ==> dirs == old(dirs) && r == Fail(CannotCreateDirectory(path))
    {
      if path in dirs || canCreateDirs {
        dirs := dirs + {path};
        r := Pass;
      } else {
        r := Fail(CannotCreateDirectory(path));
      }
    }
  }
}
