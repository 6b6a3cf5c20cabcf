/**
 * An abstract file system: folders, identified by their path, each mapping
 * file names to contents. The operations the pipeline uses are the pure
 * functions below (`os.path.exists` with `os.makedirs`, `shutil.copy`,
 * `os.remove`), and the class `FileSystem` performs them in place.
 */
module Files {
  import opened Wrappers

  /** A folder path; distinct strings are distinct folders (no normalisation). */
  type Path = string
  /** A file name inside a folder. */
  type Name = string
  type Content = seq<bv8>
  type Folder = map<Name, Content>
  /** The existing folders and their files. */
  type Folders = map<Path, Folder>

  /** What `shutil.copy` and `os.remove` raise. */
  datatype OsError =
    | FileNotFound(dir: Path, name: Name)   // FileNotFoundError: no such file
    | FolderNotFound(dir: Path)             // FileNotFoundError: no such folder
    | SameFile(dir: Path, name: Name)       // shutil.SameFileError

  /** `if not os.path.exists(dir): os.makedirs(dir)` */
  function EnsureFolder(fs: Folders, dir: Path): (r: Folders)
    ensures r.Keys == fs.Keys + {dir}
    ensures dir in fs ==> r == fs
    ensures dir !in fs ==> r[dir] == map[] && forall d :: d in fs ==> r[d] == fs[d]
  {
    if dir in fs then fs else fs[dir := map[]]
  }

  /**
   * `shutil.copy(src, dst)` for a destination file path: the destination is
   * created or overwritten with the content of `src`; it fails when `src`
   * and `dst` are the same file, when the file `src` does not exist
   * and when the destination folder does not exist.
   */
  function CopyFile(fs: Folders, srcDir: Path, srcName: Name, dstDir: Path, dstName: Name): (r: Result<Folders, OsError>)
    ensures r.Ok? <==> srcDir in fs && srcName in fs[srcDir] && dstDir in fs && (srcDir, srcName) != (dstDir, dstName)
    ensures r.Ok? ==> r.value == fs[dstDir := fs[dstDir][dstName := fs[srcDir][srcName]]]
    ensures r.Ok? ==> srcName in r.value[srcDir] && r.value[srcDir][srcName] == fs[srcDir][srcName]
  {
    if srcDir in fs && srcName in fs[srcDir] && (srcDir, srcName) == (dstDir, dstName) then Err(SameFile(srcDir, srcName))
    else if srcDir !in fs || srcName !in fs[srcDir] then Err(FileNotFound(srcDir, srcName))
    else if dstDir !in fs then Err(FolderNotFound(dstDir))
    else Ok(fs[dstDir := fs[dstDir][dstName := fs[srcDir][srcName]]])
  }

  /** `os.remove(path)`: the file is gone; it fails when there is no such file. */
  function RemoveFile(fs: Folders, dir: Path, name: Name): (r: Result<Folders, OsError>)
    ensures r.Ok? <==> dir in fs && name in fs[dir]
    ensures r.Ok? ==> r.value == fs[dir := fs[dir] - {name}]
  {
    if dir !in fs then Err(FolderNotFound(dir))
    else if name !in fs[dir] then Err(FileNotFound(dir, name))
    else Ok(fs[dir := fs[dir] - {name}])
  }

  /** The file system the pipeline works on, changed in place by each operation. */
  class FileSystem {
    var folders: Folders

    constructor (initial: Folders)
      ensures folders == initial
    {
      folders := initial;
    }

    /** `os.path.exists(dir)` */
    method Exists(dir: Path) returns (b: bool)
      ensures b <==> dir in folders
    {
      b := dir in folders;
    }

    /** `os.makedirs(dir)`, called only where the folder does not exist yet. */
    method MakeDirs(dir: Path)
      requires dir !in folders
      modifies this
      ensures folders == EnsureFolder(old(folders), dir)
    {
      folders := folders[dir := map[]];
    }

    /** `shutil.copy`; an exception leaves the file system as it was. */
    method Copy(srcDir: Path, srcName: Name, dstDir: Path, dstName: Name) returns (err: Option<OsError>)
      modifies this
      ensures CopyFile(old(folders), srcDir, srcName, dstDir, dstName) ==
              if err.Some? then Err(err.value) else Ok(folders)
      ensures err.Some? ==> folders == old(folders)
    {
      var r := CopyFile(folders, srcDir, srcName, dstDir, dstName);
      match r
      case Ok(f) =>
        folders := f;
        err := None;
      case Err(e) =>
        err := Some(e);
    }

    /** `os.remove`; an exception leaves the file system as it was. */
    method Remove(dir: Path, name: Name) returns (err: Option<OsError>)
      modifies this
      ensures RemoveFile(old(folders), dir, name) ==
              if err.Some? then Err(err.value) else Ok(folders)
      ensures err.Some? ==> folders == old(folders)
    {
      var r := RemoveFile(folders, dir, name);
      match r
      case Ok(f) =>
        folders := f;
        err := None;
      case Err(e) =>
        err := Some(e);
    }
  }
}
