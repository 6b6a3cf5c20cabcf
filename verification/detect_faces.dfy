/**
 * `rename_and_copy_images_in_folder(folder_path)` of `detect_faces.py`: the
 * same pipeline as the three-folder version, with the output and backup
 * folders derived from the input folder as `folder_path/../output` and
 * `folder_path/../images_backup`.
 */
module DetectFaces {
  import opened Wrappers
  import opened Strings
  import opened Files
  import FolderPipeline
  import PipelineProperties

  /**
   * `os.path.join(a, b)` on POSIX for a `b` that does not start with '/':
   * a separator is inserted unless `a` is empty or already ends with one.
   */
  function Join(a: Path, b: string): (r: Path)
    ensures a <= r && EndsWith(r, b)
    ensures r == a + b || r == a + "/" + b
  {
    if a == [] || a[|a| - 1] == '/' then a + b else a + "/" + b
  }

  /** The folders `detect_faces.py` derives from `folder_path`: output first, then backup. */
  function DerivedFolders(folderPath: Path): (r: (Path, Path))
    ensures folderPath <= r.0 && EndsWith(r.0, "../output")
    ensures folderPath <= r.1 && EndsWith(r.1, "../images_backup")
  {
    (Join(folderPath, "../output"), Join(folderPath, "../images_backup"))
  }

  /**
   * The derived folders are different from the input folder and from each
   * other, whatever `folder_path` is, so every theorem about the
   * three-folder pipeline applies to this variant.
   */
  lemma DerivedFoldersDistinct(folderPath: Path)
    ensures var (output, backup) := DerivedFolders(folderPath);
            PipelineProperties.Distinct3(folderPath, output, backup)
  {
  }

  /**
   * `rename_and_copy_images_in_folder(folder_path)`, with `listing` standing
   * for what `os.listdir(folder_path)` returns: the three-folder run on the
   * derived folders.
   */
  method RenameAndCopyImagesInFolder(fs: FileSystem, folderPath: Path, listing: seq<Name>, count: FolderPipeline.Counter)
    returns (log: seq<FolderPipeline.Event>, raised: Option<FolderPipeline.Exception>)
    modifies fs
    ensures var (output, backup) := DerivedFolders(folderPath);
            var r := FolderPipeline.Run(old(fs.folders), folderPath, output, backup, listing, count);
            fs.folders == r.folders && log == r.log && raised == r.raised
  {
    var outputFolderPath := Join(folderPath, "../output");
    var backupFolderPath := Join(folderPath, "../images_backup");
    log, raised := FolderPipeline.RenameAndCopyImagesInFolder(fs, folderPath, outputFolderPath, backupFolderPath, listing, count);
  }
}
