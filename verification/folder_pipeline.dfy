/**
 * `rename_and_copy_images_in_folder(input_folder, output_folder, backup_folder)`:
 * for every image in a snapshot of the input folder's listing, back it up
 * under its name, ask the person counter for `c`, copy it to the output
 * folder as `{base}_({c} personnes){ext}`, write `c - 1` duplicates of that
 * copy, and remove it from the input folder. The run is specified by the
 * pure fold `Run`; the method of the same behaviour performs it on a
 * `FileSystem` object and is proved equal to it.
 */
module FolderPipeline {
  import opened Wrappers
  import opened Naming
  import opened Files

  /** The person counter: `count_people_in_image` on a file's content; `None` when it raises. */
  type Counter = Content -> Option<nat>

  /** One console line of the run. */
  datatype Event =
    | CopiedToBackup(filename: Name)                       // Copied '{filename}' to backup folder
    | CopiedAndRenamed(filename: Name, newFilename: Name)  // Copied and renamed '{filename}' to '{new_filename}'
    | CreatedCopy(copyFilename: Name)                      // Created copy '{copy_filename}'
    | Removed(filename: Name)                              // Removed '{filename}' from original folder
    | NoPicturesFound                                      // No pictures found

  /** The text `rename_and_copy_images_in_folder` prints for an event. */
  function Message(e: Event): string {
    match e
    case CopiedToBackup(f) => "Copied '" + f + "' to backup folder"
    case CopiedAndRenamed(f, g) => "Copied and renamed '" + f + "' to '" + g + "'"
    case CreatedCopy(g) => "Created copy '" + g + "'"
    case Removed(f) => "Removed '" + f + "' from original folder"
    case NoPicturesFound => "No pictures found"
  }

  /** The fixed text each kind of line starts with. */
  function Opening(e: Event): string {
    match e
    case CopiedToBackup(_) => "Copied '"
    case CopiedAndRenamed(_, _) => "Copied and renamed '"
    case CreatedCopy(_) => "Created copy '"
    case Removed(_) => "Removed '"
    case NoPicturesFound => "No pictures found"
  }

  lemma Grows(p: string, s: string, t: string)
    requires p <= s
    ensures p <= s + t
  {
    assert (s + t)[..|p|] == s[..|p|];
  }

  /** Every line starts with the opening of its kind. */
  lemma MessageOpening(e: Event)
    ensures Opening(e) <= Message(e)
  {
    var p := Opening(e);
    match e
    case CopiedToBackup(f) =>
      Grows(p, p, f);
      Grows(p, p + f, "' to backup folder");
    case CopiedAndRenamed(f, g) =>
      Grows(p, p, f);
      Grows(p, p + f, "' to '");
      Grows(p, p + f + "' to '", g);
      Grows(p, p + f + "' to '" + g, "'");
    case CreatedCopy(g) =>
      Grows(p, p, g);
      Grows(p, p + g, "'");
    case Removed(f) =>
      Grows(p, p, f);
      Grows(p, p + f, "' from original folder");
    case NoPicturesFound =>
  }

  /** The text `p + x + q` with a known frame gives back `x`. */
  lemma Unframe(p: string, x1: string, x2: string, q: string)
    requires p + x1 + q == p + x2 + q
    ensures x1 == x2
  {
    assert (p + x1 + q)[|p|..|p| + |x1|] == (p + x1)[|p|..] == x1;
    assert (p + x2 + q)[|p|..|p| + |x2|] == (p + x2)[|p|..] == x2;
  }

  /** Equal console lines come from events of the same kind. */
  lemma MessageKind(e1: Event, e2: Event)
    requires Message(e1) == Message(e2)
    ensures e1.CopiedToBackup? == e2.CopiedToBackup? && e1.CopiedAndRenamed? == e2.CopiedAndRenamed? &&
            e1.CreatedCopy? == e2.CreatedCopy? && e1.Removed? == e2.Removed? && e1.NoPicturesFound? == e2.NoPicturesFound?
  {
    MessageOpening(e1);
    MessageOpening(e2);
    var m, p1, p2 := Message(e1), Opening(e1), Opening(e2);
    // the openings differ at index 0, 1 or 7
    assert p1[0] == m[0] == p2[0] && p1[1] == m[1] == p2[1] && p1[7] == m[7] == p2[7];
  }

  /**
   * A console line tells the event that printed it, except that a rename
   * line tells the new name only once the old one is known.
   */
  lemma MessageDeterminesEvent(e1: Event, e2: Event)
    requires Message(e1) == Message(e2)
    ensures !e1.CopiedAndRenamed? ==> e1 == e2
    ensures e1.CopiedAndRenamed? && e2.CopiedAndRenamed? && e1.filename == e2.filename ==> e1 == e2
  {
    MessageKind(e1, e2);
    match e1
    case CopiedToBackup(f1) =>
      Unframe("Copied '", f1, e2.filename, "' to backup folder");
    case CreatedCopy(g1) =>
      Unframe("Created copy '", g1, e2.copyFilename, "'");
    case Removed(f1) =>
      Unframe("Removed '", f1, e2.filename, "' from original folder");
    case NoPicturesFound =>
    case CopiedAndRenamed(f1, g1) =>
      if e2.filename == f1 {
        Unframe("Copied and renamed '" + f1 + "' to '", g1, e2.newFilename, "'");
      }
  }

  /** An exception that ends the run: nothing catches it. */
  datatype Exception =
    | OsFailure(cause: OsError)   // from os.listdir, shutil.copy or os.remove
    | CounterFailed(filename: Name)

  /** Everything the run changes or reports: the folders, the console, `image_found`, and the exception raised, if any. */
  datatype State = State(folders: Folders, log: seq<Event>, imageFound: bool, raised: Option<Exception>)

  /**
   * The loop `for i in range(1, count)` over the copy names still to write:
   * copy the primary output to each of them in turn.
   */
  function CopyDuplicates(st: State, output: Path, primary: Name, copies: seq<Name>): (r: State)
    requires st.raised.None?
    ensures r.imageFound == st.imageFound
    decreases |copies|
  {
    if copies == [] then st
    else
      match CopyFile(st.folders, output, primary, output, copies[0])
      case Err(e) => st.(raised := Some(OsFailure(e)))
      case Ok(f) =>
        CopyDuplicates(st.(folders := f, log := st.log + [CreatedCopy(copies[0])]), output, primary, copies[1..])
  }

  /** The body of the `if` for one image name: backup, count, then the outputs and the removal. */
  function ProcessImage(st: State, input: Path, output: Path, backup: Path, filename: Name, count: Counter): (r: State)
    requires st.raised.None?
    ensures r.imageFound == st.imageFound
  {
    match CopyFile(st.folders, input, filename, backup, filename)
    case Err(e) => st.(raised := Some(OsFailure(e)))
    case Ok(f1) =>
      var st1 := st.(folders := f1, log := st.log + [CopiedToBackup(filename)]);
      match count(f1[input][filename])
      case None => st1.(raised := Some(CounterFailed(filename)))
      case Some(c) => WriteOutputs(st1, input, output, filename, c)
  }

  /** An image whose count `c` is known: the primary output, its duplicates, then the removal of the image. */
  function WriteOutputs(st: State, input: Path, output: Path, filename: Name, c: nat): (r: State)
    requires st.raised.None?
    ensures r.imageFound == st.imageFound
  {
    var newFilename := PrimaryName(filename, c);
    match CopyFile(st.folders, input, filename, output, newFilename)
    case Err(e) => st.(raised := Some(OsFailure(e)))
    case Ok(f2) =>
      var st3 := CopyDuplicates(st.(folders := f2, log := st.log + [CopiedAndRenamed(filename, newFilename)]), output, newFilename, CopyNames(filename, c));
      if st3.raised.Some? then st3
      else
        match RemoveFile(st3.folders, input, filename)
        case Err(e) => st3.(raised := Some(OsFailure(e)))
        case Ok(f4) => st3.(folders := f4, log := st3.log + [Removed(filename)])
  }

  /** The loop `for filename in os.listdir(input_folder)`, over the names still to visit; an exception stops it. */
  function RunLoop(st: State, input: Path, output: Path, backup: Path, names: seq<Name>, count: Counter): State
    decreases |names|
  {
    if st.raised.Some? || names == [] then st
    else RunLoop(Visit(st, input, output, backup, names[0], count), input, output, backup, names[1..], count)
  }

  /** One iteration: `if filename.lower().endswith(...)`, then `image_found = True` and the image's processing. */
  function Visit(st: State, input: Path, output: Path, backup: Path, filename: Name, count: Counter): State
    requires st.raised.None?
  {
    if IsImageName(filename) then ProcessImage(st.(imageFound := true), input, output, backup, filename, count) else st
  }

  /** The output and backup folders exist afterwards; existing ones are left as they are. */
  function SetUpFolders(folders: Folders, output: Path, backup: Path): Folders {
    EnsureFolder(EnsureFolder(folders, output), backup)
  }

  /** The whole run, `listing` being the order in which `os.listdir` returns the input folder's names. */
  function Run(folders: Folders, input: Path, output: Path, backup: Path, listing: seq<Name>, count: Counter): State {
    var f := SetUpFolders(folders, output, backup);
    if input !in f then State(f, [], false, Some(OsFailure(FolderNotFound(input))))
    else
      var st := RunLoop(State(f, [], false, None), input, output, backup, listing, count);
      if st.raised.None? && !st.imageFound then st.(log := st.log + [NoPicturesFound]) else st
  }

  /** One image: the statements of the Python function's `if` branch, on the file system in place. */
  method ProcessImageFile(fs: FileSystem, input: Path, output: Path, backup: Path, filename: Name, count: Counter, log0: seq<Event>)
    returns (log: seq<Event>, raised: Option<Exception>)
    modifies fs
    ensures var r := ProcessImage(State(old(fs.folders), log0, true, None), input, output, backup, filename, count);
            fs.folders == r.folders && log == r.log && raised == r.raised
  {
    log := log0;
    var err := fs.Copy(input, filename, backup, filename);
    if err.Some? {
      return log, Some(OsFailure(err.value));
    }
    log := log + [CopiedToBackup(filename)];
    var personCount := count(fs.folders[input][filename]);
    if personCount.None? {
      return log, Some(CounterFailed(filename));
    }
    var c := personCount.value;
    var newFilename := PrimaryName(filename, c);
    err := fs.Copy(input, filename, output, newFilename);
    if err.Some? {
      return log, Some(OsFailure(err.value));
    }
    log := log + [CopiedAndRenamed(filename, newFilename)];
    var failure := MakeDuplicates(fs, output, filename, c, log);
    log := failure.0;
    if failure.1.Some? {
      return log, failure.1;
    }
    err := fs.Remove(input, filename);
    if err.Some? {
      return log, Some(OsFailure(err.value));
    }
    log := log + [Removed(filename)];
    raised := None;
  }

  /** The loop `for i in range(1, count)`: the duplicates of the primary output. */
  method MakeDuplicates(fs: FileSystem, output: Path, filename: Name, count: nat, log0: seq<Event>)
    returns (r: (seq<Event>, Option<Exception>))
    modifies fs
    ensures var st := CopyDuplicates(State(old(fs.folders), log0, true, None), output, PrimaryName(filename, count), CopyNames(filename, count));
            fs.folders == st.folders && r.0 == st.log && r.1 == st.raised
  {
    ghost var st0 := State(fs.folders, log0, true, None);
    var log := log0;
    var newFilename := PrimaryName(filename, count);
    ghost var copies := CopyNames(filename, count);
    var i := 1;
    while i < count
      invariant 1 <= i <= |copies| + 1
      invariant CopyDuplicates(State(fs.folders, log, true, None), output, newFilename, copies[i - 1..]) ==
                CopyDuplicates(st0, output, newFilename, copies)
    {
      var copyFilename := CopyName(filename, count, i);
      assert copies[i - 1..][0] == copyFilename && copies[i - 1..][1..] == copies[i..];
      var err := fs.Copy(output, newFilename, output, copyFilename);
      if err.Some? {
        return (log, Some(OsFailure(err.value)));
      }
      log := log + [CreatedCopy(copyFilename)];
      i := i + 1;
    }
    assert copies[i - 1..] == [];
    return (log, None);
  }

  /**
   * `rename_and_copy_images_in_folder(input_folder, output_folder, backup_folder)`,
   * with `listing` standing for what `os.listdir(input_folder)` returns.
   */
  method RenameAndCopyImagesInFolder(fs: FileSystem, inputFolder: Path, outputFolder: Path, backupFolder: Path,
                                     listing: seq<Name>, count: Counter)
    returns (log: seq<Event>, raised: Option<Exception>)
    modifies fs
    ensures var r := Run(old(fs.folders), inputFolder, outputFolder, backupFolder, listing, count);
            fs.folders == r.folders && log == r.log && raised == r.raised
  {
    var present := fs.Exists(outputFolder);
    if !present {
      fs.MakeDirs(outputFolder);
    }
    present := fs.Exists(backupFolder);
    if !present {
      fs.MakeDirs(backupFolder);
    }
    assert fs.folders == SetUpFolders(old(fs.folders), outputFolder, backupFolder);
    present := fs.Exists(inputFolder);
    if !present {
      return [], Some(OsFailure(FolderNotFound(inputFolder)));
    }
    ghost var start := State(fs.folders, [], false, None);
    log := [];
    var imageFound := false;
    var k := 0;
    while k < |listing|
      invariant 0 <= k <= |listing|
      invariant RunLoop(State(fs.folders, log, imageFound, None), inputFolder, outputFolder, backupFolder, listing[k..], count) ==
                RunLoop(start, inputFolder, outputFolder, backupFolder, listing, count)
    {
      var filename := listing[k];
      assert listing[k..][1..] == listing[k + 1..];
      if IsImageName(filename) {
        imageFound := true;
        var failure;
        ghost var before := State(fs.folders, log, true, None);
        log, failure := ProcessImageFile(fs, inputFolder, outputFolder, backupFolder, filename, count, log);
        assert State(fs.folders, log, true, failure) == ProcessImage(before, inputFolder, outputFolder, backupFolder, filename, count);
        if failure.Some? {
          assert RunLoop(State(fs.folders, log, true, failure), inputFolder, outputFolder, backupFolder, listing[k + 1..], count) ==
                 State(fs.folders, log, true, failure);
          return log, failure;
        }
      }
      k := k + 1;
    }
    assert listing[k..] == [];
    if !imageFound {
      log := log + [NoPicturesFound];
    }
    raised := None;
  }
}
