# humans-detector-opencv: the folder pipeline, modelled in Dafny

The repository counts the people in photos and files the photos away. Its
core is `rename_and_copy_images_in_folder`, which appears twice:
- the three-folder version in `detect_faces_with_gui.py`;
- the one-folder version in `detect_faces.py`, which derives the output and
  backup folders from the input folder.

For every name in a snapshot of the input folder's listing whose lower-cased
form ends with `.png`, `.jpg` or `.jpeg`, the function:
1. copies the file to the backup folder under its own name;
2. asks the person counter for a count `c`;
3. writes the primary output `{base}_({c} personnes){ext}` to the output
   folder;
4. writes `c - 1` duplicates `{base}_({c} personnes)_copy{i}{ext}` of that
   primary;
5. removes the file from the input folder.

It prints one line per step. At the end it prints "No pictures found" if no
name matched. There is no exception handling: any failure aborts the whole
run.

The project is organised like this:
- `wrappers.dfy`: `Option` and `Result`.
- `strings.dfy`: `str.lower()` on ASCII, `endswith`, and `str(n)` for counts,
  with its read-back round trip.
- `naming.dfy`: the image filter, `os.path.splitext`, and the output-name
  template, with the facts that make output names unambiguous.
- `files.dfy`: an abstract file system (folders as maps from names to
  contents) and the operations the pipeline uses:
  - the pure functions `EnsureFolder`, `CopyFile` and `RemoveFile`;
  - a class `FileSystem` whose methods perform them in place.
- `folder_pipeline.dfy`:
  - the pure specification `Run`, a fold over the listing that returns the
    folders, the console lines, `image_found` and the exception raised, if
    any;
  - the imperative methods that perform the run on a `FileSystem` with the
    source's loops. Each is proved equal to the specification.
- `pipeline_properties.dfy`: what `Run` does, proved against reference
  definitions of the three folders after the images are handled
  (`InputLeft`, `BackupFilled`, `OutputFilled`) and of the console
  (`ExpectedLog`).
- `detect_faces.dfy`: the one-folder version, with `os.path.join` on POSIX.

The person counter is a parameter `count: Content -> Option<nat>`, where
`None` stands for the counter raising. The listing that `os.listdir`
returns is a parameter too. Theorems about complete runs require that it
names every file of the input folder exactly once.

## Model

| member | source | states |
|---|---|---|
| Strings.LowerChar | detect_faces_with_gui.py:48 | `lower()` on one character leaves no ASCII capital, and changes only a capital, into its small letter |
| Strings.Lower | detect_faces_with_gui.py:48 | `str.lower()` keeps the length; what it does to each character is stated by `Strings.LowerLeavesNoCapitals` |
| Strings.LowerLeavesNoCapitals | detect_faces_with_gui.py:48 | a lower-cased string has no ASCII capital, and every non-capital stays where it was |
| Strings.EndsWith | detect_faces_with_gui.py:48 | `s.endswith(suffix)`: the last `len(suffix)` characters are the suffix |
| Strings.EndsWithAny | detect_faces_with_gui.py:48 | `s.endswith(tuple)`: the string ends with some entry of the tuple |
| Strings.EndsWithAnyConcat | detect_faces_with_gui.py:48 | a string ends with one of a concatenated tuple of suffixes exactly when it ends with one of either part |
| Strings.EndsWithAny3 | detect_faces_with_gui.py:48 | `endswith` with a three-suffix tuple is the disjunction of the three tests |
| Strings.NatToString | detect_faces_with_gui.py:59 | `str(c)` is a non-empty string of decimal digits with no leading zero unless `c` is 0 |
| Strings.DigitsValueOfNatToString | detect_faces_with_gui.py:59 | reading back the decimal rendering of a count gives the count |
| Strings.NatToStringInjective | detect_faces_with_gui.py:59 | different counts are rendered differently |
| Naming.IsImageName | detect_faces_with_gui.py:48 | the filter as written: the lower-cased name ends with one of the six suffixes; its meaning is stated by `Naming.IsImageNameIffExtension` |
| Naming.UpperSuffixesRedundant | detect_faces_with_gui.py:48 | after `lower()`, the capitalised tuple entries never match: the six-suffix test equals the `.png`/`.jpg`/`.jpeg` test |
| Naming.IsImageNameIffExtension | detect_faces_with_gui.py:48 | a name passes the filter exactly when it ends, character by character, with `.png`, `.jpg` or `.jpeg` in any mixture of cases |
| Naming.ImageNameEndsWithG | detect_faces_with_gui.py:48 | every name that passes the filter ends with `g` or `G` |
| Naming.LastDot | detect_faces_with_gui.py:58 | the index of the last `.`, or -1 when there is none |
| Naming.Splitext | detect_faces_with_gui.py:58 | base followed by extension is the name; a non-empty extension is one dot and no further dot, after a base that is not all dots |
| Naming.SplitextUnique | detect_faces_with_gui.py:58 | any split of that form is the one `os.path.splitext` returns, so the two contracts characterise it |
| Naming.TagText | detect_faces_with_gui.py:59-68 | the text between base and extension: `_({c} personnes)` for the primary, `_({c} personnes)_copy{i}` for a duplicate |
| Naming.TaggedName | detect_faces_with_gui.py:58-68 | base, then tag, then extension, the base and extension being those of `os.path.splitext` |
| Naming.PrimaryName | detect_faces_with_gui.py:59 | `new_filename` for a count |
| Naming.CopyName | detect_faces_with_gui.py:68 | `copy_filename` for a count and a copy index |
| Naming.DuplicateCount | detect_faces_with_gui.py:67 | the number of iterations of `range(1, c)`: `c - 1`, or 0 when `c` is 0 |
| Naming.CopyNames | detect_faces_with_gui.py:67-68 | the duplicate names in the order the loop writes them |
| Naming.OutputNames | detect_faces_with_gui.py:59-68 | the primary name followed by the duplicate names; `Naming.OutputNamesAt` states its length and entries |
| Naming.OutputNamesAt | detect_faces_with_gui.py:59-68 | an image with count `c` gets `max(c, 1)` output names: the primary first, then `_copy1` to `_copy{c-1}` in order |
| Naming.OutputNamesDistinct | detect_faces_with_gui.py:59-68 | no two output names of one image coincide |
| Naming.PrimaryNotCopy | detect_faces_with_gui.py:67-70 | the primary is none of the duplicate names, so no duplicate copy is a copy onto itself |
| Naming.TaggedNameTagInjective | detect_faces_with_gui.py:59-68 | on one image, different counts or copy indices give different names |
| Naming.TaggedNameInjective | detect_faces_with_gui.py:58-68 | an image's output name determines the image's name, its count and its copy index |
| Naming.OutputNamesDisjoint | detect_faces_with_gui.py:59-68 | two different images never share an output name, whatever their counts |
| FolderPipeline.Message | detect_faces_with_gui.py:55-78 | the text printed for each event: the four lines for one image and the final message |
| FolderPipeline.MessageOpening | detect_faces_with_gui.py:55-78 | every printed line starts with the fixed text of its kind |
| FolderPipeline.MessageKind | detect_faces_with_gui.py:55-78 | two equal printed lines come from events of the same kind; in particular "No pictures found" is never an image's line |
| FolderPipeline.MessageDeterminesEvent | detect_faces_with_gui.py:55-75 | a backup, copy or removal line determines its file name; a rename line determines the new name once the old one is known |
| FolderPipeline.SetUpFolders | detect_faces_with_gui.py:41-44 | the two `exists`/`makedirs` tests, in order; `PipelineProperties.SetUpFoldersEffect` states its effect |
| FolderPipeline.CopyDuplicates | detect_faces_with_gui.py:67-71 | the `range(1, c)` loop as a fold over the copy names, stopping at the first failing copy; its own contract only keeps `image_found`, and `PipelineProperties.CopyDuplicatesEffect` states its effect |
| FolderPipeline.WriteOutputs | detect_faces_with_gui.py:58-75 | the primary copy, the duplicates and the removal for a known count, each stopping the image at its error; its own contract only keeps `image_found`, and `PipelineProperties.WriteOutputsEffect` states its effect |
| FolderPipeline.ProcessImage | detect_faces_with_gui.py:53-75 | the backup copy, then the count (a raising counter stops the run), then `WriteOutputs`; its own contract only keeps `image_found`, and `PipelineProperties.ProcessImageCounted` and `PipelineProperties.ProcessImageCountFails` state its effect |
| FolderPipeline.Visit | detect_faces_with_gui.py:48-75 | one iteration: an image sets `image_found` and is processed, any other name changes nothing |
| FolderPipeline.RunLoop | detect_faces_with_gui.py:47-75 | the listing loop as a fold that stops at the first exception |
| FolderPipeline.Run | detect_faces_with_gui.py:40-78 | the whole function: set-up, `os.listdir` raising on a missing input folder, the loop, and the final message when no exception was raised and no image found; `PipelineProperties.RunCompletes` and the theorems after it state what it does |
| Files.EnsureFolder | detect_faces_with_gui.py:41-44 | the folder exists afterwards; an existing one is left as it is, a missing one is created empty, no other folder changes |
| Files.CopyFile | detect_faces_with_gui.py:54 | `shutil.copy` succeeds exactly when the source file and the destination folder exist and are not the same file; the destination then holds the source's content, overwriting any file of that name, and the source is unchanged |
| Files.RemoveFile | detect_faces_with_gui.py:74 | `os.remove` succeeds exactly when the file exists, and then only that file is gone |
| Files.FileSystem.Exists | detect_faces_with_gui.py:41 | `os.path.exists` answers whether the folder exists |
| Files.FileSystem.MakeDirs | detect_faces_with_gui.py:42 | `os.makedirs` on a missing folder creates it empty |
| Files.FileSystem.Copy | detect_faces_with_gui.py:54 | the in-place copy has the effect `CopyFile` gives, and a failed copy changes nothing |
| Files.FileSystem.Remove | detect_faces_with_gui.py:74 | the in-place removal has the effect `RemoveFile` gives, and a failed removal changes nothing |
| FolderPipeline.MakeDuplicates | detect_faces_with_gui.py:67-71 | the `range(1, c)` loop leaves the folders and console that `CopyDuplicates` specifies, and the exception if a copy fails |
| FolderPipeline.ProcessImageFile | detect_faces_with_gui.py:49-75 | one image's statements, in place, have the effect `ProcessImage` specifies |
| FolderPipeline.RenameAndCopyImagesInFolder | detect_faces_with_gui.py:40-78 | the whole function, in place, ends with the folders, console lines and exception that `Run` specifies |
| PipelineProperties.FileLogOrder | detect_faces_with_gui.py:55-75 | one image prints `c - 1 + 3` lines (at least 3): backup, rename, each copy in increasing index, removal last |
| PipelineProperties.CopyDuplicatesEffect | detect_faces_with_gui.py:67-71 | the duplicate loop writes the primary's content under every copy name and prints one line for each, in order, without failing |
| PipelineProperties.BackupCopy | detect_faces_with_gui.py:53-54 | the backup copy of a listed file succeeds and leaves the input folder as it was |
| PipelineProperties.CopiesEffect | detect_faces_with_gui.py:63-71 | the primary copy and its duplicates write the image's content under all its output names |
| PipelineProperties.WriteOutputsEffect | detect_faces_with_gui.py:58-75 | once an image is counted, its output names hold its content, it leaves the input folder, and its lines are printed |
| PipelineProperties.ProcessImageCounted | detect_faces_with_gui.py:53-75 | an image whose count succeeds ends up in the backup folder and under all its output names, is removed from the input folder, and prints its lines in order |
| PipelineProperties.ProcessImageCountFails | detect_faces_with_gui.py:53-57 | when the counter raises, the image has already been backed up and its backup line printed; nothing else happened |
| PipelineProperties.InputStep | detect_faces_with_gui.py:74 | one more handled image leaves the expected input folder |
| PipelineProperties.BackupStep | detect_faces_with_gui.py:54 | one more handled image is added to the expected backup folder |
| PipelineProperties.OutputFilledStep | detect_faces_with_gui.py:63-70 | one more handled image has its output names written to the expected output folder |
| PipelineProperties.HandledStep | detect_faces_with_gui.py:53-75 | the expected folders for one more image are what `ProcessImageCounted` produces from those before it |
| PipelineProperties.HandledSkip | detect_faces_with_gui.py:48 | a name that is not an image changes none of the expected folders |
| PipelineProperties.HandledNone | detect_faces_with_gui.py:46-47 | before any name is visited, the expected folders are the starting ones |
| PipelineProperties.VisitStep | detect_faces_with_gui.py:47-75 | visiting one more listed name whose count, if it is an image, succeeds keeps the run in its expected state |
| PipelineProperties.VisitImageStep | detect_faces_with_gui.py:48-75 | the same, for an image |
| PipelineProperties.VisitAborts | detect_faces_with_gui.py:48-57 | visiting an image whose count raises ends the run in the expected state plus that image's backup |
| PipelineProperties.RunLoopCompletes | detect_faces_with_gui.py:47-75 | when every count succeeds, the loop ends with the expected folders, console and `image_found` for the whole listing |
| PipelineProperties.RunLoopAborts | detect_faces_with_gui.py:47-75 | when the counter first raises on `listing[j]`, the loop ends in `Aborted`: the images before `j` handled and `listing[j]` backed up |
| PipelineProperties.RunLoopSkips | detect_faces_with_gui.py:47-48 | a listing without images changes nothing and prints nothing |
| PipelineProperties.OutsApartForCounts | detect_faces_with_gui.py:59-68 | the output names of different images are disjoint, whatever the counter returns |
| PipelineProperties.OutputStep | detect_faces_with_gui.py:63-70 | writing a new image's output names keeps the output invariant |
| PipelineProperties.OutputFilledAfter | detect_faces_with_gui.py:63-70 | after the writes, each output name holds its image's content and every other file is as it was |
| PipelineProperties.OutputAfterMeans | detect_faces_with_gui.py:63-70 | the output invariant for all images of the folder is `OutputsWritten`: every output name of every image holds that image's content, every other file is unchanged, and no file is lost |
| PipelineProperties.OutputKept | detect_faces_with_gui.py:63-70 | no file that was in the output folder is lost |
| PipelineProperties.WrittenIsOutput | detect_faces_with_gui.py:63-70 | a name was written exactly when it is an output name of an image of the folder |
| PipelineProperties.SetUpFoldersEffect | detect_faces_with_gui.py:41-44 | the set-up adds the output and backup folders only where they are missing, changes no existing folder, and is the identity when both exist |
| PipelineProperties.ImagesOfListing | detect_faces_with_gui.py:47-48 | the images of the listing are the images of the folder, and the listing has one exactly when the folder has one |
| PipelineProperties.RunCompletes | detect_faces_with_gui.py:40-78 | when every count succeeds, the run ends with the expected folders, every image's lines in listing order, the message exactly when no image was found, and no exception |
| PipelineProperties.InputLeftAll | detect_faces_with_gui.py:74 | once all images have left, exactly the non-image files remain |
| PipelineProperties.RunMovesImages | detect_faces_with_gui.py:47-74 | afterwards the input folder holds exactly its non-image files, each with its content |
| PipelineProperties.BackupFilledAll | detect_faces_with_gui.py:54 | once all images are copied, the backup folder is the old one overridden by every image |
| PipelineProperties.RunBacksUpImages | detect_faces_with_gui.py:53-54 | afterwards the backup folder is the one that was there, or an empty one, with every image of the input folder copied in under its own name, overwriting same-named files |
| PipelineProperties.RunOutputFilled | detect_faces_with_gui.py:58-70 | afterwards the output folder is the expected output folder for the whole listing |
| PipelineProperties.RunWritesOutputs | detect_faces_with_gui.py:58-70 | afterwards each image's `max(c, 1)` output names hold its content; every other output file was there before, unchanged; none was lost |
| PipelineProperties.RunLeavesOtherFolders | detect_faces_with_gui.py:40-78 | the run creates only the output and backup folders and touches no folder besides the three |
| PipelineProperties.NoMessageInExpectedLog | detect_faces_with_gui.py:78 | no image's lines include "No pictures found" |
| PipelineProperties.NoMessageInFileLog | detect_faces_with_gui.py:55-75 | one image's lines do not include "No pictures found" |
| PipelineProperties.RunReports | detect_faces_with_gui.py:46-78 | the console holds each image's lines in listing order; "No pictures found" appears, last, exactly when the folder holds no image; `image_found` says whether it holds one |
| PipelineProperties.RunAbortsAt | detect_faces_with_gui.py:47-57 | when the counter first raises on the image `listing[j]`, the run ends in `Aborted` |
| PipelineProperties.AbortedFolders | detect_faces_with_gui.py:53-57 | in `Aborted`, the input folder has lost only the images before `j`, and the backup folder holds the images up to and including `j` |
| PipelineProperties.UnvisitedKept | detect_faces_with_gui.py:47-57 | `listing[j]` and every name after it are still in the input folder, unchanged |
| PipelineProperties.FailedBackedUp | detect_faces_with_gui.py:53-57 | the image on which the counter raised is already in the backup folder with its content |
| PipelineProperties.RunAbortsAtFailingCount | detect_faces_with_gui.py:47-57 | the run ends in `Aborted` with the counter's exception; the failing image and every later name are still in the input folder; the failing image is also in the backup folder |
| PipelineProperties.RunInputMissing | detect_faces_with_gui.py:41-47 | a missing input folder: the output and backup folders are still set up, then `os.listdir` raises before anything is printed |
| PipelineProperties.RerunFindsNothing | detect_faces_with_gui.py:41-78 | rerunning on the result of a complete run changes nothing, raises nothing, and prints only "No pictures found" |
| DetectFaces.Join | detect_faces.py:34-35 | `os.path.join` keeps the first part as a prefix and ends with the second, with at most one `/` inserted |
| DetectFaces.DerivedFolders | detect_faces.py:34-35 | the output and backup folders start with `folder_path` and end with `../output` and `../images_backup` |
| DetectFaces.DerivedFoldersDistinct | detect_faces.py:34-35 | the derived folders differ from the input folder and from each other, so every theorem above applies to this version |
| DetectFaces.RenameAndCopyImagesInFolder | detect_faces.py:33-73 | the one-folder function, in place, is the three-folder run on the derived folders |

## Left out

- `count_people_in_image` (OpenCV inference with a float confidence threshold and a network loaded at import) is not part of this model. It is the parameter `count`, and `None` stands for any exception it raises.
- The tkinter dialogs and the `__main__` blocks are not part of this model.
- The console is a sequence of `Event`s. `FolderPipeline.Message` gives the text of each, and nothing is printed.
- File contents are opaque byte strings. Partial writes, permissions and the other OS errors are not modelled. The modelled failures are: a missing source file, a missing folder, and a copy onto itself. Each aborts the run, as the code has no `try`.
- Paths are plain identifiers: `..` is not resolved, and case-insensitive file systems are not modelled. A `folder_path` whose last component is `output` (or `images_backup`) makes a real `folder_path/../output` the input folder itself. The model treats it as a different folder.
- `os.makedirs` creating missing parent folders is not modelled. `Files.FileSystem.MakeDirs` requires the folder to be absent, as the code calls it only after `os.path.exists` returned false.
- Subfolders of the input folder are not modelled; folders hold only files.
- `str.lower()` is modelled on ASCII letters only. No other character lowers to a letter of `png`, `jpg` or `jpeg`, so the filter is unaffected.
- `os.listdir` order is unspecified, so the listing is a parameter. The theorems about complete runs require it to name every file of the input folder once.
- FolderPipeline.CopyDuplicates: its own contract states only that `image_found` is kept. What it does to the folders and the console is stated in `PipelineProperties.CopyDuplicatesEffect`.
- FolderPipeline.WriteOutputs: its own contract states only that `image_found` is kept. Its effect is stated in `PipelineProperties.WriteOutputsEffect`.
- FolderPipeline.ProcessImage: its own contract states only that `image_found` is kept. Its effect is stated in `PipelineProperties.ProcessImageCounted` and `PipelineProperties.ProcessImageCountFails`.
- FolderPipeline.MessageDeterminesEvent: it does not decode a rename line without its old name. A file name containing `' to '` can make two different rename lines print the same text.
- Calls with two equal folder arguments are not covered: the theorems require the three folders to be distinct. For `detect_faces.py`, `DetectFaces.DerivedFoldersDistinct` proves this.
- `PipelineProperties.RunCompletes` and the theorems built on it assume that every count succeeds. `PipelineProperties.RunAbortsAtFailingCount` covers the first count that raises. A copy or removal failing midway cannot happen under those theorems' preconditions; `Run` models it but no theorem describes it.
