/**
 * What a run of `rename_and_copy_images_in_folder` does to the three folders
 * and to the console, proved about the specification `FolderPipeline.Run`
 * (which the method performing the run is proved equal to).
 */
module PipelineProperties {
  import opened Wrappers
  import opened Naming
  import opened Files
  import opened FolderPipeline

  // ---------------------------------------------------------------------
  // Vocabulary

  predicate Distinct3(a: Path, b: Path, c: Path) {
    a != b && a != c && b != c
  }

  predicate Distinct(names: seq<Name>) {
    forall i, j :: 0 <= i < j < |names| ==> names[i] != names[j]
  }

  /** `listing` can be what `os.listdir` returns for `folder`: every name of the folder, once. */
  predicate IsListingOf(listing: seq<Name>, folder: Folder) {
    Distinct(listing) &&
    (forall n :: n in listing ==> n in folder) &&
    (forall n :: n in folder ==> n in listing)
  }

  /** The folder at `dir`, or an empty one when it does not exist yet. */
  function Existing(folders: Folders, dir: Path): Folder {
    if dir in folders then folders[dir] else map[]
  }

  /** The count the counter gives for a listed name's content (0 where there is none). */
  function PersonCount(source: Folder, count: Counter, n: Name): nat {
    if n in source && count(source[n]).Some? then count(source[n]).value else 0
  }

  /** The counter returns a count for every image among `names`. */
  predicate CountsSucceed(names: seq<Name>, source: Folder, count: Counter) {
    forall n :: n in names && IsImageName(n) && n in source ==> count(source[n]).Some?
  }

  predicate HasImage(names: seq<Name>) {
    exists n :: n in names && IsImageName(n)
  }

  /** `folder` after `shutil.copy` of one content to each of `names`, in order. */
  function WriteAll(folder: Folder, names: seq<Name>, x: Content): (r: Folder)
    decreases |names|
    ensures forall o :: o in names ==> o in r && r[o] == x
    ensures forall o :: o !in names ==> (o in r <==> o in folder) && (o in folder ==> r[o] == folder[o])
  {
    if names == [] then folder else WriteAll(folder[names[0] := x], names[1..], x)
  }

  /** One `Created copy` line for each of `copies`, in order. */
  function CreatedLines(copies: seq<Name>): seq<Event> {
    seq(|copies|, k requires 0 <= k < |copies| => CreatedCopy(copies[k]))
  }

  /** The console lines for `for i in range(1, count)`. */
  function CopyLog(filename: Name, count: nat): seq<Event> {
    CreatedLines(CopyNames(filename, count))
  }

  /** The console lines for one image, in the order the Python function prints them. */
  function FileLog(filename: Name, count: nat): seq<Event> {
    [CopiedToBackup(filename), CopiedAndRenamed(filename, PrimaryName(filename, count))] + CopyLog(filename, count) + [Removed(filename)]
  }

  /**
   * One image's lines: the backup line, the rename line, one line per
   * duplicate in increasing `_copy{i}` order, the removal line last.
   */
  lemma FileLogOrder(filename: Name, count: nat)
    ensures var lines := FileLog(filename, count);
            var d := DuplicateCount(count);
            |lines| == d + 3 &&
            lines[0] == CopiedToBackup(filename) &&
            lines[1] == CopiedAndRenamed(filename, PrimaryName(filename, count)) &&
            (forall i :: 1 <= i <= d ==> lines[i + 1] == CreatedCopy(CopyName(filename, count, i))) &&
            lines[d + 2] == Removed(filename)
  {
    var lines := FileLog(filename, count);
    var copies := CopyLog(filename, count);
    forall i | 1 <= i <= DuplicateCount(count) ensures lines[i + 1] == CreatedCopy(CopyName(filename, count, i)) {
      assert lines[i + 1] == copies[i - 1];
    }
  }

  /** The console lines for the images among `names`, in listing order. */
  function ExpectedLog(names: seq<Name>, source: Folder, count: Counter): seq<Event> {
    if names == [] then []
    else
      var last := names[|names| - 1];
      ExpectedLog(names[..|names| - 1], source, count) +
      (if IsImageName(last) then FileLog(last, PersonCount(source, count, last)) else [])
  }

  /** The images among `names`. */
  function Images(names: seq<Name>): set<Name> {
    set n | n in names && IsImageName(n)
  }

  /** The output names of each name of `source`, for the count its content gets. */
  function Outs(source: Folder, count: Counter): Name -> seq<Name> {
    n => OutputNames(n, PersonCount(source, count, n))
  }

  /** `o` is one of the names `outs` gives an image in `moved`. */
  predicate IsWritten(moved: set<Name>, source: Folder, outs: Name -> seq<Name>, o: Name) {
    exists n :: n in moved && n in source && o in outs(n)
  }


  /**
   * The output folder once every name `outs` gives an image in `moved` holds
   * that image's content; the other files are as they were.
   */
  predicate OutputAfter(now: Folder, before: Folder, source: Folder, moved: set<Name>, outs: Name -> seq<Name>) {
    (forall n, o :: n in moved && n in source && o in outs(n) ==> o in now && now[o] == source[n]) &&
    (forall o :: o in now && !IsWritten(moved, source, outs, o) ==> o in before && now[o] == before[o]) &&
    (forall o :: o in before && !IsWritten(moved, source, outs, o) ==> o in now)
  }

  /** Different images of `source` are given names by `outs` that never meet. */
  predicate OutsApart(source: Folder, outs: Name -> seq<Name>) {
    forall m, n, o :: m in source && n in source && IsImageName(m) && IsImageName(n) && m != n && o in outs(m) ==> o !in outs(n)
  }

  // ---------------------------------------------------------------------
  // The folders once some of the listed names have been handled

  /** The input folder `source` once the images among `names` have left it. */
  function InputLeft(source: Folder, names: seq<Name>): Folder {
    source - Images(names)
  }

  /** The backup folder once each image among `names` was copied from `source` into it under its own name. */
  function BackupFilled(before: Folder, source: Folder, names: seq<Name>): Folder {
    before + map n | n in Images(names) && n in source :: source[n]
  }

  /** The output folder once the images among `names` had their output names `outs` written, in listing order. */
  function OutputFilled(before: Folder, source: Folder, names: seq<Name>, outs: Name -> seq<Name>): Folder
    decreases |names|
  {
    if names == [] then before
    else
      var last := names[|names| - 1];
      var prev := OutputFilled(before, source, names[..|names| - 1], outs);
      if IsImageName(last) && last in source then WriteAll(prev, outs(last), source[last]) else prev
  }

  /** All folders once the images among `names` were handled, starting from `start`: only the three folders change. */
  function Handled(start: Folders, input: Path, output: Path, backup: Path, names: seq<Name>, outs: Name -> seq<Name>): Folders
    requires input in start && output in start && backup in start
  {
    var source := start[input];
    start[input := InputLeft(source, names)]
         [backup := BackupFilled(start[backup], source, names)]
         [output := OutputFilled(start[output], source, names, outs)]
  }

  /** The state of the run once the names in `processed` were visited and no exception was raised. */
  predicate Done(st: State, start: Folders, input: Path, output: Path, backup: Path, processed: seq<Name>, count: Counter) {
    input in start && output in start && backup in start &&
    st == State(Handled(start, input, output, backup, processed, Outs(start[input], count)),
                ExpectedLog(processed, start[input], count), HasImage(processed), None)
  }

  // ---------------------------------------------------------------------
  // One image

  /**
   * The duplicates loop, while the primary output holds `x` and is not one
   * of the copy names: it writes `x` under every copy name and prints one
   * line for each, in order.
   */
  lemma {:induction false} CopyDuplicatesEffect(st: State, output: Path, primary: Name, copies: seq<Name>, x: Content)
    requires st.raised.None? && output in st.folders
    requires primary in st.folders[output] && st.folders[output][primary] == x
    requires primary !in copies
    ensures var r := CopyDuplicates(st, output, primary, copies);
            r.raised.None? && r.imageFound == st.imageFound &&
            r.folders == st.folders[output := WriteAll(st.folders[output], copies, x)] &&
            r.log == st.log + CreatedLines(copies)
    decreases |copies|
  {
    var out := st.folders[output];
    if copies == [] {
      assert st.folders[output := out] == st.folders;
    } else {
      var f := st.folders[output := out[copies[0] := x]];
      assert CopyFile(st.folders, output, primary, output, copies[0]) == Ok(f);
      var st' := st.(folders := f, log := st.log + [CreatedCopy(copies[0])]);
      CopyDuplicatesEffect(st', output, primary, copies[1..], x);
      CreatedLinesCons(st.log, copies);
      var w := WriteAll(out[copies[0] := x], copies[1..], x);
      assert f[output := w] == st.folders[output := w];
    }
  }

  lemma CreatedLinesCons(log: seq<Event>, copies: seq<Name>)
    requires copies != []
    ensures log + [CreatedCopy(copies[0])] + CreatedLines(copies[1..]) == log + CreatedLines(copies)
  {
    assert CreatedLines(copies) == [CreatedCopy(copies[0])] + CreatedLines(copies[1..]);
  }

  /** The first step for one image: the copy to the backup folder under its own name. */
  lemma BackupCopy(F: Folders, input: Path, backup: Path, n: Name)
    requires input != backup && input in F && backup in F && n in F[input]
    ensures CopyFile(F, input, n, backup, n) == Ok(F[backup := F[backup][n := F[input][n]]])
    ensures F[backup := F[backup][n := F[input][n]]][input] == F[input]
  {
  }

  /**
   * One image whose file is in the input folder and whose count succeeds:
   * the backup folder gets the image under its own name, the output folder
   * every output name with the image's content, the image leaves the input
   * folder, and the image's console lines are printed in order.
   */
  lemma ProcessImageCounted(st: State, input: Path, output: Path, backup: Path, n: Name, count: Counter)
    requires st.raised.None? && Distinct3(input, output, backup)
    requires input in st.folders && output in st.folders && backup in st.folders
    requires n in st.folders[input] && count(st.folders[input][n]).Some?
    ensures var F := st.folders;
            var x := F[input][n];
            var c := count(x).value;
            var r := ProcessImage(st, input, output, backup, n, count);
            r.raised.None? && r.imageFound == st.imageFound &&
            r.folders == F[backup := F[backup][n := x]][output := WriteAll(F[output], OutputNames(n, c), x)][input := F[input] - {n}] &&
            r.log == st.log + FileLog(n, c)
  {
    var F := st.folders;
    var x := F[input][n];
    var c := count(x).value;
    BackupCopy(F, input, backup, n);
    WriteOutputsEffect(st.(folders := F[backup := F[backup][n := x]], log := st.log + [CopiedToBackup(n)]), input, output, n, c, x);
    LogRegroup(st.log, CopiedToBackup(n), CopiedAndRenamed(n, PrimaryName(n, c)), CopyLog(n, c), Removed(n));
  }

  lemma LogRegroup(a: seq<Event>, b: Event, c: Event, d: seq<Event>, e: Event)
    ensures a + [b] + [c] + d + [e] == a + ([b, c] + d + [e])
  {
  }

  /**
   * One image whose count raises: the image has been copied to the backup
   * folder and its backup line printed; the run stops with the counter's
   * exception.
   */
  lemma ProcessImageCountFails(st: State, input: Path, output: Path, backup: Path, n: Name, count: Counter)
    requires st.raised.None? && Distinct3(input, output, backup)
    requires input in st.folders && output in st.folders && backup in st.folders
    requires n in st.folders[input] && count(st.folders[input][n]).None?
    ensures var F := st.folders;
            var r := ProcessImage(st, input, output, backup, n, count);
            r.raised == Some(CounterFailed(n)) && r.imageFound == st.imageFound &&
            r.folders == F[backup := F[backup][n := F[input][n]]] && r.log == st.log + [CopiedToBackup(n)]
  {
    BackupCopy(st.folders, input, backup, n);
  }

  /** An image whose count is `c`: all its output names hold its content, it leaves the input folder, its lines are printed. */
  lemma WriteOutputsEffect(st: State, input: Path, output: Path, n: Name, c: nat, x: Content)
    requires st.raised.None? && input != output
    requires input in st.folders && output in st.folders
    requires n in st.folders[input] && st.folders[input][n] == x
    ensures var F := st.folders;
            var r := WriteOutputs(st, input, output, n, c);
            r.raised.None? &&
            r.folders == F[output := WriteAll(F[output], OutputNames(n, c), x)][input := F[input] - {n}] &&
            r.log == st.log + [CopiedAndRenamed(n, PrimaryName(n, c))] + CopyLog(n, c) + [Removed(n)]
  {
    var F := st.folders;
    PrimaryNotCopy(n, c);
    CopiesEffect(st, input, output, n, PrimaryName(n, c), CopyNames(n, c), x);
    var f3 := F[output := WriteAll(F[output], OutputNames(n, c), x)];
    assert f3[input] == F[input];
    assert RemoveFile(f3, input, n) == Ok(f3[input := F[input] - {n}]);
  }

  /** The primary output and its duplicates, for any primary name that is none of the copy names. */
  lemma CopiesEffect(st: State, input: Path, output: Path, n: Name, primary: Name, copies: seq<Name>, x: Content)
    requires st.raised.None? && input != output
    requires input in st.folders && output in st.folders
    requires n in st.folders[input] && st.folders[input][n] == x
    requires primary !in copies
    ensures var F := st.folders;
            var f2 := F[output := F[output][primary := x]];
            CopyFile(F, input, n, output, primary) == Ok(f2) &&
            var st3 := CopyDuplicates(st.(folders := f2, log := st.log + [CopiedAndRenamed(n, primary)]), output, primary, copies);
            st3.raised.None? && st3.folders == F[output := WriteAll(F[output], [primary] + copies, x)] &&
            st3.log == st.log + [CopiedAndRenamed(n, primary)] + CreatedLines(copies)
  {
    var F := st.folders;
    var f2 := F[output := F[output][primary := x]];
    var st2 := st.(folders := f2, log := st.log + [CopiedAndRenamed(n, primary)]);
    CopyDuplicatesEffect(st2, output, primary, copies, x);
    assert ([primary] + copies)[1..] == copies;
    assert f2[output := WriteAll(F[output][primary := x], copies, x)] == F[output := WriteAll(F[output][primary := x], copies, x)];
  }

  // ---------------------------------------------------------------------
  // One listed name at a time

  lemma ExpectedLogStep(processed: seq<Name>, n: Name, source: Folder, count: Counter)
    ensures ExpectedLog(processed + [n], source, count) ==
            ExpectedLog(processed, source, count) + (if IsImageName(n) then FileLog(n, PersonCount(source, count, n)) else [])
  {
    assert (processed + [n])[..|processed|] == processed;
  }

  /** The backup folder with one more image copied into it. */
  lemma BackupStep(before: Folder, source: Folder, processed: seq<Name>, n: Name)
    requires n in source && IsImageName(n)
    ensures BackupFilled(before, source, processed + [n]) == BackupFilled(before, source, processed)[n := source[n]]
  {
    assert Images(processed + [n]) == Images(processed) + {n};
  }

  /**
   * Handling one more image of the input folder: it leaves the input folder,
   * is copied to the backup folder, and its output names are written, which
   * is what `ProcessImageCounted` does to the folders.
   */
  lemma HandledStep(start: Folders, input: Path, output: Path, backup: Path, processed: seq<Name>, n: Name,
                    outs: Name -> seq<Name>)
    requires Distinct3(input, output, backup)
    requires input in start && output in start && backup in start
    requires n in start[input] && IsImageName(n)
    ensures var F := Handled(start, input, output, backup, processed, outs);
            var x := start[input][n];
            Handled(start, input, output, backup, processed + [n], outs) ==
            F[backup := F[backup][n := x]][output := WriteAll(F[output], outs(n), x)][input := F[input] - {n}]
  {
    var source := start[input];
    InputStep(source, processed, n);
    BackupStep(start[backup], source, processed, n);
    OutputFilledStep(start[output], source, processed, n, outs);
  }

  /** The input folder with one more image gone. */
  lemma InputStep(source: Folder, processed: seq<Name>, n: Name)
    requires IsImageName(n)
    ensures InputLeft(source, processed + [n]) == InputLeft(source, processed) - {n}
  {
    assert Images(processed + [n]) == Images(processed) + {n};
  }

  /** The output folder with the output names of one more image written. */
  lemma OutputFilledStep(before: Folder, source: Folder, processed: seq<Name>, n: Name, outs: Name -> seq<Name>)
    requires n in source && IsImageName(n)
    ensures OutputFilled(before, source, processed + [n], outs) == WriteAll(OutputFilled(before, source, processed, outs), outs(n), source[n])
  {
    assert (processed + [n])[..|processed|] == processed;
  }

  /** A name that is not an image changes none of the expected folders. */
  lemma HandledSkip(start: Folders, input: Path, output: Path, backup: Path, processed: seq<Name>, n: Name,
                    outs: Name -> seq<Name>)
    requires input in start && output in start && backup in start
    requires !IsImageName(n)
    ensures Handled(start, input, output, backup, processed + [n], outs) == Handled(start, input, output, backup, processed, outs)
  {
    var next := processed + [n];
    assert next[..|next| - 1] == processed;
    assert Images(next) == Images(processed);
  }

  /** Before any name is visited the expected folders are the starting ones. */
  lemma HandledNone(start: Folders, input: Path, output: Path, backup: Path, outs: Name -> seq<Name>)
    requires input in start && output in start && backup in start
    ensures Handled(start, input, output, backup, [], outs) == start
  {
    assert Images([]) == {};
    assert InputLeft(start[input], []) == start[input];
    assert BackupFilled(start[backup], start[input], []) == start[backup];
  }

  /** Visiting one more listed name keeps `Done`, provided its count, if it is an image, succeeds. */
  lemma VisitStep(st: State, start: Folders, input: Path, output: Path, backup: Path, processed: seq<Name>, n: Name, count: Counter)
    requires Distinct3(input, output, backup)
    requires Done(st, start, input, output, backup, processed, count)
    requires n !in processed && n in start[input]
    requires IsImageName(n) ==> count(start[input][n]).Some?
    ensures Done(Visit(st, input, output, backup, n, count), start, input, output, backup, processed + [n], count)
  {
    if IsImageName(n) {
      VisitImageStep(st, start, input, output, backup, processed, n, count);
    } else {
      ExpectedLogStep(processed, n, start[input], count);
      HandledSkip(start, input, output, backup, processed, n, Outs(start[input], count));
      assert HasImage(processed + [n]) == HasImage(processed);
    }
  }

  /** Visiting an image whose count succeeds keeps `Done`. */
  lemma VisitImageStep(st: State, start: Folders, input: Path, output: Path, backup: Path, processed: seq<Name>, n: Name, count: Counter)
    requires Distinct3(input, output, backup)
    requires Done(st, start, input, output, backup, processed, count)
    requires n !in processed && n in start[input]
    requires IsImageName(n) && count(start[input][n]).Some?
    ensures Done(Visit(st, input, output, backup, n, count), start, input, output, backup, processed + [n], count)
  {
    var source := start[input];
    assert n !in Images(processed);
    assert st.folders[input] == InputLeft(source, processed);
    assert st.folders[input][n] == source[n];
    ExpectedLogStep(processed, n, source, count);
    ProcessImageCounted(st.(imageFound := true), input, output, backup, n, count);
    HandledStep(start, input, output, backup, processed, n, Outs(source, count));
    assert Outs(source, count)(n) == OutputNames(n, count(source[n]).value);
    assert HasImage(processed + [n]);
  }

  /** Visiting an image whose count raises: it is backed up, its line printed, and the exception raised. */
  lemma VisitAborts(st: State, start: Folders, input: Path, output: Path, backup: Path, processed: seq<Name>, n: Name, count: Counter)
    requires Distinct3(input, output, backup)
    requires Done(st, start, input, output, backup, processed, count)
    requires n !in processed && n in start[input]
    requires IsImageName(n) && count(start[input][n]).None?
    ensures var source := start[input];
            Visit(st, input, output, backup, n, count) ==
            State(Handled(start, input, output, backup, processed, Outs(source, count))[backup := BackupFilled(start[backup], source, processed + [n])],
                  ExpectedLog(processed, source, count) + [CopiedToBackup(n)], true, Some(CounterFailed(n)))
  {
    var source := start[input];
    assert n !in Images(processed);
    assert st.folders[input][n] == source[n];
    ProcessImageCountFails(st.(imageFound := true), input, output, backup, n, count);
    BackupStep(start[backup], source, processed, n);
  }

  // ---------------------------------------------------------------------
  // The loop

  /** Visiting the rest of a listing whose counts all succeed handles every name in it. */
  lemma {:induction false} RunLoopCompletes(st: State, start: Folders, input: Path, output: Path, backup: Path,
                                            listing: seq<Name>, k: nat, count: Counter)
    requires Distinct3(input, output, backup) && Distinct(listing) && k <= |listing|
    requires Done(st, start, input, output, backup, listing[..k], count)
    requires forall n :: n in listing ==> n in start[input]
    requires CountsSucceed(listing, start[input], count)
    ensures Done(RunLoop(st, input, output, backup, listing[k..], count), start, input, output, backup, listing, count)
    decreases |listing| - k
  {
    if k == |listing| {
      assert listing[..k] == listing && listing[k..] == [];
    } else {
      var n := listing[k];
      NotBefore(listing, k, k);
      VisitStep(st, start, input, output, backup, listing[..k], n, count);
      assert listing[..k] + [n] == listing[..k + 1];
      assert listing[k..][1..] == listing[k + 1..];
      RunLoopCompletes(Visit(st, input, output, backup, n, count), start, input, output, backup, listing, k + 1, count);
    }
  }

  /** A name of a distinct listing does not occur before its position. */
  lemma NotBefore(listing: seq<Name>, j: nat, i: nat)
    requires Distinct(listing) && j <= i < |listing|
    ensures listing[i] !in listing[..j]
  {
    forall h | 0 <= h < j ensures listing[..j][h] != listing[i] {
      assert listing[h] != listing[i];
    }
  }

  /**
   * The state a run ends in when the counter raises on the image
   * `listing[j]`: the images before it handled, `listing[j]` backed up as
   * well, its backup line printed last.
   */
  function Aborted(start: Folders, input: Path, output: Path, backup: Path, listing: seq<Name>, j: nat, count: Counter): State
    requires input in start && output in start && backup in start && j < |listing|
  {
    var source := start[input];
    State(Handled(start, input, output, backup, listing[..j], Outs(source, count))[backup := BackupFilled(start[backup], source, listing[..j + 1])],
          ExpectedLog(listing[..j], source, count) + [CopiedToBackup(listing[j])], true, Some(CounterFailed(listing[j])))
  }

  /** Visiting the rest of a listing in which the counter raises first on the image at `j`. */
  lemma {:induction false} RunLoopAborts(st: State, start: Folders, input: Path, output: Path, backup: Path,
                                         listing: seq<Name>, k: nat, j: nat, count: Counter)
    requires Distinct3(input, output, backup) && Distinct(listing) && k <= j < |listing|
    requires Done(st, start, input, output, backup, listing[..k], count)
    requires forall n :: n in listing ==> n in start[input]
    requires IsImageName(listing[j]) && count(start[input][listing[j]]).None?
    requires CountsSucceed(listing[..j], start[input], count)
    ensures RunLoop(st, input, output, backup, listing[k..], count) == Aborted(start, input, output, backup, listing, j, count)
    decreases j - k
  {
    var n := listing[k];
    NotBefore(listing, k, k);
    assert listing[k..][1..] == listing[k + 1..];
    assert listing[..k] + [n] == listing[..k + 1];
    var v := Visit(st, input, output, backup, n, count);
    if k == j {
      VisitAborts(st, start, input, output, backup, listing[..k], n, count);
      assert RunLoop(v, input, output, backup, listing[k + 1..], count) == v;
    } else {
      assert n in listing[..j];
      VisitStep(st, start, input, output, backup, listing[..k], n, count);
      RunLoopAborts(v, start, input, output, backup, listing, k + 1, j, count);
    }
  }

  /** Names that are not images are only looked at: the loop over them changes nothing and prints nothing. */
  lemma {:induction false} RunLoopSkips(st: State, input: Path, output: Path, backup: Path, names: seq<Name>, count: Counter)
    requires st.raised.None?
    requires forall n :: n in names ==> !IsImageName(n)
    ensures RunLoop(st, input, output, backup, names, count) == st
    decreases |names|
  {
    if names != [] {
      assert names[0] in names;
      forall n | n in names[1..] ensures !IsImageName(n) {
        assert n in names;
      }
      RunLoopSkips(st, input, output, backup, names[1..], count);
    }
  }

  // ---------------------------------------------------------------------
  // What the expected folders hold

  /** The output names of different images never meet, whatever their counts. */
  lemma OutsApartForCounts(source: Folder, count: Counter)
    ensures OutsApart(source, Outs(source, count))
  {
    forall m, n, o | m in source && n in source && IsImageName(m) && IsImageName(n) && m != n && o in Outs(source, count)(m)
      ensures o !in Outs(source, count)(n)
    {
      OutputNamesDisjoint(m, PersonCount(source, count, m), n, PersonCount(source, count, n));
    }
  }

  /** Writing the output names of one more image, none of which an earlier image has. */
  lemma OutputStep(now: Folder, before: Folder, source: Folder, moved: set<Name>, n: Name, outs: Name -> seq<Name>)
    requires OutputAfter(now, before, source, moved, outs) && n in source
    requires forall m, o :: m in moved && o in outs(m) ==> o !in outs(n)
    ensures OutputAfter(WriteAll(now, outs(n), source[n]), before, source, moved + {n}, outs)
  {
    forall o | !IsWritten(moved + {n}, source, outs, o)
      ensures o !in outs(n) && !IsWritten(moved, source, outs, o)
    {
    }
  }

  /**
   * After the images among a distinct list of names of `source` had their
   * output names written, each of those names holds its image's content and
   * every other file is as it was.
   */
  lemma {:induction false} OutputFilledAfter(before: Folder, source: Folder, names: seq<Name>, outs: Name -> seq<Name>)
    requires Distinct(names) && (forall n :: n in names ==> n in source) && OutsApart(source, outs)
    ensures OutputAfter(OutputFilled(before, source, names, outs), before, source, Images(names), outs)
    decreases |names|
  {
    if names == [] {
      assert Images(names) == {};
    } else {
      var prefix := names[..|names| - 1];
      var last := names[|names| - 1];
      forall n | n in prefix ensures n in source {
        assert n in names;
      }
      OutputFilledAfter(before, source, prefix, outs);
      var prev := OutputFilled(before, source, prefix, outs);
      if IsImageName(last) {
        assert Images(names) == Images(prefix) + {last};
        NotBefore(names, |names| - 1, |names| - 1);
        forall m, o | m in Images(prefix) && o in outs(m) ensures o !in outs(last) {
          assert m in source && m != last;
        }
        OutputStep(prev, before, source, Images(prefix), last, outs);
      } else {
        assert Images(names) == Images(prefix);
      }
    }
  }

  /** `o` is one of the names `outs` gives an image of `source`. */
  predicate IsOutputOfImage(source: Folder, outs: Name -> seq<Name>, o: Name) {
    exists n :: n in source && IsImageName(n) && o in outs(n)
  }

  /**
   * The output folder `now` holds, under every name `outs` gives an image
   * of `source`, that image's content; every other file in it was in
   * `before`, unchanged; and no file of `before` is lost.
   */
  predicate OutputsWritten(now: Folder, before: Folder, source: Folder, outs: Name -> seq<Name>) {
    (forall n, o :: n in source && IsImageName(n) && o in outs(n) ==> o in now && now[o] == source[n]) &&
    (forall o :: o in now && !IsOutputOfImage(source, outs, o) ==> o in before && now[o] == before[o]) &&
    (forall o :: o in before ==> o in now)
  }

  /** `OutputAfter` for the case where `moved` is every image of the input folder. */
  lemma OutputAfterMeans(now: Folder, before: Folder, source: Folder, moved: set<Name>, outs: Name -> seq<Name>)
    requires OutputAfter(now, before, source, moved, outs)
    requires forall n :: n in moved <==> n in source && IsImageName(n)
    ensures OutputsWritten(now, before, source, outs)
  {
    WrittenIsOutput(source, moved, outs);
    forall n, o | n in source && IsImageName(n) && o in outs(n) ensures o in now && now[o] == source[n] {
      assert n in moved;
    }
    forall o | o in now && !IsOutputOfImage(source, outs, o) ensures o in before && now[o] == before[o] {
      assert !IsWritten(moved, source, outs, o);
    }
    forall o | o in before ensures o in now {
      OutputKept(now, before, source, moved, outs, o);
    }
  }

  /** Under `OutputAfter` a file that was in the output folder is still there. */
  lemma OutputKept(now: Folder, before: Folder, source: Folder, moved: set<Name>, outs: Name -> seq<Name>, o: Name)
    requires OutputAfter(now, before, source, moved, outs) && o in before
    ensures o in now
  {
    if IsWritten(moved, source, outs, o) {
      var n :| n in moved && n in source && o in outs(n);
    }
  }

  lemma WrittenIsOutput(source: Folder, moved: set<Name>, outs: Name -> seq<Name>)
    requires forall n :: n in moved <==> n in source && IsImageName(n)
    ensures forall o :: IsWritten(moved, source, outs, o) <==> IsOutputOfImage(source, outs, o)
  {
    forall o ensures IsWritten(moved, source, outs, o) <==> IsOutputOfImage(source, outs, o) {
      if IsOutputOfImage(source, outs, o) {
        var n :| n in source && IsImageName(n) && o in outs(n);
        assert n in moved;
      }
    }
  }

  // ---------------------------------------------------------------------
  // The whole run

  /** The folder set-up creates the output and backup folders only where they are missing and changes nothing else. */
  lemma SetUpFoldersEffect(folders: Folders, output: Path, backup: Path)
    ensures var f := SetUpFolders(folders, output, backup);
            f.Keys == folders.Keys + {output, backup} &&
            (forall d :: d in folders ==> f[d] == folders[d]) &&
            f[output] == Existing(folders, output) && f[backup] == Existing(folders, backup) &&
            (output in folders && backup in folders ==> f == folders)
  {
  }

  /** The images of a listing are the images of the folder it lists. */
  lemma ImagesOfListing(listing: seq<Name>, folder: Folder)
    requires IsListingOf(listing, folder)
    ensures forall n :: n in Images(listing) <==> n in folder && IsImageName(n)
    ensures HasImage(listing) <==> exists n :: n in folder && IsImageName(n)
  {
  }

  /**
   * Every count succeeds: the run ends with the expected folders for the
   * whole listing, every image's console lines in listing order, then the
   * message if no image was found, and no exception.
   */
  lemma RunCompletes(folders: Folders, input: Path, output: Path, backup: Path, listing: seq<Name>, count: Counter)
    requires Distinct3(input, output, backup) && input in folders
    requires IsListingOf(listing, folders[input]) && CountsSucceed(listing, folders[input], count)
    ensures var start := SetUpFolders(folders, output, backup);
            input in start && output in start && backup in start && start[input] == folders[input] &&
            Run(folders, input, output, backup, listing, count) ==
            State(Handled(start, input, output, backup, listing, Outs(folders[input], count)),
                  ExpectedLog(listing, folders[input], count) + (if HasImage(listing) then [] else [NoPicturesFound]),
                  HasImage(listing), None)
  {
    var start := SetUpFolders(folders, output, backup);
    SetUpFoldersEffect(folders, output, backup);
    var st := State(start, [], false, None);
    assert listing[..0] == [] && listing[0..] == listing;
    HandledNone(start, input, output, backup, Outs(folders[input], count));
    assert Done(st, start, input, output, backup, listing[..0], count);
    RunLoopCompletes(st, start, input, output, backup, listing, 0, count);
  }

  /**
   * After a run in which every count succeeds, exactly the non-image files
   * remain in the input folder, each with its content.
   */
  lemma RunMovesImages(folders: Folders, input: Path, output: Path, backup: Path, listing: seq<Name>, count: Counter)
    requires Distinct3(input, output, backup) && input in folders
    requires IsListingOf(listing, folders[input]) && CountsSucceed(listing, folders[input], count)
    ensures var r := Run(folders, input, output, backup, listing, count);
            var source := folders[input];
            input in r.folders && r.folders[input] == map n | n in source && !IsImageName(n) :: source[n]
  {
    RunCompletes(folders, input, output, backup, listing, count);
    InputLeftAll(folders[input], listing);
  }

  /** Once every image of a listing has left the folder, the non-images are what remains. */
  lemma InputLeftAll(source: Folder, listing: seq<Name>)
    requires IsListingOf(listing, source)
    ensures InputLeft(source, listing) == map n | n in source && !IsImageName(n) :: source[n]
  {
    ImagesOfListing(listing, source);
  }

  /**
   * After a run in which every count succeeds, the backup folder is the one
   * that was there (or an empty one) with every image of the input folder
   * copied into it under its own name.
   */
  lemma RunBacksUpImages(folders: Folders, input: Path, output: Path, backup: Path, listing: seq<Name>, count: Counter)
    requires Distinct3(input, output, backup) && input in folders
    requires IsListingOf(listing, folders[input]) && CountsSucceed(listing, folders[input], count)
    ensures var r := Run(folders, input, output, backup, listing, count);
            var source := folders[input];
            backup in r.folders &&
            r.folders[backup] == Existing(folders, backup) + map n | n in source && IsImageName(n) :: source[n]
  {
    RunCompletes(folders, input, output, backup, listing, count);
    SetUpFoldersEffect(folders, output, backup);
    BackupFilledAll(Existing(folders, backup), folders[input], listing);
  }

  /** Once every image of a listing was copied, the backup folder has them all over what it had. */
  lemma BackupFilledAll(before: Folder, source: Folder, listing: seq<Name>)
    requires IsListingOf(listing, source)
    ensures BackupFilled(before, source, listing) == before + map n | n in source && IsImageName(n) :: source[n]
  {
    ImagesOfListing(listing, source);
    assert (map n | n in Images(listing) && n in source :: source[n]) == (map n | n in source && IsImageName(n) :: source[n]);
  }

  /** After a run in which every count succeeds, the output folder is the expected one for the whole listing. */
  lemma RunOutputFilled(folders: Folders, input: Path, output: Path, backup: Path, listing: seq<Name>, count: Counter)
    requires Distinct3(input, output, backup) && input in folders
    requires IsListingOf(listing, folders[input]) && CountsSucceed(listing, folders[input], count)
    ensures var r := Run(folders, input, output, backup, listing, count);
            output in r.folders &&
            r.folders[output] == OutputFilled(Existing(folders, output), folders[input], listing, Outs(folders[input], count))
  {
    RunCompletes(folders, input, output, backup, listing, count);
    SetUpFoldersEffect(folders, output, backup);
  }

  /**
   * After a run in which every count succeeds, each image has all its output
   * names (the `max(c, 1)` names of `OutputNames` for its count `c`) in the
   * output folder with its content; every other file of the output folder
   * was there before, unchanged, and none was lost.
   */
  lemma RunWritesOutputs(folders: Folders, input: Path, output: Path, backup: Path, listing: seq<Name>, count: Counter)
    requires Distinct3(input, output, backup) && input in folders
    requires IsListingOf(listing, folders[input]) && CountsSucceed(listing, folders[input], count)
    ensures var r := Run(folders, input, output, backup, listing, count);
            output in r.folders &&
            OutputsWritten(r.folders[output], Existing(folders, output), folders[input], Outs(folders[input], count))
  {
    var source := folders[input];
    var outs := Outs(source, count);
    var before := Existing(folders, output);
    RunOutputFilled(folders, input, output, backup, listing, count);
    ImagesOfListing(listing, source);
    OutsApartForCounts(source, count);
    OutputFilledAfter(before, source, listing, outs);
    OutputAfterMeans(OutputFilled(before, source, listing, outs), before, source, Images(listing), outs);
  }

  /** A run touches no folder other than the three it is given, and creates only the output and backup folders. */
  lemma RunLeavesOtherFolders(folders: Folders, input: Path, output: Path, backup: Path, listing: seq<Name>, count: Counter)
    requires Distinct3(input, output, backup) && input in folders
    requires IsListingOf(listing, folders[input]) && CountsSucceed(listing, folders[input], count)
    ensures var r := Run(folders, input, output, backup, listing, count);
            r.folders.Keys == folders.Keys + {output, backup} &&
            forall d :: d in folders && d != input && d != output && d != backup ==> r.folders[d] == folders[d]
  {
    RunCompletes(folders, input, output, backup, listing, count);
    SetUpFoldersEffect(folders, output, backup);
    var start := SetUpFolders(folders, output, backup);
    var r := Run(folders, input, output, backup, listing, count);
    forall d | d in folders && d != input && d != output && d != backup ensures r.folders[d] == folders[d] {
      assert r.folders[d] == start[d];
    }
  }

  /** No image's console lines include the final message. */
  lemma {:induction false} NoMessageInExpectedLog(names: seq<Name>, source: Folder, count: Counter)
    ensures NoPicturesFound !in ExpectedLog(names, source, count)
    decreases |names|
  {
    if names != [] {
      var last := names[|names| - 1];
      NoMessageInExpectedLog(names[..|names| - 1], source, count);
      NoMessageInFileLog(last, PersonCount(source, count, last));
    }
  }

  lemma NoMessageInFileLog(n: Name, c: nat)
    ensures NoPicturesFound !in FileLog(n, c)
  {
    var lines := CopyLog(n, c);
    assert forall k :: 0 <= k < |lines| ==> lines[k].CreatedCopy?;
  }

  /**
   * After a run in which every count succeeds, the console shows each image's
   * lines in listing order, and "No pictures found" appears, as the last
   * line, exactly when the input folder holds no image; `image_found` is
   * whether it holds one.
   */
  lemma RunReports(folders: Folders, input: Path, output: Path, backup: Path, listing: seq<Name>, count: Counter)
    requires Distinct3(input, output, backup) && input in folders
    requires IsListingOf(listing, folders[input]) && CountsSucceed(listing, folders[input], count)
    ensures var r := Run(folders, input, output, backup, listing, count);
            var anyImage := exists n :: n in folders[input] && IsImageName(n);
            r.log == ExpectedLog(listing, folders[input], count) + (if anyImage then [] else [NoPicturesFound]) &&
            (NoPicturesFound in r.log <==> !anyImage) &&
            (r.imageFound <==> anyImage)
  {
    RunCompletes(folders, input, output, backup, listing, count);
    ImagesOfListing(listing, folders[input]);
    NoMessageInExpectedLog(listing, folders[input], count);
  }

  /**
   * The counter raises on the image at `listing[j]`, the first image on which
   * it does: the run ends in `Aborted`, so `listing[j]` and every name after
   * it are still in the input folder, unchanged, and `listing[j]` is also in
   * the backup folder.
   */
  lemma RunAbortsAtFailingCount(folders: Folders, input: Path, output: Path, backup: Path, listing: seq<Name>,
                                count: Counter, j: nat)
    requires Distinct3(input, output, backup) && input in folders && IsListingOf(listing, folders[input])
    requires j < |listing| && IsImageName(listing[j]) && count(folders[input][listing[j]]).None?
    requires CountsSucceed(listing[..j], folders[input], count)
    ensures var r := Run(folders, input, output, backup, listing, count);
            var source := folders[input];
            var start := SetUpFolders(folders, output, backup);
            r == Aborted(start, input, output, backup, listing, j, count) &&
            (forall i :: j <= i < |listing| ==> listing[i] in r.folders[input] && r.folders[input][listing[i]] == source[listing[i]]) &&
            listing[j] in r.folders[backup] && r.folders[backup][listing[j]] == source[listing[j]]
  {
    RunAbortsAt(folders, input, output, backup, listing, count, j);
    var start := SetUpFolders(folders, output, backup);
    AbortedFolders(start, input, output, backup, listing, j, count);
    UnvisitedKept(folders[input], listing, j);
    FailedBackedUp(start[backup], folders[input], listing, j);
  }

  lemma AbortedFolders(start: Folders, input: Path, output: Path, backup: Path, listing: seq<Name>, j: nat, count: Counter)
    requires Distinct3(input, output, backup)
    requires input in start && output in start && backup in start && j < |listing|
    ensures var f := Aborted(start, input, output, backup, listing, j, count).folders;
            f[input] == InputLeft(start[input], listing[..j]) &&
            f[backup] == BackupFilled(start[backup], start[input], listing[..j + 1])
  {
  }

  /** The run ends in `Aborted` when the counter first raises on `listing[j]`. */
  lemma RunAbortsAt(folders: Folders, input: Path, output: Path, backup: Path, listing: seq<Name>,
                    count: Counter, j: nat)
    requires Distinct3(input, output, backup) && input in folders && IsListingOf(listing, folders[input])
    requires j < |listing| && IsImageName(listing[j]) && count(folders[input][listing[j]]).None?
    requires CountsSucceed(listing[..j], folders[input], count)
    ensures var start := SetUpFolders(folders, output, backup);
            input in start && output in start && backup in start && start[input] == folders[input] &&
            Run(folders, input, output, backup, listing, count) == Aborted(start, input, output, backup, listing, j, count)
  {
    var start := SetUpFolders(folders, output, backup);
    SetUpFoldersEffect(folders, output, backup);
    var st := State(start, [], false, None);
    assert listing[..0] == [] && listing[0..] == listing;
    HandledNone(start, input, output, backup, Outs(folders[input], count));
    assert Done(st, start, input, output, backup, listing[..0], count);
    RunLoopAborts(st, start, input, output, backup, listing, 0, j, count);
  }

  /** The names from the failing one on are still in the input folder, unchanged. */
  lemma UnvisitedKept(source: Folder, listing: seq<Name>, j: nat)
    requires IsListingOf(listing, source) && j < |listing|
    ensures var now := InputLeft(source, listing[..j]);
            forall i :: j <= i < |listing| ==> listing[i] in now && now[listing[i]] == source[listing[i]]
  {
    forall i | j <= i < |listing| ensures listing[i] !in Images(listing[..j]) {
      NotBefore(listing, j, i);
    }
  }

  /** The failing image is in the backup folder with its content. */
  lemma FailedBackedUp(before: Folder, source: Folder, listing: seq<Name>, j: nat)
    requires IsListingOf(listing, source) && j < |listing| && IsImageName(listing[j])
    ensures var now := BackupFilled(before, source, listing[..j + 1]);
            listing[j] in now && now[listing[j]] == source[listing[j]]
  {
    assert listing[j] in listing[..j + 1];
    assert listing[j] in Images(listing[..j + 1]);
  }

  /** The input folder is missing: the output and backup folders are still set up, then `os.listdir` raises before anything is printed. */
  lemma RunInputMissing(folders: Folders, input: Path, output: Path, backup: Path, listing: seq<Name>, count: Counter)
    requires input !in folders && input != output && input != backup
    ensures var r := Run(folders, input, output, backup, listing, count);
            r.raised == Some(OsFailure(FolderNotFound(input))) && r.log == [] && !r.imageFound &&
            r.folders.Keys == folders.Keys + {output, backup} &&
            forall d :: d in folders ==> r.folders[d] == folders[d]
  {
    SetUpFoldersEffect(folders, output, backup);
  }

  /**
   * Running again over the result of a run in which every count succeeded
   * finds no picture: it changes nothing, raises nothing and prints only
   * "No pictures found".
   */
  lemma RerunFindsNothing(folders: Folders, input: Path, output: Path, backup: Path, listing: seq<Name>, count: Counter,
                          relisting: seq<Name>)
    requires Distinct3(input, output, backup) && input in folders
    requires IsListingOf(listing, folders[input]) && CountsSucceed(listing, folders[input], count)
    requires var r := Run(folders, input, output, backup, listing, count);
             input in r.folders && IsListingOf(relisting, r.folders[input])
    ensures var r := Run(folders, input, output, backup, listing, count);
            var again := Run(r.folders, input, output, backup, relisting, count);
            again.folders == r.folders && again.log == [NoPicturesFound] && again.raised.None?
  {
    var r := Run(folders, input, output, backup, listing, count);
    RunLeavesOtherFolders(folders, input, output, backup, listing, count);
    RunMovesImages(folders, input, output, backup, listing, count);
    SetUpFoldersEffect(r.folders, output, backup);
    forall n | n in relisting ensures !IsImageName(n) {
      assert n in r.folders[input];
    }
    RunLoopSkips(State(r.folders, [], false, None), input, output, backup, relisting, count);
  }
}
