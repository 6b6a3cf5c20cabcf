/**
 * Name classification and the output naming template of
 * `rename_and_copy_images_in_folder`: which listed names are images, how a
 * name is split into base and extension (`os.path.splitext`), and the names
 * of the primary output and of its duplicates.
 */
module Naming {
  import opened Strings

  /** The suffix tuple exactly as `rename_and_copy_images_in_folder` passes it to `endswith`. */
  const SuffixesAsWritten: seq<string> := [".png", ".jpg", ".jpeg", ".PNG", ".JPG", ".JPEG"]

  /** The lower-case half of that tuple. */
  const LowerSuffixes: seq<string> := [".png", ".jpg", ".jpeg"]

  /** The capitalised half. */
  const UpperSuffixes: seq<string> := [".PNG", ".JPG", ".JPEG"]

  /** `filename.lower().endswith(('.png', '.jpg', '.jpeg', '.PNG', '.JPG', '.JPEG'))` */
  predicate IsImageName(name: string) {
    EndsWithAny(Lower(name), SuffixesAsWritten)
  }

  /** `c` is the small letter `small` or its capital (or `small` itself when it is not a letter). */
  predicate MatchesIgnoringCase(c: char, small: char) {
    c == small || ('a' <= small <= 'z' && c as int == small as int - 32)
  }

  /** `name` ends with `suffix`, character by character, ignoring ASCII case. */
  predicate EndsWithIgnoringCase(name: string, suffix: string) {
    |suffix| <= |name| &&
    forall i :: 0 <= i < |suffix| ==> MatchesIgnoringCase(name[|name| - |suffix| + i], suffix[i])
  }

  /** Reference definition: the name ends with .png, .jpg or .jpeg in any mixture of cases. */
  predicate HasImageExtension(name: string) {
    EndsWithIgnoringCase(name, ".png") || EndsWithIgnoringCase(name, ".jpg") || EndsWithIgnoringCase(name, ".jpeg")
  }

  lemma LowerCharMatches(c: char, small: char)
    requires !('A' <= small <= 'Z')
    ensures LowerChar(c) == small <==> MatchesIgnoringCase(c, small)
  {
  }

  lemma EndsWithLower(name: string, suffix: string)
    requires forall i :: 0 <= i < |suffix| ==> !('A' <= suffix[i] <= 'Z')
    ensures EndsWith(Lower(name), suffix) <==> EndsWithIgnoringCase(name, suffix)
  {
    if |suffix| <= |name| {
      var l := Lower(name);
      var k := |name| - |suffix|;
      forall i | 0 <= i < |suffix|
        ensures l[k..][i] == suffix[i] <==> MatchesIgnoringCase(name[k + i], suffix[i])
      {
        LowerCharMatches(name[k + i], suffix[i]);
      }
      assert l[k..] == suffix <==> forall i :: 0 <= i < |suffix| ==> l[k..][i] == suffix[i];
    }
  }

  /** A lower-cased name never ends with a capitalised suffix. */
  lemma LowerNeverEndsUpper(name: string, suffix: string)
    requires |suffix| > 1 && 'A' <= suffix[1] <= 'Z'
    ensures !EndsWith(Lower(name), suffix)
  {
    if |suffix| <= |name| {
      var l := Lower(name);
      var k := |name| - |suffix|;
      assert l[k..][1] == l[k + 1] == LowerChar(name[k + 1]);
    }
  }

  /** The capitalised entries of the suffix tuple never match after `lower()`: the test is the lower-case one. */
  lemma UpperSuffixesRedundant(name: string)
    ensures IsImageName(name) <==> EndsWithAny(Lower(name), LowerSuffixes)
  {
    var l := Lower(name);
    assert SuffixesAsWritten == LowerSuffixes + UpperSuffixes;
    EndsWithAnyConcat(l, LowerSuffixes, UpperSuffixes);
    EndsWithAny3(l, ".PNG", ".JPG", ".JPEG");
    LowerNeverEndsUpper(name, ".PNG");
    LowerNeverEndsUpper(name, ".JPG");
    LowerNeverEndsUpper(name, ".JPEG");
  }

  /** The Python function's test agrees with the character-level reference definition. */
  lemma IsImageNameIffExtension(name: string)
    ensures IsImageName(name) <==> HasImageExtension(name)
  {
    UpperSuffixesRedundant(name);
    EndsWithAny3(Lower(name), ".png", ".jpg", ".jpeg");
    EndsWithLower(name, ".png");
    EndsWithLower(name, ".jpg");
    EndsWithLower(name, ".jpeg");
  }

  /** Every image name ends with the letter g, small or capital. */
  lemma ImageNameEndsWithG(name: string)
    requires IsImageName(name)
    ensures |name| > 0 && name[|name| - 1] in "gG"
  {
    IsImageNameIffExtension(name);
    if EndsWithIgnoringCase(name, ".png") {
      assert MatchesIgnoringCase(name[|name| - 4 + 3], ".png"[3]);
    } else if EndsWithIgnoringCase(name, ".jpg") {
      assert MatchesIgnoringCase(name[|name| - 4 + 3], ".jpg"[3]);
    } else {
      assert MatchesIgnoringCase(name[|name| - 5 + 4], ".jpeg"[4]);
    }
  }

  // ---------------------------------------------------------------------
  // os.path.splitext

  /** Index of the last '.' in `s` (`s.rfind('.')`), or -1. */
  function LastDot(s: string): (k: int)
    ensures -1 <= k < |s|
    ensures k >= 0 ==> s[k] == '.'
    ensures forall j :: k < j < |s| ==> s[j] != '.'
  {
    if |s| == 0 then -1
    else if s[|s| - 1] == '.' then |s| - 1
    else LastDot(s[..|s| - 1])
  }

  predicate AllDots(s: string) {
    forall i :: 0 <= i < |s| ==> s[i] == '.'
  }

  /**
   * `os.path.splitext(name)` for a file name (no '/'): the extension starts
   * at the last dot, unless every character before that dot is a dot too
   * (leading dots do not start an extension), in which case it is empty.
   */
  function Splitext(name: string): (r: (string, string))
    ensures r.0 + r.1 == name
    ensures r.1 != [] ==> r.1[0] == '.' && '.' !in r.1[1..] && !AllDots(r.0)
  {
    var k := LastDot(name);
    if k >= 0 && !AllDots(name[..k]) then
      assert forall j :: 0 <= j < |name[k..][1..]| ==> name[k..][1..][j] == name[k + 1 + j];
      (name[..k], name[k..])
    else (name, [])
  }

  /**
   * Any split into a base that is not all dots and an extension that is one
   * dot followed by no further dot is the one `Splitext` returns; with the
   * postcondition of `Splitext` this characterises it completely.
   */
  lemma SplitextUnique(name: string, base: string, ext: string)
    requires base + ext == name
    requires |ext| > 0 && ext[0] == '.' && '.' !in ext[1..]
    requires !AllDots(base)
    ensures Splitext(name) == (base, ext)
  {
    var k := LastDot(name);
    assert name[|base|] == '.';
    assert forall j :: |base| < j < |name| ==> name[j] == ext[1..][j - |base| - 1];
    assert k == |base|;
    assert name[..k] == base;
    assert name[k..] == ext;
  }

  // ---------------------------------------------------------------------
  // Output names

  /** What is inserted between base and extension: the primary output's or a duplicate's. */
  datatype Tag = Primary(count: nat) | Duplicate(count: nat, index: nat)

  /** `_({count} personnes)` and `_({count} personnes)_copy{i}` */
  function TagText(t: Tag): string {
    match t
    case Primary(c) => "_(" + NatToString(c) + " personnes)"
    case Duplicate(c, i) => "_(" + NatToString(c) + " personnes)_copy" + NatToString(i)
  }

  /** `f"{file_base}{tag}{file_extension}"` with `file_base, file_extension = os.path.splitext(name)` */
  function TaggedName(name: string, t: Tag): string {
    var (base, ext) := Splitext(name);
    base + TagText(t) + ext
  }

  /** `new_filename`: `{base}_({count} personnes){ext}` */
  function PrimaryName(name: string, count: nat): string {
    TaggedName(name, Primary(count))
  }

  /** `copy_filename`: `{base}_({count} personnes)_copy{i}{ext}` */
  function CopyName(name: string, count: nat, i: nat): string {
    TaggedName(name, Duplicate(count, i))
  }

  /** Number of duplicates made for a count: `len(range(1, count))`. */
  function DuplicateCount(count: nat): nat {
    if count == 0 then 0 else count - 1
  }

  /** The duplicate names in the order they are written, for `i` in `range(1, count)`. */
  function CopyNames(name: string, count: nat): seq<string> {
    seq(DuplicateCount(count), k requires 0 <= k => CopyName(name, count, k + 1))
  }

  /** Every output name for one image, in the order it is written: primary first. */
  function OutputNames(name: string, count: nat): seq<string> {
    [PrimaryName(name, count)] + CopyNames(name, count)
  }

  function Last(s: string): char
    requires |s| > 0
  {
    s[|s| - 1]
  }

  lemma TagTextFacts(t: Tag)
    ensures |TagText(t)| > 0 && '.' !in TagText(t)
    ensures t.Primary? ==> Last(TagText(t)) == ')'
    ensures t.Duplicate? ==> IsDigit(Last(TagText(t)))
  {
    var d := NatToString(t.count);
    assert '.' !in d by {
      assert forall j :: 0 <= j < |d| ==> IsDigit(d[j]);
    }
    if t.Duplicate? {
      var i := NatToString(t.index);
      assert '.' !in i by {
        assert forall j :: 0 <= j < |i| ==> IsDigit(i[j]);
      }
    }
  }

  /** A base followed by a tag determines both the base and the tag. */
  lemma TagInjective(b1: string, t1: Tag, b2: string, t2: Tag)
    ensures b1 + TagText(t1) == b2 + TagText(t2) ==> b1 == b2 && t1 == t2
  {
    if t1.Primary? && t2.Primary? {
      PrimaryTagInjective(b1, t1.count, b2, t2.count);
    } else if t1.Duplicate? && t2.Duplicate? {
      DuplicateTagInjective(b1, t1.count, t1.index, b2, t2.count, t2.index);
    } else {
      TagTextFacts(t1);
      TagTextFacts(t2);
      assert Last(b1 + TagText(t1)) == Last(TagText(t1));
      assert Last(b2 + TagText(t2)) == Last(TagText(t2));
    }
  }

  lemma PrimaryTagInjective(b1: string, c1: nat, b2: string, c2: nat)
    ensures b1 + TagText(Primary(c1)) == b2 + TagText(Primary(c2)) ==> b1 == b2 && c1 == c2
  {
    CountTextInjective(b1, NatToString(c1), b2, NatToString(c2));
    NatToStringInjective(c1, c2);
  }

  lemma DuplicateTagInjective(b1: string, c1: nat, i1: nat, b2: string, c2: nat, i2: nat)
    ensures b1 + TagText(Duplicate(c1, i1)) == b2 + TagText(Duplicate(c2, i2)) ==> b1 == b2 && c1 == c2 && i1 == i2
  {
    DuplicateTagSplit(b1, c1, i1);
    DuplicateTagSplit(b2, c2, i2);
    CopyTextInjective(b1 + TagText(Primary(c1)), NatToString(i1), b2 + TagText(Primary(c2)), NatToString(i2));
    NatToStringInjective(i1, i2);
    PrimaryTagInjective(b1, c1, b2, c2);
  }

  lemma DuplicateTagSplit(b: string, c: nat, i: nat)
    ensures b + TagText(Duplicate(c, i)) == b + TagText(Primary(c)) + "_copy" + NatToString(i)
  {
    var d, n := NatToString(c), NatToString(i);
    Reassociate(b, "_(" + d + " personnes)", "_copy" + n);
    assert "_(" + d + " personnes)_copy" + n == "_(" + d + " personnes)" + ("_copy" + n);
  }

  lemma Reassociate(a: string, b: string, c: string)
    ensures a + (b + c) == (a + b) + c
  {
  }

  lemma CountTextInjective(b1: string, d1: string, b2: string, d2: string)
    requires AllDigits(d1) && AllDigits(d2)
    ensures b1 + ("_(" + d1 + " personnes)") == b2 + ("_(" + d2 + " personnes)") ==> b1 == b2 && d1 == d2
  {
    var t1, t2 := d1 + " personnes)", d2 + " personnes)";
    if b1 + ("_(" + d1 + " personnes)") == b2 + ("_(" + d2 + " personnes)") {
      assert b1 + ("_(" + d1 + " personnes)") == (b1 + "_") + ['('] + t1;
      assert b2 + ("_(" + d2 + " personnes)") == (b2 + "_") + ['('] + t2;
      assert '(' !in t1 by { assert forall j :: 0 <= j < |d1| ==> t1[j] == d1[j]; }
      assert '(' !in t2 by { assert forall j :: 0 <= j < |d2| ==> t2[j] == d2[j]; }
      LastOccurrence(b1 + "_", t1, b2 + "_", t2, '(');
      assert b1 == (b1 + "_")[..|b1|] && b2 == (b2 + "_")[..|b2|];
      assert d1 == t1[..|d1|] && d2 == t2[..|d2|];
    }
  }

  lemma CopyTextInjective(p1: string, d1: string, p2: string, d2: string)
    requires AllDigits(d1) && AllDigits(d2)
    ensures p1 + "_copy" + d1 == p2 + "_copy" + d2 ==> p1 == p2 && d1 == d2
  {
    var t1, t2 := "copy" + d1, "copy" + d2;
    if p1 + "_copy" + d1 == p2 + "_copy" + d2 {
      assert p1 + "_copy" + d1 == p1 + ['_'] + t1;
      assert p2 + "_copy" + d2 == p2 + ['_'] + t2;
      assert '_' !in t1 by { assert forall j :: 4 <= j < |t1| ==> t1[j] == d1[j - 4]; }
      assert '_' !in t2 by { assert forall j :: 4 <= j < |t2| ==> t2[j] == d2[j - 4]; }
      LastOccurrence(p1, t1, p2, t2, '_');
      assert d1 == t1[4..] && d2 == t2[4..];
    }
  }

  /** The k-th entry of `OutputNames`: the primary for k = 0, the duplicate `_copy{k}` after it. */
  function TagAt(count: nat, k: nat): Tag {
    if k == 0 then Primary(count) else Duplicate(count, k)
  }

  /**
   * One image yields `max(count, 1)` output names, primary first, then
   * `_copy1` ... `_copy{count-1}`.
   */
  lemma OutputNamesAt(name: string, count: nat)
    ensures |OutputNames(name, count)| == if count == 0 then 1 else count
    ensures forall k :: 0 <= k < |OutputNames(name, count)| ==> OutputNames(name, count)[k] == TaggedName(name, TagAt(count, k))
  {
  }

  /** No two output names of one image coincide. */
  lemma OutputNamesDistinct(name: string, count: nat)
    ensures forall j, k :: 0 <= j < k < |OutputNames(name, count)| ==> OutputNames(name, count)[j] != OutputNames(name, count)[k]
  {
    forall j, k | 0 <= j < k < |OutputNames(name, count)|
      ensures OutputNames(name, count)[j] != OutputNames(name, count)[k]
    {
      OutputNamesTwo(name, count, j, k);
    }
  }

  lemma OutputNamesTwo(name: string, count: nat, j: nat, k: nat)
    requires j < k < |OutputNames(name, count)|
    ensures OutputNames(name, count)[j] != OutputNames(name, count)[k]
  {
    OutputNamesAt(name, count);
    TaggedNameTagInjective(name, TagAt(count, j), TagAt(count, k));
  }

  /** On one image name, different tags give different names. */
  lemma TaggedNameTagInjective(name: string, t1: Tag, t2: Tag)
    ensures TaggedName(name, t1) == TaggedName(name, t2) ==> t1 == t2
  {
    var (b, e) := Splitext(name);
    var o1, o2 := TaggedName(name, t1), TaggedName(name, t2);
    if o1 == o2 {
      assert o1 == (b + TagText(t1)) + e && o2 == (b + TagText(t2)) + e;
      assert b + TagText(t1) == o1[..|o1| - |e|];
      assert b + TagText(t2) == o2[..|o2| - |e|];
      TagInjective(b, t1, b, t2);
    }
  }

  /** An output name of an image ends with g exactly when the image's extension is not empty. */
  lemma TaggedNameLast(name: string, t: Tag)
    requires IsImageName(name)
    ensures |TaggedName(name, t)| > 0
    ensures Splitext(name).1 != [] <==> Last(TaggedName(name, t)) in "gG"
  {
    var (b, e) := Splitext(name);
    var o := TaggedName(name, t);
    TagTextFacts(t);
    ImageNameEndsWithG(name);
    if e != [] {
      assert Last(name) == Last(e);
      assert Last(o) == Last(e);
    } else {
      assert Last(o) == Last(TagText(t));
    }
  }

  /** Equal output names of two images have equal extensions and equal parts before them. */
  lemma TaggedNamesAgree(n1: string, t1: Tag, n2: string, t2: Tag)
    requires IsImageName(n1) && IsImageName(n2)
    requires TaggedName(n1, t1) == TaggedName(n2, t2)
    ensures Splitext(n1).1 == Splitext(n2).1
    ensures Splitext(n1).0 + TagText(t1) == Splitext(n2).0 + TagText(t2)
  {
    var e1, e2 := Splitext(n1).1, Splitext(n2).1;
    var x1, x2 := Splitext(n1).0 + TagText(t1), Splitext(n2).0 + TagText(t2);
    assert x1 + e1 == x2 + e2;
    TaggedNameLast(n1, t1);
    TaggedNameLast(n2, t2);
    if e1 != [] {
      SameExtension(x1, e1, x2, e2);
    } else {
      assert e2 == [];
      assert x1 == x1 + e1 && x2 == x2 + e2;
    }
  }

  /** Two splits of one string at its last dot coincide. */
  lemma SameExtension(x1: string, e1: string, x2: string, e2: string)
    requires x1 + e1 == x2 + e2
    requires |e1| > 0 && e1[0] == '.' && '.' !in e1[1..]
    requires |e2| > 0 && e2[0] == '.' && '.' !in e2[1..]
    ensures x1 == x2 && e1 == e2
  {
    assert x1 + e1 == x1 + ['.'] + e1[1..];
    assert x2 + e2 == x2 + ['.'] + e2[1..];
    LastOccurrence(x1, e1[1..], x2, e2[1..], '.');
    assert e1 == ['.'] + e1[1..] && e2 == ['.'] + e2[1..];
  }

  /** The primary output name is none of the copy names. */
  lemma PrimaryNotCopy(name: string, count: nat)
    ensures PrimaryName(name, count) !in CopyNames(name, count)
  {
    var out := OutputNames(name, count);
    OutputNamesDistinct(name, count);
    forall k | 0 <= k < |CopyNames(name, count)|
      ensures CopyNames(name, count)[k] != PrimaryName(name, count)
    {
      assert out[0] == PrimaryName(name, count) && out[k + 1] == CopyNames(name, count)[k];
    }
  }

  /** An output name of an image determines the image's name and the tag, hence the count and the copy index. */
  lemma TaggedNameInjective(n1: string, t1: Tag, n2: string, t2: Tag)
    requires IsImageName(n1) && IsImageName(n2)
    ensures TaggedName(n1, t1) == TaggedName(n2, t2) ==> n1 == n2 && t1 == t2
  {
    if TaggedName(n1, t1) == TaggedName(n2, t2) {
      TaggedNamesAgree(n1, t1, n2, t2);
      TagInjective(Splitext(n1).0, t1, Splitext(n2).0, t2);
    }
  }

  /** Two different images never share an output name, whatever their counts. */
  lemma OutputNamesDisjoint(n1: string, c1: nat, n2: string, c2: nat)
    requires IsImageName(n1) && IsImageName(n2) && n1 != n2
    ensures forall o :: o in OutputNames(n1, c1) ==> o !in OutputNames(n2, c2)
  {
    var out1, out2 := OutputNames(n1, c1), OutputNames(n2, c2);
    OutputNamesAt(n1, c1);
    OutputNamesAt(n2, c2);
    forall j, k | 0 <= j < |out1| && 0 <= k < |out2|
      ensures out1[j] != out2[k]
    {
      TaggedNameInjective(n1, TagAt(c1, j), n2, TagAt(c2, k));
    }
  }
}
