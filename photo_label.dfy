/**
  The naming rules of `photo_label.py`: which directory entries are JPEG
  files, how `TITLE_RE` splits a file name into a year and a place, the
  label built from them, the input and output paths of each image, and
  the refusal to write into the input directory.

  The ImageMagick calls, the thread pool and the filesystem are left out:
  `os.listdir`, `os.path.isfile`, `os.path.abspath` and the access check are
  parameters.
*/
module PhotoLabel {
  import opened Wrappers
  import opened Strings
  import opened PySeq

  // ---------------------------------------------------------------- TITLE_RE

  /**
    The groups of a `TITLE_RE` match: `year`, the unnamed `\S+` after the
    dash, `place`, and the final `\S+`.
  */
  datatype Title = Title(year: string, stamp: string, place: string, suffix: string)

  /**
    Python 2's `\s` on the byte strings `os.listdir` returns: `[ \t\n\r\f\v]`.
    A character outside ASCII stands for its UTF-8 bytes, none of which is
    an ASCII space, a digit or a newline, so `\S` takes it whole.
  */
  predicate IsAsciiSpace(c: char) {
    c == ' ' || '\t' <= c <= '\r'
  }

  predicate NoAsciiSpace(s: string) {
    forall i :: 0 <= i < |s| ==> !IsAsciiSpace(s[i])
  }

  /** The first whitespace at or after position `i`. */
  function FirstSpaceFrom(s: string, i: nat): (r: Option<nat>)
    requires i <= |s|
    ensures r.Some? ==> i <= r.value < |s| && IsAsciiSpace(s[r.value]) && NoAsciiSpace(s[i..r.value])
    ensures r.None? ==> NoAsciiSpace(s[i..])
    decreases |s| - i
  {
    if i == |s| then None
    else if IsAsciiSpace(s[i]) then Some(i)
    else
      var r := FirstSpaceFrom(s, i + 1);
      assert r.Some? ==> forall k :: i <= k < r.value ==> s[k] == (if k == i then s[i] else s[i + 1..r.value][k - i - 1]);
      r
  }

  /** The last whitespace of `s`. */
  function LastSpace(s: string): (r: Option<nat>)
    ensures r.Some? ==> r.value < |s| && IsAsciiSpace(s[r.value]) && NoAsciiSpace(s[r.value + 1..])
    ensures r.None? ==> NoAsciiSpace(s)
    decreases |s|
  {
    if s == [] then None
    else if IsAsciiSpace(s[|s| - 1]) then Some(|s| - 1)
    else
      var r := LastSpace(s[..|s| - 1]);
      assert r.Some? ==> forall k :: r.value < k < |s| ==> s[k] == (if k == |s| - 1 then s[k] else s[..|s| - 1][k]);
      r
  }

  /** A whitespace after a whitespace-free stretch is the first one. */
  lemma {:induction false} FirstSpaceFromAt(s: string, i: nat, k: nat)
    requires i <= k < |s| && IsAsciiSpace(s[k]) && NoAsciiSpace(s[i..k])
    ensures FirstSpaceFrom(s, i) == Some(k)
    decreases k - i
  {
    if i < k {
      assert !IsAsciiSpace(s[i..k][0]);
      assert s[i + 1..k] == s[i..k][1..];
      FirstSpaceFromAt(s, i + 1, k);
    }
  }

  /** A whitespace followed only by non-space characters is the last one. */
  lemma {:induction false} LastSpaceAt(s: string, k: nat)
    requires k < |s| && IsAsciiSpace(s[k]) && NoAsciiSpace(s[k + 1..])
    ensures LastSpace(s) == Some(k)
    decreases |s|
  {
    if k < |s| - 1 {
      assert !IsAsciiSpace(s[k + 1..][|s| - 2 - k]);
      var t := s[..|s| - 1];
      assert t[k] == s[k];
      assert t[k + 1..] == s[k + 1..][..|s| - 2 - k];
      LastSpaceAt(t, k);
    }
  }

  /** `$` also matches before a newline that ends the string; the match is then on the rest. */
  function Subject(name: string): string {
    if name != [] && name[|name| - 1] == '\n' then name[..|name| - 1] else name
  }

  /**
    `TITLE_RE.search(name)`, the pattern `^(?P<year>\d{4})-\S+ (?P<place>.*) \S+$`:
    the first `\S+` runs to the first whitespace, which must be a space; the
    greedy `place` runs to the last whitespace, which must be a space followed
    by at least one character; `.` does not match a newline.
  */
  function MatchTitle(name: string): Option<Title> {
    var s := Subject(name);
    if |s| < 5 || !AllDigits(s[..4]) || s[4] != '-' then None
    else
      match FirstSpaceFrom(s, 5)
      case None => None
      case Some(a) =>
        match LastSpace(s)
        case None => None
        case Some(b) => SpacesAt(s, a, b)
  }

  /**
    The groups once the first whitespace after the dash is at `a` and the
    last one at `b`: both must be spaces, with a non-empty stretch before
    `a`, a place without newlines between them and something after `b`.
  */
  function SpacesAt(s: string, a: nat, b: nat): Option<Title>
    requires 5 <= a < |s| && b < |s|
  {
    if a == 5 || s[a] != ' ' || b <= a || s[b] != ' ' || b == |s| - 1 || '\n' in s[a + 1..b] then None
    else Some(Title(s[..4], s[5..a], s[a + 1..b], s[b + 1..]))
  }

  /**
    The match is sound: a matching name (less a final newline) is a
    four-digit year, a dash, a non-space run, a space, the place (without
    newlines), a space and a final non-space run.
  */
  lemma MatchTitleSound(name: string)
    requires MatchTitle(name).Some?
    ensures var t := MatchTitle(name).value;
            && Subject(name) == t.year + "-" + t.stamp + " " + t.place + " " + t.suffix
            && |t.year| == 4 && AllDigits(t.year)
            && t.stamp != [] && NoAsciiSpace(t.stamp) && t.suffix != [] && NoAsciiSpace(t.suffix)
            && '\n' !in t.place
  {
    var s := Subject(name);
    var a, b := FirstSpaceFrom(s, 5).value, LastSpace(s).value;
    assert MatchTitle(name) == SpacesAt(s, a, b);
    assert 5 < a < b < |s| - 1 && s[4] == '-' && s[a] == ' ' && s[b] == ' ';
    var t := MatchTitle(name).value;
    assert t == Title(s[..4], s[5..a], s[a + 1..b], s[b + 1..]);
    assert AllDigits(t.year) && NoAsciiSpace(t.stamp) && NoAsciiSpace(t.suffix) && '\n' !in t.place;
    SplitFive(s, a, b);
  }

  /** A string cut at 4, `a` and `b` is the concatenation of its pieces and the three separators. */
  lemma SplitFive(s: string, a: nat, b: nat)
    requires 4 < a < b < |s|
    ensures s == s[..4] + [s[4]] + s[5..a] + [s[a]] + s[a + 1..b] + [s[b]] + s[b + 1..]
  {
  }

  /**
    The match is complete: every name built from a four-digit year, a dash,
    a non-space run, a space, a place without newlines, a space and a
    non-space run matches, with exactly those groups.
  */
  lemma MatchTitleCompose(year: string, stamp: string, place: string, suffix: string)
    requires |year| == 4 && AllDigits(year)
    requires stamp != [] && NoAsciiSpace(stamp) && suffix != [] && NoAsciiSpace(suffix) && '\n' !in place
    ensures MatchTitle(year + "-" + stamp + " " + place + " " + suffix) == Some(Title(year, stamp, place, suffix))
  {
    var s := year + "-" + stamp + " " + place + " " + suffix;
    var a, b := 5 + |stamp|, 6 + |stamp| + |place|;
    ComposeSlices(year, stamp, place, suffix);
    FirstSpaceFromAt(s, 5, a);
    LastSpaceAt(s, b);
    MatchTitleAt(s, a, b);
    assert SpacesAt(s, a, b) == Some(Title(year, stamp, place, suffix));
  }

  /** Where the parts of a composed name sit. */
  lemma ComposeSlices(year: string, stamp: string, place: string, suffix: string)
    requires |year| == 4 && suffix != []
    ensures var s := year + "-" + stamp + " " + place + " " + suffix;
            var a, b := 5 + |stamp|, 6 + |stamp| + |place|;
            && |s| == b + 1 + |suffix|
            && s[..4] == year && s[4] == '-' && s[5..a] == stamp && s[a] == ' '
            && s[a + 1..b] == place && s[b] == ' ' && s[b + 1..] == suffix
            && s[|s| - 1] == suffix[|suffix| - 1]
  {
    var s := year + "-" + stamp + " " + place + " " + suffix;
    assert s == (year + "-") + stamp + (" " + place + " " + suffix);
    MiddleOf(year + "-", stamp, " " + place + " " + suffix);
    assert s == (year + "-" + stamp + " ") + place + (" " + suffix);
    MiddleOf(year + "-" + stamp + " ", place, " " + suffix);
  }

  /** `MatchTitle` once the positions of the first and the last whitespace are known. */
  lemma MatchTitleAt(s: string, a: nat, b: nat)
    requires 5 <= a < |s| && b < |s| && Subject(s) == s && AllDigits(s[..4]) && s[4] == '-'
    requires FirstSpaceFrom(s, 5) == Some(a) && LastSpace(s) == Some(b)
    ensures MatchTitle(s) == SpacesAt(s, a, b)
  {
  }

  /** The middle part of a three-part concatenation. */
  lemma MiddleOf(p: string, q: string, r: string)
    ensures (p + q + r)[|p|..|p| + |q|] == q
  {
  }

  /** The label written on the image: `"%s, %s" % (place, year)`. */
  function Label(t: Title): string {
    t.place + ", " + t.year
  }

  lemma ExampleParts()
    ensures NoAsciiSpace("04-20") && NoAsciiSpace("12.58.17-2.jpg") && '\n' !in "Russian Ridge OSP"
    ensures AllDigits("2017")
  {
    var x, y, z := "04-20", "12.58.17-2.jpg", "Russian Ridge OSP";
    assert x[0] == '0' && x[1] == '4' && x[2] == '-' && x[3] == '2' && x[4] == '0';
    assert y[0] == '1' && y[1] == '2' && y[2] == '.' && y[3] == '5' && y[4] == '8' && y[5] == '.' && y[6] == '1';
    assert y[7] == '7' && y[8] == '-' && y[9] == '2' && y[10] == '.' && y[11] == 'j' && y[12] == 'p' && y[13] == 'g';
    forall i | 0 <= i < |z| ensures z[i] != '\n' {
      assert z[i] in {'R', 'u', 's', 'i', 'a', 'n', ' ', 'd', 'g', 'e', 'O', 'S', 'P'};
    }
  }

  lemma ExampleSplit()
    ensures "2017-04-20 Russian Ridge OSP 12.58.17-2.jpg"
            == "2017" + "-" + "04-20" + " " + "Russian Ridge OSP" + " " + "12.58.17-2.jpg"
  {
    ExampleHead();
    ExampleTail();
    assert "2017-04-20 Russian Ridge OSP 12.58.17-2.jpg"
           == "2017-04-20 " + "Russian Ridge OSP" + " 12.58.17-2.jpg";
  }

  lemma ExampleHead()
    ensures "2017-04-20 " == "2017" + "-" + "04-20" + " "
  {
  }

  lemma ExampleTail()
    ensures " 12.58.17-2.jpg" == " " + "12.58.17-2.jpg"
  {
  }

  lemma ExampleLabel()
    ensures "Russian Ridge OSP" + ", " + "2017" == "Russian Ridge OSP, 2017"
  {
  }

  /** A name assembled from the groups of a title matches with those groups, and gets `place, year` as its label. */
  lemma LabelOfParts(name: string, t: Title)
    requires name == t.year + "-" + t.stamp + " " + t.place + " " + t.suffix
    requires |t.year| == 4 && AllDigits(t.year)
    requires t.stamp != [] && NoAsciiSpace(t.stamp) && t.suffix != [] && NoAsciiSpace(t.suffix) && '\n' !in t.place
    ensures MatchTitle(name) == Some(t)
    ensures Label(MatchTitle(name).value) == t.place + ", " + t.year
  {
    MatchTitleCompose(t.year, t.stamp, t.place, t.suffix);
  }

  /**
    A suffix holding the narrow no-break space U+202F, which some cameras
    and phones put before "PM", is still one `\S+` run: the name matches
    and is labelled "Ridge, 2017".
  */
  lemma NarrowSpaceExample()
    ensures MatchTitle("2017-04-20 Ridge 12.58\U{202F}PM.jpg")
            == Some(Title("2017", "04-20", "Ridge", "12.58\U{202F}PM.jpg"))
    ensures Label(Title("2017", "04-20", "Ridge", "12.58\U{202F}PM.jpg")) == "Ridge, 2017"
  {
    NarrowParts();
    NarrowSplit();
    LabelOfParts("2017-04-20 Ridge 12.58\U{202F}PM.jpg", Title("2017", "04-20", "Ridge", "12.58\U{202F}PM.jpg"));
  }

  lemma NarrowParts()
    ensures NoAsciiSpace("04-20") && NoAsciiSpace("12.58\U{202F}PM.jpg") && '\n' !in "Ridge"
    ensures AllDigits("2017")
  {
    var x, z, p := "04-20", "12.58\U{202F}PM.jpg", "Ridge";
    assert x[0] == '0' && x[1] == '4' && x[2] == '-' && x[3] == '2' && x[4] == '0';
    assert z[0] == '1' && z[1] == '2' && z[2] == '.' && z[3] == '5' && z[4] == '8' && z[5] == '\U{202F}';
    assert z[6] == 'P' && z[7] == 'M' && z[8] == '.' && z[9] == 'j' && z[10] == 'p' && z[11] == 'g';
    assert p[0] == 'R' && p[1] == 'i' && p[2] == 'd' && p[3] == 'g' && p[4] == 'e';
  }

  lemma NarrowSplit()
    ensures "2017-04-20 Ridge 12.58\U{202F}PM.jpg"
            == "2017" + "-" + "04-20" + " " + "Ridge" + " " + "12.58\U{202F}PM.jpg"
  {
    ExampleHead();
    NarrowTail();
    assert "2017-04-20 Ridge 12.58\U{202F}PM.jpg" == "2017-04-20 " + "Ridge" + " 12.58\U{202F}PM.jpg";
  }

  lemma NarrowTail()
    ensures " 12.58\U{202F}PM.jpg" == " " + "12.58\U{202F}PM.jpg"
  {
  }

  /** The name in the module's documentation gives the label "Russian Ridge OSP, 2017". */
  lemma DocumentedExample()
    ensures MatchTitle("2017-04-20 Russian Ridge OSP 12.58.17-2.jpg")
            == Some(Title("2017", "04-20", "Russian Ridge OSP", "12.58.17-2.jpg"))
    ensures Label(Title("2017", "04-20", "Russian Ridge OSP", "12.58.17-2.jpg")) == "Russian Ridge OSP, 2017"
  {
    ExampleParts();
    ExampleSplit();
    ExampleLabel();
    LabelOfParts("2017-04-20 Russian Ridge OSP 12.58.17-2.jpg", Title("2017", "04-20", "Russian Ridge OSP", "12.58.17-2.jpg"));
  }

  // ---------------------------------------------------------------- jpegs_in_dir

  predicate HasJpegExtension(x: string) {
    EndsWith(x, ".jpg") || EndsWith(x, ".JPEG") || EndsWith(x, ".jpeg") || EndsWith(x, ".JPG")
  }

  /** `re.search(r'\.(jpg|JPEG|jpeg|JPG)$', x)`, where `$` may also stand before a final newline. */
  predicate JpegName(x: string) {
    HasJpegExtension(Subject(x))
  }

  /**
    `os.path.join(a, b)`: an absolute `b` replaces `a`; a separator is added
    unless `a` is empty or ends in one. The result always ends with `b`, and
    for a relative `b` it starts with `a` and has just the one separator
    between them.
  */
  function PathJoin(a: string, b: string): (r: string)
    ensures EndsWith(r, b)
    ensures b != [] && b[0] == '/' ==> r == b
    ensures (b == [] || b[0] != '/') ==> a <= r
    ensures (b == [] || b[0] != '/') && a != [] && a[|a| - 1] != '/' ==> r == a + "/" + b
    ensures (b == [] || b[0] != '/') && (a == [] || a[|a| - 1] == '/') ==> r == a + b
  {
    if b != [] && b[0] == '/' then b
    else if a == [] || a[|a| - 1] == '/' then a + b
    else a + "/" + b
  }

  /** `jpegs_in_dir`: the entries of the listing that are regular files with a JPEG extension. */
  function JpegsInDir(path: string, entries: seq<string>, isFile: string -> bool): seq<string> {
    Filter(entries, (x: string) => isFile(PathJoin(path, x)) && JpegName(x))
  }

  /** Exactly the regular files with one of the four extensions are kept, in listing order. */
  lemma JpegsInDirSpec(path: string, entries: seq<string>, isFile: string -> bool)
    ensures forall i :: 0 <= i < |JpegsInDir(path, entries, isFile)| ==>
              && JpegsInDir(path, entries, isFile)[i] in entries
              && isFile(PathJoin(path, JpegsInDir(path, entries, isFile)[i]))
              && JpegName(JpegsInDir(path, entries, isFile)[i])
    ensures forall i :: 0 <= i < |entries| && isFile(PathJoin(path, entries[i])) && JpegName(entries[i]) ==>
              entries[i] in JpegsInDir(path, entries, isFile)
    ensures Subsequence(JpegsInDir(path, entries, isFile), entries)
  {
    FilterSubsequence(entries, (x: string) => isFile(PathJoin(path, x)) && JpegName(x));
  }

  /** The extension test is case-exact: `.JPG` and `.jpeg` pass, the mixed-case `.Jpg` does not. */
  lemma JpegNameExamples()
    ensures JpegName("IMG_1.JPG") && JpegName("a.jpeg")
    ensures !JpegName("IMG_1.Jpg") && !JpegName("a.png")
  {
    UpperJpg();
    LowerJpeg();
    MixedCaseJpg();
    Png();
  }

  lemma UpperJpg()
    ensures JpegName("IMG_1.JPG")
  {
    var m := "IMG_1.JPG";
    assert Subject(m) == m;
    assert m[5..] == ".JPG";
  }

  lemma LowerJpeg()
    ensures JpegName("a.jpeg")
  {
    var m := "a.jpeg";
    assert Subject(m) == m;
    assert m[1..] == ".jpeg";
  }

  lemma MixedCaseJpg()
    ensures !JpegName("IMG_1.Jpg")
  {
    var m := "IMG_1.Jpg";
    assert Subject(m) == m;
    assert m[5..][1] == 'J' && m[5..][2] == 'p';
    assert m[4..][0] == '1';
  }

  lemma Png()
    ensures !JpegName("a.png")
  {
    var m := "a.png";
    assert Subject(m) == m;
    assert m[1..][1] == 'p';
  }

  // ---------------------------------------------------------------- process_image and main

  /** What `process_image` hands to ImageMagick for one image. */
  datatype Job = Job(input: string, output: string, caption: string)

  /** `process_image`: a name that does not match `TITLE_RE` is skipped; otherwise the label job. */
  function ProcessImage(name: string, inputDir: string, outputDir: string): (r: Option<Job>)
    ensures MatchTitle(name).None? <==> r.None?
    ensures r.Some? ==> r.value == Job(PathJoin(inputDir, name), PathJoin(outputDir, name), Label(MatchTitle(name).value))
  {
    match MatchTitle(name)
    case None => None
    case Some(t) => Some(Job(PathJoin(inputDir, name), PathJoin(outputDir, name), Label(t)))
  }

  /**
    The job for a name built from a title's parts: it reads the image in
    the input directory, writes the file of the same name in the output
    directory, never over its input, and captions it `place, year`.
  */
  lemma ProcessImageJob(name: string, t: Title, inputDir: string, outputDir: string)
    requires name == t.year + "-" + t.stamp + " " + t.place + " " + t.suffix
    requires |t.year| == 4 && AllDigits(t.year)
    requires t.stamp != [] && NoAsciiSpace(t.stamp) && t.suffix != [] && NoAsciiSpace(t.suffix) && '\n' !in t.place
    requires '/' !in name
    requires Normalized(inputDir) && Normalized(outputDir) && inputDir != outputDir
    ensures ProcessImage(name, inputDir, outputDir).Some?
    ensures var job := ProcessImage(name, inputDir, outputDir).value;
            && job.caption == t.place + ", " + t.year
            && job.input == PathJoin(inputDir, name) && inputDir <= job.input && EndsWith(job.input, name)
            && job.output == PathJoin(outputDir, name) && outputDir <= job.output && EndsWith(job.output, name)
            && job.input != job.output
  {
    LabelOfParts(name, t);
    assert name != [] && name[0] != '/' by { assert name[0] == t.year[0]; }
    JoinDistinct(inputDir, outputDir, name);
  }

  /** How a run ends. */
  datatype Run = SameDirectory | CannotAccess(dir: string) | Converted(jobs: seq<Option<Job>>)

  /**
    The script body: identical absolute input and output directories are
    refused, then each must be an accessible directory, then every JPEG
    of the input directory is processed.
  */
  function LabelFolder(inputArg: string, outputArg: string, abspath: string -> string, accessible: string -> bool,
                listdir: string -> seq<string>, isFile: string -> bool): (r: Run)
    ensures abspath(inputArg) == abspath(outputArg) <==> r == SameDirectory
    ensures r.Converted? ==> accessible(abspath(inputArg)) && accessible(abspath(outputArg))
    ensures r.Converted? ==> |r.jobs| == |JpegsInDir(abspath(inputArg), listdir(abspath(inputArg)), isFile)|
  {
    var i, o := abspath(inputArg), abspath(outputArg);
    if i == o then SameDirectory
    else if !accessible(i) then CannotAccess(i)
    else if !accessible(o) then CannotAccess(o)
    else
      var files := JpegsInDir(i, listdir(i), isFile);
      Converted(seq(|files|, k requires 0 <= k < |files| => ProcessImage(files[k], i, o)))
  }

  /** What `os.path.abspath` returns: a non-empty path ending in `/` only when it is the root. */
  predicate Normalized(d: string) {
    d != [] && (d == "/" || d[|d| - 1] != '/')
  }

  /** With distinct normalized directories, an entry name gives distinct input and output paths. */
  lemma {:induction false} JoinDistinct(i: string, o: string, name: string)
    requires Normalized(i) && Normalized(o) && i != o
    requires name != [] && '/' !in name
    ensures PathJoin(i, name) != PathJoin(o, name)
  {
    var ai := if i == "/" then i else i + "/";
    var bo := if o == "/" then o else o + "/";
    assert PathJoin(i, name) == ai + name && PathJoin(o, name) == bo + name;
    if i != "/" && o != "/" {
      assert ai[..|ai| - 1] == i && bo[..|bo| - 1] == o;
    } else {
      assert |ai| != |bo|;
    }
    SuffixKeepsDistinct(ai, bo, name);
  }

  lemma SuffixKeepsDistinct<T>(x: seq<T>, y: seq<T>, z: seq<T>)
    requires x != y
    ensures x + z != y + z
  {
    if |x| == |y| {
      assert (x + z)[..|x|] == x && (y + z)[..|y|] == y;
    } else {
      assert |x + z| != |y + z|;
    }
  }

  /**
    Every job of a run reads an image of the input directory and writes a
    file of the same name in the output directory, never over its input.
  */
  lemma LabelFolderJobs(inputArg: string, outputArg: string, abspath: string -> string, accessible: string -> bool,
                 listdir: string -> seq<string>, isFile: string -> bool, k: nat)
    requires Normalized(abspath(inputArg)) && Normalized(abspath(outputArg))
    requires forall x :: x in listdir(abspath(inputArg)) ==> x != [] && '/' !in x
    requires LabelFolder(inputArg, outputArg, abspath, accessible, listdir, isFile).Converted?
    requires k < |LabelFolder(inputArg, outputArg, abspath, accessible, listdir, isFile).jobs|
    ensures var files := JpegsInDir(abspath(inputArg), listdir(abspath(inputArg)), isFile);
            var job := LabelFolder(inputArg, outputArg, abspath, accessible, listdir, isFile).jobs[k];
            && job == ProcessImage(files[k], abspath(inputArg), abspath(outputArg))
            && (job.Some? ==> job.value.output == PathJoin(abspath(outputArg), files[k])
                              && job.value.input != job.value.output)
  {
    var i, o := abspath(inputArg), abspath(outputArg);
    var files := JpegsInDir(i, listdir(i), isFile);
    assert files[k] in listdir(i);
    JoinDistinct(i, o, files[k]);
  }
}
