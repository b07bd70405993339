/**
  `mmm`: sorts media files from a source tree into per-type destination trees.
  A file's category comes from its guessed MIME type (or an extension table);
  the files whose category has a destination are moved (or copied) there, five
  at a time, under the same relative path.
*/
module Mmm {
  import opened Wrappers
  import opened Strings
  import opened PySeq
  import ScriptLib

  /** An absolute path as its segments: `/a/b` is `["a", "b"]`, `/` is `[]`. */
  type Path = seq<string>

  /** How many files one batch moves at once. */
  const PARALLELISM: nat := 5

  /** Types for extensions the MIME database does not know. */
  const EXTRA_EXT_TYPES: map<string, string> := map[".xmp" := "image", ".dop" := "image"]

  /**
    What the program asks of its surroundings: `mimetypes.guess_type(name)[0]`
    and `Path(p).resolve()`.
  */
  datatype Env = Env(guessType: string -> Option<string>, resolve: Path -> Path)

  // ---------------------------------------------------------------- type_for_file

  /** The text after the last `/` of `p`. */
  function BaseName(p: string): (r: string)
    ensures '/' !in r && EndsWith(p, r)
  {
    match LastIndexOf(p, '/')
    case None => p
    case Some(k) => p[k + 1..]
  }

  /** Whether the dot at `k` follows some character other than a dot. */
  predicate DotStartsExtension(name: string, k: nat)
    requires k <= |name|
  {
    exists i | 0 <= i < k :: name[i] != '.'
  }

  /**
    `os.path.splitext(name)[1]` for a name without `/`: from the last dot on,
    unless only dots come before that dot (`.bashrc` has no extension).
  */
  function Extension(name: string): string
  {
    match LastIndexOf(name, '.')
    case None => []
    case Some(k) => if DotStartsExtension(name, k) then name[k..] else []
  }

  /**
    An extension is a suffix holding exactly one dot, at its start; there is
    none when the name has no dot or only dots before its last one.
  */
  lemma ExtensionSpec(name: string)
    ensures var ext := Extension(name);
            ext == [] || (ext[0] == '.' && '.' !in ext[1..] && EndsWith(name, ext))
    ensures Extension(name) == [] <==>
              match LastIndexOf(name, '.')
              case None => true
              case Some(k) => !DotStartsExtension(name, k)
  {
  }

  /** `type_for_file`: the category of a file, if it has one. */
  function TypeForFile(name: string, guessType: string -> Option<string>): Option<string>
  {
    match guessType(name)
    case Some(t) => if t != [] then Some(Lower(BeforeFirst(t, '/'))) else FromExtension(name)
    case None => FromExtension(name)
  }

  /** The fallback of `type_for_file`: the extension table, looked up case-insensitively. */
  function FromExtension(name: string): Option<string>
  {
    var ext := Lower(Extension(BaseName(name)));
    if ext in EXTRA_EXT_TYPES then Some(Lower(EXTRA_EXT_TYPES[ext])) else None
  }

  /** A category is lower-case and has no `/`. */
  lemma TypeForFileLowerCase(name: string, guessType: string -> Option<string>)
    ensures var r := TypeForFile(name, guessType);
            r.Some? ==> '/' !in r.value && Lower(r.value) == r.value
  {
    match guessType(name)
    case Some(t) =>
      if t != [] {
        LowerIdempotent(BeforeFirst(t, '/'));
      } else {
        FromExtensionImage(name);
      }
    case None => FromExtensionImage(name);
  }

  /** The extension table gives "image" or nothing. */
  lemma FromExtensionImage(name: string)
    ensures FromExtension(name) == None || FromExtension(name) == Some("image")
    ensures FromExtension(name).Some? ==> '/' !in FromExtension(name).value
    ensures FromExtension(name).Some? ==> Lower(FromExtension(name).value) == FromExtension(name).value
  {
    var ext := Lower(Extension(BaseName(name)));
    if ext in EXTRA_EXT_TYPES {
      assert EXTRA_EXT_TYPES[ext] == "image";
      LowerImage();
    }
  }

  lemma LowerUpperImage()
    ensures Lower("IMAGE") == "image"
  {
    var u := Lower("IMAGE");
    assert LowerChar('I') == 'i' && LowerChar('M') == 'm' && LowerChar('A') == 'a';
    assert LowerChar('G') == 'g' && LowerChar('E') == 'e';
    assert u[0] == 'i' && u[1] == 'm' && u[2] == 'a' && u[3] == 'g' && u[4] == 'e';
  }

  lemma LowerImage()
    ensures Lower("image") == "image"
  {
    var u := Lower("image");
    assert LowerChar('i') == 'i' && LowerChar('m') == 'm' && LowerChar('a') == 'a';
    assert LowerChar('g') == 'g' && LowerChar('e') == 'e';
    assert u[0] == 'i' && u[1] == 'm' && u[2] == 'a' && u[3] == 'g' && u[4] == 'e';
  }

  /**
    With a guessed type, the category is that type's top-level part: it is a
    prefix of the lower-cased type, ending where the type has its first `/` or its end.
  */
  lemma TypeForFileGuessed(name: string, guessType: string -> Option<string>, t: string)
    requires guessType(name) == Some(t) && t != []
    ensures TypeForFile(name, guessType).Some?
    ensures var c := TypeForFile(name, guessType).value;
            && |c| <= |t| && c == Lower(t)[..|c|] && '/' !in c
            && (|c| == |t| || t[|c|] == '/')
  {
    var b := BeforeFirst(t, '/');
    assert TypeForFile(name, guessType) == Some(Lower(b));
    assert t[..|b|] == b;
    LowerPrefix(t, |b|);
    LowerNoSlash(b);
  }

  lemma LowerPrefix(t: string, n: nat)
    requires n <= |t|
    ensures Lower(t)[..n] == Lower(t[..n])
  {
  }

  lemma LowerNoSlash(b: string)
    requires '/' !in b
    ensures '/' !in Lower(b)
  {
    forall i | 0 <= i < |b| ensures Lower(b)[i] != '/' {
      assert b[i] != '/';
    }
  }

  /**
    Without a guessed type, only `.xmp` and `.dop` extensions, in any case,
    give a category, namely "image".
  */
  lemma TypeForFileUnguessed(name: string, guessType: string -> Option<string>)
    requires guessType(name).None? || guessType(name) == Some("")
    ensures var ext := Lower(Extension(BaseName(name)));
            TypeForFile(name, guessType) ==
              if ext == ".xmp" || ext == ".dop" then Some("image") else None
  {
    LowerImage();
    var ext := Lower(Extension(BaseName(name)));
    assert TypeForFile(name, guessType) == FromExtension(name);
    assert (ext in EXTRA_EXT_TYPES) == (ext == ".xmp" || ext == ".dop");
    assert ext in EXTRA_EXT_TYPES ==> EXTRA_EXT_TYPES[ext] == "image";
  }

  /** An unknown upper-case `.XMP` file is an image. */
  lemma TypeForFileXmp(guessType: string -> Option<string>)
    requires guessType("photo.XMP").None?
    ensures TypeForFile("photo.XMP", guessType) == Some("image")
  {
    XmpExtension();
    LowerXmp();
    FromExtensionXmp("photo.XMP");
  }

  lemma FromExtensionXmp(name: string)
    requires Lower(Extension(BaseName(name))) == ".xmp"
    ensures FromExtension(name) == Some("image")
  {
    assert EXTRA_EXT_TYPES[".xmp"] == "image";
    LowerImage();
  }

  lemma XmpExtension()
    ensures Extension(BaseName("photo.XMP")) == ".XMP"
  {
    var n := "photo.XMP";
    XmpNoSlash();
    assert BaseName(n) == n;
    XmpLastDot();
  }

  lemma XmpNoSlash()
    ensures '/' !in "photo.XMP"
  {
    var n := "photo.XMP";
    assert n[0] != '/' && n[1] != '/' && n[2] != '/' && n[3] != '/' && n[4] != '/';
    assert n[5] != '/' && n[6] != '/' && n[7] != '/' && n[8] != '/';
  }

  lemma XmpLastDot()
    ensures Extension("photo.XMP") == ".XMP"
  {
    var n := "photo.XMP";
    LastIndexOfAt(n, '.', 5);
    assert n[0] != '.';
    assert DotStartsExtension(n, 5);
    assert n[5..] == ".XMP";
  }

  lemma LowerXmp()
    ensures Lower(".XMP") == ".xmp"
  {
    var u := Lower(".XMP");
    assert LowerChar('.') == '.' && LowerChar('X') == 'x' && LowerChar('M') == 'm' && LowerChar('P') == 'p';
    assert u[0] == '.' && u[1] == 'x' && u[2] == 'm' && u[3] == 'p';
  }

  /** A guessed `image/jpeg` gives "image". */
  lemma TypeForFileJpeg(name: string, guessType: string -> Option<string>)
    requires guessType(name) == Some("image/jpeg")
    ensures TypeForFile(name, guessType) == Some("image")
  {
    var t := "image/jpeg";
    assert t[..5] == "image";
    IndexOfAt(t, '/', 5);
    LowerImage();
  }

  /** A dot file named `.dop` has no extension, so no category. */
  lemma TypeForFileDotFile(guessType: string -> Option<string>)
    requires guessType(".dop").None?
    ensures TypeForFile(".dop", guessType) == None
  {
    var d := ".dop";
    assert LastIndexOf(d, '/') == None;
    assert d[1..] == "dop";
    LastIndexOfAt(d, '.', 0);
    assert Extension(d) == "";
  }

  // ---------------------------------------------------------------- replace_path

  /** `relative_to` raises ValueError: the resolved path is not under the resolved source. */
  datatype PathError = NotUnder(path: Path, src: Path)

  /** `replace_path`: re-roots `path` from under `src` onto `dst`, after resolving both. */
  function ReplacePath(path: Path, src: Path, dst: Path, resolve: Path -> Path): (r: Result<Path, PathError>)
    ensures r.Success? <==> resolve(src) <= resolve(path)
    ensures r.Success? ==> dst <= r.value && resolve(src) + r.value[|dst|..] == resolve(path)
    ensures r.Failure? ==> r.error == NotUnder(resolve(path), resolve(src))
  {
    var p := resolve(path);
    var s := resolve(src);
    if s <= p then
      assert p == s + p[|s|..];
      Success(dst + p[|s|..])
    else Failure(NotUnder(p, s))
  }

  /** Re-rooting back from `dst` onto the resolved `src` gives the resolved path. */
  lemma ReplacePathInverse(path: Path, src: Path, dst: Path, resolve: Path -> Path)
    requires ReplacePath(path, src, dst, resolve).Success?
    requires forall q: Path :: dst <= q ==> resolve(q) == q
    requires resolve(resolve(src)) == resolve(src)
    ensures ReplacePath(ReplacePath(path, src, dst, resolve).value, dst, resolve(src), resolve)
            == Success(resolve(path))
  {
    var out := ReplacePath(path, src, dst, resolve).value;
    assert resolve(out) == out;
    assert resolve(dst) == dst;
  }

  /** A path that is already resolved and lies under the resolved source keeps its remainder. */
  lemma ReplacePathUnder(src: Path, rest: Path, dst: Path, resolve: Path -> Path)
    requires resolve(src + rest) == src + rest && resolve(src) == src
    ensures ReplacePath(src + rest, src, dst, resolve) == Success(dst + rest)
  {
    assert (src + rest)[|src|..] == rest;
  }

  /** The docstring's example, with symbolic links that resolve to themselves. */
  lemma ReplacePathExample(resolve: Path -> Path)
    requires forall q: Path :: resolve(q) == q
    ensures ReplacePath(["Users", "sandipb", "a", "b", "c", "nnnn", "hello.txt"],
                        ["Users", "sandipb"], ["usr", "bin"], resolve)
            == Success(["usr", "bin", "a", "b", "c", "nnnn", "hello.txt"])
  {
    var s: Path := ["Users", "sandipb"];
    var rest: Path := ["a", "b", "c", "nnnn", "hello.txt"];
    assert s + rest == ["Users", "sandipb", "a", "b", "c", "nnnn", "hello.txt"];
    ReplacePathUnder(s, rest, ["usr", "bin"], resolve);
    assert ["usr", "bin"] + rest == ["usr", "bin", "a", "b", "c", "nnnn", "hello.txt"];
  }

  /** A path outside the source cannot be re-rooted. */
  lemma ReplacePathOutside(resolve: Path -> Path)
    requires forall q: Path :: resolve(q) == q
    ensures ReplacePath(["etc", "hosts"], ["Users", "sandipb"], ["usr", "bin"], resolve).Failure?
  {
    var p: Path := ["etc", "hosts"];
    var s: Path := ["Users", "sandipb"];
    assert resolve(p) == p && resolve(s) == s;
    assert p[0] != s[0];
  }

  // ---------------------------------------------------------------- find_files

  /** One file `os.walk` reports: the directory it is in and its name. */
  datatype Found = Found(root: Path, name: string)

  /** One step of `os.walk`: a directory and the names of the files in it. */
  datatype WalkEntry = WalkEntry(root: Path, files: seq<string>)

  /** A `(full_path, final_path)` pair `find_files` yields, with the category that chose it. */
  datatype Task = Task(src: Path, dst: Path, ftype: string)

  /** The files of one directory, in listing order. */
  function EntryFiles(e: WalkEntry): (r: seq<Found>)
    ensures |r| == |e.files|
    ensures forall j :: 0 <= j < |r| ==> r[j] == Found(e.root, e.files[j])
  {
    seq(|e.files|, j requires 0 <= j < |e.files| => Found(e.root, e.files[j]))
  }

  /** Every file of the walk, directory by directory. */
  function WalkFiles(walk: seq<WalkEntry>): seq<Found>
    decreases |walk|
  {
    if walk == [] then [] else WalkFiles(walk[..|walk| - 1]) + EntryFiles(walk[|walk| - 1])
  }

  /** `os.path.join(root, f)`. */
  function FullPath(f: Found): Path { f.root + [f.name] }

  /**
    `find_files` looks at every file the walk reports and at nothing else:
    a file is among the walk's files exactly when some directory of the
    walk lists it, and its full path is its name under that directory.
  */
  lemma {:induction false} WalkFilesMembers(walk: seq<WalkEntry>, f: Found)
    ensures f in WalkFiles(walk) <==>
            exists i, j :: 0 <= i < |walk| && 0 <= j < |walk[i].files| && f == Found(walk[i].root, walk[i].files[j])
    ensures FullPath(f)[..|f.root|] == f.root && FullPath(f)[|f.root|] == f.name
    decreases |walk|
  {
    if walk != [] {
      var init, last := walk[..|walk| - 1], walk[|walk| - 1];
      WalkFilesMembers(init, f);
      if f in WalkFiles(walk) {
        if f in WalkFiles(init) {
          var i, j :| 0 <= i < |init| && 0 <= j < |init[i].files| && f == Found(init[i].root, init[i].files[j]);
          assert walk[i] == init[i];
        } else {
          var j :| 0 <= j < |EntryFiles(last)| && EntryFiles(last)[j] == f;
          assert f == Found(walk[|walk| - 1].root, walk[|walk| - 1].files[j]);
        }
      }
      if exists i, j :: 0 <= i < |walk| && 0 <= j < |walk[i].files| && f == Found(walk[i].root, walk[i].files[j]) {
        var i, j :| 0 <= i < |walk| && 0 <= j < |walk[i].files| && f == Found(walk[i].root, walk[i].files[j]);
        if i < |init| {
          assert init[i] == walk[i];
        } else {
          assert EntryFiles(last)[j] == f;
        }
      }
    }
  }

  /** What `find_files` does with one file: nothing, the pair it yields, or the error it raises. */
  type Step = Found -> Option<Result<Task, PathError>>

  /** A file is selected when its name's category has a destination. */
  function MakeTask(f: Found, src: Path, destMap: map<string, Path>, env: Env): (r: Option<Result<Task, PathError>>)
    ensures r.Some? <==> TypeForFile(f.name, env.guessType).Some? && TypeForFile(f.name, env.guessType).value in destMap
  {
    var t := TypeForFile(f.name, env.guessType);
    if t.Some? && t.value in destMap then
      match ReplacePath(FullPath(f), src, destMap[t.value], env.resolve)
      case Success(d) => Some(Success(Task(FullPath(f), d, t.value)))
      case Failure(e) => Some(Failure(e))
    else None
  }

  function FindStep(src: Path, destMap: map<string, Path>, env: Env): Step
  {
    (f: Found) => MakeTask(f, src, destMap, env)
  }

  /** The files a step selects. */
  function Selects(step: Step): Found -> bool
  {
    (f: Found) => step(f).Some?
  }

  /** What the generator yields, and the error that ends it early, if one does. */
  datatype Scanned = Scanned(tasks: seq<Task>, failure: Option<PathError>)

  /** The pairs `find_files` yields over `files`, up to the first file whose step raises. */
  function Scan(files: seq<Found>, step: Step): Scanned
    decreases |files|
  {
    if files == [] then Scanned([], None)
    else
      var r := Scan(files[..|files| - 1], step);
      if r.failure.Some? then r
      else match step(files[|files| - 1])
        case None => r
        case Some(Failure(e)) => Scanned(r.tasks, Some(e))
        case Some(Success(t)) => Scanned(r.tasks + [t], None)
  }

  /**
    A selected file gives the pair from its full path to its re-rooted path
    under its category's destination, or the error re-rooting raises.
  */
  lemma MakeTaskSpec(f: Found, src: Path, destMap: map<string, Path>, env: Env)
    requires MakeTask(f, src, destMap, env).Some?
    ensures var c := TypeForFile(f.name, env.guessType).value;
            var r := ReplacePath(FullPath(f), src, destMap[c], env.resolve);
            && c in destMap
            && MakeTask(f, src, destMap, env) ==
                 if r.Success? then Some(Success(Task(FullPath(f), r.value, c))) else Some(Failure(r.error))
  {
  }

  /**
    `r` is what stepping through the selected files `sel` gives: one pair per
    selected file, in order, up to the first one whose step raises.
  */
  predicate Matches(r: Scanned, sel: seq<Found>, step: Step)
  {
    && |r.tasks| <= |sel|
    && (forall i :: 0 <= i < |r.tasks| ==> step(sel[i]) == Some(Success(r.tasks[i])))
    && (r.failure.None? ==> |r.tasks| == |sel|)
    && (r.failure.Some? ==> |r.tasks| < |sel| && step(sel[|r.tasks|]) == Some(Failure(r.failure.value)))
  }

  /** One more file in the walk: the scan still matches the selected files. */
  lemma MatchesSnoc(r: Scanned, sel: seq<Found>, step: Step, last: Found)
    requires Matches(r, sel, step)
    ensures var sel' := if step(last).Some? then sel + [last] else sel;
            var r' := if r.failure.Some? then r
                      else match step(last)
                        case None => r
                        case Some(Failure(e)) => Scanned(r.tasks, Some(e))
                        case Some(Success(t)) => Scanned(r.tasks + [t], None);
            Matches(r', sel', step)
  {
    if step(last).Some? {
      var sel' := sel + [last];
      assert forall i :: 0 <= i < |sel| ==> sel'[i] == sel[i];
    }
  }

  /**
    `find_files` yields one pair per selected file, in walk order, and stops at
    the first selected file that is not under the source, raising its error;
    files that are not selected are never yielded.
  */
  lemma {:induction false} ScanSelected(files: seq<Found>, step: Step)
    ensures Matches(Scan(files, step), Filter(files, Selects(step)), step)
    decreases |files|
  {
    if files != [] {
      var init, last := files[..|files| - 1], files[|files| - 1];
      assert files == init + [last];
      ScanSelected(init, step);
      FilterConcat(init, [last], Selects(step));
      assert Filter([last], Selects(step)) == (if step(last).Some? then [last] else []) by {
        assert [last][1..] == [];
      }
      MatchesSnoc(Scan(init, step), Filter(init, Selects(step)), step, last);
    }
  }

  /** When every file lies under the source, nothing fails and every selected file yields a pair. */
  lemma ScanUnderSource(files: seq<Found>, src: Path, destMap: map<string, Path>, env: Env)
    requires forall i :: 0 <= i < |files| ==> env.resolve(src) <= env.resolve(FullPath(files[i]))
    ensures Scan(files, FindStep(src, destMap, env)).failure.None?
    ensures |Scan(files, FindStep(src, destMap, env)).tasks| == CountWhere(files, Selects(FindStep(src, destMap, env)))
  {
    var step := FindStep(src, destMap, env);
    forall i | 0 <= i < |files| ensures step(files[i]).None? || step(files[i]).value.Success? {
      if step(files[i]).Some? {
        MakeTaskSpec(files[i], src, destMap, env);
      }
    }
    ScanNoFailure(files, step);
    ScanSelected(files, step);
    FilterLength(files, Selects(step));
  }

  lemma {:induction false} ScanNoFailure(files: seq<Found>, step: Step)
    requires forall i :: 0 <= i < |files| ==> step(files[i]).None? || step(files[i]).value.Success?
    ensures Scan(files, step).failure.None?
    decreases |files|
  {
    if files != [] {
      ScanNoFailure(files[..|files| - 1], step);
    }
  }

  /** `type_counts` after counting one more category per pair. */
  function AddCounts(counts: map<string, nat>, tasks: seq<Task>): (r: map<string, nat>)
    decreases |tasks|
  {
    if tasks == [] then counts
    else
      var c := AddCounts(counts, tasks[..|tasks| - 1]);
      var k := tasks[|tasks| - 1].ftype;
      c[k := CountOf(c, k) + 1]
  }

  /** A `defaultdict(int)` read. */
  function CountOf(counts: map<string, nat>, k: string): nat
  {
    if k in counts then counts[k] else 0
  }

  function OfType(k: string): Task -> bool { (t: Task) => t.ftype == k }

  /** Each category's count grows by the number of pairs of that category. */
  lemma {:induction false} AddCountsOf(counts: map<string, nat>, tasks: seq<Task>, k: string)
    ensures CountOf(AddCounts(counts, tasks), k) == CountOf(counts, k) + CountWhere(tasks, OfType(k))
    decreases |tasks|
  {
    if tasks != [] {
      var init, last := tasks[..|tasks| - 1], tasks[|tasks| - 1];
      AddCountsOf(counts, init, k);
      assert tasks == init + [last];
      CountWhereConcat(init, [last], OfType(k));
      assert CountWhere([last], OfType(k)) == (if last.ftype == k then 1 else 0) by {
        assert [last][1..] == [];
      }
    }
  }

  /** The category of a file whose guessed type has its first `/` at `k`. */
  lemma GuessedCategory(name: string, guessType: string -> Option<string>, t: string, k: nat)
    requires guessType(name) == Some(t)
    requires k < |t| && t[k] == '/' && '/' !in t[..k]
    ensures TypeForFile(name, guessType) == Some(Lower(t[..k]))
  {
    IndexOfAt(t, '/', k);
  }

  /** Any guessed `image/...` type gives "image". */
  lemma ImageCategory(name: string, guessType: string -> Option<string>, t: string)
    requires guessType(name) == Some(t) && |t| > 5 && t[..6] == "image/"
    ensures TypeForFile(name, guessType) == Some("image")
  {
    assert t[..5] == "image" && t[5] == '/';
    assert t[0] != '/' && t[1] != '/' && t[2] != '/' && t[3] != '/' && t[4] != '/';
    GuessedCategory(name, guessType, t, 5);
    LowerImage();
  }

  /** Any guessed `video/...` type gives "video". */
  lemma VideoCategory(name: string, guessType: string -> Option<string>, t: string)
    requires guessType(name) == Some(t) && |t| > 5 && t[..6] == "video/"
    ensures TypeForFile(name, guessType) == Some("video")
  {
    assert t[..5] == "video" && t[5] == '/';
    assert t[0] != '/' && t[1] != '/' && t[2] != '/' && t[3] != '/' && t[4] != '/';
    GuessedCategory(name, guessType, t, 5);
    LowerVideo();
  }

  /** A resolved file below the source whose category has a destination yields its re-rooted pair. */
  lemma SelectedUnder(f: Found, src: Path, rest: Path, destMap: map<string, Path>, env: Env, c: string)
    requires forall q: Path :: env.resolve(q) == q
    requires FullPath(f) == src + rest
    requires TypeForFile(f.name, env.guessType) == Some(c) && c in destMap
    ensures FindStep(src, destMap, env)(f) == Some(Success(Task(src + rest, destMap[c] + rest, c)))
  {
    ReplacePathUnder(src, rest, destMap[c], env.resolve);
  }

  /** When every file is selected and re-rooted, the scan yields one pair per file, in order. */
  lemma {:induction false} ScanAllSelected(files: seq<Found>, step: Step, tasks: seq<Task>)
    requires |files| == |tasks|
    requires forall i :: 0 <= i < |files| ==> step(files[i]) == Some(Success(tasks[i]))
    ensures Scan(files, step) == Scanned(tasks, None)
    decreases |files|
  {
    if files != [] {
      var n := |files| - 1;
      ScanAllSelected(files[..n], step, tasks[..n]);
      assert tasks[..n] + [tasks[n]] == tasks;
    }
  }

  /** The walk over one more directory. */
  lemma WalkFilesSnoc(walk: seq<WalkEntry>, e: WalkEntry)
    ensures WalkFiles(walk + [e]) == WalkFiles(walk) + EntryFiles(e)
  {
    assert (walk + [e])[..|walk|] == walk;
  }

  // The tree of the `find_files` test, under a temporary directory `t`.

  function TestSource(): Path { ["t", "pictures"] }

  function TestImages(): Path { ["t", "images"] }

  function TestVideos(): Path { ["t", "videos"] }

  function TestDestMap(): map<string, Path> { map["image" := TestImages(), "video" := TestVideos()] }

  /** The test's `photo_files`, below the source. */
  function PhotoFiles(): seq<Path> { [["a", "b", "c", "1.jpg"], ["a", "b", "2.PNG"], ["a", "b", "d", "e", "3.gif"]] }

  /** The test's `video_files`, below the source. */
  function VideoFiles(): seq<Path> { [["a", "b", "v1.mp4"], ["a", "b", "d", "v1.MOV"], ["a", "d", "e", "g", "v3.avi"]] }

  /**
    The directories `os.walk` reports for the test's tree, top down, each with
    the files it holds: three photos and three videos, two to four levels down.
  */
  function TestWalk(): seq<WalkEntry>
  {
    var src := TestSource();
    [ WalkEntry(src, []),
      WalkEntry(src + ["a"], []),
      WalkEntry(src + ["a", "b"], ["2.PNG", "v1.mp4"]),
      WalkEntry(src + ["a", "b", "c"], ["1.jpg"]),
      WalkEntry(src + ["a", "b", "d"], ["v1.MOV"]),
      WalkEntry(src + ["a", "b", "d", "e"], ["3.gif"]),
      WalkEntry(src + ["a", "d"], []),
      WalkEntry(src + ["a", "d", "e"], []),
      WalkEntry(src + ["a", "d", "e", "g"], ["v3.avi"]) ]
  }

  /** The test's `all_outs`: each photo below `images` and each video below `videos`, at its path below the source. */
  function TestOuts(): seq<Path>
  {
    var p, v := PhotoFiles(), VideoFiles();
    [ TestImages() + p[0], TestImages() + p[1], TestImages() + p[2],
      TestVideos() + v[0], TestVideos() + v[1], TestVideos() + v[2] ]
  }

  /** The destinations of the pairs, as the test collects them. */
  function TaskDestinations(tasks: seq<Task>): seq<Path>
  {
    seq(|tasks|, i requires 0 <= i < |tasks| => tasks[i].dst)
  }

  /**
    The test of `find_files`: over the test's tree, with symbolic links that
    resolve to themselves and the types `mimetypes` guesses for the six names,
    nothing fails, every pair is taken from below the source, the upper-case
    `.PNG` and `.MOV` files are chosen like the others, and the destinations
    yielded are the test's `all_outs` as a multiset, which is what comparing
    the two sorted lists checks.
  */
  lemma ScanTestScenario(env: Env)
    requires forall q: Path :: env.resolve(q) == q
    requires env.guessType("1.jpg") == Some("image/jpeg")
    requires env.guessType("2.PNG") == Some("image/png")
    requires env.guessType("3.gif") == Some("image/gif")
    requires env.guessType("v1.mp4") == Some("video/mp4")
    requires env.guessType("v1.MOV") == Some("video/quicktime")
    requires env.guessType("v3.avi") == Some("video/x-msvideo")
    ensures var r := Scan(WalkFiles(TestWalk()), FindStep(TestSource(), TestDestMap(), env));
            && r.failure == None
            && |r.tasks| == 6
            && (forall i :: 0 <= i < 6 ==> TestSource() <= r.tasks[i].src)
            && multiset(TaskDestinations(r.tasks)) == multiset(TestOuts())
  {
    TestGuesses(env.guessType);
    TestScan(env);
    TestSources();
    TestDestinations();
  }

  /** With the test's categories, every file of the walk yields its pair. */
  lemma TestScan(env: Env)
    requires forall q: Path :: env.resolve(q) == q
    requires TestCategories(env.guessType)
    ensures Scan(WalkFiles(TestWalk()), FindStep(TestSource(), TestDestMap(), env)) == Scanned(TestTasks(), None)
  {
    var files := TestFiles();
    TestWalkFiles();
    var step := FindStep(TestSource(), TestDestMap(), env);
    var tasks := TestTasks();
    forall i | 0 <= i < 6 ensures step(files[i]) == Some(Success(tasks[i])) {
      TestStep(env, i);
    }
    ScanAllSelected(files, step, tasks);
  }

  lemma TestSources()
    ensures |TestTasks()| == 6
    ensures forall i :: 0 <= i < 6 ==> TestSource() <= TestTasks()[i].src
  {
  }

  /** The files of the test's walk, in walk order. */
  function TestFiles(): seq<Found>
  {
    var src := TestSource();
    [ Found(src + ["a", "b"], "2.PNG"), Found(src + ["a", "b"], "v1.mp4"),
      Found(src + ["a", "b", "c"], "1.jpg"), Found(src + ["a", "b", "d"], "v1.MOV"),
      Found(src + ["a", "b", "d", "e"], "3.gif"), Found(src + ["a", "d", "e", "g"], "v3.avi") ]
  }

  /** The pairs the test's files give, in walk order. */
  function TestTasks(): seq<Task>
  {
    var src, p, v := TestSource(), PhotoFiles(), VideoFiles();
    [ Task(src + p[1], TestImages() + p[1], "image"), Task(src + v[0], TestVideos() + v[0], "video"),
      Task(src + p[0], TestImages() + p[0], "image"), Task(src + v[1], TestVideos() + v[1], "video"),
      Task(src + p[2], TestImages() + p[2], "image"), Task(src + v[2], TestVideos() + v[2], "video") ]
  }

  lemma TestWalkFiles()
    ensures WalkFiles(TestWalk()) == TestFiles()
  {
    var w := TestWalk();
    assert w == [w[0]] + [w[1]] + [w[2]] + [w[3]] + [w[4]] + [w[5]] + [w[6]] + [w[7]] + [w[8]];
    WalkFilesSnoc([], w[0]);
    WalkFilesSnoc([w[0]], w[1]);
    WalkFilesSnoc([w[0]] + [w[1]], w[2]);
    WalkFilesSnoc([w[0]] + [w[1]] + [w[2]], w[3]);
    WalkFilesSnoc([w[0]] + [w[1]] + [w[2]] + [w[3]], w[4]);
    WalkFilesSnoc([w[0]] + [w[1]] + [w[2]] + [w[3]] + [w[4]], w[5]);
    WalkFilesSnoc([w[0]] + [w[1]] + [w[2]] + [w[3]] + [w[4]] + [w[5]], w[6]);
    WalkFilesSnoc([w[0]] + [w[1]] + [w[2]] + [w[3]] + [w[4]] + [w[5]] + [w[6]], w[7]);
    WalkFilesSnoc([w[0]] + [w[1]] + [w[2]] + [w[3]] + [w[4]] + [w[5]] + [w[6]] + [w[7]], w[8]);
    EntryFilesEmpty(w[0]);
    EntryFilesEmpty(w[1]);
    EntryFilesTwo(w[2]);
    EntryFilesOne(w[3]);
    EntryFilesOne(w[4]);
    EntryFilesOne(w[5]);
    EntryFilesEmpty(w[6]);
    EntryFilesEmpty(w[7]);
    EntryFilesOne(w[8]);
  }

  lemma EntryFilesEmpty(e: WalkEntry)
    requires e.files == []
    ensures EntryFiles(e) == []
  {
  }

  lemma EntryFilesOne(e: WalkEntry)
    requires |e.files| == 1
    ensures EntryFiles(e) == [Found(e.root, e.files[0])]
  {
  }

  lemma EntryFilesTwo(e: WalkEntry)
    requires |e.files| == 2
    ensures EntryFiles(e) == [Found(e.root, e.files[0]), Found(e.root, e.files[1])]
  {
  }

  /** A test file in `dirs` below the source, of a category with a destination, is re-rooted below that destination. */
  lemma TestFileStep(env: Env, dirs: Path, name: string, rel: Path, c: string)
    requires forall q: Path :: env.resolve(q) == q
    requires rel == dirs + [name]
    requires TypeForFile(name, env.guessType) == Some(c) && c in TestDestMap()
    ensures FindStep(TestSource(), TestDestMap(), env)(Found(TestSource() + dirs, name))
            == Some(Success(Task(TestSource() + rel, TestDestMap()[c] + rel, c)))
  {
    assert FullPath(Found(TestSource() + dirs, name)) == TestSource() + rel;
    SelectedUnder(Found(TestSource() + dirs, name), TestSource(), rel, TestDestMap(), env, c);
  }

  /** The categories of the test's six files: three images and three videos. */
  predicate TestCategories(guessType: string -> Option<string>)
  {
    && TypeForFile("1.jpg", guessType) == Some("image")
    && TypeForFile("2.PNG", guessType) == Some("image")
    && TypeForFile("3.gif", guessType) == Some("image")
    && TypeForFile("v1.mp4", guessType) == Some("video")
    && TypeForFile("v1.MOV", guessType) == Some("video")
    && TypeForFile("v3.avi", guessType) == Some("video")
  }

  lemma TestGuesses(guessType: string -> Option<string>)
    requires guessType("1.jpg") == Some("image/jpeg")
    requires guessType("2.PNG") == Some("image/png")
    requires guessType("3.gif") == Some("image/gif")
    requires guessType("v1.mp4") == Some("video/mp4")
    requires guessType("v1.MOV") == Some("video/quicktime")
    requires guessType("v3.avi") == Some("video/x-msvideo")
    ensures TestCategories(guessType)
  {
    TestImageGuesses(guessType);
    TestVideoGuesses(guessType);
  }

  lemma TestImageGuesses(guessType: string -> Option<string>)
    requires guessType("1.jpg") == Some("image/jpeg")
    requires guessType("2.PNG") == Some("image/png")
    requires guessType("3.gif") == Some("image/gif")
    ensures TypeForFile("1.jpg", guessType) == Some("image")
    ensures TypeForFile("2.PNG", guessType) == Some("image")
    ensures TypeForFile("3.gif", guessType) == Some("image")
  {
    ImageTypes();
    ImageCategory("1.jpg", guessType, "image/jpeg");
    ImageCategory("2.PNG", guessType, "image/png");
    ImageCategory("3.gif", guessType, "image/gif");
  }

  lemma TestVideoGuesses(guessType: string -> Option<string>)
    requires guessType("v1.mp4") == Some("video/mp4")
    requires guessType("v1.MOV") == Some("video/quicktime")
    requires guessType("v3.avi") == Some("video/x-msvideo")
    ensures TypeForFile("v1.mp4", guessType) == Some("video")
    ensures TypeForFile("v1.MOV", guessType) == Some("video")
    ensures TypeForFile("v3.avi", guessType) == Some("video")
  {
    VideoTypes();
    VideoCategory("v1.mp4", guessType, "video/mp4");
    VideoCategory("v1.MOV", guessType, "video/quicktime");
    VideoCategory("v3.avi", guessType, "video/x-msvideo");
  }

  lemma ImageTypes()
    ensures |"image/jpeg"| > 5 && "image/jpeg"[..6] == "image/"
    ensures |"image/png"| > 5 && "image/png"[..6] == "image/"
    ensures |"image/gif"| > 5 && "image/gif"[..6] == "image/"
  {
  }

  lemma VideoTypes()
    ensures |"video/mp4"| > 5 && "video/mp4"[..6] == "video/"
    ensures |"video/quicktime"| > 5 && "video/quicktime"[..6] == "video/"
    ensures |"video/x-msvideo"| > 5 && "video/x-msvideo"[..6] == "video/"
  {
  }

  /** The pair the `i`-th file of the test's walk gives. */
  lemma TestStep(env: Env, i: nat)
    requires forall q: Path :: env.resolve(q) == q
    requires TestCategories(env.guessType)
    requires i < 6
    ensures FindStep(TestSource(), TestDestMap(), env)(TestFiles()[i]) == Some(Success(TestTasks()[i]))
  {
    if i == 0 {
      TestPng(env);
    } else if i == 1 {
      TestMp4(env);
    } else if i == 2 {
      TestJpg(env);
    } else if i == 3 {
      TestMov(env);
    } else if i == 4 {
      TestGif(env);
    } else {
      TestAvi(env);
    }
  }

  lemma TestPng(env: Env)
    requires forall q: Path :: env.resolve(q) == q
    requires TypeForFile("2.PNG", env.guessType) == Some("image")
    ensures FindStep(TestSource(), TestDestMap(), env)(TestFiles()[0]) == Some(Success(TestTasks()[0]))
  {
    assert PhotoFiles()[1] == ["a", "b"] + ["2.PNG"];
    TestFileStep(env, ["a", "b"], "2.PNG", PhotoFiles()[1], "image");
  }

  lemma TestMp4(env: Env)
    requires forall q: Path :: env.resolve(q) == q
    requires TypeForFile("v1.mp4", env.guessType) == Some("video")
    ensures FindStep(TestSource(), TestDestMap(), env)(TestFiles()[1]) == Some(Success(TestTasks()[1]))
  {
    assert VideoFiles()[0] == ["a", "b"] + ["v1.mp4"];
    TestFileStep(env, ["a", "b"], "v1.mp4", VideoFiles()[0], "video");
  }

  lemma TestJpg(env: Env)
    requires forall q: Path :: env.resolve(q) == q
    requires TypeForFile("1.jpg", env.guessType) == Some("image")
    ensures FindStep(TestSource(), TestDestMap(), env)(TestFiles()[2]) == Some(Success(TestTasks()[2]))
  {
    assert PhotoFiles()[0] == ["a", "b", "c"] + ["1.jpg"];
    TestFileStep(env, ["a", "b", "c"], "1.jpg", PhotoFiles()[0], "image");
  }

  lemma TestMov(env: Env)
    requires forall q: Path :: env.resolve(q) == q
    requires TypeForFile("v1.MOV", env.guessType) == Some("video")
    ensures FindStep(TestSource(), TestDestMap(), env)(TestFiles()[3]) == Some(Success(TestTasks()[3]))
  {
    assert VideoFiles()[1] == ["a", "b", "d"] + ["v1.MOV"];
    TestFileStep(env, ["a", "b", "d"], "v1.MOV", VideoFiles()[1], "video");
  }

  lemma TestGif(env: Env)
    requires forall q: Path :: env.resolve(q) == q
    requires TypeForFile("3.gif", env.guessType) == Some("image")
    ensures FindStep(TestSource(), TestDestMap(), env)(TestFiles()[4]) == Some(Success(TestTasks()[4]))
  {
    assert PhotoFiles()[2] == ["a", "b", "d", "e"] + ["3.gif"];
    TestFileStep(env, ["a", "b", "d", "e"], "3.gif", PhotoFiles()[2], "image");
  }

  lemma TestAvi(env: Env)
    requires forall q: Path :: env.resolve(q) == q
    requires TypeForFile("v3.avi", env.guessType) == Some("video")
    ensures FindStep(TestSource(), TestDestMap(), env)(TestFiles()[5]) == Some(Success(TestTasks()[5]))
  {
    assert VideoFiles()[2] == ["a", "d", "e", "g"] + ["v3.avi"];
    TestFileStep(env, ["a", "d", "e", "g"], "v3.avi", VideoFiles()[2], "video");
  }

  /** The test's destinations, in walk order, are `all_outs` reordered. */
  lemma TestDestinations()
    ensures multiset(TaskDestinations(TestTasks())) == multiset(TestOuts())
  {
    var d := TaskDestinations(TestTasks());
    var o := TestOuts();
    assert d[0] == o[1] && d[1] == o[3] && d[2] == o[0] && d[3] == o[4] && d[4] == o[2] && d[5] == o[5];
    Reordered(o, d);
  }

  /** The order the walk reports the test's six files in, against the order the test lists them. */
  lemma Reordered<T>(s: seq<T>, t: seq<T>)
    requires |s| == 6 && |t| == 6
    requires t[0] == s[1] && t[1] == s[3] && t[2] == s[0] && t[3] == s[4] && t[4] == s[2] && t[5] == s[5]
    ensures multiset(t) == multiset(s)
  {
    assert s == [s[0]] + [s[1]] + [s[2]] + [s[3]] + [s[4]] + [s[5]];
    assert t == [s[1]] + [s[3]] + [s[0]] + [s[4]] + [s[2]] + [s[5]];
  }

  /** A guessed `video/mp4` gives "video". */
  lemma TypeForFileVideo(name: string, guessType: string -> Option<string>)
    requires guessType(name) == Some("video/mp4")
    ensures TypeForFile(name, guessType) == Some("video")
  {
    var t := "video/mp4";
    assert t[..5] == "video";
    IndexOfAt(t, '/', 5);
    LowerVideo();
  }

  /** A guessed `text/plain` gives "text". */
  lemma TypeForFileText(name: string, guessType: string -> Option<string>)
    requires guessType(name) == Some("text/plain")
    ensures TypeForFile(name, guessType) == Some("text")
  {
    var t := "text/plain";
    assert t[..4] == "text";
    IndexOfAt(t, '/', 4);
    LowerText();
  }

  lemma LowerVideo()
    ensures Lower("video") == "video"
  {
    var u := Lower("video");
    assert LowerChar('v') == 'v' && LowerChar('i') == 'i' && LowerChar('d') == 'd';
    assert LowerChar('e') == 'e' && LowerChar('o') == 'o';
    assert u[0] == 'v' && u[1] == 'i' && u[2] == 'd' && u[3] == 'e' && u[4] == 'o';
  }

  lemma LowerText()
    ensures Lower("text") == "text"
  {
    var u := Lower("text");
    assert LowerChar('t') == 't' && LowerChar('e') == 'e' && LowerChar('x') == 'x';
    assert u[0] == 't' && u[1] == 'e' && u[2] == 'x' && u[3] == 't';
  }

  // ---------------------------------------------------------------- Metrics and moving

  /** The program-wide counters. */
  class Metrics {
    var moves: nat
    var copies: nat
    var errors: nat
    var typeCounts: map<string, nat>

    constructor ()
      ensures moves == 0 && copies == 0 && errors == 0 && typeCounts == map[]
    {
      moves, copies, errors, typeCounts := 0, 0, 0, map[];
    }
  }

  /** The scan over one more file. */
  lemma ScanSnoc(files: seq<Found>, f: Found, step: Step, r: Option<Result<Task, PathError>>)
    requires Scan(files, step).failure.None? && step(f) == r
    ensures var s := Scan(files, step);
            Scan(files + [f], step) ==
              match r
              case None => s
              case Some(Failure(e)) => Scanned(s.tasks, Some(e))
              case Some(Success(t)) => Scanned(s.tasks + [t], None)
  {
    assert (files + [f])[..|files|] == files;
  }

  /** The counts after one more pair. */
  lemma AddCountsSnoc(counts: map<string, nat>, tasks: seq<Task>, t: Task, c: map<string, nat>)
    requires c == AddCounts(counts, tasks)
    ensures AddCounts(counts, tasks + [t]) == c[t.ftype := CountOf(c, t.ftype) + 1]
  {
    assert (tasks + [t])[..|tasks|] == tasks;
  }

  /** `metrics.type_counts[ftype] += 1` for one more pair. */
  method CountTask(m: Metrics, ghost counts0: map<string, nat>, ghost tasks: seq<Task>, t: Task)
    requires m.typeCounts == AddCounts(counts0, tasks)
    modifies m
    ensures m.typeCounts == AddCounts(counts0, tasks + [t])
    ensures m.moves == old(m.moves) && m.copies == old(m.copies) && m.errors == old(m.errors)
  {
    AddCountsSnoc(counts0, tasks, t, m.typeCounts);
    m.typeCounts := m.typeCounts[t.ftype := CountOf(m.typeCounts, t.ftype) + 1];
  }

  /**
    The inner loop of `find_files` over one directory's files, after the
    files `before` yielded `tasks0`; `counts0` is where the counts started.
    `step` decides each file; `find_files` itself uses `FindStep`.
  */
  method FindFilesIn(m: Metrics, entry: WalkEntry, ghost before: seq<Found>, tasks0: seq<Task>,
                     ghost counts0: map<string, nat>, step: Step)
    returns (tasks: seq<Task>, failure: Option<PathError>)
    requires Scan(before, step) == Scanned(tasks0, None)
    requires m.typeCounts == AddCounts(counts0, tasks0)
    modifies m
    ensures Scan(before + EntryFiles(entry), step) == Scanned(tasks, failure)
    ensures m.typeCounts == AddCounts(counts0, tasks)
    ensures m.moves == old(m.moves) && m.copies == old(m.copies) && m.errors == old(m.errors)
  {
    tasks, failure := tasks0, None;
    var files := EntryFiles(entry);
    var j := 0;
    ghost var seen := before;
    assert before + files[..0] == before;
    while j < |entry.files|
      invariant 0 <= j <= |entry.files|
      invariant seen == before + files[..j]
      invariant Scan(seen, step) == Scanned(tasks, None) && failure.None?
      invariant m.typeCounts == AddCounts(counts0, tasks)
      invariant m.moves == old(m.moves) && m.copies == old(m.copies) && m.errors == old(m.errors)
    {
      var f := Found(entry.root, entry.files[j]);
      assert files[j] == f;
      PrefixStep(before, files, j);
      tasks, failure := FindFile(m, seen, tasks, counts0, step, f);
      if failure.Some? {
        ScanAfterFailure(seen + [f], files[j + 1..], step);
        assert seen + [f] + files[j + 1..] == before + EntryFiles(entry);
        return;
      }
      seen := seen + [f];
      j := j + 1;
    }
    assert files[..j] == files;
  }

  /** The body of the inner loop of `find_files` for the file `f`, after the files `seen` yielded `tasks0`. */
  method FindFile(m: Metrics, ghost seen: seq<Found>, tasks0: seq<Task>, ghost counts0: map<string, nat>, step: Step, f: Found)
    returns (tasks: seq<Task>, failure: Option<PathError>)
    requires Scan(seen, step) == Scanned(tasks0, None)
    requires m.typeCounts == AddCounts(counts0, tasks0)
    modifies m
    ensures Scan(seen + [f], step) == Scanned(tasks, failure)
    ensures m.typeCounts == AddCounts(counts0, tasks)
    ensures m.moves == old(m.moves) && m.copies == old(m.copies) && m.errors == old(m.errors)
  {
    tasks, failure := tasks0, None;
    var r := step(f);
    ScanSnoc(seen, f, step, r);
    match r {
      case None =>
      case Some(Failure(e)) =>
        failure := Some(e);
      case Some(Success(t)) =>
        CountTask(m, counts0, tasks, t);
        tasks := tasks + [t];
    }
  }

  /**
    `find_files`, run to its end (or to its error): the pairs it yields, in
    order, and the category count it bumps for each; with `FindStep` for
    `step`, `ScanSelected` and `MakeTaskSpec` say which pairs these are.
  */
  method FindFiles(m: Metrics, walk: seq<WalkEntry>, step: Step)
    returns (tasks: seq<Task>, failure: Option<PathError>)
    modifies m
    ensures Scanned(tasks, failure) == Scan(WalkFiles(walk), step)
    ensures m.typeCounts == AddCounts(old(m.typeCounts), tasks)
    ensures m.moves == old(m.moves) && m.copies == old(m.copies) && m.errors == old(m.errors)
  {
    tasks, failure := [], None;
    var i := 0;
    while i < |walk|
      invariant 0 <= i <= |walk|
      invariant Scan(WalkFiles(walk[..i]), step) == Scanned(tasks, None) && failure.None?
      invariant m.typeCounts == AddCounts(old(m.typeCounts), tasks)
      invariant m.moves == old(m.moves) && m.copies == old(m.copies) && m.errors == old(m.errors)
    {
      assert walk[..i + 1][..i] == walk[..i];
      assert WalkFiles(walk[..i + 1]) == WalkFiles(walk[..i]) + EntryFiles(walk[i]);
      tasks, failure := FindFilesIn(m, walk[i], WalkFiles(walk[..i]), tasks, old(m.typeCounts), step);
      if failure.Some? {
        ghost var seen := WalkFiles(walk[..i + 1]);
        WalkFilesPrefix(walk, i + 1);
        ScanAfterFailure(seen, WalkFiles(walk)[|seen|..], step);
        assert Scan(WalkFiles(walk), step) == Scan(seen, step);
        return;
      }
      i := i + 1;
    }
    assert walk[..i] == walk;
  }

  /** The files of `walk[..k]` come first among the files of `walk`. */
  lemma {:induction false} WalkFilesPrefix(walk: seq<WalkEntry>, k: nat)
    requires k <= |walk|
    ensures |WalkFiles(walk[..k])| <= |WalkFiles(walk)|
    ensures WalkFiles(walk) == WalkFiles(walk[..k]) + WalkFiles(walk)[|WalkFiles(walk[..k])|..]
    decreases |walk| - k
  {
    if k < |walk| {
      WalkFilesPrefix(walk, k + 1);
      assert walk[..k + 1][..k] == walk[..k];
      var a, b := WalkFiles(walk[..k]), EntryFiles(walk[k]);
      var rest := WalkFiles(walk)[|a + b|..];
      assert WalkFiles(walk) == a + b + rest;
      assert WalkFiles(walk)[|a|..] == b + rest;
    } else {
      assert walk[..k] == walk;
    }
  }

  /** Once the scan has failed, later files do not change its result. */
  lemma {:induction false} ScanAfterFailure(a: seq<Found>, b: seq<Found>, step: Step)
    requires Scan(a, step).failure.Some?
    ensures Scan(a + b, step) == Scan(a, step)
    decreases |b|
  {
    if b == [] {
      assert a + b == a;
    } else {
      var b' := b[..|b| - 1];
      ScanAfterFailure(a, b', step);
      assert (a + b)[..|a + b| - 1] == a + b';
    }
  }

  /** The command-line switches `move_a_file` reads, and the effective logging level. */
  datatype Options = Options(copy: bool, dryRun: bool, level: int)

  /** The filesystem calls `move_a_file` makes. */
  datatype FsOp = MakeDirs(dir: Path) | MoveFile(from: Path, to: Path) | CopyFile(from: Path, to: Path)

  /** A `[MOVE] src -> dst` or `[COPY] src -> dst` line. */
  datatype Line = Line(action: string, src: Path, dst: Path)

  /** `Path(dst).parent`; the root is its own parent. */
  function Parent(p: Path): (r: Path)
    ensures r <= p && (p != [] ==> |r| == |p| - 1)
  {
    if p == [] then [] else p[..|p| - 1]
  }

  function ActionLine(t: Task, copy: bool): Line
  {
    Line(if copy then "COPY" else "MOVE", t.src, t.dst)
  }

  /** The move or copy itself. */
  function Transfer(t: Task, copy: bool): FsOp
  {
    if copy then CopyFile(t.src, t.dst) else MoveFile(t.src, t.dst)
  }

  /**
    The calls a real run makes for one pair, given which calls return
    normally: the transfer is attempted only after the directory was made.
  */
  function TaskOps(t: Task, copy: bool, succeeds: FsOp -> bool): (ops: seq<FsOp>)
    ensures 1 <= |ops| <= 2 && ops[0] == MakeDirs(Parent(t.dst))
    ensures |ops| == 2 <==> succeeds(MakeDirs(Parent(t.dst)))
  {
    var mk := MakeDirs(Parent(t.dst));
    if succeeds(mk) then [mk, Transfer(t, copy)] else [mk]
  }

  /** Whether one of those calls raised. */
  predicate TaskFails(t: Task, copy: bool, succeeds: FsOp -> bool)
  {
    !succeeds(MakeDirs(Parent(t.dst))) || !succeeds(Transfer(t, copy))
  }

  /** A pair fails exactly when one of the calls actually made raises. */
  lemma TaskFailsIff(t: Task, copy: bool, succeeds: FsOp -> bool)
    ensures TaskFails(t, copy, succeeds) <==>
              exists i :: 0 <= i < |TaskOps(t, copy, succeeds)| && !succeeds(TaskOps(t, copy, succeeds)[i])
  {
    var ops := TaskOps(t, copy, succeeds);
    if !succeeds(MakeDirs(Parent(t.dst))) {
      assert !succeeds(ops[0]);
    } else if !succeeds(Transfer(t, copy)) {
      assert !succeeds(ops[1]);
    }
  }

  /** Whether `move_a_file` prints its action line: always in a dry run, else only at level INFO. */
  predicate Prints(opts: Options)
  {
    opts.dryRun || opts.level == ScriptLib.INFO
  }

  /**
    `move_a_file`: counts the pair as a copy or a move, then either only
    prints (dry run) or makes the directory and transfers, counting an error
    if either call raises.
  */
  method MoveAFile(m: Metrics, t: Task, opts: Options, succeeds: FsOp -> bool)
    returns (ops: seq<FsOp>, lines: seq<Line>)
    modifies m
    ensures opts.copy ==> m.copies == old(m.copies) + 1 && m.moves == old(m.moves)
    ensures !opts.copy ==> m.moves == old(m.moves) + 1 && m.copies == old(m.copies)
    ensures opts.dryRun ==> ops == [] && m.errors == old(m.errors)
    ensures !opts.dryRun ==>
              && ops == TaskOps(t, opts.copy, succeeds)
              && m.errors == old(m.errors) + (if TaskFails(t, opts.copy, succeeds) then 1 else 0)
    ensures lines == (if Prints(opts) then [ActionLine(t, opts.copy)] else [])
    ensures m.typeCounts == old(m.typeCounts)
  {
    if opts.copy {
      m.copies := m.copies + 1;
    } else {
      m.moves := m.moves + 1;
    }
    ops, lines := [], [];
    if opts.dryRun {
      lines := [ActionLine(t, opts.copy)];
    } else {
      if opts.level == ScriptLib.INFO {
        lines := [ActionLine(t, opts.copy)];
      }
      var mk := MakeDirs(Parent(t.dst));
      ops := [mk];
      if succeeds(mk) {
        var op := Transfer(t, opts.copy);
        ops := ops + [op];
        if !succeeds(op) {
          m.errors := m.errors + 1;
        }
      } else {
        m.errors := m.errors + 1;
      }
    }
  }

  /** All the calls a real run makes for `ts`, in order (none in a dry run). */
  function RunOps(ts: seq<Task>, opts: Options, succeeds: FsOp -> bool): seq<FsOp>
    decreases |ts|
  {
    if ts == [] || opts.dryRun then []
    else RunOps(ts[..|ts| - 1], opts, succeeds) + TaskOps(ts[|ts| - 1], opts.copy, succeeds)
  }

  /** All the action lines printed for `ts`. */
  function RunLines(ts: seq<Task>, opts: Options): seq<Line>
    decreases |ts|
  {
    if ts == [] || !Prints(opts) then []
    else RunLines(ts[..|ts| - 1], opts) + [ActionLine(ts[|ts| - 1], opts.copy)]
  }

  /** The calls and lines for one more pair. */
  lemma RunSnoc(ts: seq<Task>, t: Task, opts: Options, succeeds: FsOp -> bool)
    ensures RunOps(ts + [t], opts, succeeds) ==
              RunOps(ts, opts, succeeds) + (if opts.dryRun then [] else TaskOps(t, opts.copy, succeeds))
    ensures RunLines(ts + [t], opts) == RunLines(ts, opts) + (if Prints(opts) then [ActionLine(t, opts.copy)] else [])
  {
    assert (ts + [t])[..|ts|] == ts;
    if opts.dryRun {
      assert RunOps(ts, opts, succeeds) == [] by {
        if ts != [] {
        }
      }
    }
    if !Prints(opts) {
      assert RunLines(ts, opts) == [] by {
        if ts != [] {
        }
      }
    }
  }

  function Fails(opts: Options, succeeds: FsOp -> bool): Task -> bool
  {
    (t: Task) => !opts.dryRun && TaskFails(t, opts.copy, succeeds)
  }

  /** How `move_files` ends: the generator ran out, or it raised. */
  datatype Outcome = Completed | Crashed(error: PathError)

  /**
    The pairs `move_files` hands to `move_a_file`: all of them, unless the
    generator raises, in which case only the full batches taken before the
    error are moved (`islice` raises while filling the unfinished batch).
  */
  function Moved(tasks: seq<Task>, failure: Option<PathError>): seq<Task>
  {
    if failure.None? then tasks else tasks[..(|tasks| / PARALLELISM) * PARALLELISM]
  }

  /**
    The moved pairs come first among the yielded ones; after an error, they
    fill whole batches and fewer than PARALLELISM pairs are left unmoved.
  */
  lemma MovedSpec(tasks: seq<Task>, failure: Option<PathError>)
    ensures Moved(tasks, failure) <= tasks
    ensures failure.None? ==> Moved(tasks, failure) == tasks
    ensures failure.Some? ==>
              |Moved(tasks, failure)| % PARALLELISM == 0 && |tasks| - |Moved(tasks, failure)| < PARALLELISM
  {
  }

  /**
    One batch of `move_files`: `move_a_file` on each pair of `chunk`, one
    after another, after the pairs `done` of the earlier batches.
  */
  method MoveBatch(m: Metrics, ghost done: seq<Task>, chunk: seq<Task>, opts: Options, succeeds: FsOp -> bool)
    returns (ops: seq<FsOp>, lines: seq<Line>)
    modifies m
    ensures m.moves + m.copies == old(m.moves + m.copies) + |chunk|
    ensures opts.copy ==> m.moves == old(m.moves)
    ensures !opts.copy ==> m.copies == old(m.copies)
    ensures m.errors == old(m.errors) + CountWhere(chunk, Fails(opts, succeeds))
    ensures RunOps(done + chunk, opts, succeeds) == RunOps(done, opts, succeeds) + ops
    ensures RunLines(done + chunk, opts) == RunLines(done, opts) + lines
    ensures m.typeCounts == old(m.typeCounts)
  {
    ops, lines := [], [];
    var k := 0;
    ghost var part: seq<Task> := [];
    assert done + part == done;
    while k < |chunk|
      invariant 0 <= k <= |chunk| && part == chunk[..k]
      invariant m.moves + m.copies == old(m.moves + m.copies) + k
      invariant opts.copy ==> m.moves == old(m.moves)
      invariant !opts.copy ==> m.copies == old(m.copies)
      invariant m.errors == old(m.errors) + CountWhere(part, Fails(opts, succeeds))
      invariant RunOps(done + part, opts, succeeds) == RunOps(done, opts, succeeds) + ops
      invariant RunLines(done + part, opts) == RunLines(done, opts) + lines
      invariant m.typeCounts == old(m.typeCounts)
    {
      var t := chunk[k];
      var more, printed := MoveAFile(m, t, opts, succeeds);
      BatchStep(done, part, t, opts, succeeds, ops, more, lines, printed);
      PrefixStep(done, chunk, k);
      ops, lines, part := ops + more, lines + printed, part + [t];
      k := k + 1;
    }
    assert part == chunk;
  }

  /** The calls, lines and errors of one more pair `t` after `done` and `part`. */
  lemma BatchStep(done: seq<Task>, part: seq<Task>, t: Task, opts: Options, succeeds: FsOp -> bool,
                  ops: seq<FsOp>, more: seq<FsOp>, lines: seq<Line>, printed: seq<Line>)
    requires RunOps(done + part, opts, succeeds) == RunOps(done, opts, succeeds) + ops
    requires RunLines(done + part, opts) == RunLines(done, opts) + lines
    requires opts.dryRun ==> more == []
    requires !opts.dryRun ==> more == TaskOps(t, opts.copy, succeeds)
    requires printed == (if Prints(opts) then [ActionLine(t, opts.copy)] else [])
    ensures RunOps(done + (part + [t]), opts, succeeds) == RunOps(done, opts, succeeds) + (ops + more)
    ensures RunLines(done + (part + [t]), opts) == RunLines(done, opts) + (lines + printed)
    ensures CountWhere(part + [t], Fails(opts, succeeds))
            == CountWhere(part, Fails(opts, succeeds)) + (if !opts.dryRun && TaskFails(t, opts.copy, succeeds) then 1 else 0)
  {
    assert done + (part + [t]) == (done + part) + [t];
    RunSnoc(done + part, t, opts, succeeds);
    AppendAssoc(RunOps(done, opts, succeeds), ops, more);
    AppendAssoc(RunLines(done, opts), lines, printed);
    CountWhereSnoc(part, t, Fails(opts, succeeds));
  }

  /**
    `move_files`: takes pairs from `find_files` in batches of at most
    PARALLELISM and moves each batch, until a batch comes back empty or the
    generator raises. `batches` are the batches moved.
  */
  method MoveFiles(m: Metrics, walk: seq<WalkEntry>, src: Path, destMap: map<string, Path>,
                   opts: Options, env: Env, succeeds: FsOp -> bool)
    returns (ops: seq<FsOp>, lines: seq<Line>, outcome: Outcome, ghost batches: seq<seq<Task>>)
    modifies m
    ensures var s := Scan(WalkFiles(walk), FindStep(src, destMap, env));
            var moved := Moved(s.tasks, s.failure);
            && outcome == (if s.failure.Some? then Crashed(s.failure.value) else Completed)
            && batches == ScriptLib.Slices(moved, PARALLELISM)
            && m.moves + m.copies == old(m.moves + m.copies) + |moved|
            && (opts.copy ==> m.moves == old(m.moves))
            && (!opts.copy ==> m.copies == old(m.copies))
            && m.errors == old(m.errors) + CountWhere(moved, Fails(opts, succeeds))
            && ops == RunOps(moved, opts, succeeds)
            && lines == RunLines(moved, opts)
            && m.typeCounts == AddCounts(old(m.typeCounts), s.tasks)
  {
    var tasks, failure := FindFiles(m, walk, FindStep(src, destMap, env));
    ops, lines, outcome, batches := MoveBatches(m, tasks, failure, opts, succeeds);
  }

  /**
    The batching loop of `move_files` over what the generator yields:
    `tasks`, then the error `failure` if it raises.
  */
  method MoveBatches(m: Metrics, tasks: seq<Task>, failure: Option<PathError>, opts: Options, succeeds: FsOp -> bool)
    returns (ops: seq<FsOp>, lines: seq<Line>, outcome: Outcome, ghost batches: seq<seq<Task>>)
    modifies m
    ensures var moved := Moved(tasks, failure);
            && outcome == (if failure.Some? then Crashed(failure.value) else Completed)
            && batches == ScriptLib.Slices(moved, PARALLELISM)
            && m.moves + m.copies == old(m.moves + m.copies) + |moved|
            && (opts.copy ==> m.moves == old(m.moves))
            && (!opts.copy ==> m.copies == old(m.copies))
            && m.errors == old(m.errors) + CountWhere(moved, Fails(opts, succeeds))
            && ops == RunOps(moved, opts, succeeds)
            && lines == RunLines(moved, opts)
            && m.typeCounts == old(m.typeCounts)
  {
    ghost var start := Counters(m.moves, m.copies, m.errors, m.typeCounts);
    ops, lines, batches := [], [], [];
    var i := 0;
    while true
      invariant 0 <= i <= |tasks|
      invariant Observed(m, batches, ops, lines) == Expected(start, tasks, i, opts, succeeds)
      invariant i == |batches| * PARALLELISM || (i == |tasks| && failure.None?)
      decreases |tasks| - i
    {
      var n := if |tasks| - i >= PARALLELISM then PARALLELISM else |tasks| - i;
      if n < PARALLELISM && failure.Some? {
        MovedAfter(tasks, failure, |batches|);
        outcome := Crashed(failure.value);
        return;
      }
      var chunk := tasks[i..i + n];
      if |chunk| == 0 {
        AllOf(tasks, tasks[..i]);
        outcome := Completed;
        return;
      }
      ops, lines, batches := NextMoves(m, start, tasks, i, n, batches, ops, lines, opts, succeeds);
      i := i + n;
    }
  }

  /** The counters of a `Metrics` object at one moment. */
  datatype Counters = Counters(moves: nat, copies: nat, errors: nat, typeCounts: map<string, nat>)

  /** The counters together with the batches, calls and lines of the moving loop. */
  datatype Moving = Moving(counters: Counters, batches: seq<seq<Task>>, ops: seq<FsOp>, lines: seq<Line>)

  function Observed(m: Metrics, batches: seq<seq<Task>>, ops: seq<FsOp>, lines: seq<Line>): Moving
    reads m
  {
    Moving(Counters(m.moves, m.copies, m.errors, m.typeCounts), batches, ops, lines)
  }

  /**
    What the loop holds after moving the first `i` pairs from the counters
    `start`: their batches, calls and lines, one move (or one copy) each,
    one more error per failed call, and the category counts untouched.
  */
  function Expected(start: Counters, tasks: seq<Task>, i: int, opts: Options, succeeds: FsOp -> bool): Moving
    requires 0 <= i <= |tasks|
  {
    var done := tasks[..i];
    Moving(Counters(if opts.copy then start.moves else start.moves + i,
                    if opts.copy then start.copies + i else start.copies,
                    start.errors + CountWhere(done, Fails(opts, succeeds)),
                    start.typeCounts),
           ScriptLib.Slices(done, PARALLELISM), RunOps(done, opts, succeeds), RunLines(done, opts))
  }

  /** The batch of the `n` pairs after the first `i`: the loop state moves on from `i` to `i + n` pairs. */
  method NextMoves(m: Metrics, ghost start: Counters, tasks: seq<Task>, i: nat, n: nat, ghost batches0: seq<seq<Task>>,
                   ops0: seq<FsOp>, lines0: seq<Line>, opts: Options, succeeds: FsOp -> bool)
    returns (ops: seq<FsOp>, lines: seq<Line>, ghost batches: seq<seq<Task>>)
    requires i + n <= |tasks| && 0 < n <= PARALLELISM && i == |batches0| * PARALLELISM
    requires Observed(m, batches0, ops0, lines0) == Expected(start, tasks, i, opts, succeeds)
    modifies m
    ensures |batches| == |batches0| + 1
    ensures Observed(m, batches, ops, lines) == Expected(start, tasks, i + n, opts, succeeds)
  {
    var done, chunk := tasks[..i], tasks[i..i + n];
    var more, printed := MoveBatch(m, done, chunk, opts, succeeds);
    NextBatch(tasks, i, n, done, chunk, batches0, opts, succeeds, ops0, more, lines0, printed);
    ops, lines, batches := ops0 + more, lines0 + printed, batches0 + [chunk];
  }

  lemma AllOf(tasks: seq<Task>, done: seq<Task>)
    requires done == tasks[..|tasks|]
    ensures done == tasks
  {
  }

  /** What one more batch of `n` pairs does to the moved prefix, its batches, calls, lines and failures. */
  lemma NextBatch(tasks: seq<Task>, i: nat, n: nat, done: seq<Task>, chunk: seq<Task>,
                  batches: seq<seq<Task>>, opts: Options, succeeds: FsOp -> bool,
                  ops: seq<FsOp>, more: seq<FsOp>, lines: seq<Line>, printed: seq<Line>)
    requires i + n <= |tasks| && 0 < n <= PARALLELISM && i == |batches| * PARALLELISM
    requires done == tasks[..i] && chunk == tasks[i..i + n] && batches == ScriptLib.Slices(done, PARALLELISM)
    requires ops == RunOps(done, opts, succeeds) && RunOps(done + chunk, opts, succeeds) == ops + more
    requires lines == RunLines(done, opts) && RunLines(done + chunk, opts) == lines + printed
    ensures ScriptLib.Slices(tasks[..i + n], PARALLELISM) == batches + [chunk]
    ensures CountWhere(tasks[..i + n], Fails(opts, succeeds))
            == CountWhere(done, Fails(opts, succeeds)) + CountWhere(chunk, Fails(opts, succeeds))
    ensures RunOps(tasks[..i + n], opts, succeeds) == ops + more
    ensures RunLines(tasks[..i + n], opts) == lines + printed
  {
    SliceJoin(tasks, i, i + n, done, chunk);
    ScriptLib.SlicesAppend(done, chunk, PARALLELISM, |batches|);
    CountWhereConcat(done, chunk, Fails(opts, succeeds));
  }

  /** After an error, the moved pairs are the first `b` whole batches when fewer than a batch remain. */
  lemma MovedAfter(tasks: seq<Task>, failure: Option<PathError>, b: nat)
    requires failure.Some? && b * PARALLELISM <= |tasks| < b * PARALLELISM + PARALLELISM
    ensures Moved(tasks, failure) == tasks[..b * PARALLELISM]
  {
    assert |tasks| / PARALLELISM == b;
  }

  // ---------------------------------------------------------------- parse_destinations

  /** Why the program exits before moving anything. */
  datatype DestError =
    | Malformed(entry: string)      // no "=" in a specifier
    | Required(what: string)        // an empty directory
    | NotADirectory(what: string, path: Path)

  /** `valid_dir_or_quit`: a non-empty path that resolves to a directory. */
  function ValidDir(path: string, what: string, resolveDir: string -> Path, isDir: Path -> bool): (r: Result<Path, DestError>)
    ensures r.Success? <==> path != [] && isDir(resolveDir(path))
    ensures r.Success? ==> r.value == resolveDir(path)
    ensures path == [] ==> r == Failure(Required(what))
  {
    if path == [] then Failure(Required(what))
    else
      var p := resolveDir(path);
      if !isDir(p) then Failure(NotADirectory(what, p)) else Success(p)
  }

  /** One `TYPE=DIR` specifier: the lower-cased, stripped type and its directory. */
  function ParseEntry(entry: string, resolveDir: string -> Path, isDir: Path -> bool): Result<(string, Path), DestError>
  {
    match SplitOnce(entry, '=')
    case None => Failure(Malformed(entry))
    case Some(parts) =>
      var name := Strip(parts.0);
      var dir := ValidDir(Strip(parts.1), "Destination dir for " + name, resolveDir, isDir);
      if dir.Failure? then Failure(dir.error) else Success((Lower(name), dir.value))
  }

  /**
    A specifier without `=` is malformed; a good one splits at its first `=`
    into a type, stripped and lower-cased, and a directory, stripped and valid.
  */
  lemma ParseEntrySpec(entry: string, resolveDir: string -> Path, isDir: Path -> bool)
    ensures '=' !in entry ==> ParseEntry(entry, resolveDir, isDir) == Failure(Malformed(entry))
    ensures var r := ParseEntry(entry, resolveDir, isDir);
            r.Success? ==>
              exists a, b :: && entry == a + "=" + b && '=' !in a && r.value.0 == Lower(Strip(a))
                             && ValidDir(Strip(b), "Destination dir for " + Strip(a), resolveDir, isDir) == Success(r.value.1)
  {
    if '=' in entry {
      var parts := SplitOnce(entry, '=').value;
      assert entry == parts.0 + "=" + parts.1;
    }
  }

  /** How one specifier is read: `ParseEntry`, with the directory checks fixed. */
  type Parser = string -> Result<(string, Path), DestError>

  function EntryParser(resolveDir: string -> Path, isDir: Path -> bool): Parser
  {
    (e: string) => ParseEntry(e, resolveDir, isDir)
  }

  /** The type a good specifier names. */
  function EntryKey(entry: string, parse: Parser): Option<string>
  {
    match parse(entry)
    case Success(kv) => Some(kv.0)
    case Failure(_) => None
  }

  /** The destinations after the specifiers `entries`, in order; the first bad one ends the parse. */
  function Destinations(entries: seq<string>, parse: Parser): Result<map<string, Path>, DestError>
    decreases |entries|
  {
    if entries == [] then Success(map[])
    else match Destinations(entries[..|entries| - 1], parse)
      case Failure(e) => Failure(e)
      case Success(d) =>
        match parse(entries[|entries| - 1])
        case Failure(e) => Failure(e)
        case Success(kv) => Success(d[kv.0 := kv.1])
  }

  /** A failed parse of a prefix is the failure of the whole parse. */
  lemma {:induction false} DestinationsAfterFailure(entries: seq<string>, k: nat, parse: Parser)
    requires k <= |entries|
    requires Destinations(entries[..k], parse).Failure?
    ensures Destinations(entries, parse) == Destinations(entries[..k], parse)
    decreases |entries| - k
  {
    if k < |entries| {
      assert entries[..k + 1][..k] == entries[..k];
      DestinationsAfterFailure(entries, k + 1, parse);
    } else {
      assert entries[..k] == entries;
    }
  }

  /** `parse_destinations`: fills the map entry by entry, stopping at the first bad one. */
  method ParseDestinations(entries: seq<string>, resolveDir: string -> Path, isDir: Path -> bool)
    returns (r: Result<map<string, Path>, DestError>)
    ensures r == Destinations(entries, EntryParser(resolveDir, isDir))
  {
    ghost var parse := EntryParser(resolveDir, isDir);
    var destinations: map<string, Path> := map[];
    var i := 0;
    while i < |entries|
      invariant 0 <= i <= |entries|
      invariant Destinations(entries[..i], parse) == Success(destinations)
    {
      assert entries[..i + 1][..i] == entries[..i];
      var kv := ParseEntry(entries[i], resolveDir, isDir);
      assert parse(entries[i]) == kv;
      if kv.Failure? {
        DestinationsAfterFailure(entries, i + 1, parse);
        return Failure(kv.error);
      }
      destinations := destinations[kv.value.0 := kv.value.1];
      i := i + 1;
    }
    assert entries[..i] == entries;
    r := Success(destinations);
  }

  /** The parse succeeds exactly when every specifier is good. */
  lemma {:induction false} DestinationsSucceeds(entries: seq<string>, parse: Parser)
    ensures Destinations(entries, parse).Success? <==> forall i :: 0 <= i < |entries| ==> parse(entries[i]).Success?
    decreases |entries|
  {
    if entries != [] {
      var init := entries[..|entries| - 1];
      DestinationsSucceeds(init, parse);
      assert forall i :: 0 <= i < |init| ==> init[i] == entries[i];
    }
  }

  /** When specifier `i` is the first bad one, the parse fails with its error. */
  lemma DestinationsFirstFailure(entries: seq<string>, parse: Parser, i: nat)
    requires i < |entries| && parse(entries[i]).Failure?
    requires forall j :: 0 <= j < i ==> parse(entries[j]).Success?
    ensures Destinations(entries, parse) == Failure(parse(entries[i]).error)
  {
    var pre := entries[..i];
    assert forall j :: 0 <= j < |pre| ==> pre[j] == entries[j];
    DestinationsSucceeds(pre, parse);
    assert entries[..i + 1][..i] == pre;
    DestinationsAfterFailure(entries, i + 1, parse);
  }

  /** No specifier after the `i`-th names the same type. */
  predicate LastOfItsType(entries: seq<string>, i: nat, parse: Parser)
    requires i < |entries|
  {
    forall j :: i < j < |entries| ==> EntryKey(entries[j], parse) != EntryKey(entries[i], parse)
  }

  /**
    A successful parse maps the type of each specifier that no later one
    names to that specifier's directory: the LAST specifier of a type wins.
  */
  lemma {:induction false} DestinationsLastWins(entries: seq<string>, parse: Parser, i: nat)
    requires Destinations(entries, parse).Success?
    requires i < |entries| && LastOfItsType(entries, i, parse)
    ensures parse(entries[i]).Success?
    ensures var kv := parse(entries[i]).value;
            kv.0 in Destinations(entries, parse).value && Destinations(entries, parse).value[kv.0] == kv.1
    decreases |entries|
  {
    DestinationsSucceeds(entries, parse);
    var n := |entries| - 1;
    var init := entries[..n];
    assert Destinations(init, parse).Success?;
    if i < n {
      assert EntryKey(entries[n], parse) != EntryKey(entries[i], parse);
      assert init[i] == entries[i];
      forall j | i < j < |init| ensures EntryKey(init[j], parse) != EntryKey(init[i], parse) {
        assert init[j] == entries[j];
      }
      DestinationsLastWins(init, parse, i);
    }
  }

  /** A successful parse has exactly the types the specifiers name. */
  lemma {:induction false} DestinationsKeys(entries: seq<string>, parse: Parser, k: string)
    requires Destinations(entries, parse).Success?
    ensures k in Destinations(entries, parse).value <==>
              exists i :: 0 <= i < |entries| && EntryKey(entries[i], parse) == Some(k)
    decreases |entries|
  {
    if entries != [] {
      DestinationsSucceeds(entries, parse);
      var n := |entries| - 1;
      var init := entries[..n];
      assert Destinations(init, parse).Success?;
      DestinationsKeys(init, parse, k);
      if exists i :: 0 <= i < |init| && EntryKey(init[i], parse) == Some(k) {
        var i :| 0 <= i < |init| && EntryKey(init[i], parse) == Some(k);
        assert init[i] == entries[i];
      }
      if exists i :: 0 <= i < |entries| && EntryKey(entries[i], parse) == Some(k) {
        var i :| 0 <= i < |entries| && EntryKey(entries[i], parse) == Some(k);
        if i < n {
          assert init[i] == entries[i];
        }
      }
    }
  }

  /** A specifier whose first `=` is at `k`. */
  lemma ParseEntryAt(entry: string, k: nat, resolveDir: string -> Path, isDir: Path -> bool, name: string, dir: string)
    requires k < |entry| && entry[k] == '=' && '=' !in entry[..k]
    requires Strip(entry[..k]) == name && Strip(entry[k + 1..]) == dir
    requires dir != [] && isDir(resolveDir(dir))
    ensures ParseEntry(entry, resolveDir, isDir) == Success((Lower(name), resolveDir(dir)))
  {
    IndexOfAt(entry, '=', k);
  }

  /** Parsing `image = /tmp/x`: both sides are stripped. */
  lemma ParseEntryExample(resolveDir: string -> Path, isDir: Path -> bool)
    requires isDir(resolveDir("/tmp/x"))
    ensures ParseEntry("image = /tmp/x", resolveDir, isDir) == Success(("image", resolveDir("/tmp/x")))
  {
    PaddedParts();
    ParseEntryAt("image = /tmp/x", 6, resolveDir, isDir, "image", "/tmp/x");
    LowerImage();
  }

  lemma PaddedParts()
    ensures var e := "image = /tmp/x";
            && 6 < |e| && e[6] == '=' && '=' !in e[..6]
            && Strip(e[..6]) == "image" && Strip(e[7..]) == "/tmp/x"
  {
    var e := "image = /tmp/x";
    assert e[..6] == "image " && e[7..] == " /tmp/x";
    StripPadded("image ", "image", 0, 1);
    StripPadded(" /tmp/x", "/tmp/x", 1, 0);
  }

  /** Parsing `IMAGE=/tmp/y`: the type is lower-cased. */
  lemma ParseEntryUpperExample(resolveDir: string -> Path, isDir: Path -> bool)
    requires isDir(resolveDir("/tmp/y"))
    ensures ParseEntry("IMAGE=/tmp/y", resolveDir, isDir) == Success(("image", resolveDir("/tmp/y")))
  {
    UnpaddedParts();
    ParseEntryAt("IMAGE=/tmp/y", 5, resolveDir, isDir, "IMAGE", "/tmp/y");
    LowerUpperImage();
  }

  lemma UnpaddedParts()
    ensures var e := "IMAGE=/tmp/y";
            && 5 < |e| && e[5] == '=' && '=' !in e[..5]
            && Strip(e[..5]) == "IMAGE" && Strip(e[6..]) == "/tmp/y"
  {
    var e := "IMAGE=/tmp/y";
    assert e[..5] == "IMAGE" && e[6..] == "/tmp/y";
    StripPadded("IMAGE", "IMAGE", 0, 0);
    StripPadded("/tmp/y", "/tmp/y", 0, 0);
  }

  /** A later `IMAGE=...` replaces an earlier `image = ...`. */
  lemma DestinationsExample(resolveDir: string -> Path, isDir: Path -> bool)
    requires isDir(resolveDir("/tmp/x")) && isDir(resolveDir("/tmp/y"))
    ensures Destinations(["image = /tmp/x", "IMAGE=/tmp/y"], EntryParser(resolveDir, isDir))
            == Success(map["image" := resolveDir("/tmp/y")])
  {
    var parse := EntryParser(resolveDir, isDir);
    ParseEntryExample(resolveDir, isDir);
    ParseEntryUpperExample(resolveDir, isDir);
    TwoEntries("image = /tmp/x", "IMAGE=/tmp/y", parse, "image", resolveDir("/tmp/x"), resolveDir("/tmp/y"));
  }

  /** A specifier without `=` is refused. */
  lemma DestinationsMalformedExample(resolveDir: string -> Path, isDir: Path -> bool)
    ensures Destinations(["image"], EntryParser(resolveDir, isDir)) == Failure(Malformed("image"))
  {
    ParseEntrySpec("image", resolveDir, isDir);
    assert ["image"][..0] == [];
  }

  /** Two good specifiers of the same type: the second one's directory wins. */
  lemma TwoEntries(e0: string, e1: string, parse: Parser, k: string, p0: Path, p1: Path)
    requires parse(e0) == Success((k, p0)) && parse(e1) == Success((k, p1))
    ensures Destinations([e0, e1], parse) == Success(map[k := p1])
  {
    assert [e0][..0] == [];
    assert Destinations([e0], parse) == Success(map[k := p0]);
    assert [e0, e1][..1] == [e0] && [e0, e1][1] == e1;
    assert map[k := p0][k := p1] == map[k := p1];
  }

  // ---------------------------------------------------------------- download_mt

  /** One `<mime>` element of ImageMagick's mime.xml: its attributes. */
  datatype MimeElement = MimeElement(attrs: map<string, string>)

  /** What the pattern rule makes of one element. */
  datatype MimeRule = Skip | Write(typ: string, pattern: string) | MissingType

  /** The pattern rule: a `*.` glob loses every `*.`, other globs are ignored, plain names are kept. */
  function RuleFor(el: MimeElement): MimeRule
  {
    if "pattern" !in el.attrs then Skip
    else if "type" !in el.attrs then MissingType
    else
      var p := el.attrs["pattern"];
      if StartsWith(p, "*.") then Write(el.attrs["type"], ReplaceAll(p, "*.", ""))
      else if '[' in p || '*' in p then Skip
      else Write(el.attrs["type"], p)
  }

  /**
    Elements without a pattern are skipped; a pattern without a type is an
    error; a `*.` glob is written with every `*.` removed; any other pattern
    is written as it is unless it holds `[` or `*`, and then it is skipped.
  */
  lemma RuleForSpec(el: MimeElement)
    ensures "pattern" !in el.attrs ==> RuleFor(el) == Skip
    ensures "pattern" in el.attrs && "type" !in el.attrs ==> RuleFor(el) == MissingType
    ensures var r := RuleFor(el);
            r.Write? ==> "pattern" in el.attrs && "type" in el.attrs && r.typ == el.attrs["type"]
    ensures var r := RuleFor(el);
            r.Write? && StartsWith(el.attrs["pattern"], "*.") ==> r.pattern == ReplaceAll(el.attrs["pattern"], "*.", "")
    ensures var r := RuleFor(el);
            r.Write? && !StartsWith(el.attrs["pattern"], "*.") ==>
              r.pattern == el.attrs["pattern"] && '[' !in r.pattern && '*' !in r.pattern
    ensures "pattern" in el.attrs && "type" in el.attrs && !StartsWith(el.attrs["pattern"], "*.") ==>
              (RuleFor(el) == Skip <==> '[' in el.attrs["pattern"] || '*' in el.attrs["pattern"])
  {
  }

  /** The `(type, pattern)` lines written for `els`, and whether a missing "type" aborted the loop. */
  function MimeLines(els: seq<MimeElement>): (r: (seq<(string, string)>, bool))
    decreases |els|
  {
    if els == [] then ([], false)
    else match RuleFor(els[0])
      case Skip => MimeLines(els[1..])
      case MissingType => ([], true)
      case Write(t, p) => var rest := MimeLines(els[1..]); ([(t, p)] + rest.0, rest.1)
  }

  /** How `download_mt` ends. */
  datatype MimeOutcome =
    | Refused                                         // mime.types is already there
    | DownloadFailed                                  // the request or the XML parse failed
    | Generated(lines: seq<(string, string)>, count: nat)
    | Aborted(written: seq<(string, string)>)         // a KeyError after some lines were written

  /**
    The loop of `download_mt` over the downloaded elements (`None` when the
    download or the parse failed); every written line is `type\t\tpattern`.
  */
  method DownloadMt(alreadyThere: bool, elements: Option<seq<MimeElement>>) returns (outcome: MimeOutcome)
    ensures alreadyThere ==> outcome == Refused
    ensures !alreadyThere && elements.None? ==> outcome == DownloadFailed
    ensures !alreadyThere && elements.Some? ==>
              var r := MimeLines(elements.value);
              outcome == if r.1 then Aborted(r.0) else Generated(r.0, |r.0|)
  {
    if alreadyThere {
      return Refused;
    }
    if elements.None? {
      return DownloadFailed;
    }
    var els := elements.value;
    var lines: seq<(string, string)> := [];
    var count := 0;
    var i := 0;
    assert els[0..] == els;
    assert lines + MimeLines(els[0..]).0 == MimeLines(els).0;
    while i < |els|
      invariant 0 <= i <= |els|
      invariant count == |lines|
      invariant MimeLines(els).0 == lines + MimeLines(els[i..]).0
      invariant MimeLines(els).1 == MimeLines(els[i..]).1
    {
      MimeLinesAt(els, i);
      var attribs := els[i].attrs;
      if "pattern" in attribs {
        if "type" !in attribs {
          return Aborted(lines);
        }
        var typen := attribs["type"];
        var patn := attribs["pattern"];
        if StartsWith(patn, "*.") {
          patn := ReplaceAll(patn, "*.", "");
        } else if '[' in patn || '*' in patn {
          i := i + 1;
          continue;
        }
        lines := lines + [(typen, patn)];
        count := count + 1;
      }
      i := i + 1;
    }
    assert els[i..] == [];
    return Generated(lines, count);
  }

  /** `MimeLines` from position `i`, one element at a time. */
  lemma MimeLinesAt(els: seq<MimeElement>, i: int)
    requires 0 <= i < |els|
    ensures var rest := MimeLines(els[i + 1..]);
            MimeLines(els[i..]) == match RuleFor(els[i])
              case Skip => rest
              case MissingType => ([], true)
              case Write(t, p) => ([(t, p)] + rest.0, rest.1)
  {
    assert els[i..][0] == els[i] && els[i..][1..] == els[i + 1..];
  }

  predicate IsWritten(el: MimeElement) { RuleFor(el).Write? }

  /**
    Without a missing "type", one line is written per element the rule keeps,
    in document order; elements without a pattern write nothing.
  */
  lemma {:induction false} MimeLinesKept(els: seq<MimeElement>)
    requires forall i :: 0 <= i < |els| ==> RuleFor(els[i]) != MissingType
    ensures !MimeLines(els).1
    ensures |MimeLines(els).0| == |Filter(els, IsWritten)| == CountWhere(els, IsWritten)
    ensures forall i :: 0 <= i < |MimeLines(els).0| ==>
              var w := RuleFor(Filter(els, IsWritten)[i]); MimeLines(els).0[i] == (w.typ, w.pattern)
    decreases |els|
  {
    if els != [] {
      assert forall i :: 0 <= i < |els[1..]| ==> RuleFor(els[1..][i]) != MissingType by {
        forall i | 0 <= i < |els[1..]| ensures RuleFor(els[1..][i]) != MissingType {
          assert els[1..][i] == els[i + 1];
        }
      }
      var w := RuleFor(els[0]);
      assert w != MissingType;
      var rest, kept := MimeLines(els[1..]), Filter(els[1..], IsWritten);
      MimeLinesKept(els[1..]);
      FilterLength(els, IsWritten);
      if w.Skip? {
        assert MimeLines(els) == rest;
        assert Filter(els, IsWritten) == kept;
      } else {
        var lines := MimeLines(els).0;
        assert lines == [(w.typ, w.pattern)] + rest.0;
        assert Filter(els, IsWritten) == [els[0]] + kept;
        forall i | 0 <= i < |lines|
          ensures var v := RuleFor(Filter(els, IsWritten)[i]); lines[i] == (v.typ, v.pattern)
        {
          if i > 0 {
            assert lines[i] == rest.0[i - 1];
            assert Filter(els, IsWritten)[i] == kept[i - 1];
          }
        }
      }
    }
  }

  /** A `*.` glob that holds no other `*.` becomes the bare extension. */
  lemma MimeRuleExample()
    ensures RuleFor(MimeElement(map["type" := "image/jpeg", "pattern" := "*.jpg"])) == Write("image/jpeg", "jpg")
  {
    var m := map["type" := "image/jpeg", "pattern" := "*.jpg"];
    assert "pattern" in m && m["pattern"] == "*.jpg" && "type" in m && m["type"] == "image/jpeg";
    StripGlobJpg();
  }

  lemma StripGlobJpg()
    ensures StartsWith("*.jpg", "*.") && ReplaceAll("*.jpg", "*.", "") == "jpg"
  {
    var p := "*.jpg";
    assert p[..2] == "*.";
    assert p[2..] == "jpg";
    assert !OccursAt("jpg", "*.", 0) && !OccursAt("jpg", "*.", 1);
    ReplaceAllAbsent("jpg", "*.", "");
  }

  /** A character-class pattern is ignored. */
  lemma MimeRuleGlobExample()
    ensures RuleFor(MimeElement(map["type" := "image/x-foo", "pattern" := "foo[0-9]"])) == Skip
  {
    var m := map["type" := "image/x-foo", "pattern" := "foo[0-9]"];
    assert "pattern" in m && m["pattern"] == "foo[0-9]" && "type" in m;
    var q := "foo[0-9]";
    assert q[3] == '[';
    assert q[..2][0] == 'f';
    assert !StartsWith(q, "*.");
  }

  /** An element without a pattern writes nothing. */
  lemma MimeRuleNoPatternExample()
    ensures RuleFor(MimeElement(map["type" := "text/plain"])) == Skip
  {
    var m := map["type" := "text/plain"];
    assert "pattern" !in m;
  }

  // ---------------------------------------------------------------- main

  /** The level `main` chooses: WARNING, INFO with `--verbose`, DEBUG with `--debug`. */
  function MainLevel(verbose: bool, debug: bool): (level: int)
    ensures debug ==> level == ScriptLib.DEBUG
    ensures !debug && verbose ==> level == ScriptLib.INFO
    ensures !debug && !verbose ==> level == ScriptLib.WARNING
  {
    if debug then ScriptLib.DEBUG else if verbose then ScriptLib.INFO else ScriptLib.WARNING
  }

  /** Outside a dry run the action lines appear exactly with `--verbose` and without `--debug`. */
  lemma PrintsIffVerbose(copy: bool, verbose: bool, debug: bool)
    ensures Prints(Options(copy, false, MainLevel(verbose, debug))) <==> verbose && !debug
  {
  }
}
