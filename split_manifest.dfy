/**
  `split_manifest.py`: splits a multi-document YAML manifest into one file
  per document, named after the document's kind and name, in an output
  directory that may first be emptied.

  YAML parsing is left out: a document is a record of what the script reads
  from it. The output directory is an object whose `files` map each file
  name to the document written there, and its `subdirs` are the
  sub-directories it holds, which `os.remove` cannot delete; `os.listdir`,
  `os.path.exists` and `os.path.isdir` are parameters.
*/
module SplitManifest {
  import opened Wrappers
  import opened Strings
  import opened PySeq

  // ---------------------------------------------------------------- documents

  /** A YAML value read where the script expects a string: a string, or anything else with its truthiness. */
  datatype Value = Text(s: string) | NonText(truthy: bool)

  /**
    One document of `yaml.safe_load_all`: an empty document, a mapping (its
    size, its `kind` value if present, and `metadata.name` if both keys are
    present), or any other value with its truthiness.
  */
  datatype Doc = NullDoc | Mapping(size: nat, kind: Option<Value>, name: Option<Value>) | Other(truthy: bool)

  predicate Truthy(v: Value) {
    match v
    case Text(s) => s != ""
    case NonText(t) => t
  }

  /** What the loop does with one document. */
  datatype Action = Skip | WriteTo(file: string) | Abort

  /** `f"{kind.lower()}-{name.lower()}.yaml"`. */
  function FileName(kind: string, name: string): string {
    Lower(kind) + "-" + Lower(name) + ".yaml"
  }

  /**
    The body of the document loop: a falsy document, or one whose `kind` is
    missing or falsy, is skipped; a truthy non-mapping (no `.get`), a
    missing `metadata` or `name` (`KeyError`) or a non-string kind or name
    (no `.lower()`) raises an exception the `except IndexError` does not
    catch, which ends the run; otherwise the document is written.
  */
  function ActionFor(doc: Doc): (r: Action)
    ensures r.WriteTo? <==> doc.Mapping? && 0 < doc.size && doc.kind.Some? && doc.kind.value.Text? && doc.kind.value.s != ""
                            && doc.name.Some? && doc.name.value.Text?
    ensures r.WriteTo? ==> r.file == FileName(doc.kind.value.s, doc.name.value.s)
    ensures r.Skip? <==> doc.NullDoc? || (doc.Other? && !doc.truthy)
                         || (doc.Mapping? && (doc.size == 0 || doc.kind.None? || !Truthy(doc.kind.value)))
  {
    match doc
    case NullDoc => Skip
    case Other(t) => if t then Abort else Skip
    case Mapping(size, kind, name) =>
      if size == 0 || kind.None? || !Truthy(kind.value) then Skip
      else if kind.value.Text? && name.Some? && name.value.Text? then WriteTo(FileName(kind.value.s, name.value.s))
      else Abort
  }

  /** The output name is lower-case and ends in ".yaml"; kinds and names differing only in case share a file. */
  lemma FileNameSpec(kind: string, name: string, kind2: string, name2: string)
    ensures Lower(FileName(kind, name)) == FileName(kind, name)
    ensures EndsWith(FileName(kind, name), ".yaml")
    ensures Lower(kind) == Lower(kind2) && Lower(name) == Lower(name2) ==> FileName(kind, name) == FileName(kind2, name2)
  {
    var f := FileName(kind, name);
    LowerConcat(Lower(kind) + "-" + Lower(name), ".yaml");
    LowerConcat(Lower(kind) + "-", Lower(name));
    LowerConcat(Lower(kind), "-");
    LowerIdempotent(kind);
    LowerIdempotent(name);
    assert Lower("-") == "-";
    assert Lower(".yaml") == ".yaml" by {
      assert LowerChar('.') == '.' && LowerChar('y') == 'y' && LowerChar('a') == 'a';
      assert LowerChar('m') == 'm' && LowerChar('l') == 'l';
    }
    assert f[|f| - 5..] == ".yaml";
  }

  // ---------------------------------------------------------------- the run

  /** The directory after a prefix of the documents, and where the run stopped if an exception ended it. */
  datatype RunState = RunState(files: map<string, Doc>, abortedAt: Option<nat>)

  /** The document loop over `docs`, starting from the directory `start`. */
  function Run(start: map<string, Doc>, docs: seq<Doc>): (r: RunState)
    ensures r.abortedAt.Some? ==> r.abortedAt.value < |docs|
    decreases |docs|
  {
    if docs == [] then RunState(start, None)
    else
      var prev := Run(start, docs[..|docs| - 1]);
      if prev.abortedAt.Some? then prev
      else
        match ActionFor(docs[|docs| - 1])
        case Skip => prev
        case WriteTo(f) => RunState(prev.files[f := docs[|docs| - 1]], None)
        case Abort => RunState(prev.files, Some(|docs| - 1))
  }

  /** Once a run has stopped, later documents change nothing. */
  lemma {:induction false} RunStays(start: map<string, Doc>, docs: seq<Doc>, n: nat)
    requires n <= |docs| && Run(start, docs[..n]).abortedAt.Some?
    ensures Run(start, docs) == Run(start, docs[..n])
    decreases |docs|
  {
    if n < |docs| {
      assert docs[..|docs| - 1][..n] == docs[..n];
      RunStays(start, docs[..|docs| - 1], n);
    } else {
      assert docs[..n] == docs;
    }
  }

  /** A run stops at the first document that raises, with the files written before it. */
  lemma {:induction false} RunAbortsAt(start: map<string, Doc>, docs: seq<Doc>, i: nat)
    requires i < |docs| && ActionFor(docs[i]).Abort?
    requires forall j :: 0 <= j < i ==> !ActionFor(docs[j]).Abort?
    ensures Run(start, docs).abortedAt == Some(i)
    ensures Run(start, docs).files == Run(start, docs[..i]).files
  {
    NoAbortBefore(start, docs[..i]);
    assert docs[..i + 1][..i] == docs[..i];
    RunStays(start, docs, i + 1);
  }

  /** Without a raising document the run goes to the end. */
  lemma {:induction false} NoAbortBefore(start: map<string, Doc>, docs: seq<Doc>)
    requires forall j :: 0 <= j < |docs| ==> !ActionFor(docs[j]).Abort?
    ensures Run(start, docs).abortedAt.None?
    decreases |docs|
  {
    if docs != [] { NoAbortBefore(start, docs[..|docs| - 1]); }
  }

  /** Every file of the result was there at the start or is named after a written document. */
  lemma {:induction false} RunFileOrigin(start: map<string, Doc>, docs: seq<Doc>, f: string)
    requires f in Run(start, docs).files
    ensures f in start || exists j :: 0 <= j < |docs| && ActionFor(docs[j]) == WriteTo(f)
    decreases |docs|
  {
    if docs != [] {
      var init := docs[..|docs| - 1];
      var prev := Run(start, init);
      if f in prev.files {
        RunFileOrigin(start, init, f);
        if !(f in start) {
          var j :| 0 <= j < |init| && ActionFor(init[j]) == WriteTo(f);
          assert docs[j] == init[j];
        }
      }
    }
  }

  /** A file no document writes keeps its old content. */
  lemma {:induction false} RunKeepsUnwritten(start: map<string, Doc>, docs: seq<Doc>, f: string)
    requires f in start
    requires forall j :: 0 <= j < |docs| ==> ActionFor(docs[j]) != WriteTo(f)
    ensures f in Run(start, docs).files && Run(start, docs).files[f] == start[f]
    decreases |docs|
  {
    if docs != [] { RunKeepsUnwritten(start, docs[..|docs| - 1], f); }
  }

  /**
    Last write wins: when the run gets past document `i`, the file it
    writes holds it unless a later document writes the same file.
  */
  lemma {:induction false} LastWriteWins(start: map<string, Doc>, docs: seq<Doc>, i: nat, f: string)
    requires i < |docs| && ActionFor(docs[i]) == WriteTo(f)
    requires forall j :: 0 <= j < i ==> !ActionFor(docs[j]).Abort?
    requires forall j :: i < j < |docs| ==> ActionFor(docs[j]) != WriteTo(f)
    ensures f in Run(start, docs).files && Run(start, docs).files[f] == docs[i]
    decreases |docs|
  {
    if i < |docs| - 1 {
      var init := docs[..|docs| - 1];
      assert init[i] == docs[i];
      LastWriteWins(start, init, i, f);
    } else {
      NoAbortBefore(start, docs[..i]);
    }
  }

  // ---------------------------------------------------------------- the output directory

  /** Membership in `names`, as a predicate a search can take. */
  function InSet(names: set<string>): string -> bool {
    f => f in names
  }

  /**
    The output directory: each file name with the document dumped into
    it, and the names of its subdirectories, which the script never
    creates or removes.
  */
  class OutputDir {
    var files: map<string, Doc>
    const subdirs: set<string>

    constructor (initial: map<string, Doc>, dirs: set<string>)
      ensures files == initial && subdirs == dirs
    {
      files := initial;
      subdirs := dirs;
    }

    /** `os.remove(os.path.join(dir, f))` on a file. */
    method Remove(f: string)
      modifies this
      ensures files == old(files) - {f}
    {
      files := files - {f};
    }

    /** `open(path, "w")` and `yaml.dump(doc, f)`: the file is created or overwritten. */
    method Write(f: string, doc: Doc)
      modifies this
      ensures files == old(files)[f := doc]
    {
      files := files[f := doc];
    }

    /**
      The clean step: removes the entries `os.listdir` lists (every file and
      subdirectory, each once) in listing order. `os.remove` refuses a
      directory and the error ends the script, so removal goes as far as the
      first subdirectory, which is returned; with none, the directory is
      left empty.
    */
    method Clean(listing: seq<string>) returns (failed: Option<string>)
      requires forall f :: f in listing <==> f in files || f in subdirs
      requires files.Keys !! subdirs
      modifies this
      ensures var k := FirstWhere(listing, InSet(subdirs));
              && (failed.Some? <==> k < |listing|)
              && (failed.Some? ==> failed.value == listing[k] && failed.value in subdirs)
              && (forall f :: f in files <==> f in old(files) && f !in listing[..k])
              && (forall f :: f in files ==> files[f] == old(files)[f])
      ensures failed.None? ==> files == map[]
    {
      ghost var k := FirstWhere(listing, InSet(subdirs));
      var i := 0;
      while i < |listing|
        invariant 0 <= i <= k
        invariant forall f :: f in files <==> f in old(files) && f !in listing[..i]
        invariant forall f :: f in files ==> files[f] == old(files)[f]
      {
        if listing[i] in subdirs {
          return Some(listing[i]);
        }
        Remove(listing[i]);
        assert listing[..i + 1] == listing[..i] + [listing[i]];
        i := i + 1;
      }
      assert listing[..i] == listing;
      failed := None;
      assert files.Keys == {};
    }
  }

  /** How `split_manifest` ends: the clean step fails on a subdirectory, or the documents are written. */
  datatype SplitEnd = RemoveFailed(entry: string) | Split(abortedAt: Option<nat>)

  /**
    `split_manifest`: optionally empties the directory, then writes the
    documents in order until one raises. A failed clean step ends it before
    any document is read.
  */
  method SplitManifest(dir: OutputDir, docs: seq<Doc>, cleanDir: bool, listing: seq<string>)
    returns (r: SplitEnd)
    requires forall f :: f in listing <==> f in dir.files || f in dir.subdirs
    requires dir.files.Keys !! dir.subdirs
    modifies dir
    ensures !cleanDir ==> r.Split?
    ensures r.RemoveFailed? ==>
              var k := FirstWhere(listing, InSet(dir.subdirs));
              && k < |listing| && r.entry == listing[k]
              && (forall f :: f in dir.files <==> f in old(dir.files) && f !in listing[..k])
              && (forall f :: f in dir.files ==> dir.files[f] == old(dir.files)[f])
    ensures cleanDir ==> (r.RemoveFailed? <==> FirstWhere(listing, InSet(dir.subdirs)) < |listing|)
    ensures r.Split? ==>
              var start := if cleanDir then map[] else old(dir.files);
              dir.files == Run(start, docs).files && r.abortedAt == Run(start, docs).abortedAt
  {
    if cleanDir {
      var failed := dir.Clean(listing);
      if failed.Some? {
        return RemoveFailed(failed.value);
      }
    }
    ghost var start := dir.files;
    var i := 0;
    while i < |docs|
      invariant 0 <= i <= |docs|
      invariant Run(start, docs[..i]) == RunState(dir.files, None)
    {
      var doc := docs[i];
      assert docs[..i + 1][..i] == docs[..i] && docs[..i + 1][i] == doc;
      match ActionFor(doc) {
        case Skip =>
        case WriteTo(f) =>
          dir.Write(f, doc);
        case Abort =>
          RunStays(start, docs, i + 1);
          return Split(Some(i));
      }
      i := i + 1;
    }
    assert docs[..i] == docs;
    r := Split(None);
  }

  // ---------------------------------------------------------------- main

  /**
    `--clean-output` takes a value and the script tests its truthiness: any
    non-empty value, "False" and "0" included, empties the directory.
  */
  function CleanRequested(arg: Option<string>): bool {
    arg.Some? && arg.value != ""
  }

  lemma CleanRequestedByAnyValue()
    ensures CleanRequested(Some("False")) && CleanRequested(Some("0"))
    ensures !CleanRequested(None) && !CleanRequested(Some(""))
  {
  }

  /** How `main` ends. */
  datatype MainEnd = Missing | NotADirectory | Finished(split: SplitEnd)

  /** `main`: a missing output directory, or one that is not a directory, stops the script before any change. */
  method SplitCommand(dir: OutputDir, dirExists: bool, isDir: bool, docs: seq<Doc>, cleanArg: Option<string>, listing: seq<string>)
    returns (r: MainEnd)
    requires forall f :: f in listing <==> f in dir.files || f in dir.subdirs
    requires dir.files.Keys !! dir.subdirs
    modifies dir
    ensures !dirExists ==> r == Missing && dir.files == old(dir.files)
    ensures dirExists && !isDir ==> r == NotADirectory && dir.files == old(dir.files)
    ensures dirExists && isDir ==> r.Finished?
    ensures dirExists && isDir && !CleanRequested(cleanArg) ==> r.split.Split?
    ensures dirExists && isDir && CleanRequested(cleanArg) ==>
              (r.split.RemoveFailed? <==> FirstWhere(listing, InSet(dir.subdirs)) < |listing|)
    ensures dirExists && isDir && r.split.RemoveFailed? ==>
              var k := FirstWhere(listing, InSet(dir.subdirs));
              && k < |listing| && r.split.entry == listing[k]
              && (forall f :: f in dir.files <==> f in old(dir.files) && f !in listing[..k])
              && (forall f :: f in dir.files ==> dir.files[f] == old(dir.files)[f])
    ensures dirExists && isDir && r.split.Split? ==>
              var start := if CleanRequested(cleanArg) then map[] else old(dir.files);
              dir.files == Run(start, docs).files && r.split.abortedAt == Run(start, docs).abortedAt
  {
    if !dirExists {
      return Missing;
    } else if !isDir {
      return NotADirectory;
    }
    var split := SplitManifest(dir, docs, CleanRequested(cleanArg), listing);
    r := Finished(split);
  }
}
