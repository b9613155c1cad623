/** The corpus scanner (`CodeAnalyzer._get_code_files`, `_analyze_file`, `scan_codebase`):
    which files are analyzed, and in which order the per-file findings are put together.
    Directory traversal, `stat` and file reading are outside the model: the traversal is given
    as a list of entries, reading as a function from path to text, and the parser as a function
    from text to its outcome. */
module CorpusScanner {
  import opened Text
  import opened Models
  import opened Sequences
  import opened TextualAnalyzer
  import opened StructuralAnalyzer

  /** One file the traversal found: its absolute path and its size in bytes, or `None` when
      `stat` raised `OSError`. */
  datatype FileEntry = FileEntry(path: string, size: Option<nat>)

  /** `Path.name`: the last component of a path. */
  function FileName(path: string): (name: string)
    ensures '/' !in name
    ensures |name| <= |path| && name == path[|path| - |name|..]
  {
    if path == [] || path[|path| - 1] == '/' then []
    else FileName(path[..|path| - 1]) + [path[|path| - 1]]
  }

  /** `s.rfind(c)`: the index of the last `c` in `s`, or -1. */
  function RFind(s: string, c: char): (i: int)
    ensures -1 <= i < |s|
    ensures i >= 0 ==> s[i] == c
    ensures forall j :: i < j < |s| ==> s[j] != c
  {
    if s == [] then -1
    else if s[|s| - 1] == c then |s| - 1
    else RFind(s[..|s| - 1], c)
  }

  /** `Path.suffix`: from the last dot of the name on, unless that dot is the name's first or
      last character, in which case there is no suffix. */
  function Suffix(path: string): string
  {
    var name := FileName(path);
    var i := RFind(name, '.');
    if 0 < i < |name| - 1 then name[i..] else ""
  }

  /** `rglob(f"*{ext}")` over the traversal: the entries whose name ends with `ext`, in
      traversal order. */
  function Glob(entries: seq<FileEntry>, ext: string): seq<FileEntry>
  {
    if entries == [] then []
    else
      var last := entries[|entries| - 1];
      Glob(entries[..|entries| - 1], ext) + (if EndsWith(FileName(last.path), ext) then [last] else [])
  }

  /** The globs of all configured extensions, one after the other. */
  function Candidates(entries: seq<FileEntry>, exts: seq<string>): seq<FileEntry>
  {
    if exts == [] then [] else Candidates(entries, exts[..|exts| - 1]) + Glob(entries, exts[|exts| - 1])
  }

  /** `any(pattern in path for pattern in patterns)`: some exclude pattern is a substring of the path. */
  predicate Excluded(path: string, patterns: seq<string>)
  {
    patterns != [] && (Contains(path, patterns[0]) || Excluded(path, patterns[1..]))
  }

  lemma {:induction false} ExcludedMeans(path: string, patterns: seq<string>)
    ensures Excluded(path, patterns) <==> exists p :: p in patterns && Contains(path, p)
  {
    if patterns != [] {
      ExcludedMeans(path, patterns[1..]);
      assert patterns == [patterns[0]] + patterns[1..];
    }
  }

  /** The size could be read and is below `max_file_size_mb * 1024 * 1024` bytes. */
  predicate WithinSize(e: FileEntry, maxFileSizeMb: int)
  {
    e.size.Some? && e.size.value < maxFileSizeMb * 1024 * 1024
  }

  predicate Eligible(e: FileEntry, config: DetectiveConfig)
  {
    !Excluded(e.path, config.excludePatterns) && WithinSize(e, config.maxFileSizeMb)
  }

  /** The paths of the candidates that pass the exclusion and size checks, in order. */
  function KeepEligible(files: seq<FileEntry>, config: DetectiveConfig): seq<string>
  {
    if files == [] then []
    else
      var last := files[|files| - 1];
      KeepEligible(files[..|files| - 1], config) + (if Eligible(last, config) then [last.path] else [])
  }

  function CodeFiles(config: DetectiveConfig, rootExists: bool, entries: seq<FileEntry>): seq<string>
  {
    if !rootExists then [] else KeepEligible(Candidates(entries, config.fileExtensions), config)
  }

  /** `_get_code_files`: a missing project root gives no files. */
  method GetCodeFiles(config: DetectiveConfig, rootExists: bool, entries: seq<FileEntry>) returns (paths: seq<string>)
    ensures paths == CodeFiles(config, rootExists, entries)
    ensures !rootExists ==> paths == []
  {
    if !rootExists {
      return [];
    }
    var files := CollectCandidates(entries, config.fileExtensions);
    paths := FilterEligible(files, config);
  }

  /** The `rglob` loop: every extension's matches, one extension after the other. */
  method CollectCandidates(entries: seq<FileEntry>, exts: seq<string>) returns (files: seq<FileEntry>)
    ensures files == Candidates(entries, exts)
  {
    files := [];
    var k := 0;
    while k < |exts|
      invariant k <= |exts|
      invariant files == Candidates(entries, exts[..k])
    {
      CandidatesStep(entries, exts, k);
      files := files + Glob(entries, exts[k]);
      k := k + 1;
    }
    assert exts[..|exts|] == exts;
  }

  /** One more extension adds its matches after those of the earlier ones. */
  lemma CandidatesStep(entries: seq<FileEntry>, exts: seq<string>, k: nat)
    requires k < |exts|
    ensures Candidates(entries, exts[..k + 1]) == Candidates(entries, exts[..k]) + Glob(entries, exts[k])
  {
    var pre := exts[..k + 1];
    assert pre[..|pre| - 1] == exts[..k];
    assert pre[|pre| - 1] == exts[k];
  }

  /** The filter loop: the paths of the candidates that are not excluded and small enough. */
  method FilterEligible(files: seq<FileEntry>, config: DetectiveConfig) returns (paths: seq<string>)
    ensures paths == KeepEligible(files, config)
  {
    paths := [];
    var i := 0;
    while i < |files|
      invariant i <= |files|
      invariant paths == KeepEligible(files[..i], config)
    {
      var f := files[i];
      assert files[..i + 1][..i] == files[..i];
      if !Excluded(f.path, config.excludePatterns) {
        if f.size.Some? && f.size.value < config.maxFileSizeMb * 1024 * 1024 {
          paths := paths + [f.path];
        }
      }
      i := i + 1;
    }
    assert files[..|files|] == files;
  }

  lemma {:induction false} GlobMembers(entries: seq<FileEntry>, ext: string)
    ensures forall e :: e in Glob(entries, ext) <==> e in entries && EndsWith(FileName(e.path), ext)
  {
    if entries != [] {
      GlobMembers(entries[..|entries| - 1], ext);
      assert entries == entries[..|entries| - 1] + [entries[|entries| - 1]];
    }
  }

  lemma {:induction false} CandidatesMembers(entries: seq<FileEntry>, exts: seq<string>)
    ensures forall e :: e in Candidates(entries, exts) <==>
              e in entries && exists ext :: ext in exts && EndsWith(FileName(e.path), ext)
  {
    if exts != [] {
      var init := exts[..|exts| - 1];
      CandidatesMembers(entries, init);
      GlobMembers(entries, exts[|exts| - 1]);
      assert exts == init + [exts[|exts| - 1]];
      forall e | e in Candidates(entries, exts)
        ensures exists ext :: ext in exts && EndsWith(FileName(e.path), ext)
      {
        if e in Candidates(entries, init) {
          var ext :| ext in init && EndsWith(FileName(e.path), ext);
          assert ext in exts;
        }
      }
    }
  }

  lemma {:induction false} KeepEligibleMembers(files: seq<FileEntry>, config: DetectiveConfig)
    ensures forall p :: p in KeepEligible(files, config) <==>
              exists e :: e in files && e.path == p && Eligible(e, config)
  {
    if files != [] {
      var init := files[..|files| - 1];
      KeepEligibleMembers(init, config);
      assert files == init + [files[|files| - 1]];
      forall p | p in KeepEligible(files, config)
        ensures exists e :: e in files && e.path == p && Eligible(e, config)
      {
        if p in KeepEligible(init, config) {
          var e :| e in init && e.path == p && Eligible(e, config);
          assert e in files;
        }
      }
    }
  }

  /** A path is analyzed iff the root exists and some traversal entry with that path has a name
      ending with a configured extension, contains no exclude pattern and is smaller than the
      size ceiling. */
  lemma CodeFilesMembers(config: DetectiveConfig, rootExists: bool, entries: seq<FileEntry>, p: string)
    ensures p in CodeFiles(config, rootExists, entries) <==>
              rootExists && exists e :: (e in entries && e.path == p
                && (exists ext :: ext in config.fileExtensions && EndsWith(FileName(p), ext))
                && (forall pat :: pat in config.excludePatterns ==> !Contains(p, pat))
                && WithinSize(e, config.maxFileSizeMb))
  {
    ExcludedMeans(p, config.excludePatterns);
    if rootExists {
      var files := Candidates(entries, config.fileExtensions);
      CandidatesMembers(entries, config.fileExtensions);
      KeepEligibleMembers(files, config);
    }
  }

  // ----- one file -----

  /** `_analyze_file` on a file whose reading gave `content` (`None`: reading raised, and the
      exception handler returns no findings). Python files get the structural findings first and
      the textual ones after; a parser exception other than `SyntaxError` reaches the same
      handler and discards the textual findings too. */
  function FileSmells(path: string, content: Option<string>, parse: string -> ParseOutcome): seq<CodeSmell>
  {
    match content
    case None => []
    case Some(text) =>
      if Suffix(path) == ".py" then
        match PythonSmells(path, parse(text))
        case None => []
        case Some(structural) => structural + GeneralPatterns(path, text)
      else GeneralPatterns(path, text)
  }

  method AnalyzeFile(path: string, content: Option<string>, parse: string -> ParseOutcome) returns (smells: seq<CodeSmell>)
    ensures smells == FileSmells(path, content, parse)
  {
    if content.None? {
      return [];
    }
    var text := content.value;
    if Suffix(path) == ".py" {
      var structural := AnalyzePythonFile(path, parse(text));
      if structural.None? {
        return [];
      }
      var general := AnalyzeGeneralPatterns(path, text);
      smells := structural.value + general;
    } else {
      smells := AnalyzeGeneralPatterns(path, text);
    }
  }

  /** A file that is not a `.py` file gets the textual findings only. */
  lemma NonPythonFileIsTextOnly(path: string, text: string, parse: string -> ParseOutcome)
    requires Suffix(path) != ".py"
    ensures FileSmells(path, Some(text), parse) == GeneralPatterns(path, text)
    ensures CountKind(FileSmells(path, Some(text), parse), SyntaxErrorKind) == 0
    ensures CountKind(FileSmells(path, Some(text), parse), LongFunction) == 0
  {
    NoStructuralKinds(path, text);
  }

  /** The textual analysis never reports a structural kind. */
  lemma NoStructuralKinds(path: string, text: string)
    ensures CountKind(GeneralPatterns(path, text), SyntaxErrorKind) == 0
    ensures CountKind(GeneralPatterns(path, text), LongFunction) == 0
    ensures CountKind(GeneralPatterns(path, text), TooManyParameters) == 0
    ensures CountKind(GeneralPatterns(path, text), DeepNesting) == 0
  {
    TextualFindingsInRange(path, text);
    var g := GeneralPatterns(path, text);
    TextualKindsOnly(g, SyntaxErrorKind);
    TextualKindsOnly(g, LongFunction);
    TextualKindsOnly(g, TooManyParameters);
    TextualKindsOnly(g, DeepNesting);
  }

  /** Findings of the three textual kinds only count zero of any other kind. */
  lemma TextualKindsOnly(g: seq<CodeSmell>, kind: string)
    requires forall f :: f in g ==> f.smellType == LargeFile || f.smellType == TechnicalDebtComment || f.smellType == LongLine
    requires kind != LargeFile && kind != TechnicalDebtComment && kind != LongLine
    ensures CountKind(g, kind) == 0
  {
    forall i | 0 <= i < |g|
      ensures g[i].smellType != kind
    {
      assert g[i] in g;
    }
    CountKindNone(g, kind);
  }

  /** A `.py` file that does not parse yields one `syntax_error` finding (line 1, critical,
      confidence 100%), no other structural finding, and then all its textual findings. */
  lemma SyntaxErrorFile(path: string, text: string, parse: string -> ParseOutcome)
    requires Suffix(path) == ".py" && parse(text) == SyntaxError
    ensures var r := FileSmells(path, Some(text), parse);
            && r == [SyntaxErrorSmell(path)] + GeneralPatterns(path, text)
            && r[0].smellType == SyntaxErrorKind && r[0].lineNumber == 1
            && r[0].severity == Critical && r[0].confidence == 100
            && CountKind(r, SyntaxErrorKind) == 1
            && CountKind(r, LongFunction) == 0
            && CountKind(r, TooManyParameters) == 0
            && CountKind(r, DeepNesting) == 0
  {
    var g := GeneralPatterns(path, text);
    NoStructuralKinds(path, text);
    CountKindAppend([SyntaxErrorSmell(path)], g, SyntaxErrorKind);
    CountKindAppend([SyntaxErrorSmell(path)], g, LongFunction);
    CountKindAppend([SyntaxErrorSmell(path)], g, TooManyParameters);
    CountKindAppend([SyntaxErrorSmell(path)], g, DeepNesting);
  }

  // ----- the whole corpus -----

  /** The findings of the files, file after file. */
  function ScanSmells(paths: seq<string>, read: string -> Option<string>, parse: string -> ParseOutcome): seq<CodeSmell>
  {
    ConcatMap(paths, p => FileSmells(p, read(p), parse))
  }

  /** `scan_codebase`: every eligible file is analyzed and its findings appended. */
  method ScanCodebase(config: DetectiveConfig, rootExists: bool, entries: seq<FileEntry>,
                      read: string -> Option<string>, parse: string -> ParseOutcome)
    returns (smells: seq<CodeSmell>)
    ensures smells == ScanSmells(CodeFiles(config, rootExists, entries), read, parse)
  {
    var paths := GetCodeFiles(config, rootExists, entries);
    ghost var analyze := p => FileSmells(p, read(p), parse);
    smells := [];
    var i := 0;
    while i < |paths|
      invariant i <= |paths|
      invariant smells == ConcatMap(paths[..i], analyze)
    {
      assert paths[..i + 1][..i] == paths[..i];
      var fileSmells := AnalyzeFile(paths[i], read(paths[i]), parse);
      smells := smells + fileSmells;
      i := i + 1;
    }
    assert paths[..|paths|] == paths;
  }

  /** The multiset of findings does not depend on the order the files are analyzed in, so
      any traversal order, or a concurrent scan merged in any order, gives the same findings. */
  lemma ScanOrderIndependent(a: seq<string>, b: seq<string>, read: string -> Option<string>, parse: string -> ParseOutcome)
    requires multiset(a) == multiset(b)
    ensures multiset(ScanSmells(a, read, parse)) == multiset(ScanSmells(b, read, parse))
  {
    ConcatMapPermutation(a, b, p => FileSmells(p, read(p), parse));
  }

  /** Concatenation of `f(x)` over `xs`, in order. */
  function ConcatMap<T, U>(xs: seq<T>, f: T -> seq<U>): seq<U>
  {
    if xs == [] then [] else ConcatMap(xs[..|xs| - 1], f) + f(xs[|xs| - 1])
  }

  lemma {:induction false} ConcatMapAppend<T, U>(a: seq<T>, b: seq<T>, f: T -> seq<U>)
    ensures ConcatMap(a + b, f) == ConcatMap(a, f) + ConcatMap(b, f)
    decreases |b|
  {
    if b == [] {
      assert a + b == a;
    } else {
      assert (a + b)[..|a + b| - 1] == a + b[..|b| - 1];
      ConcatMapAppend(a, b[..|b| - 1], f);
    }
  }

  lemma {:induction false} ConcatMapPermutation<T, U>(a: seq<T>, b: seq<T>, f: T -> seq<U>)
    requires multiset(a) == multiset(b)
    ensures multiset(ConcatMap(a, f)) == multiset(ConcatMap(b, f))
    decreases |a|
  {
    if a != [] {
      var j := PlaceOfLast(a, b);
      var x := b[j];
      DropLast(a);
      RemoveAt(b, j);
      ConcatMapPermutation(a[..|a| - 1], b[..j] + b[j + 1..], f);
      ConcatMapAppend(b[..j], [x] + b[j + 1..], f);
      ConcatMapAppend([x], b[j + 1..], f);
      ConcatMapAppend(b[..j], b[j + 1..], f);
      assert [x][..0] == [];
    }
  }
}
