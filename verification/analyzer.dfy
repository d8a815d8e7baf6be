/** The commit-risk classifier: one commit record in, the reason it is risky
    (or nothing) out. Checks run in a fixed order and the first hit wins:
    the message against every pattern, then each changed file in list order,
    first its path against the sensitive suffixes, then its patch against
    every pattern. */
module Analyzer {
  import opened Wrappers
  import opened Text
  import opened Rules

  /** One entry of a commit's `files` array; `patch` is `None` when the key is absent. */
  datatype FileChange = FileChange(filename: string, patch: Option<string>)

  /** The parts of a commit record the classifier reads; `files` is `None`
      when the record has no `files` key. */
  datatype Commit = Commit(message: string, files: Option<seq<FileChange>>)

  /** Which check fired; this is what the watcher's coloured line reports. */
  datatype Reason =
    | MessagePattern
    | SensitiveFile(filename: string)
    | PatchPattern(filename: string)

  /** `file.get('patch', '')`: a missing patch reads as the empty text. */
  function PatchText(f: FileChange): (text: string)
    ensures f.patch.None? ==> text == ""
    ensures f.patch.Some? ==> text == f.patch.value
  {
    f.patch.GetOr("")
  }

  /** `commit.get('files', [])`: a missing `files` key reads as no files. */
  function FilesOf(c: Commit): (files: seq<FileChange>)
    ensures c.files.None? ==> files == []
    ensures c.files.Some? ==> files == c.files.value
  {
    c.files.GetOr([])
  }

  predicate MessageHit(c: Commit, patterns: seq<string>)
  {
    MatchesAny(patterns, c.message)
  }

  predicate IsSensitive(f: FileChange, suffixes: seq<string>)
  {
    EndsWithAny(f.filename, suffixes)
  }

  predicate PatchHit(f: FileChange, patterns: seq<string>)
  {
    MatchesAny(patterns, PatchText(f))
  }

  /** The file, on its own, would stop the scan. */
  predicate FileHit(f: FileChange, patterns: seq<string>, suffixes: seq<string>)
  {
    IsSensitive(f, suffixes) || PatchHit(f, patterns)
  }

  /** What a file that stops the scan is reported as: the suffix check runs before the patch scan. */
  function FileReason(f: FileChange, suffixes: seq<string>): Reason
  {
    if IsSensitive(f, suffixes) then SensitiveFile(f.filename) else PatchPattern(f.filename)
  }

  /** No file of the list stops the scan. */
  predicate NoFileHit(files: seq<FileChange>, patterns: seq<string>, suffixes: seq<string>)
  {
    forall i :: 0 <= i < |files| ==> !FileHit(files[i], patterns, suffixes)
  }

  /** File `i` is the first of the list that stops the scan. */
  predicate FirstFileHit(files: seq<FileChange>, i: int, patterns: seq<string>, suffixes: seq<string>)
  {
    && 0 <= i < |files|
    && FileHit(files[i], patterns, suffixes)
    && NoFileHit(files[..i], patterns, suffixes)
  }

  /** The file loop of the classifier. */
  function ScanFiles(files: seq<FileChange>, patterns: seq<string>, suffixes: seq<string>): (r: Option<Reason>)
    ensures r.None? <==> NoFileHit(files, patterns, suffixes)
    ensures r != Some(MessagePattern)
    ensures forall i :: FirstFileHit(files, i, patterns, suffixes) ==> r == Some(FileReason(files[i], suffixes))
  {
    if files == [] then None
    else if IsSensitive(files[0], suffixes) then Some(SensitiveFile(files[0].filename))
    else if PatchHit(files[0], patterns) then Some(PatchPattern(files[0].filename))
    else
      var rest := ScanFiles(files[1..], patterns, suffixes);
      assert forall i :: 1 <= i <= |files| ==> files[1..][..i - 1] == files[1..i];
      assert forall i :: 1 <= i <= |files| ==> files[..i] == [files[0]] + files[1..i];
      rest
  }

  /** `analyze_commit`, returning the reason instead of printing it; the
      Python result is `Analyze(...).Some?`. */
  function Analyze(c: Commit, patterns: seq<string>, suffixes: seq<string>): (r: Option<Reason>)
    ensures r == Some(MessagePattern) <==> MessageHit(c, patterns)
    ensures r.None? <==> !MessageHit(c, patterns) && NoFileHit(FilesOf(c), patterns, suffixes)
    ensures forall i ::
              !MessageHit(c, patterns) && FirstFileHit(FilesOf(c), i, patterns, suffixes) ==>
                r == Some(FileReason(FilesOf(c)[i], suffixes))
  {
    if MessageHit(c, patterns) then Some(MessagePattern)
    else ScanFiles(FilesOf(c), patterns, suffixes)
  }

  /* ---------- first hit ---------- */

  /** When some file stops the scan, there is a first one. */
  lemma {:induction false} FirstHitExists(files: seq<FileChange>, patterns: seq<string>, suffixes: seq<string>)
    requires !NoFileHit(files, patterns, suffixes)
    ensures exists i :: FirstFileHit(files, i, patterns, suffixes)
  {
    if FileHit(files[0], patterns, suffixes) {
      assert FirstFileHit(files, 0, patterns, suffixes);
    } else {
      assert !NoFileHit(files[1..], patterns, suffixes) by {
        var k :| 0 <= k < |files| && FileHit(files[k], patterns, suffixes);
        assert files[1..][k - 1] == files[k];
      }
      FirstHitExists(files[1..], patterns, suffixes);
      var j :| FirstFileHit(files[1..], j, patterns, suffixes);
      assert files[..j + 1] == [files[0]] + files[1..][..j];
      assert FirstFileHit(files, j + 1, patterns, suffixes);
    }
  }

  /** Every positive verdict names the earliest check that fired: the message,
      or else the first file in list order that stops the scan, reported as
      sensitive when its path has a sensitive suffix and as a patch hit otherwise. */
  lemma AnalyzeReportsFirstHit(c: Commit, patterns: seq<string>, suffixes: seq<string>)
    ensures var r := Analyze(c, patterns, suffixes);
      r.None? || r == Some(MessagePattern) ||
      exists i :: FirstFileHit(FilesOf(c), i, patterns, suffixes) && r == Some(FileReason(FilesOf(c)[i], suffixes))
  {
    if !MessageHit(c, patterns) && !NoFileHit(FilesOf(c), patterns, suffixes) {
      FirstHitExists(FilesOf(c), patterns, suffixes);
    }
  }

  /* ---------- files and patches ---------- */

  /** A commit without a `files` key, or with an empty one, is judged on its message alone. */
  lemma NoFilesMeansMessageOnly(c: Commit, patterns: seq<string>, suffixes: seq<string>)
    requires c.files.None? || c.files == Some([])
    ensures Analyze(c, patterns, suffixes) == if MessageHit(c, patterns) then Some(MessagePattern) else None
  {
  }

  /** A file without a `patch` key is scanned as the empty patch, which no
      non-empty pattern matches. */
  lemma MissingPatchIsEmpty(name: string, patterns: seq<string>)
    ensures PatchHit(FileChange(name, None), patterns) == PatchHit(FileChange(name, Some("")), patterns)
    ensures (forall p :: p in patterns ==> p != "") ==> !PatchHit(FileChange(name, None), patterns)
  {
    forall p | p in patterns
      ensures ContainsIgnoreCase("", p) <==> p == ""
    {
      ContainsInEmpty("", p);
    }
  }

  /** The suffix test sees the whole path, so a sensitive file inside a
      directory is still caught. */
  lemma NestedSensitivePath(dir: string, name: string, patch: Option<string>, suffixes: seq<string>)
    requires EndsWithAny(name, suffixes)
    ensures IsSensitive(FileChange(dir + name, patch), suffixes)
  {
    var s :| s in suffixes && EndsWith(name, s);
    EndsWithUnderDirectory(dir, name, s);
  }

  /** With the default suffixes, `config/.env` is flagged as a sensitive
      file unless the message already fired. */
  lemma ConfigEnvIsSensitive(message: string, patterns: seq<string>)
    ensures var c := Commit(message, Some([FileChange("config/.env", None)]));
      Analyze(c, patterns, SensitiveFiles) ==
        if MessageHit(c, patterns) then Some(MessagePattern) else Some(SensitiveFile("config/.env"))
  {
    assert EndsWith(".env", ".env");
    NestedSensitivePath("config/", ".env", None, SensitiveFiles);
    assert "config/" + ".env" == "config/.env";
    var files := [FileChange("config/.env", None)];
    assert FirstFileHit(files, 0, patterns, SensitiveFiles) by {
      assert files[..0] == [];
    }
  }

  /** The suffix test is case-sensitive: an upper-case extension slips through. */
  lemma UpperCaseSuffixIsMissed(patch: Option<string>)
    ensures !IsSensitive(FileChange("config/.ENV", patch), SensitiveFiles)
  {
    var name := "config/.ENV";
    forall s | s in SensitiveFiles
      ensures !EndsWith(name, s)
    {
      assert |s| == 4;
      assert name[|name| - 4..] == ".ENV";
    }
  }

  /* ---------- agreement of two scans ---------- */

  /** Two file lists that agree, file by file, on the name, on the suffix
      test and on the patch test are scanned to the same result. */
  lemma {:induction false} ScanFilesAgree(
    fs: seq<FileChange>, gs: seq<FileChange>,
    ps: seq<string>, qs: seq<string>, sx: seq<string>, sy: seq<string>)
    requires |fs| == |gs|
    requires forall i :: 0 <= i < |fs| ==>
      && fs[i].filename == gs[i].filename
      && IsSensitive(fs[i], sx) == IsSensitive(gs[i], sy)
      && PatchHit(fs[i], ps) == PatchHit(gs[i], qs)
    ensures ScanFiles(fs, ps, sx) == ScanFiles(gs, qs, sy)
  {
    if fs != [] {
      assert fs[0].filename == gs[0].filename;
      assert IsSensitive(fs[0], sx) == IsSensitive(gs[0], sy);
      assert PatchHit(fs[0], ps) == PatchHit(gs[0], qs);
      if !IsSensitive(fs[0], sx) && !PatchHit(fs[0], ps) {
        forall i | 0 <= i < |fs[1..]|
          ensures && fs[1..][i].filename == gs[1..][i].filename
                  && IsSensitive(fs[1..][i], sx) == IsSensitive(gs[1..][i], sy)
                  && PatchHit(fs[1..][i], ps) == PatchHit(gs[1..][i], qs)
        {
          assert fs[1..][i] == fs[i + 1] && gs[1..][i] == gs[i + 1];
        }
        ScanFilesAgree(fs[1..], gs[1..], ps, qs, sx, sy);
      }
    }
  }

  /* ---------- case ---------- */

  /** `f` changes at most the case of ASCII letters. */
  ghost predicate KeepsLetters(f: string -> string)
  {
    forall s :: Lower(f(s)) == Lower(s)
  }

  function RecaseFile(file: FileChange, f: string -> string): FileChange
  {
    match file.patch
    case None => file
    case Some(p) => file.(patch := Some(f(p)))
  }

  /** The commit with `f` applied to its message and to every patch; file names are left alone. */
  function Recase(c: Commit, f: string -> string): Commit
  {
    match c.files
    case None => c.(message := f(c.message))
    case Some(fs) => Commit(f(c.message), Some(seq(|fs|, i requires 0 <= i < |fs| => RecaseFile(fs[i], f))))
  }

  /** Matching ignores case: re-casing the message and the patches never changes the verdict. */
  lemma AnalyzeIgnoresCase(c: Commit, f: string -> string, patterns: seq<string>, suffixes: seq<string>)
    requires KeepsLetters(f)
    ensures Analyze(Recase(c, f), patterns, suffixes) == Analyze(c, patterns, suffixes)
  {
    var d := Recase(c, f);
    assert MessageHit(d, patterns) == MessageHit(c, patterns) by {
      assert Lower(d.message) == Lower(c.message);
    }
    var fs, gs := FilesOf(c), FilesOf(d);
    forall i | 0 <= i < |fs|
      ensures && fs[i].filename == gs[i].filename
              && IsSensitive(fs[i], suffixes) == IsSensitive(gs[i], suffixes)
              && PatchHit(fs[i], patterns) == PatchHit(gs[i], patterns)
    {
      assert Lower(PatchText(gs[i])) == Lower(PatchText(fs[i]));
    }
    ScanFilesAgree(fs, gs, patterns, patterns, suffixes, suffixes);
  }

  /** Lower-casing or upper-casing (ASCII) the message and the patches does not change the verdict. */
  lemma AnalyzeIgnoresLowerUpper(c: Commit, patterns: seq<string>, suffixes: seq<string>)
    ensures Analyze(Recase(c, Lower), patterns, suffixes) == Analyze(c, patterns, suffixes)
    ensures Analyze(Recase(c, Upper), patterns, suffixes) == Analyze(c, patterns, suffixes)
  {
    forall s ensures Lower(Lower(s)) == Lower(s) && Lower(Upper(s)) == Lower(s) {
      LowerIdempotent(s);
      LowerOfUpper(s);
    }
    AnalyzeIgnoresCase(c, Lower, patterns, suffixes);
    AnalyzeIgnoresCase(c, Upper, patterns, suffixes);
  }

  /* ---------- the rule lists ---------- */

  /** Only the set of patterns and the set of suffixes matter, not their order or repetition. */
  lemma AnalyzeSameRuleSets(c: Commit, ps: seq<string>, qs: seq<string>, sx: seq<string>, sy: seq<string>)
    requires forall p :: p in ps <==> p in qs
    requires forall s :: s in sx <==> s in sy
    ensures Analyze(c, ps, sx) == Analyze(c, qs, sy)
  {
    var fs := FilesOf(c);
    forall i | 0 <= i < |fs|
      ensures IsSensitive(fs[i], sx) == IsSensitive(fs[i], sy)
      ensures PatchHit(fs[i], ps) == PatchHit(fs[i], qs)
    {
      MatchesAnySameSet(ps, qs, PatchText(fs[i]));
    }
    MatchesAnySameSet(ps, qs, c.message);
    ScanFilesAgree(fs, fs, ps, qs, sx, sy);
  }

  /** More rules never clear a commit that fewer rules flag. */
  lemma AnalyzeMonotone(c: Commit, ps: seq<string>, qs: seq<string>, sx: seq<string>, sy: seq<string>)
    requires Analyze(c, ps, sx).Some?
    ensures Analyze(c, ps + qs, sx + sy).Some?
  {
    var fs := FilesOf(c);
    if !MessageHit(c, ps) {
      var i :| 0 <= i < |fs| && FileHit(fs[i], ps, sx);
      assert FileHit(fs[i], ps + qs, sx + sy);
    }
  }

  /** Dropping "client_secret" from the default patterns never changes a verdict. */
  lemma DefaultsWithoutClientSecret(c: Commit, suffixes: seq<string>)
    ensures Analyze(c, DefaultPatterns, suffixes) == Analyze(c, ReducedPatterns, suffixes)
  {
    var fs := FilesOf(c);
    forall i | 0 <= i < |fs|
      ensures PatchHit(fs[i], DefaultPatterns) == PatchHit(fs[i], ReducedPatterns)
    {
      ClientSecretIsRedundant(PatchText(fs[i]));
    }
    ClientSecretIsRedundant(c.message);
    ScanFilesAgree(fs, fs, DefaultPatterns, ReducedPatterns, suffixes, suffixes);
  }

  /** A message naming a pattern is reported as a message hit even when a
      sensitive file is in the same commit: the classifier stops at the first check that fires. */
  lemma MessageHitHidesSensitiveFile()
    ensures Analyze(Commit("fix: rotate api_key for staging", Some([FileChange("deploy/.env", None)])),
                    DefaultPatterns, SensitiveFiles) == Some(MessagePattern)
  {
    var m := "fix: rotate api_key for staging";
    DefaultPatternsAreLiteral();
    assert Lower(m)[12..19] == "api_key";
    assert OccursAt(Lower(m), Lower("api_key"), 12);
    ContainsMeansOccurs(Lower(m), Lower("api_key"));
    assert "api_key" in DefaultPatterns;
  }
}
