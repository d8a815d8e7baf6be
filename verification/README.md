# Commit-Watcher classifier, modelled in Dafny

Commit-Watcher fetches the recent commits of a GitHub repository and flags the
risky ones. `analyze_commit` classifies a single commit record. It searches the
commit message for a list of patterns, ignoring case. It then walks the changed
files in order. For each file it tests whether the path ends with a sensitive
suffix (`.env`, `.pem`, `.key`, `.crt`, `.pfx`), and then searches the file's
patch for the same patterns. It stops at the first check that fires.
`monitor_repository` classifies every fetched commit with the default suffix
list and reports the risky ones in fetch order.

This project models those two functions and the two constant lists. The modules
follow the program's structure:

- `Wrappers`: `Option`, used for JSON keys that may be missing and for a verdict.
- `Text`: ASCII case mapping, a leftmost substring search, and Python's
  `str.endswith`.
- `Rules`: `DEFAULT_PATTERNS`, `SENSITIVE_FILES`, and the two tests built on
  them: "some pattern occurs, ignoring case" and "the path ends with some suffix".
- `Analyzer`: the `Commit`, `FileChange` and `Reason` datatypes, and `Analyze`.
  `Analyze` is `analyze_commit` returning *which* check fired (`Some(reason)`)
  instead of printing it. Python's boolean result is `Analyze(...).Some?`.
- `Monitor`: the reporting loop, `Reports`, as a function from the fetched
  list to a list of `Alert(position, reason)`.

Modelling choices:

- A commit record with no `files` key has `files == None`. A file entry with
  no `patch` key has `patch == None`. The model reads a missing key as the
  source's `.get(key, default)` does: no files, and the empty patch.
- Patterns are literal strings. A pattern matches when its ASCII lower-case
  form occurs in the ASCII lower-case form of the text. For ASCII patterns
  without regex metacharacters, such as all the defaults, this is what
  `re.search(p, text, re.IGNORECASE)` does on ASCII text.

`analyze_commit` returns at the first hit. For example,
`"fix: rotate api_key for staging"` together with a changed `deploy/.env`
yields only the message reason (`Analyzer.MessageHitHidesSensitiveFile`).

## Model

| member | source | states |
|---|---|---|
| `Rules.DefaultPatternsAreLiteral` | commit_watcher.py:6-12 | every default pattern is non-empty, free of regex metacharacters and already lower-case, so on ASCII text literal case-insensitive search is its regex meaning |
| `Rules.MatchesAny` | commit_watcher.py:53-54 | the pattern loop finds a hit exactly when some pattern of the list occurs in the text, ignoring ASCII case |
| `Rules.EndsWithAny` | commit_watcher.py:62 | `any(filename.endswith(ext) ...)` holds exactly when some suffix of the list ends the whole file name |
| `Rules.MatchesAnySameSet` | commit_watcher.py:53-54 | the order and repetition of patterns never affect whether a text is flagged |
| `Rules.MatchesAnyIgnoresCase` | commit_watcher.py:54 | lower- or upper-casing the searched text does not change whether a pattern matches |
| `Rules.MatchesAnySubsumed` | commit_watcher.py:53-54 | if every pattern of one list contains a pattern of another list, a text flagged by the first list is flagged by the second |
| `Rules.ClientSecretIsRedundant` | commit_watcher.py:6-12 | removing "client_secret" from the defaults never changes a verdict, because it contains "secret" |
| `Text.IndexFrom` | commit_watcher.py:54 | the search returns the leftmost position at which the pattern occurs, and returns nothing exactly when there is no occurrence |
| `Text.ContainsInEmpty` | commit_watcher.py:66-68 | the empty text contains only the empty pattern, and the empty pattern occurs in every text |
| `Text.IgnoreCaseOfText` | commit_watcher.py:54 | re-casing the searched text never changes a case-insensitive match |
| `Text.IgnoreCaseOfPattern` | commit_watcher.py:54 | re-casing the pattern never changes a case-insensitive match |
| `Text.EndsWithUnderDirectory` | commit_watcher.py:62 | a suffix of a file name is still a suffix of the same name under any directory prefix |
| `Analyzer.PatchText` | commit_watcher.py:66 | a file without a `patch` key is read as the empty patch; a present patch is read as it is |
| `Analyzer.FilesOf` | commit_watcher.py:58 | a commit without a `files` key is read as having no changed files; a present list is read as it is |
| `Analyzer.ScanFiles` | commit_watcher.py:59-72 | the file loop finds nothing exactly when no file is sensitive or has a matching patch; otherwise it reports the first such file in list order, as a sensitive file when its path has a sensitive suffix and as a patch hit otherwise |
| `Analyzer.Analyze` | commit_watcher.py:49-72 | the message reason is reported exactly when a pattern is in the message, whatever the files contain; the result is empty exactly when the message, every file name and every patch are clean; otherwise the first offending file decides the reason |
| `Analyzer.FirstHitExists` | commit_watcher.py:59-70 | if any file would stop the scan, there is a first such file, so the file loop always has a definite winner |
| `Analyzer.AnalyzeReportsFirstHit` | commit_watcher.py:53-70 | every positive verdict is either the message reason or the reason of the first offending file in scan order |
| `Analyzer.NoFilesMeansMessageOnly` | commit_watcher.py:58-59 | a commit with no `files` key, or an empty one, is judged on its message alone |
| `Analyzer.MissingPatchIsEmpty` | commit_watcher.py:66-68 | a missing patch is scanned as the empty patch, and with non-empty patterns it never triggers a patch hit |
| `Analyzer.NestedSensitivePath` | commit_watcher.py:60-64 | a file whose name has a sensitive suffix is still flagged when it sits in a directory, since the test sees the whole path |
| `Analyzer.ConfigEnvIsSensitive` | commit_watcher.py:59-64 | with the default suffixes, a commit changing `config/.env` is reported as that sensitive file unless its message already matched |
| `Analyzer.UpperCaseSuffixIsMissed` | commit_watcher.py:62 | the suffix test is case-sensitive: `config/.ENV` is not a sensitive file under the defaults |
| `Analyzer.ScanFilesAgree` | commit_watcher.py:59-72 | two file lists that agree file by file on name, suffix test and patch test are scanned to the same result |
| `Analyzer.AnalyzeIgnoresCase` | commit_watcher.py:53-70 | applying any change of letter case to the message and to every patch leaves the verdict and its reason unchanged |
| `Analyzer.AnalyzeIgnoresLowerUpper` | commit_watcher.py:54-68 | ASCII lower-casing or upper-casing the message and all patches leaves the verdict unchanged |
| `Analyzer.AnalyzeSameRuleSets` | commit_watcher.py:53-70 | the verdict depends only on the sets of patterns and suffixes, not on their order |
| `Analyzer.AnalyzeMonotone` | commit_watcher.py:49-72 | adding patterns or suffixes never clears a commit that was flagged |
| `Analyzer.DefaultsWithoutClientSecret` | commit_watcher.py:6-12 | with the default patterns, dropping "client_secret" changes no commit's verdict or reason |
| `Analyzer.MessageHitHidesSensitiveFile` | commit_watcher.py:53-56 | "fix: rotate api_key for staging" with a changed `deploy/.env` is reported only for its message |
| `Monitor.CollectReportsVerdicts` | commit_watcher.py:83-85 | every report names a position in the list, together with the reason that commit's classification gave |
| `Monitor.CollectIsOrdered` | commit_watcher.py:83-85 | reports come in strictly increasing list position, so none is repeated |
| `Monitor.CollectIsComplete` | commit_watcher.py:83-85 | every position with a positive verdict is reported |
| `Monitor.Reports` | commit_watcher.py:78-85 | every report names a fetched commit with the reason its classification (given patterns, default suffixes) produced; reports follow fetch order with none repeated; every risky commit is reported; an empty fetch reports nothing |
| `Monitor.MonitorReportsExactlyRisky` | commit_watcher.py:83-85 | a commit is reported if and only if it is risky, and there are never more reports than commits |
| `Monitor.WithoutFileDetailsOnlyMessages` | commit_watcher.py:78-85 | when the fetched records carry no `files` key, every report is a message hit |

## Left out

- `get_recent_commits` (commit_watcher.py:35-46) is HTTP I/O and is not modelled. `Monitor.Reports` takes the fetched list as input. A failed fetch returns `[]`, and the model reports nothing for it.
- `color_message`, the severity colours and every printed line (commit_watcher.py:22-32, 55, 63, 69, 76, 80, 85) are console output and are not modelled. `Reason` records which of the three lines `analyze_commit` would print; the commit URL and text inside those lines are not modelled.
- The argparse entry point (commit_watcher.py:88-96) is process plumbing and is not modelled.
- Rules.MatchesAny: treats every pattern as a literal string. A caller-supplied pattern containing regex metacharacters behaves differently under Python's `re`. The defaults contain none (`Rules.DefaultPatternsAreLiteral`).
- Text.ContainsIgnoreCase: folds only ASCII letters. Python's `re.IGNORECASE` also folds non-ASCII letters, some of them onto ASCII ones: U+017F (long s) matches `s`, U+212A (Kelvin sign) matches `k`, and U+0130 and U+0131 match `i`. This affects the default patterns too: Python flags a message `ſecret` (long s) or `api_Key` (Kelvin sign), and the model does not. Unicode case folding is not modelled.
- A record missing `commit`, `message`, `html_url` or `filename` makes the source raise `KeyError`. The model assumes these keys are present. `html_url` is used only in printed lines, so it is not part of `Commit`.
- A `patch` key whose value is JSON `null` makes `re.search` raise in the source. The model has only "present string" or "missing".
- A `files` key whose value is JSON `null` makes `.get('files', [])` return `None`, and the `for` loop at commit_watcher.py:59 then raises. The model has only "present list" or "missing", so it does not represent this record.

## Notes

- The default `client_secret` pattern can never change a verdict, because every text containing it also contains `secret` (`Analyzer.DefaultsWithoutClientSecret`).
- If the records reaching `monitor_repository` carry no `files` key, only message hits can be reported (`Monitor.WithoutFileDetailsOnlyMessages`).
