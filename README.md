# Merge request analyzer — a Dafny model

The analyzer takes the URL of a GitLab merge request and does four things:

1. It splits the URL into the host, the project path and the merge request number.
2. It fetches the paths of the changed files and sorts each one into
   documentation, configuration or code. Code files also get a programming
   language, detected from the file extension.
3. It sends each code file's diff to a language-model reviewer. The reviewer
   sees the team's common coding standards followed by the standards for that
   language. The standards documents are read from `standards/coding/` and
   cached by file name.
4. It averages the review scores into a final score. The score is 10 when no
   file was scored.

Two version-control backends strip and split the URL path the same way as
`parse_gitlab_mr_url`, then apply different shape checks and slices:

- `GitLab` needs at least five segments with `merge_requests` last but one.
  Its project path is every segment but the last three. It parses lazily and
  keeps what it has parsed in fields.
- `GitHub` needs at least four segments with `pull` last but one. Its
  project path is the first two segments. It parses the pull request URL
  again on every call.

This project models these pieces in Dafny and proves what the code promises
about them.

| file | module | what it models |
|---|---|---|
| `wrappers.dfy` | `Wrappers` | `Option` and `Result`, standing in for `None` and raised exceptions |
| `pystrings.dfy` | `PyStrings` | the string builtins the code relies on: `str.lower`, substring `in`, `strip(chars)`, `split(sep)`, `sep.join` and `int()` in base 10 |
| `posixpath.dfy` | `PosixPath` | `os.path.splitext`, including its rule that leading dots of a file name start no extension |
| `classifier.dfy` | `Classifier` | `detect_programming_language` and `categorize_file` |
| `buckets.dfy` | `Categorization` | `analyze_merge_request`: the loop that fills the three category lists |
| `mr_url.dfy` | `MergeRequestUrl` | `parse_gitlab_mr_url` and the path splitting it shares with the backends |
| `standards.dfy` | `Standards` | `read_coding_standards` and its cache |
| `scoring.dfy` | `Scoring` | `calculate_final_score` |
| `review.dfy` | `Review` | the loop of `main` over the category lists, from the standards check to the score list |
| `gitlab_vcs.dfy` | `GitLabVcs` | the `GitLab` class, as a Dafny class whose methods update its cache fields |
| `github_vcs.dfy` | `GitHubVcs` | the `GitHub` class, as a datatype with member functions, since it keeps no state |

A parsed URL is given as `Url(netloc, path)`. The outside world becomes plain
inputs:

- the change list the hosting service returns;
- a `store` map from file path to file contents, which stands for both
  `os.path.exists` and `open(...).read()`;
- the text of `common.txt`;
- the reviewer, as a function from (standards, diff) to a score.

Some of the code's behaviour differs from what a reader might expect. The model follows the code:

- A file named `Dockerfile` is never detected as Docker. Its extension is
  empty, so the table key `Dockerfile` is never looked up
  (`Classifier.UnreachableKeys`). The same holds for the key `.tfstate.backup`,
  because `splitext` only ever yields `.backup`.
- The `docs` and `config` tests run on the lower-cased path, so `src/CONFIG.py`
  is configuration too. The extension lists are compared case-sensitively, so
  `README.MD` is code of language `Unknown`.
- The cache of `read_coding_standards` is keyed by the full file name
  `standards/coding/<language lower-cased>.txt`. It is not keyed by the
  language name.
- `calculate_final_score` is annotated `-> int`, but `/` is true division.
  The mean is therefore not rounded, and the model returns it as an exact `real`.
- After a `domain()` call that raised `ValueError`, the `GitLab` fields are
  already set, so a second `domain()` returns the host without raising.

## Model

| member | source | states |
|---|---|---|
| PyStrings.LeadingCountSpec | gitlab_mr_analyzer.py:32 | `lstrip(chars)` removes the longest run of characters from `chars` at the start, and no more |
| PyStrings.TrailingCountSpec | gitlab_mr_analyzer.py:32 | `rstrip(chars)` removes the longest run of characters from `chars` at the end, and no more |
| PyStrings.StripSurrounded | gitlab_mr_analyzer.py:32 | stripping a string that is wrapped in runs of `chars`, and that neither starts nor ends with one of them, gives exactly that string |
| PyStrings.StripEnds | gitlab_mr_analyzer.py:32 | a stripped string neither starts nor ends with a character of `chars` |
| PyStrings.Split | gitlab_mr_analyzer.py:32 | `split(sep)` always gives at least one piece, and no piece contains the separator |
| PyStrings.JoinSplit | gitlab_mr_analyzer.py:32 | joining the pieces of a split with the same separator gives back the string that was split |
| PyStrings.SplitJoin | gitlab_mr_analyzer.py:37 | splitting a join gives back the pieces, when no piece contains the separator |
| PyStrings.JoinAppend | gitlab_mr_analyzer.py:37 | the join of two non-empty lists is the two joins with one separator between them |
| PyStrings.LowerCharFixes | gitlab_mr_analyzer.py:89 | lower-casing changes exactly the upper-case letters, and leaves none behind |
| PyStrings.ParseIntDecimal | gitlab_mr_analyzer.py:38 | `int(str(n)) == n` for every natural number `n` of at most 4300 digits, the limit beyond which `str(n)` and `int()` raise `ValueError` |
| PyStrings.ParseIntDigitLimit | gitlab_mr_analyzer.py:38 | `int()` raises `ValueError` ("Exceeds the limit (4300 digits) for integer string conversion ...") on a string of more than 4300 digits, whatever their value |
| PyStrings.ParseIntNeedsDigit | gitlab_mr_analyzer.py:38 | `int()` raises `ValueError` on every string that contains no digit |
| PosixPath.RFind | gitlab_mr_analyzer.py:88 | `rfind` gives the last index of the character, or -1 when it does not occur |
| PosixPath.SplitExtSpec | gitlab_mr_analyzer.py:88 | the two parts of `splitext` concatenate to the path. The extension is empty or starts with '.' and holds no other '.' and no '/'. A non-empty extension has a non-dot character before it in the last path component. An empty extension means every dot of that component has only dots before it |
| PosixPath.ExtensionLower | gitlab_mr_analyzer.py:88-89 | the extension of the lower-cased path is the lower-cased extension |
| PosixPath.ExtensionShape | gitlab_mr_analyzer.py:82-85 | an extension is empty or starts with '.', and holds no second '.'. So, lower-cased or not, it is never `Dockerfile` and never `.tfstate.backup` |
| Classifier.DetectLanguageRange | gitlab_mr_analyzer.py:52-89 | the detected language is a language of the table or `Unknown`. It is `Unknown` exactly when the lower-cased extension is not a key |
| Classifier.LanguagesAreNamed | gitlab_mr_analyzer.py:56-86 | neither `N/A` nor `Unknown` is a language of the table |
| Classifier.DetectLanguageIgnoresCase | gitlab_mr_analyzer.py:88-89 | paths that are equal up to letter case get the same language |
| Classifier.UpperCaseExtension | gitlab_mr_analyzer.py:52-89 | `Foo.PY` and `foo.py` are both detected as Python |
| Classifier.UnreachableKeys | gitlab_mr_analyzer.py:82-89 | no path looks up `Dockerfile` or `.tfstate.backup`. Docker is detected only through `.dockerfile` |
| Classifier.CategorizeFileLanguage | gitlab_mr_analyzer.py:91-107 | `N/A` marks exactly the documentation and configuration files. A code file's language is one of the table or `Unknown` |
| Classifier.CategorizeFilePrecedence | gitlab_mr_analyzer.py:101-107 | documentation exactly when its test passes; configuration exactly when its test passes and the documentation test does not; code otherwise, with the detected language |
| Classifier.DocumentationExtensionWins | gitlab_mr_analyzer.py:96-102 | any file name ending in a documentation extension, with a stem before it, is documentation whatever the rest of the path says |
| Classifier.ConfigModuleIsConfiguration | gitlab_mr_analyzer.py:103-104 | `src/config.py` is configuration, not Python code |
| Classifier.UpperCaseMarkdownIsCode | gitlab_mr_analyzer.py:99-107 | `README.MD` is code of language `Unknown`, because the extension test is case-sensitive |
| Classifier.HiddenMarkdownIsCode | gitlab_mr_analyzer.py:99-107 | `notes/.md` has no extension, so it is code of language `Unknown` |
| Categorization.AnalyzeMergeRequest | gitlab_mr_analyzer.py:109-125 | the result has exactly the three category keys, and each list is the bucket of that category in input order |
| Categorization.BucketAppend | gitlab_mr_analyzer.py:121-123 | sorting a concatenation of path lists is sorting each list and concatenating the buckets |
| Categorization.BucketSound | gitlab_mr_analyzer.py:121-123 | every entry of a bucket is an input path that `categorize_file` puts in that category, with the language it gives |
| Categorization.BucketComplete | gitlab_mr_analyzer.py:121-123 | every input path is in the bucket of its own category, with its language |
| Categorization.BucketsPartition | gitlab_mr_analyzer.py:115-125 | the three buckets together hold every input path exactly as often as the input does |
| Categorization.BucketSizes | gitlab_mr_analyzer.py:115-125 | the bucket sizes add up to the number of changed paths |
| MergeRequestUrl.PathSegments | gitlab_mr_analyzer.py:32 | the path segments are never an empty list, and no segment contains '/' |
| MergeRequestUrl.PathSegmentsJoin | gitlab_mr_analyzer.py:32 | the segments joined with '/' are the path stripped of '/' |
| MergeRequestUrl.ParseGitLabMrUrl | gitlab_mr_analyzer.py:27-40 | a successful parse has the merge request shape and the URL's host. A path of the wrong shape raises `ValueError("Invalid GitLab merge request URL")`. The iid is read by `int()` with its 4300-digit limit (`ParseGitLabMrUrlDigitLimit`) |
| MergeRequestUrl.ParseGitLabMrUrlFails | gitlab_mr_analyzer.py:34-38 | parsing fails exactly when the shape check fails or `int()` refuses the last segment, and it always fails with `ValueError` |
| MergeRequestUrl.ParseGitLabMrUrlDecomposes | gitlab_mr_analyzer.py:32-38 | the stripped path is the project path, one unchecked segment, `merge_requests` and the last segment. `int()` of the last segment is the iid |
| MergeRequestUrl.ParsedProjectPathNonEmpty | gitlab_mr_analyzer.py:34-37 | a parsed project path is never empty |
| MergeRequestUrl.RootedPathSegments | gitlab_mr_analyzer.py:32 | the segments of '/' followed by a join are the joined pieces, when none contains '/' and the first and last are not empty |
| MergeRequestUrl.ParseGitLabMrUrlRoundTrip | gitlab_mr_analyzer.py:27-40 | a URL built from a project path of two or more segments, any extra segment, `merge_requests` and a decimal iid of at most 4300 digits parses back to that project path and iid |
| MergeRequestUrl.ParseGitLabMrUrlDigitLimit | gitlab_mr_analyzer.py:34-38 | the same URL with a last segment of more than 4300 digits raises `ValueError` with the digit-limit message, because `int()` refuses it |
| Standards.StandardsPathCaseInsensitive | gitlab_mr_analyzer.py:132 | two languages share a standards file, and so a cache entry, exactly when they are equal up to letter case |
| Standards.Cache.constructor | gitlab_mr_analyzer.py:266 | the cache starts empty |
| Standards.ReadCodingStandards | gitlab_mr_analyzer.py:128-136 | a hit returns the cached document and reads nothing. A miss reads once and inserts the document under that key alone. A failed read leaves the cache unchanged. A cache that agrees with the store keeps agreeing, and then the result is the store's document |
| Scoring.FinalScore | gitlab_mr_analyzer.py:211-218 | 10 when there are no scores. Otherwise the result times the count is the sum, so it is the exact mean |
| Scoring.SumBounds | gitlab_mr_analyzer.py:218 | a sum of `n` scores between `lo` and `hi` lies between `n * lo` and `n * hi` |
| Scoring.FinalScoreBounds | gitlab_mr_analyzer.py:215-218 | the final score of scores between `lo` and `hi` lies between `lo` and `hi` |
| Scoring.FinalScoreInRange | gitlab_mr_analyzer.py:215-218 | scores within 0..10 give a final score within 0..10, including when there are no scores |
| Scoring.FinalScoreNotTruncated | gitlab_mr_analyzer.py:218 | scores 7 and 8 give 7.5: the mean is not rounded to an integer |
| Review.NewPaths | gitlab_mr_analyzer.py:50 | the changed paths are the `new_path` of each change, in order |
| Review.FirstDiffSpec | gitlab_mr_analyzer.py:283-289 | the search finds nothing exactly when no change has the path. Otherwise it finds the diff of a change with that path, and no earlier change has it |
| Review.FindChangeDiff | gitlab_mr_analyzer.py:283-289 | the loop with `break` yields the first matching diff, or nothing |
| Review.ReviewCodeFile | gitlab_mr_analyzer.py:274-303 | one code file adds no score without a standards document or a diff. Otherwise it adds the review of its first diff against the common standards followed by the language's own. A cache that agrees with the store keeps agreeing. A scored file adds its standards document to the cache under its standards path, and a skipped file leaves the cache unchanged |
| Review.ReviewBucket | gitlab_mr_analyzer.py:273-306 | the inner loop scores the files of the code bucket, in order, and adds nothing for any other bucket. The cache gains exactly the standards paths of the scored code files, and nothing for another bucket |
| Review.ReviewedKeysSpec | gitlab_mr_analyzer.py:273-300 | a standards path is read into the cache exactly when some file with that standards path is scored |
| Review.ReviewMergeRequest | gitlab_mr_analyzer.py:259-307 | the scores are those of the code bucket of the fetched paths, in order, with the standards cache starting empty. The final score is their mean |
| Review.CodeScoresAtMostOnePerFile | gitlab_mr_analyzer.py:271-303 | there is at most one score per code file |
| Review.CodeScoresAppend | gitlab_mr_analyzer.py:271-303 | the scores of two file lists in sequence are the first list's scores followed by the second's |
| Review.CodeScoresAllReviewed | gitlab_mr_analyzer.py:274-303 | when every file has a standards document and a change, each file gets exactly one score. The i-th score is the review of the i-th file's first diff |
| Review.FirstDiffFound | gitlab_mr_analyzer.py:281-289 | a path that some change has always has a diff |
| Review.ConsistentFetchFindsEveryDiff | gitlab_mr_analyzer.py:281-289 | when the re-fetch returns the first fetch's changes, no code file is skipped for a missing diff |
| Review.NonCodeFileNotScored | gitlab_mr_analyzer.py:305-306 | adding a path that is not code changes no score |
| GitLabVcs.ProjectSegments | vcs/gitlab.py:38 | `path_parts[:-3]` followed by the last three segments is `path_parts`. On the unset sentinel, or fewer than three segments, it is empty |
| GitLabVcs.GitLab.constructor | vcs/gitlab.py:7-12 | keeps the URL and sets every cache field to the sentinel |
| GitLabVcs.GitLab.Domain | vcs/gitlab.py:14-30 | parses the URL at most once. A first call succeeds exactly when the path has the merge request shape, and fails with `ValueError`. A later call returns the host without checking |
| GitLabVcs.GitLab.ProjectPath | vcs/gitlab.py:32-39 | returns the cached value when it is set. Otherwise it returns and caches every segment but the last three, joined with '/'. Before `domain()` has run it gives `""` |
| GitLabVcs.GitLab.ChangeId | vcs/gitlab.py:41-48 | returns the cached value when it is set. Otherwise it returns and caches the last segment. Before `domain()` has run it raises `IndexError` |
| GitLabVcs.GitLab.ProjectPathResolved | vcs/gitlab.py:32-39 | `project_path()` with `self.domain()` called: for an unparsed object it succeeds exactly on merge request paths, with the project segments joined. Afterwards the URL and its segments are parsed, a result is cached, and once the URL is parsed every later call succeeds |
| GitLabVcs.GitLab.ChangeIdResolved | vcs/gitlab.py:41-48 | `change_id()` with `self.domain()` called: for an unparsed object it succeeds exactly on merge request paths, with the last segment. Afterwards the URL and its segments are parsed, a result is cached, and once the URL is parsed every later call succeeds |
| GitLabVcs.ResolveAfterDomain | vcs/gitlab.py:14-48 | called in the order `domain()`, `project_path()`, `change_id()`, the backend agrees with `parse_gitlab_mr_url` on the host and the project path, and `int()` of its change id is the same iid |
| GitLabVcs.ResolveWithoutDomain | vcs/gitlab.py:32-48 | as written, calling `project_path()` and `change_id()` first gives `""` and `IndexError`. The project path then differs from the one `parse_gitlab_mr_url` gives |
| GitLabVcs.GitLabReconstruction | vcs/gitlab.py:22-38 | the project segments, the dropped segment, `merge_requests` and the change id together give back `path_parts` |
| GitHubVcs.GitHub.ProjectPath | vcs/github.py:18-28 | succeeds exactly when there are at least four segments and the last but one is `pull`. The result is the first two segments joined with '/'. Otherwise it raises `ValueError("Invalid GitHub pull request URL")` |
| GitHubVcs.GitHub.ChangeId | vcs/github.py:30-40 | the same check, then the last segment as a string |
| GitHubVcs.GitHubFailsTogether | vcs/github.py:11-40 | `project_path()` and `change_id()` fail on exactly the same URLs, and `domain()` on none |
| GitHubVcs.GitHubFourSegmentRoundTrip | vcs/github.py:23-40 | for a four-segment path, the project path, `/pull/` and the change id rebuild the stripped path |
| GitHubVcs.GitHubRoundTrip | vcs/github.py:11-40 | a URL built from segments ending in `pull` and a number gives the first two segments back as the project path and the number as the change id, whatever lies in between |

## Findings

| source | as written | input that shows it | evidently intended | confidence | as-written member | corrected member |
|---|---|---|---|---|---|---|
| vcs/gitlab.py:36 | `self.domain` names the method without calling it, so `project_path()` never parses the URL. It joins the sentinel `""` and returns `""` | `GitLab("https://gitlab.com/group/proj/-/merge_requests/7").project_path()` before any `domain()` call gives `""` instead of `group/proj` | `self.domain()`: parse and check first, then return `group/proj`, or raise `ValueError` for a bad URL | not executed | GitLabVcs.ResolveWithoutDomain | GitLabVcs.GitLab.ProjectPathResolved |
| vcs/gitlab.py:45 | the same missing call in `change_id()`: indexing the sentinel `""` with `[-1]` raises `IndexError` | `GitLab("https://gitlab.com/group/proj/-/merge_requests/7").change_id()` before any `domain()` call raises `IndexError` instead of returning `7` | `self.domain()`, then the last segment `7` | not executed | GitLabVcs.ResolveWithoutDomain | GitLabVcs.GitLab.ChangeIdResolved |

## Left out

- `urlparse` is not modelled. Every parser takes the URL's host and path
  directly, as `Url(netloc, path)`. Queries, fragments and percent-escapes
  are out of scope.
- The hosting services are not modelled. This covers `checkout_merge_request`,
  the fetches in `main`, and `GitLab.client`, `GitLab.checkout_changes`,
  `GitHub.client` and `GitHub.checkout_changes`. The change list they return
  is an input.
- The re-fetch at gitlab_mr_analyzer.py:281-282 is one input, `refetched`,
  taken to be the same list on every pass of the loop.
  `Review.ConsistentFetchFindsEveryDiff` covers the case where it equals the
  first fetch.
- The file system is not modelled. `os.path.exists` and `open(...).read()`
  are one `store` map, so the file cannot vanish between the existence check
  and the read. The text of `common.txt` is a parameter.
- The language-model calls are not modelled. `code_reviewer` is a function
  parameter from (standards, diff) to a score, and it never raises.
  `is_test_file` is left out, because its result is only printed.
- Printing, `print_review_details`, the `sys.argv` check, the `except`
  handlers and `sys.exit` are not modelled.
- vcs/version_control.py, the models/ files, and the aggregation of
  summaries and MUST findings are not part of this model.
- PyStrings.Lower: `str.lower` is modelled for ASCII letters only. Other
  letters are left unchanged.
- PyStrings.ParseIntDecimal: `int()` is modelled for ASCII digits only.
  Other Unicode decimal digits are refused where Python accepts them.
- PyStrings.ParseSigned: the 4300-digit limit is CPython's default. A limit
  changed through `sys.set_int_max_str_digits` or `PYTHONINTMAXSTRDIGITS` is
  not modelled. The limit is applied to well-formed digit runs only, so a
  malformed string with a long digit prefix gets the invalid-literal message
  where CPython reports the limit. Both are `ValueError`.
- PyStrings.ParseIntNeedsDigit: the `ValueError` message does not include
  the repr of the refused string.
- Scoring.FinalScore: the mean is an exact rational, not an IEEE double.
  Rounding of non-terminating means is not modelled.
- `GitHub.domain()` has no contract of its own beyond returning the host.
  `GitHubVcs.GitHubFailsTogether` states it.
