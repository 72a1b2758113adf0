/** The code-file loop of `main` in gitlab_mr_analyzer.py: every code file of
    the merge request whose language has a standards document and whose diff
    can be found is reviewed once, and the scores are averaged. The hosting
    service, the file system and the language model are inputs: the change
    list as fetched, the store of standards documents, and the reviewer as a
    function from (standards, diff) to a score. */
module Review {
  import opened Wrappers
  import opened Classifier
  import opened Categorization
  import opened Standards
  import opened Scoring

  /** One element of `mr.changes()['changes']`: its `new_path` and `diff`. */
  datatype Change = Change(newPath: string, diff: string)

  /** `[change['new_path'] for change in changes]` */
  function NewPaths(changes: seq<Change>): (paths: seq<string>)
    ensures |paths| == |changes|
    ensures forall i | 0 <= i < |changes| :: paths[i] == changes[i].newPath
  {
    if |changes| == 0 then [] else [changes[0].newPath] + NewPaths(changes[1..])
  }

  /** The diff of the first change whose new path is `path`, or `None` when no
      change has it. */
  function FirstDiff(changes: seq<Change>, path: string): (diff: Option<string>) {
    if |changes| == 0 then None
    else if changes[0].newPath == path then Some(changes[0].diff)
    else FirstDiff(changes[1..], path)
  }

  /** `FirstDiff` is `None` exactly when no change carries the path, and
      otherwise the diff of a change that carries it with none before it
      that does. */
  lemma {:induction false} FirstDiffSpec(changes: seq<Change>, path: string)
    ensures FirstDiff(changes, path).None? <==> forall i | 0 <= i < |changes| :: changes[i].newPath != path
    ensures FirstDiff(changes, path).Some? ==>
              exists i | 0 <= i < |changes| ::
                && changes[i].newPath == path && changes[i].diff == FirstDiff(changes, path).value
                && forall j | 0 <= j < i :: changes[j].newPath != path
    decreases |changes|
  {
    if |changes| > 0 && changes[0].newPath != path {
      var rest := changes[1..];
      FirstDiffSpec(rest, path);
      assert forall i | 1 <= i < |changes| :: changes[i] == rest[i - 1];
      var d := FirstDiff(rest, path);
      if d.Some? {
        var i :| 0 <= i < |rest| && rest[i].newPath == path && rest[i].diff == d.value
                 && forall j | 0 <= j < i :: rest[j].newPath != path;
        assert changes[i + 1].newPath == path && changes[i + 1].diff == d.value;
        assert forall j | 0 <= j < i + 1 :: changes[j].newPath != path;
      }
    }
  }

  /** The `for change in changes: ... break / else: continue` search. */
  method FindChangeDiff(changes: seq<Change>, path: string) returns (contents: Option<string>)
    ensures contents == FirstDiff(changes, path)
  {
    contents := None;
    for i := 0 to |changes|
      invariant forall j | 0 <= j < i :: changes[j].newPath != path
      invariant FirstDiff(changes, path) == FirstDiff(changes[i..], path)
    {
      if changes[i].newPath == path {
        contents := Some(changes[i].diff);
        break;
      }
      assert changes[i..][1..] == changes[i + 1..];
    }
  }

  /** The scores one code file contributes: none when its language has no
      standards document (checked first), none when no change carries its
      path, otherwise the reviewer's score of its first diff against the
      common standards followed by the language's own. */
  function FileScore(e: Entry, changes: seq<Change>, store: map<string, string>, common: string,
                     reviewer: (string, string) -> int): (scores: seq<int>)
  {
    var key := StandardsPath(e.language);
    if key !in store then []
    else
      match FirstDiff(changes, e.path)
      case None => []
      case Some(diff) => [reviewer(common + store[key], diff)]
  }

  /** The scores of a list of code files, in list order. */
  function CodeScores(files: seq<Entry>, changes: seq<Change>, store: map<string, string>, common: string,
                      reviewer: (string, string) -> int): (scores: seq<int>)
  {
    if |files| == 0 then []
    else
      CodeScores(files[..|files| - 1], changes, store, common, reviewer)
        + FileScore(files[|files| - 1], changes, store, common, reviewer)
  }

  /** The standards files the code-file loop reads, and so caches: the key of
      every file that gets a score. Each is a file of the store. */
  function ReviewedKeys(files: seq<Entry>, changes: seq<Change>, store: map<string, string>, common: string,
                        reviewer: (string, string) -> int): (keys: set<string>)
    ensures forall k | k in keys :: k in store
  {
    if |files| == 0 then {}
    else
      var e := files[|files| - 1];
      ReviewedKeys(files[..|files| - 1], changes, store, common, reviewer)
        + (if FileScore(e, changes, store, common, reviewer) != [] then {StandardsPath(e.language)} else {})
  }

  /** A key is read exactly when some file with that standards path is scored. */
  lemma {:induction false} ReviewedKeysSpec(files: seq<Entry>, changes: seq<Change>, store: map<string, string>,
                                            common: string, reviewer: (string, string) -> int, k: string)
    ensures k in ReviewedKeys(files, changes, store, common, reviewer) <==>
              exists i | 0 <= i < |files| :: ScoredUnder(files[i], changes, store, common, reviewer, k)
    decreases |files|
  {
    if |files| > 0 {
      var n := |files| - 1;
      var front := files[..n];
      ReviewedKeysSpec(front, changes, store, common, reviewer, k);
      if k in ReviewedKeys(front, changes, store, common, reviewer) {
        var i :| 0 <= i < n && ScoredUnder(front[i], changes, store, common, reviewer, k);
        assert files[i] == front[i];
      }
      if exists i | 0 <= i < |files| :: ScoredUnder(files[i], changes, store, common, reviewer, k) {
        var i :| 0 <= i < |files| && ScoredUnder(files[i], changes, store, common, reviewer, k);
        if i < n {
          assert front[i] == files[i];
        }
      }
    }
  }

  /** The file gets a score and its standards file is `k`. */
  predicate ScoredUnder(e: Entry, changes: seq<Change>, store: map<string, string>, common: string,
                        reviewer: (string, string) -> int, k: string)
  {
    FileScore(e, changes, store, common, reviewer) != [] && StandardsPath(e.language) == k
  }

  /** One pass of the loop body for a code file: the existence check, the
      diff search, the cached standards read and the review. With a cache
      that agrees with the store, the read cannot fail and the cache keeps
      agreeing. */
  method ReviewCodeFile(e: Entry, changes: seq<Change>, store: map<string, string>, common: string,
                        reviewer: (string, string) -> int, cache: Cache)
    returns (fileScores: seq<int>)
    requires cache.Coherent(store)
    modifies cache
    ensures cache.Coherent(store)
    ensures fileScores == FileScore(e, changes, store, common, reviewer)
    ensures cache.entries == if fileScores == [] then old(cache.entries)
                             else old(cache.entries)[StandardsPath(e.language) := store[StandardsPath(e.language)]]
  {
    if StandardsPath(e.language) !in store {
      return [];
    }
    var contents := FindChangeDiff(changes, e.path);
    if contents.None? {
      return [];
    }
    var standards := ReadCodingStandards(e.language, cache, store);
    fileScores := [reviewer(common + standards.value, contents.value)];
  }

  /** The inner loop over one bucket: only the code bucket is reviewed, the
      other files are listed and nothing more. */
  method ReviewBucket(category: Category, files: seq<Entry>, changes: seq<Change>, store: map<string, string>,
                      common: string, reviewer: (string, string) -> int, cache: Cache)
    returns (scores: seq<int>)
    requires cache.Coherent(store)
    modifies cache
    ensures cache.Coherent(store)
    ensures scores == if category == Code then CodeScores(files, changes, store, common, reviewer) else []
    ensures cache.entries.Keys ==
              old(cache.entries).Keys + if category == Code then ReviewedKeys(files, changes, store, common, reviewer) else {}
  {
    scores := [];
    for i := 0 to |files|
      invariant cache.Coherent(store)
      invariant scores == if category == Code then CodeScores(files[..i], changes, store, common, reviewer) else []
      invariant cache.entries.Keys ==
                  old(cache.entries).Keys + if category == Code then ReviewedKeys(files[..i], changes, store, common, reviewer) else {}
    {
      assert files[..i + 1][..i] == files[..i];
      if category == Code {
        var fileScores := ReviewCodeFile(files[i], changes, store, common, reviewer, cache);
        scores := scores + fileScores;
      }
    }
    assert files[..|files|] == files;
  }

  const CategoryOrder: seq<Category> := [Documentation, Configuration, Code]

  /** The body of `main` from `analyze_merge_request` to `calculate_final_score`:
      the buckets are visited in the order `analyze_merge_request` builds them,
      only code files are reviewed, and standards are read through a cache that
      starts empty. */
  method ReviewMergeRequest(fetched: seq<Change>, refetched: seq<Change>, store: map<string, string>,
                            common: string, reviewer: (string, string) -> int)
    returns (scores: seq<int>, finalScore: real)
    ensures scores == CodeScores(Bucket(NewPaths(fetched), Code), refetched, store, common, reviewer)
    ensures finalScore == FinalScore(scores)
  {
    var result := AnalyzeMergeRequest(NewPaths(fetched));
    var cache := new Cache();
    scores := [];
    for ci := 0 to |CategoryOrder|
      invariant fresh(cache) && cache.Coherent(store)
      invariant scores == if ci == |CategoryOrder| then CodeScores(result[Code], refetched, store, common, reviewer) else []
    {
      var category := CategoryOrder[ci];
      var bucketScores := ReviewBucket(category, result[category], refetched, store, common, reviewer, cache);
      scores := scores + bucketScores;
    }
    finalScore := FinalScore(scores);
  }

  /** At most one score per code file. */
  lemma {:induction false} CodeScoresAtMostOnePerFile(files: seq<Entry>, changes: seq<Change>,
                                                      store: map<string, string>, common: string,
                                                      reviewer: (string, string) -> int)
    ensures |CodeScores(files, changes, store, common, reviewer)| <= |files|
    decreases |files|
  {
    if |files| > 0 {
      CodeScoresAtMostOnePerFile(files[..|files| - 1], changes, store, common, reviewer);
    }
  }

  /** The scores of two runs of files, one after the other, are the scores of
      the first followed by those of the second. */
  lemma {:induction false} CodeScoresAppend(a: seq<Entry>, b: seq<Entry>, changes: seq<Change>,
                                            store: map<string, string>, common: string,
                                            reviewer: (string, string) -> int)
    ensures CodeScores(a + b, changes, store, common, reviewer) ==
              CodeScores(a, changes, store, common, reviewer) + CodeScores(b, changes, store, common, reviewer)
    decreases |b|
  {
    if |b| == 0 {
      assert a + b == a;
    } else {
      assert (a + b)[..|a + b| - 1] == a + b[..|b| - 1];
      CodeScoresAppend(a, b[..|b| - 1], changes, store, common, reviewer);
    }
  }

  /** When every file has a standards document and a change, each file gets
      exactly one score, the `i`-th being the review of the `i`-th file's
      first diff against the common and the language's standards. */
  lemma {:induction false} CodeScoresAllReviewed(files: seq<Entry>, changes: seq<Change>,
                                                 store: map<string, string>, common: string,
                                                 reviewer: (string, string) -> int)
    requires forall i | 0 <= i < |files| ::
               StandardsPath(files[i].language) in store && FirstDiff(changes, files[i].path).Some?
    ensures var scores := CodeScores(files, changes, store, common, reviewer);
            && |scores| == |files|
            && forall i | 0 <= i < |files| ::
                 scores[i] == reviewer(common + store[StandardsPath(files[i].language)],
                                       FirstDiff(changes, files[i].path).value)
    decreases |files|
  {
    if |files| > 0 {
      var init, last := files[..|files| - 1], files[|files| - 1];
      assert forall i | 0 <= i < |init| :: init[i] == files[i];
      CodeScoresAllReviewed(init, changes, store, common, reviewer);
      var key := StandardsPath(last.language);
      assert FileScore(last, changes, store, common, reviewer) ==
               [reviewer(common + store[key], FirstDiff(changes, last.path).value)];
    }
  }

  /** A file whose path some change carries always has a diff. */
  lemma FirstDiffFound(changes: seq<Change>, path: string)
    requires path in NewPaths(changes)
    ensures FirstDiff(changes, path).Some?
  {
    var paths := NewPaths(changes);
    var i :| 0 <= i < |paths| && paths[i] == path;
    assert changes[i].newPath == path;
    FirstDiffSpec(changes, path);
  }

  /** When the re-fetch inside the loop returns the same changes as the
      first fetch, no code file is ever skipped for a missing diff. */
  lemma ConsistentFetchFindsEveryDiff(fetched: seq<Change>, e: Entry)
    requires e in Bucket(NewPaths(fetched), Code)
    ensures FirstDiff(fetched, e.path).Some?
  {
    BucketSound(NewPaths(fetched), Code, e);
    FirstDiffFound(fetched, e.path);
  }

  /** A path that is not code adds no score. */
  lemma NonCodeFileNotScored(paths: seq<string>, p: string, changes: seq<Change>,
                             store: map<string, string>, common: string, reviewer: (string, string) -> int)
    requires CategorizeFile(p).category != Code
    ensures CodeScores(Bucket(paths + [p], Code), changes, store, common, reviewer) ==
              CodeScores(Bucket(paths, Code), changes, store, common, reviewer)
  {
    assert (paths + [p])[..|paths|] == paths;
    assert Bucket(paths + [p], Code) == Bucket(paths, Code) + [];
    assert Bucket(paths, Code) + [] == Bucket(paths, Code);
  }
}
