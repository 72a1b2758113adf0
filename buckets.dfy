/** `analyze_merge_request` of gitlab_mr_analyzer.py: the changed paths of a
    merge request sorted into three buckets by `categorize_file`. */
module Categorization {
  import opened Classifier

  /** One bucket entry, the `(file_path, language)` pair. */
  datatype Entry = Entry(path: string, language: string)

  /** The entry `analyze_merge_request` appends for a path. */
  function EntryOf(path: string): (e: Entry) {
    Entry(path, CategorizeFile(path).language)
  }

  /** The bucket of category `c`: the entries of the paths `categorize_file`
      puts in `c`, in input order. */
  function Bucket(paths: seq<string>, c: Category): (b: seq<Entry>) {
    if |paths| == 0 then []
    else
      var last := paths[|paths| - 1];
      Bucket(paths[..|paths| - 1], c) + (if CategorizeFile(last).category == c then [EntryOf(last)] else [])
  }

  const AllCategories: set<Category> := {Documentation, Configuration, Code}

  /** `analyze_merge_request`: one pass over the paths, appending each one's
      entry to the list of its category. All three keys are present even
      when their list stays empty. */
  method AnalyzeMergeRequest(paths: seq<string>) returns (result: map<Category, seq<Entry>>)
    ensures result.Keys == AllCategories
    ensures forall c | c in result :: result[c] == Bucket(paths, c)
  {
    result := map[Documentation := [], Configuration := [], Code := []];
    for i := 0 to |paths|
      invariant result.Keys == AllCategories
      invariant forall c | c in result :: result[c] == Bucket(paths[..i], c)
    {
      var k := CategorizeFile(paths[i]);
      result := result[k.category := result[k.category] + [Entry(paths[i], k.language)]];
      assert paths[..i + 1][..i] == paths[..i];
    }
    assert paths[..|paths|] == paths;
  }

  /** The paths of a list of entries. */
  function Paths(entries: seq<Entry>): (ps: seq<string>)
    ensures |ps| == |entries|
  {
    if |entries| == 0 then [] else Paths(entries[..|entries| - 1]) + [entries[|entries| - 1].path]
  }

  /** Sorting a concatenation sorts each part and keeps them in order. */
  lemma {:induction false} BucketAppend(a: seq<string>, b: seq<string>, c: Category)
    ensures Bucket(a + b, c) == Bucket(a, c) + Bucket(b, c)
    decreases |b|
  {
    if |b| == 0 {
      assert a + b == a;
    } else {
      var n := |b|;
      assert (a + b)[..|a + b| - 1] == a + b[..n - 1];
      BucketAppend(a, b[..n - 1], c);
    }
  }

  /** Every entry of bucket `c` is an input path that `categorize_file`
      places in `c`, with the language it gives; so no path is in two buckets. */
  lemma {:induction false} BucketSound(paths: seq<string>, c: Category, e: Entry)
    requires e in Bucket(paths, c)
    ensures e.path in paths
    ensures CategorizeFile(e.path) == Classification(c, e.language)
    decreases |paths|
  {
    var n := |paths|;
    var init := paths[..n - 1];
    if e in Bucket(init, c) {
      BucketSound(init, c, e);
      assert e.path in paths by {
        var i :| 0 <= i < |init| && init[i] == e.path;
        assert paths[i] == e.path;
      }
    } else {
      assert e == EntryOf(paths[n - 1]);
    }
  }

  /** Every input path is in the bucket of its category, with its language. */
  lemma {:induction false} BucketComplete(paths: seq<string>, i: nat)
    requires i < |paths|
    ensures EntryOf(paths[i]) in Bucket(paths, CategorizeFile(paths[i]).category)
    decreases |paths|
  {
    var n := |paths|;
    if i < n - 1 {
      var init := paths[..n - 1];
      assert init[i] == paths[i];
      BucketComplete(init, i);
    }
  }

  /** The three buckets together hold every input path exactly as often as the
      input does. */
  lemma {:induction false} BucketsPartition(paths: seq<string>)
    ensures PartitionOf(paths)
    decreases |paths|
  {
    if |paths| > 0 {
      BucketsPartition(paths[..|paths| - 1]);
      PartitionStep(paths);
    } else {
      assert Bucket(paths, Documentation) == [] && Bucket(paths, Configuration) == [] && Bucket(paths, Code) == [];
      assert Paths([]) == [];
    }
  }

  /** The paths of the three buckets, together, are the input paths. */
  predicate PartitionOf(paths: seq<string>) {
    multiset(Paths(Bucket(paths, Documentation))) + multiset(Paths(Bucket(paths, Configuration)))
      + multiset(Paths(Bucket(paths, Code))) == multiset(paths)
  }

  lemma PartitionStep(paths: seq<string>)
    requires |paths| > 0 && PartitionOf(paths[..|paths| - 1])
    ensures PartitionOf(paths)
  {
    var n := |paths|;
    var init, last := paths[..n - 1], paths[n - 1];
    assert paths == init + [last];
    assert multiset(paths) == multiset(init) + multiset{last};
    BucketPathsStep(paths, Documentation);
    BucketPathsStep(paths, Configuration);
    BucketPathsStep(paths, Code);
    AddToOneBucket(
      multiset(Paths(Bucket(init, Documentation))), multiset(Paths(Bucket(init, Configuration))),
      multiset(Paths(Bucket(init, Code))),
      multiset(Paths(Bucket(paths, Documentation))), multiset(Paths(Bucket(paths, Configuration))),
      multiset(Paths(Bucket(paths, Code))),
      last, CategorizeFile(last).category);
  }

  /** Adding one path to exactly one of three buckets adds it once to their union. */
  lemma AddToOneBucket(d: multiset<string>, f: multiset<string>, c: multiset<string>,
                       d': multiset<string>, f': multiset<string>, c': multiset<string>,
                       x: string, k: Category)
    requires d' == d + (if k == Documentation then multiset{x} else multiset{})
    requires f' == f + (if k == Configuration then multiset{x} else multiset{})
    requires c' == c + (if k == Code then multiset{x} else multiset{})
    ensures d' + f' + c' == d + f + c + multiset{x}
  {
  }

  /** One more path adds itself to the paths of its own bucket only. */
  lemma BucketPathsStep(paths: seq<string>, c: Category)
    requires |paths| > 0
    ensures var n := |paths|;
            multiset(Paths(Bucket(paths, c))) ==
              multiset(Paths(Bucket(paths[..n - 1], c)))
              + (if CategorizeFile(paths[n - 1]).category == c then multiset{paths[n - 1]} else multiset{})
  {
    var n := |paths|;
    var init, last := paths[..n - 1], paths[n - 1];
    var a := Bucket(init, c);
    var b := Bucket(paths, c);
    if CategorizeFile(last).category == c {
      assert b == a + [EntryOf(last)];
      assert b[..|b| - 1] == a;
      assert Paths(b) == Paths(a) + [last];
      assert multiset(Paths(b)) == multiset(Paths(a)) + multiset{last};
    } else {
      assert b == a + [];
      assert a + [] == a;
    }
  }

  /** The bucket sizes add up to the number of paths. */
  lemma BucketSizes(paths: seq<string>)
    ensures |Bucket(paths, Documentation)| + |Bucket(paths, Configuration)| + |Bucket(paths, Code)| == |paths|
  {
    BucketsPartition(paths);
    assert |multiset(paths)| == |paths|;
  }
}
