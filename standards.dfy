/** `read_coding_standards` of gitlab_mr_analyzer.py: coding standards
    documents read from `standards/coding/` and memoised in a dictionary that
    the caller owns. The file system is a map from path to file contents. */
module Standards {
  import opened Wrappers
  import opened PyStrings

  const StandardsDirectory := "standards/coding/"
  const StandardsSuffix := ".txt"

  /** The file, and cache key, of a language's coding standards. */
  function StandardsPath(language: string): (path: string) {
    StandardsDirectory + Lower(language) + StandardsSuffix
  }

  /** Two languages share a standards file, and so a cache entry, exactly
      when they are equal up to letter case. */
  lemma StandardsPathCaseInsensitive(a: string, b: string)
    ensures StandardsPath(a) == StandardsPath(b) <==> Lower(a) == Lower(b)
  {
    if StandardsPath(a) == StandardsPath(b) {
      var pa, pb := StandardsPath(a), StandardsPath(b);
      var d := |StandardsDirectory|;
      assert |Lower(a)| == |Lower(b)|;
      assert pa[d..d + |Lower(a)|] == Lower(a);
      assert pb[d..d + |Lower(b)|] == Lower(b);
    }
  }

  /** `open(path).read()` against the store: the contents, or
      `FileNotFoundError` for a path that is not there. */
  function ReadFile(store: map<string, string>, path: string): (r: Result<string>) {
    if path in store then Ok(store[path]) else Err(FileNotFoundError(path))
  }

  /** The dictionary of documents read so far, which the caller passes to
      every call. */
  class Cache {
    var entries: map<string, string>

    /** An empty dictionary. */
    constructor ()
      ensures entries == map[]
    {
      entries := map[];
    }

    /** Every cached document is the store's document at that path. */
    ghost predicate Coherent(store: map<string, string>)
      reads this
    {
      forall path | path in entries :: path in store && entries[path] == store[path]
    }
  }

  /** `read_coding_standards(language, cache)`: the cached document when the
      key is present, with nothing read; otherwise one read, whose document is
      inserted under that key alone. A read that fails leaves the cache as it
      was. */
  method ReadCodingStandards(language: string, cache: Cache, store: map<string, string>) returns (r: Result<string>)
    modifies cache
    ensures var key := StandardsPath(language);
            && (key in old(cache.entries) ==> r == Ok(old(cache.entries)[key]) && cache.entries == old(cache.entries))
            && (key !in old(cache.entries) && key in store ==>
                  r == Ok(store[key]) && cache.entries == old(cache.entries)[key := store[key]])
            && (key !in old(cache.entries) && key !in store ==>
                  r == ReadFile(store, key) && cache.entries == old(cache.entries))
    ensures old(cache.Coherent(store)) ==> cache.Coherent(store) && r == ReadFile(store, StandardsPath(language))
  {
    var filename := StandardsPath(language);
    if filename !in cache.entries {
      var contents := ReadFile(store, filename);
      if contents.Err? {
        return Err(contents.error);
      }
      cache.entries := cache.entries[filename := contents.value];
    }
    r := Ok(cache.entries[filename]);
  }
}
