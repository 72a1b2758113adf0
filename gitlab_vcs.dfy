/** The `GitLab` backend of vcs/gitlab.py: a parser of one merge request URL
    that works lazily and keeps what it has parsed in fields. Each field starts
    at the "not yet computed" sentinel `""`, modelled here as `None`, `Unset`
    or the empty string. */
module GitLabVcs {
  import opened Wrappers
  import opened PyStrings
  import opened MergeRequestUrl

  /** The `path_parts` field: the sentinel `""` or the list of path segments. */
  datatype CachedParts = Unset | Parts(segments: seq<string>)

  /** `path_parts[:-3]`. On the sentinel `""` the slice is `""` again, and
      `'/'.join("")` is `""`, so `Unset` behaves as no segments at all. */
  function ProjectSegments(c: CachedParts): (project: seq<string>)
    ensures c.Parts? && |c.segments| >= 3 ==>
              project + c.segments[|c.segments| - 3..] == c.segments
    ensures c.Unset? || |c.segments| < 3 ==> project == []
  {
    match c
    case Unset => []
    case Parts(s) => if |s| >= 3 then s[..|s| - 3] else []
  }

  class GitLab {
    /** The URL given to the constructor; no method assigns it again. */
    const mrUrl: Url
    var parsedUrl: Option<Url>
    var pathParts: CachedParts
    var projectUrlPath: string
    var requestId: string

    /** What the fields can hold between calls: the URL and its segments are
        parsed together and from `mrUrl`, and a non-sentinel project path or
        change id is the one computed from those segments. */
    ghost predicate Valid()
      reads this
    {
      && (parsedUrl.Some? <==> pathParts.Parts?)
      && (parsedUrl.Some? ==> parsedUrl.value == mrUrl && pathParts.segments == PathSegments(mrUrl.path))
      && (projectUrlPath != "" ==> projectUrlPath == Join(ProjectSegments(pathParts), '/'))
      && (requestId != "" ==> pathParts.Parts? && requestId == Last(pathParts.segments))
    }

    /** `GitLab(mr_url)`: keeps the URL and sets every cache to the sentinel. */
    constructor (url: Url)
      ensures mrUrl == url
      ensures parsedUrl == None && pathParts == Unset && projectUrlPath == "" && requestId == ""
      ensures Valid()
    {
      mrUrl := url;
      parsedUrl := None;
      pathParts := Unset;
      projectUrlPath := "";
      requestId := "";
    }

    /** `domain()`: parses the URL once and checks the merge request shape.
        The fields are assigned before the check, so after a call that raised
        `ValueError` a second call finds the cache set and returns the netloc
        without checking again. */
    method Domain() returns (r: Result<string>)
      requires Valid()
      modifies this`parsedUrl, this`pathParts
      ensures Valid()
      ensures parsedUrl == Some(mrUrl) && pathParts == Parts(PathSegments(mrUrl.path))
      ensures old(parsedUrl).Some? ==> r == Ok(mrUrl.netloc) && pathParts == old(pathParts)
      ensures old(parsedUrl).None? ==>
                (r.Ok? <==> IsMergeRequestPath(PathSegments(mrUrl.path)))
      ensures r.Ok? ==> r.value == mrUrl.netloc
      ensures r.Err? ==> r.error == ValueError(InvalidGitLabUrl)
    {
      if parsedUrl.Some? {
        return Ok(parsedUrl.value.netloc);
      }
      parsedUrl := Some(mrUrl);
      pathParts := Parts(PathSegments(mrUrl.path));
      if !IsMergeRequestPath(pathParts.segments) {
        return Err(ValueError(InvalidGitLabUrl));
      }
      r := Ok(parsedUrl.value.netloc);
    }

    /** `project_path()`: the cached value when there is one, otherwise every
        segment but the last three joined with '/', which becomes the cache.
        It does not parse: before `domain()` has run it yields `""` and
        caches nothing. */
    method ProjectPath() returns (p: string)
      requires Valid()
      modifies this`projectUrlPath
      ensures Valid()
      ensures p == Join(ProjectSegments(pathParts), '/')
      ensures old(projectUrlPath) != "" ==> p == old(projectUrlPath)
      ensures projectUrlPath == p
      ensures pathParts.Unset? ==> p == ""
    {
      if projectUrlPath != "" {
        return projectUrlPath;
      }
      projectUrlPath := Join(ProjectSegments(pathParts), '/');
      p := projectUrlPath;
    }

    /** `change_id()`: the cached value when there is one, otherwise the last
        segment as a string (no `int()`), which becomes the cache. Before
        `domain()` has run, `path_parts` is `""` and indexing it raises
        `IndexError`. */
    method ChangeId() returns (r: Result<string>)
      requires Valid()
      modifies this`requestId
      ensures Valid()
      ensures old(requestId) != "" ==> r == Ok(old(requestId))
      ensures pathParts.Unset? ==> r == Err(IndexError) && requestId == ""
      ensures pathParts.Parts? ==> r == Ok(Last(pathParts.segments)) && requestId == Last(pathParts.segments)
    {
      if requestId != "" {
        return Ok(requestId);
      }
      match pathParts
      case Unset =>
        r := Err(IndexError);
      case Parts(segments) =>
        requestId := Last(segments);
        r := Ok(requestId);
    }

    /** `project_path()` as its line `self.domain` evidently meant it: with
        `self.domain()` called, so the URL is parsed and checked first. */
    method ProjectPathResolved() returns (r: Result<string>)
      requires Valid()
      modifies this`parsedUrl, this`pathParts, this`projectUrlPath
      ensures Valid()
      ensures parsedUrl == Some(mrUrl) && pathParts == Parts(PathSegments(mrUrl.path))
      ensures r.Ok? ==> r.value == Join(ProjectSegments(Parts(PathSegments(mrUrl.path))), '/')
      ensures r.Ok? ==> projectUrlPath == r.value
      ensures old(parsedUrl).Some? ==> r.Ok?
      ensures old(parsedUrl).None? && old(projectUrlPath) == "" ==>
                (r.Ok? <==> IsMergeRequestPath(PathSegments(mrUrl.path)))
      ensures r.Err? ==> r.error == ValueError(InvalidGitLabUrl)
    {
      if projectUrlPath != "" {
        return Ok(projectUrlPath);
      }
      var d := Domain();
      if d.Err? {
        return Err(d.error);
      }
      var p := ProjectPath();
      r := Ok(p);
    }

    /** `change_id()` with `self.domain()` called: the last segment of a
        checked URL, and `int()` of it is the iid `parse_gitlab_mr_url` gives. */
    method ChangeIdResolved() returns (r: Result<string>)
      requires Valid()
      modifies this`parsedUrl, this`pathParts, this`requestId
      ensures Valid()
      ensures parsedUrl == Some(mrUrl) && pathParts == Parts(PathSegments(mrUrl.path))
      ensures r.Ok? ==> r.value == Last(PathSegments(mrUrl.path))
      ensures r.Ok? ==> requestId == r.value
      ensures old(parsedUrl).Some? ==> r.Ok?
      ensures old(parsedUrl).None? && old(requestId) == "" ==>
                (r.Ok? <==> IsMergeRequestPath(PathSegments(mrUrl.path)))
      ensures r.Err? ==> r.error == ValueError(InvalidGitLabUrl)
    {
      if requestId != "" {
        return Ok(requestId);
      }
      var d := Domain();
      if d.Err? {
        return Err(d.error);
      }
      r := ChangeId();
    }
  }

  /** The order the backend is meant to be used in: `domain()` first, then
      `project_path()` and `change_id()`. A URL `parse_gitlab_mr_url` accepts
      then gives the same domain and project path, and a change id whose
      `int()` is the same iid. */
  method ResolveAfterDomain(url: Url) returns (domain: Result<string>, project: string, id: Result<string>)
    ensures domain.Ok? <==> IsMergeRequestPath(PathSegments(url.path))
    ensures project == Join(ProjectSegments(Parts(PathSegments(url.path))), '/')
    ensures id == Ok(Last(PathSegments(url.path)))
    ensures ParseGitLabMrUrl(url).Ok? ==>
              && domain == Ok(ParseGitLabMrUrl(url).value.domain)
              && project == ParseGitLabMrUrl(url).value.projectPath
              && ParseInt(id.value) == Ok(ParseGitLabMrUrl(url).value.mrIid)
  {
    if ParseGitLabMrUrl(url).Ok? {
      ParseGitLabMrUrlOk(url);
    }
    var g := new GitLab(url);
    domain := g.Domain();
    project := g.ProjectPath();
    id := g.ChangeId();
  }

  /** As written, `project_path()` and `change_id()` called on a fresh object
      never parse: the project path is `""` even for a URL that
      `parse_gitlab_mr_url` accepts with a non-empty project path, and the
      change id raises `IndexError`. */
  method ResolveWithoutDomain(url: Url) returns (project: string, id: Result<string>)
    ensures project == "" && id == Err(IndexError)
    ensures ParseGitLabMrUrl(url).Ok? ==> project != ParseGitLabMrUrl(url).value.projectPath
  {
    var g := new GitLab(url);
    project := g.ProjectPath();
    id := g.ChangeId();
    if ParseGitLabMrUrl(url).Ok? {
      ParsedProjectPathNonEmpty(url);
    }
  }

  /** `path_parts` is given back by the project segments, the one segment that
      is dropped unchecked, `merge_requests` and the change id. */
  lemma GitLabReconstruction(url: Url)
    requires IsMergeRequestPath(PathSegments(url.path))
    ensures var parts := PathSegments(url.path);
            ProjectSegments(Parts(parts)) + [parts[|parts| - 3], MergeRequestsSegment, Last(parts)] == parts
  {
    var parts := PathSegments(url.path);
    assert parts[|parts| - 3..] == [parts[|parts| - 3], MergeRequestsSegment, Last(parts)];
  }
}
