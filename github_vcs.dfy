/** The `GitHub` backend of vcs/github.py: it keeps only the pull request URL
    and parses it again on every call, so its operations are functions of
    that URL. */
module GitHubVcs {
  import opened Wrappers
  import opened PyStrings
  import opened MergeRequestUrl

  const PullSegment := "pull"
  const InvalidGitHubUrl := "Invalid GitHub pull request URL"

  /** The shape check of `project_path` and `change_id`. */
  predicate IsPullRequestPath(parts: seq<string>) {
    |parts| >= 4 && parts[|parts| - 2] == PullSegment
  }

  datatype GitHub = GitHub(mrUrl: Url) {

    /** `domain()`: the netloc, with no check of the path at all. */
    function Domain(): (d: string) {
      mrUrl.netloc
    }

    /** `project_path()`: the first two segments joined with '/', however many
        segments stand between them and `pull`. */
    function ProjectPath(): (r: Result<string>)
      ensures var parts := PathSegments(mrUrl.path);
              && (r.Ok? <==> IsPullRequestPath(parts))
              && (r.Ok? ==> r.value == parts[0] + "/" + parts[1])
              && (r.Err? ==> r.error == ValueError(InvalidGitHubUrl))
    {
      var parts := PathSegments(mrUrl.path);
      if !IsPullRequestPath(parts) then Err(ValueError(InvalidGitHubUrl))
      else
        JoinTwo(parts[0], parts[1], '/');
        assert parts[..2] == [parts[0], parts[1]];
        Ok(Join(parts[..2], '/'))
    }

    /** `change_id()`: the last segment, as a string. */
    function ChangeId(): (r: Result<string>)
      ensures var parts := PathSegments(mrUrl.path);
              && (r.Ok? <==> IsPullRequestPath(parts))
              && (r.Ok? ==> r.value == Last(parts))
              && (r.Err? ==> r.error == ValueError(InvalidGitHubUrl))
    {
      var parts := PathSegments(mrUrl.path);
      if !IsPullRequestPath(parts) then Err(ValueError(InvalidGitHubUrl))
      else Ok(Last(parts))
    }
  }

  /** `project_path()` and `change_id()` fail on exactly the same URLs, and
      `domain()` on none of them. */
  lemma GitHubFailsTogether(g: GitHub)
    ensures g.ProjectPath().Err? <==> g.ChangeId().Err?
    ensures g.Domain() == g.mrUrl.netloc
  {
  }

  /** For a path of exactly four segments, the project path, `/pull/` and the
      change id rebuild the stripped path. */
  lemma GitHubFourSegmentRoundTrip(g: GitHub)
    requires g.ProjectPath().Ok? && |PathSegments(g.mrUrl.path)| == 4
    ensures g.ProjectPath().value + "/" + PullSegment + "/" + g.ChangeId().value == Strip(g.mrUrl.path, {'/'})
  {
    var parts := PathSegments(g.mrUrl.path);
    PathSegmentsJoin(g.mrUrl.path);
    assert parts[..1] == [parts[0]];
    JoinLastThree(parts, '/', parts[0], parts[1], parts[2], parts[3]);
  }

  /** A pull request URL written from path segments that end in `pull` and a
      number gives back the first two segments (owner and repository) as the
      project path and the number as the change id, whatever segments stand
      in between. */
  lemma GitHubRoundTrip(domain: string, parts: seq<string>)
    requires IsPullRequestPath(parts)
    requires parts[0] != "" && Last(parts) != ""
    requires forall i | 0 <= i < |parts| :: '/' !in parts[i]
    ensures var g := GitHub(Url(domain, "/" + Join(parts, '/')));
            && g.Domain() == domain
            && g.ProjectPath() == Ok(parts[0] + "/" + parts[1])
            && g.ChangeId() == Ok(Last(parts))
  {
    RootedPathSegments(parts);
  }
}
