/** `parse_gitlab_mr_url` of gitlab_mr_analyzer.py, and the path splitting it
    shares with the GitLab and GitHub backends. */
module MergeRequestUrl {
  import opened Wrappers
  import opened PyStrings

  /** The two parts of `urlparse(url)` that the parsers read. */
  datatype Url = Url(netloc: string, path: string)

  /** `url.path.strip('/').split('/')`: never empty, and no piece holds a '/'. */
  function PathSegments(path: string): (parts: seq<string>)
    ensures |parts| >= 1
    ensures forall i | 0 <= i < |parts| :: '/' !in parts[i]
  {
    Split(Strip(path, {'/'}), '/')
  }

  /** The segments join back to the stripped path. */
  lemma PathSegmentsJoin(path: string)
    ensures Join(PathSegments(path), '/') == Strip(path, {'/'})
  {
    JoinSplit(Strip(path, {'/'}), '/');
  }

  function Last(parts: seq<string>): (s: string)
    requires |parts| >= 1
  {
    parts[|parts| - 1]
  }

  const MergeRequestsSegment := "merge_requests"
  const InvalidGitLabUrl := "Invalid GitLab merge request URL"

  /** The shape check shared by `parse_gitlab_mr_url` and `GitLab.domain`. */
  predicate IsMergeRequestPath(parts: seq<string>) {
    |parts| >= 5 && parts[|parts| - 2] == MergeRequestsSegment
  }

  /** What `parse_gitlab_mr_url` returns: (netloc, project path, merge request iid). */
  datatype MergeRequestRef = MergeRequestRef(domain: string, projectPath: string, mrIid: int)

  /** `parse_gitlab_mr_url(url)`: the project path is every segment but the
      last three; the iid is `int()` of the last one. */
  function ParseGitLabMrUrl(url: Url): (r: Result<MergeRequestRef>)
    ensures r.Ok? ==> IsMergeRequestPath(PathSegments(url.path)) && r.value.domain == url.netloc
    ensures !IsMergeRequestPath(PathSegments(url.path)) ==> r == Err(ValueError(InvalidGitLabUrl))
  {
    ParseSegments(url.netloc, PathSegments(url.path))
  }

  /** The part of `parse_gitlab_mr_url` that follows the split of the path. */
  function ParseSegments(domain: string, parts: seq<string>): (r: Result<MergeRequestRef>) {
    if !IsMergeRequestPath(parts) then Err(ValueError(InvalidGitLabUrl))
    else
      match ParseInt(Last(parts))
      case Err(e) => Err(e)
      case Ok(iid) => Ok(MergeRequestRef(domain, Join(parts[..|parts| - 3], '/'), iid))
  }

  /** The two ways `parse_gitlab_mr_url` raises `ValueError`: a path of the
      wrong shape, or a last segment that `int()` refuses. */
  lemma ParseGitLabMrUrlFails(url: Url)
    ensures ParseGitLabMrUrl(url).Err? <==>
              !IsMergeRequestPath(PathSegments(url.path)) || ParseInt(Last(PathSegments(url.path))).Err?
    ensures ParseGitLabMrUrl(url).Err? ==> ParseGitLabMrUrl(url).error.ValueError?
  {
  }

  /** A parsed reference rebuilds the stripped path: the project path, one
      discarded segment, `merge_requests`, and a last segment whose `int()` is
      the iid. */
  lemma ParseGitLabMrUrlDecomposes(url: Url)
    requires ParseGitLabMrUrl(url).Ok?
    ensures var parts := PathSegments(url.path);
            var ref := ParseGitLabMrUrl(url).value;
            && Strip(url.path, {'/'}) ==
                 ref.projectPath + "/" + parts[|parts| - 3] + "/" + MergeRequestsSegment + "/" + Last(parts)
            && ParseInt(Last(parts)) == Ok(ref.mrIid)
  {
    PathSegmentsJoin(url.path);
    SegmentsDecompose(url.netloc, PathSegments(url.path), Strip(url.path, {'/'}));
  }

  /** The segments of a merge request path are its project path, one more
      segment, `merge_requests` and the last segment, joined with '/'. */
  lemma SegmentsDecompose(domain: string, parts: seq<string>, stripped: string)
    requires ParseSegments(domain, parts).Ok? && stripped == Join(parts, '/')
    ensures var ref := ParseSegments(domain, parts).value;
            && stripped == ref.projectPath + "/" + parts[|parts| - 3] + "/" + MergeRequestsSegment + "/" + Last(parts)
            && ParseInt(Last(parts)) == Ok(ref.mrIid)
  {
    ParseSegmentsOk(domain, parts);
    var project := ParseSegments(domain, parts).value.projectPath;
    JoinLastThree(parts, '/', project, parts[|parts| - 3], MergeRequestsSegment, Last(parts));
  }

  /** The last three pieces of a join, taken apart. */
  lemma JoinLastThree(parts: seq<string>, sep: char, front: string, x: string, y: string, z: string)
    requires |parts| >= 4
    requires front == Join(parts[..|parts| - 3], sep)
    requires x == parts[|parts| - 3] && y == parts[|parts| - 2] && z == parts[|parts| - 1]
    ensures Join(parts, sep) == front + [sep] + x + [sep] + y + [sep] + z
  {
    var n := |parts|;
    var head, tail := parts[..n - 3], parts[n - 3..];
    assert parts == head + tail;
    JoinAppend(head, tail, sep);
    JoinThree(tail, sep);
    assert tail[0] == x && tail[1] == y && tail[2] == z;
    ConcatShape(front, x, y, z, sep);
  }

  /** Round trip: a merge request URL written from a project path of two or
      more segments, any one extra segment (GitLab's `-`), `merge_requests`
      and the decimal iid parses back to that project path and iid, for every
      iid whose decimal string is within `int()`'s digit limit. */
  lemma ParseGitLabMrUrlRoundTrip(domain: string, project: seq<string>, extra: string, iid: nat)
    requires |project| >= 2 && project[0] != ""
    requires forall i | 0 <= i < |project| :: '/' !in project[i]
    requires '/' !in extra
    requires |DecimalString(iid)| <= MaxStrDigits
    ensures ParseGitLabMrUrl(Url(domain, "/" + Join(project + [extra, MergeRequestsSegment, DecimalString(iid)], '/')))
              == Ok(MergeRequestRef(domain, Join(project, '/'), iid))
  {
    var parts := project + [extra, MergeRequestsSegment, DecimalString(iid)];
    BuiltPathSegments(project, extra, DecimalString(iid));
    ParseIntDecimal(iid);
    assert parts[..|parts| - 3] == project;
  }

  /** The same URL with an iid of more digits than the limit is refused with
      `ValueError`, as `int()` refuses its last segment. */
  lemma ParseGitLabMrUrlDigitLimit(domain: string, project: seq<string>, extra: string, id: string)
    requires |project| >= 2 && project[0] != ""
    requires forall i | 0 <= i < |project| :: '/' !in project[i]
    requires '/' !in extra
    requires |id| > MaxStrDigits && forall i | 0 <= i < |id| :: IsDigit(id[i])
    ensures ParseGitLabMrUrl(Url(domain, "/" + Join(project + [extra, MergeRequestsSegment, id], '/')))
              == Err(ValueError(DigitLimitMessage(|id|)))
  {
    BuiltPathSegments(project, extra, id);
    ParseIntDigitLimit(id);
  }

  /** The segments of a URL path built from a project path, one extra segment,
      `merge_requests` and a digit string are exactly those pieces. */
  lemma BuiltPathSegments(project: seq<string>, extra: string, id: string)
    requires |project| >= 2 && project[0] != ""
    requires forall i | 0 <= i < |project| :: '/' !in project[i]
    requires '/' !in extra
    requires |id| >= 1 && forall i | 0 <= i < |id| :: IsDigit(id[i])
    ensures var parts := project + [extra, MergeRequestsSegment, id];
            && PathSegments("/" + Join(parts, '/')) == parts
            && IsMergeRequestPath(parts) && Last(parts) == id
  {
    var parts := project + [extra, MergeRequestsSegment, id];
    assert forall i | 0 <= i < |id| :: id[i] != '/';
    assert forall i | 0 <= i < |parts| :: '/' !in parts[i];
    RootedPathSegments(parts);
  }

  /** The segments of '/' followed by a join are the joined pieces, when none
      holds a '/' and the first and last are not empty. */
  lemma RootedPathSegments(parts: seq<string>)
    requires |parts| >= 1 && parts[0] != "" && Last(parts) != ""
    requires forall i | 0 <= i < |parts| :: '/' !in parts[i]
    ensures PathSegments("/" + Join(parts, '/')) == parts
  {
    var s := Join(parts, '/');
    JoinStart(parts, '/');
    JoinEnd(parts, '/');
    StripSurrounded("/", s, "", {'/'});
    assert "/" + s + "" == "/" + s;
    SplitJoin(parts, '/');
  }

  /** A parsed project path is never empty: it has at least two segments, so
      it holds at least the '/' between them. */
  lemma ParsedProjectPathNonEmpty(url: Url)
    requires ParseGitLabMrUrl(url).Ok?
    ensures ParseGitLabMrUrl(url).value.projectPath != ""
  {
    var parts := PathSegments(url.path);
    var head := parts[..|parts| - 3];
    assert Join(head, '/') == head[0] + ['/'] + Join(head[1..], '/');
  }

  /** What a successful parse is made of, piece by piece. */
  lemma ParseGitLabMrUrlOk(url: Url)
    requires ParseGitLabMrUrl(url).Ok?
    ensures var parts, ref := PathSegments(url.path), ParseGitLabMrUrl(url).value;
            && IsMergeRequestPath(parts)
            && ref.domain == url.netloc
            && ref.projectPath == Join(parts[..|parts| - 3], '/')
            && ParseInt(Last(parts)) == Ok(ref.mrIid)
  {
    ParseSegmentsOk(url.netloc, PathSegments(url.path));
  }

  lemma ParseSegmentsOk(domain: string, parts: seq<string>)
    requires ParseSegments(domain, parts).Ok?
    ensures var ref := ParseSegments(domain, parts).value;
            && IsMergeRequestPath(parts)
            && ref.domain == domain
            && ref.projectPath == Join(parts[..|parts| - 3], '/')
            && ParseInt(Last(parts)) == Ok(ref.mrIid)
  {
  }
}
