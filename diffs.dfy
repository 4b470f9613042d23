/** The diff fetcher (`fetch_diff`, commit_to_md.py lines 90-101) and the
    fan-out over all listed commits that `main` gathers (lines 176-180). */
module Diffs {
  import opened Types
  import opened RepoUrl

  /** The commit-detail endpoint: an API address to the `files` array of the
      answer, or the ClientError raised by the request. */
  type Detail = string -> Result<seq<FileChange>>

  /** `fetch_diff(session, repo_url, sha)`: parse the URL again and request
      `https://api.github.com/repos/{owner}/{repo}/commits/{sha}`. */
  function FetchDiff(url: string, sha: string, detail: Detail): Result<seq<FileChange>>
  {
    match ParseRepoUrl(url)
    case Err(e) => Err(e)
    case Ok(repo) => detail(CommitUrl(repo, sha))
  }

  /** Gathering one `fetch_diff` task per commit: the file lists in commit
      order when every fetch succeeds, otherwise an error of a failing fetch
      (the first one in commit order). */
  function GatherDiffs(url: string, commits: seq<Commit>, detail: Detail): (r: Result<seq<seq<FileChange>>>)
    ensures r.Ok? <==> forall i :: 0 <= i < |commits| ==> FetchDiff(url, commits[i].sha, detail).Ok?
    ensures r.Ok? ==> |r.value| == |commits|
    ensures r.Ok? ==> forall i :: 0 <= i < |commits| ==> r.value[i] == FetchDiff(url, commits[i].sha, detail).value
    decreases |commits|
  {
    if commits == [] then Ok([])
    else
      var n := |commits|;
      var init := commits[..n - 1];
      assert forall i :: 0 <= i < n - 1 ==> init[i] == commits[i];
      match GatherDiffs(url, init, detail)
      case Err(e) => Err(e)
      case Ok(files) =>
        match FetchDiff(url, commits[n - 1].sha, detail)
        case Err(e) => Err(e)
        case Ok(last) => Ok(files + [last])
  }

  /** A failed gather reports the error of the first failing fetch in commit
      order. */
  lemma {:induction false} GatherReportsFirstFailure(url: string, commits: seq<Commit>, detail: Detail)
    requires GatherDiffs(url, commits, detail).Err?
    ensures exists i :: && 0 <= i < |commits|
                        && FetchDiff(url, commits[i].sha, detail) == Err(GatherDiffs(url, commits, detail).error)
                        && forall j :: 0 <= j < i ==> FetchDiff(url, commits[j].sha, detail).Ok?
  {
    var n := |commits|;
    var init := commits[..n - 1];
    if GatherDiffs(url, init, detail).Err? {
      GatherReportsFirstFailure(url, init, detail);
      var i :| && 0 <= i < |init|
               && FetchDiff(url, init[i].sha, detail) == Err(GatherDiffs(url, init, detail).error)
               && forall j :: 0 <= j < i ==> FetchDiff(url, init[j].sha, detail).Ok?;
      assert forall j :: 0 <= j <= i ==> init[j] == commits[j];
    } else {
      assert forall j :: 0 <= j < n - 1 ==> init[j] == commits[j];
      assert FetchDiff(url, commits[n - 1].sha, detail).Err?;
    }
  }

  /** The loop that creates one task per commit, followed by the gather.
      Every task is started, so one detail request is issued per commit, in
      order, whether or not one of them fails. */
  method FetchDiffs(url: string, commits: seq<Commit>, detail: Detail)
    returns (r: Result<seq<seq<FileChange>>>, fetched: seq<string>)
    ensures |fetched| == |commits| && forall i :: 0 <= i < |commits| ==> fetched[i] == commits[i].sha
    ensures r == GatherDiffs(url, commits, detail)
  {
    var results: seq<Result<seq<FileChange>>> := [];
    fetched := [];
    var i := 0;
    while i < |commits|
      invariant 0 <= i <= |commits|
      invariant |fetched| == i && forall j :: 0 <= j < i ==> fetched[j] == commits[j].sha
      invariant |results| == i && forall j :: 0 <= j < i ==> results[j] == FetchDiff(url, commits[j].sha, detail)
    {
      results := results + [FetchDiff(url, commits[i].sha, detail)];
      fetched := fetched + [commits[i].sha];
      i := i + 1;
    }
    r := Ok([]);
    i := 0;
    while i < |results|
      invariant 0 <= i <= |results|
      invariant r == GatherDiffs(url, commits[..i], detail)
    {
      assert commits[..i + 1][..i] == commits[..i];
      if r.Ok? {
        match results[i]
        case Err(e) => r := Err(e);
        case Ok(files) => r := Ok(r.value + [files]);
      }
      i := i + 1;
    }
    assert commits[..|commits|] == commits;
  }
}
