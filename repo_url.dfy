/** The owner/repository parsing that `fetch_commits` and `fetch_diff` both
    perform on the repository URL (commit_to_md.py lines 69-71 and 92-94),
    and the GitHub API addresses built from its result. */
module RepoUrl {
  import opened Types
  import opened Text

  datatype Repo = Repo(owner: string, name: string)

  predicate IsSlash(c: char) { c == '/' }

  /** The URL loses its trailing slashes and is cut at every `/`; the owner
      is the second-to-last piece and the repository the last. A URL with a
      single piece has no second-to-last one, and the lookup raises
      IndexError. */
  function ParseRepoUrl(url: string): (r: Result<Repo>)
    ensures r.Err? <==> '/' !in RStrip(url, IsSlash)
    ensures r.Err? ==> r.error == IndexError
  {
    var s := RStrip(url, IsSlash);
    var parts := Split(s, '/');
    JoinSplit(s, '/');
    if |parts| < 2 then Err(IndexError)
    else Ok(Repo(parts[|parts| - 2], parts[|parts| - 1]))
  }

  /** `repo.owner` and `repo.name` are the last two `/`-separated segments
      of `s`. */
  predicate IsLastTwoSegments(s: string, repo: Repo)
  {
    && '/' !in repo.owner && '/' !in repo.name
    && |repo.owner| + 1 + |repo.name| <= |s|
    && var k := |s| - |repo.name| - 1 - |repo.owner|;
       s[k..] == repo.owner + "/" + repo.name && (k == 0 || s[k - 1] == '/')
  }

  /** A parsed URL names the last two segments of the URL without its
      trailing slashes. */
  lemma ParseRepoUrlSegments(url: string)
    requires ParseRepoUrl(url).Ok?
    ensures IsLastTwoSegments(RStrip(url, IsSlash), ParseRepoUrl(url).value)
  {
    var s := RStrip(url, IsSlash);
    JoinSplit(s, '/');
    JoinedSegments(Split(s, '/'));
  }

  /** The last two parts of a `/`-join are its last two segments. */
  lemma JoinedSegments(parts: seq<string>)
    requires |parts| >= 2
    requires forall i :: 0 <= i < |parts| ==> '/' !in parts[i]
    ensures IsLastTwoSegments(Join(parts, '/'), Repo(parts[|parts| - 2], parts[|parts| - 1]))
  {
    var n := |parts|;
    var owner, name := parts[n - 2], parts[n - 1];
    var init := parts[..n - 1];
    JoinLast(parts, '/');
    if n == 2 {
      assert Join(init, '/') == owner;
      SegmentsAfter([], owner, name);
    } else {
      JoinLast(init, '/');
      SegmentsAfter(Join(init[..n - 2], '/') + "/", owner, name);
    }
  }

  lemma SegmentsAfter(prefix: string, owner: string, name: string)
    requires '/' !in owner && '/' !in name
    requires prefix == [] || prefix[|prefix| - 1] == '/'
    ensures IsLastTwoSegments(prefix + owner + "/" + name, Repo(owner, name))
  {
    var s := prefix + owner + "/" + name;
    assert s[|prefix|..] == owner + "/" + name;
    assert prefix != [] ==> s[|prefix| - 1] == prefix[|prefix| - 1];
  }

  /** Any number of trailing slashes is ignored. */
  lemma ParseIgnoresTrailingSlashes(url: string, k: nat)
    ensures ParseRepoUrl(url + seq(k, _ => '/')) == ParseRepoUrl(url)
  {
    RStripIgnoresTail(url, seq(k, _ => '/'), IsSlash);
  }

  /** A URL ending in `owner/name`, optionally followed by slashes, parses
      to that owner and name. */
  lemma ParseFindsOwnerAndName(prefix: string, owner: string, name: string, k: nat)
    requires '/' !in owner && '/' !in name && name != []
    requires prefix == [] || prefix[|prefix| - 1] == '/'
    ensures ParseRepoUrl(prefix + owner + "/" + name + seq(k, _ => '/')) == Ok(Repo(owner, name))
  {
    var url := prefix + owner + "/" + name;
    ParseIgnoresTrailingSlashes(url, k);
    assert url[|url| - 1] == name[|name| - 1];
    assert RStrip(url, IsSlash) == url;
    SplitEndsWith(prefix, owner, name);
  }

  /** Splitting `prefix + owner + "/" + name` on `/` ends with the pieces
      `owner` and `name`. */
  lemma SplitEndsWith(prefix: string, owner: string, name: string)
    requires '/' !in owner && '/' !in name
    requires prefix == [] || prefix[|prefix| - 1] == '/'
    ensures var parts := Split(prefix + owner + "/" + name, '/');
      |parts| >= 2 && parts[|parts| - 2] == owner && parts[|parts| - 1] == name
  {
    var tail := owner + "/" + name;
    SplitTwo(owner, name);
    if prefix != [] {
      var p := prefix[..|prefix| - 1];
      assert prefix + owner + "/" + name == p + ['/'] + tail;
      SplitAround(p, tail, '/');
    } else {
      assert prefix + owner + "/" + name == tail;
    }
  }

  lemma SplitTwo(owner: string, name: string)
    requires '/' !in owner && '/' !in name
    ensures Split(owner + "/" + name, '/') == [owner, name]
  {
    SplitAround(owner, name, '/');
    assert Split(owner, '/') == [owner];
    assert Split(name, '/') == [name];
  }

  const ApiRoot: string := "https://api.github.com/repos/"

  /** `f'https://api.github.com/repos/{owner}/{repo}/commits'`. */
  function CommitsUrl(repo: Repo): string
  {
    ApiRoot + repo.owner + "/" + repo.name + "/commits"
  }

  /** `f'https://api.github.com/repos/{owner}/{repo}/commits/{sha}'`. */
  function CommitUrl(repo: Repo, sha: string): string
  {
    CommitsUrl(repo) + "/" + sha
  }
}
