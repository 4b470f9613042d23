/** The commit lister (`fetch_commits`, commit_to_md.py lines 67-87): ask for
    pages 1, 2, 3, ... of the commit list and concatenate them until a page
    comes back empty. Any failed request raises, and the pages already
    fetched are dropped with it. */
module Listing {
  import opened Types
  import opened RepoUrl

  /** The commit-list endpoint's answer to `?page=n&per_page=100` at one API
      address: the records of that page, or the ClientError raised by the
      request or by `raise_for_status`. */
  type Pages = nat -> Result<seq<Commit>>

  /** A response on which the loop leaves: a raised error or an empty page. */
  predicate Stops(resp: Result<seq<Commit>>)
  {
    resp.Err? || resp.value == []
  }

  /** The loop ends: some page fails or is empty. */
  ghost predicate Terminates(page: Pages)
  {
    exists n: nat :: n >= 1 && Stops(page(n))
  }

  /** `k` is the first page on which the loop leaves. */
  ghost predicate IsFirstStop(page: Pages, k: nat)
  {
    k >= 1 && Stops(page(k)) && forall j :: 1 <= j < k ==> !Stops(page(j))
  }

  function Records(resp: Result<seq<Commit>>): seq<Commit>
  {
    if resp.Ok? then resp.value else []
  }

  /** The records of pages `from` up to, not including, `to`, concatenated
      in page order. */
  function Collect(page: Pages, from: nat, to: nat): seq<Commit>
    decreases to
  {
    if to <= from then [] else Collect(page, from, to - 1) + Records(page(to - 1))
  }

  lemma {:induction false} FirstStopExists(page: Pages, n: nat)
    requires n >= 1 && Stops(page(n))
    ensures exists k :: IsFirstStop(page, k)
    decreases n
  {
    if j :| 1 <= j < n && Stops(page(j)) {
      FirstStopExists(page, j);
    } else {
      assert IsFirstStop(page, n);
    }
  }

  /** The page on which the loop leaves. */
  ghost function FirstStop(page: Pages): (k: nat)
    requires Terminates(page)
    ensures IsFirstStop(page, k)
  {
    var n: nat :| n >= 1 && Stops(page(n));
    FirstStopExists(page, n);
    var k :| IsFirstStop(page, k);
    k
  }

  /** What `fetch_commits` returns after the URL is parsed: the error of the
      first stopping page, or the records of all pages before it. */
  ghost function Listed(page: Pages): Result<seq<Commit>>
    requires Terminates(page)
  {
    var k := FirstStop(page);
    if page(k).Err? then Err(page(k).error) else Ok(Collect(page, 1, k))
  }

  /** The `while True` loop: request page 1, 2, ... in turn; the list of
      page numbers requested is returned beside the result. */
  method Paginate(page: Pages) returns (r: Result<seq<Commit>>, requested: seq<nat>)
    requires Terminates(page)
    ensures |requested| >= 1 && forall i :: 0 <= i < |requested| ==> requested[i] == i + 1
    ensures IsFirstStop(page, |requested|)
    ensures r.Err? <==> page(|requested|).Err?
    ensures r.Err? ==> r.error == page(|requested|).error
    ensures r.Ok? ==> r.value == Collect(page, 1, |requested|)
    ensures r == Listed(page)
  {
    ghost var stop: nat :| stop >= 1 && Stops(page(stop));
    var commits: seq<Commit> := [];
    var n: nat := 1;
    requested := [];
    while true
      invariant 1 <= n <= stop
      invariant |requested| == n - 1
      invariant forall i :: 0 <= i < |requested| ==> requested[i] == i + 1
      invariant forall j :: 1 <= j < n ==> !Stops(page(j))
      invariant commits == Collect(page, 1, n)
      decreases stop - n
    {
      requested := requested + [n];
      var resp := page(n);
      if resp.Err? {
        r := Err(resp.error);
        assert IsFirstStop(page, n);
        return;
      }
      if resp.value == [] {
        break;
      }
      commits := commits + resp.value;
      n := n + 1;
    }
    assert IsFirstStop(page, n);
    r := Ok(commits);
  }

  /** The listing fails exactly when some request fails before any page
      comes back empty; nothing fetched before the failure is returned. */
  lemma ListingFailsIffPageFails(page: Pages)
    requires Terminates(page)
    ensures Listed(page).Err? <==>
      exists n :: 1 <= n && page(n).Err? && forall j :: 1 <= j < n ==> page(j) != Ok([])
  {
    var k := FirstStop(page);
    if page(k).Err? {
      assert forall j :: 1 <= j < k ==> page(j) != Ok([]);
    }
    if n :| 1 <= n && page(n).Err? && forall j :: 1 <= j < n ==> page(j) != Ok([]) {
      if n > k {
        assert page(k) == Ok([]) || page(k).Err?;
      }
    }
  }

  /** Three pages of 100, 100 and 1 records followed by an empty one give
      201 records in page order after four requests. */
  lemma ThreePagesThenEmpty(page: Pages)
    requires page(1).Ok? && |page(1).value| == 100
    requires page(2).Ok? && |page(2).value| == 100
    requires page(3).Ok? && |page(3).value| == 1
    requires page(4) == Ok([])
    ensures Terminates(page) && FirstStop(page) == 4
    ensures Listed(page) == Ok(page(1).value + page(2).value + page(3).value)
    ensures |Listed(page).value| == 201
  {
    assert IsFirstStop(page, 4);
    assert Collect(page, 1, 2) == page(1).value;
    assert Collect(page, 1, 3) == page(1).value + page(2).value;
  }

  /** The commit-list endpoint at a fixed API address, as a function of the
      page number. */
  function PagesAt(listing: (string, nat) -> Result<seq<Commit>>, api: string): Pages
  {
    (n: nat) => listing(api, n)
  }

  /** The loop terminates for the address the URL parses to. */
  ghost predicate ListingTerminates(url: string, listing: (string, nat) -> Result<seq<Commit>>)
  {
    ParseRepoUrl(url).Ok? ==> Terminates(PagesAt(listing, CommitsUrl(ParseRepoUrl(url).value)))
  }

  /** What `fetch_commits(session, repo_url)` returns or raises. */
  ghost function CommitListing(url: string, listing: (string, nat) -> Result<seq<Commit>>): Result<seq<Commit>>
    requires ListingTerminates(url, listing)
  {
    match ParseRepoUrl(url)
    case Err(e) => Err(e)
    case Ok(repo) => Listed(PagesAt(listing, CommitsUrl(repo)))
  }

  /** `fetch_commits`: parse the URL, then paginate the commit list of
      `https://api.github.com/repos/{owner}/{repo}/commits`. */
  method FetchCommits(url: string, listing: (string, nat) -> Result<seq<Commit>>)
    returns (r: Result<seq<Commit>>, requested: seq<nat>)
    requires ListingTerminates(url, listing)
    ensures r == CommitListing(url, listing)
    ensures ParseRepoUrl(url).Err? ==> r == Err(IndexError) && requested == []
    ensures forall i :: 0 <= i < |requested| ==> requested[i] == i + 1
    ensures ParseRepoUrl(url).Ok? ==>
      IsFirstStop(PagesAt(listing, CommitsUrl(ParseRepoUrl(url).value)), |requested|)
  {
    var parsed := ParseRepoUrl(url);
    if parsed.Err? {
      return Err(parsed.error), [];
    }
    r, requested := Paginate(PagesAt(listing, CommitsUrl(parsed.value)));
  }
}
