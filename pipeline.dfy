/** The orchestration in `main` (commit_to_md.py lines 171-191): list the
    commits, keep only the first under `--latest`, fetch every diff, and
    write one document per commit in list order. Any repository error
    aborts the run before the first document is written. */
module Pipeline {
  import opened Types
  import opened Text
  import opened RepoUrl
  import opened Listing
  import opened Diffs
  import opened Documents

  /** What `main` prints at the end: the success line, the GitHub error
      (a ClientError) or the unexpected error (anything else, such as the
      IndexError of a short URL). */
  datatype Outcome = Written | GitHubError(reason: string) | UnexpectedError

  function Report(e: Error): (o: Outcome)
    ensures o != Written
    ensures o.GitHubError? <==> e.ClientError?
    ensures e.ClientError? ==> o.reason == e.reason
  {
    match e
    case ClientError(reason) => GitHubError(reason)
    case IndexError => UnexpectedError
    case AttributeError => UnexpectedError
  }

  /** The commits kept for writing: under `--latest` only the first listed
      one (none when the list is empty), otherwise all of them. */
  function Selected(latest: bool, commits: seq<Commit>): seq<Commit>
  {
    if latest && |commits| > 1 then commits[..1] else commits
  }

  /** One `write_markdown` call, with the reply the generation service gives it when notes are
      asked for. */
  datatype WriteCall = WriteCall(commit: Commit, files: seq<FileChange>, outDir: string,
                                 takeNotes: bool, reply: Result<string>)

  /** The calls made for the commits paired with their file lists, in list
      order. */
  function PlannedCalls(commits: seq<Commit>, diffs: seq<seq<FileChange>>, outDir: string,
                        takeNotes: bool, service: nat -> Result<string>): seq<WriteCall>
    requires |diffs| == |commits|
    decreases |commits|
  {
    if commits == [] then []
    else
      var n := |commits|;
      PlannedCalls(commits[..n - 1], diffs[..n - 1], outDir, takeNotes, service)
        + [WriteCall(commits[n - 1], diffs[n - 1], outDir, takeNotes, service(n - 1))]
  }

  /** A file as one call leaves it: its path and its whole content. */
  datatype Doc = Doc(path: string, content: string)

  /** The file one call writes. */
  function FileOf(w: WriteCall): Doc
  {
    Doc(DocumentPath(w.outDir, w.commit.message),
        Document(w.commit, w.files, if w.takeNotes then Some(AiNotes(w.reply)) else None))
  }

  /** The files the calls write, in call order. */
  function Files(calls: seq<WriteCall>): seq<Doc>
  {
    if calls == [] then [] else Files(calls[..|calls| - 1]) + [FileOf(calls[|calls| - 1])]
  }

  /** The output directory after the files are written in order, each
      replacing whatever file has its path. */
  function ApplyWrites(fs: map<string, string>, docs: seq<Doc>): map<string, string>
  {
    if docs == [] then fs
    else ApplyWrites(fs, docs[..|docs| - 1])[docs[|docs| - 1].path := docs[|docs| - 1].content]
  }

  /** The shas of the commits, in list order. */
  function Shas(commits: seq<Commit>): seq<string>
  {
    seq(|commits|, i requires 0 <= i < |commits| => commits[i].sha)
  }

  /** What a run of `main` reports, and the calls to `write_markdown` it
      makes. */
  ghost function PlannedRun(url: string, outDir: string, latest: bool, takeNotes: bool,
                            listing: (string, nat) -> Result<seq<Commit>>, detail: Detail,
                            service: nat -> Result<string>): (run: (Outcome, seq<WriteCall>))
    requires ListingTerminates(url, listing)
    ensures run.0 != Written ==> run.1 == []
  {
    match CommitListing(url, listing)
    case Err(e) => (Report(e), [])
    case Ok(all) =>
      var commits := Selected(latest, all);
      match GatherDiffs(url, commits, detail)
      case Err(e) => (Report(e), [])
      case Ok(diffs) => (Written, PlannedCalls(commits, diffs, outDir, takeNotes, service))
  }

  /** `main` once the arguments are parsed: `listing` and `detail` are the
      two GitHub endpoints and `service(i)` the generation service's reply to
      the `i`-th note request. Besides the outcome, the run returns the
      shas whose diffs it requested, in request order. */
  method Run(fs: FileSystem, url: string, outDir: string, latest: bool, takeNotes: bool,
             listing: (string, nat) -> Result<seq<Commit>>, detail: Detail,
             service: nat -> Result<string>)
    returns (outcome: Outcome, fetched: seq<string>)
    requires ListingTerminates(url, listing)
    modifies fs
    ensures CommitListing(url, listing).Err? ==> fetched == []
    ensures CommitListing(url, listing).Ok? ==> fetched == Shas(Selected(latest, CommitListing(url, listing).value))
    ensures outcome == PlannedRun(url, outDir, latest, takeNotes, listing, detail, service).0
    ensures fs.files == ApplyWrites(old(fs.files), Files(PlannedRun(url, outDir, latest, takeNotes, listing, detail, service).1))
  {
    var listed, _ := FetchCommits(url, listing);
    if listed.Err? {
      return Report(listed.error), [];
    }
    var commits := listed.value;
    if latest {
      commits := commits[..if |commits| < 1 then |commits| else 1];
    }
    assert commits == Selected(latest, listed.value);
    var diffs;
    diffs, fetched := FetchDiffs(url, commits, detail);
    assert fetched == Shas(commits);
    if diffs.Err? {
      return Report(diffs.error), fetched;
    }
    WriteAll(fs, commits, diffs.value, outDir, takeNotes, service);
    outcome := Written;
  }

  /** The loop over the commits paired with their file lists: one
      `write_markdown` per commit, in list order, the `i`-th one asking the
      service for the `i`-th reply. */
  method WriteAll(fs: FileSystem, commits: seq<Commit>, diffs: seq<seq<FileChange>>, outDir: string,
                  takeNotes: bool, service: nat -> Result<string>)
    requires |diffs| == |commits|
    modifies fs
    ensures fs.files == ApplyWrites(old(fs.files), Files(PlannedCalls(commits, diffs, outDir, takeNotes, service)))
  {
    ghost var start := fs.files;
    var i := 0;
    while i < |commits|
      invariant 0 <= i <= |commits|
      invariant fs.files == ApplyWrites(start, Files(PlannedCalls(commits[..i], diffs[..i], outDir, takeNotes, service)))
    {
      WriteOne(fs, start, commits, diffs, outDir, takeNotes, service, i);
      i := i + 1;
    }
    assert commits[..|commits|] == commits;
    assert diffs[..|diffs|] == diffs;
  }

  /** One pass of that loop: the `i`-th `write_markdown` call. */
  method WriteOne(fs: FileSystem, ghost start: map<string, string>, commits: seq<Commit>, diffs: seq<seq<FileChange>>,
                  outDir: string, takeNotes: bool, service: nat -> Result<string>, i: nat)
    requires |diffs| == |commits| && i < |commits|
    requires fs.files == ApplyWrites(start, Files(PlannedCalls(commits[..i], diffs[..i], outDir, takeNotes, service)))
    modifies fs
    ensures fs.files == ApplyWrites(start, Files(PlannedCalls(commits[..i + 1], diffs[..i + 1], outDir, takeNotes, service)))
  {
    ghost var before := fs.files;
    WriteMarkdown(fs, commits[i], diffs[i], outDir, takeNotes, service(i));
    WriteStep(start, commits, diffs, outDir, takeNotes, service, i, before, fs.files);
  }

  /** One more `write_markdown` call is one more planned write. */
  lemma WriteStep(start: map<string, string>, commits: seq<Commit>, diffs: seq<seq<FileChange>>, outDir: string,
                  takeNotes: bool, service: nat -> Result<string>, i: nat,
                  before: map<string, string>, after: map<string, string>)
    requires |diffs| == |commits| && i < |commits|
    requires before == ApplyWrites(start, Files(PlannedCalls(commits[..i], diffs[..i], outDir, takeNotes, service)))
    requires after == before[DocumentPath(outDir, commits[i].message) :=
                               Document(commits[i], diffs[i], if takeNotes then Some(AiNotes(service(i))) else None)]
    ensures after == ApplyWrites(start, Files(PlannedCalls(commits[..i + 1], diffs[..i + 1], outDir, takeNotes, service)))
  {
    var calls := PlannedCalls(commits[..i], diffs[..i], outDir, takeNotes, service);
    var w := WriteCall(commits[i], diffs[i], outDir, takeNotes, service(i));
    PlannedCallsSnoc(commits, diffs, outDir, takeNotes, service, i);
    FilesSnoc(calls, w);
    ApplyWritesSnoc(start, Files(calls), FileOf(w));
  }

  lemma PlannedCallsSnoc(commits: seq<Commit>, diffs: seq<seq<FileChange>>, outDir: string,
                         takeNotes: bool, service: nat -> Result<string>, i: nat)
    requires |diffs| == |commits| && i < |commits|
    ensures PlannedCalls(commits[..i + 1], diffs[..i + 1], outDir, takeNotes, service)
      == PlannedCalls(commits[..i], diffs[..i], outDir, takeNotes, service)
         + [WriteCall(commits[i], diffs[i], outDir, takeNotes, service(i))]
  {
    assert commits[..i + 1][..i] == commits[..i];
    assert diffs[..i + 1][..i] == diffs[..i];
  }

  lemma ApplyWritesSnoc(fs: map<string, string>, docs: seq<Doc>, d: Doc)
    ensures ApplyWrites(fs, docs + [d]) == ApplyWrites(fs, docs)[d.path := d.content]
  {
    assert (docs + [d])[..|docs|] == docs;
  }

  /** One more call writes one more file. */
  lemma FilesSnoc(calls: seq<WriteCall>, w: WriteCall)
    ensures Files(calls + [w]) == Files(calls) + [FileOf(w)]
  {
    assert (calls + [w])[..|calls|] == calls;
  }

  /** The `i`-th call is for the `i`-th commit, its file list and the
      service's `i`-th reply. */
  lemma {:induction false} PlannedCallsInOrder(commits: seq<Commit>, diffs: seq<seq<FileChange>>, outDir: string,
                                               takeNotes: bool, service: nat -> Result<string>)
    requires |diffs| == |commits|
    ensures var calls := PlannedCalls(commits, diffs, outDir, takeNotes, service);
      && |calls| == |commits|
      && forall i :: 0 <= i < |commits| ==> calls[i] == WriteCall(commits[i], diffs[i], outDir, takeNotes, service(i))
  {
    if commits != [] {
      var n := |commits|;
      PlannedCallsInOrder(commits[..n - 1], diffs[..n - 1], outDir, takeNotes, service);
    }
  }

  /** The files after the writes are the files before them and the paths of
      the documents. */
  lemma {:induction false} WritesKeys(fs: map<string, string>, docs: seq<Doc>)
    ensures ApplyWrites(fs, docs).Keys == fs.Keys + set i | 0 <= i < |docs| :: docs[i].path
  {
    if docs != [] {
      var n := |docs|;
      var init := docs[..n - 1];
      WritesKeys(fs, init);
      assert forall i :: 0 <= i < n - 1 ==> init[i] == docs[i];
      assert (set i | 0 <= i < |docs| :: docs[i].path) == (set i | 0 <= i < |init| :: init[i].path) + {docs[n - 1].path};
    }
  }

  /** A path holds the content of the last document written to it. */
  lemma {:induction false} LastWriteWins(fs: map<string, string>, docs: seq<Doc>, i: nat)
    requires i < |docs|
    requires forall j :: i < j < |docs| ==> docs[j].path != docs[i].path
    ensures docs[i].path in ApplyWrites(fs, docs)
    ensures ApplyWrites(fs, docs)[docs[i].path] == docs[i].content
  {
    var n := |docs|;
    var init := docs[..n - 1];
    if i < n - 1 {
      assert forall j :: i < j < n - 1 ==> init[j] == docs[j];
      LastWriteWins(fs, init, i);
    }
  }

  /** A file no document names is left as it was. */
  lemma {:induction false} UnnamedFilesUntouched(fs: map<string, string>, docs: seq<Doc>, p: string)
    requires p in fs
    requires forall i :: 0 <= i < |docs| ==> docs[i].path != p
    ensures p in ApplyWrites(fs, docs) && ApplyWrites(fs, docs)[p] == fs[p]
  {
    if docs != [] {
      var n := |docs|;
      var init := docs[..n - 1];
      assert forall i :: 0 <= i < n - 1 ==> init[i] == docs[i];
      UnnamedFilesUntouched(fs, init, p);
    }
  }

  /** Writing the documents overlays the same files on any starting
      directory. */
  lemma {:induction false} ApplyWritesOverlay(fs: map<string, string>, docs: seq<Doc>)
    ensures ApplyWrites(fs, docs) == fs + ApplyWrites(map[], docs)
  {
    if docs != [] {
      var n := |docs|;
      ApplyWritesOverlay(fs, docs[..n - 1]);
    }
  }

  /** Running again with the same answers from every endpoint leaves the
      output directory as the first run left it. */
  lemma RerunIsIdempotent(fs: map<string, string>, docs: seq<Doc>)
    ensures ApplyWrites(ApplyWrites(fs, docs), docs) == ApplyWrites(fs, docs)
  {
    var effect := ApplyWrites(map[], docs);
    ApplyWritesOverlay(fs, docs);
    ApplyWritesOverlay(fs + effect, docs);
    assert (fs + effect) + effect == fs + effect;
  }

  /** A failure to parse the URL, to list the commits or to fetch any one
      selected diff is reported and no document is written. */
  lemma RunAbortsWithoutWriting(url: string, outDir: string, latest: bool, takeNotes: bool,
                                listing: (string, nat) -> Result<seq<Commit>>, detail: Detail,
                                service: nat -> Result<string>)
    requires ListingTerminates(url, listing)
    requires CommitListing(url, listing).Err? ||
      exists i :: 0 <= i < |Selected(latest, CommitListing(url, listing).value)| &&
        FetchDiff(url, Selected(latest, CommitListing(url, listing).value)[i].sha, detail).Err?
    ensures var run := PlannedRun(url, outDir, latest, takeNotes, listing, detail, service);
      run.0 != Written && run.1 == []
  {
  }

  /** `--latest` keeps the first listed commit, and only it. */
  lemma LatestKeepsFirst(latest: bool, all: seq<Commit>)
    ensures var commits := Selected(latest, all);
      && (latest ==> |commits| == (if all == [] then 0 else 1))
      && commits == all[..|commits|]
      && (!latest ==> commits == all)
  {
  }

  /** Under `--latest`, however many commits are listed (five, say), one
      diff is requested, the first commit's, and at most one document is
      planned: that commit's, when its diff comes back. */
  lemma LatestMakesOneCall(url: string, outDir: string, takeNotes: bool,
                           listing: (string, nat) -> Result<seq<Commit>>, detail: Detail,
                           service: nat -> Result<string>)
    requires ListingTerminates(url, listing)
    requires CommitListing(url, listing).Ok? && |CommitListing(url, listing).value| >= 1
    ensures var first := CommitListing(url, listing).value[0];
      var reply := FetchDiff(url, first.sha, detail);
      var run := PlannedRun(url, outDir, true, takeNotes, listing, detail, service);
      && Shas(Selected(true, CommitListing(url, listing).value)) == [first.sha]
      && (reply.Err? ==> run == (Report(reply.error), []))
      && (reply.Ok? ==> run == (Written, [WriteCall(first, reply.value, outDir, takeNotes, service(0))]))
  {
    var all := CommitListing(url, listing).value;
    var commits := Selected(true, all);
    assert commits == [all[0]];
    assert commits[..0] == [];
    var reply := FetchDiff(url, all[0].sha, detail);
    assert GatherDiffs(url, commits[..0], detail) == Ok([]);
    if reply.Ok? {
      assert GatherDiffs(url, commits, detail) == Ok([] + [reply.value]);
      assert [reply.value][..0] == [];
      assert PlannedCalls(commits, [reply.value], outDir, takeNotes, service)
        == [WriteCall(all[0], reply.value, outDir, takeNotes, service(0))];
      assert PlannedRun(url, outDir, true, takeNotes, listing, detail, service)
        == (Written, PlannedCalls(commits, [reply.value], outDir, takeNotes, service));
    }
  }

  /** With every diff fetched, there is one call per commit, in list order,
      each with that commit's own file list. */
  lemma CallsFollowCommits(url: string, commits: seq<Commit>, outDir: string, takeNotes: bool,
                           detail: Detail, service: nat -> Result<string>)
    requires GatherDiffs(url, commits, detail).Ok?
    ensures var calls := PlannedCalls(commits, GatherDiffs(url, commits, detail).value, outDir, takeNotes, service);
      && |calls| == |commits|
      && forall i :: 0 <= i < |commits| ==>
           calls[i] == WriteCall(commits[i], FetchDiff(url, commits[i].sha, detail).value, outDir, takeNotes, service(i))
  {
    PlannedCallsInOrder(commits, GatherDiffs(url, commits, detail).value, outDir, takeNotes, service);
  }

  /** A run that succeeds makes the calls for the selected commits. */
  lemma RunMakesPlannedCalls(url: string, outDir: string, latest: bool, takeNotes: bool,
                             listing: (string, nat) -> Result<seq<Commit>>, detail: Detail,
                             service: nat -> Result<string>)
    requires ListingTerminates(url, listing)
    requires PlannedRun(url, outDir, latest, takeNotes, listing, detail, service).0 == Written
    ensures CommitListing(url, listing).Ok?
    ensures var commits := Selected(latest, CommitListing(url, listing).value);
      && GatherDiffs(url, commits, detail).Ok?
      && PlannedRun(url, outDir, latest, takeNotes, listing, detail, service).1
         == PlannedCalls(commits, GatherDiffs(url, commits, detail).value, outDir, takeNotes, service)
  {
  }

  /** When every note request fails, the run reports the same and writes
      the same files as a run without `--take-notes`. */
  lemma NotesNeverAbort(url: string, outDir: string, latest: bool,
                        listing: (string, nat) -> Result<seq<Commit>>, detail: Detail,
                        service: nat -> Result<string>)
    requires ListingTerminates(url, listing)
    requires forall i :: service(i).Err?
    ensures var with := PlannedRun(url, outDir, latest, true, listing, detail, service);
      var without := PlannedRun(url, outDir, latest, false, listing, detail, service);
      with.0 == without.0 && Files(with.1) == Files(without.1)
  {
    var all := CommitListing(url, listing);
    if all.Ok? {
      var commits := Selected(latest, all.value);
      var diffs := GatherDiffs(url, commits, detail);
      if diffs.Ok? {
        FilesWithoutNotes(commits, diffs.value, outDir, service);
      }
    }
  }

  lemma {:induction false} FilesWithoutNotes(commits: seq<Commit>, diffs: seq<seq<FileChange>>,
                                             outDir: string, service: nat -> Result<string>)
    requires |diffs| == |commits|
    requires forall i :: service(i).Err?
    ensures Files(PlannedCalls(commits, diffs, outDir, true, service)) == Files(PlannedCalls(commits, diffs, outDir, false, service))
  {
    if commits != [] {
      var n := |commits|;
      var c, f := commits[n - 1], diffs[n - 1];
      FilesWithoutNotes(commits[..n - 1], diffs[..n - 1], outDir, service);
      FilesSnoc(PlannedCalls(commits[..n - 1], diffs[..n - 1], outDir, true, service),
                WriteCall(c, f, outDir, true, service(n - 1)));
      FilesSnoc(PlannedCalls(commits[..n - 1], diffs[..n - 1], outDir, false, service),
                WriteCall(c, f, outDir, false, service(n - 1)));
      FailedNotesLeaveBase(c, f, service(n - 1).error);
    }
  }

  /** The note request as the program writes it. The OpenAI client's chat
      resource has `completions`, not `Completion`, so the request raises
      AttributeError before it reaches the service, whatever the diff; and
      were it reached, a chat choice has no `text`. Every reply is an
      error. */
  function NotesServiceAsWritten(i: nat): Result<string>
  {
    Err(AttributeError)
  }

  /** As written, `--take-notes` never adds a notes block: the run reports
      the same and writes the same files as a run without it. */
  lemma TakeNotesAsWrittenAddsNothing(url: string, outDir: string, latest: bool,
                                      listing: (string, nat) -> Result<seq<Commit>>, detail: Detail)
    requires ListingTerminates(url, listing)
    ensures var with := PlannedRun(url, outDir, latest, true, listing, detail, NotesServiceAsWritten);
      var without := PlannedRun(url, outDir, latest, false, listing, detail, NotesServiceAsWritten);
      with.0 == without.0 && Files(with.1) == Files(without.1)
  {
    NotesNeverAbort(url, outDir, latest, listing, detail, NotesServiceAsWritten);
  }

  /** The `i`-th file written is the one the `i`-th call writes. */
  lemma {:induction false} FilesInOrder(calls: seq<WriteCall>)
    ensures |Files(calls)| == |calls|
    ensures forall i :: 0 <= i < |calls| ==> Files(calls)[i] == FileOf(calls[i])
  {
    if calls != [] {
      var n := |calls|;
      var init := calls[..n - 1];
      FilesInOrder(init);
      var last := FileOf(calls[n - 1]);
      assert Files(calls) == Files(init) + [last];
      forall i | 0 <= i < n
        ensures Files(calls)[i] == FileOf(calls[i])
      {
        if i < n - 1 {
          assert Files(calls)[i] == Files(init)[i] && init[i] == calls[i];
        }
      }
    }
  }

  /** The intended behaviour: with `--take-notes` and a service that
      answers the `i`-th request, the `i`-th document is its base followed
      by the notes block holding the stripped answer. */
  lemma NotesReachDocument(url: string, outDir: string, latest: bool,
                           listing: (string, nat) -> Result<seq<Commit>>, detail: Detail,
                           service: nat -> Result<string>, i: nat)
    requires ListingTerminates(url, listing)
    requires PlannedRun(url, outDir, latest, true, listing, detail, service).0 == Written
    requires i < |PlannedRun(url, outDir, latest, true, listing, detail, service).1|
    requires service(i).Ok? && Strip(service(i).value) != NotesError
    ensures var calls := PlannedRun(url, outDir, latest, true, listing, detail, service).1;
      && i < |Files(calls)|
      && Files(calls)[i] == Doc(DocumentPath(outDir, calls[i].commit.message),
                                BaseDocument(calls[i].commit, calls[i].files) + NotesLabel + Strip(service(i).value) + "\n")
  {
    var calls := PlannedRun(url, outDir, latest, true, listing, detail, service).1;
    RunMakesPlannedCalls(url, outDir, latest, true, listing, detail, service);
    var commits := Selected(latest, CommitListing(url, listing).value);
    PlannedCallsInOrder(commits, GatherDiffs(url, commits, detail).value, outDir, true, service);
    assert calls[i].takeNotes && calls[i].reply == service(i);
    FileWithNotes(calls, i);
  }

  /** A call that asks for notes and gets an answer writes its base
      document followed by the notes block. */
  lemma FileWithNotes(calls: seq<WriteCall>, i: nat)
    requires i < |calls| && calls[i].takeNotes
    requires calls[i].reply.Ok? && Strip(calls[i].reply.value) != NotesError
    ensures i < |Files(calls)|
    ensures Files(calls)[i] == Doc(DocumentPath(calls[i].outDir, calls[i].commit.message),
                                   BaseDocument(calls[i].commit, calls[i].files) + NotesLabel + Strip(calls[i].reply.value) + "\n")
  {
    FilesInOrder(calls);
    CallWithNotes(calls[i]);
  }

  lemma CallWithNotes(w: WriteCall)
    requires w.takeNotes && w.reply.Ok? && Strip(w.reply.value) != NotesError
    ensures FileOf(w) == Doc(DocumentPath(w.outDir, w.commit.message),
                             BaseDocument(w.commit, w.files) + NotesLabel + Strip(w.reply.value) + "\n")
  {
    var notes := Strip(w.reply.value);
    assert AiNotes(w.reply) == notes;
    assert NotesBlock(Some(notes)) == NotesLabel + notes + "\n";
    assert BaseDocument(w.commit, w.files) + (NotesLabel + notes + "\n")
      == BaseDocument(w.commit, w.files) + NotesLabel + notes + "\n";
  }
}
