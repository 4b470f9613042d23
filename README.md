# commit-to-md, modelled in Dafny

`commit_to_md.py` turns the commit history of a GitHub repository into
Markdown files, one per commit. It works in four steps:

1. It pages through the repository's commit list.
2. It fetches the changed files of every commit.
3. It writes a document for each commit, holding a header and the commit's
   patches in a `diff` fence. With `--take-notes` it also asks a
   text-generation service for notes to append. As written, that request
   always fails, so no notes are ever appended (see "## Findings").
4. It reports success or the first error.

This project models that core and proves what the code promises about it.
The modules follow the script's functions:

| file | module | models |
|---|---|---|
| `types.dfy` | `Types` | commit and changed-file records, `Result`/`Option`, the three kinds of exception the model tells apart (ClientError, IndexError, AttributeError) |
| `text.dfy` | `Text` | Python's `str.split`, `str.join`, `strip`/`rstrip` and `replace` on single characters |
| `patch.dfy` | `Patch` | `extract_patch` |
| `repo_url.dfy` | `RepoUrl` | the owner/repository parsing shared by `fetch_commits` and `fetch_diff`, and the API addresses |
| `listing.dfy` | `Listing` | the pagination loop of `fetch_commits` |
| `diffs.dfy` | `Diffs` | `fetch_diff` and the `asyncio.gather` fan-out in `main` |
| `documents.dfy` | `Documents` | `write_markdown` over a file system held as a map, and the wrapper part of `get_ai_notes` |
| `pipeline.dfy` | `Pipeline` | `main`: `--latest`, list order, all-or-nothing fetching, then the writes |

The outside world is made of parameters:

- The commit-list endpoint is a function from an API address and a page
  number to a `Result`.
- The commit-detail endpoint is a function from an API address to a
  `Result`.
- The note service is a function from the call number to a `Result`.
- The output directory is the `files` map of a `FileSystem` object.
  Opening for writing empties a file; opening for appending creates it if
  it is missing; a write appends to the file.

Three behaviours of the code worth knowing:

- Periods in a commit message are replaced by `_` in the file name, not
  removed (`Documents.DocumentNameShape`, `Documents.DocumentNamesCollide`).
- A commit whose files carry no patch still gets a diff text of `n - 1`
  newlines for `n` files, not an empty one
  (`Documents.DiffTextOfPatchlessFiles`).
- A URL with a single segment does not raise a GitHub error. It raises an
  IndexError, which `main` reports as an unexpected error (`RepoUrl.ParseRepoUrl`,
  `Pipeline.Report`).

## Model

| member | source | states |
|---|---|---|
| Text.Split | commit_to_md.py:61 | `split('\n')` gives at least one piece, no piece contains the separator, and the text is its own single piece exactly when it has no separator |
| Text.JoinSplit | commit_to_md.py:61-62 | joining the pieces of a split with the same separator gives back the text |
| Text.SplitJoin | commit_to_md.py:61-62 | splitting a join of separator-free pieces gives back the pieces |
| Text.SplitAround | commit_to_md.py:130 | splitting `a + "\n" + b` is splitting `a` followed by splitting `b`, so joining patches with newlines keeps each patch's lines |
| Text.LStripShape | commit_to_md.py:62 | left-stripping keeps the longest suffix that does not start with a dropped character, and only dropped characters are removed |
| Text.RStripShape | commit_to_md.py:69 | right-stripping keeps the longest prefix that does not end with a dropped character, and only dropped characters are removed |
| Text.RStripIgnoresTail | commit_to_md.py:69 | appending any run of dropped characters does not change what `rstrip` keeps |
| Text.StripShape | commit_to_md.py:116 | `strip()` keeps a slice of the text with only whitespace before and after it, and the slice neither starts nor ends with whitespace |
| Text.ReplaceCharShape | commit_to_md.py:133 | `replace('.', '_')` keeps the length and every character, except that each `.` becomes `_` |
| Patch.ExtractPatch | commit_to_md.py:59-64 | `""` without a patch; otherwise the patch split on `\n`, with the marker lines dropped, joined again with `\n` |
| Patch.KeepLines | commit_to_md.py:62 | the filter keeps no line that strips to the no-newline marker, and never lengthens the list |
| Patch.KeepLinesOrder | commit_to_md.py:62 | the kept lines are a subsequence of the original lines, so their relative order is kept |
| Patch.KeepLinesCounts | commit_to_md.py:62 | every non-marker line is kept as often as it occurs, and every marker line is dropped |
| Patch.KeepLinesIdentity | commit_to_md.py:62 | with no marker line present the filter keeps every line |
| Patch.ExtractPatchLines | commit_to_md.py:59-64 | a record without a patch gives `""`; otherwise the lines of the result are exactly the kept lines, and none of them is a marker |
| Patch.ExtractPatchIdentity | commit_to_md.py:60-63 | a patch with no marker line comes back unchanged |
| RepoUrl.ParseRepoUrl | commit_to_md.py:69-70 | parsing fails, with an IndexError, exactly when the URL without its trailing slashes contains no `/` |
| RepoUrl.ParseRepoUrlSegments | commit_to_md.py:69-70 | a parsed owner and name are the last two `/`-separated segments of the URL without its trailing slashes |
| RepoUrl.ParseIgnoresTrailingSlashes | commit_to_md.py:69 | any number of trailing `/` leaves the parse unchanged |
| RepoUrl.ParseFindsOwnerAndName | commit_to_md.py:69-70 | a URL ending in `owner/name`, with a non-empty name and any trailing slashes, parses to that owner and name |
| Listing.FirstStop | commit_to_md.py:75-80 | when the loop ends, there is a first page that fails or comes back empty |
| Listing.Listed | commit_to_md.py:72-87 | the error of the first page that fails or is empty, when it fails; otherwise the records of all pages before it, in page order |
| Listing.Paginate | commit_to_md.py:72-84 | the loop requests pages 1, 2, ..., k in order, k being the first page that fails or is empty; it returns that page's error, or the concatenation of pages 1 to k-1 |
| Listing.ListingFailsIffPageFails | commit_to_md.py:75-87 | the listing fails exactly when some page fails before any page comes back empty; no partial list is returned |
| Listing.ThreePagesThenEmpty | commit_to_md.py:73-84 | pages of 100, 100 and 1 records followed by an empty page give the 201 records in page order after four requests |
| Listing.CommitListing | commit_to_md.py:67-87 | IndexError for a URL that does not parse; otherwise the listing of the pages at the repository's `/commits` address |
| Listing.FetchCommits | commit_to_md.py:67-87 | a URL that does not parse fails with IndexError before any request; otherwise the result is the listing at `https://api.github.com/repos/{owner}/{repo}/commits` |
| Diffs.FetchDiff | commit_to_md.py:90-101 | IndexError for a URL that does not parse; otherwise the detail endpoint's answer at `/repos/{owner}/{repo}/commits/{sha}` |
| Diffs.GatherDiffs | commit_to_md.py:176-180 | the gather succeeds exactly when every commit's fetch succeeds, and then gives each commit's file list at that commit's position |
| Diffs.GatherReportsFirstFailure | commit_to_md.py:180 | a failed gather reports the error of a failing fetch, and every fetch before it succeeded |
| Diffs.FetchDiffs | commit_to_md.py:176-180 | one detail request is made per commit, in list order, and the result is the gather's |
| Documents.FileSystem.OpenForWrite | commit_to_md.py:134 | opening for writing empties the file, creating it if needed, and leaves every other file alone |
| Documents.FileSystem.OpenForAppend | commit_to_md.py:142 | opening for appending creates a missing file and changes nothing else |
| Documents.FileSystem.Write | commit_to_md.py:136-139 | a write appends its text to the file and leaves every other file alone |
| Documents.AiNotes | commit_to_md.py:117-119 | a failed service call gives the fixed error text |
| Documents.AiNotesShape | commit_to_md.py:116 | an answer gives the notes with the whitespace around them removed and everything between kept |
| Documents.Patches | commit_to_md.py:130 | there is one patch per changed file |
| Documents.BaseDocument | commit_to_md.py:128-139 | the header, the opening fence, the diff text and the closing fence, in that order |
| Documents.Document | commit_to_md.py:128-148 | the base document followed by the notes block when notes were asked for and are not the error text |
| Documents.PathJoin | commit_to_md.py:133 | POSIX `os.path.join` of two parts; the name always ends the path |
| Documents.DocumentPath | commit_to_md.py:133 | the document's file name joined to the output directory |
| Documents.WriteBase | commit_to_md.py:128-139 | after the first phase the file holds exactly header, fence, diff text and closing fence; no other file changes |
| Documents.AppendNotes | commit_to_md.py:141-148 | the second phase appends the notes block to the file, and nothing when the notes are the error text |
| Documents.WriteMarkdown | commit_to_md.py:122-148 | after the call, the document's path holds the full document, with notes only when asked for and not failed; every other file is unchanged |
| Documents.DiffTextHasNoMarker | commit_to_md.py:130 | no line of the joined diff text, across all files, is a marker line |
| Documents.DiffTextOfPatchlessFiles | commit_to_md.py:130 | `n` files without a patch give `n - 1` newlines |
| Documents.DocumentKeepsBase | commit_to_md.py:141-148 | the base document is always a prefix; the document equals it exactly when notes were not asked for or are the error text; otherwise the rest is `**Notes**:\n\n` + notes + `\n` |
| Documents.FailedNotesLeaveBase | commit_to_md.py:116-119 | a failed service call leaves the document as its base |
| Documents.DocumentNameShape | commit_to_md.py:133 | the file name has the message's length plus 3; each `.` of the message becomes `_`, every other character is kept in place, and `.md` follows |
| Documents.DocumentNamesCollide | commit_to_md.py:133 | messages `v1.0` and `v1_0` name the same file |
| Documents.DocumentPathPlacement | commit_to_md.py:133 | a relative name lands in the output directory after a `/`; a message starting with `/` escapes the output directory |
| Pipeline.Report | commit_to_md.py:188-191 | never success; a GitHub error carrying the message exactly when the exception is a ClientError, otherwise an unexpected error |
| Pipeline.Selected | commit_to_md.py:174-175 | the first listed commit alone (none for an empty list) under `--latest`, every listed commit otherwise |
| Pipeline.PlannedRun | commit_to_md.py:171-191 | the outcome and the write calls of a run: the reported error and no call when the listing or the gather fails, otherwise success and one call per selected commit in list order |
| Pipeline.Run | commit_to_md.py:171-191 | the outcome and the final files are those of the planned run: the error of the listing or of the gather with no write, or one write per selected commit in order; the diffs requested are those of the selected commits, in order, and none when the listing fails |
| Pipeline.WriteAll | commit_to_md.py:181-185 | the loop leaves the directory as the planned writes applied in order |
| Pipeline.WriteOne | commit_to_md.py:182-185 | one pass of the loop performs the next planned write |
| Pipeline.PlannedCallsInOrder | commit_to_md.py:181 | the `i`-th call is for the `i`-th commit, its file list and the service's `i`-th reply |
| Pipeline.WritesKeys | commit_to_md.py:134 | after the writes, the files are the old files plus the document paths |
| Pipeline.LastWriteWins | commit_to_md.py:134 | a path holds the content of the last document written to it |
| Pipeline.UnnamedFilesUntouched | commit_to_md.py:134 | a file no document names keeps its content |
| Pipeline.ApplyWritesOverlay | commit_to_md.py:134-139 | the writes overlay the same files on any starting directory |
| Pipeline.RerunIsIdempotent | commit_to_md.py:134-139 | a second run with the same answers leaves the directory as the first left it |
| Pipeline.RunAbortsWithoutWriting | commit_to_md.py:172-180 | a listing failure, or any failed fetch of a selected diff, is reported and no document is written |
| Pipeline.LatestMakesOneCall | commit_to_md.py:174-183 | under `--latest`, a listing of any length (five commits, say) requests one diff, the first commit's; the run then plans that commit's document alone, or reports that fetch's error with no write |
| Pipeline.LatestKeepsFirst | commit_to_md.py:174-175 | `--latest` keeps only the first listed commit (none for an empty list); without it every commit is kept |
| Pipeline.CallsFollowCommits | commit_to_md.py:176-181 | with every diff fetched, there is one call per commit in list order, each with that commit's own file list |
| Pipeline.RunMakesPlannedCalls | commit_to_md.py:173-185 | a successful run lists the commits, fetches every selected diff, and makes the calls for the selected commits |
| Pipeline.FilesInOrder | commit_to_md.py:181-185 | the `i`-th file written is the one the `i`-th call writes |
| Pipeline.FileWithNotes | commit_to_md.py:141-148 | a call that asks for notes and gets an answer writes its base document followed by `**Notes**:\n\n`, the stripped answer and a newline |
| Pipeline.NotesReachDocument | commit_to_md.py:182-183 | with `--take-notes` and a service that answers the `i`-th request, the `i`-th document of a successful run carries the stripped answer as its notes |
| Pipeline.TakeNotesAsWrittenAddsNothing | commit_to_md.py:106 | with the note request as written, which always raises, `--take-notes` reports the same and writes the same files as a run without it |
| Pipeline.NotesNeverAbort | commit_to_md.py:141-148 | when every note request fails, the run reports the same outcome and writes the same files as without `--take-notes` |

## Findings

| source | as written | input that shows it | evidently intended | confidence | as-written member | corrected member |
|---|---|---|---|---|---|---|
| commit_to_md.py:106 | the note request calls `openai_client.chat.Completion.create`, but the OpenAI client's chat resource has `completions`; line 116 also reads `.text` from a chat choice, and lines 15-16 make `TEMPERATURE` and `MAX_TOKENS` one-element tuples | any run with `--take-notes`: every request raises, the except branch returns the error text, and no notes block is written | the service's answer, stripped, is appended under `**Notes**:` | high, from the OpenAI v1 client's API; not executed | Pipeline.TakeNotesAsWrittenAddsNothing | Pipeline.NotesReachDocument |

The rest of the model keeps the service as a parameter that may answer,
which is the intended behaviour. `Pipeline.NotesServiceAsWritten` is the
program's request as written.

## Left out

- The aiohttp session, HTTP requests and `raise_for_status` are network I/O. They are the `listing` and `detail` endpoint parameters, which answer with records or a ClientError.
- A response body that is not valid JSON raises `json.JSONDecodeError`, which `main` reports as an unexpected error. It is not modelled: an endpoint's error stands only for a failed request or a failed `raise_for_status`.
- The generation service call, its prompts, its parameters and `asyncio.sleep(RATE_LIMIT_DELAY)` are a foreign library and timing. Each call's outcome is the `service` parameter, indexed by call number. Any exception it raises is an `Err` reply.
- `asyncio.gather` concurrency is not modelled. The fetches run in list order. A failed gather reports the first failing commit in list order; the real gather reports the first failure in time.
- Pagination assumes the endpoint eventually fails or returns an empty page (`Listing.Terminates`). An endpoint that never does so makes the script loop forever, which the model does not represent.
- A detail answer without a `files` key raises a KeyError, which `main` would report as unexpected. It is not modelled: the detail endpoint yields the file list or a ClientError.
- The error messages printed by `fetch_commits`, `fetch_diff`, `get_ai_notes`, `write_markdown` and `main` are console output. Only the final outcome is kept (`Pipeline.Outcome`).
- argparse, `os.makedirs`, `load_dotenv` and the API key from the environment are setup plumbing.
- Pipeline.Run: promises `Written` and one document per selected commit, but the real `open` can fail. A message containing `/`, as in every GitHub merge commit ("Merge pull request #N from owner/branch"), names a file in a subdirectory that does not exist. A message longer than the file-name limit names a file that cannot be created. In both cases `open` raises, `main` reports an unexpected error, and the documents written before it stay. The model's file system accepts every path, so it reports success for these runs.
- Other file-system failures, encodings and partially written files are not modelled.
- Exceptions other than the ClientError and the IndexError from a short URL are not modelled.
- `os.path.join` is modelled for POSIX paths only (`Documents.PathJoin`).
- The `test_commit_to_md.py` tests are empty stubs and state nothing to model.
