/** The document writer (`write_markdown`, commit_to_md.py lines 122-148) and
    the part of `get_ai_notes` (lines 104-119) that is not the service call:
    one Markdown file per commit, written in two phases, the notes block
    appended only when note generation did not fail. */
module Documents {
  import opened Types
  import opened Text
  import opened Patch

  /** The output directory as a map from file path to file content. */
  class FileSystem {
    var files: map<string, string>

    constructor (initial: map<string, string>)
      ensures files == initial
    {
      files := initial;
    }

    /** `open(path, 'w')`: create the file, or empty it if it exists. */
    method OpenForWrite(path: string)
      modifies this
      ensures files == old(files)[path := ""]
    {
      files := files[path := ""];
    }

    /** `open(path, 'a')`: create the file if it is missing, keep it as it
        is otherwise. */
    method OpenForAppend(path: string)
      modifies this
      ensures path in files
      ensures files == if path in old(files) then old(files) else old(files)[path := ""]
    {
      if path !in files {
        files := files[path := ""];
      }
    }

    /** `f.write(text)` on an open file: the text goes at its end. */
    method Write(path: string, text: string)
      requires path in files
      modifies this
      ensures files == old(files)[path := old(files)[path] + text]
    {
      files := files[path := files[path] + text];
    }
  }

  /** The fixed text `get_ai_notes` returns when the service call raises. */
  const NotesError: string := "Error getting AI notes."

  /** `get_ai_notes` once the service has answered: the text of the first
      choice, stripped, or the fixed error text when the call raised. */
  function AiNotes(reply: Result<string>): (notes: string)
    ensures reply.Err? ==> notes == NotesError
  {
    match reply
    case Err(_) => NotesError
    case Ok(text) => Strip(text)
  }

  /** An answer becomes the notes with the whitespace around it removed and
      everything between kept as it is. */
  lemma AiNotesShape(text: string)
    ensures var notes := AiNotes(Ok(text));
      && (exists a, b :: && 0 <= a <= b <= |text| && notes == text[a..b]
                         && (forall i :: 0 <= i < a ==> IsSpace(text[i]))
                         && (forall i :: b <= i < |text| ==> IsSpace(text[i])))
      && (notes == [] || (!IsSpace(notes[0]) && !IsSpace(notes[|notes| - 1])))
  {
    StripShape(text);
  }

  /** The commit header: message, sha, author and date, each under its own
      label. */
  function Header(c: Commit): string
  {
    "# Message: " + c.message + "\n\n## Commit: " + c.sha + "\n\nAuthor: " + c.author + "\n\nDate: " + c.date + "\n\n"
  }

  const DiffHeader: string := "### Diff\n\n```diff\n"
  const DiffFooter: string := "```\n\n"
  const NotesLabel: string := "**Notes**:\n\n"

  /** `extract_patch(file)` for each changed file, in API order. */
  function Patches(files: seq<FileChange>): (ps: seq<string>)
    ensures |ps| == |files|
  {
    seq(|files|, i requires 0 <= i < |files| => ExtractPatch(files[i]))
  }

  /** The diff text: the patches of all changed files, one after the other,
      separated by newlines. */
  function DiffText(files: seq<FileChange>): string
  {
    Join(Patches(files), '\n')
  }

  /** What the first phase writes: header, fence, diff text, fence. */
  function BaseDocument(c: Commit, files: seq<FileChange>): string
  {
    Header(c) + DiffHeader + DiffText(files) + DiffFooter
  }

  /** What the second phase appends: nothing when notes were not asked for
      (`None`) or came back as the error text. */
  function NotesBlock(notes: Option<string>): string
  {
    match notes
    case None => ""
    case Some(n) => if n == NotesError then "" else NotesLabel + n + "\n"
  }

  /** The file content once `write_markdown` returns. */
  function Document(c: Commit, files: seq<FileChange>, notes: Option<string>): string
  {
    BaseDocument(c, files) + NotesBlock(notes)
  }

  /** The file name of a commit's document: its message with every `.`
      turned into `_`, followed by the `.md` extension. */
  function DocumentName(message: string): string
  {
    ReplaceChar(message, '.', '_') + ".md"
  }

  /** `os.path.join(dir, name)` for POSIX paths: an absolute `name` replaces
      `dir`; otherwise a `/` is put between them unless `dir` is empty or
      already ends with one. */
  function PathJoin(dir: string, name: string): (path: string)
    ensures |name| <= |path| && path[|path| - |name|..] == name
  {
    if |name| > 0 && name[0] == '/' then name
    else if dir == [] || dir[|dir| - 1] == '/' then dir + name
    else dir + "/" + name
  }

  function DocumentPath(outDir: string, message: string): string
  {
    PathJoin(outDir, DocumentName(message))
  }

  /** `write_markdown(commit, diff_files, output_dir, take_ai_notes)`, with
      `reply` standing for the service's answer when notes are asked for.
      The file is replaced by the base document, then, only when notes are
      asked for, the notes block is appended to it. */
  method WriteMarkdown(fs: FileSystem, c: Commit, files: seq<FileChange>, outDir: string,
                       takeNotes: bool, reply: Result<string>)
    modifies fs
    ensures fs.files == old(fs.files)[DocumentPath(outDir, c.message) :=
      Document(c, files, if takeNotes then Some(AiNotes(reply)) else None)]
  {
    var path := DocumentPath(outDir, c.message);
    WriteBase(fs, path, c, files);
    if takeNotes {
      AppendNotes(fs, path, reply);
    } else {
      assert Document(c, files, None) == BaseDocument(c, files);
    }
  }

  /** The first phase: open for writing and write the four pieces. */
  method WriteBase(fs: FileSystem, path: string, c: Commit, files: seq<FileChange>)
    modifies fs
    ensures fs.files == old(fs.files)[path := BaseDocument(c, files)]
  {
    var commitStr := Header(c);
    var diffText := DiffText(files);
    ghost var start := fs.files;
    fs.OpenForWrite(path);
    fs.Write(path, commitStr);
    Overwrite(start, path, "", "" + commitStr);
    assert "" + commitStr == commitStr;
    fs.Write(path, DiffHeader);
    Overwrite(start, path, commitStr, commitStr + DiffHeader);
    fs.Write(path, diffText);
    Overwrite(start, path, commitStr + DiffHeader, commitStr + DiffHeader + diffText);
    fs.Write(path, DiffFooter);
    Overwrite(start, path, commitStr + DiffHeader + diffText, commitStr + DiffHeader + diffText + DiffFooter);
  }

  /** Writing a file twice leaves only the second content. */
  lemma Overwrite(m: map<string, string>, k: string, a: string, b: string)
    ensures m[k := a][k := b] == m[k := b]
  {
  }

  /** The second phase: open for appending, ask for notes, and write the
      notes block unless the notes are the error text. */
  method AppendNotes(fs: FileSystem, path: string, reply: Result<string>)
    requires path in fs.files
    modifies fs
    ensures fs.files == old(fs.files)[path := old(fs.files)[path] + NotesBlock(Some(AiNotes(reply)))]
  {
    ghost var start := fs.files;
    fs.OpenForAppend(path);
    var notes := AiNotes(reply);
    if notes != NotesError {
      fs.Write(path, NotesLabel);
      fs.Write(path, notes + "\n");
      Overwrite(start, path, start[path] + NotesLabel, start[path] + NotesLabel + (notes + "\n"));
      assert start[path] + NotesLabel + (notes + "\n") == start[path] + NotesBlock(Some(notes));
    } else {
      assert old(fs.files)[path] + NotesBlock(Some(notes)) == old(fs.files)[path];
    }
  }

  /** No line of the diff text, across all files, is a marker line. */
  lemma {:induction false} DiffTextHasNoMarker(files: seq<FileChange>)
    ensures forall l :: l in Split(DiffText(files), '\n') ==> !IsMarker(l)
  {
    if |files| == 0 {
      assert Strip("") == "";
    } else if |files| == 1 {
      ExtractPatchLines(files[0]);
    } else {
      DiffTextHasNoMarker(files[1..]);
      ExtractPatchLines(files[0]);
      assert Patches(files)[1..] == Patches(files[1..]);
      SplitAround(ExtractPatch(files[0]), DiffText(files[1..]), '\n');
    }
  }

  /** Files without a patch still contribute an empty piece each, so `n`
      such files give `n - 1` newlines, not an empty diff text. */
  lemma {:induction false} DiffTextOfPatchlessFiles(files: seq<FileChange>)
    requires |files| >= 1
    requires forall i :: 0 <= i < |files| ==> files[i].patch.None?
    ensures DiffText(files) == seq(|files| - 1, _ => '\n')
  {
    if |files| > 1 {
      DiffTextOfPatchlessFiles(files[1..]);
      assert Patches(files)[1..] == Patches(files[1..]);
    }
  }

  /** The base document is always written in full, whatever the notes, and
      the notes block is added exactly when notes were asked for and did not
      fail. */
  lemma DocumentKeepsBase(c: Commit, files: seq<FileChange>, notes: Option<string>)
    ensures var d := Document(c, files, notes); var b := BaseDocument(c, files);
      && |b| <= |d| && d[..|b|] == b
      && (d == b <==> notes.None? || notes.value == NotesError)
      && (notes.Some? && notes.value != NotesError ==> d[|b|..] == NotesLabel + notes.value + "\n")
  {
    var d := Document(c, files, notes);
    var b := BaseDocument(c, files);
    assert d[..|b|] == b;
    if notes.Some? && notes.value != NotesError {
      assert |d| > |b|;
    }
  }

  /** A failed note request leaves the document as its base. */
  lemma FailedNotesLeaveBase(c: Commit, files: seq<FileChange>, e: Error)
    ensures Document(c, files, Some(AiNotes(Err(e)))) == BaseDocument(c, files)
  {
  }

  /** The file name keeps the message's length and characters, except that
      every `.` becomes `_`, and then gains `.md`. */
  lemma DocumentNameShape(message: string)
    ensures var name := DocumentName(message);
      && |name| == |message| + 3 && name[|message|..] == ".md"
      && (forall i :: 0 <= i < |message| ==> name[i] == if message[i] == '.' then '_' else message[i])
  {
    ReplaceCharShape(message, '.', '_');
  }

  /** Messages that differ only in `.` against `_` share a file, so the
      later write wins. */
  lemma DocumentNamesCollide()
    ensures DocumentName("v1.0") == DocumentName("v1_0") == "v1_0.md"
  {
    assert ReplaceChar("v1.0", '.', '_') == "v1_0";
    assert ReplaceChar("v1_0", '.', '_') == "v1_0";
  }

  /** A relative message lands in the output directory; a message starting
      with `/` makes `os.path.join` drop the directory. */
  lemma DocumentPathPlacement(outDir: string, message: string)
    ensures message != [] && message[0] == '/' ==> DocumentPath(outDir, message) == DocumentName(message)
    ensures (message == [] || message[0] != '/') && outDir != [] && outDir[|outDir| - 1] != '/' ==>
      DocumentPath(outDir, message) == outDir + "/" + DocumentName(message)
  {
    DocumentNameShape(message);
  }
}
