/** The records that flow through the commit-to-Markdown pipeline, and the
    failure-carrying result type that stands for the exceptions the Python
    program raises. */
module Types {

  /** The kinds of exception that matter to the program: a failed HTTP
      request or response (aiohttp's ClientError, carrying its message), the
      IndexError raised by a repository URL with fewer than two path
      segments, and the AttributeError the note request raises as written
      (the chat resource of the OpenAI client it uses has no `Completion`). */
  datatype Error = ClientError(reason: string) | IndexError | AttributeError

  datatype Option<+T> = None | Some(value: T)

  /** A value, or the exception that was raised instead of returning it. */
  datatype Result<+T> = Ok(value: T) | Err(error: Error)

  /** One element of the commit-list endpoint's answer: `sha`,
      `commit.message`, `commit.author.name` and `commit.author.date`. */
  datatype Commit = Commit(sha: string, message: string, author: string, date: string)

  /** One element of the `files` array of the commit-detail endpoint; the
      `patch` key is absent for binary or rename-only changes. */
  datatype FileChange = FileChange(filename: string, patch: Option<string>)
}
