/** The version-control backend as the core sees it: the records and replies
    its commands hand back. Nothing here talks to a server; every reply is an
    input to the model. Revision numbers and change ids stay text, as the
    backend sends them, and are converted with `int()` only where the code
    converts them. */
module Records {
  import opened Exceptions

  /** A reply of a command the code wraps in `try`: the returned value, or
      the text of the backend exception it catches. */
  datatype Reply<+T> = Returned(value: T) | Threw(text: string)

  /** One file of a `describe` record: the parallel entries
      depotFile[i], rev[i], action[i]. */
  datatype FileRev = FileRev(depotFile: string, rev: string, action: string)

  /** A `describe` record of a change; `files` is None when the record has no
      depotFile field (a change with no files). */
  datatype Describe = Describe(
    change: string,
    desc: string,
    status: string,
    path: Option<string>,
    files: Option<seq<FileRev>>)

  /** The integration lists of the first revision of a filelog record
      (file[0], how[0], erev[0]); present only when that revision was
      inherited from another path. */
  datatype Ancestry = Ancestry(files: seq<string>, hows: seq<string>, erevs: seq<string>)

  /** The first record of a `filelog` reply, with its parallel lists. */
  datatype LogRecord = LogRecord(
    revs: seq<string>,
    users: seq<string>,
    changes: seq<string>,
    actions: seq<string>,
    ancestry: Option<Ancestry>)

  /** One entry of a `resolve` reply: a tagged record (only baseFile and
      clientFile are read by the core) or a line of text. */
  datatype ResolveItem =
    | Tagged(baseFile: Option<string>, clientFile: Option<string>)
    | Message(text: string)

  /** The outcome of `integ`: nothing returned, something returned (shown as
      the reply's text), or a backend exception. */
  datatype IntegReply = IntegClean | IntegWarned(shown: string) | IntegThrew(text: string)

  /** The replies the conflict diagnosis of one file receives:
      - `have`: the held revision of the file (`haveRev`), or the exception;
      - `history(r)`: the first record of `filelog -m2 file#r,#r` for the
        revision written `r`, None for an empty reply; the backend is taken to
        answer the same query the same way;
      - `between`: the first record (None for an empty reply) of the filelog
        of the revisions after the held one up to the requested one;
      - `snippet(c)`: the first lines of the description of change `c`, as the
        suggestion quotes them. */
  datatype DiagReplies = DiagReplies(
    have: Reply<string>,
    history: string -> Option<LogRecord>,
    between: Reply<Option<LogRecord>>,
    snippet: string -> string)

  /** One file of the new changelist's `describe`, with the replies the
      commands issued for that file receive. */
  datatype PendingFile = PendingFile(file: FileRev, resolve: Reply<seq<ResolveItem>>, diag: DiagReplies)

  /** Everything the backend answers while one requested change is tried:
      - `describe`: `describe <change>` of the requested change;
      - `ackLine`: the first line of the `change -i` reply, `ackShown` the
        whole reply as text;
      - `integ`: the integration command;
      - `pending`: the files of `describe <new changelist>`, None when the
        record has no depotFile field. */
  datatype Attempt = Attempt(
    describe: Reply<Describe>,
    ackLine: string,
    ackShown: string,
    integ: IntegReply,
    pending: Option<seq<PendingFile>>)

  /** A target branch of the run: its name and depot prefix. */
  datatype Branch = Branch(name: string, toPrefix: string)

  /** What one integration pass is configured with: the depot prefix the
      changes come from and the branch they go to (`branches[0]`). */
  datatype Ctx = Ctx(fromPrefix: string, branch: Branch)
}
