/**
  The low-level connections (ConnABC and its two implementations). The transports
  themselves (an SSH client, an Oracle client) are outside the model: a backend is given
  by what its server does, an arbitrary connect outcome, an arbitrary answer for every
  command and an arbitrary close outcome, so what is proved holds whatever the servers do.
 */
module Backends {
  import opened Wrappers

  /** What the server does with a connect attempt: accept it, or refuse it, the client
      library raising an exception with these arguments. */
  datatype ConnectOutcome = Accepted | Refused(args: seq<string>)

  /** What the server does when the session is closed: release it, or fail, the client
      library raising an exception with these arguments (a dropped database connection
      makes `cursor.close()` or `conn.close()` raise). */
  datatype CloseOutcome = Released | CloseRefused(args: seq<string>)

  /** One database row, each column already rendered with `str`. */
  type Row = seq<string>

  /** What a call into the client library did: raise with these arguments, or return. */
  datatype Reply<T> = Raised(args: seq<string>) | Returned(value: T)

  /** The server behind a connection: a shell answering each command with its standard
      output lines, or a database answering each statement with the fetched rows. */
  datatype Transport =
    | Shell(run: string -> Reply<seq<string>>)
    | Database(query: string -> Reply<seq<Row>>)

  /** What `exec_cmd` of a connection hands back: stdout lines, or rows (None after a
      failed statement). */
  datatype RawOutput = Lines(lines: seq<string>) | Rows(rows: Option<seq<Row>>)

  /** The calls a node makes on its connection. */
  datatype Call = ConnectCall | ExecCall(cmd: string) | CloseCall

  /** What the SSH client raises when it has no open session. */
  const NoSessionError := "'NoneType' object has no attribute 'open_session'"

  /** The reply of `exec_cmd` on a connection whose session is `open` or not. The SSH
      connection passes the client's exception on; the database connection catches any
      failure of execute or fetch (including the absence of a session) and returns None. */
  function ExecReply(t: Transport, open: bool, cmd: string): (r: Reply<RawOutput>)
    ensures t.Shell? ==> (r.Raised? <==> !open || t.run(cmd).Raised?)
    ensures t.Shell? && r.Returned? ==> r.value == Lines(t.run(cmd).value)
    ensures t.Database? ==> r.Returned? && r.value.Rows?
    ensures t.Database? ==> (r.value.rows.None? <==> !open || t.query(cmd).Raised?)
    ensures t.Database? && r.value.rows.Some? ==> r.value.rows.value == t.query(cmd).value
  {
    match t
    case Shell(run) =>
      if !open then Raised([NoSessionError])
      else (match run(cmd)
            case Raised(args) => Raised(args)
            case Returned(lines) => Returned(Lines(lines)))
    case Database(query) =>
      if !open then Returned(Rows(None))
      else (match query(cmd)
            case Raised(_) => Returned(Rows(None))
            case Returned(rows) => Returned(Rows(Some(rows))))
  }

  /** A low-level connection with its session state and the calls made on it. */
  class Backend {
    const outcome: ConnectOutcome
    const transport: Transport
    const closeOutcome: CloseOutcome
    var isOpen: bool
    var calls: seq<Call>

    constructor (outcome: ConnectOutcome, transport: Transport, closeOutcome: CloseOutcome)
      ensures this.outcome == outcome && this.transport == transport && this.closeOutcome == closeOutcome
      ensures !isOpen && calls == []
    {
      this.outcome := outcome;
      this.transport := transport;
      this.closeOutcome := closeOutcome;
      isOpen := false;
      calls := [];
    }

    /** Opens the session; the outcome is the server's. */
    method Connect() returns (o: ConnectOutcome)
      modifies this
      ensures o == outcome && isOpen == outcome.Accepted?
      ensures calls == old(calls) + [ConnectCall]
    {
      o := outcome;
      isOpen := outcome.Accepted?;
      calls := calls + [ConnectCall];
    }

    method Exec(cmd: string) returns (r: Reply<RawOutput>)
      modifies this
      ensures r == ExecReply(transport, old(isOpen), cmd)
      ensures isOpen == old(isOpen) && calls == old(calls) + [ExecCall(cmd)]
    {
      r := ExecReply(transport, isOpen, cmd);
      calls := calls + [ExecCall(cmd)];
    }

    /** Closes the session; the outcome is the server's. A close that raises leaves the
        session as it was. */
    method Close() returns (o: CloseOutcome)
      modifies this
      ensures o == closeOutcome
      ensures isOpen == (old(isOpen) && closeOutcome.CloseRefused?)
      ensures calls == old(calls) + [CloseCall]
    {
      o := closeOutcome;
      if closeOutcome.Released? {
        isOpen := false;
      }
      calls := calls + [CloseCall];
    }
  }
}
