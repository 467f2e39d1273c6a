/** The `sqlcmd` invocations the pipeline issues, as data: where they connect, how they
    authenticate and which statement they carry. Running them is outside the model;
    only their success and their standard output come back in. */
module Sqlcmd {
  import opened Wrappers

  /** `-E` (trusted connection) or `-U user -P password`. */
  datatype Auth = Integrated | SqlLogin(user: string, password: string)

  /** The credential choice made by `restoreDB` and `runUpdateQuery`: trusted authentication
      exactly when both the user and the password are empty. */
  function AuthFor(user: string, password: string): Auth
  {
    if user == "" && password == "" then Integrated else SqlLogin(user, password)
  }

  /** The leading arguments of every invocation: `-S host -d database` and the credentials. */
  function ConnectArgs(host: string, database: string, auth: Auth): seq<string> {
    ["-S", host, "-d", database]
    + match auth
      case Integrated => ["-E"]
      case SqlLogin(user, password) => ["-U", user, "-P", password]
  }

  /** Reads the credentials back from the arguments `sqlcmd` receives. */
  function AuthOfArgs(args: seq<string>): Option<Auth> {
    if |args| == 5 && args[4] == "-E" then Some(Integrated)
    else if |args| == 8 && args[4] == "-U" && args[6] == "-P" then Some(SqlLogin(args[5], args[7]))
    else None
  }

  /** The arguments carry exactly the chosen credentials, and a password is passed only
      when a login was chosen. */
  lemma AuthArgsRoundTrip(host: string, database: string, user: string, password: string)
    ensures AuthOfArgs(ConnectArgs(host, database, AuthFor(user, password))) == Some(AuthFor(user, password))
    ensures ConnectArgs(host, database, AuthFor(user, password))[..4] == ["-S", host, "-d", database]
    ensures user == "" && password == "" <==> |ConnectArgs(host, database, AuthFor(user, password))| == 5
  {
  }

  /** The statements the pipeline sends, by the values they are built from. */
  datatype Statement =
    | FileListOnly(bakPath: string)
    | DefaultDataPath
    | SetSingleUser(database: string)
    | RestoreWithMove(database: string, bakPath: string,
                      dataLogical: string, mdfTarget: string,
                      logLogical: string, ldfTarget: string)
    | SetMultiUser(database: string)
    | UpdateQuery(text: string)

  datatype Command = Command(host: string, database: string, auth: Auth, statement: Statement)

  /** The outcome of running one command: its exit status and what it printed on stdout. */
  datatype CommandResult = CommandResult(ok: bool, stdout: string)
}
