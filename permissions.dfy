/** `grantPermissions`: the SQL Server service identity that is granted full control of the
    backup file and of the folder holding it. Both grants are best effort. */
module Permissions {
  import Paths

  const DefaultInstanceAccount: string := "NT SERVICE\\MSSQLSERVER"
  const NamedInstancePrefix: string := "NT SERVICE\\MSSQL$"

  /** What follows the first backslash, as `strings.SplitN(s, "\\", 2)[1]`. */
  function AfterFirstBackslash(s: string): (r: string)
    requires '\\' in s
    ensures |r| < |s| && r == s[|s| - |r|..]
  {
    if s[0] == '\\' then s[1..] else AfterFirstBackslash(s[1..])
  }

  /** The service account of the instance named in the host string. */
  function ServiceAccount(host: string): string {
    if '\\' in host then NamedInstancePrefix + AfterFirstBackslash(host)
    else DefaultInstanceAccount
  }

  /** A host without an instance name is the default instance. */
  lemma DefaultInstance(host: string)
    requires '\\' !in host
    ensures ServiceAccount(host) == "NT SERVICE\\MSSQLSERVER"
  {
  }

  /** `server\instance` maps to the account of that instance, and everything after the first
      backslash, further backslashes included, is the instance name. */
  lemma {:induction false} NamedInstance(server: string, instance: string)
    requires '\\' !in server
    ensures ServiceAccount(server + "\\" + instance) == "NT SERVICE\\MSSQL$" + instance
  {
    AfterServer(server, instance);
  }

  lemma {:induction false} AfterServer(server: string, instance: string)
    requires '\\' !in server
    ensures AfterFirstBackslash(server + "\\" + instance) == instance
  {
    if server != [] {
      assert (server + "\\" + instance)[1..] == server[1..] + "\\" + instance;
      AfterServer(server[1..], instance);
    }
  }

  /** The two `icacls` grants: the file, then its folder recursively. */
  datatype Grant = Grant(target: string, account: string, recursive: bool)

  function Grants(bakFile: string, host: string): seq<Grant>
  {
    [Grant(bakFile, ServiceAccount(host), false), Grant(Paths.Dir(bakFile), ServiceAccount(host), true)]
  }

  /** For a backup file inside a folder, the file itself is granted and then, recursively,
      exactly the folder that holds it, both to the instance's service account. */
  lemma GrantsFolderHoldingFile(folder: string, name: string, host: string)
    requires folder != "" && !Paths.IsSeparator(folder[|folder| - 1])
    requires forall i :: 0 <= i < |name| ==> !Paths.IsSeparator(name[i])
    ensures Grants(Paths.Join(folder, name), host)
         == [Grant(Paths.Join(folder, name), ServiceAccount(host), false), Grant(folder, ServiceAccount(host), true)]
  {
    Paths.DirOfJoin(folder, name);
  }
}
