/**
 * The plugin's entities, the persisted record layout, and the protocol of the
 * scripted shell: the commands the plugin issues and the outcomes it can get back.
 */
module Domain {
  import opened Wrappers

  /** The probe's verdict on the `wrangler` CLI; `None` in the toolbar means "still checking". */
  datatype CliStatus = CliStatus(installed: bool, authenticated: bool)

  /** An account `wrangler whoami --json` reports, in the CLI's order. */
  datatype Account = Account(name: string, id: string)

  /** A row of `wrangler pages project list`: a project and its `*.pages.dev` host. */
  datatype Project = Project(name: string, subdomain: string)

  /** The one persisted entity: which Pages project this workspace deploys to. */
  datatype LinkedProject = LinkedProject(
    projectName: string,
    accountId: string,
    accountName: string,
    outputDir: string,
    prodUrl: Option<string>)

  /** JavaScript truthiness of an optional string: present and non-empty. */
  predicate Truthy(v: Option<string>) {
    v.Some? && v.value != ""
  }

  /** The storage surface holds a flat record of string values. */
  type StoredRecord = map<string, string>

  function Field(m: StoredRecord, key: string): Option<string> {
    if key in m then Some(m[key]) else None
  }

  /** The record `storage.write(linked)` persists; an absent `prodUrl` is not written. */
  function Encode(l: LinkedProject): (m: StoredRecord)
    ensures m.Keys == {"projectName", "accountId", "accountName", "outputDir"}
                      + (if l.prodUrl.Some? then {"prodUrl"} else {})
  {
    var base := map["projectName" := l.projectName, "accountId" := l.accountId,
                     "accountName" := l.accountName, "outputDir" := l.outputDir];
    match l.prodUrl
    case None => base
    case Some(u) => base["prodUrl" := u]
  }

  /**
   * The toolbar's reading of a stored record: linked exactly when `projectName`
   * and `accountId` are both truthy; a missing `accountName` or `outputDir`
   * reads as the empty string.
   */
  function Decode(m: StoredRecord): (r: Option<LinkedProject>)
    ensures r.Some? <==> Truthy(Field(m, "projectName")) && Truthy(Field(m, "accountId"))
    ensures r.Some? ==> r.value.projectName == m["projectName"] && r.value.accountId == m["accountId"]
                        && r.value.prodUrl == Field(m, "prodUrl")
  {
    if Truthy(Field(m, "projectName")) && Truthy(Field(m, "accountId")) then
      Some(LinkedProject(m["projectName"], m["accountId"],
                         Field(m, "accountName").GetOr(""), Field(m, "outputDir").GetOr(""),
                         Field(m, "prodUrl")))
    else None
  }

  /** What `storage.write` persists, the toolbar reads back. */
  lemma DecodeEncode(l: LinkedProject)
    requires l.projectName != "" && l.accountId != ""
    ensures Decode(Encode(l)) == Some(l)
  {
    var m := Encode(l);
    assert Field(m, "accountName") == Some(l.accountName);
    assert Field(m, "outputDir") == Some(l.outputDir);
    assert Field(m, "prodUrl") == l.prodUrl;
  }

  /** The cleared record `storage.write({})` leaves is never read as linked. */
  lemma ClearedIsUnlinked()
    ensures Decode(map[]) == None
  {
    assert Field(map[], "projectName") == None;
  }

  /** `storage.write(data)` after setting `data.prodUrl`, read back: only `prodUrl` changes. */
  lemma {:induction false} DecodeWithProdUrl(m: StoredRecord, u: string)
    requires Decode(m).Some?
    ensures Decode(m["prodUrl" := u]) == Some(Decode(m).value.(prodUrl := Some(u)))
  {
    var m' := m["prodUrl" := u];
    assert Field(m', "projectName") == Field(m, "projectName");
    assert Field(m', "accountId") == Field(m, "accountId");
    assert Field(m', "accountName") == Field(m, "accountName");
    assert Field(m', "outputDir") == Field(m, "outputDir");
    assert Field(m', "prodUrl") == Some(u);
  }

  /** The commands the plugin issues; `Spell` gives the exact `shell.exec` arguments of each. */
  datatype Command =
    | WhoamiCmd
    | ReadWhoamiCmd
    | RemoveWhoamiCmd
    | InstallGlobalCmd
    | InstallLocalCmd
    | VersionCmd
    | LoginCmd
    | LogoutCmd
    | BuildCmd
    | ReadPackageCmd
    | TestDirCmd(dir: string)
    | ProjectListCmd(accountId: string)
    | CreateCmd(accountId: string, name: string)
    | DeployCmd(accountId: string, outputDir: string, name: string)

  /** One `shell.exec(command, args, { timeout })` invocation. */
  datatype Invocation = Invocation(program: string, args: seq<string>, timeout: Option<nat>)

  /** What a scripted `shell.exec` does: resolve with captured output, or reject. */
  datatype Outcome =
    | Exited(stdout: string, stderr: string, exitCode: int)
    | Threw

  predicate Succeeded(o: Outcome) {
    o.Exited? && o.exitCode == 0
  }

  /** The observable side effects, in the order they were issued. */
  datatype Event = Ran(command: Command) | Saved(record: StoredRecord)

  /** The scripted shell: the `k`-th call gets the `k`-th outcome, and a call past the script rejects. */
  function Reply(script: seq<Outcome>, k: nat): Outcome {
    if k < |script| then script[k] else Threw
  }

  /**
   * The record in storage after `events`, starting from `m`: each write
   * replaces what is held, so the last one written wins.
   */
  function Stored(m: StoredRecord, events: seq<Event>): (r: StoredRecord)
    ensures r == m || Saved(r) in events
    decreases |events|
  {
    if events == [] then m
    else Stored(if events[0].Saved? then events[0].record else m, events[1..])
  }

  lemma {:induction false} StoredAppend(m: StoredRecord, a: seq<Event>, b: seq<Event>)
    ensures Stored(m, a + b) == Stored(Stored(m, a), b)
    decreases |a|
  {
    if a == [] {
      assert a + b == b;
    } else {
      assert (a + b)[1..] == a[1..] + b;
      StoredAppend(if a[0].Saved? then a[0].record else m, a[1..], b);
    }
  }

  /** How many shell calls a log records. */
  function Runs(events: seq<Event>): (n: nat)
    ensures n <= |events|
  {
    if events == [] then 0
    else (if events[0].Ran? then 1 else 0) + Runs(events[1..])
  }

  lemma {:induction false} RunsAppend(a: seq<Event>, b: seq<Event>)
    ensures Runs(a + b) == Runs(a) + Runs(b)
    decreases |a|
  {
    if a == [] {
      assert a + b == b;
    } else {
      assert (a + b)[1..] == a[1..] + b;
      RunsAppend(a[1..], b);
    }
  }

  /** Whatever is logged after `t0`, the record and the call count continue from where `t0` left them. */
  lemma Continues(m: StoredRecord, t0: seq<Event>, e: seq<Event>)
    ensures Stored(m, t0 + e) == Stored(Stored(m, t0), e)
    ensures Runs(t0 + e) == Runs(t0) + Runs(e)
  {
    StoredAppend(m, t0, e);
    RunsAppend(t0, e);
  }

  /** A log of shell calls only. */
  predicate OnlyRuns(e: seq<Event>) {
    forall i :: 0 <= i < |e| ==> e[i].Ran?
  }

  /** Calls alone leave the stored record as it was and count one each. */
  lemma {:induction false} RunsKeepStorage(m: StoredRecord, e: seq<Event>)
    requires OnlyRuns(e)
    ensures Stored(m, e) == m && Runs(e) == |e|
    decreases |e|
  {
    if e != [] {
      RunsKeepStorage(m, e[1..]);
    }
  }

  /** Commands run before the rest of a flow change nothing the rest will find stored. */
  lemma RunsFirst(m: StoredRecord, p: seq<Event>, e: seq<Event>)
    requires OnlyRuns(p)
    ensures Stored(m, p + e) == Stored(m, e) && Runs(p + e) == |p| + Runs(e)
  {
    Continues(m, p, e);
    RunsKeepStorage(m, p);
  }

  /** Commands run, then one write: the store holds what was written. */
  lemma RunsThenSave(m: StoredRecord, p: seq<Event>, x: StoredRecord)
    requires OnlyRuns(p)
    ensures Stored(m, p + [Saved(x)]) == x && Runs(p + [Saved(x)]) == |p|
  {
    RunsFirst(m, p, [Saved(x)]);
  }

  // The commands, as the plugin spells them.

  const WHOAMI_FILE := "/tmp/cf_whoami.json"

  function Sh(script: string, timeout: Option<nat>): Invocation {
    Invocation("sh", ["-c", script], timeout)
  }

  /** The environment prefix that scopes a `wrangler` call to one account. */
  function AccountPrefix(accountId: string): string {
    "CLOUDFLARE_ACCOUNT_ID=" + accountId + " npx --yes wrangler "
  }

  /**
   * The exact `shell.exec` arguments of each command, for reference. The rest
   * of the model compares commands by constructor and field, so no contract
   * depends on the spelling.
   */
  function Spell(c: Command): Invocation {
    match c
    case WhoamiCmd => Sh("npx --yes wrangler whoami --json > " + WHOAMI_FILE + " 2>/dev/null", Some(30000))
    case ReadWhoamiCmd => Invocation("cat", [WHOAMI_FILE], None)
    case RemoveWhoamiCmd => Invocation("rm", ["-f", WHOAMI_FILE], None)
    case InstallGlobalCmd => Invocation("npm", ["install", "-g", "wrangler"], Some(120000))
    case InstallLocalCmd => Invocation("npm", ["install", "--save-dev", "wrangler"], Some(120000))
    case VersionCmd => Invocation("npx", ["--yes", "wrangler", "--version"], None)
    case LoginCmd => Invocation("npx", ["--yes", "wrangler", "login"], Some(120000))
    case LogoutCmd => Invocation("npx", ["--yes", "wrangler", "logout"], Some(30000))
    case BuildCmd => Invocation("npm", ["run", "build"], Some(300000))
    case ReadPackageCmd => Invocation("cat", ["package.json"], None)
    case TestDirCmd(dir) => Invocation("test", ["-d", dir], None)
    case ProjectListCmd(id) => Sh(AccountPrefix(id) + "pages project list", None)
    case CreateCmd(id, name) => Sh(AccountPrefix(id) + "pages project create " + name + " --production-branch main", None)
    case DeployCmd(id, dir, name) => Sh(AccountPrefix(id) + "pages deploy " + dir + " --project-name " + name, Some(300000))
  }

  /** Concatenation regroups freely; the handlers' logs are built from such pieces. */
  lemma AppendAssoc<T>(a: seq<T>, b: seq<T>, c: seq<T>)
    ensures (a + b) + c == a + (b + c)
  {
  }
}
