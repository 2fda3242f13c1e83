/**
 * The toolbar component and its connect modal as objects whose handlers
 * update their fields step by step, over the host context. Each handler is
 * proved to do what the matching function in Flows describes.
 */
module Toolbar {
  import opened Wrappers
  import opened Text
  import opened Domain
  import opened ProjectName
  import opened Parsing
  import opened DeployUrl
  import opened PluginStatus
  import opened Flows
  import opened Host

  class CloudflareToolbar {
    const ctx: Context
    /** What `JSON.parse` gives for the `whoami` read-back, reduced to the shape the plugin inspects. */
    const parseJson: JsonTable
    var cliStatus: Option<CliStatus>
    var accounts: seq<Account>
    var linked: Option<LinkedProject>
    var isDeploying: bool

    function View(): Flows.View
      reads this
    {
      Flows.View(cliStatus, accounts, linked, isDeploying)
    }

    /** The state the toolbar renders. */
    function State(): PluginState
      reads this
    {
      Derive(cliStatus, accounts, linked, isDeploying)
    }

    constructor (ctx: Context, parseJson: JsonTable)
      ensures this.ctx == ctx && this.parseJson == parseJson
      ensures View() == Flows.View(None, [], None, false) && State() == Checking
    {
      this.ctx := ctx;
      this.parseJson := parseJson;
      cliStatus := None;
      accounts := [];
      linked := None;
      isDeploying := false;
    }

    /** The probe run on mount. */
    method Check()
      modifies this, ctx
      ensures var r := Probe(ctx.script, old(ctx.calls), parseJson, old(ctx.storage), old(View()));
        && View() == r.view && ctx.trace == old(ctx.trace) + r.events
        && ctx.storage == Stored(old(ctx.storage), r.events) && ctx.calls == old(ctx.calls) + Runs(r.events)
    {
      ghost var t0, k, s0, v0 := ctx.trace, ctx.calls, ctx.storage, View();
      var write := ctx.Exec(WhoamiCmd);
      if !Succeeded(write) {
        cliStatus := Some(FailedWhoami(write));
        ProbeFailed(ctx.script, k, parseJson, s0, v0);
        RunsKeepStorage(s0, [Ran(WhoamiCmd)]);
        return;
      }
      ProbeWrote(ctx.script, k, parseJson, s0, v0);
      ghost var rb := ReadBack(ctx.script, k + 1, parseJson, s0, v0);
      assert ctx.storage == s0 && ctx.calls == k + 1;
      ReadBackWhoami();
      assert ctx.storage == Stored(s0, rb.events) && ctx.calls == k + 1 + Runs(rb.events);
      AppendAssoc(t0, [Ran(WhoamiCmd)], rb.events);
      RunsFirst(s0, [Ran(WhoamiCmd)], rb.events);
    }

    /** Step 2 of the probe: read the file back. */
    method ReadBackWhoami()
      modifies this, ctx
      ensures var r := ReadBack(ctx.script, old(ctx.calls), parseJson, old(ctx.storage), old(View()));
        && View() == r.view && ctx.trace == old(ctx.trace) + r.events
        && ctx.storage == Stored(old(ctx.storage), r.events) && ctx.calls == old(ctx.calls) + Runs(r.events)
    {
      ghost var t0, k, s0, v0 := ctx.trace, ctx.calls, ctx.storage, View();
      var read := ctx.Exec(ReadWhoamiCmd);
      if read.Threw? {
        cliStatus := Some(NOT_INSTALLED);
        ReadBackRejected(ctx.script, k, parseJson, s0, v0);
        RunsKeepStorage(s0, [Ran(ReadWhoamiCmd)]);
        return;
      }
      ReadBackRead(ctx.script, k, parseJson, s0, v0);
      ghost var rc := Consume(ctx.script, k + 1, parseJson, s0, v0, read);
      assert ctx.storage == s0 && ctx.calls == k + 1;
      ConsumeReadBack(read);
      assert ctx.storage == Stored(s0, rc.events) && ctx.calls == k + 1 + Runs(rc.events);
      AppendAssoc(t0, [Ran(ReadWhoamiCmd)], rc.events);
      RunsFirst(s0, [Ran(ReadWhoamiCmd)], rc.events);
    }

    /** Step 3: remove the file without waiting, then judge what was read. */
    method ConsumeReadBack(read: Outcome)
      requires read.Exited?
      modifies this, ctx
      ensures var r := Consume(ctx.script, old(ctx.calls), parseJson, old(ctx.storage), old(View()), read);
        && View() == r.view && ctx.trace == old(ctx.trace) + r.events
        && ctx.storage == Stored(old(ctx.storage), r.events) && ctx.calls == old(ctx.calls) + Runs(r.events)
    {
      ghost var t0, k, s0, v0 := ctx.trace, ctx.calls, ctx.storage, View();
      var removed := ctx.Exec(RemoveWhoamiCmd);
      var blank := TrimsToEmpty(read.stdout);
      if read.exitCode != 0 || blank {
        cliStatus := Some(SIGNED_OUT);
        ConsumeBlank(ctx.script, k, parseJson, s0, v0, read);
      } else {
        ghost var rs := SignIn(ctx.script, k + 1, parseJson, s0, v0, read.stdout);
        ConsumeContent(ctx.script, k, parseJson, s0, v0, read);
        assert ctx.storage == s0 && ctx.calls == k + 1;
        AdoptAccounts(read.stdout);
        assert ctx.storage == Stored(s0, rs.events) && ctx.calls == k + 1 + Runs(rs.events);
        AppendAssoc(t0, [Ran(RemoveWhoamiCmd)], rs.events);
      }
    }

    /** `setAccounts`, `setCliStatus`, and the link restore when an account was found. */
    method AdoptAccounts(text: string)
      modifies this, ctx
      ensures var r := SignIn(ctx.script, old(ctx.calls), parseJson, old(ctx.storage), old(View()), text);
        && View() == r.view && ctx.trace == old(ctx.trace) + r.events
        && ctx.storage == Stored(old(ctx.storage), r.events) && ctx.calls == old(ctx.calls) + Runs(r.events)
    {
      ghost var k, v0 := ctx.calls, View();
      var parsed := ParseWhoami(JsonParse(parseJson, text));
      accounts := parsed;
      cliStatus := Some(CliStatus(true, |parsed| > 0));
      assert View() == Adopt(v0, parseJson, text);
      if |parsed| > 0 {
        RestoreLink();
      }
    }

    /** Reading the stored record, backfilling `prodUrl` from the project list when it is missing. */
    method RestoreLink()
      modifies this, ctx
      ensures var r := Restore(ctx.script, old(ctx.calls), old(ctx.storage), old(View()));
        && View() == r.view && ctx.trace == old(ctx.trace) + r.events
        && ctx.storage == Stored(old(ctx.storage), r.events) && ctx.calls == old(ctx.calls) + Runs(r.events)
    {
      ghost var t0, k, v0 := ctx.trace, ctx.calls, View();
      var data := ctx.Read();
      var record := Decode(data);
      if record.None? {
        assert Restore(ctx.script, k, data, v0) == Step(v0, []);
        return;
      }
      var linkedData := record.value;
      if Truthy(linkedData.prodUrl) {
        linked := Some(linkedData);
        assert Restore(ctx.script, k, data, v0) == Step(View(), []);
        return;
      }
      var listResult := ctx.Exec(ProjectListCmd(linkedData.accountId));
      ghost var e := [Ran(ProjectListCmd(linkedData.accountId))];
      if !Succeeded(listResult) {
        linked := Some(linkedData);
        assert Restore(ctx.script, k, data, v0) == Step(View(), e);
        RunsKeepStorage(data, e);
        return;
      }
      var projects := ParseProjectList(listResult.stdout);
      var found := FindProject(projects, linkedData.projectName);
      if found.Some? && found.value.subdomain != "" {
        var url := HTTPS + found.value.subdomain;
        linkedData := linkedData.(prodUrl := Some(url));
        ctx.Write(data["prodUrl" := url]);
        linked := Some(linkedData);
        AppendAssoc(t0, e, [Saved(data["prodUrl" := url])]);
        assert Restore(ctx.script, k, data, v0) == Step(View(), e + [Saved(data["prodUrl" := url])]);
        RunsThenSave(data, e, data["prodUrl" := url]);
      } else {
        linked := Some(linkedData);
        assert Restore(ctx.script, k, data, v0) == Step(View(), e);
        RunsKeepStorage(data, e);
      }
    }

    method HandleInstall()
      modifies this, ctx
      ensures var r := Install(ctx.script, old(ctx.calls), old(View()));
        && View() == r.view && ctx.trace == old(ctx.trace) + r.events
        && ctx.storage == Stored(old(ctx.storage), r.events) && ctx.calls == old(ctx.calls) + Runs(r.events)
    {
      ghost var t0, k, s0, v0 := ctx.trace, ctx.calls, ctx.storage, View();
      var result := ctx.Exec(InstallGlobalCmd);
      if result.Threw? {
        assert Install(ctx.script, k, v0) == Step(v0, [Ran(InstallGlobalCmd)]);
        RunsKeepStorage(s0, [Ran(InstallGlobalCmd)]);
        return;
      }
      ghost var e := [Ran(InstallGlobalCmd)];
      if result.exitCode != 0 {
        result := ctx.Exec(InstallLocalCmd);
        e := [Ran(InstallGlobalCmd), Ran(InstallLocalCmd)];
        assert ctx.trace == t0 + e;
        if result.Threw? {
          assert Install(ctx.script, k, v0) == Step(v0, e);
          RunsKeepStorage(s0, e);
          return;
        }
      }
      if result.exitCode == 0 {
        var check := ctx.Exec(VersionCmd);
        if Succeeded(check) {
          cliStatus := Some(SIGNED_OUT);
        }
        AppendAssoc(t0, e, [Ran(VersionCmd)]);
        assert Install(ctx.script, k, v0) == Step(View(), e + [Ran(VersionCmd)]);
        RunsKeepStorage(s0, e + [Ran(VersionCmd)]);
      } else {
        assert Install(ctx.script, k, v0) == Step(v0, e);
        RunsKeepStorage(s0, e);
      }
    }

    method HandleLogin()
      modifies this, ctx
      ensures var r := Login(ctx.script, old(ctx.calls), parseJson, old(View()));
        && View() == r.view && ctx.trace == old(ctx.trace) + r.events
        && ctx.storage == Stored(old(ctx.storage), r.events) && ctx.calls == old(ctx.calls) + Runs(r.events)
    {
      ghost var t0, k, s0, v0 := ctx.trace, ctx.calls, ctx.storage, View();
      var result := ctx.Exec(LoginCmd);
      if !Succeeded(result) {
        LoginFailed(ctx.script, k, parseJson, v0);
        RunsKeepStorage(s0, [Ran(LoginCmd)]);
        return;
      }
      LoginWent(ctx.script, k, parseJson, v0);
      ghost var rc := Recheck(ctx.script, k + 1, parseJson, v0);
      assert ctx.storage == s0 && ctx.calls == k + 1;
      RecheckWhoami();
      assert ctx.storage == Stored(s0, rc.events) && ctx.calls == k + 1 + Runs(rc.events);
      AppendAssoc(t0, [Ran(LoginCmd)], rc.events);
      RunsFirst(s0, [Ran(LoginCmd)], rc.events);
    }

    /** The `whoami` re-check after a successful login. */
    method RecheckWhoami()
      modifies this, ctx
      ensures var r := Recheck(ctx.script, old(ctx.calls), parseJson, old(View()));
        && View() == r.view && ctx.trace == old(ctx.trace) + r.events
        && ctx.storage == Stored(old(ctx.storage), r.events) && ctx.calls == old(ctx.calls) + Runs(r.events)
    {
      ghost var t0, k, s0, v0 := ctx.trace, ctx.calls, ctx.storage, View();
      ghost var r := Recheck(ctx.script, k, parseJson, v0);
      var write := ctx.Exec(WhoamiCmd);
      if write.Threw? {
        assert r == Step(v0, [Ran(WhoamiCmd)]);
        RunsKeepStorage(s0, [Ran(WhoamiCmd)]);
        return;
      }
      var read := ctx.Exec(ReadWhoamiCmd);
      if read.Threw? {
        assert ctx.trace == t0 + [Ran(WhoamiCmd), Ran(ReadWhoamiCmd)];
        assert r == Step(v0, [Ran(WhoamiCmd), Ran(ReadWhoamiCmd)]);
        RunsKeepStorage(s0, [Ran(WhoamiCmd), Ran(ReadWhoamiCmd)]);
        return;
      }
      var removed := ctx.Exec(RemoveWhoamiCmd);
      ghost var e := [Ran(WhoamiCmd), Ran(ReadWhoamiCmd), Ran(RemoveWhoamiCmd)];
      assert ctx.trace == t0 + e;
      RunsKeepStorage(s0, e);
      var blank := TrimsToEmpty(read.stdout);
      if read.exitCode == 0 && !blank {
        assert r == Step(Adopt(v0, parseJson, read.stdout), e);
        var parsed := ParseWhoami(JsonParse(parseJson, read.stdout));
        accounts := parsed;
        cliStatus := Some(CliStatus(true, |parsed| > 0));
      } else {
        assert r == Step(v0, e);
      }
    }

    method HandleDeploy()
      modifies this, ctx
      ensures var r := Deploy(ctx.script, old(ctx.calls), old(View()));
        && View() == r.view && ctx.trace == old(ctx.trace) + r.events
        && ctx.storage == Stored(old(ctx.storage), r.events) && ctx.calls == old(ctx.calls) + Runs(r.events)
    {
      ghost var t0, k, s0, v0 := ctx.trace, ctx.calls, ctx.storage, View();
      if linked.None? {
        assert Deploy(ctx.script, k, v0) == Step(v0, []);
        return;
      }
      var l := linked.value;
      isDeploying := true;
      var build := ctx.Exec(BuildCmd);
      assert ctx.storage == s0 && ctx.calls == k + 1;
      if !Succeeded(build) {
        isDeploying := false;
        assert Deploy(ctx.script, k, v0) == Step(View(), [Ran(BuildCmd)]);
        RunsKeepStorage(s0, [Ran(BuildCmd)]);
        return;
      }
      var dirCheck := ctx.Exec(TestDirCmd(l.outputDir));
      assert ctx.storage == s0 && ctx.calls == k + 2;
      assert ctx.trace == t0 + [Ran(BuildCmd), Ran(TestDirCmd(l.outputDir))];
      if !Succeeded(dirCheck) {
        isDeploying := false;
        assert Deploy(ctx.script, k, v0) == Step(View(), [Ran(BuildCmd), Ran(TestDirCmd(l.outputDir))]);
        RunsKeepStorage(s0, [Ran(BuildCmd), Ran(TestDirCmd(l.outputDir))]);
        return;
      }
      var result := ctx.Exec(DeployCmd(l.accountId, l.outputDir, l.projectName));
      assert ctx.storage == s0 && ctx.calls == k + 3;
      ghost var e := [Ran(BuildCmd), Ran(TestDirCmd(l.outputDir)), Ran(DeployCmd(l.accountId, l.outputDir, l.projectName))];
      assert ctx.trace == t0 + e;
      RunsKeepStorage(s0, e);
      DeployRanAll(ctx.script, k, v0);
      if Succeeded(result) && !Truthy(l.prodUrl) {
        var url := ProdUrlFromOutput(result.stdout, result.stderr);
        if url.Some? {
          var updated := l.(prodUrl := url);
          linked := Some(updated);
          ctx.Write(Encode(updated));
          assert ctx.storage == Encode(updated) && ctx.calls == k + 3;
          isDeploying := false;
          AppendAssoc(t0, e, [Saved(Encode(updated))]);
          RunsThenSave(s0, e, Encode(updated));
          return;
        }
      }
      isDeploying := false;
    }

    method HandleUnlink()
      modifies this, ctx
      ensures var r := Unlink(old(View()));
        && View() == r.view && ctx.trace == old(ctx.trace) + r.events
        && ctx.storage == Stored(old(ctx.storage), r.events) && ctx.calls == old(ctx.calls) + Runs(r.events)
    {
      ctx.Write(map[]);
      linked := None;
    }

    method HandleSignOut()
      modifies this, ctx
      ensures var r := SignOut(ctx.script, old(ctx.calls), old(View()));
        && View() == r.view && ctx.trace == old(ctx.trace) + r.events
        && ctx.storage == Stored(old(ctx.storage), r.events) && ctx.calls == old(ctx.calls) + Runs(r.events)
    {
      ghost var t0, k, s0, v0 := ctx.trace, ctx.calls, ctx.storage, View();
      var result := ctx.Exec(LogoutCmd);
      if result.Threw? {
        assert SignOut(ctx.script, k, v0) == Step(v0, [Ran(LogoutCmd)]);
        RunsKeepStorage(s0, [Ran(LogoutCmd)]);
        return;
      }
      ctx.Write(map[]);
      linked := None;
      accounts := [];
      cliStatus := Some(SIGNED_OUT);
      assert ctx.trace == t0 + [Ran(LogoutCmd), Saved(map[])];
      RunsThenSave(s0, [Ran(LogoutCmd)], map[]);
    }

    /** `onLinked` from the modal. */
    method HandleLinked(project: LinkedProject)
      modifies this
      ensures View() == old(View()).(linked := Some(project))
    {
      linked := Some(project);
    }
  }

  class ConnectModal {
    const ctx: Context
    const accounts: seq<Account>
    var selectedAccountId: string
    var projectName: string
    var outputDir: string
    var existingProjects: seq<Project>
    var selectedExisting: Option<string>
    var error: Option<ModalError>
    /** The project handed to `onLinked`, after which the modal closes. */
    var handedOver: Option<LinkedProject>

    function Form(): Flows.Form
      reads this
    {
      Flows.Form(accounts, selectedAccountId, projectName, outputDir, existingProjects, selectedExisting)
    }

    /** The first account is preselected, the folder defaults to `dist` until detected. */
    constructor (ctx: Context, accounts: seq<Account>)
      ensures this.ctx == ctx && this.accounts == accounts
      ensures selectedAccountId == (if |accounts| > 0 then accounts[0].id else "")
      ensures projectName == "" && outputDir == DEFAULT_DIR && existingProjects == [] && selectedExisting == None
      ensures error == None && handedOver == None
    {
      this.ctx := ctx;
      this.accounts := accounts;
      selectedAccountId := if |accounts| > 0 then accounts[0].id else "";
      projectName := "";
      outputDir := DEFAULT_DIR;
      existingProjects := [];
      selectedExisting := None;
      error := None;
      handedOver := None;
    }

    /** The mount effect: the detected folder replaces the default. */
    method DetectDir()
      modifies this, ctx
      ensures var r := Flows.DetectDir(ctx.script, old(ctx.calls));
        && Form() == old(Form()).(outputDir := r.dir) && ctx.trace == old(ctx.trace) + r.events
        && ctx.storage == old(ctx.storage) && ctx.calls == old(ctx.calls) + |r.events|
      ensures error == old(error) && handedOver == old(handedOver)
    {
      outputDir := DetectOutputDir(ctx);
    }

    /** The link tab's effect: list the selected account's projects when one is selected. */
    method LoadExisting()
      modifies this, ctx
      ensures ctx.storage == old(ctx.storage)
      ensures old(selectedAccountId) == "" ==> Form() == old(Form()) && ctx.trace == old(ctx.trace) && ctx.calls == old(ctx.calls)
      ensures old(selectedAccountId) != "" ==>
        var o := Reply(ctx.script, old(ctx.calls));
        && ctx.trace == old(ctx.trace) + [Ran(ProjectListCmd(old(selectedAccountId)))]
        && ctx.calls == old(ctx.calls) + 1
        && selectedExisting == None
        && existingProjects == (if Succeeded(o) then ProjectsOfLines(SplitLines(o.stdout)) else [])
        && selectedAccountId == old(selectedAccountId) && projectName == old(projectName)
        && outputDir == old(outputDir)
      ensures error == old(error) && handedOver == old(handedOver)
    {
      if selectedAccountId == "" {
        return;
      }
      existingProjects := [];
      selectedExisting := None;
      var result := ctx.Exec(ProjectListCmd(selectedAccountId));
      if Succeeded(result) {
        existingProjects := ParseProjectList(result.stdout);
      }
    }

    method HandleCreate()
      modifies this, ctx
      ensures var r := Create(ctx.script, old(ctx.calls), old(Form()));
        && Form() == old(Form()) && error == r.error
        && handedOver == (if r.linked.Some? then r.linked else old(handedOver))
        && ctx.trace == old(ctx.trace) + r.events
        && ctx.storage == Stored(old(ctx.storage), r.events) && ctx.calls == old(ctx.calls) + Runs(r.events)
    {
      ghost var t0, k, s0, f0 := ctx.trace, ctx.calls, ctx.storage, Form();
      var sanitized := Sanitize(projectName);
      if sanitized == "" {
        error := Some(InvalidName);
        return;
      }
      if selectedAccountId == "" {
        error := Some(NoAccount);
        return;
      }
      error := None;
      var createResult := ctx.Exec(CreateCmd(selectedAccountId, sanitized));
      assert ctx.storage == s0 && ctx.calls == k + 1;
      RunsKeepStorage(s0, [Ran(CreateCmd(selectedAccountId, sanitized))]);
      if createResult.Threw? {
        error := Some(Failed);
        return;
      }
      if createResult.exitCode != 0 {
        var stderr := createResult.stderr;
        if !Contains(Lower(stderr), "already exists") {
          error := Some(CreateFailed(stderr));
          return;
        }
      }
      var l := LinkedProject(sanitized, selectedAccountId, AccountName(accounts, selectedAccountId), outputDir, None);
      ctx.Write(Encode(l));
      ghost var e := [Ran(CreateCmd(selectedAccountId, sanitized))] + [Saved(Encode(l))];
      AppendAssoc(t0, [Ran(CreateCmd(selectedAccountId, sanitized))], [Saved(Encode(l))]);
      Flows.CreateProceeds(ctx.script, k, f0);
      ghost var bd := BuildAndDeploy(ctx.script, k + 1, l);
      RunsThenSave(s0, [Ran(CreateCmd(selectedAccountId, sanitized))], Encode(l));
      Continues(s0, e, bd.events);
      assert ctx.storage == Encode(l) && ctx.calls == k + 1;
      BuildAndDeployAfterSave(l);
      assert ctx.storage == Stored(Encode(l), bd.events) && ctx.calls == k + 1 + Runs(bd.events);
      AppendAssoc(t0, e, bd.events);
    }

    /** The inner `try` of `handleCreate`: build, check the folder, deploy, and hand over. */
    method BuildAndDeployAfterSave(l: LinkedProject)
      modifies this, ctx
      ensures var r := BuildAndDeploy(ctx.script, old(ctx.calls), l);
        && Form() == old(Form()) && error == (if r.error.Some? then r.error else old(error))
        && handedOver == (if r.linked.Some? then r.linked else old(handedOver))
        && ctx.trace == old(ctx.trace) + r.events
        && ctx.storage == Stored(old(ctx.storage), r.events) && ctx.calls == old(ctx.calls) + Runs(r.events)
    {
      ghost var t0, k, s0 := ctx.trace, ctx.calls, ctx.storage;
      ghost var e1 := [Ran(BuildCmd)];
      ghost var e2 := [Ran(BuildCmd), Ran(TestDirCmd(l.outputDir))];
      var buildResult := ctx.Exec(BuildCmd);
      assert ctx.storage == s0 && ctx.calls == k + 1;
      RunsKeepStorage(s0, e1);
      if buildResult.Threw? {
        handedOver := Some(l);
        return;
      }
      if buildResult.exitCode != 0 {
        error := Some(BuildFailed(if buildResult.stderr != "" then buildResult.stderr else buildResult.stdout));
        return;
      }
      var dirCheck := ctx.Exec(TestDirCmd(l.outputDir));
      assert ctx.storage == s0 && ctx.calls == k + 2 && ctx.trace == t0 + e2;
      RunsKeepStorage(s0, e2);
      if dirCheck.Threw? {
        handedOver := Some(l);
        return;
      }
      if dirCheck.exitCode != 0 {
        error := Some(OutputDirMissing(l.outputDir));
        return;
      }
      BuildAndDeployRanAll(ctx.script, k, l);
      ghost var fd := FirstDeploy(ctx.script, k + 2, l);
      RunsFirst(s0, e2, fd.events);
      DeployAfterChecks(l);
      assert ctx.storage == Stored(s0, fd.events) && ctx.calls == k + 2 + Runs(fd.events);
      AppendAssoc(t0, e2, fd.events);
    }

    /** The deploy of `handleCreate` and the write-back of the URL it prints. */
    method DeployAfterChecks(l: LinkedProject)
      modifies this, ctx
      ensures var r := FirstDeploy(ctx.script, old(ctx.calls), l);
        && Form() == old(Form()) && error == old(error) && r.error.None? && handedOver == r.linked
        && ctx.trace == old(ctx.trace) + r.events
        && ctx.storage == Stored(old(ctx.storage), r.events) && ctx.calls == old(ctx.calls) + Runs(r.events)
    {
      ghost var s0 := ctx.storage;
      ghost var e := [Ran(DeployCmd(l.accountId, l.outputDir, l.projectName))];
      var deployResult := ctx.Exec(DeployCmd(l.accountId, l.outputDir, l.projectName));
      RunsKeepStorage(s0, e);
      if deployResult.Threw? {
        handedOver := Some(l);
        return;
      }
      var url := ProdUrlFromOutput(deployResult.stdout, deployResult.stderr);
      var linkedNow := l;
      if url.Some? {
        linkedNow := l.(prodUrl := url);
        ctx.Write(Encode(linkedNow));
        RunsThenSave(s0, e, Encode(linkedNow));
      }
      handedOver := Some(linkedNow);
    }

    method HandleLink()
      modifies this, ctx
      ensures var r := Link(old(Form()));
        && Form() == old(Form()) && error == r.error
        && handedOver == (if r.linked.Some? then r.linked else old(handedOver))
        && ctx.trace == old(ctx.trace) + r.events
        && ctx.storage == Stored(old(ctx.storage), r.events) && ctx.calls == old(ctx.calls) + Runs(r.events)
    {
      if !Truthy(selectedExisting) {
        error := Some(NoProject);
        return;
      }
      if selectedAccountId == "" {
        error := Some(NoAccount);
        return;
      }
      error := None;
      var name := selectedExisting.value;
      var existing := FindProject(existingProjects, name);
      var url := if existing.Some? && existing.value.subdomain != "" then Some(HTTPS + existing.value.subdomain) else None;
      var l := LinkedProject(name, selectedAccountId, AccountName(accounts, selectedAccountId), outputDir, url);
      RunsThenSave(ctx.storage, [], Encode(l));
      ctx.Write(Encode(l));
      assert [] + [Saved(Encode(l))] == [Saved(Encode(l))];
      handedOver := Some(l);
    }
  }
}
