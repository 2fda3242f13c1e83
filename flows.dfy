/**
 * What each handler does, as a pure function of the toolbar's state, the
 * stored record and the scripted shell: the state it leaves and the commands
 * and writes it issues, in order. The classes in Toolbar follow these step by
 * step; the lemmas here state the handlers' promises.
 */
module Flows {
  import opened Wrappers
  import opened Text
  import opened Domain
  import opened ProjectName
  import opened Parsing
  import opened DeployUrl
  import opened PluginStatus

  /** The toolbar's own state: `cliStatus` (`None` while checking), `accounts`, `linked`, `isDeploying`. */
  datatype View = View(cli: Option<CliStatus>, accounts: seq<Account>, linked: Option<LinkedProject>, isDeploying: bool)

  /** A handler's result: the state it leaves and what it issued, in order. */
  datatype Step = Step(view: View, events: seq<Event>)

  const NOT_INSTALLED := CliStatus(false, false)
  const SIGNED_OUT := CliStatus(true, false)

  function State(v: View): PluginState {
    Derive(v.cli, v.accounts, v.linked, v.isDeploying)
  }

  /** Neither a command nor a write among `events`. */
  predicate Quiet(events: seq<Event>) {
    events == []
  }

  predicate Writes(events: seq<Event>) {
    exists i :: 0 <= i < |events| && events[i].Saved?
  }

  // ---------------------------------------------------------------------
  // `detectOutputDir`
  // ---------------------------------------------------------------------

  datatype DirStep = DirStep(dir: string, events: seq<Event>)

  /** The `test -d` loop over the candidates from index `i`, the `k`-th call being the next. */
  function Candidates(script: seq<Outcome>, k: nat, i: nat): (r: DirStep)
    requires i <= |CANDIDATE_DIRS|
    ensures |r.events| <= |CANDIDATE_DIRS| - i && OnlyRuns(r.events)
    decreases |CANDIDATE_DIRS| - i
  {
    if i == |CANDIDATE_DIRS| then DirStep(DEFAULT_DIR, [])
    else
      var e := Ran(TestDirCmd(CANDIDATE_DIRS[i]));
      if Succeeded(Reply(script, k)) then DirStep(CANDIDATE_DIRS[i], [e])
      else
        var rest := Candidates(script, k + 1, i + 1);
        DirStep(rest.dir, [e] + rest.events)
  }

  /** The `test -d` commands for the first `m` candidates, in order. */
  function Tested(m: nat): (e: seq<Event>)
    requires m <= |CANDIDATE_DIRS|
    ensures |e| == m
  {
    if m == 0 then [] else Tested(m - 1) + [Ran(TestDirCmd(CANDIDATE_DIRS[m - 1]))]
  }

  /** After `m` missing folders the loop has issued their probes and goes on from candidate `m`. */
  lemma {:induction false} CandidatesAfterMisses(script: seq<Outcome>, k: nat, m: nat)
    requires m <= |CANDIDATE_DIRS|
    requires forall j :: k <= j < k + m ==> !Succeeded(Reply(script, j))
    ensures var rest := Candidates(script, k + m, m);
      Candidates(script, k, 0) == DirStep(rest.dir, Tested(m) + rest.events)
  {
    if m > 0 {
      CandidatesAfterMisses(script, k, m - 1);
      var e := Ran(TestDirCmd(CANDIDATE_DIRS[m - 1]));
      var rest := Candidates(script, k + m, m);
      assert !Succeeded(Reply(script, k + (m - 1)));
      assert Candidates(script, k + (m - 1), m - 1) == DirStep(rest.dir, [e] + rest.events);
      assert Tested(m - 1) + ([e] + rest.events) == Tested(m) + rest.events;
    }
  }

  /** `detectOutputDir(shell)`: the framework table over `package.json`, then the candidates. */
  function DetectDir(script: seq<Outcome>, k: nat): (r: DirStep)
    ensures OnlyRuns(r.events)
  {
    var o := Reply(script, k);
    var fw := if Succeeded(o) then FrameworkDir(Lower(o.stdout)) else None;
    if fw.Some? then DirStep(fw.value, [Ran(ReadPackageCmd)])
    else
      var c := Candidates(script, k + 1, 0);
      DirStep(c.dir, [Ran(ReadPackageCmd)] + c.events)
  }

  /**
   * The candidates are probed in order; the first folder that exists is
   * chosen and nothing after it is probed; when none exists the result is the default.
   */
  lemma {:induction false} CandidatesInOrder(script: seq<Outcome>, k: nat, i: nat)
    requires i <= |CANDIDATE_DIRS|
    ensures var r := Candidates(script, k, i);
      && (forall j :: 0 <= j < |r.events| ==> r.events[j] == Ran(TestDirCmd(CANDIDATE_DIRS[i + j])))
      && (forall j :: k <= j < k + |r.events| - 1 ==> !Succeeded(Reply(script, j)))
      && (|r.events| > 0 && Succeeded(Reply(script, k + |r.events| - 1)) ==>
            r.dir == CANDIDATE_DIRS[i + |r.events| - 1])
      && (r.events == [] || !Succeeded(Reply(script, k + |r.events| - 1)) ==>
            r.dir == DEFAULT_DIR && |r.events| == |CANDIDATE_DIRS| - i)
    decreases |CANDIDATE_DIRS| - i
  {
    if i < |CANDIDATE_DIRS| && !Succeeded(Reply(script, k)) {
      CandidatesInOrder(script, k + 1, i + 1);
      var rest := Candidates(script, k + 1, i + 1);
      var r := Candidates(script, k, i);
      assert r.events == [Ran(TestDirCmd(CANDIDATE_DIRS[i]))] + rest.events;
      assert forall j :: 1 <= j < |r.events| ==> r.events[j] == rest.events[j - 1];
      assert |r.events| == |rest.events| + 1;
    }
  }

  /** A recognised framework decides the folder after a single command. */
  lemma FrameworkShortCircuits(script: seq<Outcome>, k: nat)
    requires Succeeded(Reply(script, k)) && FrameworkDir(Lower(Reply(script, k).stdout)).Some?
    ensures DetectDir(script, k) == DirStep(FrameworkDir(Lower(Reply(script, k).stdout)).value, [Ran(ReadPackageCmd)])
  {
  }

  /** The folder is always one the framework table or the candidate list names. */
  lemma DetectedDirIsKnown(script: seq<Outcome>, k: nat)
    ensures DetectDir(script, k).dir in {"out", ".output/public", "dist", "build", "public"}
  {
    var o := Reply(script, k);
    if Succeeded(o) && FrameworkDir(Lower(o.stdout)).Some? {
      var n := FirstMentioned(FRAMEWORKS, Lower(o.stdout), 0);
      assert FRAMEWORKS[n].1 in {"out", ".output/public", "dist", "build", "public"};
    } else {
      CandidatesInOrder(script, k + 1, 0);
    }
  }

  // ---------------------------------------------------------------------
  // The auth probe `check`
  // ---------------------------------------------------------------------

  /** The failed `whoami`'s output says the CLI itself is missing. */
  predicate MissingCli(o: Outcome)
    requires o.Exited?
  {
    var c := Lower(o.stderr + o.stdout);
    Contains(c, "not found") || Contains(c, "enoent") || Contains(c, "err_module")
  }

  /** The verdict on a `whoami` that did not exit 0: a rejected call or a missing-module message means not installed. */
  function FailedWhoami(o: Outcome): CliStatus {
    if o.Threw? || MissingCli(o) then NOT_INSTALLED else SIGNED_OUT
  }

  /** The first project named `name`. */
  function FindProject(projects: seq<Project>, name: string): (p: Option<Project>)
    ensures p.Some? ==> p.value in projects && p.value.name == name
    ensures p.None? ==> forall i :: 0 <= i < |projects| ==> projects[i].name != name
    ensures p.Some? ==> exists i :: 0 <= i < |projects| && projects[i] == p.value
                                    && forall j :: 0 <= j < i ==> projects[j].name != name
  {
    if projects == [] then None
    else if projects[0].name == name then Some(projects[0])
    else FindProject(projects[1..], name)
  }

  /** The read-back resolved with exit code 0 and text that is not blank after trimming. */
  predicate HasContent(o: Outcome)
    requires o.Exited?
  {
    o.exitCode == 0 && !IsBlank(o.stdout)
  }

  /** The accounts parsed from the read-back replace the old ones; signed in exactly when there are some. */
  function Adopt(v: View, parse: JsonTable, text: string): (v': View)
    ensures v'.accounts == ParseWhoami(JsonParse(parse, text))
    ensures v'.cli == Some(CliStatus(true, |v'.accounts| > 0))
    ensures v'.linked == v.linked && v'.isDeploying == v.isDeploying
  {
    var accounts := ParseWhoami(JsonParse(parse, text));
    v.(accounts := accounts, cli := Some(CliStatus(true, |accounts| > 0)))
  }

  /** `check`: `whoami` into a temporary file, then the read-back. */
  function Probe(script: seq<Outcome>, k: nat, parse: JsonTable, stored: StoredRecord, v: View): Step {
    var o := Reply(script, k);
    if !Succeeded(o) then Step(v.(cli := Some(FailedWhoami(o))), [Ran(WhoamiCmd)])
    else
      var r := ReadBack(script, k + 1, parse, stored, v);
      Step(r.view, [Ran(WhoamiCmd)] + r.events)
  }

  /** `cat` of the temporary file, then what follows a read that did not reject. */
  function ReadBack(script: seq<Outcome>, k: nat, parse: JsonTable, stored: StoredRecord, v: View): Step {
    var o := Reply(script, k);
    if o.Threw? then Step(v.(cli := Some(NOT_INSTALLED)), [Ran(ReadWhoamiCmd)])
    else
      var r := Consume(script, k + 1, parse, stored, v, o);
      Step(r.view, [Ran(ReadWhoamiCmd)] + r.events)
  }

  /** The un-awaited `rm` of the file, then the verdict on what the read returned. */
  function Consume(script: seq<Outcome>, k: nat, parse: JsonTable, stored: StoredRecord, v: View, o: Outcome): Step
    requires o.Exited?
  {
    var e := [Ran(RemoveWhoamiCmd)];
    if !HasContent(o) then Step(v.(cli := Some(SIGNED_OUT)), e)
    else
      var r := SignIn(script, k + 1, parse, stored, v, o.stdout);
      Step(r.view, e + r.events)
  }

  // One lemma per branch of the probe's steps, used by the handlers in Toolbar.

  lemma ProbeFailed(script: seq<Outcome>, k: nat, parse: JsonTable, stored: StoredRecord, v: View)
    requires !Succeeded(Reply(script, k))
    ensures Probe(script, k, parse, stored, v) == Step(v.(cli := Some(FailedWhoami(Reply(script, k)))), [Ran(WhoamiCmd)])
  {
  }

  lemma ProbeWrote(script: seq<Outcome>, k: nat, parse: JsonTable, stored: StoredRecord, v: View)
    requires Succeeded(Reply(script, k))
    ensures var rb := ReadBack(script, k + 1, parse, stored, v);
      Probe(script, k, parse, stored, v) == Step(rb.view, [Ran(WhoamiCmd)] + rb.events)
  {
  }

  lemma ReadBackRejected(script: seq<Outcome>, k: nat, parse: JsonTable, stored: StoredRecord, v: View)
    requires Reply(script, k).Threw?
    ensures ReadBack(script, k, parse, stored, v) == Step(v.(cli := Some(NOT_INSTALLED)), [Ran(ReadWhoamiCmd)])
  {
  }

  lemma ReadBackRead(script: seq<Outcome>, k: nat, parse: JsonTable, stored: StoredRecord, v: View)
    requires Reply(script, k).Exited?
    ensures var rc := Consume(script, k + 1, parse, stored, v, Reply(script, k));
      ReadBack(script, k, parse, stored, v) == Step(rc.view, [Ran(ReadWhoamiCmd)] + rc.events)
  {
  }

  lemma ConsumeBlank(script: seq<Outcome>, k: nat, parse: JsonTable, stored: StoredRecord, v: View, o: Outcome)
    requires o.Exited? && !HasContent(o)
    ensures Consume(script, k, parse, stored, v, o) == Step(v.(cli := Some(SIGNED_OUT)), [Ran(RemoveWhoamiCmd)])
    ensures Stored(stored, [Ran(RemoveWhoamiCmd)]) == stored && Runs([Ran(RemoveWhoamiCmd)]) == 1
  {
    RunsKeepStorage(stored, [Ran(RemoveWhoamiCmd)]);
  }

  lemma ConsumeContent(script: seq<Outcome>, k: nat, parse: JsonTable, stored: StoredRecord, v: View, o: Outcome)
    requires o.Exited? && HasContent(o)
    ensures var rs := SignIn(script, k + 1, parse, stored, v, o.stdout);
      && Consume(script, k, parse, stored, v, o) == Step(rs.view, [Ran(RemoveWhoamiCmd)] + rs.events)
      && Stored(stored, [Ran(RemoveWhoamiCmd)] + rs.events) == Stored(stored, rs.events)
      && Runs([Ran(RemoveWhoamiCmd)] + rs.events) == 1 + Runs(rs.events)
  {
    RunsFirst(stored, [Ran(RemoveWhoamiCmd)], SignIn(script, k + 1, parse, stored, v, o.stdout).events);
  }

  /** Adopting the parsed accounts, and restoring the stored link when there is at least one. */
  function SignIn(script: seq<Outcome>, k: nat, parse: JsonTable, stored: StoredRecord, v: View, text: string): Step {
    var v' := Adopt(v, parse, text);
    if |v'.accounts| == 0 then Step(v', []) else Restore(script, k, stored, v')
  }

  /** Reading the stored record, with the `prodUrl` backfill from the project list when it is missing. */
  function Restore(script: seq<Outcome>, k: nat, stored: StoredRecord, v: View): Step {
    var rec := Decode(stored);
    if rec.None? then Step(v, [])
    else
      var l := rec.value;
      if Truthy(l.prodUrl) then Step(v.(linked := Some(l)), [])
      else
        var o := Reply(script, k);
        var e := [Ran(ProjectListCmd(l.accountId))];
        if !Succeeded(o) then Step(v.(linked := Some(l)), e)
        else
          var m := FindProject(ProjectsOfLines(SplitLines(o.stdout)), l.projectName);
          if m.Some? && m.value.subdomain != "" then
            var url := HTTPS + m.value.subdomain;
            Step(v.(linked := Some(l.(prodUrl := Some(url)))), e + [Saved(stored["prodUrl" := url])])
          else Step(v.(linked := Some(l)), e)
  }

  /** A `whoami` that fails with a missing-module message means the CLI is not installed. */
  lemma ProbeMissingCli(script: seq<Outcome>, k: nat, parse: JsonTable, stored: StoredRecord, v: View)
    requires Reply(script, k).Exited? && Reply(script, k).exitCode != 0 && MissingCli(Reply(script, k))
    ensures Probe(script, k, parse, stored, v) == Step(v.(cli := Some(NOT_INSTALLED)), [Ran(WhoamiCmd)])
  {
  }

  /** Any other failing `whoami`, or an empty or unreadable read-back, means installed but signed out. */
  lemma ProbeSignedOut(script: seq<Outcome>, k: nat, parse: JsonTable, stored: StoredRecord, v: View)
    requires Reply(script, k).Exited?
    requires || (Reply(script, k).exitCode != 0 && !MissingCli(Reply(script, k)))
             || (Reply(script, k).exitCode == 0 && Reply(script, k + 1).Exited?
                 && (Reply(script, k + 1).exitCode != 0 || IsBlank(Reply(script, k + 1).stdout)))
    ensures Probe(script, k, parse, stored, v).view == v.(cli := Some(SIGNED_OUT))
  {
    var o := Reply(script, k + 1);
    if Reply(script, k).exitCode == 0 && o.exitCode == 0 {
      assert Trim(o.stdout) == "";
    }
  }

  /** When the read-back is parsed, signed in exactly when some account was found, and those are the accounts kept. */
  lemma ProbeAuthenticated(script: seq<Outcome>, k: nat, parse: JsonTable, stored: StoredRecord, v: View)
    requires Succeeded(Reply(script, k)) && Succeeded(Reply(script, k + 1))
    requires !IsBlank(Reply(script, k + 1).stdout)
    ensures var r := Probe(script, k, parse, stored, v);
      var accounts := ParseWhoami(JsonParse(parse, Reply(script, k + 1).stdout));
      && r.view.cli == Some(CliStatus(true, |accounts| > 0))
      && r.view.accounts == accounts
      && r.events[..3] == [Ran(WhoamiCmd), Ran(ReadWhoamiCmd), Ran(RemoveWhoamiCmd)]
  {
    var o := Reply(script, k + 1);
    assert HasContent(o);
    var rb := ReadBack(script, k + 1, parse, stored, v);
    var rc := Consume(script, k + 2, parse, stored, v, o);
    var rs := SignIn(script, k + 3, parse, stored, v, o.stdout);
    assert Probe(script, k, parse, stored, v) == Step(rb.view, [Ran(WhoamiCmd)] + rb.events);
    assert rb == Step(rc.view, [Ran(ReadWhoamiCmd)] + rc.events);
    assert rc == Step(rs.view, [Ran(RemoveWhoamiCmd)] + rs.events);
    assert ([Ran(WhoamiCmd)] + ([Ran(ReadWhoamiCmd)] + ([Ran(RemoveWhoamiCmd)] + rs.events)))[..3]
        == [Ran(WhoamiCmd), Ran(ReadWhoamiCmd), Ran(RemoveWhoamiCmd)];
    SignInAdopts(script, k + 3, parse, stored, v, o.stdout);
  }

  lemma SignInAdopts(script: seq<Outcome>, k: nat, parse: JsonTable, stored: StoredRecord, v: View, text: string)
    ensures var r := SignIn(script, k, parse, stored, v, text);
      r.view.cli == Adopt(v, parse, text).cli && r.view.accounts == Adopt(v, parse, text).accounts
  {
    var v' := Adopt(v, parse, text);
    if |v'.accounts| > 0 {
      RestoreKeepsStatus(script, k, stored, v');
    }
  }

  /** With no account parsed, the stored link is not even read: nothing is issued and the link stays as it was. */
  lemma SignInWithoutAccounts(script: seq<Outcome>, k: nat, parse: JsonTable, stored: StoredRecord, v: View, text: string)
    requires ParseWhoami(JsonParse(parse, text)) == []
    ensures var r := SignIn(script, k, parse, stored, v, text);
      && r.events == [] && r.view.linked == v.linked && r.view.cli == Some(CliStatus(true, false))
  {
  }

  lemma RestoreKeepsStatus(script: seq<Outcome>, k: nat, stored: StoredRecord, v: View)
    ensures Restore(script, k, stored, v).view == v.(linked := Restore(script, k, stored, v).view.linked)
  {
  }

  /**
   * A record that does not read as linked is ignored, with nothing issued; a
   * valid one is adopted, and what is linked afterwards is exactly what the
   * store then reads back as (the backfill writes the `prodUrl` it links with).
   */
  lemma RestoreAgreesWithStorage(script: seq<Outcome>, k: nat, stored: StoredRecord, v: View)
    ensures var r := Restore(script, k, stored, v);
      && (Decode(stored).None? ==> r.view.linked == v.linked && r.events == [])
      && (Decode(stored).Some? ==> r.view.linked == Decode(Stored(stored, r.events)))
  {
    var r := Restore(script, k, stored, v);
    var rec := Decode(stored);
    if rec.Some? && !Truthy(rec.value.prodUrl) {
      var o := Reply(script, k);
      if Succeeded(o) {
        var m := FindProject(ProjectsOfLines(SplitLines(o.stdout)), rec.value.projectName);
        if m.Some? && m.value.subdomain != "" {
          var url := HTTPS + m.value.subdomain;
          DecodeWithProdUrl(stored, url);
          assert Stored(stored, r.events) == stored["prodUrl" := url];
        } else {
          assert Stored(stored, r.events) == stored;
        }
      } else {
        assert Stored(stored, r.events) == stored;
      }
    }
  }

  /** The backfill runs only for a linked record without a usable `prodUrl`, and only into `prodUrl`. */
  lemma BackfillOnlyWhenMissing(script: seq<Outcome>, k: nat, stored: StoredRecord, v: View)
    requires Writes(Restore(script, k, stored, v).events)
    ensures Decode(stored).Some? && !Truthy(Decode(stored).value.prodUrl)
    ensures exists url :: Restore(script, k, stored, v).events[1] == Saved(stored["prodUrl" := url])
                          && StartsWith(url, HTTPS)
  {
    var l := Decode(stored).value;
    var o := Reply(script, k);
    var m := FindProject(ProjectsOfLines(SplitLines(o.stdout)), l.projectName);
    var url := HTTPS + m.value.subdomain;
    assert StartsWith(url, HTTPS);
    assert Restore(script, k, stored, v).events[1] == Saved(stored["prodUrl" := url]);
  }

  // ---------------------------------------------------------------------
  // `handleInstall`, `handleLogin`
  // ---------------------------------------------------------------------

  /** Global install, the local fallback when it fails, then the `--version` check. */
  function Install(script: seq<Outcome>, k: nat, v: View): Step {
    var o := Reply(script, k);
    if o.Threw? then Step(v, [Ran(InstallGlobalCmd)])
    else if o.exitCode == 0 then Verify(script, k + 1, v, [Ran(InstallGlobalCmd)])
    else
      var o' := Reply(script, k + 1);
      var e := [Ran(InstallGlobalCmd), Ran(InstallLocalCmd)];
      if !Succeeded(o') then Step(v, e) else Verify(script, k + 2, v, e)
  }

  function Verify(script: seq<Outcome>, k: nat, v: View, e: seq<Event>): Step {
    var e' := e + [Ran(VersionCmd)];
    if Succeeded(Reply(script, k)) then Step(v.(cli := Some(SIGNED_OUT)), e') else Step(v, e')
  }

  /** Installing only ever moves the CLI status to installed-but-signed-out, and only after `--version` succeeds. */
  lemma InstallOutcome(script: seq<Outcome>, k: nat, v: View)
    ensures var r := Install(script, k, v);
      && r.view.(cli := v.cli) == v
      && (r.view.cli != v.cli ==>
            r.view.cli == Some(SIGNED_OUT) && r.events[|r.events| - 1] == Ran(VersionCmd)
            && Succeeded(Reply(script, k + |r.events| - 1)))
      && (Succeeded(Reply(script, k)) ==> r.events[..1] == [Ran(InstallGlobalCmd)] && Ran(InstallLocalCmd) !in r.events)
  {
  }

  /** `wrangler login`, then the same `whoami` read-back as the probe. */
  function Login(script: seq<Outcome>, k: nat, parse: JsonTable, v: View): Step {
    if !Succeeded(Reply(script, k)) then Step(v, [Ran(LoginCmd)])
    else
      var r := Recheck(script, k + 1, parse, v);
      Step(r.view, [Ran(LoginCmd)] + r.events)
  }

  lemma LoginFailed(script: seq<Outcome>, k: nat, parse: JsonTable, v: View)
    requires !Succeeded(Reply(script, k))
    ensures Login(script, k, parse, v) == Step(v, [Ran(LoginCmd)])
  {
  }

  lemma LoginWent(script: seq<Outcome>, k: nat, parse: JsonTable, v: View)
    requires Succeeded(Reply(script, k))
    ensures var rc := Recheck(script, k + 1, parse, v);
      Login(script, k, parse, v) == Step(rc.view, [Ran(LoginCmd)] + rc.events)
  {
  }

  /** The re-check after a login: `whoami` into the file (its exit code unused), the read-back, the `rm`. */
  function Recheck(script: seq<Outcome>, k: nat, parse: JsonTable, v: View): Step {
    if Reply(script, k).Threw? then Step(v, [Ran(WhoamiCmd)])
    else
      var o := Reply(script, k + 1);
      if o.Threw? then Step(v, [Ran(WhoamiCmd), Ran(ReadWhoamiCmd)])
      else
        var e := [Ran(WhoamiCmd), Ran(ReadWhoamiCmd), Ran(RemoveWhoamiCmd)];
        if HasContent(o) then Step(Adopt(v, parse, o.stdout), e) else Step(v, e)
  }

  /** The login succeeded and the `whoami` read-back has content (the `whoami` exit code itself is not consulted). */
  predicate LoggedIn(script: seq<Outcome>, k: nat) {
    Succeeded(Reply(script, k)) && Reply(script, k + 1).Exited? && Succeeded(Reply(script, k + 2))
    && !IsBlank(Reply(script, k + 2).stdout)
  }

  /** After a login with a parsed read-back, the accounts are the parsed ones and signed in means some were found. */
  lemma LoginAdoptsAccounts(script: seq<Outcome>, k: nat, parse: JsonTable, v: View)
    requires LoggedIn(script, k)
    ensures var accounts := ParseWhoami(JsonParse(parse, Reply(script, k + 2).stdout));
      Login(script, k, parse, v).view == v.(accounts := accounts, cli := Some(CliStatus(true, |accounts| > 0)))
  {
    assert HasContent(Reply(script, k + 2));
  }

  /** Any other login attempt changes no state, and no login writes storage. */
  lemma LoginOtherwiseChangesNothing(script: seq<Outcome>, k: nat, parse: JsonTable, v: View)
    ensures !Writes(Login(script, k, parse, v).events)
    ensures !LoggedIn(script, k) ==> Login(script, k, parse, v).view == v
  {
    if Succeeded(Reply(script, k)) {
      var r := Recheck(script, k + 1, parse, v);
      RecheckOnlyRuns(script, k + 1, parse, v);
      var all := [Ran(LoginCmd)] + r.events;
      assert Login(script, k, parse, v).events == all;
      assert forall i :: 0 <= i < |all| ==> !all[i].Saved? by {
        forall i | 0 <= i < |all|
          ensures !all[i].Saved?
        {
          if i > 0 {
            assert all[i] == r.events[i - 1];
          }
        }
      }
    }
  }

  /** The re-check issues only commands, and changes the state only for a read-back with content. */
  lemma RecheckOnlyRuns(script: seq<Outcome>, k: nat, parse: JsonTable, v: View)
    ensures var r := Recheck(script, k, parse, v);
      && (forall i :: 0 <= i < |r.events| ==> r.events[i].Ran?)
      && (r.view != v ==> Reply(script, k).Exited? && Succeeded(Reply(script, k + 1))
                          && !IsBlank(Reply(script, k + 1).stdout))
  {
    var r := Recheck(script, k, parse, v);
    var o := Reply(script, k + 1);
    if Reply(script, k).Threw? {
      assert r == Step(v, [Ran(WhoamiCmd)]);
    } else if o.Threw? {
      assert r == Step(v, [Ran(WhoamiCmd), Ran(ReadWhoamiCmd)]);
    } else {
      assert r.events == [Ran(WhoamiCmd), Ran(ReadWhoamiCmd), Ran(RemoveWhoamiCmd)];
      if HasContent(o) {
        assert !IsBlank(o.stdout);
      } else {
        assert r.view == v;
      }
    }
  }

  // ---------------------------------------------------------------------
  // `handleDeploy`
  // ---------------------------------------------------------------------

  function Deploy(script: seq<Outcome>, k: nat, v: View): Step {
    if v.linked.None? then Step(v, [])
    else
      var l := v.linked.value;
      var done := v.(isDeploying := false);
      var e1 := [Ran(BuildCmd)];
      if !Succeeded(Reply(script, k)) then Step(done, e1)
      else
        var e2 := e1 + [Ran(TestDirCmd(l.outputDir))];
        if !Succeeded(Reply(script, k + 1)) then Step(done, e2)
        else
          var o := Reply(script, k + 2);
          var e3 := e2 + [Ran(DeployCmd(l.accountId, l.outputDir, l.projectName))];
          if !Succeeded(o) || Truthy(l.prodUrl) then Step(done, e3)
          else
            var url := ProdUrlFromOutput(o.stdout, o.stderr);
            if url.None? then Step(done, e3)
            else
              var updated := l.(prodUrl := url);
              Step(done.(linked := Some(updated)), e3 + [Saved(Encode(updated))])
  }

  /** The branch after all three commands ran: the URL is written back only when one is found for a project without one. */
  lemma DeployRanAll(script: seq<Outcome>, k: nat, v: View)
    requires v.linked.Some? && Succeeded(Reply(script, k)) && Succeeded(Reply(script, k + 1))
    ensures var l, o := v.linked.value, Reply(script, k + 2);
      var e3 := [Ran(BuildCmd), Ran(TestDirCmd(l.outputDir)), Ran(DeployCmd(l.accountId, l.outputDir, l.projectName))];
      Deploy(script, k, v) ==
        if !Succeeded(o) || Truthy(l.prodUrl) then Step(v.(isDeploying := false), e3)
        else
          var url := ProdUrlFromOutput(o.stdout, o.stderr);
          if url.None? then Step(v.(isDeploying := false), e3)
          else Step(v.(isDeploying := false, linked := Some(l.(prodUrl := url))), e3 + [Saved(Encode(l.(prodUrl := url)))])
  {
  }

  /** Without a linked project the deploy does nothing. */
  lemma DeployNeedsLink(script: seq<Outcome>, k: nat, v: View)
    requires v.linked.None?
    ensures Deploy(script, k, v) == Step(v, [])
  {
  }

  /** A failed build or a missing output folder issues no deploy and touches neither the link nor storage. */
  lemma DeployBlockedByBuild(script: seq<Outcome>, k: nat, v: View)
    requires v.linked.Some?
    requires !Succeeded(Reply(script, k)) || !Succeeded(Reply(script, k + 1))
    ensures var r := Deploy(script, k, v);
      && r.view == v.(isDeploying := false)
      && !Writes(r.events)
      && forall i :: 0 <= i < |r.events| ==> r.events[i] == Ran(BuildCmd) || r.events[i] == Ran(TestDirCmd(v.linked.value.outputDir))
  {
  }

  /**
   * `prodUrl` is written only when it was missing and the deploy exited 0, the
   * record written is the new link, and the flag is down afterwards.
   */
  lemma DeployWritesOnlyNewProdUrl(script: seq<Outcome>, k: nat, v: View)
    ensures var r := Deploy(script, k, v);
      && (v.linked.Some? ==> !r.view.isDeploying)
      && (Writes(r.events) ==>
            && v.linked.Some? && !Truthy(v.linked.value.prodUrl) && Succeeded(Reply(script, k + 2))
            && r.view.linked.Some? && r.view.linked.value.(prodUrl := v.linked.value.prodUrl) == v.linked.value
            && r.events == [Ran(BuildCmd), Ran(TestDirCmd(v.linked.value.outputDir)),
                            Ran(DeployCmd(v.linked.value.accountId, v.linked.value.outputDir, v.linked.value.projectName)),
                            Saved(Encode(r.view.linked.value))])
      && (!Writes(r.events) ==> r.view == if v.linked.Some? then v.(isDeploying := false) else v)
  {
    var r := Deploy(script, k, v);
    if v.linked.Some? {
      var l := v.linked.value;
      var o := Reply(script, k + 2);
      if !Succeeded(Reply(script, k)) {
        assert r.events == [Ran(BuildCmd)];
      } else if !Succeeded(Reply(script, k + 1)) {
        assert r.events == [Ran(BuildCmd), Ran(TestDirCmd(l.outputDir))];
      } else if !Succeeded(o) || Truthy(l.prodUrl) || ProdUrlFromOutput(o.stdout, o.stderr).None? {
        assert r.events == [Ran(BuildCmd), Ran(TestDirCmd(l.outputDir)),
                            Ran(DeployCmd(l.accountId, l.outputDir, l.projectName))];
      } else {
        assert r.events[3].Saved?;
      }
    }
  }

  /** A production URL recorded by a deploy is an `https://…pages.dev` address. */
  lemma DeployRecordsPagesUrl(script: seq<Outcome>, k: nat, v: View)
    requires v.linked.Some? && Deploy(script, k, v).view.linked != v.linked
    ensures var l := Deploy(script, k, v).view.linked;
      l.Some? && l.value.prodUrl.Some? && IsPagesUrl(l.value.prodUrl.value)
  {
    var o := Reply(script, k + 2);
    ProdUrlShape(o.stdout, o.stderr);
  }

  // ---------------------------------------------------------------------
  // `handleUnlink`, `handleSignOut`
  // ---------------------------------------------------------------------

  function Unlink(v: View): Step {
    Step(v.(linked := None), [Saved(map[])])
  }

  function SignOut(script: seq<Outcome>, k: nat, v: View): Step {
    if Reply(script, k).Threw? then Step(v, [Ran(LogoutCmd)])
    else Step(v.(linked := None, accounts := [], cli := Some(SIGNED_OUT)), [Ran(LogoutCmd), Saved(map[])])
  }

  /** Unlinking clears storage to a record that reads as unlinked, and a ready toolbar then offers to connect. */
  lemma UnlinkClears(stored: StoredRecord, v: View)
    ensures var r := Unlink(v);
      && Stored(stored, r.events) == map[] && r.view.linked == None && Decode(Stored(stored, r.events)) == None
      && (Ready(v.cli) && !v.isDeploying ==> State(r.view) == NotLinked)
  {
    ClearedIsUnlinked();
  }

  /**
   * Signing out, whatever `logout` exits with, clears storage, the link and the
   * accounts and shows the signed-out state; only a rejected `logout` changes nothing.
   */
  lemma SignOutClears(script: seq<Outcome>, k: nat, stored: StoredRecord, v: View)
    ensures var r := SignOut(script, k, v);
      && r.events[0] == Ran(LogoutCmd)
      && (Reply(script, k).Exited? ==>
            && Stored(stored, r.events) == map[] && r.view.linked == None && r.view.accounts == []
            && r.view.cli == Some(SIGNED_OUT) && State(r.view) == NotAuthenticated)
      && (Reply(script, k).Threw? ==> r.view == v && Stored(stored, r.events) == stored)
  {
  }

  // ---------------------------------------------------------------------
  // The connect modal: `handleCreate`, `handleLink`
  // ---------------------------------------------------------------------

  /** The modal's inputs: the accounts, the selections, the typed name and the detected folder. */
  datatype Form = Form(
    accounts: seq<Account>,
    selectedAccountId: string,
    projectName: string,
    outputDir: string,
    existingProjects: seq<Project>,
    selectedExisting: Option<string>)

  /** The error the modal shows; the wording beyond the captured output is presentation. */
  datatype ModalError =
    | InvalidName
    | NoAccount
    | NoProject
    | CreateFailed(stderr: string)
    | BuildFailed(output: string)
    | OutputDirMissing(dir: string)
    | Failed

  /** What a submit leaves: the error shown, the project handed to `onLinked` (and the modal closed), the effects. */
  datatype Submit = Submit(error: Option<ModalError>, linked: Option<LinkedProject>, events: seq<Event>)

  /** `account?.name ?? ''` for the first account with the selected id. */
  function AccountName(accounts: seq<Account>, id: string): (name: string)
    ensures name != "" ==> exists i :: 0 <= i < |accounts| && accounts[i].id == id && accounts[i].name == name
    ensures (forall i :: 0 <= i < |accounts| ==> accounts[i].id != id) ==> name == ""
    ensures forall i :: (0 <= i < |accounts| && accounts[i].id == id
                         && forall j :: 0 <= j < i ==> accounts[j].id != id) ==> name == accounts[i].name
  {
    if accounts == [] then ""
    else if accounts[0].id == id then accounts[0].name
    else AccountName(accounts[1..], id)
  }

  predicate AlreadyExists(o: Outcome)
    requires o.Exited?
  {
    Contains(Lower(o.stderr), "already exists")
  }

  /** `handleCreate`: validate, create (tolerating "already exists"), save, build, check the folder, deploy. */
  function Create(script: seq<Outcome>, k: nat, f: Form): Submit {
    var name := Sanitize(f.projectName);
    var acct := f.selectedAccountId;
    if name == "" then Submit(Some(InvalidName), None, [])
    else if acct == "" then Submit(Some(NoAccount), None, [])
    else
      var o := Reply(script, k);
      var e := [Ran(CreateCmd(acct, name))];
      if o.Threw? then Submit(Some(Failed), None, e)
      else if o.exitCode != 0 && !AlreadyExists(o) then Submit(Some(CreateFailed(o.stderr)), None, e)
      else
        var l := LinkedProject(name, acct, AccountName(f.accounts, acct), f.outputDir, None);
        var r := BuildAndDeploy(script, k + 1, l);
        Submit(r.error, r.linked, e + [Saved(Encode(l))] + r.events)
  }

  /** Unfolding of `Create` once the project exists: the record is saved, then the build and deploy run. */
  lemma CreateProceeds(script: seq<Outcome>, k: nat, f: Form)
    requires Sanitize(f.projectName) != "" && f.selectedAccountId != ""
    requires Reply(script, k).Exited? && (Reply(script, k).exitCode == 0 || AlreadyExists(Reply(script, k)))
    ensures var name, acct := Sanitize(f.projectName), f.selectedAccountId;
      var l := LinkedProject(name, acct, AccountName(f.accounts, acct), f.outputDir, None);
      var r := BuildAndDeploy(script, k + 1, l);
      Create(script, k, f) == Submit(r.error, r.linked, [Ran(CreateCmd(acct, name))] + [Saved(Encode(l))] + r.events)
  {
  }

  /** The build, folder check and first deploy after the record is saved; a rejected call still links. */
  function BuildAndDeploy(script: seq<Outcome>, k: nat, l: LinkedProject): Submit {
    var o := Reply(script, k);
    var e1 := [Ran(BuildCmd)];
    if o.Threw? then Submit(None, Some(l), e1)
    else if o.exitCode != 0 then
      Submit(Some(BuildFailed(if o.stderr != "" then o.stderr else o.stdout)), None, e1)
    else
      var o' := Reply(script, k + 1);
      var e2 := e1 + [Ran(TestDirCmd(l.outputDir))];
      if o'.Threw? then Submit(None, Some(l), e2)
      else if o'.exitCode != 0 then Submit(Some(OutputDirMissing(l.outputDir)), None, e2)
      else
        var r := FirstDeploy(script, k + 2, l);
        Submit(r.error, r.linked, e2 + r.events)
  }

  /**
   * The deploy once the build and the folder check passed: its exit code is
   * not consulted, the URL it prints, when found, is saved, and the project is
   * handed over in every case.
   */
  function FirstDeploy(script: seq<Outcome>, k: nat, l: LinkedProject): Submit {
    var o := Reply(script, k);
    var e := [Ran(DeployCmd(l.accountId, l.outputDir, l.projectName))];
    if o.Threw? then Submit(None, Some(l), e)
    else
      var url := ProdUrlFromOutput(o.stdout, o.stderr);
      if url.None? then Submit(None, Some(l), e)
      else
        var l' := l.(prodUrl := url);
        Submit(None, Some(l'), e + [Saved(Encode(l'))])
  }

  /** The branch where the build and the folder check passed. */
  lemma BuildAndDeployRanAll(script: seq<Outcome>, k: nat, l: LinkedProject)
    requires Succeeded(Reply(script, k)) && Succeeded(Reply(script, k + 1))
    ensures var r := FirstDeploy(script, k + 2, l);
      BuildAndDeploy(script, k, l) == Submit(r.error, r.linked, [Ran(BuildCmd), Ran(TestDirCmd(l.outputDir))] + r.events)
  {
  }

  /** An empty sanitised name or no selected account: an error, and nothing issued or written. */
  lemma CreateRejectsBadInput(script: seq<Outcome>, k: nat, f: Form)
    requires Sanitize(f.projectName) == "" || f.selectedAccountId == ""
    ensures var r := Create(script, k, f);
      r.error.Some? && r.linked.None? && Quiet(r.events)
  {
  }

  /** A failing create whose output does not say "already exists" stops before any write. */
  lemma CreateFailureWritesNothing(script: seq<Outcome>, k: nat, f: Form)
    requires Sanitize(f.projectName) != "" && f.selectedAccountId != ""
    requires Reply(script, k).Exited? && Reply(script, k).exitCode != 0 && !AlreadyExists(Reply(script, k))
    ensures Create(script, k, f) == Submit(Some(CreateFailed(Reply(script, k).stderr)), None,
                                           [Ran(CreateCmd(f.selectedAccountId, Sanitize(f.projectName)))])
  {
  }

  /** Once the project exists (created now or before), the record is saved before `npm run build`. */
  lemma CreateSavesBeforeBuild(script: seq<Outcome>, k: nat, f: Form)
    requires Sanitize(f.projectName) != "" && f.selectedAccountId != ""
    requires Reply(script, k).Exited? && (Reply(script, k).exitCode == 0 || AlreadyExists(Reply(script, k)))
    ensures var r := Create(script, k, f);
      && |r.events| >= 3
      && r.events[0] == Ran(CreateCmd(f.selectedAccountId, Sanitize(f.projectName)))
      && r.events[1] == Saved(Encode(LinkedProject(Sanitize(f.projectName), f.selectedAccountId,
                                                   AccountName(f.accounts, f.selectedAccountId), f.outputDir, None)))
      && r.events[2] == Ran(BuildCmd)
  {
  }

  /** "already exists" is taken as success: the rest of the flow is the same as after a fresh create. */
  lemma CreateIdempotentOnExisting(script: seq<Outcome>, k: nat, f: Form, created: Outcome)
    requires Reply(script, k).Exited? && AlreadyExists(Reply(script, k))
    requires Succeeded(created) && k < |script|
    ensures Create(script, k, f) == Create(script[k := created], k, f)
  {
    var s' := script[k := created];
    forall i | k < i
      ensures Reply(s', i) == Reply(script, i)
    {
    }
    assert BuildAndDeploy(s', k + 1, LinkedProject(Sanitize(f.projectName), f.selectedAccountId,
             AccountName(f.accounts, f.selectedAccountId), f.outputDir, None))
        == BuildAndDeploy(script, k + 1, LinkedProject(Sanitize(f.projectName), f.selectedAccountId,
             AccountName(f.accounts, f.selectedAccountId), f.outputDir, None));
  }

  /** A failed build or a missing folder: no deploy command, no hand-over, and only the first save. */
  lemma BuildFailureBlocksDeploy(script: seq<Outcome>, k: nat, l: LinkedProject)
    requires Reply(script, k).Exited?
    requires Reply(script, k).exitCode != 0 || (Reply(script, k + 1).Exited? && Reply(script, k + 1).exitCode != 0)
    ensures var r := BuildAndDeploy(script, k, l);
      && r.error.Some? && r.linked.None? && !Writes(r.events)
      && Ran(DeployCmd(l.accountId, l.outputDir, l.projectName)) !in r.events
  {
  }

  /** Unlike the toolbar's deploy, the first deploy's exit code is not consulted: a URL in failing output is kept. */
  lemma CreateIgnoresDeployExit(script: seq<Outcome>, k: nat, l: LinkedProject)
    requires Succeeded(Reply(script, k)) && Succeeded(Reply(script, k + 1)) && Reply(script, k + 2).Exited?
    requires ProdUrlFromOutput(Reply(script, k + 2).stdout, Reply(script, k + 2).stderr).Some?
    ensures BuildAndDeploy(script, k, l).linked
            == Some(l.(prodUrl := ProdUrlFromOutput(Reply(script, k + 2).stdout, Reply(script, k + 2).stderr)))
  {
  }

  /**
   * Whatever the modal hands to the toolbar was the last record written, so a
   * later probe reads back the same link.
   */
  lemma CreateHandsOverWhatItSaved(script: seq<Outcome>, k: nat, f: Form, stored: StoredRecord)
    requires Create(script, k, f).linked.Some?
    ensures Decode(Stored(stored, Create(script, k, f).events)) == Create(script, k, f).linked
  {
    var name := Sanitize(f.projectName);
    var acct := f.selectedAccountId;
    var l := LinkedProject(name, acct, AccountName(f.accounts, acct), f.outputDir, None);
    var r := BuildAndDeploy(script, k + 1, l);
    var pre := [Ran(CreateCmd(acct, name))] + [Saved(Encode(l))];
    assert Create(script, k, f).events == pre + r.events;
    StoredAppend(stored, pre, r.events);
    assert Stored(stored, pre) == Encode(l) by {
      assert pre[..1] == [Ran(CreateCmd(acct, name))];
    }
    HandOverIsLastSaved(script, k + 1, l, stored);
  }

  lemma HandOverIsLastSaved(script: seq<Outcome>, k: nat, l: LinkedProject, stored: StoredRecord)
    requires l.projectName != "" && l.accountId != "" && l.prodUrl.None?
    requires BuildAndDeploy(script, k, l).linked.Some?
    ensures Decode(Stored(Encode(l), BuildAndDeploy(script, k, l).events)) == BuildAndDeploy(script, k, l).linked
  {
    var r := BuildAndDeploy(script, k, l);
    DecodeEncode(l);
    var o := Reply(script, k);
    var o' := Reply(script, k + 1);
    var o'' := Reply(script, k + 2);
    if o.Threw? {
      assert r.events == [Ran(BuildCmd)];
    } else if o'.Threw? {
      assert r.events == [Ran(BuildCmd), Ran(TestDirCmd(l.outputDir))];
    } else if o''.Threw? || ProdUrlFromOutput(o''.stdout, o''.stderr).None? {
      assert r.linked == Some(l);
      assert r.events == [Ran(BuildCmd), Ran(TestDirCmd(l.outputDir)), Ran(DeployCmd(l.accountId, l.outputDir, l.projectName))];
    } else {
      var l' := r.linked.value;
      DecodeEncode(l');
      var e3 := [Ran(BuildCmd), Ran(TestDirCmd(l.outputDir)), Ran(DeployCmd(l.accountId, l.outputDir, l.projectName))];
      assert r.events == e3 + [Saved(Encode(l'))];
      RunsThenSave(Encode(l), e3, Encode(l'));
    }
  }

  lemma {:induction false} StoredWithoutWrites(m: StoredRecord, events: seq<Event>)
    requires !Writes(events)
    ensures Stored(m, events) == m
    decreases |events|
  {
    if events != [] {
      assert !events[0].Saved?;
      StoredWithoutWrites(m, events[1..]);
    }
  }

  /** `handleLink`: validate, then save and hand over the chosen project with its known host. */
  function Link(f: Form): Submit {
    if !Truthy(f.selectedExisting) then Submit(Some(NoProject), None, [])
    else if f.selectedAccountId == "" then Submit(Some(NoAccount), None, [])
    else
      var name := f.selectedExisting.value;
      var p := FindProject(f.existingProjects, name);
      var url := if p.Some? && p.value.subdomain != "" then Some(HTTPS + p.value.subdomain) else None;
      var l := LinkedProject(name, f.selectedAccountId, AccountName(f.accounts, f.selectedAccountId), f.outputDir, url);
      Submit(None, Some(l), [Saved(Encode(l))])
  }

  /** Linking issues no command, writes exactly the hand-over, and takes the host from the listed project. */
  lemma LinkSavesSelection(f: Form, stored: StoredRecord)
    ensures var r := Link(f);
      && (forall i :: 0 <= i < |r.events| ==> r.events[i].Saved?)
      && (r.linked.None? <==> !Truthy(f.selectedExisting) || f.selectedAccountId == "")
      && (r.linked.None? ==> Quiet(r.events) && r.error.Some?)
      && (r.linked.Some? ==>
            && r.error.None?
            && Decode(Stored(stored, r.events)) == r.linked
            && r.linked.value.projectName == f.selectedExisting.value
            && (r.linked.value.prodUrl.Some? ==>
                  exists i :: 0 <= i < |f.existingProjects| && f.existingProjects[i].name == f.selectedExisting.value
                              && r.linked.value.prodUrl.value == HTTPS + f.existingProjects[i].subdomain)
            && ((forall i :: 0 <= i < |f.existingProjects| ==> f.existingProjects[i].name != f.selectedExisting.value)
                  ==> r.linked.value.prodUrl.None?))
  {
    var r := Link(f);
    if r.linked.Some? {
      DecodeEncode(r.linked.value);
    }
  }
}
