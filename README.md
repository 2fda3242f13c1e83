# Cloudflare Pages toolbar plugin — a Dafny model

This project models the core of the Ship Studio plugin that connects a workspace to a
Cloudflare Pages project through the `wrangler` CLI. The whole plugin lives in `src/index.tsx`.
The model covers:

- **Output parsers.**
  - `parseWhoamiJson` reads the accounts of `wrangler whoami --json`.
  - `parseProjectList` scrapes the `project list` table with `/│\s*(.+?)\s*│\s*(\S+\.pages\.dev)\s*│/`.
  - `detectOutputDir` reads the framework table from `package.json`, then probes the candidate folders.
- **Name and URL logic.**
  - `sanitizeProjectName`, and the connect dialog's "Will be created as" hint.
  - The production URL taken from deploy output (`/https:\/\/[^\s]*\.pages\.dev/`, then `/https:\/\/[^.]+\.(.+\.pages\.dev)/` to drop the per-deploy hash).
  - The URL the dropdown falls back to.
- **The toolbar's seven display states,** derived from the CLI status, the accounts, the linked project and the deploy flag.
- **The handlers,** as methods of two classes whose fields they update step by step:
  - the toolbar (`CloudflareToolbar`): the mount check, install, login, deploy, unlink, sign out and `onLinked`;
  - its connect dialog (`ConnectModal`): the create and link submits, and the two effects that detect the output folder and load the existing projects.

Outside the plugin things work like this in the model:

- **The shell** is a `Host.Context`. Its `Exec` answers the `k`-th call with the `k`-th scripted `Outcome`: either a resolution with stdout, stderr and an exit code, or a rejection (`Threw`). A call past the end of the script rejects.
  - Every call and every `storage.write` is appended to a log (`trace`), so contracts can say which commands ran and in what order.
  - `storage` holds the stored record as a flat string map, and `calls` counts the shell calls so far.
  - `Valid()` ties the three together: `storage` is the last record written in the log (`Domain.Stored` over the record the context started with), and `calls` is the number of commands in it (`Domain.Runs`). `Exec` and `Write` keep it.
  - Every handler states its new log, stored record and call count against its starting state: the log grows by the events issued, the record is their last write over the old record, and the count grows by the commands among them. So handlers compose, and by `Domain.Continues` a context that was `Valid()` before a handler still is after it.
- **Each handler** is proved equal to a pure function in `Flows` of the old state, the script and the stored record. The function gives the new state and the events issued. The handlers' promises are lemmas about those functions.
- **The regular expressions** are hand-written matchers that follow the engine's backtracking order: leftmost start, greedy runs that back off, and a lazy group that grows. Lemmas state what a match looks like.

Modules:

| module | file | contents |
|---|---|---|
| `Wrappers` | wrappers.dfy | `Option` |
| `Text` | text.dfy | JavaScript's `\s` class, `trim`, `includes`, ASCII `toLowerCase`, `split('\n')` |
| `Domain` | domain.dfy | accounts, projects, the linked-project record and its stored layout, commands, outcomes, events |
| `ProjectName` | project_name.dfy | `sanitizeProjectName` |
| `Parsing` | parsing.dfy | `whoami` JSON, the project table, the framework table |
| `DeployUrl` | urls.dfy | the production-URL derivation and the display fallback |
| `PluginStatus` | state.dfy | the seven states |
| `Flows` | flows.dfy | each handler as a function, with the lemmas about it |
| `Host` | host.dfy | the shell and storage context, and `detectOutputDir` |
| `Toolbar` | toolbar.dfy | the toolbar and dialog classes |

## Model

| member | source | states |
|---|---|---|
| ProjectName.SanitizedShape | src/index.tsx:655-657 | every sanitised name has only `[a-z0-9-]`, no `--`, and no dash at either end |
| ProjectName.SanitizeIdempotent | src/index.tsx:655-657 | sanitising twice gives the same name as sanitising once |
| ProjectName.FixedPointsAreSanitized | src/index.tsx:655-657 | a name is left unchanged exactly when it already has the label shape |
| ProjectName.SanitizeKeepsAlnums | src/index.tsx:655-657 | the letters and digits of the lower-cased input survive, in order; only dashes are added or removed |
| ProjectName.EmptyExactlyWithoutAlnums | src/index.tsx:655-657 | the result is empty (the "valid project name" error) exactly when the input has no ASCII letter or digit |
| ProjectName.SanitizeJoinsWords | src/index.tsx:655-657 | two words separated and surrounded by any run of non-alphanumerics become `a-b`, lower-cased |
| ProjectName.ExampleMySite | src/index.tsx:655-657 | `"My Site!!"` becomes `"my-site"` |
| ProjectName.ExampleFooBar | src/index.tsx:655-657 | `"--Foo--Bar--"` becomes `"foo-bar"` |
| ProjectName.RenameHintExactly | src/index.tsx:875-878 | the hint shows exactly for a non-empty input that is not already label-shaped |
| Parsing.ParseWhoami | src/index.tsx:484-494 | never fails, and yields at most as many accounts as the `accounts` array has entries |
| Parsing.MalformedYieldsNoAccounts | src/index.tsx:484-494 | unparseable text, or a missing or non-array `accounts`, yields no accounts |
| Parsing.AccountsAreUsableSubsequence | src/index.tsx:488-490 | the accounts are exactly the entries with a truthy `id` and `name`, mapped to `{name, id}`, in input order |
| Parsing.UsableAccountsAppend | src/index.tsx:488-490 | entries that lack a field drop out without moving the others |
| Parsing.AllUsableAllKept | src/index.tsx:488-490 | when every entry has both fields, every entry becomes an account, at its own position |
| Parsing.ParseProjectList | src/index.tsx:496-506 | the loop pushes, line by line, the trimmed groups of each matching line (`ProjectsOfLines`); there is at most one record per line and each is well formed |
| Parsing.ProjectsOfLinesWellFormed | src/index.tsx:496-506 | at most one record per line; every record has a trimmed name and a `*.pages.dev` host with no spaces |
| Parsing.ProjectsOfLinesAppend | src/index.tsx:498-504 | the records of a listing are the records of its parts, in order |
| Parsing.ProjectsOfOneLine | src/index.tsx:499-503 | a single line yields its own record or nothing |
| Parsing.NoBarNoRow | src/index.tsx:500 | a line with no `│` (a border or a blank line) never matches |
| Parsing.RowRecordWellFormed | src/index.tsx:500-502 | a record pushed for a line has a trimmed name and a `*.pages.dev` host |
| Parsing.RowHasFrame | src/index.tsx:500-502 | a line yields a record only when it has the frame `│ name │ host │`, with only spaces around the two groups |
| Parsing.TableRowYields | src/index.tsx:500-502 | a row `│ name │ host │…` with any runs of spaces padding the two cells (at least one before the host's closing bar) yields exactly `{name, host}` |
| Parsing.FrameworkDirIsFirstMatch | src/index.tsx:513-520 | the chosen folder is that of the first framework row one of whose markers the text mentions |
| Parsing.NoMarkerNoFramework | src/index.tsx:513-520 | no framework is recognised exactly when no marker is mentioned |
| Parsing.NextTakesPriority | src/index.tsx:516 | a `"next"` dependency selects `out` whatever else the file mentions |
| Parsing.AnyCaseIsDetected | src/index.tsx:515-520 | the text is lower-cased first, so a marker written in any ASCII case is still recognised |
| Host.ProbeCandidates | src/index.tsx:526-536 | the loop runs `test -d` on each candidate in order and returns the first that succeeds, else `dist`; the log is that of `Flows.Candidates`, the stored record is untouched and the call count grows by one per probe |
| Host.DetectOutputDir | src/index.tsx:508-537 | reads `package.json`, then probes the candidates; the folder and the log are those of `Flows.DetectDir`, the stored record is untouched and the call count grows by one per command |
| Flows.CandidatesAfterMisses | src/index.tsx:527-534 | after `m` candidates that do not exist, `m` probes have been issued, in order, and the walk goes on from candidate `m` |
| Flows.CandidatesInOrder | src/index.tsx:527-536 | candidates are probed in list order; nothing is probed after the first that exists, which is chosen; when none exists all four are probed and the default is returned |
| Flows.FrameworkShortCircuits | src/index.tsx:513-521 | a recognised framework decides the folder after the one `cat package.json` |
| Flows.DetectedDirIsKnown | src/index.tsx:508-537 | the detected folder is always one of `out`, `.output/public`, `dist`, `build`, `public` |
| DeployUrl.DeployUrlIsLeftmost | src/index.tsx:726 | a URL is found exactly when the first pattern matches somewhere, and the one found is a space-free `https://…pages.dev` address |
| DeployUrl.UrlMatchesToken | src/index.tsx:726 | any space-free `https://W.pages.dev` in the output is matched, and a match starting there reaches at least its end |
| DeployUrl.StripsHashLabel | src/index.tsx:729-730 | `https://H.R.pages.dev`, with a dot-free hash label `H`, becomes `https://R.pages.dev` |
| DeployUrl.KeepsSingleLabel | src/index.tsx:729-730 | `https://L.pages.dev`, with a single label, is kept as it is |
| DeployUrl.StripKeepsShape | src/index.tsx:729-730 | dropping the hash label keeps a space-free `https://…pages.dev` address in that shape |
| DeployUrl.ProdUrlShape | src/index.tsx:726-731 | any production URL the derivation gives is a space-free `https://…pages.dev` address |
| DeployUrl.ProdUrlPresent | src/index.tsx:726-727 | the derivation gives a URL exactly when stdout, a newline and stderr, joined, hold a match of the first pattern |
| DeployUrl.DisplayUrl | src/index.tsx:1005 | the stored `prodUrl` when it is truthy; otherwise `https://<projectName>.pages.dev` |
| DeployUrl.DisplayUrlShape | src/index.tsx:1005 | when the stored URL (if any) has the `https://…pages.dev` shape, the displayed link always does |
| PluginStatus.CheckingExactly | src/index.tsx:1109 | `CHECKING` exactly while the CLI status is unknown |
| PluginStatus.NotInstalledExactly | src/index.tsx:1109-1110 | `NOT_INSTALLED` exactly when the CLI is known and not installed, whatever the accounts, link and deploy flag |
| PluginStatus.NotAuthenticatedExactly | src/index.tsx:1109-1111 | `NOT_AUTHENTICATED` exactly when the CLI is installed but signed out, whatever the accounts, link and deploy flag |
| PluginStatus.WrongAccountExactly | src/index.tsx:1112 | `WRONG_ACCOUNT` exactly when the CLI is ready, a project is linked, accounts are known and none has the linked account's id |
| PluginStatus.DeployingOnlyWhenReady | src/index.tsx:1109-1113 | `DEPLOYING` exactly when the CLI is ready, the account is not the wrong one and a deploy is running |
| PluginStatus.LinkedDecidesIdleState | src/index.tsx:1113-1115 | a ready, idle toolbar on the right account is `CONNECTED` or `NOT_LINKED` according to whether a project is linked |
| PluginStatus.NoAccountsNoWrongAccount | src/index.tsx:1112 | with no accounts listed, a linked project is never flagged as the wrong account |
| PluginStatus.ConnectedExactly | src/index.tsx:1109-1114 | `CONNECTED` exactly when the CLI is ready, a project is linked, its account is listed (or none are) and no deploy is running |
| PluginStatus.NotLinkedExactly | src/index.tsx:1109-1115 | `NOT_LINKED` exactly when the CLI is ready, no project is linked and no deploy is running |
| Domain.Decode | src/index.tsx:1159-1160 | a stored record reads as linked exactly when `projectName` and `accountId` are both truthy, and it then carries those values and the stored `prodUrl` |
| Domain.Encode | src/index.tsx:692-701 | the written record has the four fields, plus `prodUrl` only when one is set |
| Domain.DecodeEncode | src/index.tsx:692-701 | a record written for a project with a name and an account reads back as that project |
| Domain.ClearedIsUnlinked | src/index.tsx:1345 | the cleared record `{}` never reads as linked |
| Domain.DecodeWithProdUrl | src/index.tsx:1172-1173 | writing the read record with `prodUrl` set changes only `prodUrl` in what is read back |
| Domain.StoredAppend | src/index.tsx:701-732 | the record in storage after two runs of events is that after the first, then the second |
| Domain.Continues | src/index.tsx:701-732 | after a log and a continuation, the stored record and the call count are those of the log, carried on through the continuation |
| Text.Trim | src/index.tsx:502 | `trim()` gives an infix with no space at either end; it is empty exactly for blank text and leaves trimmed text unchanged |
| Text.TrimStripsBlankEnds | src/index.tsx:502 | what `trim()` removes is exactly a blank prefix and a blank suffix, so it returns the text between the first and last non-space characters |
| Text.TrimsToEmpty | src/index.tsx:1147 | `!s.trim()` holds exactly for blank text |
| Text.JoinSplit | src/index.tsx:498 | joining the pieces of `split('\n')` with newlines gives back the text |
| Text.SplitJoin | src/index.tsx:498 | splitting newline-free pieces, joined, gives back the pieces |
| Toolbar.CloudflareToolbar.constructor | src/index.tsx:1096-1099 | the toolbar starts with no CLI status, no accounts, no link and no deploy running, shown as `CHECKING` |
| Toolbar.CloudflareToolbar.Check | src/index.tsx:1123-1191 | The mount probe leaves the state, and issues the commands and writes, that `Flows.Probe` gives. The record afterwards is the last write among those events over the old record, and the call count grows by the commands among them. |
| Toolbar.CloudflareToolbar.ReadBackWhoami | src/index.tsx:1141-1187 | The `cat` of the temporary file and what follows it agree with `Flows.ReadBack`. The record afterwards is the last write among those events over the old record, and the call count grows by the commands among them. |
| Toolbar.CloudflareToolbar.ConsumeReadBack | src/index.tsx:1144-1187 | The `rm` and the verdict on the read-back agree with `Flows.Consume`. The record afterwards is the last write among those events over the old record, and the call count grows by the commands among them. |
| Toolbar.CloudflareToolbar.AdoptAccounts | src/index.tsx:1152-1187 | The parsed accounts replace the old ones, signed in exactly when there is one, then the link is restored (`Flows.SignIn`). The record afterwards is the last write among those events over the old record, and the call count grows by the commands among them. |
| Toolbar.CloudflareToolbar.RestoreLink | src/index.tsx:1157-1186 | The stored link and the `prodUrl` backfill agree with `Flows.Restore`. The record afterwards is the last write among those events over the old record, and the call count grows by the commands among them. |
| Flows.ProbeMissingCli | src/index.tsx:1131-1138 | a failing `whoami` whose output says `not found`, `enoent` or `err_module` means not installed, after the one command |
| Flows.ProbeSignedOut | src/index.tsx:1131-1150 | any other failing `whoami`, or a read-back that fails or is blank, means installed but signed out |
| Flows.ProbeAuthenticated | src/index.tsx:1152-1154 | after a read-back with content, the accounts are the parsed ones; signed in exactly when there is one; the first three commands are `whoami`, `cat` and `rm` |
| Flows.SignInAdopts | src/index.tsx:1152-1156 | restoring the link does not change the adopted accounts or CLI status |
| Flows.RestoreKeepsStatus | src/index.tsx:1157-1181 | restoring touches only the link |
| Flows.RestoreAgreesWithStorage | src/index.tsx:1157-1181 | a stored record that does not read as linked is ignored, with nothing issued and the link unchanged; otherwise the link afterwards is exactly what storage then reads back, since the backfill writes the `prodUrl` it links with |
| Flows.SignInWithoutAccounts | src/index.tsx:1152-1156 | when no account is parsed, the CLI is installed but signed out, storage is not read, nothing is issued and the link is unchanged |
| Flows.BackfillOnlyWhenMissing | src/index.tsx:1163-1175 | the backfill writes only for a linked record without a truthy `prodUrl`, and writes it back with only an `https://` `prodUrl` added |
| Toolbar.CloudflareToolbar.HandleInstall | src/index.tsx:1232-1260 | The new state and the events issued are those of `Flows.Install`. The record afterwards is the last write among those events over the old record, and the call count grows by the commands among them. |
| Flows.InstallOutcome | src/index.tsx:1232-1260 | install changes only the CLI status, only to installed but signed out, and only after a successful `--version`; a successful global install skips the local one |
| Toolbar.CloudflareToolbar.HandleLogin | src/index.tsx:1262-1291 | The new state and the events issued are those of `Flows.Login`. The record afterwards is the last write among those events over the old record, and the call count grows by the commands among them. |
| Toolbar.CloudflareToolbar.RecheckWhoami | src/index.tsx:1266-1284 | The re-check after a successful login agrees with `Flows.Recheck`. The record afterwards is the last write among those events over the old record, and the call count grows by the commands among them. |
| Flows.LoginAdoptsAccounts | src/index.tsx:1266-1282 | after a login with a read-back that has content, the accounts are the parsed ones and signed in means some account was found |
| Flows.LoginOtherwiseChangesNothing | src/index.tsx:1262-1291 | a login never writes storage, and any other attempt leaves the state unchanged |
| Flows.RecheckOnlyRuns | src/index.tsx:1267-1274 | the re-check only runs commands, and changes the state only for a read-back with content; the `whoami` exit code is not consulted |
| Toolbar.CloudflareToolbar.HandleDeploy | src/index.tsx:1293-1341 | The new state and the events issued are those of `Flows.Deploy`. The record afterwards is the last write among those events over the old record, and the call count grows by the commands among them. |
| Flows.DeployNeedsLink | src/index.tsx:1294 | with no linked project the deploy does nothing |
| Flows.DeployBlockedByBuild | src/index.tsx:1300-1313 | a failed build or a missing output folder issues no deploy, writes nothing, and only lowers the flag |
| Flows.DeployWritesOnlyNewProdUrl | src/index.tsx:1315-1340 | a write happens only when `prodUrl` was missing and the deploy exited 0; only `prodUrl` of the link changes, the record written is the new link, and the flag is down afterwards |
| Flows.DeployRecordsPagesUrl | src/index.tsx:1323-1329 | a production URL recorded by a deploy is an `https://…pages.dev` address |
| Toolbar.CloudflareToolbar.HandleUnlink | src/index.tsx:1343-1352 | The new state and the events issued are those of `Flows.Unlink`. The record afterwards is the last write among those events over the old record, and the call count grows by the commands among them. |
| Flows.UnlinkClears | src/index.tsx:1343-1352 | storage is cleared to a record that reads as unlinked, and a ready toolbar then shows `NOT_LINKED` |
| Toolbar.CloudflareToolbar.HandleSignOut | src/index.tsx:1354-1366 | The new state and the events issued are those of `Flows.SignOut`. The record afterwards is the last write among those events over the old record, and the call count grows by the commands among them. |
| Flows.SignOutClears | src/index.tsx:1354-1366 | whatever `logout` exits with, storage, the link and the accounts are cleared and the state is `NOT_AUTHENTICATED`; only a rejected `logout` changes nothing |
| Toolbar.CloudflareToolbar.HandleLinked | src/index.tsx:1368-1370 | the handed-over project becomes the link and nothing else changes |
| Toolbar.ConnectModal.constructor | src/index.tsx:596-606 | the dialog preselects the first account, and the folder defaults to `dist` |
| Toolbar.ConnectModal.DetectDir | src/index.tsx:608-619 | the detected folder replaces the default (`Flows.DetectDir`); the stored record is untouched, the call count grows by the commands issued, and nothing else changes |
| Toolbar.ConnectModal.LoadExisting | src/index.tsx:621-644 | with an account selected, the list is cleared, the selection dropped, and the parsed projects loaded when the listing exits 0, after one call; otherwise nothing happens; the stored record is never touched |
| Toolbar.ConnectModal.HandleCreate | src/index.tsx:663-746 | The new state and the events issued are those of `Flows.Create`. The record afterwards is the last write among those events over the old record, and the call count grows by the commands among them. |
| Toolbar.ConnectModal.DeployAfterChecks | src/index.tsx:720-739 | The deploy and the write-back of the URL it prints agree with `Flows.FirstDeploy`: the dialog's error is left alone and the project is handed over whatever the deploy gave. The record afterwards is the last write among those events over the old record, and the call count grows by the commands among them. |
| Toolbar.ConnectModal.BuildAndDeployAfterSave | src/index.tsx:704-740 | The build, folder check and first deploy agree with `Flows.BuildAndDeploy`. The record afterwards is the last write among those events over the old record, and the call count grows by the commands among them. |
| Flows.CreateRejectsBadInput | src/index.tsx:664-672 | an empty sanitised name or no account gives an error and issues nothing |
| Flows.CreateFailureWritesNothing | src/index.tsx:683-690 | a failing create whose stderr does not say "already exists" stops with that error before any write |
| Flows.CreateSavesBeforeBuild | src/index.tsx:692-705 | once the project exists, the record is saved right after the create and before `npm run build` |
| Flows.CreateIdempotentOnExisting | src/index.tsx:683-690 | an "already exists" failure, in any case, continues exactly as a fresh create would |
| Flows.BuildFailureBlocksDeploy | src/index.tsx:705-718 | a failed build or a missing folder gives an error, hands nothing over, writes nothing and issues no deploy |
| Flows.CreateIgnoresDeployExit | src/index.tsx:720-733 | the first deploy's exit code is not consulted: a URL in failing output is still recorded |
| Flows.CreateHandsOverWhatItSaved | src/index.tsx:701-739 | the project handed to the toolbar is the last record written, so the next probe reads back the same link |
| Toolbar.ConnectModal.HandleLink | src/index.tsx:748-782 | The new state and the events issued are those of `Flows.Link`. The record afterwards is the last write among those events over the old record, and the call count grows by the commands among them. |
| Flows.LinkSavesSelection | src/index.tsx:748-782 | linking issues no command and writes exactly the hand-over; it fails exactly without a selection or an account; the host comes from the listed project of that name, and there is none when no such project is listed |
| Flows.FindProject | src/index.tsx:763 | the project found is the first in the list with the name asked for; none is found exactly when no project has that name |
| Flows.AccountName | src/index.tsx:659-661 | the name of the first listed account with the selected id, or `""` when none has it |

## Left out

- `JSON.parse` is not modelled. The toolbar takes a table `parseJson` from read-back texts to decoded documents; any text not in the table counts as unparseable. The decoded document keeps only what the plugin inspects: whether `accounts` is an array, and for each element whether it is `null` or has string or missing `id` and `name`.
- Parsing.ParseWhoami: an `id` or `name` that is a truthy non-string (a number, say) is treated as missing. The source would keep such an element.
- Text.Lower: `toLowerCase` is modelled on ASCII only. A few non-ASCII characters lower-case to ASCII letters in JavaScript (the Kelvin sign to `k`, `İ` to `i` plus a combining dot). There the sanitised name differs from the source's.
- Strings are sequences of code points. UTF-16 surrogate pairs, which `.` and `\s` would see as two units, are not modelled.
- Storage reads and writes always succeed. The `catch` branches for a failing `storage.read` or `storage.write`, and the error toasts, are not modelled.
- Stored values are strings. Extra keys of a stored record are kept by the backfill write, as in the source, but not otherwise inspected. A missing `accountName` or `outputDir` reads as the empty string.
- Toolbar.CloudflareToolbar.HandleDeploy: the record written is the encoded link. The source spreads the linked object it restored from storage, so it would also carry any extra stored keys, and it would omit a missing `accountName` instead of writing `""`.
- Toolbar.ConnectModal.LoadExisting: the dialog's tab is not modelled. The method is the effect as it runs while the link tab is shown.
- Toasts, the `installing`, `loading`, `loadingProjects`, `detectingDir`, `showModal` and `showDropdown` flags, hover timers, the Escape-key and click-outside listeners, and the rendering are presentation, and are left out.
- Toolbar.CloudflareToolbar.HandleDeploy: the intermediate `isDeploying = true` state is not exposed. The contract gives only the state at the end, where the flag is down.
- The `cancelled` flags of the effects, React's re-renders and races between handlers are left out. Each handler runs to completion on the state it starts from.
- The git-remote poll, `openAutoDeploySetup`, `openUrl`, the dashboard link and `prodLabel` are not part of this model.
- Toolbar.CloudflareToolbar.Check: the un-awaited `rm -f` of the temporary file is modelled as a call that consumes one scripted outcome. Its result is ignored, as in the source.
- The timeouts passed to `shell.exec` are recorded in `Domain.Spell`. A timed-out call is a scripted rejection.
- Toolbar.ConnectModal.HandleCreate: `setError` messages are modelled by their kind and the captured output (`ModalError`), not their wording.
