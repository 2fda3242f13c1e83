/**
 * The toolbar's seven display states, derived from the CLI status, the
 * parsed accounts, the linked project and the deploy flag.
 */
module PluginStatus {
  import opened Wrappers
  import opened Domain

  datatype PluginState =
    | Checking
    | NotInstalled
    | NotAuthenticated
    | WrongAccount
    | NotLinked
    | Deploying
    | Connected

  /** `accounts.some((a) => a.id === id)`. */
  predicate HasAccount(accounts: seq<Account>, id: string) {
    exists i :: 0 <= i < |accounts| && accounts[i].id == id
  }

  /** The linked project belongs to none of the listed accounts (an empty list proves nothing). */
  predicate AccountMismatch(accounts: seq<Account>, linked: Option<LinkedProject>) {
    linked.Some? && |accounts| > 0 && !HasAccount(accounts, linked.value.accountId)
  }

  predicate Ready(cli: Option<CliStatus>) {
    cli.Some? && cli.value.installed && cli.value.authenticated
  }

  /** The conditional chain: the first rule that applies decides the state. */
  function Derive(cli: Option<CliStatus>, accounts: seq<Account>, linked: Option<LinkedProject>,
                  isDeploying: bool): PluginState
  {
    if cli.None? then Checking
    else if !cli.value.installed then NotInstalled
    else if !cli.value.authenticated then NotAuthenticated
    else if AccountMismatch(accounts, linked) then WrongAccount
    else if isDeploying then Deploying
    else if linked.Some? then Connected
    else NotLinked
  }

  /** CHECKING exactly while the CLI status is still unknown. */
  lemma CheckingExactly(cli: Option<CliStatus>, accounts: seq<Account>,
                        linked: Option<LinkedProject>, isDeploying: bool)
    ensures Derive(cli, accounts, linked, isDeploying) == Checking <==> cli.None?
  {
  }

  /** NOT_INSTALLED exactly when the CLI is known to be missing, whatever else holds. */
  lemma NotInstalledExactly(cli: Option<CliStatus>, accounts: seq<Account>,
                            linked: Option<LinkedProject>, isDeploying: bool)
    ensures Derive(cli, accounts, linked, isDeploying) == NotInstalled
            <==> cli.Some? && !cli.value.installed
  {
  }

  /** NOT_AUTHENTICATED exactly when the CLI is installed but signed out, whatever else holds. */
  lemma NotAuthenticatedExactly(cli: Option<CliStatus>, accounts: seq<Account>,
                                linked: Option<LinkedProject>, isDeploying: bool)
    ensures Derive(cli, accounts, linked, isDeploying) == NotAuthenticated
            <==> cli.Some? && cli.value.installed && !cli.value.authenticated
  {
  }

  /** CONNECTED exactly when the CLI is ready, a project of a listed account is linked and no deploy runs. */
  lemma ConnectedExactly(cli: Option<CliStatus>, accounts: seq<Account>,
                         linked: Option<LinkedProject>, isDeploying: bool)
    ensures Derive(cli, accounts, linked, isDeploying) == Connected
            <==> Ready(cli) && linked.Some? && !AccountMismatch(accounts, linked) && !isDeploying
  {
  }

  /** NOT_LINKED exactly when the CLI is ready, nothing is linked and no deploy runs. */
  lemma NotLinkedExactly(cli: Option<CliStatus>, accounts: seq<Account>,
                         linked: Option<LinkedProject>, isDeploying: bool)
    ensures Derive(cli, accounts, linked, isDeploying) == NotLinked
            <==> Ready(cli) && linked.None? && !isDeploying
  {
  }

  /** WRONG_ACCOUNT exactly when the CLI is ready, a project is linked, accounts are known and none matches it. */
  lemma WrongAccountExactly(cli: Option<CliStatus>, accounts: seq<Account>,
                            linked: Option<LinkedProject>, isDeploying: bool)
    ensures Derive(cli, accounts, linked, isDeploying) == WrongAccount
            <==> Ready(cli) && linked.Some? && |accounts| > 0
                 && forall i :: 0 <= i < |accounts| ==> accounts[i].id != linked.value.accountId
  {
  }

  /** DEPLOYING only when the CLI is ready and the account is not the wrong one. */
  lemma DeployingOnlyWhenReady(cli: Option<CliStatus>, accounts: seq<Account>,
                               linked: Option<LinkedProject>, isDeploying: bool)
    ensures Derive(cli, accounts, linked, isDeploying) == Deploying
            <==> Ready(cli) && !AccountMismatch(accounts, linked) && isDeploying
  {
  }

  /** CONNECTED and NOT_LINKED split the ready, idle, right-account case by whether a project is linked. */
  lemma LinkedDecidesIdleState(cli: Option<CliStatus>, accounts: seq<Account>,
                               linked: Option<LinkedProject>)
    requires Ready(cli) && !AccountMismatch(accounts, linked)
    ensures Derive(cli, accounts, linked, false) == (if linked.Some? then Connected else NotLinked)
  {
  }

  /** With no account list to compare against, a linked project is never flagged. */
  lemma NoAccountsNoWrongAccount(cli: Option<CliStatus>, linked: Option<LinkedProject>, isDeploying: bool)
    ensures Derive(cli, [], linked, isDeploying) != WrongAccount
  {
  }
}
