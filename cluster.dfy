/**
 * The part of the Kubernetes API server that the handler talks to through
 * CoreV1Api: the namespaces that exist, the service accounts stored in
 * them, and the three calls it makes (read a service account, create one,
 * request a token for one). Whatever the stored state does not decide (a
 * refused permission, a network failure, the cluster rejecting a token
 * lifetime, the token text itself) comes from an Oracle.
 */
module Cluster {
  import opened Wrappers

  /** An ApiException: the HTTP status the API server answered with and its reason. */
  datatype ApiError = ApiError(status: int, reason: string)

  const NotFound: int := 404
  const Conflict: int := 409

  /** A service account is named within its namespace. */
  datatype AccountRef = AccountRef(namespace: string, name: string)

  /** A V1ServiceAccount: its metadata name and the optional parts a body may carry. */
  datatype ServiceAccount = ServiceAccount(
    name: string,
    labels: map<string, string>,
    annotations: map<string, string>,
    imagePullSecrets: seq<string>)

  /** The body the handler creates: metadata with the name set and nothing else (app.py:43). */
  function NameOnly(name: string): ServiceAccount {
    ServiceAccount(name, map[], map[], [])
  }

  type Accounts = map<AccountRef, ServiceAccount>

  /** A call the API server received, as it would appear in its audit log. */
  datatype Call =
    | ReadAccount(ref: AccountRef)
    | CreateAccount(namespace: string, body: ServiceAccount)
    | RequestToken(ref: AccountRef, expirationSeconds: int)

  /**
   * The outcomes the stored state does not decide: whether the in-cluster
   * configuration loads, a failure injected into each call, and the token minted.
   */
  datatype Oracle = Oracle(
    connected: bool,
    readFault: Option<ApiError>,
    createFault: Option<ApiError>,
    tokenFault: Option<ApiError>,
    token: string)

  /** Every stored account lives in a namespace that exists and is stored under its own name. */
  predicate Consistent(namespaces: set<string>, accounts: Accounts) {
    forall ref :: ref in accounts ==> ref.namespace in namespaces && accounts[ref].name == ref.name
  }

  /** GET of a service account: the stored object, 404 if there is none, or the injected failure. */
  function Read(accounts: Accounts, ref: AccountRef, fault: Option<ApiError>): Result<ServiceAccount, ApiError> {
    if fault.Some? then Failure(fault.value)
    else if ref !in accounts then Failure(ApiError(NotFound, "Not Found"))
    else Success(accounts[ref])
  }

  /** POST of a service account body into a namespace: 404 for a missing namespace, 409 for a taken name. */
  function CreateResult(namespaces: set<string>, accounts: Accounts, namespace: string, body: ServiceAccount, fault: Option<ApiError>): Result<ServiceAccount, ApiError> {
    if fault.Some? then Failure(fault.value)
    else if namespace !in namespaces then Failure(ApiError(NotFound, "Not Found"))
    else if AccountRef(namespace, body.name) in accounts then Failure(ApiError(Conflict, "AlreadyExists"))
    else Success(body)
  }

  /** The stored accounts after that POST: the body is stored exactly when the create succeeds. */
  function AfterCreate(namespaces: set<string>, accounts: Accounts, namespace: string, body: ServiceAccount, fault: Option<ApiError>): (after: Accounts)
    ensures Consistent(namespaces, accounts) ==> Consistent(namespaces, after)
    ensures after.Keys == accounts.Keys + (if CreateResult(namespaces, accounts, namespace, body, fault).Success? then {AccountRef(namespace, body.name)} else {})
    ensures forall r :: r in accounts ==> after[r] == accounts[r]
    ensures CreateResult(namespaces, accounts, namespace, body, fault).Success? ==> after[AccountRef(namespace, body.name)] == body
  {
    if CreateResult(namespaces, accounts, namespace, body, fault).Success? then accounts[AccountRef(namespace, body.name) := body]
    else accounts
  }

  /** POST of a TokenRequest for a service account: the minted token, 404 if there is no such account. */
  function TokenResult(accounts: Accounts, ref: AccountRef, fault: Option<ApiError>, token: string): Result<string, ApiError> {
    if fault.Some? then Failure(fault.value)
    else if ref !in accounts then Failure(ApiError(NotFound, "Not Found"))
    else Success(token)
  }

  /** The API server as the handler's CoreV1Api handle sees it. */
  class ApiServer {
    const namespaces: set<string>
    var accounts: Accounts
    var log: seq<Call>

    ghost predicate Valid()
      reads this
    {
      Consistent(namespaces, accounts)
    }

    constructor (namespaces: set<string>, accounts: Accounts)
      requires Consistent(namespaces, accounts)
      ensures Valid()
      ensures this.namespaces == namespaces && this.accounts == accounts && log == []
    {
      this.namespaces := namespaces;
      this.accounts := accounts;
      log := [];
    }

    /** read_namespaced_service_account: reads, changes nothing stored. */
    method ReadNamespacedServiceAccount(name: string, namespace: string, fault: Option<ApiError>) returns (r: Result<ServiceAccount, ApiError>)
      requires Valid()
      modifies this`log
      ensures r == Read(accounts, AccountRef(namespace, name), fault)
      ensures r.Success? ==> r.value.name == name
      ensures log == old(log) + [ReadAccount(AccountRef(namespace, name))]
    {
      r := Read(accounts, AccountRef(namespace, name), fault);
      log := log + [ReadAccount(AccountRef(namespace, name))];
    }

    /** create_namespaced_service_account: stores the body under its name when the create succeeds. */
    method CreateNamespacedServiceAccount(namespace: string, body: ServiceAccount, fault: Option<ApiError>) returns (r: Result<ServiceAccount, ApiError>)
      requires Valid()
      modifies this`accounts, this`log
      ensures Valid()
      ensures r == CreateResult(namespaces, old(accounts), namespace, body, fault)
      ensures accounts == AfterCreate(namespaces, old(accounts), namespace, body, fault)
      ensures log == old(log) + [CreateAccount(namespace, body)]
    {
      r := CreateResult(namespaces, accounts, namespace, body, fault);
      accounts := AfterCreate(namespaces, accounts, namespace, body, fault);
      log := log + [CreateAccount(namespace, body)];
    }

    /** create_namespaced_service_account_token: mints a token, persists nothing. */
    method CreateNamespacedServiceAccountToken(name: string, namespace: string, expirationSeconds: int, fault: Option<ApiError>, token: string)
      returns (r: Result<string, ApiError>)
      requires Valid()
      modifies this`log
      ensures r == TokenResult(accounts, AccountRef(namespace, name), fault, token)
      ensures log == old(log) + [RequestToken(AccountRef(namespace, name), expirationSeconds)]
    {
      r := TokenResult(accounts, AccountRef(namespace, name), fault, token);
      log := log + [RequestToken(AccountRef(namespace, name), expirationSeconds)];
    }
  }
}
