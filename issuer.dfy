/**
 * The credential-issuance handler behind POST /api/generate-kubeconfig:
 * validate the request, make sure the service account exists, request a
 * token for it, resolve the API server and its CA, and return the
 * kubeconfig. Each step that raises ends the request with a 500 and no
 * document; what the cluster stored up to that point stays stored.
 */
module Issuer {
  import opened Wrappers
  import opened Bytes
  import opened PyInt
  import opened Cluster
  import opened Endpoint
  import opened Kubeconfig
  import TextFile
  import Utf8
  import Base64

  /**
   * The request body's fields. namespace and serviceAccountName are None when
   * absent or null; tokenDuration is None only when the key is absent (an
   * explicit null is Some(JNull)).
   */
  datatype Request = Request(namespace: Option<string>, serviceAccountName: Option<string>, tokenDuration: Option<Json>)

  /** What an exception raised inside the handler's try block was about. */
  datatype Error =
    | NoClusterAccess                  // loading the in-cluster configuration raised
    | Api(apiError: ApiError)          // an ApiException from a cluster call
    | InvalidDuration(duration: Json)  // int(duration) raised
    | MissingVariable(name: string)    // os.environ[name] raised KeyError
    | CaUnreadable                     // opening the CA file raised
    | CaNotUtf8                        // reading the CA file raised UnicodeDecodeError

  /** The 400, 500 and 200 responses. */
  datatype Response = BadRequest(message: string) | ServerError(error: Error) | Ok(config: Kubeconfig)

  function StatusCode(r: Response): int {
    match r
    case BadRequest(_) => 400
    case ServerError(_) => 500
    case Ok(_) => 200
  }

  const RequiredMessage: string := "namespace and serviceAccountName are required"
  const DefaultTokenDuration: int := 3600
  const ClusterName: string := "openshift"

  /** Python truthiness of a field that is a string or None. */
  predicate Truthy(v: Option<string>) {
    v.Some? && v.value != ""
  }

  predicate Valid(req: Request) {
    Truthy(req.namespace) && Truthy(req.serviceAccountName)
  }

  /** data.get('tokenDuration', 3600). */
  function Duration(req: Request): Json {
    match req.tokenDuration
    case None => JInt(DefaultTokenDuration)
    case Some(v) => v
  }

  /** The result of the create-if-absent step: the error it raised, the stored accounts after it, the calls it made. */
  datatype Provisioned = Provisioned(error: Option<ApiError>, accounts: Accounts, calls: seq<Call>)

  /**
   * Read the service account; on a 404 create it with only its name set; any
   * other ApiException, and any failure of the create, propagates.
   */
  function Provision(namespaces: set<string>, accounts: Accounts, ref: AccountRef, oracle: Oracle): (p: Provisioned)
    ensures p.accounts == accounts || (ref !in accounts && p.accounts == accounts[ref := NameOnly(ref.name)])
    ensures p.error.None? ==> ref in p.accounts
    ensures 1 <= |p.calls| <= 2 && p.calls[0] == ReadAccount(ref)
    ensures |p.calls| == 2 <==> Read(accounts, ref, oracle.readFault).Failure? && Read(accounts, ref, oracle.readFault).error.status == NotFound
    ensures |p.calls| == 2 ==>
      var c := CreateResult(namespaces, accounts, ref.namespace, NameOnly(ref.name), oracle.createFault);
      && (c.Failure? ==> p.error == Some(c.error) && p.accounts == accounts)
      && (c.Success? ==> p.error.None?)
  {
    match Read(accounts, ref, oracle.readFault)
    case Success(_) => Provisioned(None, accounts, [ReadAccount(ref)])
    case Failure(e) =>
      if e.status == NotFound then
        var body := NameOnly(ref.name);
        var calls := [ReadAccount(ref), CreateAccount(ref.namespace, body)];
        match CreateResult(namespaces, accounts, ref.namespace, body, oracle.createFault)
        case Failure(e') => Provisioned(Some(e'), accounts, calls)
        case Success(_) => Provisioned(None, AfterCreate(namespaces, accounts, ref.namespace, body, oracle.createFault), calls)
      else Provisioned(Some(e), accounts, [ReadAccount(ref)])
  }

  /** The steps after the token: endpoint, then CA file, then assembly. */
  function Finish(env: Environment, caFile: Option<seq<Byte>>, ref: AccountRef, token: string): Response {
    match ClusterUrl(env)
    case Failure(key) => ServerError(MissingVariable(key))
    case Success(url) =>
      match caFile
      case None => ServerError(CaUnreadable)
      case Some(raw) =>
        match TextFile.ReadText(raw)
        case None => ServerError(CaNotUtf8)
        case Some(text) => Ok(Assemble(ClusterName, url, Base64.Encode(Utf8.Encode(text)), ref.name, token, ref.namespace))
  }

  /** A handled request: the response, the stored accounts afterwards, and the cluster calls it made in order. */
  datatype Outcome = Outcome(response: Response, accounts: Accounts, calls: seq<Call>)

  /** The whole handler as a function of its inputs and the cluster's state before the request. */
  function Issue(req: Request, env: Environment, caFile: Option<seq<Byte>>, namespaces: set<string>, accounts: Accounts, oracle: Oracle): Outcome {
    if !Valid(req) then Outcome(BadRequest(RequiredMessage), accounts, [])
    else if !oracle.connected then Outcome(ServerError(NoClusterAccess), accounts, [])
    else
      var ref := AccountRef(req.namespace.value, req.serviceAccountName.value);
      var p := Provision(namespaces, accounts, ref, oracle);
      if p.error.Some? then Outcome(ServerError(Api(p.error.value)), p.accounts, p.calls)
      else
        match IntOf(Duration(req))
        case None => Outcome(ServerError(InvalidDuration(Duration(req))), p.accounts, p.calls)
        case Some(seconds) =>
          var calls := p.calls + [RequestToken(ref, seconds)];
          match TokenResult(p.accounts, ref, oracle.tokenFault, oracle.token)
          case Failure(e) => Outcome(ServerError(Api(e)), p.accounts, calls)
          case Success(token) => Outcome(Finish(env, caFile, ref, token), p.accounts, calls)
  }

  /** The create-if-absent step against the API server. */
  method EnsureServiceAccount(api: ApiServer, namespace: string, name: string, oracle: Oracle) returns (error: Option<ApiError>)
    requires api.Valid()
    modifies api
    ensures api.Valid()
    ensures var p := Provision(api.namespaces, old(api.accounts), AccountRef(namespace, name), oracle);
      error == p.error && api.accounts == p.accounts && api.log == old(api.log) + p.calls
  {
    var read := api.ReadNamespacedServiceAccount(name, namespace, oracle.readFault);
    if read.Failure? {
      if read.error.status == NotFound {
        var created := api.CreateNamespacedServiceAccount(namespace, NameOnly(name), oracle.createFault);
        if created.Failure? {
          return Some(created.error);
        }
      } else {
        return Some(read.error);
      }
    }
    return None;
  }

  /** generate_kubeconfig, step by step against the API server. */
  method GenerateKubeconfig(api: ApiServer, req: Request, env: Environment, caFile: Option<seq<Byte>>, oracle: Oracle) returns (response: Response)
    requires api.Valid()
    modifies api
    ensures api.Valid()
    ensures var o := Issue(req, env, caFile, api.namespaces, old(api.accounts), oracle);
      response == o.response && api.accounts == o.accounts && api.log == old(api.log) + o.calls
  {
    if !(Truthy(req.namespace) && Truthy(req.serviceAccountName)) {
      return BadRequest(RequiredMessage);
    }
    if !oracle.connected {
      return ServerError(NoClusterAccess);
    }
    var namespace, saName := req.namespace.value, req.serviceAccountName.value;
    var provisionError := EnsureServiceAccount(api, namespace, saName, oracle);
    if provisionError.Some? {
      return ServerError(Api(provisionError.value));
    }
    var duration := Duration(req);
    var seconds := IntOf(duration);
    if seconds.None? {
      return ServerError(InvalidDuration(duration));
    }
    var tokenResponse := api.CreateNamespacedServiceAccountToken(saName, namespace, seconds.value, oracle.tokenFault, oracle.token);
    if tokenResponse.Failure? {
      return ServerError(Api(tokenResponse.error));
    }
    var token := tokenResponse.value;
    var clusterUrl := ClusterUrl(env);
    if clusterUrl.Failure? {
      return ServerError(MissingVariable(clusterUrl.error));
    }
    if caFile.None? {
      return ServerError(CaUnreadable);
    }
    var caText := TextFile.ReadText(caFile.value);
    if caText.None? {
      return ServerError(CaNotUtf8);
    }
    var caData := Base64.Encode(Utf8.Encode(caText.value));
    response := Ok(Assemble(ClusterName, clusterUrl.value, caData, saName, token, namespace));
  }

  /** A missing or empty namespace or name, and only that, gives the 400; the cluster is then never called. */
  lemma ValidationComesFirst(req: Request, env: Environment, caFile: Option<seq<Byte>>, namespaces: set<string>, accounts: Accounts, oracle: Oracle)
    ensures var o := Issue(req, env, caFile, namespaces, accounts, oracle);
      (o.response == BadRequest(RequiredMessage) <==> !Valid(req))
      && (o.response.BadRequest? ==> o.calls == [] && o.accounts == accounts)
      && (Valid(req) && oracle.connected ==> o.calls != [] && o.calls[0] == ReadAccount(AccountRef(req.namespace.value, req.serviceAccountName.value)))
  {
  }

  /** Without tokenDuration the token is requested for 3600 seconds; with it, for int(tokenDuration) seconds. */
  lemma TokenLifetime(req: Request, env: Environment, caFile: Option<seq<Byte>>, namespaces: set<string>, accounts: Accounts, oracle: Oracle)
    ensures req.tokenDuration.None? ==> IntOf(Duration(req)) == Some(DefaultTokenDuration)
    ensures req.tokenDuration.Some? ==> IntOf(Duration(req)) == IntOf(req.tokenDuration.value)
    ensures var o := Issue(req, env, caFile, namespaces, accounts, oracle);
      forall i :: 0 <= i < |o.calls| && o.calls[i].RequestToken? ==>
        o.calls[i] == RequestToken(AccountRef(req.namespace.value, req.serviceAccountName.value), IntOf(Duration(req)).value)
  {
  }

  /** The three outcomes of the create-if-absent step. */
  lemma ProvisionOutcomes(namespaces: set<string>, accounts: Accounts, ref: AccountRef, oracle: Oracle)
    ensures var p := Provision(namespaces, accounts, ref, oracle);
      var read := Read(accounts, ref, oracle.readFault);
      && (read.Success? ==> p == Provisioned(None, accounts, [ReadAccount(ref)]))
      && (read.Failure? && read.error.status == NotFound ==>
            && p.calls == [ReadAccount(ref), CreateAccount(ref.namespace, NameOnly(ref.name))]
            && var c := CreateResult(namespaces, accounts, ref.namespace, NameOnly(ref.name), oracle.createFault);
            && (c.Success? ==> p.error.None? && ref !in accounts && p.accounts == accounts[ref := NameOnly(ref.name)] && |p.accounts| == |accounts| + 1)
            && (c.Failure? ==> p.error == Some(c.error) && p.accounts == accounts)
            && (ref.namespace in namespaces && ref in accounts && oracle.createFault.None? ==> c == Failure(ApiError(Conflict, "AlreadyExists"))))
      && (read.Failure? && read.error.status != NotFound ==> p == Provisioned(Some(read.error), accounts, [ReadAccount(ref)]))
  {
    var p := Provision(namespaces, accounts, ref, oracle);
    if p.error.None? && p.accounts != accounts {
      assert p.accounts.Keys == accounts.Keys + {ref};
    }
  }

  /** With nothing failing, an absent account in an existing namespace is created, and one present is left alone. */
  lemma ProvisionCreatesIfAbsent(namespaces: set<string>, accounts: Accounts, ref: AccountRef, oracle: Oracle)
    requires oracle.readFault.None? && oracle.createFault.None?
    requires ref.namespace in namespaces
    ensures var p := Provision(namespaces, accounts, ref, oracle);
      && p.error.None?
      && p.accounts == (if ref in accounts then accounts else accounts[ref := NameOnly(ref.name)])
  {
  }

  /** Running the step a second time creates nothing and changes nothing, unless its read itself fails. */
  lemma ProvisionIdempotent(namespaces: set<string>, accounts: Accounts, ref: AccountRef, first: Oracle, second: Oracle)
    requires Provision(namespaces, accounts, ref, first).error.None?
    requires second.readFault.None?
    ensures var once := Provision(namespaces, accounts, ref, first);
      var twice := Provision(namespaces, once.accounts, ref, second);
      twice == Provisioned(None, once.accounts, [ReadAccount(ref)])
  {
  }

  /** The stored accounts change only through provisioning: at most the requested account, carrying only its name, is added. */
  lemma OnlyProvisioningWrites(req: Request, env: Environment, caFile: Option<seq<Byte>>, namespaces: set<string>, accounts: Accounts, oracle: Oracle)
    requires Consistent(namespaces, accounts)
    ensures var o := Issue(req, env, caFile, namespaces, accounts, oracle);
      && Consistent(namespaces, o.accounts)
      && (o.accounts == accounts
          || (Valid(req) && var ref := AccountRef(req.namespace.value, req.serviceAccountName.value);
              ref !in accounts && o.accounts == accounts[ref := NameOnly(ref.name)]))
      && (forall i :: 0 <= i < |o.calls| && o.calls[i].CreateAccount? ==> o.calls[i].body == NameOnly(req.serviceAccountName.value))
      && (Valid(req) && oracle.connected ==>
            o.accounts == Provision(namespaces, accounts, AccountRef(req.namespace.value, req.serviceAccountName.value), oracle).accounts)
  {
    var o := Issue(req, env, caFile, namespaces, accounts, oracle);
    if Valid(req) {
      var ref := AccountRef(req.namespace.value, req.serviceAccountName.value);
      var p := Provision(namespaces, accounts, ref, oracle);
      if p.accounts != accounts {
        assert p.accounts == AfterCreate(namespaces, accounts, ref.namespace, NameOnly(ref.name), oracle.createFault);
      }
    }
  }

  /** The response is a document exactly when every step succeeds; any step that raises short-circuits to a 500. */
  lemma OkExactlyWhenEveryStepSucceeds(req: Request, env: Environment, caFile: Option<seq<Byte>>, namespaces: set<string>, accounts: Accounts, oracle: Oracle)
    requires Valid(req)
    ensures var o := Issue(req, env, caFile, namespaces, accounts, oracle);
      var ref := AccountRef(req.namespace.value, req.serviceAccountName.value);
      var p := Provision(namespaces, accounts, ref, oracle);
      && (o.response.Ok? <==>
            && oracle.connected
            && p.error.None?
            && IntOf(Duration(req)).Some?
            && TokenResult(p.accounts, ref, oracle.tokenFault, oracle.token).Success?
            && ClusterUrl(env).Success?
            && caFile.Some? && TextFile.ReadText(caFile.value).Some?)
      && (!o.response.Ok? ==> o.response.ServerError? && StatusCode(o.response) == 500)
  {
  }

  /**
   * A 200 carries a self-contained document for the requested account in the
   * requested namespace, with the token minted for that same account after
   * provisioning it, the resolved server and the encoded CA file.
   */
  lemma SuccessfulIssue(req: Request, env: Environment, caFile: Option<seq<Byte>>, namespaces: set<string>, accounts: Accounts, oracle: Oracle)
    requires Issue(req, env, caFile, namespaces, accounts, oracle).response.Ok?
    ensures Valid(req) && oracle.connected && ClusterUrl(env).Success? && caFile.Some? && TextFile.ReadText(caFile.value).Some?
    ensures var o := Issue(req, env, caFile, namespaces, accounts, oracle);
      var k := o.response.config;
      var ns, sa := req.namespace.value, req.serviceAccountName.value;
      var ref := AccountRef(ns, sa);
      && SelfContained(k)
      && k.clusters[0].name == ClusterName
      && k.currentContext == ContextName(sa, ClusterName) && k.users[0].name == sa
      && Select(k) == Some(Credentials(
           Server(ClusterUrl(env).value),
           Base64.Encode(Utf8.Encode(TextFile.ReadText(caFile.value).value)),
           oracle.token, ns))
      && ref in o.accounts
      && o.calls[0] == ReadAccount(ref)
      && o.calls[|o.calls| - 1] == RequestToken(ref, IntOf(Duration(req)).value)
  {
    var ns, sa := req.namespace.value, req.serviceAccountName.value;
    var text := TextFile.ReadText(caFile.value).value;
    AssembleSelects(ClusterName, ClusterUrl(env).value, Base64.Encode(Utf8.Encode(text)), sa, oracle.token, ns);
  }

  /**
   * The certificate-authority-data of a 200 decodes to the UTF-8 bytes of the
   * CA text, has length 4 * ceil(n / 3) for n such bytes, and is the file's
   * own bytes exactly when the file holds no carriage return.
   */
  lemma EmbeddedCaDecodes(req: Request, env: Environment, caFile: Option<seq<Byte>>, namespaces: set<string>, accounts: Accounts, oracle: Oracle)
    requires Issue(req, env, caFile, namespaces, accounts, oracle).response.Ok?
    ensures caFile.Some? && TextFile.ReadText(caFile.value).Some?
    ensures var caData := Issue(req, env, caFile, namespaces, accounts, oracle).response.config.clusters[0].cluster.certificateAuthorityData;
      var bytes := Utf8.Encode(TextFile.ReadText(caFile.value).value);
      && Base64.Decode(caData) == Some(bytes)
      && |caData| == 4 * ((|bytes| + 2) / 3)
      && (Base64.Decode(caData) == Some(caFile.value) <==> 13 !in caFile.value)
  {
    var bytes := Utf8.Encode(TextFile.ReadText(caFile.value).value);
    Base64.DecodeEncode(bytes);
    if 13 !in caFile.value {
      TextFile.ReadTextPreservesBytes(caFile.value);
    } else {
      TextFile.ReadTextChangesCrFiles(caFile.value);
    }
  }

  /** Repeating a request that succeeded creates nothing and leaves the stored accounts as the first request left them. */
  lemma RepeatedRequestCreatesNothing(req: Request, env: Environment, caFile: Option<seq<Byte>>, namespaces: set<string>, accounts: Accounts, first: Oracle, second: Oracle)
    requires Issue(req, env, caFile, namespaces, accounts, first).response.Ok?
    requires second.readFault.None?
    ensures var once := Issue(req, env, caFile, namespaces, accounts, first);
      var twice := Issue(req, env, caFile, namespaces, once.accounts, second);
      && twice.accounts == once.accounts
      && forall i :: 0 <= i < |twice.calls| ==> !twice.calls[i].CreateAccount?
  {
    var ref := AccountRef(req.namespace.value, req.serviceAccountName.value);
    ProvisionIdempotent(namespaces, accounts, ref, first, second);
  }
}
